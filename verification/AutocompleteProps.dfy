/** Collecting the properties of a type for completion, over a type graph that may be shared and cyclic. */
module AutocompleteProps {
  import opened Basics

  type TyId = nat

  /** Property names, with the type read from them if they can be read. */
  type Props = map<string, Option<TyId>>

  /** A type. Every reference is to a type that is not bound; the options of a union are not unions. */
  datatype Ty =
    | Extern(props: Props, parent: Option<TyId>)
    | Table(props: Props, indexer: seq<(string, TyId)>)
    | Metatable(table: TyId, metatable: TyId)
    | Intersection(parts: seq<TyId>)
    | Union(options: seq<TyId>)
    | Primitive(builtinMeta: Option<TyId>)
    | StringSingleton
    | Function(ret: Option<TyId>)
    | Nil
    | Error
    | Never
    | Other

  /** The suggested names, each with the type it is suggested for. */
  type Entries = map<string, TyId>

  const PARSE_NAME_ERROR := "%error-id%"

  /** What adding `props` to `result` gives: names already there take precedence. */
  function Filled(result: Entries, props: Props): Entries {
    map n | n in result.Keys + props.Keys && (n in result || (props[n].Some? && n != PARSE_NAME_ERROR)) ::
      if n in result then result[n] else props[n].value
  }

  /** String singletons of an indexer are suggested in any case. */
  function Indexed(result: Entries, indexer: seq<(string, TyId)>): Entries
    decreases |indexer|
  {
    if indexer == [] then result
    else Indexed(result[indexer[0].0 := indexer[0].1], indexer[1..])
  }

  /** The names of `first` that `second` has too. */
  function Common(first: Entries, second: Entries): Entries {
    map n | n in first && n in second :: first[n]
  }

  datatype Graph = Graph(types: map<TyId, Ty>, stringType: TyId, point: bool, inheritMetatables: bool, skipErrors: bool) {

    predicate Skippable(id: TyId)
      requires id in types
    {
      types[id].Nil? || (skipErrors && (types[id].Error? || types[id].Never?))
    }

    /** The options of a union that count. */
    function Counted(options: seq<TyId>): seq<TyId>
      requires forall o :: o in options ==> o in types
      decreases |options|
    {
      if options == [] then []
      else if Skippable(options[0]) then Counted(options[1..])
      else [options[0]] + Counted(options[1..])
    }

    /** The properties of the table a metatable stands for. */
    function TableOf(id: TyId): Option<Props>
      requires Valid() && id in types
    {
      match types[id]
      case Table(props, _) => Some(props)
      case Metatable(table, _) =>
        if inheritMetatables && types[table].Table? then Some(types[table].props) else None
      case _ => None
    }

    predicate PropsOk(props: Props) {
      forall n :: n in props ==> PropOk(props[n])
    }

    /** Where properties that are missing are looked up. */
    function IndexTarget(mtable: Option<Props>): (target: Option<TyId>)
      requires Valid() && (mtable.Some? ==> PropsOk(mtable.value))
      ensures PropOk(target)
    {
      if mtable.Some? && "__index" in mtable.value && mtable.value["__index"].Some? then
        var followed := mtable.value["__index"].value;
        match types[followed]
        case Table(_, _) => Some(followed)
        case Metatable(_, _) => Some(followed)
        case Function(ret) => ret
        case _ => None
      else None
    }

    predicate PropOk(p: Option<TyId>) {
      p.Some? ==> p.value in types
    }

    predicate Valid() {
      && stringType in types
      && forall id :: id in types ==>
           match types[id]
           case Extern(props, parent) => PropsOk(props) && PropOk(parent)
           case Table(props, indexer) => PropsOk(props)
           case Metatable(table, metatable) => table in types && metatable in types
           case Intersection(parts) => forall p :: p in parts ==> p in types
           case Union(options) => forall o :: o in options ==> o in types && !types[o].Union?
           case Primitive(metatable) => PropOk(metatable)
           case Function(ret) => PropOk(ret)
           case _ => true
    }

    /** The types that completing `id` goes on to, in order. */
    function Children(id: TyId): (kids: seq<TyId>)
      requires Valid() && id in types
      ensures forall k :: k in kids ==> k in types
    {
      match types[id]
      case Extern(_, parent) => AsSeq(parent)
      case Metatable(table, metatable) => [table] + AsSeq(IndexTarget(TableOf(metatable)))
      case Intersection(parts) => parts
      case Union(options) => CountedOk(options); Counted(options)
      case Primitive(meta) =>
        AsSeq(IndexTarget(if meta.Some? && types[meta.value].Table? then Some(types[meta.value].props) else None))
      case StringSingleton => [stringType]
      case _ => []
    }

    /** A property that such a metatable lacks is looked up in `j`, or in what calling it gives first. */
    ghost predicate ReadsIndex(props: Props, j: TyId) {
      "__index" in props && props["__index"].Some? && props["__index"].value in types &&
      var followed := props["__index"].value;
      || ((types[followed].Table? || types[followed].Metatable?) && j == followed)
      || (types[followed].Function? && types[followed].ret == Some(j))
    }

    /** Where a property is looked up that `id` itself lacks. */
    ghost predicate FallsBackOn(id: TyId, j: TyId)
      requires Valid() && id in types
    {
      match types[id]
      case Extern(_, parent) => parent == Some(j)
      case Metatable(_, metatable) =>
        || (types[metatable].Table? && ReadsIndex(types[metatable].props, j))
        || (types[metatable].Metatable? && inheritMetatables && types[types[metatable].table].Table? &&
            ReadsIndex(types[types[metatable].table].props, j))
      case Primitive(meta) => meta.Some? && types[meta.value].Table? && ReadsIndex(types[meta.value].props, j)
      case StringSingleton => j == stringType
      case _ => false
    }

    /** An option counts unless it is nil, or, if these are to be skipped, an error or never. */
    ghost predicate Counts(id: TyId)
      requires id in types
    {
      !types[id].Nil? && !(skipErrors && (types[id].Error? || types[id].Never?))
    }

    /** From `i` on, `kids` are the options that count, in order. */
    ghost predicate Picks(options: seq<TyId>, i: nat, kids: seq<TyId>, at: seq<nat>)
      requires forall o :: o in options ==> o in types
    {
      && |at| == |kids| && (forall k :: 0 <= k < |at| ==> i <= at[k] < |options| && kids[k] == options[at[k]])
      && (forall k, l :: 0 <= k < l < |at| ==> at[k] < at[l])
      && forall j: nat :: i <= j < |options| ==>
           (j in at <==> Counts(options[j]))
    }

    lemma {:induction false} CountedPicks(options: seq<TyId>, i: nat) returns (at: seq<nat>)
      requires i <= |options| && forall o :: o in options ==> o in types
      ensures Picks(options, i, Counted(options[i..]), at)
      decreases |options| - i
    {
      at := [];
      CountedFrom(options, i);
      if i < |options| {
        hide Counted, Picks;
        var rest := CountedPicks(options, i + 1);
        assert Counts(options[i]) == !Skippable(options[i]);
        at := if Counts(options[i]) then [i] + rest else rest;
        PickOneMore(options, i, Counted(options[i + 1..]), rest);
      }
    }

    lemma PickOneMore(options: seq<TyId>, i: nat, kids: seq<TyId>, rest: seq<nat>)
      requires (forall o :: o in options ==> o in types) && i < |options| && Picks(options, i + 1, kids, rest)
      ensures if Counts(options[i]) then Picks(options, i, [options[i]] + kids, [i] + rest)
              else Picks(options, i, kids, rest)
    {
      hide Counts;
      assert forall j :: j in [i] + rest <==> j == i || j in rest;
    }

    /** What completing goes on to: the parts, the options that count, the table, and what is fallen back on. */
    lemma ChildrenAre(id: TyId)
      requires Valid() && id in types
      ensures var kids := Children(id);
        match types[id]
        case Intersection(parts) => kids == parts
        case Union(options) => exists at :: Picks(options, 0, kids, at)
        case Metatable(table, _) =>
          kids != [] && kids[0] == table && |kids| <= 2 && forall j: TyId :: FallsBackOn(id, j) <==> |kids| == 2 && kids[1] == j
        case _ => |kids| <= 1 && forall j: TyId :: FallsBackOn(id, j) <==> kids == [j]
    {
      match types[id]
      case Union(options) =>
        var at := CountedPicks(options, 0);
        assert options[0..] == options;
      case Metatable(_, metatable) => IndexTargetIs(TableOf(metatable));
      case Primitive(meta) =>
        IndexTargetIs(if meta.Some? && types[meta.value].Table? then Some(types[meta.value].props) else None);
      case _ =>
    }

    lemma IndexTargetIs(mtable: Option<Props>)
      requires Valid() && (mtable.Some? ==> PropsOk(mtable.value))
      ensures forall j: TyId :: IndexTarget(mtable) == Some(j) <==> mtable.Some? && ReadsIndex(mtable.value, j)
    {
    }

    lemma CountedOk(options: seq<TyId>)
      requires forall o :: o in options ==> o in types
      ensures forall o :: o in Counted(options) <==> o in options && !Skippable(o)
      decreases |options|
    {
      if options != [] {
        CountedOk(options[1..]);
      }
    }

    lemma CountedFrom(options: seq<TyId>, i: nat)
      requires i <= |options| && forall o :: o in options ==> o in types
      ensures i == |options| ==> Counted(options[i..]) == []
      ensures i < |options| && Skippable(options[i]) ==> Counted(options[i..]) == Counted(options[i + 1..])
      ensures i < |options| && !Skippable(options[i]) ==>
        && Counted(options[i..]) != [] && Counted(options[i..])[0] == options[i]
        && Counted(options[i..])[1..] == Counted(options[i + 1..])
    {
      if i < |options| {
        assert options[i..][1..] == options[i + 1..];
      }
    }

    /** The names `id` itself contributes, added to what has been collected. */
    function Own(id: TyId, result: Entries): Entries
      requires id in types
    {
      match types[id]
      case Extern(props, _) => Filled(result, props)
      case Table(props, indexer) => if point then Indexed(Filled(result, props), indexer) else Filled(result, props)
      case _ => result
    }

    // ---- the measure that falls with every call

    ghost function Branching(): set<TyId> {
      set id | id in types && (types[id].Union? || types[id].Intersection?)
    }

    ghost function Rank(seen: set<TyId>): nat {
      |Branching() - seen|
    }

    lemma RankMonotone(seen: set<TyId>, more: set<TyId>)
      requires seen <= more
      ensures Rank(more) <= Rank(seen) && |types.Keys - more| <= |types.Keys - seen|
    {
      SubsetSize(types.Keys - more, types.Keys - seen);
      SubsetSize(Branching() - more, Branching() - seen);
    }

    lemma RankFalls(seen: set<TyId>, more: set<TyId>, ty: TyId)
      requires seen + {ty} <= more && ty in types && ty !in seen
      ensures Rank(more) <= Rank(seen) && |types.Keys - more| < |types.Keys - seen|
      ensures types[ty].Union? || types[ty].Intersection? ==> Rank(more) < Rank(seen)
      ensures Rank(more * Branching()) == Rank(more)
    {
      SubsetSize(types.Keys - more, types.Keys - seen);
      SubsetSize(Branching() - more, Branching() - seen);
      assert Branching() - more * Branching() == Branching() - more;
      assert ty in types.Keys - seen;
      assert ty in Branching() ==> ty in Branching() - seen;
    }
  }

  lemma SubsetSize(a: set<TyId>, b: set<TyId>)
    requires a <= b
    ensures |a| <= |b| && (a != b ==> |a| < |b|)
  {
    assert b == a + (b - a);
  }

  function AsSeq(o: Option<TyId>): seq<TyId> {
    if o.Some? then [o.value] else []
  }

  // ---------------------------------------------------------------- trees of types

  /** What a type unfolds to. */
  datatype Tree = Tree(id: TyId, kids: seq<Tree>)

  /** The type `t.id` of the graph unfolds to the tree `t`. */
  ghost predicate Unfolds(g: Graph, t: Tree)
    requires g.Valid()
    decreases t
  {
    && t.id in g.types && |t.kids| == |g.Children(t.id)|
    && forall i :: 0 <= i < |t.kids| ==> t.kids[i].id == g.Children(t.id)[i] && Unfolds(g, t.kids[i])
  }

  ghost function Nodes(t: Tree): set<TyId>
    decreases t, 0
  {
    {t.id} + ForestNodes(t.kids)
  }

  ghost function ForestNodes(ts: seq<Tree>): set<TyId>
    decreases ts, 1
  {
    if ts == [] then {} else Nodes(ts[0]) + ForestNodes(ts[1..])
  }

  /** No type occurs twice. */
  ghost predicate Unshared(t: Tree)
    decreases t, 0
  {
    t.id !in ForestNodes(t.kids) && UnsharedForest(t.kids)
  }

  ghost predicate UnsharedForest(ts: seq<Tree>)
    decreases ts, 1
  {
    ts == [] || (Unshared(ts[0]) && Nodes(ts[0]) !! ForestNodes(ts[1..]) && UnsharedForest(ts[1..]))
  }

  /** What completing the tree adds to, and takes from, what has been collected: the algorithm without the set of seen types. */
  ghost function Completed(g: Graph, t: Tree, result: Entries): Entries
    requires g.Valid() && Unfolds(g, t)
    decreases t, 0
  {
    match g.types[t.id]
    case Intersection(_) => Joined(g, t.kids, result)
    case Union(_) =>
      if t.kids == [] then result
      else Narrowed(g, t.kids[1..], Completed(g, t.kids[0], result))
    case _ => Chained(g, t.kids, g.Own(t.id, result))
  }

  ghost predicate Forest(g: Graph, ts: seq<Tree>)
    requires g.Valid()
  {
    forall i :: 0 <= i < |ts| ==> Unfolds(g, ts[i])
  }

  /** One after the other, into the same result. */
  ghost function Chained(g: Graph, ts: seq<Tree>, result: Entries): Entries
    requires g.Valid() && Forest(g, ts)
    decreases ts, 1
  {
    if ts == [] then result else Chained(g, ts[1..], Completed(g, ts[0], result))
  }

  /** Each by itself, adding what is new. */
  ghost function Joined(g: Graph, ts: seq<Tree>, result: Entries): Entries
    requires g.Valid() && Forest(g, ts)
    decreases ts, 1
  {
    if ts == [] then result else Joined(g, ts[1..], Completed(g, ts[0], map[]) + result)
  }

  /** Each by itself, keeping what all have. */
  ghost function Narrowed(g: Graph, ts: seq<Tree>, result: Entries): Entries
    requires g.Valid() && Forest(g, ts)
    decreases ts, 1
  {
    if ts == [] then result else Narrowed(g, ts[1..], Common(result, Completed(g, ts[0], map[])))
  }

  // ---------------------------------------------------------------- what may be shared

  /** What completing the tree leaves marked as seen: of a union the first option only, of an intersection no part. */
  ghost function Marks(g: Graph, t: Tree): set<TyId>
    requires g.Valid() && Unfolds(g, t)
    decreases t, 0
  {
    {t.id} +
    match g.types[t.id]
    case Intersection(_) => {}
    case Union(_) => if t.kids == [] then {} else Marks(g, t.kids[0])
    case _ => MarksOf(g, t.kids)
  }

  ghost function MarksOf(g: Graph, ts: seq<Tree>): set<TyId>
    requires g.Valid() && Forest(g, ts)
    decreases ts, 1
  {
    if ts == [] then {} else Marks(g, ts[0]) + MarksOf(g, ts[1..])
  }

  /** Nothing is met again while it is marked. Parts, and options after the first, start from what was marked before. */
  ghost predicate Fresh(g: Graph, t: Tree, seen: set<TyId>)
    requires g.Valid() && Unfolds(g, t)
    decreases t, 0
  {
    t.id !in seen &&
    match g.types[t.id]
    case Intersection(_) => FreshEach(g, t.kids, seen + {t.id})
    case Union(_) =>
      t.kids == [] ||
      (Fresh(g, t.kids[0], seen + {t.id}) &&
       FreshEach(g, t.kids[1..], (seen + {t.id} + Marks(g, t.kids[0])) * g.Branching()))
    case _ => FreshChain(g, t.kids, seen + {t.id})
  }

  ghost predicate FreshEach(g: Graph, ts: seq<Tree>, seen: set<TyId>)
    requires g.Valid() && Forest(g, ts)
    decreases ts, 1
  {
    ts == [] || (Fresh(g, ts[0], seen) && FreshEach(g, ts[1..], seen))
  }

  ghost predicate FreshChain(g: Graph, ts: seq<Tree>, seen: set<TyId>)
    requires g.Valid() && Forest(g, ts)
    decreases ts, 1
  {
    ts == [] || (Fresh(g, ts[0], seen) && FreshChain(g, ts[1..], seen + Marks(g, ts[0])))
  }

  /** In particular, if no type occurs twice at all. */
  lemma {:induction false} UnsharedIsFresh(g: Graph, t: Tree, seen: set<TyId>)
    requires g.Valid() && Unfolds(g, t) && Unshared(t) && Nodes(t) !! seen
    ensures Fresh(g, t, seen) && Marks(g, t) <= Nodes(t)
    decreases t, 0
  {
    var s := seen + {t.id};
    if g.types[t.id].Intersection? {
      UnsharedIsFreshEach(g, t.kids, s);
    } else if g.types[t.id].Union? {
      if t.kids != [] {
        UnsharedIsFresh(g, t.kids[0], s);
        UnsharedIsFreshEach(g, t.kids[1..], (s + Marks(g, t.kids[0])) * g.Branching());
      }
    } else {
      UnsharedIsFreshChain(g, t.kids, s);
    }
  }

  lemma {:induction false} UnsharedIsFreshEach(g: Graph, ts: seq<Tree>, seen: set<TyId>)
    requires g.Valid() && Forest(g, ts) && UnsharedForest(ts) && ForestNodes(ts) !! seen
    ensures FreshEach(g, ts, seen)
    decreases ts, 1
  {
    if ts != [] {
      UnsharedIsFresh(g, ts[0], seen);
      UnsharedIsFreshEach(g, ts[1..], seen);
    }
  }

  lemma {:induction false} UnsharedIsFreshChain(g: Graph, ts: seq<Tree>, seen: set<TyId>)
    requires g.Valid() && Forest(g, ts) && UnsharedForest(ts) && ForestNodes(ts) !! seen
    ensures FreshChain(g, ts, seen) && MarksOf(g, ts) <= ForestNodes(ts)
    decreases ts, 1
  {
    if ts != [] {
      UnsharedIsFresh(g, ts[0], seen);
      UnsharedIsFreshChain(g, ts[1..], seen + Marks(g, ts[0]));
    }
  }

  /**
   * The options of a union may have types in common, as `"a" | "b"` has `string`, if the first option has no union or
   * intersection in it.
   */
  lemma OptionsMayShare(g: Graph, t: Tree, seen: set<TyId>)
    requires g.Valid() && Unfolds(g, t) && g.types[t.id].Union? && t.id !in seen
    requires forall i :: 0 <= i < |t.kids| ==> Unshared(t.kids[i]) && Nodes(t.kids[i]) !! seen + {t.id}
    requires t.kids != [] ==> Nodes(t.kids[0]) !! g.Branching()
    ensures Fresh(g, t, seen)
  {
    if t.kids != [] {
      UnsharedIsFresh(g, t.kids[0], seen + {t.id});
      EachIsFresh(g, t.kids[1..], (seen + {t.id} + Marks(g, t.kids[0])) * g.Branching());
    }
  }

  lemma {:induction false} EachIsFresh(g: Graph, ts: seq<Tree>, seen: set<TyId>)
    requires g.Valid() && Forest(g, ts)
    requires forall i :: 0 <= i < |ts| ==> Unshared(ts[i]) && Nodes(ts[i]) !! seen
    ensures FreshEach(g, ts, seen)
    decreases |ts|
  {
    if ts != [] {
      UnsharedIsFresh(g, ts[0], seen);
      EachIsFresh(g, ts[1..], seen);
    }
  }

  // ---------------------------------------------------------------- what can be offered at all

  ghost predicate ClosedUnder(g: Graph, cover: set<TyId>)
    requires g.Valid()
  {
    forall id :: id in cover ==> id in g.types && forall k :: k in g.Children(id) ==> k in cover
  }

  /** Type `id` itself lets one read `name`, and what is read is of type `ty`. */
  ghost predicate Declares(g: Graph, id: TyId, name: string, ty: TyId)
    requires id in g.types
  {
    match g.types[id]
    case Extern(props, _) => name in props && props[name] == Some(ty) && name != PARSE_NAME_ERROR
    case Table(props, indexer) =>
      || (name in props && props[name] == Some(ty) && name != PARSE_NAME_ERROR)
      || (g.point && (name, ty) in indexer)
    case _ => false
  }

  ghost predicate Offered(g: Graph, cover: set<TyId>, name: string, ty: TyId) {
    exists id :: id in cover && id in g.types && Declares(g, id, name, ty)
  }

  /** Whatever has been added is a name that some type of the cover lets one read, with the type it has there. */
  ghost predicate Drawn(g: Graph, cover: set<TyId>, before: Entries, after: Entries) {
    forall name :: name in after ==>
      (name in before && after[name] == before[name]) || Offered(g, cover, name, after[name])
  }

  lemma DrawnOn(g: Graph, cover: set<TyId>, a: Entries, b: Entries, c: Entries)
    requires Drawn(g, cover, a, b) && Drawn(g, cover, b, c)
    ensures Drawn(g, cover, a, c)
  {
    hide Offered;
  }

  lemma CommonIsDrawn(g: Graph, cover: set<TyId>, result: Entries, second: Entries)
    ensures Drawn(g, cover, result, Common(result, second))
  {
    hide Offered;
  }

  lemma OwnIsDrawn(g: Graph, cover: set<TyId>, id: TyId, result: Entries)
    requires id in cover && id in g.types
    ensures Drawn(g, cover, result, g.Own(id, result))
  {
    var own := g.Own(id, result);
    forall name | name in own
      ensures (name in result && own[name] == result[name]) || Declares(g, id, name, own[name])
    {
      OwnEntry(g, id, result, name);
    }
  }

  /** Where an entry comes from once a type's own names have been added. */
  lemma OwnEntry(g: Graph, id: TyId, result: Entries, name: string)
    requires id in g.types && name in g.Own(id, result)
    ensures var own := g.Own(id, result);
            (name in result && own[name] == result[name]) || Declares(g, id, name, own[name])
  {
    match g.types[id]
    case Table(props, indexer) =>
      if g.point {
        IndexedEntry(Filled(result, props), indexer, name);
      }
    case _ =>
  }

  lemma {:induction false} IndexedEntry(result: Entries, indexer: seq<(string, TyId)>, name: string)
    requires name in Indexed(result, indexer)
    ensures var r := Indexed(result, indexer);
            (name in result && r[name] == result[name]) || (name, r[name]) in indexer
    decreases |indexer|
  {
    if indexer != [] {
      IndexedEntry(result[indexer[0].0 := indexer[0].1], indexer[1..], name);
    }
  }

  // ---------------------------------------------------------------- the algorithm

  class Completion {
    const g: Graph
    /** Types that the search cannot leave. */
    ghost const cover: set<TyId>
    var result: Entries
    var seen: set<TyId>

    constructor (g: Graph, ghost cover: set<TyId>, seen: set<TyId>)
      ensures this.g == g && this.cover == cover && this.seen == seen && result == map[]
    {
      this.g, this.cover, this.seen, this.result := g, cover, seen, map[];
    }

    method FillProps(props: Props)
      modifies this`result
      ensures result == Filled(old(result), props)
    {
      var todo := props.Keys;
      while todo != {}
        invariant todo <= props.Keys
        invariant result == Filled(old(result), props - todo)
      {
        var name :| name in todo;
        if name !in result && name != PARSE_NAME_ERROR {
          if props[name].Some? {
            result := result[name := props[name].value];
          }
        }
        todo := todo - {name};
      }
      assert props - {} == props;
    }

    method FillIndexer(indexer: seq<(string, TyId)>)
      modifies this`result
      ensures result == Indexed(old(result), indexer)
    {
      for i := 0 to |indexer|
        invariant Indexed(result, indexer[i..]) == Indexed(old(result), indexer)
      {
        result := result[indexer[i].0 := indexer[i].1];
        assert indexer[i..][1..] == indexer[i + 1..];
      }
    }

    /** Names that the other option does not have are noted, and then removed. */
    method RemoveMissing(inner: Entries)
      modifies this`result
      ensures result == Common(old(result), inner)
    {
      var toRemove: set<string> := {};
      var todo := result.Keys;
      while todo != {}
        invariant todo <= result.Keys && result == old(result)
        invariant forall k :: k in toRemove <==> k in result.Keys - todo && k !in inner
      {
        var k :| k in todo;
        if k !in inner {
          toRemove := toRemove + {k};
        }
        todo := todo - {k};
      }
      result := result - toRemove;
    }

    /** The call is for `ty`; given a tree, that is what `ty` unfolds to, and nothing of it is met while it is marked. */
    ghost predicate Ready(ty: TyId, tree: Option<Tree>)
      reads this`seen
    {
      && g.Valid() && ClosedUnder(g, cover) && ty in cover
      && (tree.Some? ==> Unfolds(g, tree.value) && tree.value.id == ty && Fresh(g, tree.value, seen))
    }

    /** `ty` has just been marked. */
    ghost predicate Opening(ty: TyId, tree: Option<Tree>, before: set<TyId>)
      reads this`seen
    {
      && g.Valid() && ClosedUnder(g, cover) && ty in cover && seen == before + {ty}
      && (tree.Some? ==> Unfolds(g, tree.value) && tree.value.id == ty && Fresh(g, tree.value, before))
    }

    /** `ty` has been marked, and its kids from the `i`-th on are still to be completed one after the other. */
    ghost predicate BeforeKid(ty: TyId, tree: Option<Tree>, i: nat)
      reads this`seen
    {
      && g.Valid() && ClosedUnder(g, cover) && ty in cover && ty in seen
      && (tree.Some? ==>
            && Unfolds(g, tree.value) && tree.value.id == ty && i <= |tree.value.kids|
            && FreshChain(g, tree.value.kids[i..], seen))
    }

    /** `ty` has been marked, and each of its kids from the `i`-th on is to be completed by itself, from `start`. */
    ghost predicate BeforeEach(ty: TyId, tree: Option<Tree>, i: nat, start: set<TyId>)
    {
      && g.Valid() && ClosedUnder(g, cover) && ty in cover
      && (tree.Some? ==>
            && Unfolds(g, tree.value) && tree.value.id == ty && i <= |tree.value.kids|
            && Forest(g, tree.value.kids[i..]) && FreshEach(g, tree.value.kids[i..], start))
    }

    ghost function Kid(tree: Option<Tree>, i: nat): Option<Tree> {
      if tree.Some? && i < |tree.value.kids| then Some(tree.value.kids[i]) else None
    }

    lemma InCover(ty: TyId, i: nat)
      requires g.Valid() && ClosedUnder(g, cover) && ty in cover
      ensures ty in g.types && (i < |g.Children(ty)| ==> g.Children(ty)[i] in cover)
    {
    }

    lemma KidOf(t: Tree, i: nat)
      requires g.Valid() && Unfolds(g, t) && i <= |t.kids|
      ensures t.id in g.types && |t.kids| == |g.Children(t.id)| && Forest(g, t.kids[i..])
      ensures i < |t.kids| ==> t.kids[i].id == g.Children(t.id)[i] && Unfolds(g, t.kids[i])
      ensures i < |t.kids| ==> t.kids[i..][0] == t.kids[i] && t.kids[i..][1..] == t.kids[i + 1..]
    {
    }

    /** The next child of a type that completes its children one after the other. */
    method CompleteNext(ty: TyId, child: TyId, ghost tree: Option<Tree>, ghost i: nat)
      requires BeforeKid(ty, tree, i) && ty in g.types && i < |g.Children(ty)| && g.Children(ty)[i] == child
      modifies this
      ensures old(seen) <= seen && BeforeKid(ty, tree, i + 1) && Drawn(g, cover, old(result), result)
      ensures tree.Some? ==>
        && result == Completed(g, tree.value.kids[i], old(result))
        && seen == old(seen) + Marks(g, tree.value.kids[i])
      decreases g.Rank(seen), |g.types.Keys - seen|, 1
    {
      hide Unfolds, Fresh, Marks, Completed, ClosedUnder, Drawn;
      InCover(ty, i);
      if tree.Some? {
        KidOf(tree.value, i);
        KidOf(tree.value, i + 1);
      }
      Complete(child, Kid(tree, i));
    }

    /**
     * Complete `ty`. The call ends on every graph, and adds only names that some type of the cover lets one read. Where
     * nothing is met again while it is marked, it does what `Completed` says.
     */
    method Complete(ty: TyId, ghost tree: Option<Tree>)
      requires Ready(ty, tree)
      modifies this
      ensures old(seen) <= seen && ty in seen && Drawn(g, cover, old(result), result)
      ensures ty in old(seen) ==> seen == old(seen) && result == old(result)
      ensures tree.Some? ==> result == Completed(g, tree.value, old(result)) && seen == old(seen) + Marks(g, tree.value)
      decreases g.Rank(seen), |g.types.Keys - seen|, 0
    {
      hide Unfolds, Fresh, Marks, ClosedUnder, Drawn, Completed;
      InCover(ty, 0);
      DrawnOn0(result);
      if ty in seen {
        if tree.Some? {
          NotSeen(tree.value, seen);
        }
        return;
      }
      ghost var before := seen;
      g.RankFalls(seen, seen + {ty}, ty);
      seen := seen + {ty};
      match g.types[ty] {
        case Extern(_, _) =>
          CompleteExtern(ty, tree, before);
        case Table(_, _) =>
          CompleteTable(ty, tree, before);
        case Metatable(_, _) =>
          CompleteMetatable(ty, tree, before);
        case Intersection(parts) =>
          CompleteParts(ty, parts, tree, before);
        case Union(options) =>
          CompleteOptions(ty, options, tree, before);
        case Primitive(_) =>
          CompletePrimitive(ty, tree, before);
        case StringSingleton =>
          CompleteSingleton(ty, tree, before);
        case _ =>
          if tree.Some? {
            Childless(tree.value, before, result);
          }
      }
    }

    lemma Childless(t: Tree, before: set<TyId>, result: Entries)
      requires g.Valid() && Unfolds(g, t) && Fresh(g, t, before) && t.id in g.types
      ensures t.kids == [] && !g.types[t.id].Intersection? && !g.types[t.id].Union? ==>
        Marks(g, t) == {t.id} && Completed(g, t, result) == g.Own(t.id, result)
      ensures |t.kids| == |g.Children(t.id)|
    {
      CompletedIs(g, t, result);
      Opened(t, before);
    }

    lemma NotSeen(t: Tree, before: set<TyId>)
      requires g.Valid() && Unfolds(g, t) && Fresh(g, t, before)
      ensures t.id !in before
    {
    }

    /** What is left to do of a tree once its root has been marked. */
    lemma Opened(t: Tree, before: set<TyId>)
      requires g.Valid() && Unfolds(g, t) && Fresh(g, t, before) && t.id in g.types
      ensures t.kids[0..] == t.kids && |t.kids| == |g.Children(t.id)| && Forest(g, t.kids)
      ensures g.types[t.id].Intersection? ==> FreshEach(g, t.kids, before + {t.id}) && Marks(g, t) == {t.id}
      ensures g.types[t.id].Union? ==>
        if t.kids == [] then Marks(g, t) == {t.id}
        else && Fresh(g, t.kids[0], before + {t.id}) && Marks(g, t) == {t.id} + Marks(g, t.kids[0])
             && Forest(g, t.kids[1..])
             && FreshEach(g, t.kids[1..], (before + {t.id} + Marks(g, t.kids[0])) * g.Branching())
      ensures !g.types[t.id].Intersection? && !g.types[t.id].Union? ==>
        && FreshChain(g, t.kids, before + {t.id}) && Marks(g, t) == {t.id} + MarksOf(g, t.kids)
        && (|t.kids| == 0 ==> MarksOf(g, t.kids) == {}) && (|t.kids| == 1 ==> MarksOf(g, t.kids) == Marks(g, t.kids[0]))
    {
      hide FreshEach, FreshChain, MarksOf;
      NoMarks(g, t.kids);
      OneMark(g, t.kids);
    }

    lemma DrawnOn0(result: Entries)
      ensures Drawn(g, cover, result, result)
    {
    }

    method CompleteTable(ty: TyId, ghost tree: Option<Tree>, ghost before: set<TyId>)
      requires Opening(ty, tree, before) && ty in g.types && g.types[ty].Table?
      modifies this
      ensures old(seen) <= seen && Drawn(g, cover, old(result), result)
      ensures tree.Some? ==> result == Completed(g, tree.value, old(result)) && seen == before + Marks(g, tree.value)
      decreases g.Rank(seen), |g.types.Keys - seen|, 2
    {
      hide Unfolds, Fresh, Marks, ClosedUnder, Drawn, Completed, Filled, Indexed;
      OwnIsDrawn(g, cover, ty, result);
      if tree.Some? {
        Childless(tree.value, before, result);
      }
      FillProps(g.types[ty].props);
      if g.point {
        FillIndexer(g.types[ty].indexer);
      }
    }

    method CompleteExtern(ty: TyId, ghost tree: Option<Tree>, ghost before: set<TyId>)
      requires Opening(ty, tree, before) && ty in g.types && g.types[ty].Extern?
      modifies this
      ensures old(seen) <= seen && Drawn(g, cover, old(result), result)
      ensures tree.Some? ==> result == Completed(g, tree.value, old(result)) && seen == before + Marks(g, tree.value)
      decreases g.Rank(seen), |g.types.Keys - seen|, 2
    {
      hide Unfolds, Fresh, FreshChain, Marks, MarksOf, ClosedUnder, Drawn, Completed, Filled;
      if tree.Some? {
        CompletedIs(g, tree.value, result);
        Opened(tree.value, before);
      }
      OwnIsDrawn(g, cover, ty, result);
      FillProps(g.types[ty].props);
      if g.types[ty].parent.Some? {
        ghost var own := result;
        CompleteNext(ty, g.types[ty].parent.value, tree, 0);
        DrawnOn(g, cover, old(result), own, result);
      }
    }

    method CompleteSingleton(ty: TyId, ghost tree: Option<Tree>, ghost before: set<TyId>)
      requires Opening(ty, tree, before) && ty in g.types && g.types[ty].StringSingleton?
      modifies this
      ensures old(seen) <= seen && Drawn(g, cover, old(result), result)
      ensures tree.Some? ==> result == Completed(g, tree.value, old(result)) && seen == before + Marks(g, tree.value)
      decreases g.Rank(seen), |g.types.Keys - seen|, 2
    {
      hide Unfolds, Fresh, FreshChain, Marks, MarksOf, ClosedUnder, Drawn, Completed, Filled;
      if tree.Some? {
        CompletedIs(g, tree.value, result);
        Opened(tree.value, before);
      }
      CompleteNext(ty, g.stringType, tree, 0);
    }

    method CompleteMetatable(ty: TyId, ghost tree: Option<Tree>, ghost before: set<TyId>)
      requires Opening(ty, tree, before) && ty in g.types && g.types[ty].Metatable?
      modifies this
      ensures old(seen) <= seen && Drawn(g, cover, old(result), result)
      ensures tree.Some? ==> result == Completed(g, tree.value, old(result)) && seen == before + Marks(g, tree.value)
      decreases g.Rank(seen), |g.types.Keys - seen|, 2
    {
      hide Unfolds, Fresh, FreshChain, Marks, MarksOf, ClosedUnder, Drawn, Completed, Filled;
      if tree.Some? {
        CompletedIs(g, tree.value, result);
        Opened(tree.value, before);
        TwoMarks(g, tree.value.kids);
      }
      CompleteNext(ty, g.types[ty].table, tree, 0);
      g.RankMonotone(old(seen), seen);
      var target := g.IndexTarget(g.TableOf(g.types[ty].metatable));
      if target.Some? {
        ghost var base := result;
        CompleteNext(ty, target.value, tree, 1);
        DrawnOn(g, cover, old(result), base, result);
      }
    }

    method CompletePrimitive(ty: TyId, ghost tree: Option<Tree>, ghost before: set<TyId>)
      requires Opening(ty, tree, before) && ty in g.types && g.types[ty].Primitive?
      modifies this
      ensures old(seen) <= seen && Drawn(g, cover, old(result), result)
      ensures tree.Some? ==> result == Completed(g, tree.value, old(result)) && seen == before + Marks(g, tree.value)
      decreases g.Rank(seen), |g.types.Keys - seen|, 2
    {
      hide Unfolds, Fresh, FreshChain, Marks, MarksOf, ClosedUnder, Drawn, Completed, Filled;
      if tree.Some? {
        CompletedIs(g, tree.value, result);
        Opened(tree.value, before);
      }
      DrawnOn0(result);
      var meta := g.types[ty].builtinMeta;
      if meta.Some? && g.types[meta.value].Table? {
        var target := g.IndexTarget(Some(g.types[meta.value].props));
        if target.Some? {
          CompleteNext(ty, target.value, tree, 0);
        }
      }
    }

    /** Every part by itself; what is new is added. */
    method CompleteParts(ty: TyId, parts: seq<TyId>, ghost tree: Option<Tree>, ghost before: set<TyId>)
      requires Opening(ty, tree, before) && ty in g.types && g.types[ty] == Intersection(parts)
      modifies this`result
      ensures Drawn(g, cover, old(result), result)
      ensures tree.Some? ==> result == Completed(g, tree.value, old(result)) && seen == before + Marks(g, tree.value)
      decreases g.Rank(seen) + 1, 0, 1
    {
      hide Fresh, FreshEach, Marks, Completed, ClosedUnder, Drawn;
      if tree.Some? {
        CompletedIs(g, tree.value, result);
        Opened(tree.value, before);
      }
      DrawnOn0(result);
      for i := 0 to |parts|
        invariant BeforeEach(ty, tree, i, seen) && Drawn(g, cover, old(result), result)
        invariant tree.Some? ==> Joined(g, tree.value.kids[i..], result) == Joined(g, tree.value.kids, old(result))
      {
        ghost var first := result;
        CompletePart(ty, parts[i], tree, i);
        DrawnOn(g, cover, old(result), first, result);
      }
    }

    method CompletePart(ty: TyId, part: TyId, ghost tree: Option<Tree>, ghost i: nat)
      requires BeforeEach(ty, tree, i, seen) && ty in g.types && i < |g.Children(ty)| && g.Children(ty)[i] == part
      modifies this`result
      ensures BeforeEach(ty, tree, i + 1, seen) && Drawn(g, cover, old(result), result)
      ensures tree.Some? ==>
        Joined(g, tree.value.kids[i..], old(result)) == Joined(g, tree.value.kids[i + 1..], result)
      decreases g.Rank(seen) + 1, 0, 0
    {
      hide Fresh, Completed, ClosedUnder;
      InCover(ty, i);
      if tree.Some? {
        KidOf(tree.value, i);
        KidOf(tree.value, i + 1);
      }
      var inner := new Completion(g, cover, seen);
      inner.Complete(part, Kid(tree, i));
      result := inner.result + result;
    }

    /** The first option that counts, and then only what the other options that count have too. */
    method CompleteOptions(ty: TyId, options: seq<TyId>, ghost tree: Option<Tree>, ghost before: set<TyId>)
      requires Opening(ty, tree, before) && ty in g.types && g.types[ty] == Union(options)
      modifies this
      ensures old(seen) <= seen && Drawn(g, cover, old(result), result)
      ensures tree.Some? ==> result == Completed(g, tree.value, old(result)) && seen == before + Marks(g, tree.value)
      decreases g.Rank(seen) + 1, 0, 2
    {
      hide Unfolds, Fresh, FreshEach, Marks, Completed, Narrowed, ClosedUnder, Drawn;
      DrawnOn0(result);
      var i := FirstCounted(options);
      InCover(ty, 0);
      if tree.Some? {
        CompletedIs(g, tree.value, result);
        Opened(tree.value, before);
        KidOf(tree.value, 0);
      }
      if i == |options| {
        return;
      }
      Complete(options[i], Kid(tree, 0));
      g.RankMonotone(old(seen), seen);
      ghost var first := result;
      CompleteOthers(ty, options, i + 1, tree);
      DrawnOn(g, cover, old(result), first, result);
    }

    /** Options that do not count are passed by. */
    method FirstCounted(options: seq<TyId>) returns (i: nat)
      requires g.Valid() && forall o :: o in options ==> o in g.types
      ensures i <= |options| && (i == |options| <==> g.Counted(options) == [])
      ensures i < |options| ==> g.Counted(options)[0] == options[i] && g.Counted(options)[1..] == g.Counted(options[i + 1..])
    {
      i := 0;
      assert options[0..] == options;
      while i < |options| && g.Skippable(options[i])
        invariant i <= |options| && g.Counted(options[i..]) == g.Counted(options)
      {
        g.CountedFrom(options, i);
        i := i + 1;
      }
      g.CountedFrom(options, i);
    }

    method CompleteOthers(ty: TyId, options: seq<TyId>, start: nat, ghost tree: Option<Tree>)
      requires BeforeEach(ty, tree, 1, seen * g.Branching()) && ty in g.types && g.types[ty] == Union(options) && ty in seen
      requires start <= |options| && g.Counted(options) != [] && g.Counted(options)[1..] == g.Counted(options[start..])
      modifies this`result
      ensures Drawn(g, cover, old(result), result)
      ensures tree.Some? ==> result == Narrowed(g, tree.value.kids[1..], old(result))
      decreases g.Rank(seen) + 1, 0, 1
    {
      hide Unfolds, FreshEach, Completed, Narrowed, Common, ClosedUnder, Drawn, Graph.Counted, Graph.Skippable;
      if tree.Some? {
        KidOf(tree.value, 1);
      }
      DrawnOn0(result);
      var i := start;
      ghost var k := 1;
      while i < |options|
        invariant 0 <= i <= |options| && k <= |g.Counted(options)|
        invariant g.Counted(options[i..]) == g.Counted(options)[k..]
        invariant BeforeEach(ty, tree, k, seen * g.Branching()) && Drawn(g, cover, old(result), result)
        invariant tree.Some? ==>
          Narrowed(g, tree.value.kids[k..], result) == Narrowed(g, tree.value.kids[1..], old(result))
      {
        g.CountedFrom(options, i);
        if !g.Skippable(options[i]) {
          DropOne(g.Counted(options), k);
          ghost var before := result;
          CompleteOption(ty, options[i], tree, k);
          DrawnOn(g, cover, old(result), before, result);
          k := k + 1;
        }
        i := i + 1;
      }
      g.CountedFrom(options, i);
      if tree.Some? {
        KidOf(tree.value, k);
        NarrowedByNone(g, tree.value.kids[k..], result);
      }
    }

    /** One more option that counts: of what has been seen only unions and intersections still matter. */
    method CompleteOption(ty: TyId, option: TyId, ghost tree: Option<Tree>, ghost k: nat)
      requires BeforeEach(ty, tree, k, seen * g.Branching()) && ty in g.types && g.types[ty].Union? && ty in seen
      requires k < |g.Children(ty)| && g.Children(ty)[k] == option
      modifies this`result
      ensures BeforeEach(ty, tree, k + 1, seen * g.Branching()) && Drawn(g, cover, old(result), result)
      ensures tree.Some? ==>
        Narrowed(g, tree.value.kids[k..], old(result)) == Narrowed(g, tree.value.kids[k + 1..], result)
      decreases g.Rank(seen) + 1, 0, 0
    {
      hide Unfolds, Fresh, Completed, ClosedUnder, Drawn, Common;
      InCover(ty, k);
      if tree.Some? {
        KidOf(tree.value, k);
        KidOf(tree.value, k + 1);
      }
      var innerSeen := set x | x in seen && x in g.types && (g.types[x].Union? || g.types[x].Intersection?);
      assert innerSeen == seen * g.Branching();
      assert g.Branching() - innerSeen == g.Branching() - seen;
      var inner := new Completion(g, cover, innerSeen);
      inner.Complete(option, Kid(tree, k));
      CommonIsDrawn(g, cover, result, inner.result);
      RemoveMissing(inner.result);
    }
  }

  lemma NoMarks(g: Graph, ts: seq<Tree>)
    requires g.Valid() && Forest(g, ts)
    ensures ts == [] ==> MarksOf(g, ts) == {}
  {
  }

  lemma OneMark(g: Graph, ts: seq<Tree>)
    requires g.Valid() && Forest(g, ts)
    ensures |ts| == 1 ==> MarksOf(g, ts) == Marks(g, ts[0])
  {
  }

  lemma TwoMarks(g: Graph, ts: seq<Tree>)
    requires g.Valid() && Forest(g, ts)
    ensures |ts| == 2 ==> MarksOf(g, ts) == Marks(g, ts[0]) + Marks(g, ts[1])
  {
    if |ts| == 2 {
      OneMark(g, ts[1..]);
    }
  }

  /** What completing a tree comes to, kind by kind. */
  lemma CompletedIs(g: Graph, t: Tree, result: Entries)
    requires g.Valid() && Unfolds(g, t)
    ensures t.id in g.types && |t.kids| == |g.Children(t.id)| && Forest(g, t.kids)
    ensures Completed(g, t, result) ==
      match g.types[t.id]
      case Intersection(_) => Joined(g, t.kids, result)
      case Union(_) =>
        if t.kids == [] then result else Narrowed(g, t.kids[1..], Completed(g, t.kids[0], result))
      case _ =>
        var own := g.Own(t.id, result);
        if |t.kids| == 0 then own
        else if |t.kids| == 1 then Completed(g, t.kids[0], own)
        else if |t.kids| == 2 then Completed(g, t.kids[1], Completed(g, t.kids[0], own))
        else Chained(g, t.kids, own)
  {
    ChainedShort(g, t.kids, g.Own(t.id, result));
  }

  lemma NarrowedByNone(g: Graph, ts: seq<Tree>, result: Entries)
    requires g.Valid() && ts == []
    ensures Narrowed(g, ts, result) == result
  {
  }

  lemma DropOne<T>(s: seq<T>, k: nat)
    requires k < |s|
    ensures s[k..][0] == s[k] && s[k..][1..] == s[k + 1..]
  {
  }

  lemma ChainedShort(g: Graph, ts: seq<Tree>, r: Entries)
    requires g.Valid() && Forest(g, ts)
    ensures |ts| == 0 ==> Chained(g, ts, r) == r
    ensures |ts| == 1 ==> Chained(g, ts, r) == Completed(g, ts[0], r)
    ensures |ts| == 2 ==> Chained(g, ts, r) == Completed(g, ts[1], Completed(g, ts[0], r))
  {
    if |ts| == 2 {
      assert ts[1..][1..] == [];
    }
  }

  // ---------------------------------------------------------------- what the suggestions mean

  /** The names that a type itself lets one read. */
  ghost function Names(g: Graph, id: TyId): set<string>
    requires id in g.types
  {
    match g.types[id]
    case Extern(props, _) => Readable(props)
    case Table(props, indexer) => Readable(props) + if g.point then Singletons(indexer) else {}
    case _ => {}
  }

  ghost function Readable(props: Props): set<string> {
    set n | n in props && props[n].Some? && n != PARSE_NAME_ERROR
  }

  ghost function Singletons(indexer: seq<(string, TyId)>): set<string> {
    set s | s in indexer :: s.0
  }

  /** The readable properties of a type: those of all options of a union, of any part of an intersection, and otherwise
      its own and those of what it falls back on. */
  ghost function Denoted(g: Graph, t: Tree): set<string>
    requires g.Valid() && Unfolds(g, t)
    decreases t, 0
  {
    match g.types[t.id]
    case Union(_) => if t.kids == [] then {} else InAll(g, t.kids)
    case _ => Names(g, t.id) + InAny(g, t.kids)
  }

  ghost function InAny(g: Graph, ts: seq<Tree>): set<string>
    requires g.Valid() && Forest(g, ts)
    decreases ts, 1
  {
    if ts == [] then {} else Denoted(g, ts[0]) + InAny(g, ts[1..])
  }

  ghost function InAll(g: Graph, ts: seq<Tree>): set<string>
    requires g.Valid() && Forest(g, ts) && ts != []
    decreases ts, 1
  {
    if |ts| == 1 then Denoted(g, ts[0]) else Denoted(g, ts[0]) * InAll(g, ts[1..])
  }

  /** No type falls back on a union, which only a function under `__index` can bring about. */
  ghost predicate Plain(g: Graph, t: Tree)
    requires g.Valid() && Unfolds(g, t)
    decreases t
  {
    && (forall i :: 0 <= i < |t.kids| ==> Plain(g, t.kids[i]))
    && (g.types[t.id].Union? || g.types[t.id].Intersection? ||
        forall i :: 0 <= i < |t.kids| ==> !g.types[t.kids[i].id].Union?)
  }

  ghost predicate PlainForest(g: Graph, ts: seq<Tree>)
    requires g.Valid() && Forest(g, ts)
  {
    forall i :: 0 <= i < |ts| ==> Plain(g, ts[i])
  }

  lemma {:induction false} IndexedKeys(result: Entries, indexer: seq<(string, TyId)>)
    ensures Indexed(result, indexer).Keys == result.Keys + Singletons(indexer)
    decreases |indexer|
  {
    if indexer != [] {
      IndexedKeys(result[indexer[0].0 := indexer[0].1], indexer[1..]);
      assert Singletons(indexer) == {indexer[0].0} + Singletons(indexer[1..]) by {
        assert indexer == [indexer[0]] + indexer[1..];
        assert forall n :: n in Singletons(indexer) <==> exists s :: s in indexer && s.0 == n;
        assert forall n :: n in Singletons(indexer[1..]) <==> exists s :: s in indexer[1..] && s.0 == n;
      }
    }
  }

  lemma OwnKeys(g: Graph, id: TyId, result: Entries)
    requires id in g.types
    ensures g.Own(id, result).Keys == result.Keys + Names(g, id)
  {
    match g.types[id]
    case Extern(props, _) =>
    case Table(props, indexer) => IndexedKeys(Filled(result, props), indexer);
    case _ =>
  }

  /** What a type that is not a union adds to what has been collected. */
  lemma {:induction false} AddsDenoted(g: Graph, t: Tree, result: Entries)
    requires g.Valid() && Unfolds(g, t) && Plain(g, t) && !g.types[t.id].Union?
    ensures Completed(g, t, result).Keys == result.Keys + Denoted(g, t)
    decreases t, 1
  {
    if g.types[t.id].Intersection? {
      JoinedDenoted(g, t.kids, result);
    } else {
      OwnKeys(g, t.id, result);
      ChainedDenoted(g, t.kids, g.Own(t.id, result));
    }
  }

  lemma {:induction false} ChainedDenoted(g: Graph, ts: seq<Tree>, result: Entries)
    requires g.Valid() && Forest(g, ts) && PlainForest(g, ts)
    requires forall i :: 0 <= i < |ts| ==> !g.types[ts[i].id].Union?
    ensures Chained(g, ts, result).Keys == result.Keys + InAny(g, ts)
    decreases ts, 2
  {
    if ts != [] {
      AddsDenoted(g, ts[0], result);
      ChainedDenoted(g, ts[1..], Completed(g, ts[0], result));
    }
  }

  lemma {:induction false} JoinedDenoted(g: Graph, ts: seq<Tree>, result: Entries)
    requires g.Valid() && Forest(g, ts) && PlainForest(g, ts)
    ensures Joined(g, ts, result).Keys == result.Keys + InAny(g, ts)
    decreases ts, 3
  {
    if ts != [] {
      CompletedDenotes(g, ts[0]);
      JoinedDenoted(g, ts[1..], Completed(g, ts[0], map[]) + result);
    }
  }

  lemma {:induction false} NarrowedDenoted(g: Graph, ts: seq<Tree>, result: Entries)
    requires g.Valid() && Forest(g, ts) && PlainForest(g, ts)
    ensures Narrowed(g, ts, result).Keys == if ts == [] then result.Keys else result.Keys * InAll(g, ts)
    decreases ts, 3
  {
    if ts != [] {
      CompletedDenotes(g, ts[0]);
      NarrowedDenoted(g, ts[1..], Common(result, Completed(g, ts[0], map[])));
    }
  }

  /** Starting with nothing, the suggestions are exactly the readable properties. */
  lemma {:induction false} CompletedDenotes(g: Graph, t: Tree)
    requires g.Valid() && Unfolds(g, t) && Plain(g, t)
    ensures Completed(g, t, map[]).Keys == Denoted(g, t)
    decreases t, 2
  {
    if g.types[t.id].Union? {
      if t.kids != [] {
        OptionIsNoUnion(g, t, 0);
        AddsDenoted(g, t.kids[0], map[]);
        NarrowedDenoted(g, t.kids[1..], Completed(g, t.kids[0], map[]));
      }
    } else {
      AddsDenoted(g, t, map[]);
    }
  }

  /** An object that is no union can be read whatever one of the types can that it falls back on, or is made of. */
  lemma {:induction false} KidIsDenoted(g: Graph, ts: seq<Tree>, k: nat)
    requires g.Valid() && Forest(g, ts) && k < |ts|
    ensures Denoted(g, ts[k]) <= InAny(g, ts)
    decreases |ts|
  {
    if k > 0 {
      KidIsDenoted(g, ts[1..], k - 1);
    }
  }

  /** What `t` falls back on is read through it. */
  lemma FallsBackDenoted(g: Graph, t: Tree, j: TyId)
    requires g.Valid() && Unfolds(g, t) && g.FallsBackOn(t.id, j)
    ensures exists k :: 0 <= k < |t.kids| && t.kids[k].id == j && Denoted(g, t.kids[k]) <= Denoted(g, t)
  {
    g.ChildrenAre(t.id);
    var k := |t.kids| - 1;
    KidIsDenoted(g, t.kids, k);
    assert t.kids[k].id == j;
  }

  /** An object lets one read what its table does, and what the table under `__index` of its metatable does. */
  lemma ObjectDenotes(g: Graph, t: Tree, table: TyId, metatable: TyId, name: string)
    requires g.Valid() && Unfolds(g, t) && g.types[t.id] == Metatable(table, metatable)
    ensures g.types[table].Table? && name in Names(g, table) ==> name in Denoted(g, t)
    ensures g.types[metatable].Table? && "__index" in g.types[metatable].props ==>
      var index := g.types[metatable].props["__index"];
      index.Some? && g.types[index.value].Table? && name in Names(g, index.value) ==> name in Denoted(g, t)
  {
    g.ChildrenAre(t.id);
    KidIsDenoted(g, t.kids, 0);
    var props := if g.types[metatable].Table? then g.types[metatable].props else map[];
    if "__index" in props && props["__index"].Some? && g.types[props["__index"].value].Table? {
      FallsBackDenoted(g, t, props["__index"].value);
    }
  }

  // ---------------------------------------------------------------- of which type they are suggested

  /** No indexer in the tree has this name among its string singletons. */
  ghost predicate NotIndexed(g: Graph, t: Tree, name: string)
    requires g.Valid() && Unfolds(g, t)
    decreases t
  {
    && (g.types[t.id].Table? && g.point ==> forall s :: s in g.types[t.id].indexer ==> s.0 != name)
    && forall i :: 0 <= i < |t.kids| ==> NotIndexed(g, t.kids[i], name)
  }

  lemma {:induction false} IndexedKeeps(result: Entries, indexer: seq<(string, TyId)>, name: string)
    requires name in result && forall s :: s in indexer ==> s.0 != name
    ensures name in Indexed(result, indexer) && Indexed(result, indexer)[name] == result[name]
    decreases |indexer|
  {
    if indexer != [] {
      IndexedKeeps(result[indexer[0].0 := indexer[0].1], indexer[1..], name);
    }
  }

  /** What has been collected first keeps its type, unless an indexer has the name. */
  lemma {:induction false} FirstWins(g: Graph, t: Tree, result: Entries, name: string)
    requires g.Valid() && Unfolds(g, t) && Plain(g, t) && NotIndexed(g, t, name) && name in result
    ensures name in Completed(g, t, result) ==> Completed(g, t, result)[name] == result[name]
    decreases t, 1
  {
    if g.types[t.id].Intersection? {
      JoinedKeeps(g, t.kids, result, name);
    } else if g.types[t.id].Union? {
      if t.kids != [] {
        OptionIsNoUnion(g, t, 0);
        AddsDenoted(g, t.kids[0], result);
        FirstWins(g, t.kids[0], result, name);
        NarrowedKeeps(g, t.kids[1..], Completed(g, t.kids[0], result), name);
      }
    } else {
      OwnKeeps(g, t, result, name);
      ChainedKeeps(g, t.kids, g.Own(t.id, result), name);
    }
  }

  lemma OwnKeeps(g: Graph, t: Tree, result: Entries, name: string)
    requires g.Valid() && Unfolds(g, t) && NotIndexed(g, t, name) && name in result
    ensures name in g.Own(t.id, result) && g.Own(t.id, result)[name] == result[name]
  {
    if g.types[t.id].Table? && g.point {
      IndexedKeeps(Filled(result, g.types[t.id].props), g.types[t.id].indexer, name);
    }
  }

  lemma {:induction false} ChainedKeeps(g: Graph, ts: seq<Tree>, result: Entries, name: string)
    requires g.Valid() && Forest(g, ts) && PlainForest(g, ts) && name in result
    requires forall i :: 0 <= i < |ts| ==> !g.types[ts[i].id].Union? && NotIndexed(g, ts[i], name)
    ensures name in Chained(g, ts, result) && Chained(g, ts, result)[name] == result[name]
    decreases ts, 2
  {
    if ts != [] {
      AddsDenoted(g, ts[0], result);
      FirstWins(g, ts[0], result, name);
      ChainedKeeps(g, ts[1..], Completed(g, ts[0], result), name);
    }
  }

  lemma {:induction false} JoinedKeeps(g: Graph, ts: seq<Tree>, result: Entries, name: string)
    requires g.Valid() && Forest(g, ts) && name in result
    ensures name in Joined(g, ts, result) && Joined(g, ts, result)[name] == result[name]
    decreases ts, 2
  {
    if ts != [] {
      JoinedKeeps(g, ts[1..], Completed(g, ts[0], map[]) + result, name);
    }
  }

  lemma {:induction false} NarrowedKeeps(g: Graph, ts: seq<Tree>, result: Entries, name: string)
    requires g.Valid() && Forest(g, ts)
    ensures name in Narrowed(g, ts, result) ==> name in result && Narrowed(g, ts, result)[name] == result[name]
    decreases ts, 2
  {
    if ts != [] {
      NarrowedKeeps(g, ts[1..], Common(result, Completed(g, ts[0], map[])), name);
    }
  }

  /** The type that `id` declares for a name that its indexer does not have. */
  ghost predicate DeclaresProp(g: Graph, id: TyId, name: string, ty: TyId)
    requires id in g.types
  {
    && (g.types[id].Extern? || g.types[id].Table?)
    && name in g.types[id].props && g.types[id].props[name] == Some(ty) && name != PARSE_NAME_ERROR
  }

  lemma OwnWins(g: Graph, t: Tree, name: string, ty: TyId)
    requires g.Valid() && Unfolds(g, t) && NotIndexed(g, t, name) && DeclaresProp(g, t.id, name, ty)
    ensures name in g.Own(t.id, map[]) && g.Own(t.id, map[])[name] == ty
  {
    if g.types[t.id].Table? && g.point {
      IndexedKeeps(Filled(map[], g.types[t.id].props), g.types[t.id].indexer, name);
    }
  }

  lemma {:induction false} IndexedLast(result: Entries, indexer: seq<(string, TyId)>, i: nat)
    requires i < |indexer| && forall j :: i < j < |indexer| ==> indexer[j].0 != indexer[i].0
    ensures var name := indexer[i].0; name in Indexed(result, indexer) && Indexed(result, indexer)[name] == indexer[i].1
    decreases |indexer|
  {
    var next := result[indexer[0].0 := indexer[0].1];
    if i == 0 {
      assert forall s :: s in indexer[1..] ==> s.0 != indexer[0].0;
      IndexedKeeps(next, indexer[1..], indexer[0].0);
    } else {
      assert forall j :: 0 <= j < |indexer| - 1 ==> indexer[1..][j] == indexer[j + 1];
      IndexedLast(next, indexer[1..], i - 1);
    }
  }

  /** After a point, the last string singleton of an indexer wins over the ones before it, and over all properties. */
  lemma IndexerWins(g: Graph, t: Tree, result: Entries, i: nat)
    requires g.Valid() && Unfolds(g, t) && g.types[t.id].Table? && g.point
    requires var indexer := g.types[t.id].indexer; i < |indexer| && forall j :: i < j < |indexer| ==> indexer[j].0 != indexer[i].0
    ensures var entry := g.types[t.id].indexer[i];
            entry.0 in Completed(g, t, result) && Completed(g, t, result)[entry.0] == entry.1
  {
    IndexedLast(Filled(result, g.types[t.id].props), g.types[t.id].indexer, i);
    CompletedIs(g, t, result);
  }

  /** What an extern type declares itself wins over its ancestors. */
  lemma DerivedWins(g: Graph, t: Tree, name: string, ty: TyId)
    requires g.Valid() && Unfolds(g, t) && Plain(g, t) && NotIndexed(g, t, name)
    requires g.types[t.id].Extern? && DeclaresProp(g, t.id, name, ty)
    ensures name in Completed(g, t, map[]) && Completed(g, t, map[])[name] == ty
  {
    OwnWins(g, t, name, ty);
    ChainedKeeps(g, t.kids, g.Own(t.id, map[]), name);
  }

  /** A name that the table of an object has keeps the type it has there, whatever is fallen back on. */
  lemma TableWins(g: Graph, t: Tree, name: string, ty: TyId)
    requires g.Valid() && Unfolds(g, t) && Plain(g, t) && NotIndexed(g, t, name)
    requires g.types[t.id].Metatable? && g.types[g.types[t.id].table].Table?
    requires DeclaresProp(g, g.types[t.id].table, name, ty)
    ensures name in Completed(g, t, map[]) && Completed(g, t, map[])[name] == ty
  {
    var table := t.kids[0];
    assert Unfolds(g, table) && NotIndexed(g, table, name) && g.types[table.id].Table?;
    OwnWins(g, table, name, ty);
    CompletedIs(g, table, map[]);
    CompletedIs(g, t, map[]);
    if |t.kids| == 2 {
      var own := Completed(g, table, map[]);
      assert Plain(g, t.kids[1]) && !g.types[t.kids[1].id].Union? && NotIndexed(g, t.kids[1], name);
      hide Completed, Plain, NotIndexed, Unfolds;
      AddsDenoted(g, t.kids[1], own);
      FirstWins(g, t.kids[1], own, name);
    }
  }

  lemma OptionIsNoUnion(g: Graph, t: Tree, i: nat)
    requires g.Valid() && Unfolds(g, t) && g.types[t.id].Union? && i < |t.kids|
    ensures !g.types[t.kids[i].id].Union?
  {
    g.CountedOk(g.types[t.id].options);
    assert t.kids[i].id in g.Counted(g.types[t.id].options);
  }

  /** A union that is fallen back on keeps what has been collected before exactly if its other options have all of it. */
  lemma UnionKeepsCollected(g: Graph, t: Tree, result: Entries)
    requires g.Valid() && Unfolds(g, t) && Plain(g, t) && g.types[t.id].Union?
    ensures Completed(g, t, result).Keys == result.Keys + Denoted(g, t) <==>
      |t.kids| <= 1 || result.Keys <= InAll(g, t.kids[1..])
  {
    if t.kids != [] {
      OptionIsNoUnion(g, t, 0);
      AddsDenoted(g, t.kids[0], result);
      NarrowedDenoted(g, t.kids[1..], Completed(g, t.kids[0], result));
    }
  }

  /**
   * So an object whose `__index` function returns a union keeps its readable names exactly if there is at most one option
   * that counts, or if all options after the first have every name of the object itself.
   */
  lemma IndexUnionTakesAway(g: Graph, t: Tree)
    requires g.Valid() && Unfolds(g, t) && g.types[t.id].Metatable? && |t.kids| == 2
    requires Plain(g, t.kids[0]) && Plain(g, t.kids[1])
    requires !g.types[t.kids[0].id].Union? && g.types[t.kids[1].id].Union?
    ensures Completed(g, t, map[]).Keys == Denoted(g, t) <==>
              |t.kids[1].kids| <= 1 || Denoted(g, t.kids[0]) <= InAll(g, t.kids[1].kids[1..])
  {
    hide Unfolds, Completed, InAll, Plain;
    CompletedIs(g, t, map[]);
    AddsDenoted(g, t.kids[0], map[]);
    UnionKeepsCollected(g, t.kids[1], Completed(g, t.kids[0], map[]));
    DenotedOfTwo(g, t);
  }

  lemma DenotedOfTwo(g: Graph, t: Tree)
    requires g.Valid() && Unfolds(g, t) && g.types[t.id].Metatable? && |t.kids| == 2
    ensures Denoted(g, t) == Denoted(g, t.kids[0]) + Denoted(g, t.kids[1])
  {
    assert t.kids[1..][1..] == [];
    assert InAny(g, t.kids[1..]) == Denoted(g, t.kids[1]);
  }

  /** An object with one name of its own, and an `__index` function that returns a union of two tables without it. */
  ghost function Sample(): Graph {
    Graph(map[
      0 := Other,
      1 := Metatable(2, 3),
      2 := Table(map["own" := Some(0)], []),
      3 := Table(map["__index" := Some(4)], []),
      4 := Function(Some(5)),
      5 := Union([6, 7]),
      6 := Table(map["both" := Some(0)], []),
      7 := Table(map["both" := Some(0)], [])], 0, true, true, true)
  }

  ghost function SampleTree(): Tree {
    Tree(1, [Tree(2, []), Tree(5, [Tree(6, []), Tree(7, [])])])
  }

  lemma SampleTypes()
    ensures Sample().types.Keys == {0, 1, 2, 3, 4, 5, 6, 7} && Sample().stringType == 0 && Sample().inheritMetatables
    ensures var types := Sample().types;
      types[0] == Other && types[1] == Metatable(2, 3) && types[2] == Table(map["own" := Some(0)], []) &&
      types[3] == Table(map["__index" := Some(4)], []) && types[4] == Function(Some(5)) && types[5] == Union([6, 7]) &&
      types[6] == Table(map["both" := Some(0)], []) && types[7] == Table(map["both" := Some(0)], [])
  {
  }

  lemma SampleIsValid()
    ensures Sample().Valid()
  {
    hide Sample;
    SampleTypes();
  }

  lemma SampleChildren()
    ensures var g := Sample(); g.Valid() && g.Children(1) == [2, 5] && g.Children(2) == [] && g.Children(5) == [6, 7]
    ensures var g := Sample(); g.Children(6) == [] && g.Children(7) == []
  {
    hide Sample;
    SampleTypes();
    SampleIsValid();
  }

  lemma SampleUnfolds()
    ensures Sample().Valid() && Unfolds(Sample(), SampleTree())
  {
    hide Sample;
    SampleTypes();
    SampleChildren();
    var g, t := Sample(), SampleTree();
    assert Unfolds(g, t.kids[0]);
    assert Unfolds(g, t.kids[1].kids[0]) && Unfolds(g, t.kids[1].kids[1]);
    assert Unfolds(g, t.kids[1]);
  }

  /** Nothing occurs twice in it. */
  lemma SampleIsFresh()
    ensures Sample().Valid() && Unfolds(Sample(), SampleTree()) && Fresh(Sample(), SampleTree(), {})
  {
    hide Sample, Unfolds, Fresh;
    SampleUnfolds();
    var t := SampleTree();
    assert ForestNodes(t.kids[1].kids[1..]) == {7};
    assert UnsharedForest(t.kids[1].kids);
    assert ForestNodes(t.kids[1].kids) == {6, 7};
    assert ForestNodes(t.kids[1..]) == {5, 6, 7};
    UnsharedIsFresh(Sample(), t, {});
  }

  lemma LeafIs(g: Graph, t: Tree, result: Entries)
    requires g.Valid() && Unfolds(g, t) && t.kids == [] && g.types[t.id].Table?
    ensures Completed(g, t, result).Keys == result.Keys + Names(g, t.id) && Denoted(g, t) == Names(g, t.id)
  {
    hide Unfolds;
    AddsDenoted(g, t, result);
    assert Plain(g, t) && InAny(g, t.kids) == {};
  }

  /** Its own name can be read, and is not suggested. */
  lemma ObjectLosesItsOwnName()
    ensures Sample().Valid() && Unfolds(Sample(), SampleTree()) && Fresh(Sample(), SampleTree(), {})
    ensures "own" in Denoted(Sample(), SampleTree()) && "own" !in Completed(Sample(), SampleTree(), map[])
  {
    hide Sample, Unfolds, Completed, Denoted, Fresh;
    SampleTypes();
    SampleIsFresh();
    var g, t := Sample(), SampleTree();
    var own, union := t.kids[0], t.kids[1];
    CompletedIs(g, t, map[]);
    DenotedOfTwo(g, t);
    LeafIs(g, own, map[]);
    assert "own" in Names(g, 2) && "own" !in Names(g, 7);
    var r := Completed(g, own, map[]);
    CompletedIs(g, union, r);
    LeafIs(g, union.kids[1], map[]);
    assert union.kids[1..] == [union.kids[1]];
  }
}
