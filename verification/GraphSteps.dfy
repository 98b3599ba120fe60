/** What each operation of the constraint graph does to the two edge relations, and what every run keeps. */
module GraphSteps {
  import opened Basics
  import opened ConstraintLists

  type Edges = m: imap<Vertex, set<Vertex>> | forall v: Vertex :: v in m
    ghost witness imap v: Vertex :: NoEdges(v)

  ghost function NoEdges(v: Vertex): set<Vertex> {
    {}
  }

  /** `deps[t]` is what `t` waits for; `rdeps[v]` is who is recorded as waiting for `v`. */
  datatype Graph = Graph(deps: Edges, rdeps: Edges)

  /** The types the graph is about: bound types, and the mutable types reachable from a type. */
  datatype TypeGraph = TypeGraph(bound: map<Vertex, Vertex>, follow: Vertex -> Vertex, reachable: Vertex -> seq<Vertex>)

  // ---------------------------------------------------------------- operations

  lemma SameEdges(g: Graph, h: Graph)
    requires forall v: Vertex :: g.deps[v] == h.deps[v]
    requires forall v: Vertex :: g.rdeps[v] == h.rdeps[v]
    ensures g == h
  {
    assert g.deps == h.deps;
    assert g.rdeps == h.rdeps;
  }

  ghost function Empty(): Graph {
    Graph(imap v: Vertex :: NoEdges(v), imap v: Vertex :: NoEdges(v))
  }

  ghost function With(e: Edges, u: Vertex, v: Vertex): Edges {
    e[u := e[u] + {v}]
  }

  ghost function Without(e: Edges, u: Vertex, v: Vertex): Edges {
    e[u := e[u] - {v}]
  }

  ghost function Cleared(e: Edges, u: Vertex): Edges {
    e[u := {}]
  }

  ghost function AddDependency(g: Graph, v: Vertex, t: Vertex): Graph {
    if v in g.deps[t] then g else Graph(With(g.deps, t, v), With(g.rdeps, v, t))
  }

  /** The vertices in `waiters` also wait for `n`. */
  ghost function WaitFor(g: Graph, waiters: set<Vertex>, n: Vertex): Graph {
    Graph(imap t: Vertex :: if t in waiters then g.deps[t] + {n} else g.deps[t], g.rdeps[n := g.rdeps[n] + waiters])
  }

  /** Everything waiting for `e` also waits for `n`. */
  ghost function Inherit(g: Graph, e: Vertex, n: Vertex): Graph {
    WaitFor(g, g.rdeps[e], n)
  }

  /** The targets take on the dependencies `moved`, for which the vertices in `forgotten` are no longer recorded. */
  ghost function TakeOn(g: Graph, moved: set<Vertex>, forgotten: set<Vertex>, targets: set<Vertex>): Graph {
    Graph(imap t: Vertex :: if t in targets then g.deps[t] + moved else g.deps[t],
          imap v: Vertex :: if v in moved then g.rdeps[v] - forgotten + targets else g.rdeps[v])
  }

  /** The targets take on the dependencies of `source`; with `forget` set, `source` is no longer recorded for them. */
  ghost function CopyDependencies(g: Graph, source: Vertex, forget: bool, targets: set<Vertex>): Graph {
    TakeOn(g, g.deps[source], Forgotten(if forget then Some(source) else None), targets)
  }

  ghost function Forgotten(original: Option<Vertex>): set<Vertex> {
    if original.Some? then {original.value} else {}
  }

  lemma TakeOnNothing(g: Graph, forgotten: set<Vertex>, targets: set<Vertex>)
    ensures TakeOn(g, {}, forgotten, targets) == g
  {
    SameEdges(TakeOn(g, {}, forgotten, targets), g);
  }

  lemma TakeOnOneMore(g: Graph, moved: set<Vertex>, v: Vertex, forgotten: set<Vertex>, targets: set<Vertex>)
    ensures TakeOn(TakeOn(g, moved, forgotten, targets), {v}, forgotten, targets) == TakeOn(g, moved + {v}, forgotten, targets)
  {
    SameEdges(TakeOn(TakeOn(g, moved, forgotten, targets), {v}, forgotten, targets),
              TakeOn(g, moved + {v}, forgotten, targets));
  }

  lemma TakeOnForNone(g: Graph, v: Vertex, original: Option<Vertex>)
    ensures TakeOn(g, {v}, Forgotten(original), {}) ==
      if original.Some? then Graph(g.deps, Without(g.rdeps, v, original.value)) else g
  {
    SameEdges(TakeOn(g, {v}, Forgotten(original), {}),
              if original.Some? then Graph(g.deps, Without(g.rdeps, v, original.value)) else g);
  }

  lemma TakeOnForOneMore(g: Graph, v: Vertex, forgotten: set<Vertex>, targets: set<Vertex>, t: Vertex)
    ensures var h := TakeOn(g, {v}, forgotten, targets);
            Graph(With(h.deps, t, v), With(h.rdeps, v, t)) == TakeOn(g, {v}, forgotten, targets + {t})
  {
    hide TakeOn, With;
    var h := TakeOn(g, {v}, forgotten, targets);
    forall u: Vertex
      ensures With(h.deps, t, v)[u] == TakeOn(g, {v}, forgotten, targets + {t}).deps[u]
      ensures With(h.rdeps, v, t)[u] == TakeOn(g, {v}, forgotten, targets + {t}).rdeps[u]
    {
      OneMoreTarget(g, v, forgotten, targets, t, u);
    }
    SameEdges(Graph(With(h.deps, t, v), With(h.rdeps, v, t)), TakeOn(g, {v}, forgotten, targets + {t}));
  }

  lemma OneMoreTarget(g: Graph, v: Vertex, forgotten: set<Vertex>, targets: set<Vertex>, t: Vertex, u: Vertex)
    ensures var h, k := TakeOn(g, {v}, forgotten, targets), TakeOn(g, {v}, forgotten, targets + {t});
            With(h.deps, t, v)[u] == k.deps[u] && With(h.rdeps, v, t)[u] == k.rdeps[u]
  {
  }

  lemma WaitForOne(g: Graph, t: Vertex, n: Vertex)
    ensures Graph(With(g.deps, t, n), With(g.rdeps, n, t)) == WaitFor(g, {t}, n)
  {
    SameEdges(Graph(With(g.deps, t, n), With(g.rdeps, n, t)), WaitFor(g, {t}, n));
  }

  lemma WaitForNone(g: Graph, n: Vertex)
    ensures WaitFor(g, {}, n) == g
  {
    SameEdges(WaitFor(g, {}, n), g);
  }

  lemma WaitForOneMore(g: Graph, waiters: set<Vertex>, n: Vertex, t: Vertex)
    ensures WaitFor(WaitFor(g, waiters, n), {t}, n) == WaitFor(g, waiters + {t}, n)
  {
    SameEdges(WaitFor(WaitFor(g, waiters, n), {t}, n), WaitFor(g, waiters + {t}, n));
  }

  ghost function StopWaiting(g: Graph, waiters: set<Vertex>, x: Vertex): Graph {
    g.(deps := imap t: Vertex :: if t in waiters then g.deps[t] - {x} else g.deps[t])
  }

  lemma StopWaitingForNone(g: Graph, x: Vertex)
    ensures StopWaiting(g, {}, x) == g
  {
    SameEdges(StopWaiting(g, {}, x), g);
  }

  lemma StopWaitingForOne(g: Graph, t: Vertex, x: Vertex)
    ensures Graph(Without(g.deps, t, x), g.rdeps) == StopWaiting(g, {t}, x)
  {
    SameEdges(Graph(Without(g.deps, t, x), g.rdeps), StopWaiting(g, {t}, x));
  }

  lemma StopWaitingForOneMore(g: Graph, waiters: set<Vertex>, x: Vertex, t: Vertex)
    ensures StopWaiting(StopWaiting(g, waiters, x), {t}, x) == StopWaiting(g, waiters + {t}, x)
  {
    SameEdges(StopWaiting(StopWaiting(g, waiters, x), {t}, x), StopWaiting(g, waiters + {t}, x));
  }

  /** Nobody recorded as waiting for `x` waits for it any longer. */
  ghost function ReleaseWaiters(g: Graph, x: Vertex): Graph {
    StopWaiting(g, g.rdeps[x], x)
  }

  ghost function ClearReverseOf(g: Graph, x: Vertex): Graph {
    var released := ReleaseWaiters(g, x);
    Graph(released.deps, Cleared(released.rdeps, x))
  }

  ghost function Elements(s: seq<Vertex>): set<Vertex> {
    set t | t in s
  }

  lemma ElementsSoFar(s: seq<Vertex>, k: nat)
    requires k < |s|
    ensures Elements(s[..k + 1]) == Elements(s[..k]) + {s[k]}
  {
    assert s[..k + 1] == s[..k] + [s[k]];
  }

  lemma ElementsOfNothing(s: seq<Vertex>)
    ensures Elements(s[..0]) == {}
  {
  }

  ghost function Targets(tg: TypeGraph, root: Vertex): set<Vertex> {
    Elements(tg.reachable(root))
  }

  ghost function Shift(g: Graph, source: Vertex, target: Vertex, tg: TypeGraph): Graph {
    if source == target then g
    else ClearReverseOf(CopyDependencies(g, source, true, Targets(tg, target)), source)
  }

  /** The types a repair visits: from `ty` along the bindings, up to a type already seen. */
  ghost function Chain(tg: TypeGraph, ty: Vertex, seen: set<Vertex>): seq<Vertex>
    decreases |tg.bound.Keys - seen|, if ty in tg.bound || ty in seen then 0 else 1
  {
    if ty in seen then []
    else if ty in tg.bound then
      assert tg.bound.Keys - (seen + {ty}) < tg.bound.Keys - seen by { assert ty in tg.bound.Keys - seen; }
      SubsetSmaller(tg.bound.Keys - (seen + {ty}), tg.bound.Keys - seen);
      [ty] + Chain(tg, tg.bound[ty], seen + {ty})
    else [ty]
  }

  lemma ChainUnfolds(tg: TypeGraph, ty: Vertex, seen: set<Vertex>)
    requires ty !in seen
    ensures Chain(tg, ty, seen) == [ty] + Chain(tg, if ty in tg.bound then tg.bound[ty] else ty, seen + {ty})
    ensures ty in tg.bound ==> |tg.bound.Keys - (seen + {ty})| < |tg.bound.Keys - seen|
    ensures ty !in tg.bound ==> tg.bound.Keys - (seen + {ty}) == tg.bound.Keys - seen
  {
    if ty in tg.bound {
      assert ty in tg.bound.Keys - seen;
      SubsetSmaller(tg.bound.Keys - (seen + {ty}), tg.bound.Keys - seen);
    }
  }

  lemma SubsetSmaller(a: set<Vertex>, b: set<Vertex>)
    requires a < b
    ensures |a| < |b|
  {
    var rest := b - a;
    assert b == a + rest && rest != {};
  }

  ghost function ShiftAll(g: Graph, chain: seq<Vertex>, root: Vertex, tg: TypeGraph): Graph
    decreases |chain|
  {
    if chain == [] then g else ShiftAll(Shift(g, chain[0], root, tg), chain[1..], root, tg)
  }

  ghost function Repair(g: Graph, ty: Vertex, tg: TypeGraph): Graph {
    ShiftAll(g, Chain(tg, ty, {tg.follow(ty)}), tg.follow(ty), tg)
  }

  ghost function RepairAll(g: Graph, tys: seq<Vertex>, tg: TypeGraph): Graph
    decreases |tys|
  {
    if tys == [] then g else RepairAll(Repair(g, tys[0], tg), tys[1..], tg)
  }

  lemma {:induction false} RepairAllAppend(g: Graph, a: seq<Vertex>, b: seq<Vertex>, tg: TypeGraph)
    ensures RepairAll(RepairAll(g, a, tg), b, tg) == RepairAll(g, a + b, tg)
    decreases |a|
  {
    hide Repair;
    if a == [] {
      assert a + b == b;
    } else {
      RepairAllAppend(Repair(g, a[0], tg), a[1..], b, tg);
      assert (a + b)[1..] == a[1..] + b;
    }
  }

  ghost function UnblockType(g: Graph, ty: Vertex, tg: TypeGraph): Graph {
    ClearReverseOf(Repair(g, ty, tg), tg.follow(ty))
  }

  /** `tys` are the types and packs recorded as waiting for `c`, in the order they are repaired. */
  ghost function UnblockConstraint(g: Graph, c: Vertex, tys: seq<Vertex>, tg: TypeGraph): Graph {
    RepairAll(ReleaseWaiters(g, c), tys, tg)
  }

  // ---------------------------------------------------------------- runs

  datatype Op =
    | Add(dependency: Vertex, target: Vertex)
    | InheritBlocks(existing: Vertex, minted: Vertex)
    | CopyOf(source: Vertex, target: Vertex, tg: TypeGraph)
    | ShiftReferences(source: Vertex, target: Vertex, tg: TypeGraph)
    | UnblockTypeOrPack(ty: Vertex, tg: TypeGraph)
    | Unblock(c: Vertex, tys: seq<Vertex>, tg: TypeGraph)

  /** The graph, with the history the invariant is about: types shifted away from, and constraints unblocked. */
  datatype Machine = Machine(g: Graph, shifted: set<Vertex>, unblocked: set<Vertex>)

  ghost predicate WellFormed(tg: TypeGraph) {
    && (forall x :: x in tg.bound ==> !x.Cons? && !tg.bound[x].Cons?)
    && (forall x: Vertex {:trigger tg.follow(x)} :: !x.Cons? ==> !tg.follow(x).Cons?)
    && forall x: Vertex, y :: y in tg.reachable(x) ==> !y.Cons?
  }

  /** What the callers of an operation guarantee. */
  ghost predicate Enabled(g: Graph, op: Op) {
    match op
    case Add(_, _) => true
    case InheritBlocks(_, _) => true
    case CopyOf(source, _, tg) => WellFormed(tg) && !source.Cons?
    case ShiftReferences(source, _, tg) => WellFormed(tg) && !source.Cons?
    case UnblockTypeOrPack(ty, tg) => WellFormed(tg) && !ty.Cons?
    case Unblock(c, tys, tg) => WellFormed(tg) && c.Cons? && forall t :: t in tys <==> t in g.rdeps[c] && !t.Cons?
  }

  ghost function ChainSet(tg: TypeGraph, ty: Vertex): set<Vertex> {
    set x | x in Chain(tg, ty, {tg.follow(ty)})
  }

  ghost function ChainSets(tg: TypeGraph, tys: seq<Vertex>): set<Vertex> {
    if tys == [] then {} else ChainSet(tg, tys[0]) + ChainSets(tg, tys[1..])
  }

  ghost function Step(m: Machine, op: Op): Machine {
    match op
    case Add(v, t) => m.(g := AddDependency(m.g, v, t))
    case InheritBlocks(e, n) => m.(g := Inherit(m.g, e, n))
    case CopyOf(s, t, tg) => m.(g := CopyDependencies(m.g, s, false, Targets(tg, t)))
    case ShiftReferences(s, t, tg) => m.(g := Shift(m.g, s, t, tg), shifted := m.shifted + if s == t then {} else {s})
    case UnblockTypeOrPack(ty, tg) => m.(g := UnblockType(m.g, ty, tg), shifted := m.shifted + ChainSet(tg, ty))
    case Unblock(c, tys, tg) =>
      Machine(UnblockConstraint(m.g, c, tys, tg), m.shifted + ChainSets(tg, tys), m.unblocked + {c})
  }

  ghost predicate EnabledRun(m: Machine, ops: seq<Op>)
    decreases |ops|
  {
    ops == [] || (Enabled(m.g, ops[0]) && EnabledRun(Step(m, ops[0]), ops[1..]))
  }

  ghost function Run(m: Machine, ops: seq<Op>): Machine
    decreases |ops|
  {
    if ops == [] then m else Run(Step(m, ops[0]), ops[1..])
  }

  ghost const Start: Machine := Machine(Empty(), {}, {})

  /** Whoever waits is recorded as waiting, unless it is a type whose references have been shifted away. */
  ghost predicate Recorded(g: Graph, shifted: set<Vertex>) {
    forall t: Vertex, v :: v in g.deps[t] && t !in shifted ==> t in g.rdeps[v]
  }

  /** Whoever is recorded as waiting does wait, unless it was recorded for a constraint that has been unblocked. */
  ghost predicate Current(g: Graph, unblocked: set<Vertex>) {
    forall v: Vertex, t :: t in g.rdeps[v] && v !in unblocked ==> v in g.deps[t]
  }

  /** The invariant of every run: the two directions agree up to these two kinds of stale edge. */
  ghost predicate Inv(m: Machine) {
    && Recorded(m.g, m.shifted) && Current(m.g, m.unblocked)
    && (forall t :: t in m.shifted ==> !t.Cons?) && (forall c :: c in m.unblocked ==> c.Cons?)
  }

  // ---------------------------------------------------------------- the invariant is kept

  lemma ShiftKeepsInv(m: Machine, source: Vertex, target: Vertex, tg: TypeGraph)
    requires Inv(m) && WellFormed(tg) && !source.Cons?
    ensures Inv(m.(g := Shift(m.g, source, target, tg), shifted := m.shifted + {source}))
  {
    var copied := CopyDependencies(m.g, source, true, Targets(tg, target));
    assert Recorded(copied, m.shifted + {source});
    assert Current(copied, m.unblocked);
    var g' := Shift(m.g, source, target, tg);
    assert Recorded(g', m.shifted + {source});
    assert Current(g', m.unblocked);
  }

  lemma {:induction false} ChainHasNoConstraints(tg: TypeGraph, ty: Vertex, seen: set<Vertex>)
    requires WellFormed(tg) && !ty.Cons?
    ensures forall x :: x in Chain(tg, ty, seen) ==> !x.Cons? && x !in seen
    decreases |tg.bound.Keys - seen|, if ty in tg.bound || ty in seen then 0 else 1
  {
    if ty !in seen && ty in tg.bound {
      assert ty in tg.bound.Keys - seen;
      SubsetSmaller(tg.bound.Keys - (seen + {ty}), tg.bound.Keys - seen);
      ChainHasNoConstraints(tg, tg.bound[ty], seen + {ty});
    }
  }

  lemma {:induction false} ShiftAllKeepsInv(m: Machine, chain: seq<Vertex>, root: Vertex, tg: TypeGraph)
    requires Inv(m) && WellFormed(tg) && forall x :: x in chain ==> !x.Cons?
    ensures Inv(m.(g := ShiftAll(m.g, chain, root, tg), shifted := m.shifted + set x | x in chain))
    decreases |chain|
  {
    hide Inv, Shift;
    var all := set x | x in chain;
    if chain == [] {
      assert m.shifted + all == m.shifted;
    } else {
      var rest := set x | x in chain[1..];
      ShiftKeepsInv(m, chain[0], root, tg);
      ShiftAllKeepsInv(m.(g := Shift(m.g, chain[0], root, tg), shifted := m.shifted + {chain[0]}), chain[1..], root, tg);
      assert m.shifted + {chain[0]} + rest == m.shifted + all;
    }
  }

  lemma RepairKeepsInv(m: Machine, ty: Vertex, tg: TypeGraph)
    requires Inv(m) && WellFormed(tg) && !ty.Cons?
    ensures Inv(m.(g := Repair(m.g, ty, tg), shifted := m.shifted + ChainSet(tg, ty)))
  {
    ChainHasNoConstraints(tg, ty, {tg.follow(ty)});
    ShiftAllKeepsInv(m, Chain(tg, ty, {tg.follow(ty)}), tg.follow(ty), tg);
  }

  lemma {:induction false} RepairAllKeepsInv(m: Machine, tys: seq<Vertex>, tg: TypeGraph)
    requires Inv(m) && WellFormed(tg) && forall t :: t in tys ==> !t.Cons?
    ensures Inv(m.(g := RepairAll(m.g, tys, tg), shifted := m.shifted + ChainSets(tg, tys)))
    decreases |tys|
  {
    if tys == [] {
      assert m.shifted + {} == m.shifted;
    } else {
      RepairKeepsInv(m, tys[0], tg);
      var m1 := m.(g := Repair(m.g, tys[0], tg), shifted := m.shifted + ChainSet(tg, tys[0]));
      RepairAllKeepsInv(m1, tys[1..], tg);
      assert m1.shifted + ChainSets(tg, tys[1..]) == m.shifted + ChainSets(tg, tys);
    }
  }

  lemma StepKeepsInv(m: Machine, op: Op)
    requires Inv(m) && Enabled(m.g, op)
    ensures Inv(Step(m, op))
  {
    match op
    case Add(v, t) =>
    case InheritBlocks(e, n) =>
    case CopyOf(s, t, tg) =>
    case ShiftReferences(s, t, tg) => ShiftKeepsInv(m, s, t, tg);
    case UnblockTypeOrPack(ty, tg) => RepairKeepsInv(m, ty, tg);
    case Unblock(c, tys, tg) =>
      RepairAllKeepsInv(Machine(ReleaseWaiters(m.g, c), m.shifted, m.unblocked + {c}), tys, tg);
  }

  /** In every reachable state the two edge relations agree up to shifted types and unblocked constraints. */
  lemma {:induction false} RunKeepsInv(m: Machine, ops: seq<Op>)
    requires Inv(m) && EnabledRun(m, ops)
    ensures Inv(Run(m, ops))
    decreases |ops|
  {
    if ops != [] {
      StepKeepsInv(m, ops[0]);
      RunKeepsInv(Step(m, ops[0]), ops[1..]);
    }
  }

  lemma ReachableInv(ops: seq<Op>)
    requires EnabledRun(Start, ops)
    ensures Inv(Run(Start, ops))
  {
    RunKeepsInv(Start, ops);
  }

  // ---------------------------------------------------------------- a constraint is waited for until it is unblocked

  /** Every wait for a constraint in `g` is still there in `g'`. */
  ghost predicate KeepsWaits(g: Graph, g': Graph, c: Vertex) {
    forall t: Vertex :: c in g.deps[t] ==> c in g'.deps[t]
  }

  lemma {:induction false} ShiftAllKeepsWaits(g: Graph, chain: seq<Vertex>, root: Vertex, tg: TypeGraph, c: Vertex)
    requires c.Cons? && forall x :: x in chain ==> !x.Cons?
    ensures KeepsWaits(g, ShiftAll(g, chain, root, tg), c)
    decreases |chain|
  {
    if chain != [] {
      var g1 := Shift(g, chain[0], root, tg);
      assert KeepsWaits(g, g1, c);
      ShiftAllKeepsWaits(g1, chain[1..], root, tg, c);
    }
  }

  lemma RepairKeepsWaits(g: Graph, ty: Vertex, tg: TypeGraph, c: Vertex)
    requires WellFormed(tg) && !ty.Cons? && c.Cons?
    ensures KeepsWaits(g, Repair(g, ty, tg), c)
  {
    ChainHasNoConstraints(tg, ty, {tg.follow(ty)});
    ShiftAllKeepsWaits(g, Chain(tg, ty, {tg.follow(ty)}), tg.follow(ty), tg, c);
  }

  lemma {:induction false} RepairAllKeepsWaits(g: Graph, tys: seq<Vertex>, tg: TypeGraph, c: Vertex)
    requires WellFormed(tg) && c.Cons? && forall t :: t in tys ==> !t.Cons?
    ensures KeepsWaits(g, RepairAll(g, tys, tg), c)
    decreases |tys|
  {
    if tys != [] {
      RepairKeepsWaits(g, tys[0], tg, c);
      RepairAllKeepsWaits(Repair(g, tys[0], tg), tys[1..], tg, c);
    }
  }

  lemma StepKeepsWaits(m: Machine, op: Op, c: Vertex)
    requires Enabled(m.g, op) && c.Cons? && !(op.Unblock? && op.c == c)
    ensures KeepsWaits(m.g, Step(m, op).g, c)
  {
    match op
    case Add(v, t) =>
    case InheritBlocks(e, n) =>
    case CopyOf(s, t, tg) =>
    case ShiftReferences(s, t, tg) =>
    case UnblockTypeOrPack(ty, tg) => RepairKeepsWaits(m.g, ty, tg, c);
    case Unblock(d, tys, tg) => RepairAllKeepsWaits(ReleaseWaiters(m.g, d), tys, tg, c);
  }

  /** Once anything depends on a constraint it keeps depending on it until that constraint is unblocked. */
  lemma {:induction false} DependencyPersists(m: Machine, ops: seq<Op>, t: Vertex, c: Vertex)
    requires EnabledRun(m, ops) && c.Cons? && c in m.g.deps[t]
    requires forall op :: op in ops ==> !(op.Unblock? && op.c == c)
    ensures c in Run(m, ops).g.deps[t]
    decreases |ops|
  {
    if ops != [] {
      StepKeepsWaits(m, ops[0], c);
      assert ops[0] in ops;
      DependencyPersists(Step(m, ops[0]), ops[1..], t, c);
    }
  }

  // ---------------------------------------------------------------- and no longer

  /** Repairs change what types wait for, but add nothing to what a constraint waits for. */
  lemma {:induction false} ShiftAllSparesConstraints(g: Graph, chain: seq<Vertex>, root: Vertex, tg: TypeGraph, t: Vertex)
    requires WellFormed(tg) && t.Cons?
    ensures ShiftAll(g, chain, root, tg).deps[t] <= g.deps[t]
    decreases |chain|
  {
    if chain != [] {
      ShiftSparesConstraints(g, chain[0], root, tg, t);
      hide Shift, WellFormed;
      ShiftAllSparesConstraints(Shift(g, chain[0], root, tg), chain[1..], root, tg, t);
    }
  }

  lemma ShiftSparesConstraints(g: Graph, source: Vertex, root: Vertex, tg: TypeGraph, t: Vertex)
    requires WellFormed(tg) && t.Cons?
    ensures Shift(g, source, root, tg).deps[t] <= g.deps[t]
  {
  }

  lemma {:induction false} RepairAllSparesConstraints(g: Graph, tys: seq<Vertex>, tg: TypeGraph, t: Vertex)
    requires WellFormed(tg) && t.Cons?
    ensures RepairAll(g, tys, tg).deps[t] <= g.deps[t]
    decreases |tys|
  {
    if tys != [] {
      ShiftAllSparesConstraints(g, Chain(tg, tys[0], {tg.follow(tys[0])}), tg.follow(tys[0]), tg, t);
      RepairAllSparesConstraints(Repair(g, tys[0], tg), tys[1..], tg, t);
    }
  }

  /** Right after a constraint is unblocked no constraint depends on it. */
  lemma UnblockReleasesConstraints(m: Machine, c: Vertex, tys: seq<Vertex>, tg: TypeGraph, t: Vertex)
    requires Inv(m) && Enabled(m.g, Unblock(c, tys, tg)) && t.Cons?
    ensures c !in Step(m, Unblock(c, tys, tg)).g.deps[t]
  {
    RepairAllSparesConstraints(ReleaseWaiters(m.g, c), tys, tg, t);
  }

  /** Bound types lead to their root, and only unbound types are still mutable. */
  ghost predicate Resolved(tg: TypeGraph) {
    && (forall x: Vertex {:trigger tg.follow(x)} ::
          tg.follow(x) == if x in tg.bound then tg.follow(tg.bound[x]) else x)
    && forall x: Vertex, y :: y in tg.reachable(x) ==> y !in tg.bound
  }

  lemma {:induction false} ChainIsBound(tg: TypeGraph, ty: Vertex, root: Vertex, seen: set<Vertex>)
    requires Resolved(tg) && root == tg.follow(ty) && root in seen
    ensures forall x :: x in Chain(tg, ty, seen) ==> x in tg.bound && x !in seen
    decreases |tg.bound.Keys - seen|, if ty in tg.bound || ty in seen then 0 else 1
  {
    if ty !in seen && ty in tg.bound {
      assert ty in tg.bound.Keys - seen;
      SubsetSmaller(tg.bound.Keys - (seen + {ty}), tg.bound.Keys - seen);
      ChainIsBound(tg, tg.bound[ty], root, seen + {ty});
    }
  }

  /** Repairing `ty` hands the wait for `c` on to `t`. */
  ghost predicate Feeds(g: Graph, c: Vertex, ty: Vertex, tg: TypeGraph, t: Vertex) {
    t in Targets(tg, tg.follow(ty)) && exists x :: x in ChainSet(tg, ty) && c in g.deps[x]
  }

  lemma {:induction false} ShiftAllFeeds(g: Graph, chain: seq<Vertex>, root: Vertex, tg: TypeGraph, c: Vertex)
    requires Resolved(tg) && c !in chain && root !in chain && forall x :: x in chain ==> x in tg.bound
    ensures var g' := ShiftAll(g, chain, root, tg);
            forall t: Vertex :: c in g'.deps[t] <==>
              c in g.deps[t] || (t in Targets(tg, root) && exists x :: x in chain && c in g.deps[x])
    decreases |chain|
  {
    if chain != [] {
      var g1 := Shift(g, chain[0], root, tg);
      ShiftFeeds(g, chain[0], root, tg, c);
      forall x | x in chain
        ensures x !in Targets(tg, root)
      {
        BoundIsNoTarget(tg, root, x);
      }
      hide Shift, Targets, Resolved;
      ShiftAllFeeds(g1, chain[1..], root, tg, c);
      assert forall x :: x in chain <==> x == chain[0] || x in chain[1..];
    }
  }

  lemma BoundIsNoTarget(tg: TypeGraph, root: Vertex, x: Vertex)
    requires Resolved(tg) && x in tg.bound
    ensures x !in Targets(tg, root)
  {
  }

  lemma ShiftFeeds(g: Graph, source: Vertex, root: Vertex, tg: TypeGraph, c: Vertex)
    requires source != root && c != source
    ensures forall t: Vertex :: c in Shift(g, source, root, tg).deps[t] <==>
              c in g.deps[t] || (t in Targets(tg, root) && c in g.deps[source])
  {
    hide Targets;
  }

  lemma RepairFeeds(g: Graph, ty: Vertex, tg: TypeGraph, c: Vertex)
    requires WellFormed(tg) && Resolved(tg) && c.Cons? && !ty.Cons?
    ensures forall t: Vertex :: c in Repair(g, ty, tg).deps[t] <==> c in g.deps[t] || Feeds(g, c, ty, tg, t)
  {
    var root := tg.follow(ty);
    ChainHasNoConstraints(tg, ty, {root});
    ChainIsBound(tg, ty, root, {root});
    ShiftAllFeeds(g, Chain(tg, ty, {root}), root, tg, c);
  }

  lemma RepairFeedsAt(g: Graph, ty: Vertex, tg: TypeGraph, c: Vertex, t: Vertex)
    requires WellFormed(tg) && Resolved(tg) && c.Cons? && !ty.Cons?
    ensures c in Repair(g, ty, tg).deps[t] <==> c in g.deps[t] || Feeds(g, c, ty, tg, t)
  {
    hide Repair, Feeds, WellFormed, Resolved;
    RepairFeeds(g, ty, tg, c);
  }

  /** Repairs feed mutable types only, so they do not change what later chains have to hand on. */
  lemma FeedsStable(g: Graph, ty: Vertex, tg: TypeGraph, c: Vertex, u: Vertex, t: Vertex)
    requires WellFormed(tg) && Resolved(tg) && c.Cons? && !ty.Cons? && !u.Cons?
    ensures Feeds(Repair(g, ty, tg), c, u, tg, t) == Feeds(g, c, u, tg, t)
  {
    RepairFeeds(g, ty, tg, c);
    ChainIsBound(tg, u, tg.follow(u), {tg.follow(u)});
    assert forall x :: x in ChainSet(tg, u) ==> (c in Repair(g, ty, tg).deps[x] <==> c in g.deps[x]);
  }

  lemma {:induction false} RepairAllFeeds(g: Graph, tys: seq<Vertex>, tg: TypeGraph, c: Vertex, t: Vertex)
    requires WellFormed(tg) && Resolved(tg) && c.Cons? && forall ty :: ty in tys ==> !ty.Cons?
    ensures c in RepairAll(g, tys, tg).deps[t] <==> c in g.deps[t] || SomeFeeds(g, c, tys, tg, t)
    decreases |tys|
  {
    if tys != [] {
      hide Repair, Feeds, SomeFeeds, WellFormed, Resolved;
      var ty, rest := tys[0], tys[1..];
      RepairFeedsAt(g, ty, tg, c, t);
      RepairAllFeeds(Repair(g, ty, tg), rest, tg, c, t);
      forall u | u in rest
        ensures Feeds(Repair(g, ty, tg), c, u, tg, t) == Feeds(g, c, u, tg, t)
      {
        FeedsStable(g, ty, tg, c, u, t);
      }
      FeedsStep(g, Repair(g, ty, tg), c, tys, tg, t);
    }
  }

  ghost predicate SomeFeeds(g: Graph, c: Vertex, tys: seq<Vertex>, tg: TypeGraph, t: Vertex) {
    exists ty :: ty in tys && Feeds(g, c, ty, tg, t)
  }

  lemma FeedsStep(g: Graph, g1: Graph, c: Vertex, tys: seq<Vertex>, tg: TypeGraph, t: Vertex)
    requires tys != [] && forall u :: u in tys[1..] ==> Feeds(g1, c, u, tg, t) == Feeds(g, c, u, tg, t)
    ensures SomeFeeds(g, c, tys, tg, t) <==> Feeds(g, c, tys[0], tg, t) || SomeFeeds(g1, c, tys[1..], tg, t)
  {
    hide Feeds;
    assert forall u :: u in tys <==> u == tys[0] || u in tys[1..];
  }

  /** A repaired chain runs through a type that depends on `c` but is no longer recorded for it, and its root reaches `t`. */
  ghost predicate StaleSource(g: Graph, c: Vertex, ty: Vertex, tg: TypeGraph, t: Vertex) {
    t in Targets(tg, tg.follow(ty)) && exists x :: x in ChainSet(tg, ty) && c in g.deps[x] && x !in g.rdeps[c]
  }

  /**
   * Unlike a constraint, a type can still wait for a constraint right after it is unblocked: exactly if it waited unrecorded
   * before, or if a repaired chain hands an unrecorded wait on to it.
   */
  lemma StillWaitingIffStale(m: Machine, c: Vertex, tys: seq<Vertex>, tg: TypeGraph, t: Vertex)
    requires Inv(m) && Enabled(m.g, Unblock(c, tys, tg)) && Resolved(tg)
    ensures c in Step(m, Unblock(c, tys, tg)).g.deps[t] <==>
              (c in m.g.deps[t] && t !in m.g.rdeps[c]) || exists ty :: ty in tys && StaleSource(m.g, c, ty, tg, t)
    ensures c in m.g.deps[t] && t !in m.g.rdeps[c] ==> t in m.shifted
  {
    var g := ReleaseWaiters(m.g, c);
    RepairAllFeeds(g, tys, tg, c, t);
    assert forall ty :: Feeds(g, c, ty, tg, t) == StaleSource(m.g, c, ty, tg, t);
  }

  // ---------------------------------------------------------------- what a repair achieves

  /** Types never depend on other types: they wait for constraints only. */
  ghost predicate TypesWaitForConstraints(g: Graph) {
    forall t: Vertex, v :: v in g.deps[t] && !t.Cons? ==> v.Cons?
  }

  /** Nothing but stale types waits for `x`. */
  ghost predicate NobodyWaits(g: Graph, shifted: set<Vertex>, x: Vertex) {
    forall t: Vertex :: t !in shifted ==> x !in g.deps[t]
  }

  lemma ShiftReleases(m: Machine, x: Vertex, root: Vertex, tg: TypeGraph, y: Vertex)
    requires Inv(m) && TypesWaitForConstraints(m.g) && x != root && !x.Cons? && !y.Cons?
    requires WellFormed(tg) && (y == x || NobodyWaits(m.g, m.shifted, y))
    ensures var g' := Shift(m.g, x, root, tg); TypesWaitForConstraints(g') && NobodyWaits(g', m.shifted + {x}, y)
  {
    var copied := CopyDependencies(m.g, x, true, Targets(tg, root));
    assert TypesWaitForConstraints(copied);
    assert forall t: Vertex :: t !in m.shifted + {x} && y in copied.deps[t] ==> y in m.g.deps[t];
  }

  lemma {:induction false} ShiftAllReleases(
      m: Machine, chain: seq<Vertex>, root: Vertex, tg: TypeGraph, x: Vertex, shifted: set<Vertex>)
    requires Inv(m) && WellFormed(tg) && TypesWaitForConstraints(m.g) && root !in chain && !x.Cons?
    requires forall y :: y in chain ==> !y.Cons? && y in shifted
    requires m.shifted <= shifted && (x in chain || NobodyWaits(m.g, m.shifted, x))
    ensures var g' := ShiftAll(m.g, chain, root, tg);
            TypesWaitForConstraints(g') && NobodyWaits(g', shifted, x)
    decreases |chain|
  {
    if chain != [] {
      var y := chain[0];
      ShiftKeepsInv(m, y, root, tg);
      var m1 := m.(g := Shift(m.g, y, root, tg), shifted := m.shifted + {y});
      ShiftReleases(m, y, root, tg, if x in chain[1..] then y else x);
      ShiftAllReleases(m1, chain[1..], root, tg, x, shifted);
    }
  }

  /** `t` waits for `c`, and `c` knows it. */
  ghost predicate Linked(g: Graph, t: Vertex, c: Vertex) {
    c in g.deps[t] && t in g.rdeps[c]
  }

  lemma {:induction false} ShiftAllKeepsLinks(g: Graph, chain: seq<Vertex>, root: Vertex, tg: TypeGraph, t: Vertex, c: Vertex)
    requires t in Targets(tg, root) && c.Cons? && (forall x :: x in chain ==> !x.Cons?) && Linked(g, t, c)
    ensures Linked(ShiftAll(g, chain, root, tg), t, c)
    decreases |chain|
  {
    if chain != [] {
      ShiftAllKeepsLinks(Shift(g, chain[0], root, tg), chain[1..], root, tg, t, c);
    }
  }

  lemma {:induction false} ShiftAllLinks(
      g: Graph, chain: seq<Vertex>, root: Vertex, tg: TypeGraph, x: Vertex, t: Vertex, c: Vertex)
    requires t in Targets(tg, root) && c.Cons? && (forall y :: y in chain ==> !y.Cons?)
    requires root !in chain && x in chain && c in g.deps[x]
    ensures Linked(ShiftAll(g, chain, root, tg), t, c)
    decreases |chain|
  {
    var g1 := Shift(g, chain[0], root, tg);
    if x == chain[0] {
      ShiftAllKeepsLinks(g1, chain[1..], root, tg, t, c);
    } else {
      ShiftAllLinks(g1, chain[1..], root, tg, x, t, c);
    }
  }

  /** After a repair nothing but stale types waits for a chain member, and the chain's constraints have moved to the root. */
  lemma RepairMovesReferences(m: Machine, ty: Vertex, tg: TypeGraph)
    requires Inv(m) && WellFormed(tg) && !ty.Cons? && TypesWaitForConstraints(m.g)
    ensures var g' := Repair(m.g, ty, tg);
            && TypesWaitForConstraints(g')
            && (forall x :: x in ChainSet(tg, ty) ==> NobodyWaits(g', m.shifted + ChainSet(tg, ty), x))
            && forall x, c, t :: x in ChainSet(tg, ty) && c in m.g.deps[x] && t in Targets(tg, tg.follow(ty)) ==>
                 Linked(g', t, c)
  {
    var root := tg.follow(ty);
    var chain := Chain(tg, ty, {root});
    ChainHasNoConstraints(tg, ty, {root});
    forall x | x in ChainSet(tg, ty)
      ensures TypesWaitForConstraints(Repair(m.g, ty, tg))
      ensures NobodyWaits(Repair(m.g, ty, tg), m.shifted + ChainSet(tg, ty), x)
    {
      ShiftAllReleases(m, chain, root, tg, x, m.shifted + ChainSet(tg, ty));
    }
    assert chain != [] ==> chain[0] in ChainSet(tg, ty);
    forall x, c, t | x in ChainSet(tg, ty) && c in m.g.deps[x] && t in Targets(tg, root)
      ensures Linked(Repair(m.g, ty, tg), t, c)
    {
      ShiftAllLinks(m.g, chain, root, tg, x, t, c);
    }
  }

  /** Unblocking a type leaves nothing but stale types waiting for it, for its chain, or for its root. */
  lemma UnblockTypeReleasesAll(m: Machine, ty: Vertex, tg: TypeGraph, x: Vertex)
    requires Inv(m) && Enabled(m.g, UnblockTypeOrPack(ty, tg)) && TypesWaitForConstraints(m.g)
    requires x in ChainSet(tg, ty) || x == tg.follow(ty)
    ensures var m' := Step(m, UnblockTypeOrPack(ty, tg)); NobodyWaits(m'.g, m'.shifted, x)
  {
    RepairMovesReferences(m, ty, tg);
    RepairKeepsInv(m, ty, tg);
  }

  /** The callers' side of the rule that types never depend on other types. */
  ghost predicate Typed(op: Op) {
    match op
    case Add(v, t) => t.Cons? || v.Cons?
    case InheritBlocks(_, n) => n.Cons?
    case _ => true
  }

  lemma {:induction false} RepairAllKeepsTyping(m: Machine, tys: seq<Vertex>, tg: TypeGraph)
    requires Inv(m) && WellFormed(tg) && TypesWaitForConstraints(m.g) && forall t :: t in tys ==> !t.Cons?
    ensures TypesWaitForConstraints(RepairAll(m.g, tys, tg))
    decreases |tys|
  {
    if tys != [] {
      RepairMovesReferences(m, tys[0], tg);
      RepairKeepsInv(m, tys[0], tg);
      var m1 := m.(g := Repair(m.g, tys[0], tg), shifted := m.shifted + ChainSet(tg, tys[0]));
      RepairAllKeepsTyping(m1, tys[1..], tg);
    }
  }

  lemma ReleaseKeepsInv(m: Machine, c: Vertex)
    requires Inv(m) && c.Cons?
    ensures Inv(Machine(ReleaseWaiters(m.g, c), m.shifted, m.unblocked + {c}))
    ensures TypesWaitForConstraints(m.g) ==> TypesWaitForConstraints(ReleaseWaiters(m.g, c))
  {
  }

  lemma ClearKeepsTyping(g: Graph, x: Vertex)
    requires TypesWaitForConstraints(g)
    ensures TypesWaitForConstraints(ClearReverseOf(g, x))
  {
  }

  lemma StepKeepsTyping(m: Machine, op: Op)
    requires Inv(m) && Enabled(m.g, op) && Typed(op) && TypesWaitForConstraints(m.g)
    ensures TypesWaitForConstraints(Step(m, op).g)
  {
    match op
    case Add(v, t) =>
    case InheritBlocks(e, n) =>
    case CopyOf(s, t, tg) =>
    case ShiftReferences(s, t, tg) =>
    case UnblockTypeOrPack(ty, tg) =>
      RepairMovesReferences(m, ty, tg);
      ClearKeepsTyping(Repair(m.g, ty, tg), tg.follow(ty));
    case Unblock(c, tys, tg) =>
      ReleaseKeepsInv(m, c);
      RepairAllKeepsTyping(Machine(ReleaseWaiters(m.g, c), m.shifted, m.unblocked + {c}), tys, tg);
  }

  lemma {:induction false} RunKeepsTyping(m: Machine, ops: seq<Op>)
    requires Inv(m) && EnabledRun(m, ops) && TypesWaitForConstraints(m.g) && forall op :: op in ops ==> Typed(op)
    ensures TypesWaitForConstraints(Run(m, ops).g)
    decreases |ops|
  {
    if ops != [] {
      assert ops[0] in ops;
      StepKeepsInv(m, ops[0]);
      StepKeepsTyping(m, ops[0]);
      RunKeepsTyping(Step(m, ops[0]), ops[1..]);
    }
  }

  // ---------------------------------------------------------------- each operation, edge by edge

  /** Adding adds one edge, and nothing else. It is recorded unless it was there before. */
  lemma AddEdges(m: Machine, v: Vertex, t: Vertex, u: Vertex, w: Vertex)
    ensures var g := Step(m, Add(v, t)).g;
      && (w in g.deps[u] <==> w in m.g.deps[u] || (u == t && w == v))
      && (u in g.rdeps[w] <==> u in m.g.rdeps[w] || (u == t && w == v && v !in m.g.deps[t]))
  {
  }

  /** Whatever is recorded as waiting for `e` waits for `n` too, and that is recorded. Nothing else changes. */
  lemma InheritBlocksEdges(m: Machine, e: Vertex, n: Vertex, u: Vertex, w: Vertex)
    ensures var g := Step(m, InheritBlocks(e, n)).g;
      && (w in g.deps[u] <==> w in m.g.deps[u] || (w == n && u in m.g.rdeps[e]))
      && (u in g.rdeps[w] <==> u in m.g.rdeps[w] || (w == n && u in m.g.rdeps[e]))
  {
  }

  /** Copying links every mutable type of the target to all that `s` waits for. What `s` waits for stays as it is. */
  lemma CopyOfEdges(m: Machine, s: Vertex, t: Vertex, tg: TypeGraph, u: Vertex, w: Vertex)
    ensures var g := Step(m, CopyOf(s, t, tg)).g;
      && (w in g.deps[u] <==> w in m.g.deps[u] || (u in tg.reachable(t) && w in m.g.deps[s]))
      && (u in g.rdeps[w] <==> u in m.g.rdeps[w] || (u in tg.reachable(t) && w in m.g.deps[s]))
  {
  }

  /** After copying, is `u` recorded as waiting for `w`? The source no longer is, unless it is one of the targets. */
  ghost predicate RecordedOnceCopied(g: Graph, s: Vertex, targets: seq<Vertex>, u: Vertex, w: Vertex) {
    if w in g.deps[s] then u in targets || (u in g.rdeps[w] && u != s) else u in g.rdeps[w]
  }

  /** Shifting does the same, takes the source out of the records, and releases all that are recorded as waiting for it. */
  lemma ShiftReferencesEdges(m: Machine, s: Vertex, t: Vertex, tg: TypeGraph, u: Vertex, w: Vertex)
    requires s != t
    ensures var g := Step(m, ShiftReferences(s, t, tg)).g;
      && (w in g.deps[u] <==>
            && (w in m.g.deps[u] || (u in tg.reachable(t) && w in m.g.deps[s]))
            && !(w == s && RecordedOnceCopied(m.g, s, tg.reachable(t), u, s)))
      && (u in g.rdeps[w] <==> w != s && RecordedOnceCopied(m.g, s, tg.reachable(t), u, w))
  {
  }

  /** Unblocking a type hands the waits of its chain for a constraint on to the mutable types of the root, and ends none. */
  lemma UnblockTypeEdges(m: Machine, ty: Vertex, tg: TypeGraph, t: Vertex, c: Vertex)
    requires Enabled(m.g, UnblockTypeOrPack(ty, tg)) && Resolved(tg) && c.Cons?
    ensures c in Step(m, UnblockTypeOrPack(ty, tg)).g.deps[t] <==>
              c in m.g.deps[t] || (t in tg.reachable(tg.follow(ty)) && exists x :: x in ChainSet(tg, ty) && c in m.g.deps[x])
  {
    hide Repair;
    RepairFeeds(m.g, ty, tg, c);
  }

  /** Unblocking a constraint does that with the waits for all others, for each type that was recorded as waiting for it. */
  lemma UnblockEdges(m: Machine, c: Vertex, tys: seq<Vertex>, tg: TypeGraph, t: Vertex, d: Vertex)
    requires Enabled(m.g, Unblock(c, tys, tg)) && Resolved(tg) && d.Cons? && d != c
    ensures d in Step(m, Unblock(c, tys, tg)).g.deps[t] <==>
              d in m.g.deps[t] ||
              exists ty, x :: ty in tys && t in tg.reachable(tg.follow(ty)) && x in ChainSet(tg, ty) && d in m.g.deps[x]
  {
    hide RepairAll;
    var g := ReleaseWaiters(m.g, c);
    RepairAllFeeds(g, tys, tg, d, t);
    assert forall x: Vertex :: d in g.deps[x] <==> d in m.g.deps[x];
    assert forall ty :: Feeds(g, d, ty, tg, t) <==>
      t in tg.reachable(tg.follow(ty)) && exists x :: x in ChainSet(tg, ty) && d in m.g.deps[x];
  }

  lemma ShiftForConstraint(m: Machine, x: Vertex, root: Vertex, tg: TypeGraph, t: Vertex, w: Vertex)
    requires Inv(m) && WellFormed(tg) && x != root && !x.Cons? && t.Cons? && !w.Cons?
    ensures w in Shift(m.g, x, root, tg).deps[t] <==> w in m.g.deps[t] && w != x
  {
    var step := Step(m, ShiftReferences(x, root, tg));
    ShiftReferencesEdges(m, x, root, tg, t, w);
    assert step.g == Shift(m.g, x, root, tg);
    hide Step, Shift;
    assert t !in tg.reachable(root);
  }

  lemma {:induction false} ShiftAllForConstraint(
      m: Machine, chain: seq<Vertex>, root: Vertex, tg: TypeGraph, t: Vertex, w: Vertex)
    requires Inv(m) && WellFormed(tg) && root !in chain && (forall x :: x in chain ==> !x.Cons?) && t.Cons? && !w.Cons?
    ensures w in ShiftAll(m.g, chain, root, tg).deps[t] <==> w in m.g.deps[t] && w !in chain
    decreases |chain|
  {
    if chain != [] {
      hide Shift, WellFormed, Inv;
      ShiftKeepsInv(m, chain[0], root, tg);
      ShiftForConstraint(m, chain[0], root, tg, t, w);
      var m1 := m.(g := Shift(m.g, chain[0], root, tg), shifted := m.shifted + {chain[0]});
      ShiftAllForConstraint(m1, chain[1..], root, tg, t, w);
      assert w in chain <==> w == chain[0] || w in chain[1..];
    }
  }

  lemma RepairForConstraint(m: Machine, ty: Vertex, tg: TypeGraph, t: Vertex, w: Vertex)
    requires Inv(m) && WellFormed(tg) && !ty.Cons? && t.Cons? && !w.Cons?
    ensures w in Repair(m.g, ty, tg).deps[t] <==> w in m.g.deps[t] && w !in ChainSet(tg, ty)
  {
    hide Inv, ShiftAll;
    ChainHasNoConstraints(tg, ty, {tg.follow(ty)});
    ShiftAllForConstraint(m, Chain(tg, ty, {tg.follow(ty)}), tg.follow(ty), tg, t, w);
  }

  /** Of the waits of a constraint for types, unblocking a type ends those for its chain and for its root, and no others. */
  lemma UnblockTypeWaits(m: Machine, ty: Vertex, tg: TypeGraph, t: Vertex, w: Vertex)
    requires Inv(m) && Enabled(m.g, UnblockTypeOrPack(ty, tg)) && t.Cons? && !w.Cons?
    ensures w in Step(m, UnblockTypeOrPack(ty, tg)).g.deps[t] <==>
              w in m.g.deps[t] && w !in ChainSet(tg, ty) && w != tg.follow(ty)
  {
    hide Repair, ChainSet;
    RepairForConstraint(m, ty, tg, t, w);
    RepairKeepsInv(m, ty, tg);
    var m1 := m.(g := Repair(m.g, ty, tg), shifted := m.shifted + ChainSet(tg, ty));
    assert w in m1.g.deps[t] ==> t in m1.g.rdeps[w];
  }

  lemma {:induction false} RepairAllForConstraint(m: Machine, tys: seq<Vertex>, tg: TypeGraph, t: Vertex, w: Vertex)
    requires Inv(m) && WellFormed(tg) && (forall ty :: ty in tys ==> !ty.Cons?) && t.Cons? && !w.Cons?
    ensures w in RepairAll(m.g, tys, tg).deps[t] <==> w in m.g.deps[t] && w !in ChainSets(tg, tys)
    decreases |tys|
  {
    if tys != [] {
      hide Repair, ChainSet, WellFormed, Inv;
      RepairForConstraint(m, tys[0], tg, t, w);
      RepairKeepsInv(m, tys[0], tg);
      var m1 := m.(g := Repair(m.g, tys[0], tg), shifted := m.shifted + ChainSet(tg, tys[0]));
      RepairAllForConstraint(m1, tys[1..], tg, t, w);
    }
  }

  /** Unblocking a constraint ends a constraint's waits for the chains of the types recorded as waiting for it, and no others. */
  lemma UnblockWaits(m: Machine, c: Vertex, tys: seq<Vertex>, tg: TypeGraph, t: Vertex, w: Vertex)
    requires Inv(m) && Enabled(m.g, Unblock(c, tys, tg)) && t.Cons? && !w.Cons?
    ensures w in Step(m, Unblock(c, tys, tg)).g.deps[t] <==>
              w in m.g.deps[t] && forall ty :: ty in tys ==> w !in ChainSet(tg, ty)
  {
    hide RepairAll, ChainSet;
    ReleaseKeepsInv(m, c);
    RepairAllForConstraint(Machine(ReleaseWaiters(m.g, c), m.shifted, m.unblocked + {c}), tys, tg, t, w);
    ChainSetsAre(tg, tys, w);
  }

  /** Who is recorded as waiting for `v` once the waits of these types have been handed on. */
  ghost predicate RecordedOnceRepaired(g: Graph, chain: set<Vertex>, targets: set<Vertex>, u: Vertex, v: Vertex) {
    || (u in targets && exists x :: x in chain && v in g.deps[x])
    || (u in g.rdeps[v] && !(u in chain && v in g.deps[u]))
  }

  lemma ShiftRecords(g: Graph, x: Vertex, root: Vertex, tg: TypeGraph, u: Vertex, v: Vertex)
    requires x != root && v.Cons? && !x.Cons?
    ensures u in Shift(g, x, root, tg).rdeps[v] <==> RecordedOnceRepaired(g, {x}, Targets(tg, root), u, v)
  {
    hide Targets;
  }

  lemma {:induction false} ShiftAllRecords(g: Graph, chain: seq<Vertex>, root: Vertex, tg: TypeGraph, u: Vertex, v: Vertex)
    requires Resolved(tg) && v.Cons? && root !in chain && forall x :: x in chain ==> x in tg.bound && !x.Cons?
    ensures u in ShiftAll(g, chain, root, tg).rdeps[v] <==>
              RecordedOnceRepaired(g, (set x | x in chain), Targets(tg, root), u, v)
    decreases |chain|
  {
    if chain != [] {
      var x, rest := chain[0], chain[1..];
      var g1 := Shift(g, x, root, tg);
      ShiftRecords(g, x, root, tg, u, v);
      ShiftFeeds(g, x, root, tg, v);
      forall y | y in chain
        ensures y !in Targets(tg, root)
      {
        BoundIsNoTarget(tg, root, y);
      }
      hide Shift, Targets, Resolved;
      ShiftAllRecords(g1, rest, root, tg, u, v);
      assert forall y :: y in chain <==> y == x || y in rest;
      assert forall y :: y in chain ==> (v in g1.deps[y] <==> v in g.deps[y]);
    }
  }

  lemma RepairRecords(g: Graph, ty: Vertex, tg: TypeGraph, u: Vertex, v: Vertex)
    requires WellFormed(tg) && Resolved(tg) && v.Cons? && !ty.Cons?
    ensures u in Repair(g, ty, tg).rdeps[v] <==>
              RecordedOnceRepaired(g, ChainSet(tg, ty), Targets(tg, tg.follow(ty)), u, v)
  {
    var root := tg.follow(ty);
    ChainHasNoConstraints(tg, ty, {root});
    ChainIsBound(tg, ty, root, {root});
    hide RecordedOnceRepaired, ShiftAll;
    ShiftAllRecords(g, Chain(tg, ty, {root}), root, tg, u, v);
  }

  /** Unblocking a type records, for every constraint that its chain waited for, the mutable types of its root instead. */
  lemma UnblockTypeRecords(m: Machine, ty: Vertex, tg: TypeGraph, u: Vertex, c: Vertex)
    requires Enabled(m.g, UnblockTypeOrPack(ty, tg)) && Resolved(tg) && c.Cons?
    ensures u in Step(m, UnblockTypeOrPack(ty, tg)).g.rdeps[c] <==>
              || (u in tg.reachable(tg.follow(ty)) && exists x :: x in ChainSet(tg, ty) && c in m.g.deps[x])
              || (u in m.g.rdeps[c] && !(u in ChainSet(tg, ty) && c in m.g.deps[u]))
  {
    hide Repair, ChainSet;
    RepairRecords(m.g, ty, tg, u, c);
  }

  ghost predicate InSomeChain(tg: TypeGraph, tys: seq<Vertex>, u: Vertex) {
    exists ty :: ty in tys && u in ChainSet(tg, ty)
  }

  /** What is fed is unbound, and so in no chain; what is in a chain is not fed. */
  lemma ChainsAreNotFed(g: Graph, ty: Vertex, tg: TypeGraph, v: Vertex, u: Vertex, other: Vertex)
    requires Resolved(tg) && u in ChainSet(tg, other)
    ensures !Feeds(g, v, ty, tg, u)
  {
    ChainIsBound(tg, other, tg.follow(other), {tg.follow(other)});
    BoundIsNoTarget(tg, tg.follow(ty), u);
  }

  lemma ChainStep(tg: TypeGraph, tys: seq<Vertex>, u: Vertex)
    requires tys != []
    ensures InSomeChain(tg, tys, u) <==> u in ChainSet(tg, tys[0]) || InSomeChain(tg, tys[1..], u)
  {
    hide ChainSet;
    assert forall ty :: ty in tys <==> ty == tys[0] || ty in tys[1..];
  }

  lemma {:induction false} RepairAllRecords(g: Graph, tys: seq<Vertex>, tg: TypeGraph, u: Vertex, v: Vertex)
    requires WellFormed(tg) && Resolved(tg) && v.Cons? && forall ty :: ty in tys ==> !ty.Cons?
    ensures u in RepairAll(g, tys, tg).rdeps[v] <==>
              SomeFeeds(g, v, tys, tg, u) || (u in g.rdeps[v] && !(v in g.deps[u] && InSomeChain(tg, tys, u)))
    decreases |tys|
  {
    if tys != [] {
      var ty, rest := tys[0], tys[1..];
      var g1 := Repair(g, ty, tg);
      RepairRecords(g, ty, tg, u, v);
      RepairFeedsAt(g, ty, tg, v, u);
      assert RecordedOnceRepaired(g, ChainSet(tg, ty), Targets(tg, tg.follow(ty)), u, v) <==>
        Feeds(g, v, ty, tg, u) || (u in g.rdeps[v] && !(u in ChainSet(tg, ty) && v in g.deps[u]));
      if other :| other in tys && u in ChainSet(tg, other) {
        ChainsAreNotFed(g, ty, tg, v, u, other);
      }
      hide Repair, Feeds, SomeFeeds, WellFormed, Resolved, InSomeChain, ChainSet, RecordedOnceRepaired;
      RepairAllRecords(g1, rest, tg, u, v);
      forall w | w in rest
        ensures Feeds(g1, v, w, tg, u) == Feeds(g, v, w, tg, u)
      {
        FeedsStable(g, ty, tg, v, w, u);
      }
      FeedsStep(g, g1, v, tys, tg, u);
      ChainStep(tg, tys, u);
      NotFedInChains(g, ty, tg, v, u, tys);
    }
  }

  lemma NotFedInChains(g: Graph, ty: Vertex, tg: TypeGraph, v: Vertex, u: Vertex, tys: seq<Vertex>)
    requires Resolved(tg)
    ensures InSomeChain(tg, tys, u) ==> !Feeds(g, v, ty, tg, u)
  {
    if other :| other in tys && u in ChainSet(tg, other) {
      ChainsAreNotFed(g, ty, tg, v, u, other);
    }
  }

  /** Unblocking a constraint does that for all others, for each type recorded as waiting for it. */
  lemma UnblockRecords(m: Machine, c: Vertex, tys: seq<Vertex>, tg: TypeGraph, u: Vertex, d: Vertex)
    requires Enabled(m.g, Unblock(c, tys, tg)) && Resolved(tg) && d.Cons? && d != c
    ensures u in Step(m, Unblock(c, tys, tg)).g.rdeps[d] <==>
              || (exists ty, x :: ty in tys && u in tg.reachable(tg.follow(ty)) && x in ChainSet(tg, ty) && d in m.g.deps[x])
              || (u in m.g.rdeps[d] && !(d in m.g.deps[u] && exists ty :: ty in tys && u in ChainSet(tg, ty)))
  {
    hide RepairAll, ChainSet;
    var g := ReleaseWaiters(m.g, c);
    RepairAllRecords(g, tys, tg, u, d);
    assert forall x: Vertex :: d in g.deps[x] <==> d in m.g.deps[x];
    assert forall ty :: Feeds(g, d, ty, tg, u) <==>
      u in tg.reachable(tg.follow(ty)) && exists x :: x in ChainSet(tg, ty) && d in m.g.deps[x];
  }

  /** What is recorded as waiting for `c` itself stays recorded, and stale waits that are handed on are recorded too. */
  lemma UnblockKeepsRecord(m: Machine, c: Vertex, tys: seq<Vertex>, tg: TypeGraph, u: Vertex)
    requires Enabled(m.g, Unblock(c, tys, tg)) && Resolved(tg)
    ensures u in Step(m, Unblock(c, tys, tg)).g.rdeps[c] <==>
              u in m.g.rdeps[c] || exists ty :: ty in tys && StaleSource(m.g, c, ty, tg, u)
  {
    hide RepairAll, ChainSet;
    var g := ReleaseWaiters(m.g, c);
    RepairAllRecords(g, tys, tg, u, c);
    assert forall x: Vertex :: c in g.deps[x] <==> c in m.g.deps[x] && x !in m.g.rdeps[c];
    assert forall ty :: Feeds(g, c, ty, tg, u) <==> StaleSource(m.g, c, ty, tg, u);
  }

  /** Where `n` bindings lead from `ty`. */
  ghost function Bound(tg: TypeGraph, ty: Vertex, n: nat): Option<Vertex>
    decreases n
  {
    if n == 0 then Some(ty) else if ty in tg.bound then Bound(tg, tg.bound[ty], n - 1) else None
  }

  ghost predicate Avoids(tg: TypeGraph, ty: Vertex, n: nat, seen: set<Vertex>) {
    forall k: nat :: k <= n ==> Bound(tg, ty, k).Some? && Bound(tg, ty, k).value !in seen
  }

  ghost predicate LeadsTo(tg: TypeGraph, ty: Vertex, x: Vertex, seen: set<Vertex>) {
    exists n: nat :: Bound(tg, ty, n) == Some(x) && Avoids(tg, ty, n, seen)
  }

  lemma {:induction false} BoundAdds(tg: TypeGraph, ty: Vertex, n: nat, k: nat)
    requires Bound(tg, ty, n).Some?
    ensures Bound(tg, ty, n + k) == Bound(tg, Bound(tg, ty, n).value, k)
    decreases n
  {
    if n > 0 {
      BoundAdds(tg, tg.bound[ty], n - 1, k);
    }
  }

  /** A way that comes back to where it started can be cut short. */
  lemma {:induction false} WithoutReturn(tg: TypeGraph, ty: Vertex, x: Vertex, n: nat, seen: set<Vertex>)
    requires Bound(tg, ty, n) == Some(x) && Avoids(tg, ty, n, seen)
    ensures x == ty || (ty in tg.bound && LeadsTo(tg, tg.bound[ty], x, seen + {ty}))
    decreases n
  {
    if n > 0 {
      var next := tg.bound[ty];
      if k: nat :| 0 < k <= n && Bound(tg, ty, k) == Some(ty) {
        BoundAdds(tg, ty, k, n - k);
        forall j: nat | j <= n - k
          ensures Bound(tg, ty, j).Some? && Bound(tg, ty, j).value !in seen
        {
          BoundAdds(tg, ty, k, j);
        }
        WithoutReturn(tg, ty, x, n - k, seen);
      } else {
        forall j: nat | j <= n - 1
          ensures Bound(tg, next, j).Some? && Bound(tg, next, j).value !in seen + {ty}
        {
          assert Bound(tg, ty, j + 1) == Bound(tg, next, j);
        }
        assert Bound(tg, next, n - 1) == Some(x);
      }
    }
  }

  lemma LeadsStep(tg: TypeGraph, ty: Vertex, seen: set<Vertex>, x: Vertex)
    requires ty !in seen
    ensures LeadsTo(tg, ty, x, seen) <==> x == ty || (ty in tg.bound && LeadsTo(tg, tg.bound[ty], x, seen + {ty}))
  {
    if x == ty {
      assert Bound(tg, ty, 0) == Some(x) && Avoids(tg, ty, 0, seen);
    } else if ty in tg.bound && LeadsTo(tg, tg.bound[ty], x, seen + {ty}) {
      var n: nat :| Bound(tg, tg.bound[ty], n) == Some(x) && Avoids(tg, tg.bound[ty], n, seen + {ty});
      OneFurther(tg, ty, n, seen);
    }
    if n: nat :| Bound(tg, ty, n) == Some(x) && Avoids(tg, ty, n, seen) {
      WithoutReturn(tg, ty, x, n, seen);
    }
  }

  /** The types a repair visits are those that the bindings lead to, as long as they lead to nothing seen before. */
  lemma {:induction false} ChainLeads(tg: TypeGraph, ty: Vertex, seen: set<Vertex>, x: Vertex)
    ensures x in Chain(tg, ty, seen) <==> LeadsTo(tg, ty, x, seen)
    decreases |tg.bound.Keys - seen|, if ty in tg.bound || ty in seen then 0 else 1
  {
    if ty in seen {
      assert Bound(tg, ty, 0) == Some(ty);
    } else {
      hide LeadsTo;
      LeadsStep(tg, ty, seen, x);
      ChainUnfolds(tg, ty, seen);
      if ty in tg.bound {
        ChainLeads(tg, tg.bound[ty], seen + {ty}, x);
      }
    }
  }

  lemma OneFurther(tg: TypeGraph, ty: Vertex, n: nat, seen: set<Vertex>)
    requires ty !in seen && ty in tg.bound && Avoids(tg, tg.bound[ty], n, seen + {ty})
    ensures Bound(tg, ty, n + 1) == Bound(tg, tg.bound[ty], n) && Avoids(tg, ty, n + 1, seen)
  {
    forall k: nat | k <= n + 1
      ensures Bound(tg, ty, k).Some? && Bound(tg, ty, k).value !in seen
    {
      assert k > 0 ==> Bound(tg, ty, k) == Bound(tg, tg.bound[ty], k - 1);
    }
  }

  /** In particular, a repair of `ty` visits the types that the bindings lead to before they come to the root. */
  lemma ChainSetIs(tg: TypeGraph, ty: Vertex, x: Vertex)
    ensures x in ChainSet(tg, ty) <==> LeadsTo(tg, ty, x, {tg.follow(ty)})
  {
    ChainLeads(tg, ty, {tg.follow(ty)}, x);
  }

  lemma {:induction false} ChainSetsAre(tg: TypeGraph, tys: seq<Vertex>, x: Vertex)
    ensures x in ChainSets(tg, tys) <==> exists ty :: ty in tys && x in ChainSet(tg, ty)
  {
    if tys != [] {
      ChainSetsAre(tg, tys[1..], x);
      assert forall ty :: ty in tys <==> ty == tys[0] || ty in tys[1..];
    }
  }

  ghost predicate ShiftsAway(op: Op, x: Vertex) {
    match op
    case ShiftReferences(s, t, _) => x == s && s != t
    case UnblockTypeOrPack(ty, tg) => LeadsTo(tg, ty, x, {tg.follow(ty)})
    case Unblock(_, tys, tg) => exists ty :: ty in tys && LeadsTo(tg, ty, x, {tg.follow(ty)})
    case _ => false
  }

  /** Only shifting away from a type makes it stale, be it by itself or in a repair. */
  lemma StepHistory(m: Machine, op: Op, x: Vertex)
    ensures x in Step(m, op).shifted <==> x in m.shifted || ShiftsAway(op, x)
    ensures x in Step(m, op).unblocked <==> x in m.unblocked || (op.Unblock? && x == op.c)
  {
    hide LeadsTo, ChainSet;
    match op
    case UnblockTypeOrPack(ty, tg) => ChainSetIs(tg, ty, x);
    case Unblock(_, tys, tg) =>
      ChainSetsAre(tg, tys, x);
      forall ty | ty in tys
        ensures x in ChainSet(tg, ty) <==> LeadsTo(tg, ty, x, {tg.follow(ty)})
      {
        ChainSetIs(tg, ty, x);
      }
    case _ =>
  }

  // ---------------------------------------------------------------- what inheriting is for

  lemma {:induction false} RunAppend(m: Machine, a: seq<Op>, b: seq<Op>)
    ensures Run(m, a + b) == Run(Run(m, a), b)
    ensures EnabledRun(m, a + b) <==> EnabledRun(m, a) && EnabledRun(Run(m, a), b)
    decreases |a|
  {
    hide Step, Enabled;
    if a == [] {
      assert a + b == b;
    } else {
      RunAppend(Step(m, a[0]), a[1..], b);
      assert (a + b)[1..] == a[1..] + b;
    }
  }

  /**
   * What waits for `e` when `n` is minted waits for `n` too, unless it was shifted away from before, and goes on waiting
   * whatever happens, even if `e` is unblocked, until `n` is.
   */
  lemma InheritedWaitPersists(before: seq<Op>, e: Vertex, n: Vertex, after: seq<Op>, t: Vertex)
    requires n.Cons? && EnabledRun(Start, before) && EnabledRun(Run(Start, before), [InheritBlocks(e, n)] + after)
    requires e in Run(Start, before).g.deps[t] && t !in Run(Start, before).shifted
    requires forall op :: op in after ==> !(op.Unblock? && op.c == n)
    ensures n in Run(Start, before + [InheritBlocks(e, n)] + after).g.deps[t]
  {
    var m := Run(Start, before);
    ReachableInv(before);
    InheritBlocksEdges(m, e, n, t, n);
    hide Step, Enabled;
    var op := InheritBlocks(e, n);
    assert ([op] + after)[1..] == after;
    DependencyPersists(Step(m, op), after, t, n);
    RunAppend(Start, before, [op] + after);
    assert before + [op] + after == before + ([op] + after);
  }

  /** A constraint that inherited the wait is free of it, and of the inherited one, as soon as both are unblocked. */
  lemma InheritedWaitEnds(before: seq<Op>, n: Vertex, tys: seq<Vertex>, tg: TypeGraph, t: Vertex)
    requires n.Cons? && t.Cons? && EnabledRun(Start, before) && Enabled(Run(Start, before).g, Unblock(n, tys, tg))
    ensures n !in Run(Start, before + [Unblock(n, tys, tg)]).g.deps[t]
  {
    var m, op := Run(Start, before), Unblock(n, tys, tg);
    ReachableInv(before);
    UnblockReleasesConstraints(m, n, tys, tg, t);
    hide Step, Enabled;
    RunAppend(Start, before, [op]);
    assert [op][1..] == [];
    assert Run(m, [op]) == Run(Step(m, op), []);
  }

  // ---------------------------------------------------------------- what the history cannot be left out of

  /** Type 1 is bound to type 2; with `third` set, type 3 is bound to type 1. */
  ghost function Bindings(third: bool): TypeGraph {
    TypeGraph(if third then map[Type(1) := Type(2), Type(3) := Type(1)] else map[Type(1) := Type(2)],
              (x: Vertex) => if x == Type(1) || (third && x == Type(3)) then Type(2) else x,
              (x: Vertex) => if x == Type(2) then [Type(2)] else [])
  }

  /** Types 1, 2 and 3 wait for constraint 0 as given, and `waiters` are recorded as waiting for it. */
  ghost function Snapshot(one: bool, two: bool, three: bool, waiters: set<Vertex>): Graph {
    Graph(imap t: Vertex :: if (t == Type(1) && one) || (t == Type(2) && two) || (t == Type(3) && three)
                            then {Cons(0)} else NoEdges(t),
          imap v: Vertex :: if v == Cons(0) then waiters else NoEdges(v))
  }

  ghost const Waiting := Machine(Snapshot(true, false, false, {Type(1)}), {}, {})
  ghost const Shifted := Machine(Snapshot(true, true, false, {Type(2)}), {Type(1)}, {})
  ghost const Rejoined := Machine(Snapshot(true, true, true, {Type(2), Type(3)}), {Type(1)}, {})

  lemma WaitingReached()
    ensures Step(Start, Add(Cons(0), Type(1))) == Waiting
  {
    var g := AddDependency(Empty(), Cons(0), Type(1));
    SameEdges(g, Waiting.g);
  }

  lemma ShiftedReached()
    ensures Step(Waiting, UnblockTypeOrPack(Type(1), Bindings(false))) == Shifted
  {
    UnblockOnWaiting();
    RepairOnWaiting();
    StepOfUnblock(Waiting, Type(1), Bindings(false), Shifted);
  }

  lemma StepOfUnblock(m: Machine, ty: Vertex, tg: TypeGraph, m': Machine)
    requires UnblockType(m.g, ty, tg) == m'.g && m.unblocked == m'.unblocked
    requires m.shifted == {} && ChainSet(tg, ty) == m'.shifted
    ensures Step(m, UnblockTypeOrPack(ty, tg)) == m'
  {
    assert m.shifted + m'.shifted == m'.shifted;
  }

  lemma UnblockOnWaiting()
    ensures UnblockType(Waiting.g, Type(1), Bindings(false)) == Shifted.g
  {
    var g := Repair(Waiting.g, Type(1), Bindings(false));
    RepairOnWaiting();
    assert g.rdeps[Type(2)] == {};
    NothingRecorded(g, Type(2));
  }

  lemma RepairOnWaiting()
    ensures Repair(Waiting.g, Type(1), Bindings(false)) == Shifted.g
    ensures ChainSet(Bindings(false), Type(1)) == {Type(1)}
  {
    ChainOnWaiting();
    ShiftOnWaiting();
    hide Shift, Bindings, Snapshot, Chain;
    var chain := [Type(1)];
    assert chain[1..] == [];
    assert ShiftAll(Shifted.g, [], Type(2), Bindings(false)) == Shifted.g;
  }

  lemma ChainOnWaiting()
    ensures Bindings(false).follow(Type(1)) == Type(2) && Chain(Bindings(false), Type(1), {Type(2)}) == [Type(1)]
    ensures Targets(Bindings(false), Type(2)) == {Type(2)}
  {
    assert Chain(Bindings(false), Type(2), {Type(2)} + {Type(1)}) == [];
  }

  lemma NothingRecorded(g: Graph, x: Vertex)
    requires g.rdeps[x] == {}
    ensures ClearReverseOf(g, x) == g
  {
    SameEdges(ClearReverseOf(g, x), g);
  }

  lemma ShiftOnWaiting()
    ensures Shift(Waiting.g, Type(1), Type(2), Bindings(false)) == Shifted.g
  {
    ChainOnWaiting();
    ReferencesOnWaiting();
    hide CopyDependencies, ClearReverseOf, Bindings, Snapshot, Targets;
  }

  lemma ReferencesOnWaiting()
    ensures ClearReverseOf(CopyDependencies(Waiting.g, Type(1), true, {Type(2)}), Type(1)) == Shifted.g
  {
    var copied := CopyDependencies(Waiting.g, Type(1), true, {Type(2)});
    assert {Type(1)} - {Type(1)} + {Type(2)} == {Type(2)};
    SameEdges(copied, Shifted.g);
    NothingRecorded(copied, Type(1));
  }

  lemma RejoinedReached()
    ensures Step(Shifted, Add(Cons(0), Type(3))) == Rejoined
  {
    var g := AddDependency(Shifted.g, Cons(0), Type(3));
    assert {Type(2)} + {Type(3)} == {Type(2), Type(3)};
    SameEdges(g, Rejoined.g);
  }

  ghost function WaitOf(t: nat): Op {
    Add(Cons(0), Type(t))
  }

  ghost function Shifting(): Op {
    UnblockTypeOrPack(Type(1), Bindings(false))
  }

  ghost function Releasing(waiters: seq<Vertex>, third: bool): Op {
    Unblock(Cons(0), waiters, Bindings(third))
  }

  /** For a type that was shifted away from, the assertion in `addDependencyOf` does fail. */
  lemma AssertionCanFailOnceShifted()
    ensures EnabledRun(Start, [WaitOf(1), Shifting()]) && Run(Start, [WaitOf(1), Shifting()]) == Shifted
    ensures Cons(0) in Shifted.g.deps[Type(1)] && Type(1) !in Shifted.g.rdeps[Cons(0)]
  {
    FirstStep();
    SecondStep();
    hide Enabled, Step, WaitOf, Shifting;
    RunOfTwo(Start, WaitOf(1), Shifting());
  }

  lemma FirstStep()
    ensures Enabled(Start.g, WaitOf(1)) && Step(Start, WaitOf(1)) == Waiting
  {
    WaitingReached();
  }

  lemma SecondStep()
    ensures Enabled(Waiting.g, Shifting()) && Step(Waiting, Shifting()) == Shifted
  {
    ShiftedReached();
    hide Step;
    BindingsFit(false);
  }

  lemma BindingsFit(third: bool)
    ensures WellFormed(Bindings(third)) && Resolved(Bindings(third))
  {
  }

  lemma RunOfTwo(m: Machine, a: Op, b: Op)
    requires Enabled(m.g, a) && Enabled(Step(m, a).g, b)
    ensures EnabledRun(m, [a, b]) && Run(m, [a, b]) == Step(Step(m, a), b)
  {
    hide Enabled, Step;
    RunOneMore(m, [], a);
    RunOneMore(m, [a], b);
    assert [] + [a] == [a] && [a] + [b] == [a, b];
  }

  lemma {:induction false} RunOneMore(m: Machine, ops: seq<Op>, b: Op)
    requires EnabledRun(m, ops) && Enabled(Run(m, ops).g, b)
    ensures EnabledRun(m, ops + [b]) && Run(m, ops + [b]) == Step(Run(m, ops), b)
    decreases |ops|
  {
    hide Enabled, Step;
    if ops == [] {
      assert [] + [b] == [b] && [b][1..] == [];
    } else {
      RunOneMore(Step(m, ops[0]), ops[1..], b);
      assert (ops + [b])[1..] == ops[1..] + [b];
    }
  }

  /** A type that has been shifted away from is left waiting for a constraint that has just been unblocked. */
  lemma ShiftedTypeOutwaitsItsConstraint()
    ensures var ops := [WaitOf(1), Shifting()] + [Releasing([Type(2)], false)];
            EnabledRun(Start, ops) && Cons(0) in Run(Start, ops).g.deps[Type(1)]
  {
    AssertionCanFailOnceShifted();
    StillWaitsOnceShifted();
    hide Enabled, Step, WaitOf, Shifting, Releasing;
    RunOneMore(Start, [WaitOf(1), Shifting()], Releasing([Type(2)], false));
  }

  lemma StillWaitsOnceShifted()
    ensures Enabled(Shifted.g, Releasing([Type(2)], false))
    ensures Cons(0) in Step(Shifted, Releasing([Type(2)], false)).g.deps[Type(1)]
  {
    hide Step, WellFormed, Resolved, Inv, Bindings, StaleSource;
    BindingsFit(false);
    ShiftedInv();
    StillWaitingIffStale(Shifted, Cons(0), [Type(2)], Bindings(false), Type(1));
  }

  lemma ShiftedInv()
    ensures Inv(Shifted)
    ensures forall t :: t in [Type(2)] <==> t in Shifted.g.rdeps[Cons(0)] && !t.Cons?
  {
  }

  /** So is one that never was, by way of a type that has been. */
  lemma TypeCanOutwaitItsConstraint()
    ensures var ops := [WaitOf(1), Shifting()] + [WaitOf(3)];
            && EnabledRun(Start, ops) && Type(2) !in Run(Start, ops).shifted
            && EnabledRun(Start, ops + [Releasing([Type(2), Type(3)], true)])
            && Cons(0) in Run(Start, ops + [Releasing([Type(2), Type(3)], true)]).g.deps[Type(2)]
  {
    AssertionCanFailOnceShifted();
    RejoinedIsNext();
    StillWaitsOnceRejoined();
    hide Enabled, Step, WaitOf, Shifting, Releasing;
    RunOneMore(Start, [WaitOf(1), Shifting()], WaitOf(3));
    RunOneMore(Start, [WaitOf(1), Shifting()] + [WaitOf(3)], Releasing([Type(2), Type(3)], true));
  }

  lemma RejoinedIsNext()
    ensures Enabled(Shifted.g, WaitOf(3)) && Step(Shifted, WaitOf(3)) == Rejoined && Type(2) !in Rejoined.shifted
  {
    RejoinedReached();
  }

  lemma StillWaitsOnceRejoined()
    ensures Enabled(Rejoined.g, Releasing([Type(2), Type(3)], true))
    ensures Cons(0) in Step(Rejoined, Releasing([Type(2), Type(3)], true)).g.deps[Type(2)]
  {
    hide Step, WellFormed, Resolved, Inv, Bindings, StaleSource;
    BindingsFit(true);
    RejoinedInv();
    StaleOnceRejoined();
    assert Type(3) in [Type(2), Type(3)];
    StillWaitingIffStale(Rejoined, Cons(0), [Type(2), Type(3)], Bindings(true), Type(2));
  }

  lemma StaleOnceRejoined()
    ensures StaleSource(Rejoined.g, Cons(0), Type(3), Bindings(true), Type(2))
  {
    LongChain();
    assert Type(1) in ChainSet(Bindings(true), Type(3));
  }

  lemma RejoinedInv()
    ensures Inv(Rejoined)
    ensures forall t :: t in [Type(2), Type(3)] <==> t in Rejoined.g.rdeps[Cons(0)] && !t.Cons?
  {
  }

  lemma LongChain()
    ensures Chain(Bindings(true), Type(3), {Type(2)}) == [Type(3), Type(1)]
    ensures Targets(Bindings(true), Type(2)) == {Type(2)}
  {
    var tg := Bindings(true);
    var seen := {Type(2)} + {Type(3)};
    assert Chain(tg, Type(2), seen + {Type(1)}) == [];
    assert Chain(tg, Type(1), seen) == [Type(1)];
  }
}
