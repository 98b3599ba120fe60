/** Reachability over a heap snapshot: a breadth-first search that sorts the new objects into a tree. */
module HeapSearches {
  import opened Basics
  import opened ObjectTrees

  type Address = string

  datatype Pair = Pair(key: Option<Address>, val: Option<Address>)

  datatype Kind =
    | Str(data: string)
    | Table(pairs: seq<Pair>, items: seq<Address>, metatable: Option<Address>)
    | Function(env: Address, proto: Option<Address>, upvalues: seq<Address>)
    | Userdata(metatable: Option<Address>)
    | Thread(env: Address, stack: seq<Address>, names: seq<string>)
    | Proto(source: Option<string>, constants: seq<Address>, protos: seq<Address>)
    | Upvalue(target: Option<Address>)
    | Other

  datatype Object = Object(size: nat, cat: nat, kind: Kind)

  type Heap = map<Address, Object>

  datatype Root = Root(name: string, address: Address)

  // ---------------------------------------------------------------- what an object refers to

  function StringAt(heap: Heap, a: Option<Address>): Option<string> {
    if a.Some? && a.value in heap && heap[a.value].kind.Str? then Some(heap[a.value].kind.data) else None
  }

  /** The value under a string key. */
  function KeyEntry(heap: Heap, pairs: seq<Pair>, key: string): Option<Address> {
    if pairs == [] then None
    else if StringAt(heap, pairs[0].key) == Some(key) then pairs[0].val
    else KeyEntry(heap, pairs[1..], key)
  }

  /** The same, if it is a string. */
  function GetKey(heap: Heap, pairs: seq<Pair>, key: string): Option<string> {
    StringAt(heap, KeyEntry(heap, pairs, key))
  }

  /** Does the metatable's `__mode` contain this letter? */
  predicate Weak(heap: Heap, metatable: Option<Address>, letter: char) {
    metatable.Some? && metatable.value in heap && heap[metatable.value].kind.Table? &&
    var mode := GetKey(heap, heap[metatable.value].kind.pairs, "__mode");
    mode.Some? && letter in mode.value
  }

  ghost predicate IsString(heap: Heap, a: Option<Address>, data: string) {
    a.Some? && a.value in heap && heap[a.value].kind == Str(data)
  }

  /** The first pair with this key has a string with this letter for its value. */
  ghost predicate States(heap: Heap, pairs: seq<Pair>, key: string, letter: char, i: nat)
    requires i < |pairs|
  {
    && IsString(heap, pairs[i].key, key) && (forall j :: 0 <= j < i ==> !IsString(heap, pairs[j].key, key))
    && exists mode :: IsString(heap, pairs[i].val, mode) && letter in mode
  }

  lemma {:induction false} KeyEntryIs(heap: Heap, pairs: seq<Pair>, key: string, letter: char)
    ensures (GetKey(heap, pairs, key).Some? && letter in GetKey(heap, pairs, key).value) <==>
              exists i :: 0 <= i < |pairs| && States(heap, pairs, key, letter, i)
  {
    if pairs != [] {
      var rest := pairs[1..];
      assert StringAt(heap, pairs[0].key) == Some(key) <==> IsString(heap, pairs[0].key, key);
      if StringAt(heap, pairs[0].key) == Some(key) {
        var val := StringAt(heap, pairs[0].val);
        assert val.Some? ==> IsString(heap, pairs[0].val, val.value);
        assert val.Some? && letter in val.value ==> States(heap, pairs, key, letter, 0);
      } else {
        KeyEntryIs(heap, rest, key, letter);
        StatesLater(heap, pairs, key, letter);
      }
    }
  }

  lemma StatesLater(heap: Heap, pairs: seq<Pair>, key: string, letter: char)
    requires pairs != [] && !IsString(heap, pairs[0].key, key)
    ensures (exists i :: 0 <= i < |pairs| && States(heap, pairs, key, letter, i)) <==>
              exists i :: 0 <= i < |pairs[1..]| && States(heap, pairs[1..], key, letter, i)
  {
    hide IsString;
    forall i | 1 <= i < |pairs|
      ensures States(heap, pairs, key, letter, i) <==> States(heap, pairs[1..], key, letter, i - 1)
    {
      assert forall j :: 1 <= j < i ==> pairs[1..][j - 1] == pairs[j];
      assert forall j :: 0 <= j < i - 1 ==> pairs[1..][j] == pairs[j + 1];
    }
    if i :| 0 <= i < |pairs[1..]| && States(heap, pairs[1..], key, letter, i) {
      assert States(heap, pairs, key, letter, i + 1);
    }
  }

  /** Keys or values are weak if the value under the first `"__mode"` of the metatable is a string with their letter. */
  lemma WeakIff(heap: Heap, metatable: Option<Address>, letter: char)
    ensures Weak(heap, metatable, letter) <==>
              && metatable.Some? && metatable.value in heap && heap[metatable.value].kind.Table?
              && var pairs := heap[metatable.value].kind.pairs;
                 exists i :: 0 <= i < |pairs| && States(heap, pairs, "__mode", letter, i)
  {
    if metatable.Some? && metatable.value in heap && heap[metatable.value].kind.Table? {
      KeyEntryIs(heap, heap[metatable.value].kind.pairs, "__mode", letter);
    }
  }

  /** The strong references, kind by kind. The array part of a table is strong whatever its mode. */
  ghost predicate Refers(heap: Heap, kind: Kind, b: Address) {
    match kind
    case Str(_) => false
    case Table(pairs, items, metatable) =>
      || PairsRefer(heap, pairs, Weak(heap, metatable, 'k'), Weak(heap, metatable, 'v'), b)
      || b in items || metatable == Some(b)
    case Function(env, proto, upvalues) => b == env || proto == Some(b) || b in upvalues
    case Userdata(metatable) => metatable == Some(b)
    case Thread(env, stack, _) => b == env || b in stack
    case Proto(_, constants, protos) => b in constants || b in protos
    case Upvalue(target) => target == Some(b)
    case Other => false
  }

  ghost predicate PairsRefer(heap: Heap, pairs: seq<Pair>, weakKeys: bool, weakVals: bool, b: Address) {
    exists i :: 0 <= i < |pairs| && PairRefers(heap, pairs[i], weakKeys, weakVals, b)
  }

  /** String keys are strong in every table. */
  ghost predicate PairRefers(heap: Heap, pair: Pair, weakKeys: bool, weakVals: bool, b: Address) {
    || (pair.key == Some(b) && (StringAt(heap, pair.key).Some? || !weakKeys))
    || (pair.val == Some(b) && !weakVals)
  }

  // ---------------------------------------------------------------- the same as a list, with the nodes

  /** A reference, and the node for it seen from the object's own; without a target only the node is made. */
  datatype Link = Link(target: Option<Address>, path: Path)

  function Links(heap: Heap, kind: Kind): seq<Link> {
    match kind
    case Str(_) => []
    case Table(pairs, items, metatable) =>
      PairLinks(heap, pairs, Weak(heap, metatable, 'k'), Weak(heap, metatable, 'v')) +
      Each(items, []) + Maybe(metatable, ["__meta"])
    case Function(env, proto, upvalues) =>
      [Link(Some(env), ["__env"])] + Maybe(proto, ["__proto"]) + Each(upvalues, [SourceOf(heap, proto)])
    case Userdata(metatable) => Maybe(metatable, ["__meta"])
    case Thread(env, stack, names) =>
      [Link(Some(env), ["__env"]), Link(None, ["__stack"])] + StackLinks(stack, names, |stack|)
    case Proto(_, constants, protos) => Each(constants, []) + Each(protos, [])
    case Upvalue(target) => Maybe(target, [])
    case Other => []
  }

  function Maybe(a: Option<Address>, path: Path): seq<Link> {
    if a.Some? then [Link(a, path)] else []
  }

  function Each(list: seq<Address>, path: Path): (links: seq<Link>)
    ensures |links| == |list| && forall i :: 0 <= i < |list| ==> links[i] == Link(Some(list[i]), path)
  {
    if list == [] then [] else Each(list[..|list| - 1], path) + [Link(Some(list[|list| - 1]), path)]
  }

  function PairLinks(heap: Heap, pairs: seq<Pair>, weakKeys: bool, weakVals: bool): seq<Link> {
    if pairs == [] then []
    else PairLinks(heap, pairs[..|pairs| - 1], weakKeys, weakVals) + LinksOfPair(heap, pairs[|pairs| - 1], weakKeys, weakVals)
  }

  function LinksOfPair(heap: Heap, pair: Pair, weakKeys: bool, weakVals: bool): seq<Link> {
    var key := StringAt(heap, pair.key);
    if key.Some? then [Link(pair.key, [])] + if weakVals then [] else Maybe(pair.val, [key.value])
    else (if weakKeys then [] else Maybe(pair.key, [])) + if weakVals then [] else Maybe(pair.val, [])
  }

  function SourceOf(heap: Heap, proto: Option<Address>): string {
    if proto.Some? && proto.value in heap && heap[proto.value].kind.Proto? && heap[proto.value].kind.source.Some?
    then heap[proto.value].kind.source.value else ""
  }

  function NameAt(names: seq<string>, i: nat): string
    requires names == [] || i < |names|
  {
    if names == [] then "" else names[i]
  }

  predicate IsFrame(name: string) {
    "frame:" <= name
  }

  /** The node of the last frame among the first `n` slots, or of the stack. */
  function FrameAt(names: seq<string>, n: nat): Path
    requires names == [] || n <= |names|
  {
    if n == 0 then ["__stack"]
    else if IsFrame(NameAt(names, n - 1)) then ["__stack", NameAt(names, n - 1)[6..]]
    else FrameAt(names, n - 1)
  }

  /** Names count below a frame only. */
  function StackLink(stack: seq<Address>, names: seq<string>, i: nat): Link
    requires i < |stack| && (names == [] || |stack| <= |names|)
  {
    var name, frame := NameAt(names, i), FrameAt(names, i + 1);
    Link(Some(stack[i]), if !IsFrame(name) && name != "" && |frame| == 2 then frame + [name] else frame)
  }

  function StackLinks(stack: seq<Address>, names: seq<string>, n: nat): seq<Link>
    requires n <= |stack|
  {
    if n == 0 || (names != [] && |names| < |stack|) then []
    else StackLinks(stack, names, n - 1) + [StackLink(stack, names, n - 1)]
  }

  ghost predicate Targets(links: seq<Link>, b: Address) {
    exists i :: 0 <= i < |links| && links[i].target == Some(b)
  }

  lemma TargetsAppend(x: seq<Link>, y: seq<Link>, b: Address)
    ensures Targets(x + y, b) <==> Targets(x, b) || Targets(y, b)
  {
    if i :| 0 <= i < |x| && x[i].target == Some(b) {
      assert (x + y)[i] == x[i];
    }
    if i :| 0 <= i < |y| && y[i].target == Some(b) {
      assert (x + y)[|x| + i] == y[i];
    }
  }

  lemma EachTargets(list: seq<Address>, path: Path, b: Address)
    ensures Targets(Each(list, path), b) <==> b in list
  {
    if b in list {
      var i :| 0 <= i < |list| && list[i] == b;
      assert Each(list, path)[i].target == Some(b);
    }
  }

  lemma MaybeTargets(a: Option<Address>, path: Path, b: Address)
    ensures Targets(Maybe(a, path), b) <==> a == Some(b)
  {
    if a == Some(b) {
      assert Maybe(a, path)[0].target == Some(b);
    }
  }

  lemma PairTargets(heap: Heap, pair: Pair, weakKeys: bool, weakVals: bool, b: Address)
    ensures Targets(LinksOfPair(heap, pair, weakKeys, weakVals), b) <==> PairRefers(heap, pair, weakKeys, weakVals, b)
  {
    var key := StringAt(heap, pair.key);
    var path := if key.Some? then [key.value] else [];
    var first := if key.Some? then [Link(pair.key, [])] else if weakKeys then [] else Maybe(pair.key, []);
    var second := if weakVals then [] else Maybe(pair.val, path);
    assert LinksOfPair(heap, pair, weakKeys, weakVals) == first + second;
    TargetsAppend(first, second, b);
    MaybeTargets(pair.key, [], b);
    MaybeTargets(pair.val, path, b);
    assert key.Some? ==> Maybe(pair.key, []) == first;
  }

  lemma LastPair(heap: Heap, pairs: seq<Pair>, weakKeys: bool, weakVals: bool, b: Address)
    requires pairs != []
    ensures PairsRefer(heap, pairs, weakKeys, weakVals, b) <==>
              PairsRefer(heap, pairs[..|pairs| - 1], weakKeys, weakVals, b) ||
              PairRefers(heap, pairs[|pairs| - 1], weakKeys, weakVals, b)
  {
    hide PairRefers;
    assert forall i :: 0 <= i < |pairs| - 1 ==> pairs[..|pairs| - 1][i] == pairs[i];
  }

  lemma {:induction false} PairsTarget(heap: Heap, pairs: seq<Pair>, weakKeys: bool, weakVals: bool, b: Address)
    ensures Targets(PairLinks(heap, pairs, weakKeys, weakVals), b) <==> PairsRefer(heap, pairs, weakKeys, weakVals, b)
  {
    if pairs != [] {
      hide LinksOfPair, PairsRefer, PairRefers, Targets;
      var n := |pairs| - 1;
      PairsTarget(heap, pairs[..n], weakKeys, weakVals, b);
      PairTargets(heap, pairs[n], weakKeys, weakVals, b);
      LastPair(heap, pairs, weakKeys, weakVals, b);
      TargetsAppend(PairLinks(heap, pairs[..n], weakKeys, weakVals), LinksOfPair(heap, pairs[n], weakKeys, weakVals), b);
    }
  }

  lemma {:induction false} StackTargets(stack: seq<Address>, names: seq<string>, n: nat, b: Address)
    requires n <= |stack| && (names == [] || |stack| <= |names|)
    ensures Targets(StackLinks(stack, names, n), b) <==> b in stack[..n]
  {
    if n > 0 {
      StackTargets(stack, names, n - 1, b);
      var link := StackLink(stack, names, n - 1);
      TargetsAppend(StackLinks(stack, names, n - 1), [link], b);
      assert Targets([link], b) <==> stack[n - 1] == b by {
        assert [link][0].target == Some(stack[n - 1]);
      }
      assert stack[..n] == stack[..n - 1] + [stack[n - 1]];
    }
  }

  /** The names of a thread's stack slots are all there, or none. */
  predicate Named(kind: Kind) {
    kind.Thread? ==> kind.names == [] || |kind.stack| <= |kind.names|
  }

  /** The list has the strong references and no others. */
  lemma LinksAreReferences(heap: Heap, kind: Kind, b: Address)
    requires Named(kind)
    ensures Targets(Links(heap, kind), b) <==> Refers(heap, kind, b)
  {
    match kind
    case Str(_) =>
    case Table(pairs, items, metatable) =>
      var x := PairLinks(heap, pairs, Weak(heap, metatable, 'k'), Weak(heap, metatable, 'v'));
      TargetsAppend(x + Each(items, []), Maybe(metatable, ["__meta"]), b);
      TargetsAppend(x, Each(items, []), b);
      PairsTarget(heap, pairs, Weak(heap, metatable, 'k'), Weak(heap, metatable, 'v'), b);
      EachTargets(items, [], b);
      MaybeTargets(metatable, ["__meta"], b);
    case Function(env, proto, upvalues) =>
      var x := [Link(Some(env), ["__env"])];
      TargetsAppend(x + Maybe(proto, ["__proto"]), Each(upvalues, [SourceOf(heap, proto)]), b);
      TargetsAppend(x, Maybe(proto, ["__proto"]), b);
      MaybeTargets(proto, ["__proto"], b);
      EachTargets(upvalues, [SourceOf(heap, proto)], b);
      MaybeTargets(Some(env), ["__env"], b);
    case Userdata(metatable) =>
      MaybeTargets(metatable, ["__meta"], b);
    case Thread(env, stack, names) =>
      var x := [Link(Some(env), ["__env"]), Link(None, ["__stack"])];
      TargetsAppend(x, StackLinks(stack, names, |stack|), b);
      StackTargets(stack, names, |stack|, b);
      assert stack[..|stack|] == stack;
      assert Targets(x, b) <==> env == b by {
        assert x[0].target == Some(env);
      }
    case Proto(_, constants, protos) =>
      TargetsAppend(Each(constants, []), Each(protos, []), b);
      EachTargets(constants, [], b);
      EachTargets(protos, [], b);
    case Upvalue(target) =>
      MaybeTargets(target, [], b);
    case Other =>
  }

  // ---------------------------------------------------------------- and the nodes they lead to

  /** Reference by reference, the node that it leads to, seen from the object's own. */
  ghost predicate Places(heap: Heap, kind: Kind, b: Address, path: Path) {
    match kind
    case Str(_) => false
    case Table(pairs, items, metatable) =>
      || PairsPlace(heap, pairs, Weak(heap, metatable, 'k'), Weak(heap, metatable, 'v'), b, path)
      || (b in items && path == []) || (metatable == Some(b) && path == ["__meta"])
    case Function(env, proto, upvalues) =>
      || (b == env && path == ["__env"]) || (proto == Some(b) && path == ["__proto"])
      || (b in upvalues && |path| == 1 && NamesSource(heap, proto, path[0]))
    case Userdata(metatable) => metatable == Some(b) && path == ["__meta"]
    case Thread(env, stack, names) =>
      || (b == env && path == ["__env"])
      || exists i :: 0 <= i < |stack| && stack[i] == b && (names == [] || i < |names|) && SlotPlaces(names, i, path)
    case Proto(_, constants, protos) => (b in constants || b in protos) && path == []
    case Upvalue(target) => target == Some(b) && path == []
    case Other => false
  }

  ghost predicate PairsPlace(heap: Heap, pairs: seq<Pair>, weakKeys: bool, weakVals: bool, b: Address, path: Path) {
    exists i :: 0 <= i < |pairs| && PairPlaces(heap, pairs[i], weakKeys, weakVals, b, path)
  }

  /** The value of a string key leads to a node of that name. */
  ghost predicate PairPlaces(heap: Heap, pair: Pair, weakKeys: bool, weakVals: bool, b: Address, path: Path) {
    || (pair.key == Some(b) && path == [] && (!weakKeys || exists name :: IsString(heap, pair.key, name)))
    || (pair.val == Some(b) && !weakVals && path == [] && forall name :: !IsString(heap, pair.key, name))
    || (pair.val == Some(b) && !weakVals && |path| == 1 && IsString(heap, pair.key, path[0]))
  }

  /** The source that a function's prototype states, or nothing. */
  ghost predicate NamesSource(heap: Heap, proto: Option<Address>, name: string) {
    if proto.Some? && proto.value in heap && heap[proto.value].kind.Proto? && heap[proto.value].kind.source.Some?
    then heap[proto.value].kind.source == Some(name)
    else name == ""
  }

  /** A stack slot leads below the last frame up to it, if there is one, and there to a node of its own if it has a name. */
  ghost predicate SlotPlaces(names: seq<string>, i: nat, path: Path)
    requires names == [] || i < |names|
  {
    if forall j :: 0 <= j <= i && j < |names| ==> !("frame:" <= names[j]) then path == ["__stack"]
    else
      exists j: nat :: LastFrame(names, i, j) && path == ["__stack", names[j][6..]] + if j == i || names[i] == "" then [] else [names[i]]
  }

  ghost predicate Lists(links: seq<Link>, b: Address, path: Path) {
    exists i :: 0 <= i < |links| && links[i] == Link(Some(b), path)
  }

  lemma ListsAppend(x: seq<Link>, y: seq<Link>, b: Address, path: Path)
    ensures Lists(x + y, b, path) <==> Lists(x, b, path) || Lists(y, b, path)
  {
    if i :| 0 <= i < |x| && x[i] == Link(Some(b), path) {
      assert (x + y)[i] == x[i];
    }
    if i :| 0 <= i < |y| && y[i] == Link(Some(b), path) {
      assert (x + y)[|x| + i] == y[i];
    }
  }

  lemma ListsOne(link: Link, b: Address, path: Path)
    ensures Lists([link], b, path) <==> link == Link(Some(b), path)
  {
    assert [link][0] == link;
  }

  lemma EachLists(list: seq<Address>, below: Path, b: Address, path: Path)
    ensures Lists(Each(list, below), b, path) <==> b in list && path == below
  {
    if b in list && path == below {
      var i :| 0 <= i < |list| && list[i] == b;
      assert Each(list, below)[i] == Link(Some(b), path);
    }
  }

  lemma MaybeLists(a: Option<Address>, below: Path, b: Address, path: Path)
    ensures Lists(Maybe(a, below), b, path) <==> a == Some(b) && path == below
  {
    if a.Some? {
      ListsOne(Link(a, below), b, path);
    }
  }

  lemma PairLists(heap: Heap, pair: Pair, weakKeys: bool, weakVals: bool, b: Address, path: Path)
    ensures Lists(LinksOfPair(heap, pair, weakKeys, weakVals), b, path) <==> PairPlaces(heap, pair, weakKeys, weakVals, b, path)
  {
    var key := StringAt(heap, pair.key);
    assert forall name :: IsString(heap, pair.key, name) <==> key == Some(name);
    var below := if key.Some? then [key.value] else [];
    var first := if key.Some? then [Link(pair.key, [])] else if weakKeys then [] else Maybe(pair.key, []);
    var second := if weakVals then [] else Maybe(pair.val, below);
    assert LinksOfPair(heap, pair, weakKeys, weakVals) == first + second;
    hide IsString;
    ListsAppend(first, second, b, path);
    MaybeLists(pair.key, [], b, path);
    MaybeLists(pair.val, below, b, path);
    assert key.Some? ==> Maybe(pair.key, []) == first;
    if key.Some? && |path| == 1 && path[0] == key.value {
      assert path == below;
    }
  }

  lemma LastPairPlaces(heap: Heap, pairs: seq<Pair>, weakKeys: bool, weakVals: bool, b: Address, path: Path)
    requires pairs != []
    ensures PairsPlace(heap, pairs, weakKeys, weakVals, b, path) <==>
              PairsPlace(heap, pairs[..|pairs| - 1], weakKeys, weakVals, b, path) ||
              PairPlaces(heap, pairs[|pairs| - 1], weakKeys, weakVals, b, path)
  {
    hide PairPlaces;
    assert forall i :: 0 <= i < |pairs| - 1 ==> pairs[..|pairs| - 1][i] == pairs[i];
  }

  lemma {:induction false} PairsList(heap: Heap, pairs: seq<Pair>, weakKeys: bool, weakVals: bool, b: Address, path: Path)
    ensures Lists(PairLinks(heap, pairs, weakKeys, weakVals), b, path) <==> PairsPlace(heap, pairs, weakKeys, weakVals, b, path)
  {
    if pairs != [] {
      hide LinksOfPair, PairsPlace, PairPlaces, Lists;
      var n := |pairs| - 1;
      PairsList(heap, pairs[..n], weakKeys, weakVals, b, path);
      PairLists(heap, pairs[n], weakKeys, weakVals, b, path);
      LastPairPlaces(heap, pairs, weakKeys, weakVals, b, path);
      ListsAppend(PairLinks(heap, pairs[..n], weakKeys, weakVals), LinksOfPair(heap, pairs[n], weakKeys, weakVals), b, path);
    }
  }

  /** The last frame among the first `n` slots, if there is one. */
  lemma {:induction false} FrameAtIs(names: seq<string>, n: nat)
    requires n <= |names|
    ensures FrameAt(names, n) == ["__stack"] <==> forall j :: 0 <= j < n ==> !("frame:" <= names[j])
    ensures forall j :: 0 <= j < n && "frame:" <= names[j] && (forall k :: j < k < n ==> !("frame:" <= names[k])) ==>
              FrameAt(names, n) == ["__stack", names[j][6..]]
    ensures FrameAt(names, n) != ["__stack"] ==>
              exists j :: 0 <= j < n && "frame:" <= names[j] && (forall k :: j < k < n ==> !("frame:" <= names[k])) &&
                FrameAt(names, n) == ["__stack", names[j][6..]]
  {
    if n > 0 {
      FrameAtIs(names, n - 1);
    }
  }

  lemma {:induction false} NoFrames(n: nat)
    ensures FrameAt([], n) == ["__stack"]
  {
    if n > 0 {
      NoFrames(n - 1);
    }
  }

  lemma SlotLists(stack: seq<Address>, names: seq<string>, i: nat, path: Path)
    requires i < |stack| && (names == [] || |stack| <= |names|)
    ensures StackLink(stack, names, i).path == path <==> SlotPlaces(names, i, path)
  {
    if names == [] {
      NoFrames(i + 1);
    } else {
      FrameAtIs(names, i + 1);
      hide FrameAt;
      var frame := FrameAt(names, i + 1);
      if frame != ["__stack"] {
        var j: nat :| LastFrame(names, i, j) && frame == ["__stack", names[j][6..]];
        SlotBelow(names, i, j, path);
      }
    }
  }

  ghost predicate LastFrame(names: seq<string>, i: nat, j: nat)
    requires i < |names|
  {
    j <= i && "frame:" <= names[j] && forall k :: j < k <= i ==> !("frame:" <= names[k])
  }

  lemma SlotBelow(names: seq<string>, i: nat, j: nat, path: Path)
    requires i < |names| && LastFrame(names, i, j)
    ensures SlotPlaces(names, i, path) <==>
              path == ["__stack", names[j][6..]] + if j == i || names[i] == "" then [] else [names[i]]
  {
    assert forall l: nat :: LastFrame(names, i, l) ==> l == j;
  }

  lemma {:induction false} StackLists(stack: seq<Address>, names: seq<string>, n: nat, b: Address, path: Path)
    requires n <= |stack| && (names == [] || |stack| <= |names|)
    ensures Lists(StackLinks(stack, names, n), b, path) <==>
              exists i :: 0 <= i < n && stack[i] == b && SlotPlaces(names, i, path)
  {
    if n > 0 {
      hide SlotPlaces;
      StackLists(stack, names, n - 1, b, path);
      var link := StackLink(stack, names, n - 1);
      ListsAppend(StackLinks(stack, names, n - 1), [link], b, path);
      ListsOne(link, b, path);
      SlotLists(stack, names, n - 1, path);
    }
  }

  /** The list has each strong reference with its node, and nothing else. */
  lemma LinksArePlaced(heap: Heap, kind: Kind, b: Address, path: Path)
    requires Named(kind)
    ensures Lists(Links(heap, kind), b, path) <==> Places(heap, kind, b, path)
  {
    hide PairsPlace, Lists, Weak, SlotPlaces, Each, Maybe;
    match kind
    case Str(_) => NothingListed(b, path);
    case Table(pairs, items, metatable) =>
      var x := PairLinks(heap, pairs, Weak(heap, metatable, 'k'), Weak(heap, metatable, 'v'));
      ListsAppend(x + Each(items, []), Maybe(metatable, ["__meta"]), b, path);
      ListsAppend(x, Each(items, []), b, path);
      PairsList(heap, pairs, Weak(heap, metatable, 'k'), Weak(heap, metatable, 'v'), b, path);
      EachLists(items, [], b, path);
      MaybeLists(metatable, ["__meta"], b, path);
    case Function(env, proto, upvalues) =>
      var x := [Link(Some(env), ["__env"])];
      ListsAppend(x + Maybe(proto, ["__proto"]), Each(upvalues, [SourceOf(heap, proto)]), b, path);
      ListsAppend(x, Maybe(proto, ["__proto"]), b, path);
      MaybeLists(proto, ["__proto"], b, path);
      EachLists(upvalues, [SourceOf(heap, proto)], b, path);
      ListsOne(Link(Some(env), ["__env"]), b, path);
    case Userdata(metatable) =>
      MaybeLists(metatable, ["__meta"], b, path);
    case Thread(env, stack, names) =>
      var x := [Link(Some(env), ["__env"]), Link(None, ["__stack"])];
      ListsAppend(x, StackLinks(stack, names, |stack|), b, path);
      StackLists(stack, names, |stack|, b, path);
      ListsAppend([Link(Some(env), ["__env"])], [Link(None, ["__stack"])], b, path);
      assert x == [Link(Some(env), ["__env"])] + [Link(None, ["__stack"])];
      ListsOne(Link(Some(env), ["__env"]), b, path);
      ListsOne(Link(None, ["__stack"]), b, path);
    case Proto(_, constants, protos) =>
      ListsAppend(Each(constants, []), Each(protos, []), b, path);
      EachLists(constants, [], b, path);
      EachLists(protos, [], b, path);
    case Upvalue(target) =>
      MaybeLists(target, [], b, path);
    case Other => NothingListed(b, path);
  }

  lemma NothingListed(b: Address, path: Path)
    ensures !Lists([], b, path)
  {
  }

  // ---------------------------------------------------------------- following the references of one object

  datatype Entry = Entry(address: Address, path: Path)

  /** The queue and the tree. */
  datatype Front = Front(queue: seq<Entry>, root: Tree)

  ghost function Step(f: Front, path: Path, link: Link): Front {
    Front(f.queue + if link.target.Some? then [Entry(link.target.value, path + link.path)] else [],
          Grown(f.root, path + link.path))
  }

  ghost function After(f: Front, path: Path, links: seq<Link>): Front {
    if links == [] then f else Step(After(f, path, links[..|links| - 1]), path, links[|links| - 1])
  }

  lemma {:induction false} AfterAppend(f: Front, path: Path, x: seq<Link>, y: seq<Link>)
    ensures After(f, path, x + y) == After(After(f, path, x), path, y)
  {
    if y == [] {
      assert x + y == x;
    } else {
      var n := |y| - 1;
      AfterAppend(f, path, x, y[..n]);
      assert (x + y)[..|x + y| - 1] == x + y[..n];
    }
  }

  lemma AfterOne(f: Front, path: Path, link: Link)
    ensures After(f, path, [link]) == Step(f, path, link)
  {
    assert [link][..0] == [];
  }

  lemma {:induction false} GrownThere(t: Tree, path: Path)
    requires Has(t, path)
    ensures Grown(t, path) == t
    decreases path
  {
    if path != [] {
      GrownThere(t.kids[IndexOf(t.kids, path[0])], path[1..]);
    }
  }

  lemma {:induction false} AfterHas(f: Front, path: Path, links: seq<Link>, q: Path)
    ensures Has(f.root, q) ==> Has(After(f, path, links).root, q)
    ensures Held(After(f, path, links).root, q) == Held(f.root, q)
  {
    if links != [] {
      var n := |links| - 1;
      AfterHas(f, path, links[..n], q);
      GrownKeepsNodes(After(f, path, links[..n]).root, path + links[n].path, q);
    }
  }

  lemma {:induction false} AfterTotals(f: Front, path: Path, links: seq<Link>)
    requires Sound(f.root) && Unnoted(f.root)
    ensures Sound(After(f, path, links).root) && Unnoted(After(f, path, links).root)
    ensures multiset(Items(After(f, path, links).root)) == multiset(Items(f.root))
  {
    if links != [] {
      var n := |links| - 1;
      AfterTotals(f, path, links[..n]);
      GrownIsSound(After(f, path, links[..n]).root, path + links[n].path);
      GrownIsUnnoted(After(f, path, links[..n]).root, path + links[n].path);
      GrownKeepsItems(After(f, path, links[..n]).root, path + links[n].path);
    }
  }

  /** The new entries are the references, in the nodes made for them. */
  lemma {:induction false} AfterEntries(f: Front, path: Path, links: seq<Link>)
    ensures f.queue <= After(f, path, links).queue
    ensures forall i :: |f.queue| <= i < |After(f, path, links).queue| ==>
              && NewEntry(After(f, path, links).queue[i], path, links)
              && Has(After(f, path, links).root, After(f, path, links).queue[i].path)
    ensures forall b :: Targets(links, b) ==> Waiting(After(f, path, links).queue, |f.queue|, b)
  {
    if links != [] {
      var n := |links| - 1;
      var g, link := After(f, path, links[..n]), links[n];
      var q := Step(g, path, link);
      AfterEntries(f, path, links[..n]);
      assert f.queue <= g.queue <= q.queue;
      forall i | |f.queue| <= i < |q.queue|
        ensures NewEntry(q.queue[i], path, links) && Has(q.root, q.queue[i].path)
      {
        if i < |g.queue| {
          EntryStays(g.queue[i], path, links);
          GrownKeepsNodes(g.root, path + link.path, g.queue[i].path);
        } else {
          assert links[n].target == Some(q.queue[i].address);
          GrownHas(g.root, path + link.path);
        }
      }
      forall b | Targets(links, b)
        ensures Waiting(q.queue, |f.queue|, b)
      {
        if link.target == Some(b) {
          assert q.queue[|g.queue|].address == b;
        } else {
          TargetStays(links, b);
          WaitingStays(g.queue, q.queue, |f.queue|, b);
        }
      }
    }
  }

  ghost predicate NewEntry(e: Entry, path: Path, links: seq<Link>) {
    exists k :: 0 <= k < |links| && links[k].target == Some(e.address) && e.path == path + links[k].path
  }

  ghost predicate Waiting(queue: seq<Entry>, offset: nat, b: Address) {
    exists i :: offset <= i < |queue| && queue[i].address == b
  }

  lemma EntryStays(e: Entry, path: Path, links: seq<Link>)
    requires links != [] && NewEntry(e, path, links[..|links| - 1])
    ensures NewEntry(e, path, links)
  {
    var n := |links| - 1;
    var k :| 0 <= k < n && links[..n][k].target == Some(e.address) && e.path == path + links[..n][k].path;
    assert links[k] == links[..n][k];
  }

  lemma TargetStays(links: seq<Link>, b: Address)
    requires links != [] && links[|links| - 1].target != Some(b) && Targets(links, b)
    ensures Targets(links[..|links| - 1], b)
  {
    var k :| 0 <= k < |links| && links[k].target == Some(b);
    assert links[..|links| - 1][k].target == Some(b);
  }

  lemma WaitingStays(queue: seq<Entry>, longer: seq<Entry>, offset: nat, b: Address)
    requires queue <= longer && Waiting(queue, offset, b)
    ensures Waiting(longer, offset, b)
  {
    var i :| offset <= i < |queue| && queue[i].address == b;
    assert longer[i] == queue[i];
  }

  // ---------------------------------------------------------------- what is reachable

  ghost predicate Closed(heap: Heap, roots: seq<Root>, s: set<Address>) {
    && (forall i :: 0 <= i < |roots| ==> roots[i].address in s)
    && forall a, b :: a in s && a in heap && Refers(heap, heap[a].kind, b) ==> b in s
  }

  /** There is a chain of `n` references from a root to the object, and the nodes made along it lead to `path`. */
  ghost predicate Route(heap: Heap, roots: seq<Root>, n: nat, a: Address, path: Path) {
    if n == 0 then exists i :: 0 <= i < |roots| && roots[i].address == a && path == [roots[i].name]
    else exists b, q :: Route(heap, roots, n - 1, b, q) && b in heap && NewEntry(Entry(a, path), q, Links(heap, heap[b].kind))
  }

  ghost predicate Routed(heap: Heap, roots: seq<Root>, a: Address, path: Path) {
    exists n: nat :: Route(heap, roots, n, a, path)
  }

  ghost predicate Reachable(heap: Heap, roots: seq<Root>, a: Address) {
    exists path :: Routed(heap, roots, a, path)
  }

  /** The snapshot lists whatever is looked up on the way. */
  ghost predicate Complete(heap: Heap, roots: seq<Root>) {
    && (forall i :: 0 <= i < |roots| ==> roots[i].address in heap)
    && (forall a :: a in heap && Reachable(heap, roots, a) ==> Named(heap[a].kind))
    && forall a, b :: a in heap && Reachable(heap, roots, a) && LooksUp(heap, heap[a].kind, b) ==> b in heap
  }

  /** What is looked up for an object: the keys of its pairs, what it refers to, and the mode that its metatable states. */
  ghost predicate LooksUp(heap: Heap, kind: Kind, b: Address) {
    match kind
    case Str(_) => false
    case Table(pairs, items, metatable) =>
      || (exists i :: 0 <= i < |pairs| && (pairs[i].key == Some(b) || (pairs[i].val == Some(b) && !Weak(heap, metatable, 'v'))))
      || b in items || metatable == Some(b)
      || (metatable.Some? && metatable.value in heap && heap[metatable.value].kind.Table? &&
          KeyEntry(heap, heap[metatable.value].kind.pairs, "__mode") == Some(b))
    case Function(env, proto, upvalues) => b == env || proto == Some(b) || b in upvalues
    case Userdata(metatable) => metatable == Some(b)
    case Thread(env, stack, _) => b == env || b in stack
    case Proto(_, constants, protos) => b in constants || b in protos
    case Upvalue(target) => target == Some(b)
    case Other => false
  }

  lemma ReferencesAreLookedUp(heap: Heap, kind: Kind, b: Address)
    requires Refers(heap, kind, b)
    ensures LooksUp(heap, kind, b)
  {
    hide Weak, KeyEntry;
  }

  lemma StepStaysIn(heap: Heap, roots: seq<Root>, b: Address, e: Entry, q: Path, s: set<Address>)
    requires Complete(heap, roots) && Closed(heap, roots, s) && b in s && b in heap && Routed(heap, roots, b, q)
    requires NewEntry(e, q, Links(heap, heap[b].kind))
    ensures e.address in s
  {
    hide Links, Refers, LooksUp, NewEntry, Named, Routed;
    assert Reachable(heap, roots, b);
    EntryTargets(e, q, Links(heap, heap[b].kind));
    LinksAreReferences(heap, heap[b].kind, e.address);
  }

  lemma {:induction false} RouteStaysIn(heap: Heap, roots: seq<Root>, n: nat, a: Address, path: Path, s: set<Address>)
    requires Complete(heap, roots) && Closed(heap, roots, s) && Route(heap, roots, n, a, path)
    ensures a in s
  {
    hide Links, NewEntry, Complete;
    if n > 0 {
      hide Closed;
      var b, q :| Route(heap, roots, n - 1, b, q) && b in heap && NewEntry(Entry(a, path), q, Links(heap, heap[b].kind));
      RouteStaysIn(heap, roots, n - 1, b, q, s);
      StepStaysIn(heap, roots, b, Entry(a, path), q, s);
    }
  }

  lemma EntryTargets(e: Entry, path: Path, links: seq<Link>)
    requires NewEntry(e, path, links)
    ensures Targets(links, e.address)
  {
  }

  lemma RouteOn(heap: Heap, roots: seq<Root>, b: Address, q: Path, e: Entry)
    requires Routed(heap, roots, b, q) && b in heap && NewEntry(e, q, Links(heap, heap[b].kind))
    ensures Routed(heap, roots, e.address, e.path)
  {
    hide NewEntry, Links;
    var n: nat :| Route(heap, roots, n, b, q);
    assert Entry(e.address, e.path) == e;
    assert Route(heap, roots, n + 1, e.address, e.path);
  }

  // ---------------------------------------------------------------- what the search keeps

  function ItemOf(heap: Heap, a: Address): Item
    requires a in heap
  {
    Item(a, heap[a].size, heap[a].cat)
  }

  /** The objects among these that an older snapshot does not know. */
  ghost function NewItems(heap: Heap, known: set<Address>, visited: set<Address>): set<Item> {
    set a | a in visited && a in heap && a !in known :: ItemOf(heap, a)
  }

  ghost predicate Queued(heap: Heap, roots: seq<Root>, queue: seq<Entry>, root: Tree) {
    forall i :: 0 <= i < |queue| ==>
      queue[i].address in heap && Has(root, queue[i].path) && Routed(heap, roots, queue[i].address, queue[i].path)
  }

  ghost predicate Reached(heap: Heap, roots: seq<Root>, visited: set<Address>) {
    forall a :: a in visited ==> a in heap && Reachable(heap, roots, a)
  }

  /** Whatever a visited object refers to is visited or still to come. */
  ghost predicate Frontier(heap: Heap, roots: seq<Root>, visited: set<Address>, queue: seq<Entry>, offset: nat) {
    && (forall i :: 0 <= i < |roots| ==> Covered(visited, queue, offset, roots[i].address))
    && forall a, b :: a in visited && a in heap && Refers(heap, heap[a].kind, b) ==> Covered(visited, queue, offset, b)
  }

  ghost predicate Covered(visited: set<Address>, queue: seq<Entry>, offset: nat, b: Address) {
    b in visited || Waiting(queue, offset, b)
  }

  /** Each new object once, */
  ghost predicate Tallied(heap: Heap, known: set<Address>, visited: set<Address>, root: Tree) {
    Sound(root) && Unnoted(root) && multiset(Items(root)) == multiset(NewItems(heap, known, visited))
  }

  /** in a node that a shortest chain of references leads to. */
  ghost predicate Sorted(heap: Heap, roots: seq<Root>, root: Tree) {
    forall path :: Fitting(heap, roots, path, Held(root, path))
  }

  ghost predicate Fitting(heap: Heap, roots: seq<Root>, path: Path, held: seq<Item>) {
    forall i :: 0 <= i < |held| ==> Nearest(heap, roots, held[i].address, path)
  }

  // ---------------------------------------------------------------- nearest first

  ghost predicate Shortest(heap: Heap, roots: seq<Root>, n: nat, a: Address, path: Path) {
    Route(heap, roots, n, a, path) && forall m: nat, q :: Route(heap, roots, m, a, q) ==> n <= m
  }

  ghost predicate Nearest(heap: Heap, roots: seq<Root>, a: Address, path: Path) {
    exists n: nat :: Shortest(heap, roots, n, a, path)
  }

  /** Every entry of the queue is a chain of the length given, no longer than those after it, nor than one more than the next. */
  ghost predicate Levelled(heap: Heap, roots: seq<Root>, depth: map<Address, nat>, queue: seq<Entry>, levels: seq<nat>, offset: nat) {
    && |levels| == |queue| && (forall i, j :: 0 <= i <= j < |levels| ==> levels[i] <= levels[j])
    && (offset < |levels| ==> levels[|levels| - 1] <= levels[offset] + 1)
    && (forall a :: a in depth && offset < |levels| ==> depth[a] <= levels[offset])
    && forall i :: 0 <= i < |queue| ==> Route(heap, roots, levels[i], queue[i].address, queue[i].path)
  }

  /** An object has been visited by a chain of that length at most, or is still to come with one. */
  ghost predicate Near(depth: map<Address, nat>, queue: seq<Entry>, levels: seq<nat>, offset: nat, b: Address, n: nat)
    requires |levels| == |queue|
  {
    || (b in depth && depth[b] <= n)
    || exists i :: offset <= i < |queue| && queue[i].address == b && levels[i] <= n
  }

  ghost predicate Fringe(heap: Heap, roots: seq<Root>, depth: map<Address, nat>, queue: seq<Entry>, levels: seq<nat>, offset: nat)
    requires |levels| == |queue|
  {
    && (forall i :: 0 <= i < |roots| ==> Near(depth, queue, levels, offset, roots[i].address, 0))
    && forall a, b :: a in depth && a in heap && Refers(heap, heap[a].kind, b) ==>
         Near(depth, queue, levels, offset, b, depth[a] + 1)
  }

  /** No chain leads to what has not been visited in fewer steps than the next entry has. */
  lemma {:induction false} FarEnough(heap: Heap, roots: seq<Root>, depth: map<Address, nat>, queue: seq<Entry>, levels: seq<nat>,
                                     offset: nat, m: nat, a: Address, path: Path)
    requires Complete(heap, roots) && Levelled(heap, roots, depth, queue, levels, offset)
    requires Fringe(heap, roots, depth, queue, levels, offset) && Route(heap, roots, m, a, path)
    ensures (a in depth && depth[a] <= m) || (offset < |queue| && levels[offset] <= m)
    decreases m
  {
    hide Complete, Links, NewEntry, Refers;
    if m == 0 {
      assert Near(depth, queue, levels, offset, a, 0);
    } else {
      var b, q :| Route(heap, roots, m - 1, b, q) && b in heap && NewEntry(Entry(a, path), q, Links(heap, heap[b].kind));
      FarEnough(heap, roots, depth, queue, levels, offset, m - 1, b, q);
      assert Routed(heap, roots, b, q) && Reachable(heap, roots, b);
      AllNamed(heap, roots, b);
      EntryTargets(Entry(a, path), q, Links(heap, heap[b].kind));
      LinksAreReferences(heap, heap[b].kind, a);
      assert b in depth ==> Near(depth, queue, levels, offset, a, depth[b] + 1);
    }
  }

  lemma NextIsNearest(heap: Heap, roots: seq<Root>, depth: map<Address, nat>, queue: seq<Entry>, levels: seq<nat>, offset: nat)
    requires Complete(heap, roots) && Levelled(heap, roots, depth, queue, levels, offset)
    requires Fringe(heap, roots, depth, queue, levels, offset) && offset < |queue| && queue[offset].address !in depth
    ensures Nearest(heap, roots, queue[offset].address, queue[offset].path)
  {
    hide Complete, Fringe, Route;
    var a := queue[offset].address;
    forall m: nat, q | Route(heap, roots, m, a, q)
      ensures levels[offset] <= m
    {
      FarEnough(heap, roots, depth, queue, levels, offset, m, a, q);
    }
    assert Shortest(heap, roots, levels[offset], a, queue[offset].path);
  }

  lemma NearStays(depth: map<Address, nat>, queue: seq<Entry>, levels: seq<nat>, offset: nat,
                  depth': map<Address, nat>, queue': seq<Entry>, levels': seq<nat>, b: Address, n: nat)
    requires |levels| == |queue| && |levels'| == |queue'| && queue <= queue' && levels <= levels' && offset < |queue|
    requires forall x :: x in depth ==> x in depth' && depth'[x] == depth[x]
    requires queue[offset].address in depth' && depth'[queue[offset].address] <= levels[offset]
    requires Near(depth, queue, levels, offset, b, n)
    ensures Near(depth', queue', levels', offset + 1, b, n)
  {
    if !(b in depth && depth[b] <= n) {
      var i :| offset <= i < |queue| && queue[i].address == b && levels[i] <= n;
      assert queue'[i] == queue[i] && levels'[i] == levels[i];
    }
  }

  lemma FringeSkips(heap: Heap, roots: seq<Root>, depth: map<Address, nat>, queue: seq<Entry>, levels: seq<nat>, offset: nat)
    requires Levelled(heap, roots, depth, queue, levels, offset) && Fringe(heap, roots, depth, queue, levels, offset)
    requires offset < |queue| && queue[offset].address in depth
    ensures Levelled(heap, roots, depth, queue, levels, offset + 1) && Fringe(heap, roots, depth, queue, levels, offset + 1)
  {
    hide Refers, Route, Near;
    forall b, n: nat | Near(depth, queue, levels, offset, b, n)
      ensures Near(depth, queue, levels, offset + 1, b, n)
    {
      NearStays(depth, queue, levels, offset, depth, queue, levels, b, n);
    }
  }

  /** The levels once the references of the next object have been queued. */
  ghost function Deeper(levels: seq<nat>, offset: nat, n: nat): (deeper: seq<nat>)
    requires offset < |levels| <= n
    ensures |deeper| == n && levels <= deeper && forall i :: |levels| <= i < n ==> deeper[i] == levels[offset] + 1
  {
    if n == |levels| then levels else Deeper(levels, offset, n - 1) + [levels[offset] + 1]
  }

  lemma LevelsGrow(heap: Heap, roots: seq<Root>, depth: map<Address, nat>, f: Front, levels: seq<nat>, offset: nat)
    requires Levelled(heap, roots, depth, f.queue, levels, offset) && offset < |f.queue| && f.queue[offset].address in heap
    requires f.queue[offset].address !in depth
    ensures |levels| == |f.queue|
    ensures var e := f.queue[offset];
            var queue := After(f, e.path, Links(heap, heap[e.address].kind)).queue;
            && f.queue <= queue
            && Levelled(heap, roots, depth[e.address := levels[offset]], queue, Deeper(levels, offset, |queue|), offset + 1)
  {
    hide Links, After, Route, NewEntry, Targets, Waiting;
    var e := f.queue[offset];
    var links := Links(heap, heap[e.address].kind);
    var queue := After(f, e.path, links).queue;
    AfterEntries(f, e.path, links);
    var deeper := Deeper(levels, offset, |queue|);
    forall i | 0 <= i < |queue|
      ensures Route(heap, roots, deeper[i], queue[i].address, queue[i].path)
    {
      if i < |f.queue| {
        assert queue[i] == f.queue[i] && deeper[i] == levels[i];
      } else {
        RouteStep(heap, roots, levels[offset], e.address, e.path, queue[i]);
      }
    }
    forall i, j | 0 <= i <= j < |deeper|
      ensures deeper[i] <= deeper[j]
    {
      LevelsInOrder(levels, deeper, offset, i, j);
    }
    if offset + 1 < |deeper| {
      LevelsInOrder(levels, deeper, offset, offset, offset + 1);
      LastLevel(levels, deeper, offset);
    }
  }

  lemma LevelsInOrder(levels: seq<nat>, deeper: seq<nat>, offset: nat, i: nat, j: nat)
    requires (forall k, l :: 0 <= k <= l < |levels| ==> levels[k] <= levels[l]) && offset < |levels|
    requires levels[|levels| - 1] <= levels[offset] + 1 && levels <= deeper
    requires (forall k :: |levels| <= k < |deeper| ==> deeper[k] == levels[offset] + 1) && i <= j < |deeper|
    ensures deeper[i] <= deeper[j] && (offset <= j ==> levels[offset] <= deeper[j])
  {
    assert forall k :: 0 <= k < |levels| ==> deeper[k] == levels[k];
  }

  lemma LastLevel(levels: seq<nat>, deeper: seq<nat>, offset: nat)
    requires offset < |levels| && levels[|levels| - 1] <= levels[offset] + 1 && levels <= deeper
    requires forall k :: |levels| <= k < |deeper| ==> deeper[k] == levels[offset] + 1
    ensures deeper[|deeper| - 1] <= levels[offset] + 1
  {
    assert forall k :: 0 <= k < |levels| ==> deeper[k] == levels[k];
  }

  lemma RouteStep(heap: Heap, roots: seq<Root>, n: nat, b: Address, q: Path, e: Entry)
    requires Route(heap, roots, n, b, q) && b in heap && NewEntry(e, q, Links(heap, heap[b].kind))
    ensures Route(heap, roots, n + 1, e.address, e.path)
  {
    hide NewEntry, Links;
    assert Entry(e.address, e.path) == e;
  }

  lemma FringeMoves(heap: Heap, roots: seq<Root>, depth: map<Address, nat>, f: Front, levels: seq<nat>, offset: nat)
    requires Complete(heap, roots) && Levelled(heap, roots, depth, f.queue, levels, offset)
    requires Fringe(heap, roots, depth, f.queue, levels, offset)
    requires offset < |f.queue| && f.queue[offset].address in heap && f.queue[offset].address !in depth
    requires Routed(heap, roots, f.queue[offset].address, f.queue[offset].path)
    ensures var e := f.queue[offset];
            var queue := After(f, e.path, Links(heap, heap[e.address].kind)).queue;
            && f.queue <= queue
            && Fringe(heap, roots, depth[e.address := levels[offset]], queue, Deeper(levels, offset, |queue|), offset + 1)
  {
    hide Links, After, NewEntry, Targets, Complete, Refers, Near, Routed, Deeper, Route;
    var e := f.queue[offset];
    var links := Links(heap, heap[e.address].kind);
    var queue := After(f, e.path, links).queue;
    AfterEntries(f, e.path, links);
    var deeper, depth' := Deeper(levels, offset, |queue|), depth[e.address := levels[offset]];
    assert Reachable(heap, roots, e.address);
    AllNamed(heap, roots, e.address);
    forall b, n: nat | Near(depth, f.queue, levels, offset, b, n)
      ensures Near(depth', queue, deeper, offset + 1, b, n)
    {
      NearStays(depth, f.queue, levels, offset, depth', queue, deeper, b, n);
    }
    forall b | Refers(heap, heap[e.address].kind, b)
      ensures Near(depth', queue, deeper, offset + 1, b, levels[offset] + 1)
    {
      LinksAreReferences(heap, heap[e.address].kind, b);
      NewIsNear(depth', queue, deeper, offset + 1, |f.queue|, b, levels[offset] + 1);
    }
  }

  lemma NewIsNear(depth: map<Address, nat>, queue: seq<Entry>, levels: seq<nat>, offset: nat, from: nat, b: Address, n: nat)
    requires |levels| == |queue| && offset <= from && Waiting(queue, from, b)
    requires forall i :: from <= i < |levels| ==> levels[i] == n
    ensures Near(depth, queue, levels, offset, b, n)
  {
    var i :| from <= i < |queue| && queue[i].address == b;
    assert levels[i] <= n;
  }

  lemma StartsLevelled(heap: Heap, roots: seq<Root>, queue: seq<Entry>, levels: seq<nat>)
    requires |levels| == |queue| == |roots| && forall i :: 0 <= i < |levels| ==> levels[i] == 0
    requires forall i :: 0 <= i < |roots| ==> queue[i] == Entry(roots[i].address, [roots[i].name])
    ensures Levelled(heap, roots, map[], queue, levels, 0) && Fringe(heap, roots, map[], queue, levels, 0)
  {
    hide Refers;
    forall i | 0 <= i < |roots|
      ensures Near(map[], queue, levels, 0, roots[i].address, 0)
    {
      assert queue[i].address == roots[i].address && levels[i] <= 0;
    }
  }

  lemma Skipped(heap: Heap, roots: seq<Root>, visited: set<Address>, queue: seq<Entry>, offset: nat)
    requires Frontier(heap, roots, visited, queue, offset) && offset < |queue| && queue[offset].address in visited
    ensures Frontier(heap, roots, visited, queue, offset + 1)
  {
    hide Refers;
    forall i | 0 <= i < |roots|
      ensures Covered(visited, queue, offset + 1, roots[i].address)
    {
      StillCovered(visited, queue, offset, queue, roots[i].address);
    }
    forall a, b | a in visited && a in heap && Refers(heap, heap[a].kind, b)
      ensures Covered(visited, queue, offset + 1, b)
    {
      StillCovered(visited, queue, offset, queue, b);
    }
    assert visited + {queue[offset].address} == visited;
  }

  lemma StillCovered(visited: set<Address>, queue: seq<Entry>, offset: nat, longer: seq<Entry>, b: Address)
    requires offset < |queue| && queue <= longer && Covered(visited, queue, offset, b)
    ensures Covered(visited + {queue[offset].address}, longer, offset + 1, b)
  {
    if b !in visited {
      var i :| offset <= i < |queue| && queue[i].address == b;
      assert longer[i] == queue[i];
    }
  }

  lemma FrontierMoves(heap: Heap, roots: seq<Root>, visited: set<Address>, f: Front, offset: nat)
    requires Complete(heap, roots) && offset < |f.queue| && f.queue[offset].address in heap
    requires Routed(heap, roots, f.queue[offset].address, f.queue[offset].path)
    requires Frontier(heap, roots, visited, f.queue, offset)
    ensures var e := f.queue[offset];
            Frontier(heap, roots, visited + {e.address}, After(f, e.path, Links(heap, heap[e.address].kind)).queue, offset + 1)
  {
    hide Refers, Links, After, LooksUp, Waiting, Routed;
    var e := f.queue[offset];
    assert Reachable(heap, roots, e.address);
    var links := Links(heap, heap[e.address].kind);
    var q := After(f, e.path, links).queue;
    var visited' := visited + {e.address};
    AfterEntries(f, e.path, links);
    forall i | 0 <= i < |roots|
      ensures Covered(visited', q, offset + 1, roots[i].address)
    {
      StillCovered(visited, f.queue, offset, q, roots[i].address);
    }
    forall a, b | a in visited' && a in heap && Refers(heap, heap[a].kind, b)
      ensures Covered(visited', q, offset + 1, b)
    {
      if a in visited {
        StillCovered(visited, f.queue, offset, q, b);
      } else {
        LinksAreReferences(heap, heap[a].kind, b);
        Later(q, |f.queue|, offset + 1, b);
      }
    }
  }

  lemma Later(queue: seq<Entry>, offset: nat, earlier: nat, b: Address)
    requires Waiting(queue, offset, b) && earlier <= offset
    ensures Waiting(queue, earlier, b)
  {
  }

  lemma QueueStays(heap: Heap, roots: seq<Root>, f: Front, e: Entry)
    requires Complete(heap, roots) && Queued(heap, roots, f.queue, f.root)
    requires e.address in heap && Routed(heap, roots, e.address, e.path)
    ensures var g := After(f, e.path, Links(heap, heap[e.address].kind)); Queued(heap, roots, g.queue, g.root)
  {
    hide Links, After, Refers, LooksUp, Routed, NewEntry;
    var links := Links(heap, heap[e.address].kind);
    var g := After(f, e.path, links);
    AfterEntries(f, e.path, links);
    forall i | 0 <= i < |g.queue|
      ensures g.queue[i].address in heap && Has(g.root, g.queue[i].path)
      ensures Routed(heap, roots, g.queue[i].address, g.queue[i].path)
    {
      if i < |f.queue| {
        assert g.queue[i] == f.queue[i];
        AfterHas(f, e.path, links, f.queue[i].path);
      } else {
        RouteOn(heap, roots, e.address, e.path, g.queue[i]);
        EntryTargets(g.queue[i], e.path, links);
        assert Reachable(heap, roots, e.address);
        LinksAreReferences(heap, heap[e.address].kind, g.queue[i].address);
        ReferencesAreLookedUp(heap, heap[e.address].kind, g.queue[i].address);
      }
    }
  }

  lemma QueueAfterAdding(heap: Heap, roots: seq<Root>, queue: seq<Entry>, root: Tree, path: Path, item: Item)
    requires Queued(heap, roots, queue, root) && Has(root, path)
    ensures Queued(heap, roots, queue, Added(root, path, item))
  {
    hide Routed, Added;
    forall i | 0 <= i < |queue|
      ensures Has(Added(root, path, item), queue[i].path)
    {
      AddedHolds(root, path, item, queue[i].path);
    }
  }

  lemma NewVisit(heap: Heap, known: set<Address>, visited: set<Address>, a: Address)
    requires a in heap && a !in visited
    ensures multiset(NewItems(heap, known, visited + {a})) ==
              multiset(NewItems(heap, known, visited)) + if a in known then multiset{} else multiset{ItemOf(heap, a)}
  {
    var x, y := NewItems(heap, known, visited), NewItems(heap, known, visited + {a});
    if a in known {
      assert y == x;
    } else {
      assert y == x + {ItemOf(heap, a)};
      assert ItemOf(heap, a) !in x;
    }
  }

  lemma SortedAfterAdding(heap: Heap, roots: seq<Root>, root: Tree, path: Path, item: Item)
    requires Sorted(heap, roots, root) && Has(root, path) && Nearest(heap, roots, item.address, path)
    ensures Sorted(heap, roots, Added(root, path, item))
  {
    hide Nearest, Added, Held;
    forall q
      ensures Fitting(heap, roots, q, Held(Added(root, path, item), q))
    {
      AddedHolds(root, path, item, q);
      assert Fitting(heap, roots, q, Held(root, q));
    }
  }

  lemma SortedAfterFollowing(heap: Heap, roots: seq<Root>, f: Front, path: Path, links: seq<Link>)
    requires Sorted(heap, roots, f.root)
    ensures Sorted(heap, roots, After(f, path, links).root)
  {
    hide Nearest, After, Held, Fitting;
    forall q
      ensures Fitting(heap, roots, q, Held(After(f, path, links).root, q))
    {
      AfterHas(f, path, links, q);
      assert Fitting(heap, roots, q, Held(f.root, q));
    }
  }

  // ---------------------------------------------------------------- the search

  class Search {
    const heap: Heap
    const known: set<Address>
    const roots: seq<Root>
    var visited: set<Address>
    var queue: seq<Entry>
    var offset: nat
    var root: Tree
    /** How long the chains are by which objects were visited, and those in the queue. */
    ghost var depth: map<Address, nat>
    ghost var levels: seq<nat>

    constructor (heap: Heap, known: set<Address>, roots: seq<Root>)
      ensures this.heap == heap && this.known == known && this.roots == roots
      ensures visited == {} && queue == [] && offset == 0 && root == Empty("") && depth == map[] && levels == []
    {
      depth, levels := map[], [];
      this.heap, this.known, this.roots := heap, known, roots;
      visited, queue, offset, root := {}, [], 0, Empty("");
    }

    ghost function Now(): Front
      reads this`queue, this`root
    {
      Front(queue, root)
    }

    method Append(target: Address, path: Path)
      requires Has(root, path)
      modifies this`queue
      ensures Now() == After(old(Now()), path, [Link(Some(target), [])])
    {
      assert path + [] == path;
      GrownThere(root, path);
      AfterOne(Now(), path, Link(Some(target), []));
      queue := queue + [Entry(target, path)];
    }

    /** The node of a child, which may be new. */
    method Child(path: Path, name: string) returns (child: Path)
      requires Has(root, path)
      modifies this`root
      ensures child == path + [name] && Has(root, child) && Has(root, path)
      ensures Now() == After(old(Now()), path, [Link(None, [name])])
    {
      child := path + [name];
      AfterOne(Now(), path, Link(None, [name]));
      GrownHas(root, child);
      GrownKeepsNodes(root, child, path);
      root := Grown(root, child);
    }

    method AppendToChild(target: Address, path: Path, name: string)
      requires Has(root, path)
      modifies this`queue, this`root
      ensures Has(root, path) && Now() == After(old(Now()), path, [Link(Some(target), [name])])
    {
      AfterOne(Now(), path, Link(None, [name]));
      AfterOne(Now(), path, Link(Some(target), [name]));
      var child := Child(path, name);
      queue := queue + [Entry(target, child)];
    }

    method AppendMaybe(target: Option<Address>, path: Path, name: string)
      requires Has(root, path)
      modifies this`queue, this`root
      ensures Has(root, path) && Now() == After(old(Now()), path, Maybe(target, [name]))
    {
      if target.Some? {
        AppendToChild(target.value, path, name);
      }
    }

    method FollowPair(path: Path, pair: Pair, weakKeys: bool, weakVals: bool)
      requires Has(root, path)
      modifies this`queue, this`root
      ensures Has(root, path) && Now() == After(old(Now()), path, LinksOfPair(heap, pair, weakKeys, weakVals))
    {
      hide After;
      ghost var f := Now();
      var key := StringAt(heap, pair.key);
      if key.Some? {
        ghost var second := if weakVals then [] else Maybe(pair.val, [key.value]);
        Append(pair.key.value, path);
        AfterNone(Now(), path);
        AfterAppend(f, path, [Link(pair.key, [])], second);
        if pair.val.Some? && !weakVals {
          AppendToChild(pair.val.value, path, key.value);
        }
      } else {
        ghost var first := if weakKeys then [] else Maybe(pair.key, []);
        ghost var second := if weakVals then [] else Maybe(pair.val, []);
        AfterNone(f, path);
        if pair.key.Some? && !weakKeys {
          Append(pair.key.value, path);
        }
        assert Now() == After(f, path, first);
        AfterNone(Now(), path);
        AfterAppend(f, path, first, second);
        if pair.val.Some? && !weakVals {
          Append(pair.val.value, path);
        }
      }
    }

    method FollowPairs(path: Path, pairs: seq<Pair>, weakKeys: bool, weakVals: bool)
      requires Has(root, path)
      modifies this`queue, this`root
      ensures Has(root, path) && Now() == After(old(Now()), path, PairLinks(heap, pairs, weakKeys, weakVals))
    {
      hide After, LinksOfPair;
      ghost var f := Now();
      AfterNone(f, path);
      var i := 0;
      while i < |pairs|
        invariant 0 <= i <= |pairs|
        invariant Has(root, path) && Now() == After(f, path, PairLinks(heap, pairs[..i], weakKeys, weakVals))
      {
        FollowPair(path, pairs[i], weakKeys, weakVals);
        assert pairs[..i + 1][..i] == pairs[..i];
        AfterAppend(f, path, PairLinks(heap, pairs[..i], weakKeys, weakVals), LinksOfPair(heap, pairs[i], weakKeys, weakVals));
        i := i + 1;
      }
      assert pairs[..i] == pairs;
    }

    /** All of a list, in the node itself or in one child. */
    method FollowEach(path: Path, list: seq<Address>, below: Path)
      requires Has(root, path) && |below| <= 1
      modifies this`queue, this`root
      ensures Has(root, path) && Now() == After(old(Now()), path, Each(list, below))
    {
      hide After;
      ghost var f := Now();
      AfterNone(f, path);
      var i := 0;
      while i < |list|
        invariant 0 <= i <= |list|
        invariant Has(root, path) && Now() == After(f, path, Each(list[..i], below))
      {
        if below == [] {
          Append(list[i], path);
        } else {
          assert below == [below[0]];
          AppendToChild(list[i], path, below[0]);
        }
        assert list[..i + 1][..i] == list[..i];
        AfterAppend(f, path, Each(list[..i], below), [Link(Some(list[i]), below)]);
        i := i + 1;
      }
      assert list[..i] == list;
    }
  
    /** The stack slots, each below the last frame in front of it. */
    method FollowStack(path: Path, stack: seq<Address>, names: seq<string>)
      requires Has(root, path) && Has(root, path + ["__stack"]) && (names == [] || |stack| <= |names|)
      modifies this`queue, this`root
      ensures Has(root, path) && Now() == After(old(Now()), path, StackLinks(stack, names, |stack|))
    {
      hide After, StackLink, FrameAt;
      ghost var f := Now();
      AfterNone(f, path);
      var stacknode := path + ["__stack"];
      var framenode: Option<Path> := None;
      FirstFrame(names);
      var i: nat := 0;
      while i < |stack|
        invariant i <= |stack|
        invariant Has(root, path) && Has(root, stacknode)
        invariant framenode == FrameNode(path, names, i)
        invariant framenode.Some? ==> Has(root, framenode.value)
        invariant Now() == After(f, path, StackLinks(stack, names, i))
      {
        var name := NameAt(names, i);
        ghost var link := StackLink(stack, names, i);
        AfterAppend(f, path, StackLinks(stack, names, i), [link]);
        AfterOne(Now(), path, link);
        NextFrame(path, stack, names, i);
        if IsFrame(name) {
          framenode := Some(stacknode + [name[6..]]);
          Keep(path, stacknode, framenode.value);
          root := Grown(root, framenode.value);
          GrownThere(root, framenode.value);
          queue := queue + [Entry(stack[i], framenode.value)];
        } else if framenode.Some? && name != "" {
          var child := framenode.value + [name];
          Keep(path, stacknode, child);
          GrownKeepsNodes(root, child, framenode.value);
          root := Grown(root, child);
          queue := queue + [Entry(stack[i], child)];
        } else {
          var node := if framenode.Some? then framenode.value else stacknode;
          GrownThere(root, node);
          queue := queue + [Entry(stack[i], node)];
        }
        i := i + 1;
      }
    }

    lemma Keep(path: Path, stacknode: Path, child: Path)
      ensures Has(root, path) ==> Has(Grown(root, child), path)
      ensures Has(root, stacknode) ==> Has(Grown(root, child), stacknode)
      ensures Has(Grown(root, child), child)
    {
      GrownKeepsNodes(root, child, path);
      GrownKeepsNodes(root, child, stacknode);
      GrownHas(root, child);
    }

    method Visit(address: Address, path: Path)
      requires address in heap && Named(heap[address].kind) && Has(root, path)
      modifies this`queue, this`root
      ensures Now() == After(old(Now()), path, Links(heap, heap[address].kind))
    {
      hide After, PairLinks, Each, Maybe, StackLinks, Weak;
      ghost var f := Now();
      match heap[address].kind
      case Str(_) =>
        AfterNone(f, path);
      case Table(pairs, items, metatable) =>
        var weakKeys, weakVals := Weak(heap, metatable, 'k'), Weak(heap, metatable, 'v');
        FollowPairs(path, pairs, weakKeys, weakVals);
        FollowEach(path, items, []);
        AppendMaybe(metatable, path, "__meta");
        AfterAppend(f, path, PairLinks(heap, pairs, weakKeys, weakVals), Each(items, []));
        AfterAppend(f, path, PairLinks(heap, pairs, weakKeys, weakVals) + Each(items, []), Maybe(metatable, ["__meta"]));
      case Function(env, proto, upvalues) =>
        AppendToChild(env, path, "__env");
        var source := SourceOf(heap, proto);
        AppendMaybe(proto, path, "__proto");
        FollowEach(path, upvalues, [source]);
        AfterAppend(f, path, [Link(Some(env), ["__env"])], Maybe(proto, ["__proto"]));
        AfterAppend(f, path, [Link(Some(env), ["__env"])] + Maybe(proto, ["__proto"]), Each(upvalues, [source]));
      case Userdata(metatable) =>
        AppendMaybe(metatable, path, "__meta");
      case Thread(env, stack, names) =>
        AppendToChild(env, path, "__env");
        var stacknode := Child(path, "__stack");
        FollowStack(path, stack, names);
        AfterAppend(f, path, [Link(Some(env), ["__env"])], [Link(None, ["__stack"])]);
        assert [Link(Some(env), ["__env"])] + [Link(None, ["__stack"])] == [Link(Some(env), ["__env"]), Link(None, ["__stack"])];
        AfterAppend(f, path, [Link(Some(env), ["__env"]), Link(None, ["__stack"])], StackLinks(stack, names, |stack|));
      case Proto(_, constants, protos) =>
        FollowEach(path, constants, []);
        FollowEach(path, protos, []);
        AfterAppend(f, path, Each(constants, []), Each(protos, []));
      case Upvalue(target) =>
        if target.Some? {
          Append(target.value, path);
        } else {
          AfterNone(f, path);
        }
        MaybeIs(target);
      case Other =>
        AfterNone(f, path);
    }

    ghost predicate Right()
      reads this
    {
      && offset <= |queue|
      && Queued(heap, roots, queue, root) && Reached(heap, roots, visited)
      && Frontier(heap, roots, visited, queue, offset)
      && Tallied(heap, known, visited, root) && Sorted(heap, roots, root)
      && depth.Keys == visited && Levelled(heap, roots, depth, queue, levels, offset)
      && Fringe(heap, roots, depth, queue, levels, offset)
    }

    method Start()
      requires Complete(heap, roots)
      requires visited == {} && queue == [] && offset == 0 && root == Empty("") && depth == map[] && levels == []
      modifies this`queue, this`root, this`levels
      ensures Right()
    {
      hide Complete, Added, Routed, Waiting, Frontier, Tallied, Sorted, Queued, Reached, Levelled, Fringe;
      NothingFound(heap, known, roots);
      var i := 0;
      while i < |roots|
        invariant 0 <= i <= |roots|
        invariant Queued(heap, roots, queue, root) && Tallied(heap, known, {}, root) && Sorted(heap, roots, root)
        invariant forall j :: 0 <= j < i ==> Waiting(queue, 0, roots[j].address)
        invariant |queue| == |levels| == i && forall j :: 0 <= j < i ==> levels[j] == 0
        invariant forall j :: 0 <= j < i ==> queue[j] == Entry(roots[j].address, [roots[j].name])
      {
        RootQueued(heap, known, roots, queue, root, i);
        root := Grown(root, [roots[i].name]);
        queue, levels := queue + [Entry(roots[i].address, [roots[i].name])], levels + [0];
        i := i + 1;
      }
      StartsCovered(heap, roots, queue);
      StartsLevelled(heap, roots, queue, levels);
    }

    /** One object, which has not been visited. */
    method Discover(e: Entry)
      requires Complete(heap, roots) && Right() && offset < |queue| && e == queue[offset] && e.address !in visited
      modifies this
      ensures Right() && offset == old(offset) + 1 && visited == old(visited) + {e.address} && e.address in heap
    {
      hide Frontier, Tallied, Sorted, Reached, After, Added, Links, Routed, Complete, Levelled, Fringe, Nearest;
      var a := e.address;
      ghost var v, o, d := visited, offset, depth;
      NextIsNearest(heap, roots, depth, queue, levels, offset);
      NewVisit(heap, known, visited, a);
      NowReached(heap, roots, visited, e);
      visited := visited + {a};
      offset := offset + 1;
      if a !in known {
        var item := ItemOf(heap, a);
        AddedAddsItem(root, e.path, item);
        QueueAfterAdding(heap, roots, queue, root, e.path, item);
        SortedAfterAdding(heap, roots, root, e.path, item);
        OneMoreTallied(heap, known, v, a, root, e.path);
        AddedHolds(root, e.path, item, e.path);
        root := Added(root, e.path, item);
      } else {
        KnownTallied(heap, known, v, a, root);
      }
      ghost var f := Now();
      QueueStays(heap, roots, f, e);
      FrontierMoves(heap, roots, v, f, o);
      LevelsGrow(heap, roots, d, f, levels, o);
      FringeMoves(heap, roots, d, f, levels, o);
      SortedAfterFollowing(heap, roots, f, e.path, Links(heap, heap[a].kind));
      TalliedAfterFollowing(heap, known, visited, f, e.path, Links(heap, heap[a].kind));
      AfterEntries(f, e.path, Links(heap, heap[a].kind));
      assert Reachable(heap, roots, a);
      AllNamed(heap, roots, a);
      Visit(a, e.path);
      depth, levels := d[a := levels[o]], Deeper(levels, o, |queue|);
    }

    lemma RightIs()
      requires Right()
      ensures offset <= |queue| && Reached(heap, roots, visited) && Frontier(heap, roots, visited, queue, offset)
      ensures Tallied(heap, known, visited, root) && Sorted(heap, roots, root)
    {
    }

    /** An object that has been visited before. */
    method PassBy(e: Entry)
      requires Right() && offset < |queue| && e == queue[offset] && e.address in visited
      modifies this`offset
      ensures Right() && offset == old(offset) + 1
    {
      hide Tallied, Sorted, Reached, Queued, Levelled, Fringe, Frontier;
      Skipped(heap, roots, visited, queue, offset);
      FringeSkips(heap, roots, depth, queue, levels, offset);
      offset := offset + 1;
    }

    /**
     * The visited objects are the least set with the roots and everything that its members refer to, which is what a chain
     * of references leads to, and the tree has each of those that are new once, in a node that a shortest chain leads to.
     */
    method Run()
      requires Complete(heap, roots)
      requires visited == {} && queue == [] && offset == 0 && root == Empty("") && depth == map[] && levels == []
      modifies this
      ensures Closed(heap, roots, visited)
      ensures forall s :: Closed(heap, roots, s) ==> visited <= s
      ensures forall a :: a in visited <==> a in heap && Reachable(heap, roots, a)
      ensures Tallied(heap, known, visited, root) && Sorted(heap, roots, root)
    {
      hide Complete, Frontier, Tallied, Sorted, Reached, Queued, Levelled, Fringe;
      Start();
      hide Right;
      RightIs();
      InHeap(heap, roots, visited);
      while offset < |queue|
        invariant Right() && offset <= |queue|
        invariant visited <= heap.Keys
        decreases |heap.Keys - visited|, |queue| - offset
      {
        var e := queue[offset];
        if e.address in visited {
          PassBy(e);
          RightIs();
        } else {
          ghost var was := visited;
          Discover(e);
          RightIs();
          InHeap(heap, roots, visited);
          FewerLeft(heap.Keys, was, e.address);
        }
      }
      RightIs();
      AllCovered(heap, roots, visited, queue, offset);
      forall s | Closed(heap, roots, s)
        ensures visited <= s
      {
        ReachedStaysIn(heap, roots, visited, s);
      }
      VisitedIsReachable(heap, roots, visited);
    }
  }

  lemma NothingFound(heap: Heap, known: set<Address>, roots: seq<Root>)
    ensures Queued(heap, roots, [], Empty("")) && Tallied(heap, known, {}, Empty("")) && Sorted(heap, roots, Empty(""))
    ensures Reached(heap, roots, {})
  {
    assert NewItems(heap, known, {}) == {};
    forall path
      ensures Fitting(heap, roots, path, Held(Empty(""), path))
    {
      NothingHeld("", path);
    }
  }

  lemma RootQueued(heap: Heap, known: set<Address>, roots: seq<Root>, queue: seq<Entry>, root: Tree, i: nat)
    requires Complete(heap, roots) && i < |roots|
    requires Queued(heap, roots, queue, root) && Tallied(heap, known, {}, root) && Sorted(heap, roots, root)
    ensures var longer, grown := queue + [Entry(roots[i].address, [roots[i].name])], Grown(root, [roots[i].name]);
            && Queued(heap, roots, longer, grown) && Tallied(heap, known, {}, grown) && Sorted(heap, roots, grown)
            && Waiting(longer, 0, roots[i].address)
            && forall b :: Waiting(queue, 0, b) ==> Waiting(longer, 0, b)
  {
    var path := [roots[i].name];
    var longer, grown := queue + [Entry(roots[i].address, path)], Grown(root, path);
    RootRouted(heap, roots, i);
    hide Routed, Held, Fitting;
    GrownHas(root, path);
    GrownIsSound(root, path);
    GrownIsUnnoted(root, path);
    GrownKeepsItems(root, path);
    forall q
      ensures Has(root, q) ==> Has(grown, q)
      ensures Fitting(heap, roots, q, Held(grown, q))
    {
      GrownKeepsNodes(root, path, q);
      assert Fitting(heap, roots, q, Held(root, q));
    }
    assert longer[|queue|].address == roots[i].address;
    forall b | Waiting(queue, 0, b)
      ensures Waiting(longer, 0, b)
    {
      WaitingStays(queue, longer, 0, b);
    }
  }

  lemma RootRouted(heap: Heap, roots: seq<Root>, i: nat)
    requires i < |roots|
    ensures Routed(heap, roots, roots[i].address, [roots[i].name])
  {
    assert Route(heap, roots, 0, roots[i].address, [roots[i].name]);
  }

  lemma NowReached(heap: Heap, roots: seq<Root>, visited: set<Address>, e: Entry)
    requires Reached(heap, roots, visited) && e.address in heap && Routed(heap, roots, e.address, e.path)
    ensures Reached(heap, roots, visited + {e.address})
  {
    hide Routed;
    assert Reachable(heap, roots, e.address);
  }

  lemma OneMoreTallied(heap: Heap, known: set<Address>, visited: set<Address>, a: Address, root: Tree, path: Path)
    requires a in heap && a !in visited && a !in known && Tallied(heap, known, visited, root) && Has(root, path)
    ensures Tallied(heap, known, visited + {a}, Added(root, path, ItemOf(heap, a)))
  {
    hide Added, Sound, NewItems;
    NewVisit(heap, known, visited, a);
    AddedAddsItem(root, path, ItemOf(heap, a));
    AddedIsSound(root, path, ItemOf(heap, a));
    AddedIsUnnoted(root, path, ItemOf(heap, a));
  }

  lemma KnownTallied(heap: Heap, known: set<Address>, visited: set<Address>, a: Address, root: Tree)
    requires a in heap && a !in visited && a in known && Tallied(heap, known, visited, root)
    ensures Tallied(heap, known, visited + {a}, root)
  {
    hide Sound, NewItems;
    NewVisit(heap, known, visited, a);
  }

  lemma TalliedAfterFollowing(heap: Heap, known: set<Address>, visited: set<Address>, f: Front, path: Path, links: seq<Link>)
    requires Tallied(heap, known, visited, f.root)
    ensures Tallied(heap, known, visited, After(f, path, links).root)
  {
    hide Sound, NewItems;
    AfterTotals(f, path, links);
  }

  lemma AllNamed(heap: Heap, roots: seq<Root>, a: Address)
    requires Complete(heap, roots) && a in heap && Reachable(heap, roots, a)
    ensures Named(heap[a].kind)
  {
  }

  lemma InHeap(heap: Heap, roots: seq<Root>, visited: set<Address>)
    requires Reached(heap, roots, visited)
    ensures visited <= heap.Keys
  {
  }

  lemma FewerLeft(all: set<Address>, visited: set<Address>, a: Address)
    requires a in all && a !in visited
    ensures |all - (visited + {a})| < |all - visited|
  {
    assert all - visited == (all - (visited + {a})) + {a};
  }

  lemma AllCovered(heap: Heap, roots: seq<Root>, visited: set<Address>, queue: seq<Entry>, offset: nat)
    requires Frontier(heap, roots, visited, queue, offset) && offset >= |queue|
    ensures Closed(heap, roots, visited)
  {
    hide Refers;
    forall b | Covered(visited, queue, offset, b)
      ensures b in visited
    {
    }
    assert forall i :: 0 <= i < |roots| ==> Covered(visited, queue, offset, roots[i].address);
    forall a, b | a in visited && a in heap && Refers(heap, heap[a].kind, b)
      ensures b in visited
    {
      assert Covered(visited, queue, offset, b);
    }
  }

  lemma StartsCovered(heap: Heap, roots: seq<Root>, queue: seq<Entry>)
    requires forall j :: 0 <= j < |roots| ==> Waiting(queue, 0, roots[j].address)
    ensures Frontier(heap, roots, {}, queue, 0)
  {
    hide Refers, Waiting;
  }

  lemma ReachedStaysIn(heap: Heap, roots: seq<Root>, visited: set<Address>, s: set<Address>)
    requires Complete(heap, roots) && Reached(heap, roots, visited) && Closed(heap, roots, s)
    ensures visited <= s
  {
    hide Complete, Closed, Route;
    forall a | a in visited
      ensures a in s
    {
      var path :| Routed(heap, roots, a, path);
      var n: nat :| Route(heap, roots, n, a, path);
      RouteStaysIn(heap, roots, n, a, path, s);
    }
  }

  lemma VisitedIsReachable(heap: Heap, roots: seq<Root>, visited: set<Address>)
    requires Complete(heap, roots) && Reached(heap, roots, visited) && Closed(heap, roots, visited)
    ensures forall a :: a in visited <==> a in heap && Reachable(heap, roots, a)
  {
    hide Complete, Closed, Route;
    forall a | a in heap && Reachable(heap, roots, a)
      ensures a in visited
    {
      var path :| Routed(heap, roots, a, path);
      var n: nat :| Route(heap, roots, n, a, path);
      RouteStaysIn(heap, roots, n, a, path, visited);
    }
  }

  /** The node of the last frame, if there was one. */
  ghost function FrameNode(path: Path, names: seq<string>, n: nat): Option<Path>
    requires names == [] || n <= |names|
  {
    if |FrameAt(names, n)| == 2 then Some(path + FrameAt(names, n)) else None
  }

  lemma FirstFrame(names: seq<string>)
    ensures forall path :: FrameNode(path, names, 0) == None
  {
  }

  lemma {:induction false} FrameIsBelowStack(names: seq<string>, n: nat)
    requires names == [] || n <= |names|
    ensures FrameAt(names, n) == ["__stack"] || |FrameAt(names, n)| == 2
  {
    if n > 0 {
      FrameIsBelowStack(names, n - 1);
    }
  }

  lemma NextFrame(path: Path, stack: seq<Address>, names: seq<string>, i: nat)
    requires i < |stack| && (names == [] || |stack| <= |names|)
    ensures var name, link, before := NameAt(names, i), StackLink(stack, names, i), FrameNode(path, names, i);
            var stacknode := path + ["__stack"];
            && link.target == Some(stack[i])
            && (IsFrame(name) ==>
                  FrameNode(path, names, i + 1) == Some(stacknode + [name[6..]]) && path + link.path == stacknode + [name[6..]])
            && (!IsFrame(name) ==> FrameNode(path, names, i + 1) == before)
            && (!IsFrame(name) && before.Some? && name != "" ==> path + link.path == before.value + [name])
            && (!IsFrame(name) && before.Some? && name == "" ==> path + link.path == before.value)
            && (!IsFrame(name) && before.None? ==> path + link.path == stacknode)
  {
    FrameIsBelowStack(names, i);
    var name, frame := NameAt(names, i), FrameAt(names, i);
    if IsFrame(name) {
      assert path + ["__stack", name[6..]] == path + ["__stack"] + [name[6..]];
    } else {
      assert path + (frame + [name]) == path + frame + [name];
    }
  }

  /** The totals of the tree are the number and the bytes of the new objects found, however these are listed. */
  lemma TotalsOfNewObjects(heap: Heap, known: set<Address>, visited: set<Address>, root: Tree, list: seq<Item>)
    requires Tallied(heap, known, visited, root) && visited <= heap.Keys
    requires multiset(list) == multiset(NewItems(heap, known, visited))
    ensures Count(root) == |visited - known| && Size(root) == Bytes(list)
  {
    TotalsAreItems(root);
    BytesPermutation(Items(root), list);
    assert |Items(root)| == |multiset(Items(root))| == |NewItems(heap, known, visited)|;
    AsManyItems(heap, visited - known);
    assert NewItems(heap, known, visited) == NewItems(heap, {}, visited - known);
  }

  lemma {:induction false} AsManyItems(heap: Heap, s: set<Address>)
    requires s <= heap.Keys
    ensures |NewItems(heap, {}, s)| == |s|
  {
    if s == {} {
      assert NewItems(heap, {}, s) == {};
    } else {
      var a :| a in s;
      AsManyItems(heap, s - {a});
      assert s == (s - {a}) + {a};
      assert NewItems(heap, {}, s) == NewItems(heap, {}, s - {a}) + {ItemOf(heap, a)};
      assert ItemOf(heap, a) !in NewItems(heap, {}, s - {a});
    }
  }

  lemma MaybeIs(target: Option<Address>)
    ensures Maybe(target, []) == if target.Some? then [Link(target, [])] else []
  {
  }

  lemma AfterNone(f: Front, path: Path)
    ensures After(f, path, []) == f
  {
  }
}