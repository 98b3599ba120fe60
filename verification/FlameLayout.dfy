/** The layout of a flame graph: every node gets a width, an offset and a depth. */
module FlameGraphs {
  import opened Basics

  /** `weight` stands for what the width callback says of the node alone; the names of the children do not matter here. */
  class Node {
    const children: seq<Node>
    const weight: int
    var depth: int
    var width: int
    var offset: int

    constructor (children: seq<Node>, weight: int)
      ensures this.children == children && this.weight == weight
      ensures depth == 0 && width == 0 && offset == 0
    {
      this.children, this.weight := children, weight;
      depth, width, offset := 0, 0, 0;
    }
  }

  // ---------------------------------------------------------------- the tree under a node

  datatype Tree = Tree(node: Node, kids: seq<Tree>)

  ghost predicate Shape(t: Tree) {
    && |t.kids| == |t.node.children|
    && forall k :: 0 <= k < |t.kids| ==> t.kids[k].node == t.node.children[k] && Shape(t.kids[k])
  }

  ghost function Nodes(t: Tree): seq<Node> {
    [t.node] + NodesOf(t.kids)
  }

  ghost function NodesOf(ts: seq<Tree>): seq<Node> {
    if ts == [] then [] else Nodes(ts[0]) + NodesOf(ts[1..])
  }

  /** No node occurs twice. */
  ghost predicate IsTree(t: Tree) {
    Shape(t) && forall n :: n in Nodes(t) ==> multiset(Nodes(t))[n] == 1
  }

  function Total(t: Tree): int {
    t.node.weight + TotalOf(t.kids)
  }

  function TotalOf(ts: seq<Tree>): int {
    if ts == [] then 0 else Total(ts[0]) + TotalOf(ts[1..])
  }

  function Weights(list: seq<Node>): int {
    if list == [] then 0 else list[0].weight + Weights(list[1..])
  }

  lemma {:induction false} WeightsAppend(a: seq<Node>, b: seq<Node>)
    ensures Weights(a + b) == Weights(a) + Weights(b)
  {
    if a == [] {
      assert a + b == b;
    } else {
      WeightsAppend(a[1..], b);
      assert (a + b)[1..] == a[1..] + b;
    }
  }

  /** The total of a tree is the weight of all its nodes. */
  lemma {:induction false} TotalIsWeight(t: Tree)
    ensures Total(t) == Weights(Nodes(t))
    decreases t, 0
  {
    TotalsAreWeights(t.kids);
    assert ([t.node] + NodesOf(t.kids))[1..] == NodesOf(t.kids);
  }

  lemma {:induction false} TotalsAreWeights(ts: seq<Tree>)
    ensures TotalOf(ts) == Weights(NodesOf(ts))
    decreases ts, 1
  {
    if ts != [] {
      TotalIsWeight(ts[0]);
      TotalsAreWeights(ts[1..]);
      WeightsAppend(Nodes(ts[0]), NodesOf(ts[1..]));
    }
  }

  lemma {:induction false} NodesAppend(a: seq<Tree>, b: seq<Tree>)
    ensures NodesOf(a + b) == NodesOf(a) + NodesOf(b)
  {
    if a == [] {
      assert a + b == b;
    } else {
      NodesAppend(a[1..], b);
      assert (a + b)[1..] == a[1..] + b;
      assert Nodes(a[0]) + (NodesOf(a[1..]) + NodesOf(b)) == (Nodes(a[0]) + NodesOf(a[1..])) + NodesOf(b);
    }
  }

  lemma {:induction false} TotalAppend(a: seq<Tree>, b: seq<Tree>)
    ensures TotalOf(a + b) == TotalOf(a) + TotalOf(b)
  {
    if a == [] {
      assert a + b == b;
    } else {
      TotalAppend(a[1..], b);
      assert (a + b)[1..] == a[1..] + b;
    }
  }

  // ---------------------------------------------------------------- subtree

  /** A breadth-first listing of a tree: `first[j]` is where the children of the `j`-th node stand, one after the other. */
  ghost predicate Listing(list: seq<Node>, trees: seq<Tree>, first: seq<nat>) {
    && |list| == |trees|
    && |first| <= |list|
    && (forall j :: 0 <= j < |list| ==> list[j] == trees[j].node && Shape(trees[j]))
    && (forall j :: 0 <= j < |first| ==> BlockAt(trees, first, j))
  }

  ghost predicate BlockAt(trees: seq<Tree>, first: seq<nat>, j: nat)
    requires j < |first| <= |trees|
  {
    && first[j] == Start(trees, first[..j]) && j < first[j]
    && first[j] + |trees[j].kids| <= |trees|
    && trees[first[j]..first[j] + |trees[j].kids|] == trees[j].kids
  }

  /** Where the next block begins. */
  ghost function Start(trees: seq<Tree>, first: seq<nat>): nat
    requires |first| <= |trees|
  {
    if first == [] then 1 else first[|first| - 1] + |trees[|first| - 1].kids|
  }

  lemma BlockStays(trees: seq<Tree>, first: seq<nat>, more: seq<Tree>, next: nat, j: nat)
    requires j < |first| < |trees| && BlockAt(trees, first, j)
    ensures BlockAt(trees + more, first + [next], j)
  {
    assert (first + [next])[..j] == first[..j];
    assert (trees + more)[first[j]..first[j] + |trees[j].kids|] == trees[first[j]..first[j] + |trees[j].kids|];
  }

  lemma Grown(list: seq<Node>, trees: seq<Tree>, first: seq<nat>)
    requires Listing(list, trees, first) && Start(trees, first) == |list| && |first| < |list|
    ensures var q := trees[|first|];
            && Listing(list + q.node.children, trees + q.kids, first + [|list|])
            && Start(trees + q.kids, first + [|list|]) == |list| + |q.kids|
  {
    var i, q := |first|, trees[|first|];
    var trees', first' := trees + q.kids, first + [|list|];
    forall j | 0 <= j < |first'|
      ensures BlockAt(trees', first', j)
    {
      if j < i {
        BlockStays(trees, first, q.kids, |list|, j);
      } else {
        assert first'[..i] == first;
        assert trees'[|list|..|list| + |q.kids|] == q.kids;
        StartStays(trees, first, q.kids);
      }
    }
    assert Shape(q);
  }

  lemma StartStays(trees: seq<Tree>, first: seq<nat>, more: seq<Tree>)
    requires |first| <= |trees|
    ensures Start(trees + more, first) == Start(trees, first)
  {
  }

  lemma Consumed(trees: seq<Tree>, i: nat)
    requires i < |trees|
    ensures NodesOf(trees[i..]) == [trees[i].node] + NodesOf(trees[i].kids) + NodesOf(trees[i + 1..])
    ensures NodesOf((trees + trees[i].kids)[i + 1..]) == NodesOf(trees[i + 1..]) + NodesOf(trees[i].kids)
  {
    assert trees[i..][1..] == trees[i + 1..];
    assert (trees + trees[i].kids)[i + 1..] == trees[i + 1..] + trees[i].kids;
    NodesAppend(trees[i + 1..], trees[i].kids);
  }

  /** The nodes listed and passed, and the trees under the others, are all there is. */
  ghost predicate Accounted(list: seq<Node>, trees: seq<Tree>, i: nat, t: Tree) {
    i <= |list| == |trees| && multiset(list[..i]) + multiset(NodesOf(trees[i..])) == multiset(Nodes(t))
  }

  lemma StillAccounted(list: seq<Node>, trees: seq<Tree>, i: nat, t: Tree)
    requires i < |list| && Accounted(list, trees, i, t) && list[i] == trees[i].node
    requires |trees[i].kids| == |list[i].children|
    ensures Accounted(list + list[i].children, trees + trees[i].kids, i + 1, t)
    ensures |NodesOf((trees + trees[i].kids)[i + 1..])| < |NodesOf(trees[i..])|
  {
    hide NodesOf, Nodes;
    Consumed(trees, i);
    assert (list + list[i].children)[..i + 1] == list[..i] + [list[i]];
  }

  /** Each node of the tree once, and the children of each in one block further on. */
  method Subtree(root: Node, ghost t: Tree) returns (list: seq<Node>, ghost trees: seq<Tree>, ghost first: seq<nat>)
    requires Shape(t) && t.node == root
    ensures |first| == |list| && Listing(list, trees, first) && Start(trees, first) == |list|
    ensures multiset(list) == multiset(Nodes(t))
    ensures trees != [] && trees[0] == t
  {
    hide Shape, Nodes, NodesOf, BlockAt, Accounted;
    list := [root];
    trees, first := [t], [];
    var offset := 0;
    OneTree(t);
    while offset < |list|
      invariant 0 <= offset <= |list| == |trees| && |first| == offset
      invariant Listing(list, trees, first) && Start(trees, first) == |list|
      invariant Accounted(list, trees, offset, t)
      invariant trees != [] && trees[0] == t
      decreases |NodesOf(trees[offset..])|
    {
      hide Listing, Start;
      KidsAreChildren(list, trees, first, offset);
      Grown(list, trees, first);
      StillAccounted(list, trees, offset, t);
      first := first + [|list|];
      trees := trees + trees[offset].kids;
      var p := list[offset];
      offset := offset + 1;
      list := AppendAll(list, p.children);
    }
    AllListed(list, trees, t);
  }

  method AppendAll(list: seq<Node>, more: seq<Node>) returns (longer: seq<Node>)
    ensures longer == list + more
  {
    longer := list;
    var c := 0;
    while c < |more|
      invariant 0 <= c <= |more|
      invariant longer == list + more[..c]
    {
      longer := longer + [more[c]];
      c := c + 1;
    }
  }

  lemma AllListed(list: seq<Node>, trees: seq<Tree>, t: Tree)
    requires Accounted(list, trees, |list|, t)
    ensures multiset(list) == multiset(Nodes(t))
  {
    assert list[..|list|] == list && trees[|list|..] == [];
  }

  lemma OneTree(t: Tree)
    ensures Accounted([t.node], [t], 0, t)
    ensures Listing([t.node], [t], []) == Shape(t)
  {
    assert [t][0..] == [t] && [t][1..] == [];
  }

  lemma KidsAreChildren(list: seq<Node>, trees: seq<Tree>, first: seq<nat>, j: nat)
    requires Listing(list, trees, first) && j < |list|
    ensures |list| == |trees| && list[j] == trees[j].node && |trees[j].kids| == |list[j].children|
  {
  }

  // ---------------------------------------------------------------- the order of siblings

  /** Widest first; siblings of one width keep their order. */
  predicate Precedes(w: seq<int>, a: nat, b: nat)
    requires a < |w| && b < |w|
  {
    w[a] > w[b] || (w[a] == w[b] && a < b)
  }

  /** The width of those of the first `n` siblings that stand to the left of the `k`-th. */
  function LeftAmong(w: seq<int>, k: nat, n: nat): int
    requires k < |w| && n <= |w|
  {
    if n == 0 then 0 else LeftAmong(w, k, n - 1) + if Precedes(w, n - 1, k) then w[n - 1] else 0
  }

  function LeftOf(w: seq<int>, k: nat): int
    requires k < |w|
  {
    LeftAmong(w, k, |w|)
  }

  function Sum(w: seq<int>, n: nat): int
    requires n <= |w|
  {
    if n == 0 then 0 else Sum(w, n - 1) + w[n - 1]
  }

  lemma {:induction false} LeftFits(w: seq<int>, k: nat, n: nat)
    requires k < |w| && n <= |w| && forall m :: 0 <= m < |w| ==> w[m] >= 0
    ensures 0 <= LeftAmong(w, k, n)
    ensures LeftAmong(w, k, n) + (if k < n then w[k] else 0) <= Sum(w, n)
  {
    if n > 0 {
      LeftFits(w, k, n - 1);
    }
  }

  lemma {:induction false} LeftGrows(w: seq<int>, a: nat, b: nat, n: nat)
    requires a < |w| && b < |w| && n <= |w| && Precedes(w, a, b) && forall m :: 0 <= m < |w| ==> w[m] >= 0
    ensures LeftAmong(w, a, n) + (if a < n then w[a] else 0) <= LeftAmong(w, b, n)
  {
    if n > 0 {
      LeftGrows(w, a, b, n - 1);
    }
  }

  function SumBy(g: nat -> int, s: seq<nat>): int {
    if s == [] then 0 else g(s[0]) + SumBy(g, s[1..])
  }

  lemma SumByNone(g: nat -> int)
    ensures SumBy(g, []) == 0
  {
  }

  lemma SumByOne(g: nat -> int, k: nat)
    ensures SumBy(g, [k]) == g(k)
  {
    assert [k][1..] == [];
  }

  lemma {:induction false} SumByAppend(g: nat -> int, a: seq<nat>, b: seq<nat>)
    ensures SumBy(g, a + b) == SumBy(g, a) + SumBy(g, b)
  {
    if a == [] {
      assert a + b == b;
    } else {
      SumByAppend(g, a[1..], b);
      assert (a + b)[1..] == a[1..] + b;
    }
  }

  lemma {:induction false} SumByPermutation(g: nat -> int, a: seq<nat>, b: seq<nat>)
    requires multiset(a) == multiset(b)
    ensures SumBy(g, a) == SumBy(g, b)
  {
    if a == [] {
      assert |b| == |multiset(b)| == 0;
    } else {
      assert a[0] in multiset(b);
      var i :| 0 <= i < |b| && b[i] == a[0];
      var left, right := b[..i], b[i + 1..];
      assert b == left + ([b[i]] + right);
      assert a == [a[0]] + a[1..];
      TakenOut(a[0], a[1..], left, right);
      SumByPermutation(g, a[1..], left + right);
      SumByAppend(g, left, right);
      SumByAppend(g, left, [b[i]] + right);
    }
  }

  ghost function Indices(n: nat): seq<nat> {
    if n == 0 then [] else Indices(n - 1) + [n - 1]
  }

  /** An ordering of the siblings by `Precedes`. */
  ghost predicate Sorted(w: seq<int>, order: seq<nat>, n: nat) {
    && n <= |w|
    && multiset(order) == multiset(Indices(n))
    && (forall a :: 0 <= a < |order| ==> order[a] < n)
    && forall a, b :: 0 <= a < b < |order| ==> Precedes(w, order[a], order[b])
  }

  ghost function Share(w: seq<int>, k: nat): nat -> int
    requires k < |w|
  {
    (m: nat) => if m < |w| && Precedes(w, m, k) then w[m] else 0
  }

  lemma {:induction false} LeftIsShare(w: seq<int>, k: nat, n: nat)
    requires k < |w| && n <= |w|
    ensures LeftAmong(w, k, n) == SumBy(Share(w, k), Indices(n))
  {
    if n > 0 {
      LeftIsShare(w, k, n - 1);
      SumByAppend(Share(w, k), Indices(n - 1), [n - 1]);
    }
  }

  ghost function WidthAt(w: seq<int>): nat -> int {
    (m: nat) => if m < |w| then w[m] else 0
  }

  lemma {:induction false} SameSum(f: nat -> int, g: nat -> int, s: seq<nat>)
    requires forall i :: 0 <= i < |s| ==> f(s[i]) == g(s[i])
    ensures SumBy(f, s) == SumBy(g, s)
  {
    if s != [] {
      assert forall i :: 0 <= i < |s[1..]| ==> s[1..][i] == s[i + 1];
      SameSum(f, g, s[1..]);
    }
  }

  lemma {:induction false} ZeroSum(g: nat -> int, s: seq<nat>)
    requires forall i :: 0 <= i < |s| ==> g(s[i]) == 0
    ensures SumBy(g, s) == 0
  {
    if s != [] {
      assert forall i :: 0 <= i < |s[1..]| ==> s[1..][i] == s[i + 1];
      ZeroSum(g, s[1..]);
    }
  }

  lemma SharesInOrder(w: seq<int>, order: seq<nat>, p: nat)
    requires Sorted(w, order, |w|) && p < |order|
    ensures order[p] < |w|
    ensures forall i :: 0 <= i < p ==> Share(w, order[p])(order[..p][i]) == WidthAt(w)(order[..p][i])
    ensures forall i :: 0 <= i < |order| - p ==> Share(w, order[p])(order[p..][i]) == 0
  {
    forall i | 0 <= i < |order| - p
      ensures Share(w, order[p])(order[p..][i]) == 0
    {
      assert order[p..][i] == order[p + i];
      assert i > 0 ==> Precedes(w, order[p], order[p + i]);
    }
  }

  /** Laying the siblings out in this order puts each right of those that precede it. */
  lemma OrderGivesLeft(w: seq<int>, order: seq<nat>, p: nat)
    requires Sorted(w, order, |w|) && p < |order|
    ensures SumBy(WidthAt(w), order[..p]) == LeftOf(w, order[p])
  {
    hide Precedes, Indices, SumBy, Share, WidthAt, LeftAmong;
    SharesInOrder(w, order, p);
    var g := Share(w, order[p]);
    LeftIsShare(w, order[p], |w|);
    SumByPermutation(g, order, Indices(|w|));
    assert order == order[..p] + order[p..];
    SumByAppend(g, order[..p], order[p..]);
    SameSum(g, WidthAt(w), order[..p]);
    ZeroSum(g, order[p..]);
  }

  ghost function Widths(cs: seq<Node>): (w: seq<int>)
    reads cs`width
    ensures |w| == |cs| && forall k :: 0 <= k < |cs| ==> w[k] == cs[k].width
  {
    if cs == [] then [] else [cs[0].width] + Widths(cs[1..])
  }

  /** The stable sort by falling width, as positions. */
  method SortByWidth(cs: seq<Node>) returns (order: seq<nat>)
    ensures Sorted(Widths(cs), order, |cs|)
  {
    order := [];
    var i: nat := 0;
    while i < |cs|
      invariant i <= |cs|
      invariant Sorted(Widths(cs), order, i)
    {
      hide Sorted;
      SortedRange(Widths(cs), order, i);
      var j := PlaceFor(cs, order, cs[i].width);
      Inserted(Widths(cs), order, i, j);
      order := order[..j] + [i] + order[j..];
      i := i + 1;
    }
  }

  /** Behind all that are at least as wide, seen from the end. */
  method PlaceFor(cs: seq<Node>, order: seq<nat>, width: int) returns (j: nat)
    requires forall a :: 0 <= a < |order| ==> order[a] < |cs|
    ensures j <= |order|
    ensures forall a :: j <= a < |order| ==> cs[order[a]].width < width
    ensures j > 0 ==> cs[order[j - 1]].width >= width
  {
    j := |order|;
    while j > 0 && cs[order[j - 1]].width < width
      invariant j <= |order|
      invariant forall a :: j <= a < |order| ==> cs[order[a]].width < width
    {
      j := j - 1;
    }
  }

  lemma SortedRange(w: seq<int>, order: seq<nat>, n: nat)
    requires Sorted(w, order, n)
    ensures forall a :: 0 <= a < |order| ==> order[a] < n
  {
  }

  lemma Inserted(w: seq<int>, order: seq<nat>, i: nat, j: nat)
    requires Sorted(w, order, i) && i < |w| && j <= |order|
    requires forall a :: j <= a < |order| ==> w[order[a]] < w[i]
    requires j > 0 ==> w[order[j - 1]] >= w[i]
    ensures Sorted(w, order[..j] + [i] + order[j..], i + 1)
  {
    var longer := order[..j] + [i] + order[j..];
    PutIn(order, i, j);
    hide Precedes, Indices;
    forall a | 0 <= a < |longer|
      ensures longer[a] < i + 1
    {
      assert longer[a] in longer;
    }
    forall a, b | 0 <= a < b < |longer|
      ensures Precedes(w, longer[a], longer[b])
    {
      InsertedPair(w, order, i, j, a, b);
    }
  }

  lemma PutIn(order: seq<nat>, i: nat, j: nat)
    requires j <= |order| && multiset(order) == multiset(Indices(i))
    ensures multiset(order[..j] + [i] + order[j..]) == multiset(Indices(i + 1))
    ensures forall e :: e in order[..j] + [i] + order[j..] ==> e in order || e == i
  {
    assert order == order[..j] + order[j..];
  }

  lemma InsertedPair(w: seq<int>, order: seq<nat>, i: nat, j: nat, a: nat, b: nat)
    requires Sorted(w, order, i) && i < |w| && j <= |order|
    requires forall a :: j <= a < |order| ==> w[order[a]] < w[i]
    requires j > 0 ==> w[order[j - 1]] >= w[i]
    requires a < b <= |order|
    ensures var longer := order[..j] + [i] + order[j..]; longer[a] <= i && longer[b] <= i && Precedes(w, longer[a], longer[b])
  {
    if b == j && a < j - 1 {
      assert Precedes(w, order[a], order[j - 1]);
    }
  }

  // ---------------------------------------------------------------- layout

  ghost function Totals(ts: seq<Tree>): (w: seq<int>)
    ensures |w| == |ts| && forall k :: 0 <= k < |ts| ==> w[k] == Total(ts[k])
  {
    if ts == [] then [] else [Total(ts[0])] + Totals(ts[1..])
  }

  ghost function Members(t: Tree): set<Node> {
    set n | n in Nodes(t)
  }

  /** The layout, top down: each child stands right of its parent's left edge by the widths of the siblings before it. */
  ghost predicate Placed(t: Tree, offset: int, depth: int)
    reads Members(t)
  {
    MembersBelow(t);
    && t.node.width == Total(t) && t.node.offset == offset && t.node.depth == depth
    && forall k :: 0 <= k < |t.kids| ==> Placed(t.kids[k], offset + LeftOf(Totals(t.kids), k), depth + 1)
  }

  lemma MembersBelow(t: Tree)
    ensures t.node in Members(t)
    ensures forall k :: 0 <= k < |t.kids| ==> Members(t.kids[k]) <= Members(t)
  {
    assert Nodes(t)[0] == t.node;
    forall k | 0 <= k < |t.kids|
      ensures Members(t.kids[k]) <= Members(t)
    {
      NodesOfEach(t.kids, k);
    }
  }

  lemma {:induction false} NodesOfEach(ts: seq<Tree>, k: nat)
    requires k < |ts|
    ensures forall n :: n in Nodes(ts[k]) ==> n in NodesOf(ts)
  {
    if k > 0 {
      NodesOfEach(ts[1..], k - 1);
    }
  }

  /** No node twice, and no node among its own later children. */
  ghost predicate Separate(list: seq<Node>, first: seq<nat>) {
    && |first| == |list|
    && (forall a, b :: 0 <= a < b < |list| ==> list[a] != list[b])
    && (forall j :: 0 <= j < |list| ==> j < first[j] && first[j] + |list[j].children| <= |list|)
    && (forall j :: 0 <= j < |list| ==> list[first[j]..first[j] + |list[j].children|] == list[j].children)
    && forall i, j :: 0 <= i < j < |list| ==> first[i] + |list[i].children| <= first[j]
  }

  lemma Child(list: seq<Node>, first: seq<nat>, j: nat, c: Node)
    requires Separate(list, first) && j < |list| && c in list[j].children
    ensures exists m :: first[j] <= m < first[j] + |list[j].children| && list[m] == c
  {
    var k :| 0 <= k < |list[j].children| && list[j].children[k] == c;
    assert list[first[j]..first[j] + |list[j].children|][k] == list[first[j] + k];
  }

  /** Two nodes have no child in common, */
  lemma ChildrenApart(list: seq<Node>, first: seq<nat>, i: nat, j: nat, c: Node)
    requires Separate(list, first) && i < |list| && j < |list| && i != j && c in list[i].children
    ensures c !in list[j].children
  {
    Child(list, first, i, c);
    if c in list[j].children {
      Child(list, first, j, c);
    }
  }

  /** and a node is no child of those behind it, nor of itself. */
  lemma ParentsFirst(list: seq<Node>, first: seq<nat>, i: nat, j: nat)
    requires Separate(list, first) && i <= j < |list|
    ensures list[i] !in list[j].children
  {
    if list[i] in list[j].children {
      Child(list, first, j, list[i]);
    }
  }

  lemma ChildrenDiffer(list: seq<Node>, first: seq<nat>, j: nat)
    requires Separate(list, first) && j < |list|
    ensures forall a, b :: 0 <= a < b < |list[j].children| ==> list[j].children[a] != list[j].children[b]
  {
    var cs := list[j].children;
    forall a, b | 0 <= a < b < |cs|
      ensures cs[a] != cs[b]
    {
      var block := list[first[j]..first[j] + |cs|];
      assert cs[a] == block[a] == list[first[j] + a] && cs[b] == block[b] == list[first[j] + b];
    }
  }

  /** The width of a node from the widths of its children. */
  method Measure(n: Node)
    requires n !in n.children
    modifies n`width
    ensures n.width == n.weight + Sum(Widths(n.children), |n.children|)
  {
    ghost var w := Widths(n.children);
    n.width := n.weight;
    var c := 0;
    while c < |n.children|
      invariant 0 <= c <= |n.children|
      invariant forall k :: 0 <= k < |w| ==> w[k] == n.children[k].width
      invariant n.width == n.weight + Sum(w, c)
    {
      n.width := n.width + n.children[c].width;
      c := c + 1;
    }
    WidthsStay(n.children, w);
  }

  lemma WidthsStay(cs: seq<Node>, w: seq<int>)
    requires |w| == |cs| && forall k :: 0 <= k < |cs| ==> w[k] == cs[k].width
    ensures Widths(cs) == w
  {
  }

  function Picked(cs: seq<Node>, order: seq<nat>): (laid: seq<Node>)
    requires forall a :: 0 <= a < |order| ==> order[a] < |cs|
    ensures |laid| == |order| && forall a :: 0 <= a < |order| ==> laid[a] == cs[order[a]]
  {
    if order == [] then [] else [cs[order[0]]] + Picked(cs, order[1..])
  }

  /** One next to the other. */
  method LayOut(laid: seq<Node>)
    requires forall a, b :: 0 <= a < b < |laid| ==> laid[a] != laid[b]
    modifies laid`offset
    ensures forall a :: 0 <= a < |laid| ==> laid[a].offset == Sum(Widths(laid), a)
  {
    hide Sum, Widths;
    ghost var w := Widths(laid);
    var offset := 0;
    var p := 0;
    SumFromNone(w);
    while p < |laid|
      invariant 0 <= p <= |laid|
      invariant forall a :: 0 <= a < |laid| ==> laid[a].width == w[a]
      invariant offset == Sum(w, p)
      invariant forall a :: 0 <= a < p ==> laid[a].offset == Sum(w, a)
    {
      var c := laid[p];
      SumOneMore(w, p);
      c.offset := offset;
      offset := offset + c.width;
      p := p + 1;
    }
    WidthsStay(laid, w);
  }

  lemma SumFromNone(w: seq<int>)
    ensures Sum(w, 0) == 0
  {
  }

  lemma SumOneMore(w: seq<int>, p: nat)
    requires p < |w|
    ensures Sum(w, p + 1) == Sum(w, p) + w[p]
  {
  }

  /** The offsets of the children from their parent. */
  method Arrange(n: Node)
    requires forall a, b :: 0 <= a < b < |n.children| ==> n.children[a] != n.children[b]
    modifies n.children`offset
    ensures forall k :: 0 <= k < |n.children| ==> n.children[k].offset == LeftOf(Widths(n.children), k)
  {
    hide Sorted, LeftOf, Widths, Sum;
    var cs := n.children;
    ghost var w := Widths(cs);
    var order := SortByWidth(cs);
    SortedRange(w, order, |cs|);
    SortedDiffers(w, order);
    LayOut(Picked(cs, order));
    WidthsStay(cs, w);
    forall k | 0 <= k < |cs|
      ensures cs[k].offset == LeftOf(w, k)
    {
      InOrder(w, order, k);
      var p :| 0 <= p < |order| && order[p] == k;
      OrderGivesLeft(w, order, p);
      SumOfPicked(cs, w, order, p);
    }
  }

  lemma {:induction false} SumOfPicked(cs: seq<Node>, w: seq<int>, order: seq<nat>, p: nat)
    requires forall a :: 0 <= a < |order| ==> order[a] < |cs|
    requires w == Widths(cs) && p <= |order|
    ensures Sum(Widths(Picked(cs, order)), p) == SumBy(WidthAt(w), order[..p])
  {
    hide Sum, Widths, SumBy;
    var picked := Widths(Picked(cs, order));
    if p == 0 {
      SumFromNone(picked);
      SumByNone(WidthAt(w));
    } else {
      SumOfPicked(cs, w, order, p - 1);
      SumOneMore(picked, p - 1);
      assert order[..p] == order[..p - 1] + [order[p - 1]];
      SumByAppend(WidthAt(w), order[..p - 1], [order[p - 1]]);
      SumByOne(WidthAt(w), order[p - 1]);
    }
  }

  lemma SortedDiffers(w: seq<int>, order: seq<nat>)
    requires Sorted(w, order, |w|)
    ensures forall a, b :: 0 <= a < b < |order| ==> order[a] != order[b]
  {
  }

  lemma InOrder(w: seq<int>, order: seq<nat>, k: nat)
    requires Sorted(w, order, |w|) && k < |w|
    ensures exists a :: 0 <= a < |order| && order[a] == k
  {
    InIndices(k, |w|);
    assert k in multiset(order);
  }

  lemma {:induction false} InIndices(k: nat, n: nat)
    requires k < n
    ensures k in Indices(n)
  {
    if k < n - 1 {
      InIndices(k, n - 1);
    }
  }

  /** From offsets from the parent to final ones. */
  method Shift(n: Node)
    requires n !in n.children
    requires forall a, b :: 0 <= a < b < |n.children| ==> n.children[a] != n.children[b]
    modifies n.children`offset, n.children`depth
    ensures forall c :: c in n.children ==> c.offset == old(c.offset) + n.offset && c.depth == n.depth + 1
  {
    var k := 0;
    while k < |n.children|
      invariant 0 <= k <= |n.children|
      invariant forall a :: 0 <= a < k ==> n.children[a].depth == n.depth + 1
      invariant forall a :: 0 <= a < k ==> n.children[a].offset == old(n.children[a].offset) + n.offset
      invariant forall a :: k <= a < |n.children| ==> n.children[a].offset == old(n.children[a].offset)
    {
      var c := n.children[k];
      c.depth := n.depth + 1;
      c.offset := c.offset + n.offset;
      k := k + 1;
    }
  }

  ghost predicate Measured(list: seq<Node>, trees: seq<Tree>, i: nat)
    requires i <= |list| == |trees|
    reads list[i..]`width
  {
    forall j :: i <= j < |list| ==> (TailHas(list, i, j); list[j].width == Total(trees[j]))
  }

  lemma TailHas(list: seq<Node>, i: nat, j: nat)
    requires i <= j < |list|
    ensures list[j] in list[i..]
  {
    assert list[i..][j - i] == list[j];
  }

  /** The children of `n` stand at these distances from `left`. */
  ghost predicate At(n: Node, t: Tree, left: int)
    reads n.children`offset
  {
    |n.children| == |t.kids| && forall k :: 0 <= k < |t.kids| ==> n.children[k].offset == left + LeftOf(Totals(t.kids), k)
  }

  ghost predicate Deep(n: Node, depth: int)
    reads n.children`depth
  {
    forall k :: 0 <= k < |n.children| ==> n.children[k].depth == depth + 1
  }

  /** What the two loops know of the list. */
  ghost predicate Listed(list: seq<Node>, trees: seq<Tree>, first: seq<nat>) {
    && |first| == |list| == |trees| && Listing(list, trees, first) && Separate(list, first)
  }

  lemma OnceEach(list: seq<Node>, t: Tree)
    requires IsTree(t) && multiset(list) == multiset(Nodes(t))
    ensures forall a, b :: 0 <= a < b < |list| ==> list[a] != list[b]
  {
    hide Shape;
    forall a, b | 0 <= a < b < |list|
      ensures list[a] != list[b]
    {
      assert list == list[..b] + list[b..];
      assert list[a] in multiset(list[..b]) by { assert list[..b][a] == list[a]; }
      assert list[b] in multiset(list[b..]) by { assert list[b..][0] == list[b]; }
      assert list[b] in multiset(list);
    }
  }

  lemma BlockOfChildren(list: seq<Node>, trees: seq<Tree>, first: seq<nat>, j: nat)
    requires Listing(list, trees, first) && j < |first|
    ensures first[j] + |list[j].children| <= |list| && |list[j].children| == |trees[j].kids|
    ensures list[first[j]..first[j] + |list[j].children|] == list[j].children
  {
    var f, n := first[j], |trees[j].kids|;
    assert BlockAt(trees, first, j) && Shape(trees[j]);
    forall k | 0 <= k < n
      ensures list[f..f + n][k] == list[j].children[k]
    {
      assert trees[f..f + n][k] == trees[f + k];
    }
  }

  lemma {:induction false} BlocksInOrder(list: seq<Node>, trees: seq<Tree>, first: seq<nat>, i: nat, j: nat)
    requires Listing(list, trees, first) && i < j < |first|
    ensures first[i] + |list[i].children| <= first[j]
    decreases j
  {
    BlockOfChildren(list, trees, first, j - 1);
    assert BlockAt(trees, first, j);
    assert first[j] == Start(trees, first[..j]);
    if i < j - 1 {
      BlocksInOrder(list, trees, first, i, j - 1);
    }
  }

  lemma ListedOnce(list: seq<Node>, trees: seq<Tree>, first: seq<nat>, t: Tree)
    requires IsTree(t) && multiset(list) == multiset(Nodes(t))
    requires |first| == |list| && Listing(list, trees, first)
    ensures Listed(list, trees, first)
  {
    hide IsTree, Nodes, Shape, Start;
    OnceEach(list, t);
    forall j | 0 <= j < |list|
      ensures j < first[j] && first[j] + |list[j].children| <= |list|
      ensures list[first[j]..first[j] + |list[j].children|] == list[j].children
    {
      assert BlockAt(trees, first, j);
      BlockOfChildren(list, trees, first, j);
    }
    forall i, j | 0 <= i < j < |list|
      ensures first[i] + |list[i].children| <= first[j]
    {
      BlocksInOrder(list, trees, first, i, j);
    }
  }

  lemma KidAt(list: seq<Node>, trees: seq<Tree>, first: seq<nat>, j: nat, k: nat)
    requires Listed(list, trees, first) && j < |list| && k < |trees[j].kids|
    ensures |trees[j].kids| == |list[j].children|
    ensures j < first[j] + k < |list| && list[first[j] + k] == list[j].children[k] && trees[first[j] + k] == trees[j].kids[k]
  {
    BlockOfChildren(list, trees, first, j);
    assert BlockAt(trees, first, j);
    assert trees[first[j]..first[j] + |trees[j].kids|][k] == trees[first[j] + k];
    assert list[first[j]..first[j] + |trees[j].kids|][k] == list[first[j] + k];
  }

  lemma {:induction false} SumOfTotals(ts: seq<Tree>, n: nat)
    requires n <= |ts|
    ensures Sum(Totals(ts), n) == TotalOf(ts[..n])
  {
    if n > 0 {
      SumOfTotals(ts, n - 1);
      TotalAppend(ts[..n - 1], [ts[n - 1]]);
      assert ts[..n] == ts[..n - 1] + [ts[n - 1]];
      OneTotal(ts[n - 1]);
    }
  }

  lemma OneTotal(t: Tree)
    ensures TotalOf([t]) == Total(t)
  {
    assert [t][1..] == [];
  }

  /** The children of a node behind `i` have their final widths. */
  lemma ChildWidths(list: seq<Node>, trees: seq<Tree>, first: seq<nat>, i: nat)
    requires Listed(list, trees, first) && i < |list| && Measured(list, trees, i + 1)
    ensures Widths(list[i].children) == Totals(trees[i].kids)
    ensures list[i].weight + Sum(Widths(list[i].children), |list[i].children|) == Total(trees[i])
  {
    var cs, ts := list[i].children, trees[i].kids;
    BlockOfChildren(list, trees, first, i);
    forall k | 0 <= k < |ts|
      ensures cs[k].width == Total(ts[k])
    {
      KidAt(list, trees, first, i, k);
    }
    assert Widths(cs) == Totals(ts);
    SumOfTotals(ts, |ts|);
    assert ts[..|ts|] == ts;
  }

  ghost function Below(list: seq<Node>, i: nat): set<Node>
    requires i <= |list|
  {
    set j, c | i <= j < |list| && c in list[j].children :: c
  }

  ghost function Above(list: seq<Node>, i: nat): set<Node>
    requires i <= |list|
  {
    (set j | 0 <= j < i :: list[j]) + (set j, c | 0 <= j < i && c in list[j].children :: c)
  }

  /** From `i` on, all children have their offsets from the parent. */
  ghost predicate Arranged(list: seq<Node>, trees: seq<Tree>, i: nat)
    requires i <= |list| == |trees|
    reads Below(list, i)`offset
  {
    forall j :: i <= j < |list| ==> (BelowHas(list, i, j); At(list[j], trees[j], 0))
  }

  lemma BelowHas(list: seq<Node>, i: nat, j: nat)
    requires i <= j < |list|
    ensures forall c :: c in list[j].children ==> c in Below(list, i)
  {
  }

  lemma AboveHas(list: seq<Node>, i: nat, j: nat)
    requires j < i <= |list|
    ensures list[j] in Above(list, i)
    ensures forall c :: c in list[j].children ==> c in Above(list, i)
  {
  }

  /** Up to `i`, all children have their final places. */
  ghost predicate Moved(list: seq<Node>, trees: seq<Tree>, i: nat)
    requires i <= |list| == |trees|
    reads Above(list, i)`offset, Above(list, i)`depth
  {
    forall j :: 0 <= j < i ==> (AboveHas(list, i, j); At(list[j], trees[j], list[j].offset) && Deep(list[j], list[j].depth))
  }

  lemma OneStep(list: seq<Node>, trees: seq<Tree>, first: seq<nat>, i: nat, next: nat)
    requires Listed(list, trees, first) && i < |list| && next == i + 1
    ensures |list[i].children| == |trees[i].kids|
    ensures list[i] !in list[i].children && list[0] !in list[i].children
    ensures forall a, b :: 0 <= a < b < |list[i].children| ==> list[i].children[a] != list[i].children[b]
    ensures forall k :: 0 <= k < |list[i].children| ==> list[i].children[k] in list
    ensures forall k :: 0 <= k < |list[i].children| ==> list[i].children[k] !in Below(list, next)
    ensures forall k :: 0 <= k < |list[i].children| ==> list[i].children[k] !in Above(list, i)
    ensures list[i] !in list[next..]
    ensures forall c :: c in Below(list, next) ==> c in list
    ensures forall c :: c in Above(list, i) ==> c in list
  {
    hide Listing;
    forall c | c in Below(list, next) || c in Above(list, i)
      ensures c in list
    {
      if j :| 0 <= j < |list| && c in list[j].children {
        Child(list, first, j, c);
      }
    }
    KidsFit(list, trees, first, i);
    ParentsFirst(list, first, i, i);
    ParentsFirst(list, first, 0, i);
    ChildrenDiffer(list, first, i);
    forall c | c in list[i].children
      ensures c in list && c !in Below(list, next) && c !in Above(list, i)
    {
      Child(list, first, i, c);
      forall j | 0 <= j < |list| && j != i
        ensures c !in list[j].children
      {
        ChildrenApart(list, first, i, j, c);
      }
      forall j | 0 <= j < i
        ensures c != list[j]
      {
        ParentsFirst(list, first, j, i);
      }
    }
  }

  lemma KidsFit(list: seq<Node>, trees: seq<Tree>, first: seq<nat>, i: nat)
    requires Listed(list, trees, first) && i < |list|
    ensures |list[i].children| == |trees[i].kids|
  {
  }

  /** A node whose children have their widths. */
  method SizeOne(n: Node, ghost t: Tree)
    requires n !in n.children && |n.children| == |t.kids|
    requires forall a, b :: 0 <= a < b < |n.children| ==> n.children[a] != n.children[b]
    requires Widths(n.children) == Totals(t.kids) && n.weight + Sum(Widths(n.children), |n.children|) == Total(t)
    modifies n`width, n.children`offset
    ensures n.width == Total(t) && At(n, t, 0)
  {
    hide LeftOf, Total, Sum;
    ghost var w := Widths(n.children);
    Measure(n);
    WidthsStay(n.children, w);
    Arrange(n);
    WidthsStay(n.children, w);
  }

  /** The first loop: widths, and offsets from the parent, from the leaves up. */
  method SizeUp(list: seq<Node>, ghost trees: seq<Tree>, ghost first: seq<nat>)
    requires Listed(list, trees, first) && list != []
    modifies list`width, list`offset
    ensures Measured(list, trees, 0) && Arranged(list, trees, 0)
    ensures list[0].offset == old(list[0].offset)
  {
    hide Listing, Separate, At, LeftOf, Total, Sum, Below, Above, Measured, Arranged;
    var i: nat := |list|;
    NothingYet(list, trees);
    while i > 0
      invariant i <= |list|
      invariant Measured(list, trees, i) && Arranged(list, trees, i)
      invariant list[0].offset == old(list[0].offset)
    {
      ghost var next := i;
      i := i - 1;
      OneStep(list, trees, first, i, next);
      ChildWidths(list, trees, first, i);
      SizeOne(list[i], trees[i]);
      assert Measured(list, trees, next) && Arranged(list, trees, next);
      OneMoreSized(list, trees, i);
    }
  }

  lemma NothingYet(list: seq<Node>, trees: seq<Tree>)
    requires |list| == |trees|
    ensures Measured(list, trees, |list|) && Arranged(list, trees, |list|) && Moved(list, trees, 0)
  {
  }

  lemma OneMoreSized(list: seq<Node>, trees: seq<Tree>, i: nat)
    requires i < |list| == |trees|
    requires Measured(list, trees, i + 1) && Arranged(list, trees, i + 1)
    requires list[i].width == Total(trees[i]) && At(list[i], trees[i], 0)
    ensures Measured(list, trees, i) && Arranged(list, trees, i)
  {
    hide Total, At;
  }

  lemma OneMoreMoved(list: seq<Node>, trees: seq<Tree>, i: nat)
    requires i < |list| == |trees|
    requires Moved(list, trees, i) && At(list[i], trees[i], list[i].offset) && Deep(list[i], list[i].depth)
    ensures Moved(list, trees, i + 1)
  {
    hide At, Deep;
  }

  lemma FewerArranged(list: seq<Node>, trees: seq<Tree>, i: nat, next: nat)
    requires i < |list| == |trees| && next == i + 1 && Arranged(list, trees, i)
    ensures Arranged(list, trees, next) && At(list[i], trees[i], 0)
  {
    hide At;
  }

  /** A node that has its own final place. */
  method MoveOne(n: Node, ghost t: Tree)
    requires n !in n.children && At(n, t, 0)
    requires forall a, b :: 0 <= a < b < |n.children| ==> n.children[a] != n.children[b]
    modifies n.children`offset, n.children`depth
    ensures At(n, t, n.offset) && Deep(n, n.depth)
  {
    hide At, Deep, LeftOf, Totals;
    OffsetsAt(n, t);
    ghost var was := Offsets(n.children);
    Shift(n);
    ShiftedAt(n, t, was);
    Deepened(n);
  }

  /** The second loop: final offsets and depths, from the root down. */
  method MoveOut(list: seq<Node>, ghost trees: seq<Tree>, ghost first: seq<nat>)
    requires Listed(list, trees, first) && list != []
    requires Arranged(list, trees, 0)
    modifies list`offset, list`depth
    ensures Moved(list, trees, |list|)
    ensures list[0].offset == old(list[0].offset) && list[0].depth == old(list[0].depth)
  {
    hide Listing, Separate, At, Deep, LeftOf, Below, Above, Arranged, Moved, Totals;
    NothingYet(list, trees);
    var i: nat := 0;
    while i < |list|
      invariant i <= |list|
      invariant Moved(list, trees, i) && Arranged(list, trees, i)
      invariant list[0].offset == old(list[0].offset) && list[0].depth == old(list[0].depth)
    {
      ghost var next := i + 1;
      OneStep(list, trees, first, i, next);
      FewerArranged(list, trees, i, next);
      MoveOne(list[i], trees[i]);
      assert Moved(list, trees, i) && Arranged(list, trees, next);
      OneMoreMoved(list, trees, i);
      i := i + 1;
    }
  }

  ghost function Offsets(cs: seq<Node>): (o: seq<int>)
    reads cs`offset
    ensures |o| == |cs| && forall k :: 0 <= k < |cs| ==> o[k] == cs[k].offset
  {
    if cs == [] then [] else [cs[0].offset] + Offsets(cs[1..])
  }

  lemma OffsetsAt(n: Node, t: Tree)
    requires At(n, t, 0)
    ensures |n.children| == |t.kids| && forall k :: 0 <= k < |t.kids| ==> Offsets(n.children)[k] == LeftOf(Totals(t.kids), k)
  {
  }

  lemma ShiftedAt(n: Node, t: Tree, was: seq<int>)
    requires |n.children| == |t.kids| == |was|
    requires forall k :: 0 <= k < |t.kids| ==> was[k] == LeftOf(Totals(t.kids), k)
    requires forall k :: 0 <= k < |t.kids| ==> n.children[k].offset == was[k] + n.offset
    ensures At(n, t, n.offset)
  {
  }

  lemma Deepened(n: Node)
    requires forall c :: c in n.children ==> c.depth == n.depth + 1
    ensures Deep(n, n.depth)
  {
  }

  lemma KidPlace(list: seq<Node>, trees: seq<Tree>, first: seq<nat>, j: nat, k: nat)
    requires Listed(list, trees, first) && Moved(list, trees, |list|) && j < |list| && k < |trees[j].kids|
    ensures var m := first[j] + k;
            && j < m < |list| && trees[m] == trees[j].kids[k]
            && list[m].offset == list[j].offset + LeftOf(Totals(trees[j].kids), k) && list[m].depth == list[j].depth + 1
  {
    hide Listing, Separate, LeftOf, Totals;
    KidAt(list, trees, first, j, k);
  }

  lemma WidthAtEach(list: seq<Node>, trees: seq<Tree>, j: nat)
    requires j < |list| == |trees| && Measured(list, trees, 0)
    ensures list[j].width == Total(trees[j])
  {
  }

  /** Locally right everywhere is right as a whole. */
  lemma {:induction false} PlacedAt(list: seq<Node>, trees: seq<Tree>, first: seq<nat>, j: nat)
    requires Listed(list, trees, first) && j < |list| && Measured(list, trees, 0) && Moved(list, trees, |list|)
    ensures Placed(trees[j], list[j].offset, list[j].depth)
    decreases |list| - j
  {
    hide Listing, Separate, LeftOf, Total, Totals, Measured, Moved;
    var t := trees[j];
    ListedNode(list, trees, first, j);
    WidthAtEach(list, trees, j);
    forall k | 0 <= k < |t.kids|
      ensures Placed(t.kids[k], list[j].offset + LeftOf(Totals(t.kids), k), list[j].depth + 1)
    {
      hide Placed;
      KidPlace(list, trees, first, j, k);
      PlacedAt(list, trees, first, first[j] + k);
    }
  }

  lemma ListedNode(list: seq<Node>, trees: seq<Tree>, first: seq<nat>, j: nat)
    requires Listed(list, trees, first) && j < |list|
    ensures list[j] == trees[j].node && |trees[j].kids| == |list[j].children|
  {
  }

  /** The two loops place the tree as the recursive description does; the root stays where it is. */
  method Layout(root: Node, ghost t: Tree)
    requires IsTree(t) && t.node == root
    modifies Members(t)
    ensures Placed(t, old(root.offset), old(root.depth))
  {
    hide Listing, Separate, Nodes, Shape, Start, Placed, Measured, Arranged, Moved, Members;
    ghost var trees, first;
    var list;
    list, trees, first := Subtree(root, t);
    ListedOnce(list, trees, first, t);
    ListedNode(list, trees, first, 0);
    AllMembers(list, t);
    SizeUp(list, trees, first);
    MoveOut(list, trees, first);
    PlacedAt(list, trees, first, 0);
  }

  lemma AllMembers(list: seq<Node>, t: Tree)
    requires multiset(list) == multiset(Nodes(t))
    ensures forall n :: n in list ==> n in Members(t)
  {
    forall n | n in list
      ensures n in Members(t)
    {
      assert n in multiset(list);
    }
  }

  // ---------------------------------------------------------------- what a picture needs

  predicate NonNegative(t: Tree) {
    t.node.weight >= 0 && forall k :: 0 <= k < |t.kids| ==> NonNegative(t.kids[k])
  }

  lemma {:induction false} TotalsNonNegative(ts: seq<Tree>)
    requires forall k :: 0 <= k < |ts| ==> NonNegative(ts[k])
    ensures TotalOf(ts) >= 0 && forall k :: 0 <= k < |ts| ==> Total(ts[k]) >= 0
  {
    if ts != [] {
      TotalsNonNegative(ts[0].kids);
      TotalsNonNegative(ts[1..]);
      forall k | 0 <= k < |ts|
        ensures Total(ts[k]) >= 0
      {
        if k > 0 {
          assert ts[1..][k - 1] == ts[k];
        }
      }
    }
  }

  /** Every node's children lie inside it and do not overlap, all the way down. */
  ghost predicate Nested(t: Tree)
    reads Members(t)
  {
    MembersBelow(t);
    MembersAtTop(t);
    && (forall k :: 0 <= k < |t.kids| ==> Inside(t.kids[k].node, t.node) && Nested(t.kids[k]))
    && forall a, b :: 0 <= a < b < |t.kids| ==> Apart(t.kids[a].node, t.kids[b].node)
  }

  lemma MembersAtTop(t: Tree)
    ensures forall k :: 0 <= k < |t.kids| ==> t.kids[k].node in Members(t)
  {
    forall k | 0 <= k < |t.kids|
      ensures t.kids[k].node in Members(t)
    {
      MembersBelow(t);
      MembersBelow(t.kids[k]);
    }
  }

  ghost predicate Inside(c: Node, n: Node)
    reads c, n
  {
    n.offset <= c.offset && c.offset + c.width <= n.offset + n.width
  }

  ghost predicate Apart(a: Node, b: Node)
    reads a, b
  {
    a.offset + a.width <= b.offset || b.offset + b.width <= a.offset
  }

  lemma PlacedKid(t: Tree, offset: int, depth: int, k: nat)
    requires Placed(t, offset, depth) && k < |t.kids|
    ensures Placed(t.kids[k], offset + LeftOf(Totals(t.kids), k), depth + 1)
    ensures t.kids[k].node.offset == offset + LeftOf(Totals(t.kids), k) && t.kids[k].node.width == Totals(t.kids)[k]
    ensures t.node.offset == offset && t.node.width == t.node.weight + Sum(Totals(t.kids), |t.kids|)
  {
    hide LeftOf;
    SumOfTotals(t.kids, |t.kids|);
    assert t.kids[..|t.kids|] == t.kids;
  }

  lemma KidInside(t: Tree, offset: int, depth: int, k: nat)
    requires Placed(t, offset, depth) && NonNegative(t) && k < |t.kids|
    ensures Inside(t.kids[k].node, t.node)
  {
    hide Placed;
    TotalsNonNegative(t.kids);
    PlacedKid(t, offset, depth, k);
    LeftFits(Totals(t.kids), k, |t.kids|);
  }

  lemma KidsApart(t: Tree, offset: int, depth: int, a: nat, b: nat)
    requires Placed(t, offset, depth) && NonNegative(t) && a < |t.kids| && b < |t.kids| && a != b
    ensures Apart(t.kids[a].node, t.kids[b].node)
  {
    hide Placed;
    TotalsNonNegative(t.kids);
    PlacedKid(t, offset, depth, a);
    PlacedKid(t, offset, depth, b);
    var w := Totals(t.kids);
    if Precedes(w, a, b) {
      LeftGrows(w, a, b, |w|);
    } else {
      LeftGrows(w, b, a, |w|);
    }
  }

  lemma {:induction false} PlacedIsNested(t: Tree, offset: int, depth: int)
    requires Placed(t, offset, depth) && NonNegative(t)
    ensures Nested(t)
  {
    hide Placed, Totals, LeftOf, Inside, Apart;
    forall k | 0 <= k < |t.kids|
      ensures Inside(t.kids[k].node, t.node) && Nested(t.kids[k])
    {
      KidInside(t, offset, depth, k);
      PlacedKid(t, offset, depth, k);
      PlacedIsNested(t.kids[k], offset + LeftOf(Totals(t.kids), k), depth + 1);
    }
    forall a, b | 0 <= a < b < |t.kids|
      ensures Apart(t.kids[a].node, t.kids[b].node)
    {
      KidsApart(t, offset, depth, a, b);
    }
  }

  // ---------------------------------------------------------------- the order of siblings in the picture

  /** Where nothing comes between two, the left parts differ by the one in front. */
  lemma {:induction false} LeftSplits(w: seq<int>, a: nat, b: nat, n: nat)
    requires a < |w| && b < |w| && n <= |w|
    requires forall m :: 0 <= m < |w| ==> (Precedes(w, m, b) <==> m == a || Precedes(w, m, a))
    ensures LeftAmong(w, b, n) == LeftAmong(w, a, n) + if a < n then w[a] else 0
  {
    if n > 0 {
      LeftSplits(w, a, b, n - 1);
    }
  }

  lemma {:induction false} NothingLeft(w: seq<int>, b: nat, n: nat)
    requires b < |w| && n <= |w| && forall m :: 0 <= m < |w| ==> !Precedes(w, m, b)
    ensures LeftAmong(w, b, n) == 0
  {
    if n > 0 {
      NothingLeft(w, b, n - 1);
    }
  }

  /** Is the `i`-th child to come before the `j`-th: is it wider, or as wide and added before it? */
  ghost predicate Wider(t: Tree, i: nat, j: nat)
    requires i < |t.kids| && j < |t.kids|
    reads Members(t)
  {
    MembersAtTop(t);
    var a, b := t.kids[i].node, t.kids[j].node;
    a.width > b.width || (a.width == b.width && i < j)
  }

  lemma WiderPrecedes(t: Tree, offset: int, depth: int)
    requires Placed(t, offset, depth)
    ensures forall i, j :: 0 <= i < |t.kids| && 0 <= j < |t.kids| ==> (Wider(t, i, j) <==> Precedes(Totals(t.kids), i, j))
  {
    forall i, j | 0 <= i < |t.kids| && 0 <= j < |t.kids|
      ensures Wider(t, i, j) <==> Precedes(Totals(t.kids), i, j)
    {
      PlacedKid(t, offset, depth, i);
      PlacedKid(t, offset, depth, j);
    }
  }

  /** The widest child starts where its parent does, and every other where the next wider one ends. */
  lemma SiblingsInOrder(t: Tree, offset: int, depth: int, a: nat, b: nat)
    requires Placed(t, offset, depth) && a < |t.kids| && b < |t.kids|
    ensures (forall m :: 0 <= m < |t.kids| ==> !Wider(t, m, b)) ==> t.kids[b].node.offset == t.node.offset
    ensures Wider(t, a, b) && (forall m :: 0 <= m < |t.kids| ==> !(Wider(t, a, m) && Wider(t, m, b))) ==>
              t.kids[b].node.offset == t.kids[a].node.offset + t.kids[a].node.width
  {
    WiderPrecedes(t, offset, depth);
    PlacedKid(t, offset, depth, a);
    PlacedKid(t, offset, depth, b);
    hide Placed, Wider;
    var w := Totals(t.kids);
    if forall m :: 0 <= m < |t.kids| ==> !Wider(t, m, b) {
      NothingLeft(w, b, |w|);
    }
    if Wider(t, a, b) && (forall m :: 0 <= m < |t.kids| ==> !(Wider(t, a, m) && Wider(t, m, b))) {
      forall m | 0 <= m < |w|
        ensures Precedes(w, m, b) <==> m == a || Precedes(w, m, a)
      {
        assert !(Wider(t, a, m) && Wider(t, m, b));
      }
      LeftSplits(w, a, b, |w|);
    }
  }
}
