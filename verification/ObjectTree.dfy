/** The tree that a heap graph is drawn from: objects sorted into nodes that are told apart by their names. */
module ObjectTrees {
  import opened Basics

  type Path = seq<string>

  /** An object of the heap, as far as the tree is concerned. */
  datatype Item = Item(address: string, size: nat, cat: nat)

  /** The children are those of a dictionary, in insertion order. */
  datatype Tree = Tree(name: string, count: nat, size: nat, objects: seq<Item>, categories: set<nat>, kids: seq<Tree>)

  function Empty(name: string): Tree {
    Tree(name, 0, 0, [], {}, [])
  }

  // ---------------------------------------------------------------- totals

  function Count(t: Tree): nat {
    t.count + CountOf(t.kids)
  }

  function CountOf(ts: seq<Tree>): nat {
    if ts == [] then 0 else Count(ts[0]) + CountOf(ts[1..])
  }

  function Size(t: Tree): nat {
    t.size + SizeOf(t.kids)
  }

  function SizeOf(ts: seq<Tree>): nat {
    if ts == [] then 0 else Size(ts[0]) + SizeOf(ts[1..])
  }

  function Items(t: Tree): seq<Item> {
    t.objects + ItemsOf(t.kids)
  }

  function ItemsOf(ts: seq<Tree>): seq<Item> {
    if ts == [] then [] else Items(ts[0]) + ItemsOf(ts[1..])
  }

  function Bytes(items: seq<Item>): nat {
    if items == [] then 0 else items[0].size + Bytes(items[1..])
  }

  /** Every node's own counters are those of its objects, and no two of its children have one name. */
  predicate Sound(t: Tree) {
    && t.count == |t.objects| && t.size == Bytes(t.objects)
    && (forall i, j :: 0 <= i < j < |t.kids| ==> t.kids[i].name != t.kids[j].name)
    && forall i :: 0 <= i < |t.kids| ==> Sound(t.kids[i])
  }

  lemma {:induction false} BytesAppend(a: seq<Item>, b: seq<Item>)
    ensures Bytes(a + b) == Bytes(a) + Bytes(b)
  {
    if a == [] {
      assert a + b == b;
    } else {
      BytesAppend(a[1..], b);
      assert (a + b)[1..] == a[1..] + b;
    }
  }

  lemma {:induction false} BytesPermutation(a: seq<Item>, b: seq<Item>)
    requires multiset(a) == multiset(b)
    ensures Bytes(a) == Bytes(b)
  {
    if a == [] {
      assert |b| == |multiset(b)| == 0;
    } else {
      assert a[0] in multiset(b);
      var i :| 0 <= i < |b| && b[i] == a[0];
      var left, right := b[..i], b[i + 1..];
      assert b == left + ([b[i]] + right);
      assert a == [a[0]] + a[1..];
      TakenOut(a[0], a[1..], left, right);
      BytesPermutation(a[1..], left + right);
      BytesAppend(left, right);
      BytesAppend(left, [b[i]] + right);
    }
  }

  /** The totals of a sound tree are those of its objects. */
  lemma {:induction false} TotalsAreItems(t: Tree)
    requires Sound(t)
    ensures Count(t) == |Items(t)| && Size(t) == Bytes(Items(t))
  {
    TotalsOfItems(t.kids);
    BytesAppend(t.objects, ItemsOf(t.kids));
  }

  lemma {:induction false} TotalsOfItems(ts: seq<Tree>)
    requires forall i :: 0 <= i < |ts| ==> Sound(ts[i])
    ensures CountOf(ts) == |ItemsOf(ts)| && SizeOf(ts) == Bytes(ItemsOf(ts))
  {
    if ts != [] {
      TotalsAreItems(ts[0]);
      TotalsOfItems(ts[1..]);
      BytesAppend(Items(ts[0]), ItemsOf(ts[1..]));
    }
  }

  // ---------------------------------------------------------------- nodes by their paths

  /** Where the child of this name is, or the number of children. */
  function IndexOf(kids: seq<Tree>, name: string): (i: nat)
    ensures i <= |kids| && (i < |kids| ==> kids[i].name == name)
    ensures forall k :: 0 <= k < i ==> kids[k].name != name
  {
    if kids == [] || kids[0].name == name then 0 else 1 + IndexOf(kids[1..], name)
  }

  predicate Has(t: Tree, path: Path)
    decreases path
  {
    path == [] ||
    var i := IndexOf(t.kids, path[0]);
    i < |t.kids| && Has(t.kids[i], path[1..])
  }

  function At(t: Tree, path: Path): Tree
    requires Has(t, path)
    decreases path
  {
    if path == [] then t else At(t.kids[IndexOf(t.kids, path[0])], path[1..])
  }

  /** `child` along a path: what is missing is created. */
  function Grown(t: Tree, path: Path): Tree
    decreases path
  {
    if path == [] then t
    else
      var i := IndexOf(t.kids, path[0]);
      if i < |t.kids| then t.(kids := t.kids[i := Grown(t.kids[i], path[1..])])
      else t.(kids := t.kids + [Grown(Empty(path[0]), path[1..])])
  }

  /** An object more in a node. */
  function Added(t: Tree, path: Path, item: Item): Tree
    requires Has(t, path)
    decreases path
  {
    if path == [] then t.(count := t.count + 1, size := t.size + item.size, objects := t.objects + [item])
    else
      var i := IndexOf(t.kids, path[0]);
      t.(kids := t.kids[i := Added(t.kids[i], path[1..], item)])
  }

  lemma {:induction false} ItemsReplaced(ts: seq<Tree>, i: nat, t: Tree, more: multiset<Item>)
    requires i < |ts| && multiset(Items(t)) == multiset(Items(ts[i])) + more
    ensures multiset(ItemsOf(ts[i := t])) == multiset(ItemsOf(ts)) + more
  {
    if i == 0 {
      assert ts[i := t][1..] == ts[1..];
    } else {
      ItemsReplaced(ts[1..], i - 1, t, more);
      assert ts[i := t][1..] == ts[1..][i - 1 := t];
    }
  }

  lemma {:induction false} ItemsAppend(a: seq<Tree>, b: seq<Tree>)
    ensures ItemsOf(a + b) == ItemsOf(a) + ItemsOf(b)
  {
    hide Items;
    if a == [] {
      assert a + b == b;
    } else {
      ItemsAppend(a[1..], b);
      assert (a + b)[1..] == a[1..] + b;
      JoinItems(Items(a[0]), ItemsOf(a[1..]), ItemsOf(b));
    }
  }

  lemma JoinItems(a: seq<Item>, b: seq<Item>, c: seq<Item>)
    ensures (a + b) + c == a + (b + c)
  {
  }

  /** Creating nodes adds no object, */
  lemma {:induction false} GrownKeepsItems(t: Tree, path: Path)
    ensures multiset(Items(Grown(t, path))) == multiset(Items(t))
    ensures Grown(t, path).name == t.name
    decreases path
  {
    if path != [] {
      var i := IndexOf(t.kids, path[0]);
      if i < |t.kids| {
        GrownKeepsItems(t.kids[i], path[1..]);
        ItemsReplaced(t.kids, i, Grown(t.kids[i], path[1..]), multiset{});
      } else {
        var leaf := Grown(Empty(path[0]), path[1..]);
        GrownKeepsItems(Empty(path[0]), path[1..]);
        ItemsAppend(t.kids, [leaf]);
        SingleItems(leaf);
        SingleItems(Empty(path[0]));
      }
    }
  }

  lemma SingleItems(t: Tree)
    ensures ItemsOf([t]) == Items(t)
    ensures t.objects == [] && t.kids == [] ==> Items(t) == []
  {
    assert [t][1..] == [];
  }

  lemma {:induction false} AddedAddsItem(t: Tree, path: Path, item: Item)
    requires Has(t, path)
    ensures multiset(Items(Added(t, path, item))) == multiset(Items(t)) + multiset{item}
    ensures Added(t, path, item).name == t.name
    decreases path
  {
    if path != [] {
      var i := IndexOf(t.kids, path[0]);
      AddedAddsItem(t.kids[i], path[1..], item);
      ItemsReplaced(t.kids, i, Added(t.kids[i], path[1..], item), multiset{item});
    }
  }

  lemma {:induction false} GrownIsSound(t: Tree, path: Path)
    requires Sound(t)
    ensures Sound(Grown(t, path))
    decreases path
  {
    if path != [] {
      var i := IndexOf(t.kids, path[0]);
      if i < |t.kids| {
        GrownIsSound(t.kids[i], path[1..]);
        GrownKeepsItems(t.kids[i], path[1..]);
      } else {
        GrownIsSound(Empty(path[0]), path[1..]);
        GrownKeepsItems(Empty(path[0]), path[1..]);
      }
    }
  }

  lemma {:induction false} AddedIsSound(t: Tree, path: Path, item: Item)
    requires Sound(t) && Has(t, path)
    ensures Sound(Added(t, path, item))
    decreases path
  {
    if path == [] {
      BytesAppend(t.objects, [item]);
    } else {
      var i := IndexOf(t.kids, path[0]);
      AddedIsSound(t.kids[i], path[1..], item);
      AddedAddsItem(t.kids[i], path[1..], item);
    }
  }

  lemma {:induction false} IndexSame(kids: seq<Tree>, i: nat, t: Tree, name: string)
    requires i < |kids| && t.name == kids[i].name
    ensures IndexOf(kids[i := t], name) == IndexOf(kids, name)
  {
    if i == 0 {
      assert kids[i := t][1..] == kids[1..];
    } else {
      IndexSame(kids[1..], i - 1, t, name);
      assert kids[i := t][1..] == kids[1..][i - 1 := t];
    }
  }

  lemma {:induction false} IndexAppend(kids: seq<Tree>, t: Tree, name: string)
    ensures var i := IndexOf(kids, name); IndexOf(kids + [t], name) == if i == |kids| && t.name != name then i + 1 else i
  {
    if kids == [] {
      assert [t][1..] == [];
      assert kids + [t] == [t];
    } else {
      IndexAppend(kids[1..], t, name);
      assert (kids + [t])[1..] == kids[1..] + [t];
    }
  }

  /** What the node of this path holds, if there is one. */
  function Held(t: Tree, path: Path): seq<Item> {
    if Has(t, path) then At(t, path).objects else []
  }

  /** and leaves what every node holds. */
  lemma {:induction false} GrownKeepsNodes(t: Tree, path: Path, q: Path)
    ensures Has(t, q) ==> Has(Grown(t, path), q)
    ensures Held(Grown(t, path), q) == Held(t, q)
    decreases path
  {
    if path != [] && q != [] {
      var i := IndexOf(t.kids, path[0]);
      if i < |t.kids| {
        GrownKeepsNodes(t.kids[i], path[1..], q[1..]);
        GrownKeepsItems(t.kids[i], path[1..]);
        IndexSame(t.kids, i, Grown(t.kids[i], path[1..]), q[0]);
      } else {
        var leaf := Grown(Empty(path[0]), path[1..]);
        GrownKeepsNodes(Empty(path[0]), path[1..], q[1..]);
        GrownKeepsItems(Empty(path[0]), path[1..]);
        IndexAppend(t.kids, leaf, q[0]);
        NothingHeld(path[0], q[1..]);
      }
    }
  }

  lemma NothingHeld(name: string, q: Path)
    ensures Held(Empty(name), q) == []
  {
    if q != [] {
      assert IndexOf(Empty(name).kids, q[0]) == 0;
    }
  }

  lemma {:induction false} GrownHas(t: Tree, path: Path)
    ensures Has(Grown(t, path), path)
    decreases path
  {
    if path != [] {
      var i := IndexOf(t.kids, path[0]);
      if i < |t.kids| {
        GrownHas(t.kids[i], path[1..]);
        GrownKeepsItems(t.kids[i], path[1..]);
        IndexSame(t.kids, i, Grown(t.kids[i], path[1..]), path[0]);
      } else {
        GrownHas(Empty(path[0]), path[1..]);
        GrownKeepsItems(Empty(path[0]), path[1..]);
        IndexAppend(t.kids, Grown(Empty(path[0]), path[1..]), path[0]);
      }
    }
  }

  lemma {:induction false} AddedHolds(t: Tree, path: Path, item: Item, q: Path)
    requires Has(t, path)
    ensures Has(t, q) ==> Has(Added(t, path, item), q)
    ensures Held(Added(t, path, item), q) == Held(t, q) + if q == path then [item] else []
    decreases path
  {
    if path != [] && q != [] {
      var i := IndexOf(t.kids, path[0]);
      AddedHolds(t.kids[i], path[1..], item, q[1..]);
      AddedAddsItem(t.kids[i], path[1..], item);
      IndexSame(t.kids, i, Added(t.kids[i], path[1..], item), q[0]);
      SamePath(path, q);
    }
  }

  lemma SamePath(p: Path, q: Path)
    requires p != [] && q != []
    ensures p == q <==> p[0] == q[0] && p[1..] == q[1..]
  {
    if p[0] == q[0] && p[1..] == q[1..] {
      assert p == [p[0]] + p[1..] == [q[0]] + q[1..] == q;
    }
  }

  /** No categories have been noted yet. */
  ghost predicate Unnoted(t: Tree) {
    t.categories == {} && forall i :: 0 <= i < |t.kids| ==> Unnoted(t.kids[i])
  }

  lemma {:induction false} GrownIsUnnoted(t: Tree, path: Path)
    requires Unnoted(t)
    ensures Unnoted(Grown(t, path))
    decreases path
  {
    if path != [] {
      var i := IndexOf(t.kids, path[0]);
      if i < |t.kids| {
        GrownIsUnnoted(t.kids[i], path[1..]);
      } else {
        GrownIsUnnoted(Empty(path[0]), path[1..]);
      }
    }
  }

  lemma {:induction false} AddedIsUnnoted(t: Tree, path: Path, item: Item)
    requires Unnoted(t) && Has(t, path)
    ensures Unnoted(Added(t, path, item))
    decreases path
  {
    if path != [] {
      AddedIsUnnoted(t.kids[IndexOf(t.kids, path[0])], path[1..], item);
    }
  }
}
