/** Splitting the tree of a heap graph by memory category. */
module HeapCategories {
  import opened Basics
  import opened ObjectTrees

  // ---------------------------------------------------------------- objects of a category

  function InCategory(items: seq<Item>, cat: nat): (picked: seq<Item>)
    ensures forall item :: item in picked ==> item in items && item.cat == cat
  {
    if items == [] then []
    else InCategory(items[..|items| - 1], cat) + if items[|items| - 1].cat == cat then [items[|items| - 1]] else []
  }

  /** The number and the bytes of the objects whose category is below `n`. */
  function CountBelow(items: seq<Item>, n: nat): nat {
    if n == 0 then 0 else CountBelow(items, n - 1) + |InCategory(items, n - 1)|
  }

  function BytesBelow(items: seq<Item>, n: nat): nat {
    if n == 0 then 0 else BytesBelow(items, n - 1) + Bytes(InCategory(items, n - 1))
  }

  lemma {:induction false} PickedAppend(a: seq<Item>, b: seq<Item>, cat: nat)
    ensures InCategory(a + b, cat) == InCategory(a, cat) + InCategory(b, cat)
  {
    if b == [] {
      assert a + b == a;
    } else {
      var n := |b| - 1;
      PickedAppend(a, b[..n], cat);
      assert (a + b)[..|a + b| - 1] == a + b[..n];
      JoinItems(InCategory(a, cat), InCategory(b[..n], cat), if b[n].cat == cat then [b[n]] else []);
    }
  }

  lemma {:induction false} PickedIff(items: seq<Item>, cat: nat)
    ensures InCategory(items, cat) == [] <==> forall item :: item in items ==> item.cat != cat
  {
    if items != [] {
      PickedIff(items[..|items| - 1], cat);
      assert items == items[..|items| - 1] + [items[|items| - 1]];
    }
  }

  predicate AllBelow(items: seq<Item>, n: nat) {
    forall item :: item in items ==> item.cat < n
  }

  lemma AllBelowStep(items: seq<Item>, item: Item, n: nat)
    ensures AllBelow(items + [item], n) <==> AllBelow(items, n) && item.cat < n
  {
    assert item in items + [item];
    assert forall x :: x in items ==> x in items + [item];
  }

  /** Together the categories have all objects, if none lies above. */
  lemma {:induction false} BelowIsAll(items: seq<Item>, n: nat)
    ensures CountBelow(items, n) <= |items|
    ensures CountBelow(items, n) == |items| <==> AllBelow(items, n)
    ensures AllBelow(items, n) ==> BytesBelow(items, n) == Bytes(items)
  {
    hide AllBelow, CountBelow, BytesBelow, Bytes;
    if items == [] {
      NothingBelow(n);
    } else {
      var k := |items| - 1;
      BelowIsAll(items[..k], n);
      assert items == items[..k] + [items[k]];
      OneMoreBelow(items[..k], items[k], items, n);
      AllBelowStep(items[..k], items[k], n);
      assert items == items[..k] + [items[k]];
      BytesAppend(items[..k], [items[k]]);
      OneItem(items[k]);
    }
  }

  lemma OneItem(item: Item)
    ensures Bytes([item]) == item.size
  {
    assert [item][1..] == [];
  }

  lemma {:induction false} NothingBelow(n: nat)
    ensures CountBelow([], n) == 0 && BytesBelow([], n) == 0
    ensures Bytes([]) == 0 && AllBelow([], n)
  {
    if n > 0 {
      NothingBelow(n - 1);
    }
  }

  lemma {:induction false} OneMoreBelow(items: seq<Item>, item: Item, longer: seq<Item>, n: nat)
    requires longer == items + [item]
    ensures CountBelow(longer, n) == CountBelow(items, n) + if item.cat < n then 1 else 0
    ensures BytesBelow(longer, n) == BytesBelow(items, n) + if item.cat < n then item.size else 0
  {
    hide Bytes, InCategory;
    if n > 0 {
      OneMoreBelow(items, item, longer, n - 1);
      PickedOne(items, item, n - 1);
    }
  }

  lemma PickedOne(items: seq<Item>, item: Item, cat: nat)
    ensures |InCategory(items + [item], cat)| == |InCategory(items, cat)| + if item.cat == cat then 1 else 0
    ensures Bytes(InCategory(items + [item], cat)) == Bytes(InCategory(items, cat)) + if item.cat == cat then item.size else 0
  {
    hide Bytes;
    var longer := items + [item];
    assert longer[..|longer| - 1] == items;
    assert InCategory(longer, cat) == InCategory(items, cat) + if item.cat == cat then [item] else [];
    if item.cat == cat {
      BytesAppend(InCategory(items, cat), [item]);
      OneItem(item);
    } else {
      assert InCategory(longer, cat) == InCategory(items, cat);
    }
  }

  // ---------------------------------------------------------------- the categories below a node

  function Recat(item: Item, start: nat): Item {
    item.(cat := if item.cat < start then 0 else item.cat)
  }

  function Recategorised(items: seq<Item>, start: nat): (r: seq<Item>)
    ensures |r| == |items|
  {
    if items == [] then [] else Recategorised(items[..|items| - 1], start) + [Recat(items[|items| - 1], start)]
  }

  lemma {:induction false} RecategorisedAt(items: seq<Item>, start: nat, i: nat)
    requires i < |items|
    ensures Recategorised(items, start)[i] == Recat(items[i], start)
  {
    if i < |items| - 1 {
      RecategorisedAt(items[..|items| - 1], start, i);
    }
  }

  lemma {:induction false} RecategorisedAppend(a: seq<Item>, b: seq<Item>, start: nat)
    ensures Recategorised(a + b, start) == Recategorised(a, start) + Recategorised(b, start)
  {
    if b == [] {
      assert a + b == a;
    } else {
      var n := |b| - 1;
      RecategorisedAppend(a, b[..n], start);
      assert (a + b)[..|a + b| - 1] == a + b[..n];
      JoinItems(Recategorised(a, start), Recategorised(b[..n], start), [Recat(b[n], start)]);
    }
  }

  function Categories(items: seq<Item>): set<nat> {
    set item | item in items :: item.cat
  }

  function CategoriesOf(kids: seq<Tree>): set<nat> {
    if kids == [] then {} else CategoriesOf(kids[..|kids| - 1]) + kids[|kids| - 1].categories
  }

  function Annotated(t: Tree, start: nat): Tree {
    var objects, kids := Recategorised(t.objects, start), AnnotatedAll(t.kids, start);
    t.(objects := objects, categories := t.categories + Categories(objects) + CategoriesOf(kids), kids := kids)
  }

  function AnnotatedAll(ts: seq<Tree>, start: nat): (r: seq<Tree>)
    ensures |r| == |ts|
  {
    if ts == [] then [] else AnnotatedAll(ts[..|ts| - 1], start) + [Annotated(ts[|ts| - 1], start)]
  }

  lemma {:induction false} AnnotatedAt(ts: seq<Tree>, start: nat, i: nat)
    requires i < |ts|
    ensures AnnotatedAll(ts, start)[i] == Annotated(ts[i], start)
  {
    hide Annotated;
    if i < |ts| - 1 {
      AnnotatedAt(ts[..|ts| - 1], start, i);
    }
  }

  method AnnotateObjects(list: seq<Item>, start: nat, before: set<nat>) returns (objects: seq<Item>, categories: set<nat>)
    ensures objects == Recategorised(list, start) && categories == before + Categories(objects)
  {
    objects, categories := [], before;
    var i := 0;
    while i < |list|
      invariant 0 <= i <= |list|
      invariant objects == Recategorised(list[..i], start)
      invariant categories == before + Categories(objects)
    {
      var obj := list[i];
      if obj.cat < start {
        obj := obj.(cat := 0);
      }
      assert list[..i + 1][..i] == list[..i];
      OneCategory(obj);
      CategoriesAppend(objects, [obj]);
      categories := categories + {obj.cat};
      objects := objects + [obj];
      i := i + 1;
    }
    assert list[..i] == list;
  }

  lemma OneCategory(item: Item)
    ensures Categories([item]) == {item.cat}
  {
    assert [item][0] == item;
  }

  method AnnotateContainedCategories(t: Tree, start: nat) returns (r: Tree)
    ensures r == Annotated(t, start)
    decreases t
  {
    hide Recategorised, Categories;
    var objects, categories := AnnotateObjects(t.objects, start, t.categories);
    ghost var own := categories;
    var kids: seq<Tree> := [];
    var c := 0;
    while c < |t.kids|
      invariant 0 <= c <= |t.kids|
      invariant kids == AnnotatedAll(t.kids[..c], start)
      invariant categories == own + CategoriesOf(kids)
    {
      hide Annotated;
      var child := AnnotateContainedCategories(t.kids[c], start);
      assert t.kids[..c + 1][..c] == t.kids[..c];
      assert (kids + [child])[..c] == kids;
      kids := kids + [child];
      categories := categories + child.categories;
      c := c + 1;
    }
    assert t.kids[..c] == t.kids;
    r := t.(objects := objects, categories := categories, kids := kids);
  }

  /** The categories noted at a node are those of the objects in its subtree, all the way down. */
  ghost predicate Noted(t: Tree) {
    t.categories == Categories(Items(t)) && forall i :: 0 <= i < |t.kids| ==> Noted(t.kids[i])
  }

  lemma CategoriesAppend(a: seq<Item>, b: seq<Item>)
    ensures Categories(a + b) == Categories(a) + Categories(b)
  {
  }

  lemma {:induction false} NotedKids(kids: seq<Tree>)
    requires forall i :: 0 <= i < |kids| ==> Noted(kids[i])
    ensures CategoriesOf(kids) == Categories(ItemsOf(kids))
  {
    if kids != [] {
      var n := |kids| - 1;
      NotedKids(kids[..n]);
      assert kids == kids[..n] + [kids[n]];
      ItemsAppend(kids[..n], [kids[n]]);
      SingleItems(kids[n]);
      CategoriesAppend(ItemsOf(kids[..n]), Items(kids[n]));
    }
  }

  lemma {:induction false} AnnotatedIsNoted(t: Tree, start: nat)
    requires Unnoted(t)
    ensures Noted(Annotated(t, start))
  {
    hide Recategorised, Categories;
    var r := Annotated(t, start);
    forall i | 0 <= i < |t.kids|
      ensures Noted(r.kids[i])
    {
      AnnotatedIsNoted(t.kids[i], start);
      AnnotatedAt(t.kids, start, i);
    }
    NotedKids(r.kids);
    CategoriesAppend(r.objects, ItemsOf(r.kids));
  }

  /** No object is lost or moved, and none changes but for a category below `start`, which becomes 0. */
  lemma {:induction false} AnnotatedKeepsItems(t: Tree, start: nat)
    ensures Items(Annotated(t, start)) == Recategorised(Items(t), start)
  {
    hide Recategorised, Categories;
    AnnotatedAllKeepItems(t.kids, start);
    RecategorisedAppend(t.objects, ItemsOf(t.kids), start);
  }

  lemma {:induction false} AnnotatedAllKeepItems(ts: seq<Tree>, start: nat)
    ensures ItemsOf(AnnotatedAll(ts, start)) == Recategorised(ItemsOf(ts), start)
  {
    if ts != [] {
      hide Recategorised, Annotated;
      var n := |ts| - 1;
      AnnotatedAllKeepItems(ts[..n], start);
      AnnotatedKeepsItems(ts[n], start);
      LastItems(ts);
      RecategorisedAppend(ItemsOf(ts[..n]), Items(ts[n]), start);
      ItemsAppend(AnnotatedAll(ts[..n], start), [Annotated(ts[n], start)]);
      SingleItems(Annotated(ts[n], start));
    }
  }

  lemma LastItems(ts: seq<Tree>)
    requires ts != []
    ensures ItemsOf(ts) == ItemsOf(ts[..|ts| - 1]) + Items(ts[|ts| - 1])
  {
    hide Items;
    var n := |ts| - 1;
    assert ts == ts[..n] + [ts[n]];
    ItemsAppend(ts[..n], [ts[n]]);
    SingleItems(ts[n]);
  }

  lemma {:induction false} AnnotatedIsSound(t: Tree, start: nat)
    requires Sound(t)
    ensures Sound(Annotated(t, start)) && Annotated(t, start).name == t.name
  {
    hide Categories, CategoriesOf;
    RecategorisedBytes(t.objects, start);
    var r := Annotated(t, start);
    forall i | 0 <= i < |t.kids|
      ensures Sound(r.kids[i]) && r.kids[i].name == t.kids[i].name
    {
      AnnotatedIsSound(t.kids[i], start);
      AnnotatedAt(t.kids, start, i);
    }
  }

  /** What the search leaves can be filtered once it is annotated. */
  lemma AnnotatedIsUsable(t: Tree, start: nat)
    requires Sound(t) && Unnoted(t)
    ensures Usable(Annotated(t, start))
    ensures |Items(Annotated(t, start))| == |Items(t)| && Bytes(Items(Annotated(t, start))) == Bytes(Items(t))
  {
    hide Annotated, Recategorised;
    AnnotatedIsNoted(t, start);
    AnnotatedIsSound(t, start);
    AnnotatedKeepsItems(t, start);
    RecategorisedBytes(Items(t), start);
  }

  lemma {:induction false} RecategorisedBytes(items: seq<Item>, start: nat)
    ensures Bytes(Recategorised(items, start)) == Bytes(items)
  {
    if items != [] {
      hide Bytes;
      var n := |items| - 1;
      RecategorisedBytes(items[..n], start);
      assert items == items[..n] + [items[n]];
      BytesAppend(items[..n], [items[n]]);
      BytesAppend(Recategorised(items[..n], start), [Recat(items[n], start)]);
      OneItem(items[n]);
      OneItem(Recat(items[n], start));
    }
  }

  // ---------------------------------------------------------------- one category

  /** `children[t.name] = t`. */
  function Put(kids: seq<Tree>, t: Tree): seq<Tree> {
    var i := IndexOf(kids, t.name);
    if i < |kids| then kids[i := t] else kids + [t]
  }

  function Filtered(t: Tree, cat: nat): Option<Tree> {
    var own, kids := InCategory(t.objects, cat), FilteredAll(t.kids, cat);
    if kids != [] || own != [] then Some(Tree(t.name, |own|, Bytes(own), [], {}, kids)) else None
  }

  function FilteredAll(ts: seq<Tree>, cat: nat): seq<Tree> {
    if ts == [] then []
    else
      var last, kids := ts[|ts| - 1], FilteredAll(ts[..|ts| - 1], cat);
      if cat in last.categories && Filtered(last, cat).Some? then Put(kids, Filtered(last, cat).value) else kids
  }

  /** The objects of a node in the category, counted again. */
  method Recount(objects: seq<Item>, cat: nat) returns (count: nat, size: nat)
    ensures count == |InCategory(objects, cat)| && size == Bytes(InCategory(objects, cat))
  {
    hide InCategory, Bytes;
    count, size := 0, 0;
    NonePicked(cat);
    var i := 0;
    while i < |objects|
      invariant 0 <= i <= |objects|
      invariant count == |InCategory(objects[..i], cat)| && size == Bytes(InCategory(objects[..i], cat))
    {
      PickedOne(objects[..i], objects[i], cat);
      assert objects[..i + 1] == objects[..i] + [objects[i]];
      if objects[i].cat == cat {
        count := count + 1;
        size := size + objects[i].size;
      }
      i := i + 1;
    }
    assert objects[..i] == objects;
  }

  lemma NonePicked(cat: nat)
    ensures |InCategory([], cat)| == 0 && Bytes(InCategory([], cat)) == 0
  {
  }

  method FilteredTreeForCategory(t: Tree, cat: nat) returns (result: Option<Tree>)
    ensures result == Filtered(t, cat)
    decreases t
  {
    hide InCategory, Bytes, Put;
    var kids: seq<Tree> := [];
    var c := 0;
    while c < |t.kids|
      invariant 0 <= c <= |t.kids|
      invariant kids == FilteredAll(t.kids[..c], cat)
    {
      hide Filtered;
      assert t.kids[..c + 1][..c] == t.kids[..c];
      if cat in t.kids[c].categories {
        var filtered := FilteredTreeForCategory(t.kids[c], cat);
        if filtered.Some? {
          kids := Put(kids, filtered.value);
        }
      }
      c := c + 1;
    }
    assert t.kids[..c] == t.kids;
    var count, size := Recount(t.objects, cat);
    if |kids| != 0 || count != 0 {
      result := Some(Tree(t.name, count, size, [], {}, kids));
    } else {
      result := None;
    }
  }

  lemma {:induction false} CountAppend(a: seq<Tree>, b: seq<Tree>)
    ensures CountOf(a + b) == CountOf(a) + CountOf(b) && SizeOf(a + b) == SizeOf(a) + SizeOf(b)
  {
    hide Count, Size;
    if a == [] {
      assert a + b == b;
    } else {
      CountAppend(a[1..], b);
      assert (a + b)[1..] == a[1..] + b;
    }
  }

  lemma CountOne(t: Tree)
    ensures CountOf([t]) == Count(t) && SizeOf([t]) == Size(t)
  {
    assert [t][1..] == [];
  }

  lemma CountMiddle(left: seq<Tree>, t: Tree, right: seq<Tree>)
    ensures CountOf(left + ([t] + right)) == CountOf(left) + Count(t) + CountOf(right)
    ensures SizeOf(left + ([t] + right)) == SizeOf(left) + Size(t) + SizeOf(right)
  {
    hide Count, Size, CountOf, SizeOf;
    CountAppend(left, [t] + right);
    CountAppend([t], right);
    CountOne(t);
  }

  /** A new name adds to the totals; a name that is there takes the place of what it had. */
  lemma PutTotals(kids: seq<Tree>, t: Tree)
    ensures var i := IndexOf(kids, t.name);
            && CountOf(Put(kids, t)) == CountOf(kids) + Count(t) - (if i < |kids| then Count(kids[i]) else 0)
            && SizeOf(Put(kids, t)) == SizeOf(kids) + Size(t) - (if i < |kids| then Size(kids[i]) else 0)
  {
    hide Count, Size, CountOf, SizeOf;
    var i := IndexOf(kids, t.name);
    if i < |kids| {
      CountMiddle(kids[..i], kids[i], kids[i + 1..]);
      CountMiddle(kids[..i], t, kids[i + 1..]);
      SplitAt(kids, i, t);
    } else {
      CountAppend(kids, [t]);
      CountOne(t);
    }
  }

  lemma SplitAt(kids: seq<Tree>, i: nat, t: Tree)
    requires i < |kids|
    ensures kids == kids[..i] + ([kids[i]] + kids[i + 1..])
    ensures kids[i := t] == kids[..i] + ([t] + kids[i + 1..])
  {
  }

  ghost predicate Usable(t: Tree) {
    Sound(t) && Noted(t)
  }

  /** The names among these trees. */
  ghost function Names(ts: seq<Tree>): set<string> {
    set t | t in ts :: t.name
  }

  /**
   * The tree of a category has the objects of that category, node by node, and there is one exactly if the category is
   * not empty.
   */
  lemma {:induction false} FilteredCounts(t: Tree, cat: nat)
    requires Usable(t)
    ensures FilteredRight(t, cat, InCategory(Items(t), cat))
    decreases t, 1
  {
    hide InCategory, Bytes, FilteredAll, Put;
    FilteredAllCount(t.kids, cat);
    PickedAppend(t.objects, ItemsOf(t.kids), cat);
    BytesAppend(InCategory(t.objects, cat), InCategory(ItemsOf(t.kids), cat));
  }

  ghost predicate FilteredRight(t: Tree, cat: nat, own: seq<Item>) {
    && (Filtered(t, cat).Some? <==> own != [])
    && (Filtered(t, cat).Some? ==>
          var f := Filtered(t, cat).value; Count(f) == |own| && Size(f) == Bytes(own) && f.name == t.name)
  }

  ghost predicate TotalsRight(kids: seq<Tree>, own: seq<Item>) {
    CountOf(kids) == |own| && SizeOf(kids) == Bytes(own) && (kids == [] <==> own == [])
  }

  lemma {:induction false} FilteredAllCount(ts: seq<Tree>, cat: nat)
    requires forall i :: 0 <= i < |ts| ==> Usable(ts[i])
    requires forall i, j :: 0 <= i < j < |ts| ==> ts[i].name != ts[j].name
    ensures TotalsRight(FilteredAll(ts, cat), InCategory(ItemsOf(ts), cat))
    ensures Names(FilteredAll(ts, cat)) <= Names(ts)
    decreases ts, 0
  {
    if ts == [] {
      NonePicked(cat);
    } else {
      FilteredAllStep(ts, cat);
      hide InCategory, Usable, Put, Names, Items, ItemsOf, TotalsRight, FilteredRight, Filtered, FilteredAll;
      var n := |ts| - 1;
      FilteredAllCount(ts[..n], cat);
      FilteredCounts(ts[n], cat);
      LastItems(ts);
      PickedAppend(ItemsOf(ts[..n]), Items(ts[n]), cat);
      LastName(ts);
      OneMoreKid(FilteredAll(ts[..n], cat), ts[n], cat, Names(ts[..n]), InCategory(ItemsOf(ts[..n]), cat));
    }
  }

  lemma FilteredAllStep(ts: seq<Tree>, cat: nat)
    requires ts != []
    ensures var last, kids := ts[|ts| - 1], FilteredAll(ts[..|ts| - 1], cat);
            FilteredAll(ts, cat) ==
              if cat in last.categories && Filtered(last, cat).Some? then Put(kids, Filtered(last, cat).value) else kids
  {
    hide Put, Filtered;
  }

  lemma OneMoreKid(kids: seq<Tree>, t: Tree, cat: nat, names: set<string>, own: seq<Item>)
    requires Usable(t) && FilteredRight(t, cat, InCategory(Items(t), cat)) && TotalsRight(kids, own)
    requires Names(kids) <= names && t.name !in names
    ensures var more := if cat in t.categories && Filtered(t, cat).Some? then Put(kids, Filtered(t, cat).value) else kids;
            TotalsRight(more, own + InCategory(Items(t), cat)) && Names(more) <= names + {t.name}
  {
    hide InCategory, Usable, Put, Names, Items, Filtered, CountOf, SizeOf, Count, Size, Bytes;
    BytesAppend(own, InCategory(Items(t), cat));
    CategoryIsNoted(t, cat);
    NothingIsNothing();
    if Filtered(t, cat).Some? {
      PutNew(kids, Filtered(t, cat).value, names);
    }
  }

  lemma NothingIsNothing()
    ensures Bytes([]) == 0
  {
  }

  lemma CategoryIsNoted(t: Tree, cat: nat)
    requires Usable(t)
    ensures cat in t.categories <==> InCategory(Items(t), cat) != []
  {
    hide InCategory;
    PickedIff(Items(t), cat);
  }

  lemma LastName(ts: seq<Tree>)
    requires ts != [] && forall i, j :: 0 <= i < j < |ts| ==> ts[i].name != ts[j].name
    ensures ts[|ts| - 1].name !in Names(ts[..|ts| - 1])
    ensures Names(ts) == Names(ts[..|ts| - 1]) + {ts[|ts| - 1].name}
  {
    var n := |ts| - 1;
    assert ts == ts[..n] + [ts[n]];
    assert forall i :: 0 <= i < n ==> ts[..n][i] == ts[i];
    assert ts[n] in ts;
  }

  lemma NewName(kids: seq<Tree>, name: string)
    ensures IndexOf(kids, name) == |kids| <==> name !in Names(kids)
  {
    assert forall i :: 0 <= i < |kids| ==> kids[i] in kids && kids[i].name in Names(kids);
  }

  /** Putting a tree under a new name. */
  lemma PutNew(kids: seq<Tree>, t: Tree, names: set<string>)
    requires Names(kids) <= names && t.name !in names
    ensures CountOf(Put(kids, t)) == CountOf(kids) + Count(t) && SizeOf(Put(kids, t)) == SizeOf(kids) + Size(t)
    ensures Put(kids, t) != [] && Names(Put(kids, t)) == Names(kids) + {t.name}
  {
    hide Count, Size, CountOf, SizeOf;
    NewName(kids, t.name);
    PutTotals(kids, t);
    assert t in kids + [t] by { assert (kids + [t])[|kids|] == t; }
  }

  function CountAt(t: Tree, path: Path): nat {
    if Has(t, path) then At(t, path).count else 0
  }

  lemma SnocIndex(ts: seq<Tree>, name: string)
    requires ts != []
    ensures var n := |ts| - 1; var i := IndexOf(ts[..n], name);
            IndexOf(ts, name) == if i < n then i else if ts[n].name == name then n else n + 1
  {
    var n := |ts| - 1;
    assert ts == ts[..n] + [ts[n]];
    IndexAppend(ts[..n], ts[n], name);
  }

  /** The child of a name in the tree of a category is the filtered child of that name. */
  lemma {:induction false} FilteredKid(ts: seq<Tree>, cat: nat, name: string)
    requires forall i :: 0 <= i < |ts| ==> Usable(ts[i])
    requires forall i, j :: 0 <= i < j < |ts| ==> ts[i].name != ts[j].name
    ensures var i, all := IndexOf(ts, name), FilteredAll(ts, cat);
            var k := IndexOf(all, name);
            && (k < |all| <==> i < |ts| && Filtered(ts[i], cat).Some?)
            && (k < |all| ==> all[k] == Filtered(ts[i], cat).value)
  {
    if ts != [] {
      hide Usable, Filtered, Put;
      FilteredKid(ts[..|ts| - 1], cat, name);
      LastKid(ts, cat);
      SnocIndex(ts, name);
      var last := Filtered(ts[|ts| - 1], cat);
      if last.Some? {
        IndexAppend(FilteredAll(ts[..|ts| - 1], cat), last.value, name);
      }
    }
  }

  lemma LastKid(ts: seq<Tree>, cat: nat)
    requires ts != [] && forall i :: 0 <= i < |ts| ==> Usable(ts[i])
    requires forall i, j :: 0 <= i < j < |ts| ==> ts[i].name != ts[j].name
    ensures var n := |ts| - 1; var last, kids := Filtered(ts[n], cat), FilteredAll(ts[..n], cat);
            && IndexOf(ts[..n], ts[n].name) == n
            && (last.Some? ==> last.value.name == ts[n].name)
            && FilteredAll(ts, cat) == (if last.Some? then kids + [last.value] else kids)
            && (last.Some? ==> IndexOf(kids, ts[n].name) == |kids|)
  {
    hide Usable, Filtered, Names, Put, Items, InCategory, TotalsRight;
    var n := |ts| - 1;
    var kids := FilteredAll(ts[..n], cat);
    FilteredAllCount(ts[..n], cat);
    FilteredCounts(ts[n], cat);
    CategoryIsNoted(ts[n], cat);
    LastName(ts);
    NewName(kids, ts[n].name);
    NewName(ts[..n], ts[n].name);
    if Filtered(ts[n], cat).Some? {
      PutIsAppend(kids, Filtered(ts[n], cat).value);
    }
  }

  lemma PutIsAppend(kids: seq<Tree>, t: Tree)
    requires IndexOf(kids, t.name) == |kids|
    ensures Put(kids, t) == kids + [t]
  {
  }

  /** Node by node the tree of a category has the objects of that category. */
  lemma {:induction false} FilteredAt(t: Tree, cat: nat, path: Path)
    requires Usable(t) && Filtered(t, cat).Some?
    ensures CountAt(Filtered(t, cat).value, path) == |InCategory(Held(t, path), cat)|
    decreases path
  {
    hide InCategory, FilteredAll;
    NonePicked(cat);
    if path != [] {
      var i := IndexOf(t.kids, path[0]);
      FilteredKid(t.kids, cat, path[0]);
      if i < |t.kids| {
        if Filtered(t.kids[i], cat).Some? {
          FilteredAt(t.kids[i], cat, path[1..]);
        } else {
          FilteredCounts(t.kids[i], cat);
          NoneHeld(t.kids[i], cat, path[1..]);
        }
      }
    }
  }

  lemma {:induction false} NoneHeld(t: Tree, cat: nat, path: Path)
    requires InCategory(Items(t), cat) == []
    ensures InCategory(Held(t, path), cat) == []
    decreases path
  {
    PickedIff(Items(t), cat);
    PickedIff(Held(t, path), cat);
    forall item | item in Held(t, path)
      ensures item in Items(t)
    {
      HeldAreItems(t, path, item);
    }
  }

  lemma {:induction false} HeldAreItems(t: Tree, path: Path, item: Item)
    requires item in Held(t, path)
    ensures item in Items(t)
    decreases path
  {
    if path != [] {
      var i := IndexOf(t.kids, path[0]);
      HeldAreItems(t.kids[i], path[1..], item);
      ItemsBelow(t.kids, i, item);
    }
  }

  lemma {:induction false} ItemsBelow(ts: seq<Tree>, i: nat, item: Item)
    requires i < |ts| && item in Items(ts[i])
    ensures item in ItemsOf(ts)
  {
    if i > 0 {
      ItemsBelow(ts[1..], i - 1, item);
    }
  }

  // ---------------------------------------------------------------- all categories

  /** Every category in use below `n` has a name. */
  ghost predicate NamedUpTo(t: Tree, names: map<nat, string>, n: nat) {
    forall i: nat :: i < n && Filtered(t, i).Some? ==> i in names
  }

  /** The children for the first `n` categories, each under the name of its category. */
  ghost function SplitUpTo(t: Tree, names: map<nat, string>, n: nat): seq<Tree>
    requires NamedUpTo(t, names, n)
  {
    if n == 0 then []
    else
      var kids, f := SplitUpTo(t, names, n - 1), Filtered(t, n - 1);
      if f.Some? then Put(kids, f.value.(name := names[n - 1])) else kids
  }

  method SplitIntoCategories(t: Tree, names: map<nat, string>) returns (result: Tree)
    requires NamedUpTo(t, names, 256)
    ensures result == Empty("").(kids := SplitUpTo(t, names, 256))
  {
    hide Filtered, Put;
    var kids: seq<Tree> := [];
    var i: nat := 0;
    while i < 256
      invariant i <= 256
      invariant kids == SplitUpTo(t, names, i)
    {
      var filtered := FilteredTreeForCategory(t, i);
      if filtered.Some? {
        kids := Put(kids, filtered.value.(name := names[i]));
      }
      i := i + 1;
    }
    result := Empty("").(kids := kids);
  }

  /** No two categories in use have one name. */
  ghost predicate NamesDiffer(t: Tree, names: map<nat, string>, n: nat)
    requires NamedUpTo(t, names, n)
  {
    forall i: nat, j: nat :: i < j < n && Filtered(t, i).Some? && Filtered(t, j).Some? ==> names[i] != names[j]
  }

  ghost predicate NameTaken(t: Tree, names: map<nat, string>, n: nat, name: string)
    requires NamedUpTo(t, names, n)
  {
    exists i: nat :: i < n && Filtered(t, i).Some? && names[i] == name
  }

  lemma DifferStep(t: Tree, names: map<nat, string>, n: nat)
    requires n > 0 && NamedUpTo(t, names, n) && NamedUpTo(t, names, n - 1)
    ensures NamesDiffer(t, names, n) <==>
              NamesDiffer(t, names, n - 1) && (Filtered(t, n - 1).Some? ==> !NameTaken(t, names, n - 1, names[n - 1]))
  {
    hide Filtered;
  }

  lemma TakenStep(t: Tree, names: map<nat, string>, n: nat, name: string)
    requires n > 0 && NamedUpTo(t, names, n)
    ensures NameTaken(t, names, n, name) <==>
              NameTaken(t, names, n - 1, name) || (Filtered(t, n - 1).Some? && names[n - 1] == name)
  {
    hide Filtered;
  }

  lemma PutNames(kids: seq<Tree>, t: Tree)
    ensures Names(Put(kids, t)) == Names(kids) + {t.name}
  {
    var i := IndexOf(kids, t.name);
    var r := Put(kids, t);
    forall name | name in Names(kids) + {t.name}
      ensures name in Names(r)
    {
      if name == t.name {
        assert r[i] == t && t in r;
      } else {
        var k :| 0 <= k < |kids| && kids[k].name == name;
        assert r[k] == kids[k] && kids[k] in r;
      }
    }
    forall name | name in Names(r)
      ensures name in Names(kids) + {t.name}
    {
      var k :| 0 <= k < |r| && r[k].name == name;
      if k != i {
        assert r[k] == kids[k] && kids[k] in kids;
      }
    }
  }

  ghost predicate AllCount(kids: seq<Tree>) {
    forall k :: 0 <= k < |kids| ==> Count(kids[k]) > 0
  }

  lemma PutCounts(kids: seq<Tree>, t: Tree)
    requires AllCount(kids) && Count(t) > 0
    ensures AllCount(Put(kids, t))
  {
    hide Count;
  }

  ghost predicate NamesAreTaken(t: Tree, names: map<nat, string>, n: nat, kids: seq<Tree>)
    requires NamedUpTo(t, names, n)
  {
    forall name :: name in Names(kids) <==> NameTaken(t, names, n, name)
  }

  /** The children after `n` categories: all that lies in these, unless one name hides the tree of another category. */
  ghost predicate SplitRight(t: Tree, names: map<nat, string>, n: nat, kids: seq<Tree>, items: seq<Item>)
    requires NamedUpTo(t, names, n)
  {
    && CountOf(kids) <= CountBelow(items, n)
    && (CountOf(kids) == CountBelow(items, n) <==> NamesDiffer(t, names, n))
    && (NamesDiffer(t, names, n) ==> SizeOf(kids) == BytesBelow(items, n))
    && AllCount(kids) && NamesAreTaken(t, names, n, kids)
  }

  lemma {:induction false} SplitTotals(t: Tree, names: map<nat, string>, n: nat)
    requires Usable(t) && NamedUpTo(t, names, n)
    ensures SplitRight(t, names, n, SplitUpTo(t, names, n), Items(t))
  {
    hide Usable, Filtered, Items, Put, Names, Count, CountOf, Size, SizeOf;
    if n == 0 {
      NothingSplit();
    } else {
      hide SplitRight, FilteredRight;
      NamedBefore(t, names, n);
      SplitTotals(t, names, n - 1);
      FilteredCounts(t, n - 1);
      if Filtered(t, n - 1).Some? {
        OneMoreCategory(t, names, n, SplitUpTo(t, names, n - 1), Items(t));
      } else {
        NoCategory(t, names, n, SplitUpTo(t, names, n - 1), Items(t));
      }
    }
  }

  lemma NamedBefore(t: Tree, names: map<nat, string>, n: nat)
    requires n > 0 && NamedUpTo(t, names, n)
    ensures NamedUpTo(t, names, n - 1) && (Filtered(t, n - 1).Some? ==> n - 1 in names)
  {
    hide Filtered;
  }

  lemma OneMoreCategory(t: Tree, names: map<nat, string>, n: nat, kids: seq<Tree>, items: seq<Item>)
    requires n > 0 && NamedUpTo(t, names, n) && NamedUpTo(t, names, n - 1) && n - 1 in names
    requires SplitRight(t, names, n - 1, kids, items)
    requires FilteredRight(t, n - 1, InCategory(items, n - 1)) && Filtered(t, n - 1).Some?
    ensures SplitRight(t, names, n, Put(kids, Filtered(t, n - 1).value.(name := names[n - 1])), items)
  {
    hide Filtered, Put, Names, Count, CountOf, Size, SizeOf, InCategory, Bytes;
    hide NamesDiffer, NameTaken, AllCount, NamesAreTaken, NamedUpTo;
    DifferStep(t, names, n);
    var f := Filtered(t, n - 1).value.(name := names[n - 1]);
    Renamed(Filtered(t, n - 1).value, names[n - 1]);
    PutTotals(kids, f);
    PutCounts(kids, f);
    OneMoreName(t, names, n, kids, f);
    HiddenCounts(kids, f.name);
  }

  lemma NoCategory(t: Tree, names: map<nat, string>, n: nat, kids: seq<Tree>, items: seq<Item>)
    requires n > 0 && NamedUpTo(t, names, n) && NamedUpTo(t, names, n - 1)
    requires SplitRight(t, names, n - 1, kids, items)
    requires FilteredRight(t, n - 1, InCategory(items, n - 1)) && Filtered(t, n - 1).None?
    ensures SplitRight(t, names, n, kids, items)
  {
    hide Filtered, Names, CountOf, SizeOf, NamesDiffer, NameTaken, AllCount, NamesAreTaken, InCategory, Bytes, NamedUpTo;
    DifferStep(t, names, n);
    NothingIsNothing();
    SameNames(t, names, n, kids);
  }

  lemma NothingSplit()
    ensures CountOf([]) == 0 && SizeOf([]) == 0 && Names([]) == {}
  {
  }

  lemma Renamed(t: Tree, name: string)
    ensures Count(t.(name := name)) == Count(t) && Size(t.(name := name)) == Size(t)
  {
  }

  lemma HiddenCounts(kids: seq<Tree>, name: string)
    requires AllCount(kids)
    ensures var i := IndexOf(kids, name); i < |kids| ==> Count(kids[i]) > 0
  {
  }

  lemma OneMoreName(t: Tree, names: map<nat, string>, n: nat, kids: seq<Tree>, f: Tree)
    requires n > 0 && NamedUpTo(t, names, n)
    requires Filtered(t, n - 1).Some? && f.name == names[n - 1] && NamesAreTaken(t, names, n - 1, kids)
    ensures NamesAreTaken(t, names, n, Put(kids, f))
    ensures IndexOf(kids, f.name) < |kids| <==> NameTaken(t, names, n - 1, f.name)
  {
    hide Filtered, Put, NameTaken, Names;
    PutNames(kids, f);
    NewName(kids, f.name);
    forall name
      ensures name in Names(Put(kids, f)) <==> NameTaken(t, names, n, name)
    {
      TakenStep(t, names, n, name);
    }
  }

  lemma SameNames(t: Tree, names: map<nat, string>, n: nat, kids: seq<Tree>)
    requires n > 0 && NamedUpTo(t, names, n)
    requires Filtered(t, n - 1).None? && NamesAreTaken(t, names, n - 1, kids)
    ensures NamesAreTaken(t, names, n, kids)
  {
    hide Filtered, NameTaken, Names;
    forall name
      ensures name in Names(kids) <==> NameTaken(t, names, n, name)
    {
      TakenStep(t, names, n, name);
    }
  }

  /**
   * The split tree has all objects of the tree if and only if every category is below 256 and no two categories in use
   * have one name; then it has all bytes too.
   */
  lemma SplitConserves(t: Tree, names: map<nat, string>)
    requires Usable(t) && NamedUpTo(t, names, 256)
    ensures var result := Empty("").(kids := SplitUpTo(t, names, 256));
            && Count(result) <= Count(t)
            && (Count(result) == Count(t) <==> AllBelow(Items(t), 256) && NamesDiffer(t, names, 256))
            && (Count(result) == Count(t) ==> Size(result) == Size(t))
  {
    hide Filtered, SplitUpTo, AllBelow, NamesDiffer, Items, Noted;
    SplitTotals(t, names, 256);
    BelowIsAll(Items(t), 256);
    TotalsAreItems(t);
    hide SplitUpTo, CountBelow, BytesBelow;
  }

  /** Among the categories in use below `n`, the last one of its name. */
  ghost predicate LastNamed(t: Tree, names: map<nat, string>, n: nat, i: nat)
    requires NamedUpTo(t, names, n)
  {
    i < n && Filtered(t, i).Some? && forall j: nat :: i < j < n && Filtered(t, j).Some? ==> names[j] != names[i]
  }

  lemma PutFinds(kids: seq<Tree>, t: Tree, name: string)
    ensures var r := Put(kids, t); var k := IndexOf(r, name);
            if name == t.name then k < |r| && r[k] == t
            else (k < |r| <==> IndexOf(kids, name) < |kids|) && (k < |r| ==> r[k] == kids[IndexOf(kids, name)])
  {
    var i := IndexOf(kids, t.name);
    if i < |kids| {
      IndexSame(kids, i, t, name);
    } else {
      IndexAppend(kids, t, name);
    }
  }

  /** Each name has the tree of the last category with that name. */
  lemma {:induction false} SplitHas(t: Tree, names: map<nat, string>, n: nat, i: nat)
    requires NamedUpTo(t, names, n) && LastNamed(t, names, n, i)
    ensures var kids := SplitUpTo(t, names, n); var k := IndexOf(kids, names[i]);
            k < |kids| && kids[k] == Filtered(t, i).value.(name := names[i])
  {
    hide Filtered, Put;
    var f := Filtered(t, n - 1);
    var kids := SplitUpTo(t, names, n - 1);
    if i < n - 1 {
      SplitHas(t, names, n - 1, i);
    }
    if f.Some? {
      PutFinds(kids, f.value.(name := names[n - 1]), names[i]);
    }
  }

  // ---------------------------------------------------------------- node by node

  lemma {:induction false} AnnotatedIndex(ts: seq<Tree>, start: nat, name: string)
    ensures IndexOf(AnnotatedAll(ts, start), name) == IndexOf(ts, name)
  {
    if ts != [] {
      var n := |ts| - 1;
      AnnotatedIndex(ts[..n], start, name);
      assert ts == ts[..n] + [ts[n]];
      IndexAppend(ts[..n], ts[n], name);
      IndexAppend(AnnotatedAll(ts[..n], start), Annotated(ts[n], start), name);
    }
  }

  /** No object moves to another node. */
  lemma {:induction false} AnnotatedHolds(t: Tree, start: nat, path: Path)
    ensures Has(Annotated(t, start), path) == Has(t, path)
    ensures Held(Annotated(t, start), path) == Recategorised(Held(t, path), start)
    decreases path
  {
    if path != [] {
      var i := IndexOf(t.kids, path[0]);
      AnnotatedIndex(t.kids, start, path[0]);
      if i < |t.kids| {
        AnnotatedAt(t.kids, start, i);
        AnnotatedHolds(t.kids[i], start, path[1..]);
      }
    }
  }

  /**
   * So the node at `path` below the name of a category, if that is the last category of its name, counts the objects at
   * `path` that are reported under the category.
   */
  lemma SplitNodeCounts(t: Tree, start: nat, names: map<nat, string>, i: nat, path: Path)
    requires Sound(t) && Unnoted(t) && NamedUpTo(Annotated(t, start), names, 256)
    requires LastNamed(Annotated(t, start), names, 256, i)
    ensures CountAt(Empty("").(kids := SplitUpTo(Annotated(t, start), names, 256)), [names[i]] + path) ==
              |InCategory(Recategorised(Held(t, path), start), i)|
  {
    hide Annotated, Filtered, SplitUpTo, InCategory, Recategorised, Held, Usable;
    var a := Annotated(t, start);
    var root := Empty("").(kids := SplitUpTo(a, names, 256));
    AnnotatedIsUsable(t, start);
    AnnotatedHolds(t, start, path);
    SplitHas(a, names, 256, i);
    FilteredAt(a, i, path);
    var k := IndexOf(root.kids, names[i]);
    NodeBelow(root, names[i], path);
    RenamedNode(Filtered(a, i).value, names[i], path);
  }

  lemma NodeBelow(t: Tree, name: string, path: Path)
    requires IndexOf(t.kids, name) < |t.kids|
    ensures CountAt(t, [name] + path) == CountAt(t.kids[IndexOf(t.kids, name)], path)
  {
    assert ([name] + path)[1..] == path;
  }

  lemma RenamedNode(t: Tree, name: string, path: Path)
    ensures CountAt(t.(name := name), path) == CountAt(t, path)
  {
  }
}
