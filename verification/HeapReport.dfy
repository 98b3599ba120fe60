/** From a heap snapshot to its tree split by category: the search, the categories, and the split in one. */
module HeapReports {
  import opened ObjectTrees
  import opened HeapSearches
  import opened HeapCategories

  /** The category that an object is reported under. */
  function CategoryOf(o: Object, start: nat): nat {
    if o.cat < start then 0 else o.cat
  }

  ghost predicate InUse(heap: Heap, objects: set<Address>, start: nat, cat: nat) {
    exists a :: a in objects && a in heap && CategoryOf(heap[a], start) == cat
  }

  ghost predicate AllListed(heap: Heap, objects: set<Address>, start: nat) {
    forall a :: a in objects && a in heap ==> CategoryOf(heap[a], start) < 256
  }

  /** The statistics have a name for every category in use. */
  ghost predicate HaveNames(heap: Heap, objects: set<Address>, start: nat, names: map<nat, string>) {
    forall cat: nat :: cat < 256 && InUse(heap, objects, start, cat) ==> cat in names
  }

  /** No two categories in use have one name. */
  ghost predicate HaveDistinctNames(heap: Heap, objects: set<Address>, start: nat, names: map<nat, string>)
    requires HaveNames(heap, objects, start, names)
  {
    forall i: nat, j: nat :: i < j < 256 && InUse(heap, objects, start, i) && InUse(heap, objects, start, j) ==>
      names[i] != names[j]
  }

  /**
   * The split tree never counts more than the new objects found, and it counts all of them if and only if every one is
   * reported under a category below 256 and no two categories in use have one name; then it has all their bytes.
   */
  ghost predicate Reported(heap: Heap, objects: set<Address>, start: nat, names: map<nat, string>, result: Tree)
    requires HaveNames(heap, objects, start, names)
  {
    && Count(result) <= |objects|
    && (Count(result) == |objects| <==> AllListed(heap, objects, start) && HaveDistinctNames(heap, objects, start, names))
    && (Count(result) == |objects| ==>
          forall list :: multiset(list) == multiset(NewItems(heap, {}, objects)) ==> Size(result) == Bytes(list))
  }

  lemma NewObjectsAreItems(heap: Heap, known: set<Address>, visited: set<Address>, root: Tree)
    requires Tallied(heap, known, visited, root) && visited <= heap.Keys
    ensures forall item :: item in Items(root) <==> exists a :: a in visited - known && item == ItemOf(heap, a)
  {
    hide Sound, Unnoted, Items;
    forall item
      ensures item in Items(root) <==> exists a :: a in visited - known && item == ItemOf(heap, a)
    {
      assert item in Items(root) <==> item in multiset(Items(root));
      assert item in NewItems(heap, known, visited) <==> item in multiset(NewItems(heap, known, visited));
    }
  }

  lemma InUseIff(heap: Heap, known: set<Address>, visited: set<Address>, root: Tree, start: nat, cat: nat)
    requires Tallied(heap, known, visited, root) && visited <= heap.Keys
    ensures (exists item :: item in Items(Annotated(root, start)) && item.cat == cat) <==>
              InUse(heap, visited - known, start, cat)
  {
    hide Tallied, Annotated, Items, Recategorised;
    NewObjectsAreItems(heap, known, visited, root);
    AnnotatedKeepsItems(root, start);
    var items := Items(root);
    var recat := Recategorised(items, start);
    if item :| item in recat && item.cat == cat {
      var i :| 0 <= i < |recat| && recat[i] == item;
      RecategorisedAt(items, start, i);
      assert items[i] in items;
    }
    if InUse(heap, visited - known, start, cat) {
      var a :| a in visited - known && CategoryOf(heap[a], start) == cat;
      assert ItemOf(heap, a) in items;
      var i :| 0 <= i < |items| && items[i] == ItemOf(heap, a);
      RecategorisedAt(items, start, i);
      assert recat[i] in recat;
    }
  }

  /** A category has a tree if and only if some new object is reported under it. */
  lemma HasTreeIff(heap: Heap, known: set<Address>, visited: set<Address>, root: Tree, start: nat, cat: nat)
    requires Tallied(heap, known, visited, root) && visited <= heap.Keys
    ensures Filtered(Annotated(root, start), cat).Some? <==> InUse(heap, visited - known, start, cat)
  {
    hide Annotated, Items, Filtered, InUse, Sound, Unnoted, Usable, InCategory;
    AnnotatedIsUsable(root, start);
    FilteredCounts(Annotated(root, start), cat);
    PickedIff(Items(Annotated(root, start)), cat);
    InUseIff(heap, known, visited, root, start, cat);
  }

  lemma NamesCarryOver(heap: Heap, known: set<Address>, visited: set<Address>, root: Tree, start: nat, names: map<nat, string>)
    requires Tallied(heap, known, visited, root) && visited <= heap.Keys
    requires HaveNames(heap, visited - known, start, names)
    ensures NamedUpTo(Annotated(root, start), names, 256)
    ensures NamesDiffer(Annotated(root, start), names, 256) <==> HaveDistinctNames(heap, visited - known, start, names)
  {
    hide Annotated, Filtered, InUse, Tallied;
    forall cat: nat
      ensures Filtered(Annotated(root, start), cat).Some? <==> InUse(heap, visited - known, start, cat)
    {
      HasTreeIff(heap, known, visited, root, start, cat);
    }
  }

  lemma AllListedIff(heap: Heap, known: set<Address>, visited: set<Address>, root: Tree, start: nat)
    requires Tallied(heap, known, visited, root) && visited <= heap.Keys
    ensures AllBelow(Items(Annotated(root, start)), 256) <==> AllListed(heap, visited - known, start)
  {
    hide Annotated, Items, Tallied;
    forall cat: nat
      ensures (exists item :: item in Items(Annotated(root, start)) && item.cat == cat) <==>
                InUse(heap, visited - known, start, cat)
    {
      InUseIff(heap, known, visited, root, start, cat);
    }
    if a :| a in visited - known && CategoryOf(heap[a], start) >= 256 {
      assert InUse(heap, visited - known, start, CategoryOf(heap[a], start));
    }
    if item :| item in Items(Annotated(root, start)) && item.cat >= 256 {
      assert InUse(heap, visited - known, start, item.cat);
    }
  }

  lemma SplitHasNewObjects(heap: Heap, known: set<Address>, visited: set<Address>, root: Tree, start: nat,
                           names: map<nat, string>)
    requires Tallied(heap, known, visited, root) && visited <= heap.Keys
    requires HaveNames(heap, visited - known, start, names)
    ensures NamedUpTo(Annotated(root, start), names, 256)
    ensures Reported(heap, visited - known, start, names, Empty("").(kids := SplitUpTo(Annotated(root, start), names, 256)))
  {
    NamesCarryOver(heap, known, visited, root, start, names);
    AllListedIff(heap, known, visited, root, start);
    SameItems(heap, known, visited);
    TotalsOfNewObjects(heap, known, visited, root, Items(root));
    forall list | multiset(list) == multiset(NewItems(heap, known, visited))
      ensures Size(root) == Bytes(list)
    {
      TotalsOfNewObjects(heap, known, visited, root, list);
    }
    AnnotatedIsUsable(root, start);
    TotalsAreItems(root);
    hide Annotated, SplitUpTo, AllBelow, NamesDiffer, AllListed, HaveDistinctNames, Items, NamedUpTo, Usable, HaveNames;
    hide NewItems, Tallied, Count, Size, Bytes;
    SplitConserves(Annotated(root, start), names);
    TotalsAreItems(Annotated(root, start));
  }

  lemma SameItems(heap: Heap, known: set<Address>, visited: set<Address>)
    ensures NewItems(heap, {}, visited - known) == NewItems(heap, known, visited)
  {
  }

  /** The objects that a chain of references leads to, unless an older snapshot knows them. */
  ghost function Found(heap: Heap, known: set<Address>, roots: seq<Root>): set<Address> {
    set a | a in heap && a !in known && Reachable(heap, roots, a)
  }

  /** The same, from the snapshot to the split tree. */
  method Report(heap: Heap, known: set<Address>, roots: seq<Root>, start: nat, names: map<nat, string>) returns (result: Tree)
    requires Complete(heap, roots) && HaveNames(heap, Found(heap, known, roots), start, names)
    ensures Reported(heap, Found(heap, known, roots), start, names, result)
  {
    hide Complete, Reachable, Tallied, Closed, Annotated, SplitUpTo, HaveNames, Reported;
    var search := new Search(heap, known, roots);
    search.Run();
    assert Found(heap, known, roots) == search.visited - known;
    SplitHasNewObjects(heap, known, search.visited, search.root, start, names);
    var annotated := AnnotateContainedCategories(search.root, start);
    result := SplitIntoCategories(annotated, names);
  }
}
