/** The ordered, mutable set that holds one vertex's edges: removal leaves a tombstone behind. */
module ConstraintLists {
  import opened Basics

  /** A vertex of the constraint graph. */
  datatype Vertex = Type(ty: nat) | Pack(tp: nat) | Cons(c: nat)

  ghost predicate NoDuplicates(s: seq<Vertex>) {
    forall i, j :: 0 <= i < j < |s| ==> s[i] != s[j]
  }

  /** The entries of `order` from `i` on that are present: what an iterator standing at `i` has yet to yield. */
  ghost function Listed(order: seq<Vertex>, present: map<Vertex, bool>, i: nat): seq<Vertex>
    requires i <= |order|
    decreases |order| - i
  {
    if i == |order| then []
    else if order[i] in present && present[order[i]] then [order[i]] + Listed(order, present, i + 1)
    else Listed(order, present, i + 1)
  }

  lemma {:induction false} ListedIsFilter(order: seq<Vertex>, present: map<Vertex, bool>, i: nat)
    requires i <= |order| && NoDuplicates(order)
    ensures forall v :: v in Listed(order, present, i) <==> v in order[i..] && v in present && present[v]
    ensures NoDuplicates(Listed(order, present, i))
    decreases |order| - i
  {
    if i < |order| {
      ListedIsFilter(order, present, i + 1);
      assert order[i..] == [order[i]] + order[i + 1..];
    }
  }

  /** An iteration over `all` has come to rest at `i`, with the vertices in `done` behind it. */
  ghost predicate Iterating(order: seq<Vertex>, present: map<Vertex, bool>, i: nat, done: set<Vertex>, all: set<Vertex>) {
    && i <= |order| && (i < |order| ==> order[i] in present && present[order[i]])
    && all == done + set v | v in Listed(order, present, i)
  }

  /** One vertex has been dealt with and the iterator has moved on. */
  lemma IterationAdvances(
      order: seq<Vertex>, present: map<Vertex, bool>, i: nat, i': nat, done: set<Vertex>, all: set<Vertex>)
    requires Iterating(order, present, i, done, all) && i < |order| && RestsAt(order, present, i + 1, i')
    ensures Iterating(order, present, i', done + {order[i]}, all) && i < i'
  {
    assert Listed(order, present, i) == [order[i]] + Listed(order, present, i + 1);
  }

  lemma IterationEnds(order: seq<Vertex>, present: map<Vertex, bool>, i: nat, done: set<Vertex>, all: set<Vertex>)
    requires Iterating(order, present, i, done, all)
    ensures i == |order| ==> done == all
    ensures i < |order| ==> order[i] in all
    ensures i <= |order|
  {
    if i < |order| {
      assert order[i] in Listed(order, present, i);
    }
  }

  /** From `i` an iterator comes to rest at `j`: on the next member, or at the end. */
  ghost predicate RestsAt(order: seq<Vertex>, present: map<Vertex, bool>, i: nat, j: nat) {
    && i <= j <= |order| && Listed(order, present, j) == Listed(order, present, i)
    && (j < |order| ==> order[j] in present && present[order[j]])
  }

  lemma {:induction false} ListedAppend(order: seq<Vertex>, present: map<Vertex, bool>, i: nat, v: Vertex)
    requires i <= |order| && v !in order
    ensures Listed(order + [v], present[v := true], i) == Listed(order, present, i) + [v]
    decreases |order| - i
  {
    if i == |order| {
      assert Listed(order + [v], present[v := true], i + 1) == [];
    } else {
      ListedAppend(order, present, i + 1, v);
    }
  }

  lemma AppendFresh(s: seq<Vertex>, v: Vertex)
    requires NoDuplicates(s) && v !in s
    ensures NoDuplicates(s + [v]) && forall u :: u in s + [v] <==> u in s || u == v
  {
  }

  class ConstraintList {
    var order: seq<Vertex>
    var present: map<Vertex, bool>
    var entries: nat
    /** The set this list stands for. */
    ghost var members: set<Vertex>
    /** Whose edges these are, and in which direction. */
    ghost const owner: Vertex
    ghost const reverse: bool

    ghost predicate Valid()
      reads this
    {
      && NoDuplicates(order)
      && (forall v :: v in order <==> v in present)
      && (forall v :: v in members <==> v in present && present[v])
      && entries == |members|
    }

    /** Everything an iteration from the beginning yields. */
    ghost function Contents(): (s: seq<Vertex>)
      reads this
    {
      Listed(order, present, 0)
    }

    constructor (ghost owner: Vertex, ghost reverse: bool)
      ensures Valid() && members == {} && order == []
      ensures this.owner == owner && this.reverse == reverse
    {
      order, present, entries, members := [], map[], 0, {};
      this.owner, this.reverse := owner, reverse;
    }

    predicate Contains(v: Vertex)
      requires Valid()
      reads this
      ensures Contains(v) == (v in members)
    {
      v in present && present[v]
    }

    /** Inserting a member changes nothing; a vertex seen before keeps the place it was first given. */
    method Insert(v: Vertex)
      requires Valid()
      modifies this
      ensures Valid() && members == old(members) + {v}
      ensures order == if v in old(order) then old(order) else old(order) + [v]
      ensures v in old(members) ==> order == old(order) && present == old(present)
      ensures v !in old(order) ==> Contents() == old(Contents()) + [v]
    {
      if v !in present {
        present := present[v := true];
        order := order + [v];
        entries := entries + 1;
        members := members + {v};
        assert Contents() == old(Contents()) + [v] by {
          ListedAppend(old(order), old(present), 0, v);
        }
        AppendFresh(old(order), v);
      } else if !present[v] {
        present := present[v := true];
        entries := entries + 1;
        members := members + {v};
      }
    }

    method Remove(v: Vertex)
      requires Valid()
      modifies this
      ensures Valid() && members == old(members) - {v} && order == old(order)
    {
      if v in present {
        if present[v] {
          assert v in members;
          entries := entries - 1;
        }
        present := present[v := false];
        members := members - {v};
      }
    }

    function Size(): (n: nat)
      requires Valid()
      reads this
      ensures n == |members| && (n == 0 <==> members == {})
    {
      entries
    }

    method Clear()
      modifies this
      ensures Valid() && members == {} && order == []
    {
      order, present, entries, members := [], map[], 0, {};
    }

    /** `advanceUntilPresentOrEnd`, for an iterator at `i`. */
    method AdvanceUntilPresentOrEnd(i: nat) returns (index: nat)
      requires Valid() && i <= |order|
      ensures RestsAt(order, present, i, index) && i <= index <= |order|
    {
      index := i;
      while index < |order| && !Contains(order[index])
        invariant i <= index <= |order|
        invariant Listed(order, present, i) == Listed(order, present, index)
      {
        index := index + 1;
      }
    }
  }

  lemma IterationStarts(l: ConstraintList, i: nat)
    requires l.Valid() && RestsAt(l.order, l.present, 0, i)
    ensures Iterating(l.order, l.present, i, {}, l.members)
  {
    assert l.order[0..] == l.order;
    ListedIsFilter(l.order, l.present, 0);
  }

  /** A full iteration visits every member exactly once. */
  lemma ContentsAreMembers(l: ConstraintList)
    requires l.Valid()
    ensures forall v :: v in l.Contents() <==> v in l.members
    ensures NoDuplicates(l.Contents()) && |l.Contents()| == l.entries
  {
    assert l.order[0..] == l.order;
    ListedIsFilter(l.order, l.present, 0);
    assert l.members == set v | v in l.Contents();
    DistinctCount(l.Contents());
  }

  lemma {:induction false} DistinctCount(s: seq<Vertex>)
    requires NoDuplicates(s)
    ensures |s| == |set v | v in s|
  {
    if s != [] {
      var rest := s[1..];
      DistinctCount(rest);
      assert (set v | v in s) == {s[0]} + set v | v in rest;
    }
  }
}
