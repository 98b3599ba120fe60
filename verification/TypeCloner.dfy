/** Cloning of a cyclic graph of types: a worklist, a memo of what has been cloned, and a budget of steps. */
module TypeCloners {
  import opened Basics

  type NodeId = nat

  /** A type or type pack: what it is, the scope it points to if it has one, and the children the cloner visits. */
  datatype Node = Node(tag: nat, hasScope: bool, scope: Option<nat>, persistent: bool, children: seq<NodeId>)

  /** The source graph. `roots` leads from bound nodes to what they are bound to in the end. */
  datatype Source = Source(nodes: map<NodeId, Node>, roots: map<NodeId, NodeId>, force: Option<NodeId>) {

    function Follow(n: NodeId): NodeId {
      if n in roots then roots[n] else n
    }

    ghost predicate Valid() {
      && (forall n :: n in roots ==> roots[n] in nodes && roots[n] !in roots)
      && forall n, i :: n in nodes && 0 <= i < |nodes[n].children| ==> Follow(nodes[n].children[i]) in nodes
    }

    /** Persistent nodes are used as they are, except for the one whose cloning is forced. */
    ghost predicate Copied(n: NodeId) {
      n in nodes && n !in roots && !(nodes[n].persistent && force != Some(n))
    }

    /** With every node that is to be copied, the nodes it refers to that are to be copied. */
    ghost predicate Closed(s: set<NodeId>) {
      forall n, i :: n in s && n in nodes && 0 <= i < |nodes[n].children| && Copied(Follow(nodes[n].children[i])) ==>
        Follow(nodes[n].children[i]) in s
    }

    ghost predicate Covers(s: set<NodeId>, known: set<NodeId>, start: NodeId) {
      known <= s && Closed(s) && (Copied(Follow(start)) ==> Follow(start) in s)
    }

    /** What has to be copied for `start`, given what is known already: the least set covering both. */
    ghost function Needed(known: set<NodeId>, start: NodeId): set<NodeId> {
      set n | n in nodes.Keys + known && forall s: set<NodeId> :: Covers(s, known, start) ==> n in s
    }

    lemma NeededCovers(known: set<NodeId>, start: NodeId)
      requires Valid() && Follow(start) in nodes
      ensures Covers(Needed(known, start), known, start)
    {
      var least := Needed(known, start);
      forall n, i | n in least && n in nodes && 0 <= i < |nodes[n].children| && Copied(Follow(nodes[n].children[i]))
        ensures Follow(nodes[n].children[i]) in least
      {
        forall s: set<NodeId> | Covers(s, known, start)
          ensures Follow(nodes[n].children[i]) in s
        {
          assert n in s;
        }
      }
    }

    lemma NeededIsLeast(known: set<NodeId>, start: NodeId, s: set<NodeId>)
      requires Covers(s, known, start)
      ensures Needed(known, start) <= s
    {
    }

    /** `len` references lead from `n` to `k`, behind bound nodes and past no persistent one, unless it is forced. */
    ghost predicate Leads(n: NodeId, k: NodeId, len: nat)
      decreases len
    {
      var f := if n in roots then roots[n] else n;
      && f in nodes && (nodes[f].persistent ==> force == Some(f))
      && if len == 0 then k == f
         else exists i :: 0 <= i < |nodes[f].children| && Leads(nodes[f].children[i], k, len - 1)
    }

    ghost predicate Reaches(n: NodeId, k: NodeId) {
      exists len: nat :: Leads(n, k, len)
    }

    lemma {:induction false} LeadsOn(n: NodeId, k: NodeId, len: nat, i: nat)
      requires Valid() && Leads(n, k, len) && k in nodes && i < |nodes[k].children| && Copied(Follow(nodes[k].children[i]))
      ensures Leads(n, Follow(nodes[k].children[i]), len + 1)
      decreases len
    {
      var f := Follow(n);
      if len == 0 {
        assert Leads(nodes[f].children[i], Follow(nodes[k].children[i]), 0);
      } else {
        var j :| 0 <= j < |nodes[f].children| && Leads(nodes[f].children[j], k, len - 1);
        LeadsOn(nodes[f].children[j], k, len - 1, i);
      }
    }

    lemma {:induction false} LedToIsIn(n: NodeId, k: NodeId, len: nat, s: set<NodeId>)
      requires Valid() && Leads(n, k, len) && Closed(s) && (Copied(Follow(n)) ==> Follow(n) in s)
      ensures k in s
      decreases len
    {
      var f := Follow(n);
      assert f !in roots;
      if len > 0 {
        var j :| 0 <= j < |nodes[f].children| && Leads(nodes[f].children[j], k, len - 1);
        LedToIsIn(nodes[f].children[j], k, len - 1, s);
      }
    }

    /** The least set has what is known and what references lead to from the start, and nothing else. */
    lemma NeededIsReached(known: set<NodeId>, start: NodeId, k: NodeId)
      requires Valid() && Follow(start) in nodes && Closed(known)
      ensures k in Needed(known, start) <==> k in known || Reaches(start, k)
    {
      NeededCovers(known, start);
      if len: nat :| Leads(start, k, len) {
        LedToIsIn(start, k, len, Needed(known, start));
      }
      var s := known + set x | x in nodes && Reaches(start, x);
      forall n, i | n in s && n in nodes && 0 <= i < |nodes[n].children| && Copied(Follow(nodes[n].children[i]))
        ensures Follow(nodes[n].children[i]) in s
      {
        if n !in known {
          var len: nat :| Leads(start, n, len);
          LeadsOn(start, n, len, i);
        }
      }
      if Copied(Follow(start)) {
        assert Leads(start, Follow(start), 0);
      }
      NeededIsLeast(known, start, s);
    }
  }

  function Detached(n: Node): Node {
    Node(n.tag, n.hasScope, if n.hasScope then None else n.scope, false, n.children)
  }

  /** What the cloner works on: all nodes there are, the memo, and the clones still to be processed. */
  datatype State = State(nodes: map<NodeId, Node>, seen: map<NodeId, NodeId>, queue: seq<NodeId>) {

    /** Where a reference to `c` ends up in a finished clone. */
    function Image(source: Source, c: NodeId): NodeId {
      var f := source.Follow(c);
      if f in seen then seen[f] else f
    }

    ghost predicate Known(source: Source, c: NodeId) {
      source.Follow(c) in seen || !source.Copied(source.Follow(c))
    }

    /** `d` is a copy of `k` whose first `p` references have been redirected into the copy. */
    ghost predicate CloneOf(source: Source, d: NodeId, k: NodeId, p: nat) {
      && d in nodes && k in source.nodes
      && var original, copy := source.nodes[k], nodes[d];
         && copy == Detached(original).(children := copy.children)
         && |copy.children| == |original.children|
         && (forall i :: 0 <= i < p && i < |copy.children| ==>
               Known(source, original.children[i]) && copy.children[i] == Image(source, original.children[i]))
         && forall i :: p <= i < |copy.children| ==> copy.children[i] == original.children[i]
    }

    /** Clones in the queue still refer to the source; the one being worked on has `done` references redirected. */
    ghost predicate Entry(source: Source, k: NodeId, active: Option<NodeId>, done: nat) {
      && source.Copied(k) && k in seen
      && var d := seen[k];
         && d !in source.nodes && d !in source.roots
         && CloneOf(source, d, k,
              if d in queue then 0 else if active == Some(d) then done else |source.nodes[k].children|)
    }

    ghost predicate Entries(source: Source, active: Option<NodeId>, done: nat) {
      && (forall n :: n in source.nodes ==> n in nodes && nodes[n] == source.nodes[n])
      && forall k :: k in seen ==> Entry(source, k, active, done)
    }

    // ---- what a finished copy is: no clone is pending

    /** Everything a copied node refers to has been dealt with too. */
    lemma FinishedIsClosed(source: Source)
      requires Entries(source, None, 0) && queue == []
      ensures source.Closed(seen.Keys)
    {
      forall n, i | n in seen && n in source.nodes && 0 <= i < |source.nodes[n].children| &&
                    source.Copied(source.Follow(source.nodes[n].children[i]))
        ensures source.Follow(source.nodes[n].children[i]) in seen
      {
        assert Entry(source, n, None, 0);
      }
    }

    /** A reference to `c` has become one to `d`: to the copy of what is behind it, or, if that is shared, to that itself. */
    ghost predicate Stands(source: Source, c: NodeId, d: NodeId) {
      var f := if c in source.roots then source.roots[c] else c;
      if f in seen then d == seen[f]
      else d == f && f in source.nodes && source.nodes[f].persistent && source.force != Some(f)
    }

    /** The copy of `k` is a new node with everything that `k` has, field by field, but for its scope and its persistence. */
    ghost predicate Mirrors(source: Source, k: NodeId) {
      && k in seen && k in source.nodes && seen[k] in nodes && seen[k] !in source.nodes
      && var original, copy := source.nodes[k], nodes[seen[k]];
         && copy.tag == original.tag && copy.hasScope == original.hasScope
         && (if original.hasScope then copy.scope == None else copy.scope == original.scope)
         && !copy.persistent && |copy.children| == |original.children|
         && forall i :: 0 <= i < |original.children| ==> Stands(source, original.children[i], copy.children[i])
    }

    /** What a finished clone is made of. Of the nodes copied none is persistent, unless it is forced. */
    lemma ClonesMirror(source: Source, k: NodeId)
      requires source.Valid() && Entries(source, None, 0) && queue == [] && k in seen
      ensures Mirrors(source, k) && k !in source.roots && (source.nodes[k].persistent ==> source.force == Some(k))
    {
      assert Entry(source, k, None, 0);
      forall i | 0 <= i < |source.nodes[k].children|
        ensures Stands(source, source.nodes[k].children[i], nodes[seen[k]].children[i])
      {
        assert source.Follow(source.nodes[k].children[i]) in source.nodes;
      }
    }

    /** With nothing pending, and the start dealt with, exactly what was needed has been copied. */
    lemma FinishedIsNeeded(source: Source, known: set<NodeId>, n: NodeId)
      requires Entries(source, None, 0) && queue == [] && Known(source, n)
      requires known <= seen.Keys <= source.Needed(known, n)
      ensures seen.Keys == source.Needed(known, n)
    {
      FinishedIsClosed(source);
      source.NeededIsLeast(known, n, seen.Keys);
    }

    /** A clone refers to clones and to shared persistent nodes only, never to a source node that was copied. */
    lemma NoReferenceBack(source: Source, k: NodeId, i: nat)
      requires Entries(source, None, 0) && queue == [] && k in seen
      ensures seen[k] in nodes && k in source.nodes
      ensures i < |nodes[seen[k]].children| ==>
        nodes[seen[k]].children[i] in seen.Values || !source.Copied(nodes[seen[k]].children[i])
    {
      assert Entry(source, k, None, 0);
      if i < |nodes[seen[k]].children| {
        var f := source.Follow(source.nodes[k].children[i]);
        assert f in seen ==> nodes[seen[k]].children[i] == seen[f];
      }
    }

    /** The node at the end of a path of references, through nodes that are copied. */
    function SourceWalk(source: Source, n: NodeId, path: seq<nat>): Option<NodeId>
      decreases |path|
    {
      var f := source.Follow(n);
      if path == [] then Some(f)
      else if f !in seen || f !in source.nodes || path[0] >= |source.nodes[f].children| then None
      else SourceWalk(source, source.nodes[f].children[path[0]], path[1..])
    }

    function CopyWalk(d: NodeId, path: seq<nat>): Option<NodeId>
      decreases |path|
    {
      if path == [] then Some(d)
      else if d !in nodes || path[0] >= |nodes[d].children| then None
      else CopyWalk(nodes[d].children[path[0]], path[1..])
    }

    /** Cycles and all: every path through the source leads, in the copy, to the image of where it leads there. */
    lemma {:induction false} WalksCommute(source: Source, n: NodeId, path: seq<nat>)
      requires Entries(source, None, 0) && queue == [] && source.Valid() && source.Follow(n) in source.nodes
      requires SourceWalk(source, n, path).Some?
      ensures CopyWalk(Image(source, n), path) == Some(Image(source, SourceWalk(source, n, path).value))
      decreases |path|
    {
      var f := source.Follow(n);
      if path != [] {
        assert Entry(source, f, None, 0);
        WalksCommute(source, source.nodes[f].children[path[0]], path[1..]);
      }
    }

    /** Sharing is kept: two references lead to one node of the copy exactly if they lead to one node of the source. */
    lemma ImagesAgree(source: Source, a: NodeId, b: NodeId)
      requires Entries(source, None, 0) && forall j, k :: j in seen && k in seen && j != k ==> seen[j] != seen[k]
      requires source.Follow(a) in source.nodes && source.Follow(b) in source.nodes
      ensures Image(source, a) == Image(source, b) <==> source.Follow(a) == source.Follow(b)
    {
      var f, g := source.Follow(a), source.Follow(b);
      assert f in seen ==> Entry(source, f, None, 0);
      assert g in seen ==> Entry(source, g, None, 0);
    }

    // ---- what each change of the state keeps

    /** A copy is not affected by what happens to other nodes, nor by further entries of the memo. */
    lemma CloneStays(source: Source, s: State, d: NodeId, k: NodeId, p: nat)
      requires s.CloneOf(source, d, k, p) && d in nodes && nodes[d] == s.nodes[d]
      requires forall m :: m in s.seen ==> m in seen && seen[m] == s.seen[m]
      requires forall m :: m in seen && m !in s.seen ==> source.Copied(m)
      ensures CloneOf(source, d, k, p)
    {
    }

    lemma SourceKept(source: Source, n: NodeId)
      requires exists active, done :: Entries(source, active, done)
      ensures n in source.nodes ==> n in nodes && nodes[n] == source.nodes[n]
      ensures n in seen ==> source.Copied(n)
    {
      var active, done :| Entries(source, active, done);
      assert n in seen ==> Entry(source, n, active, done);
    }

    /** A node is added to the memo, with a copy that still refers to the source. */
    lemma EntriesGrow(source: Source, f: NodeId, r: NodeId, active: Option<NodeId>, done: nat)
      requires Entries(source, active, done) && source.Copied(f) && f !in seen
      requires r !in nodes && r !in source.roots && r !in queue && active != Some(r)
      ensures State(nodes[r := Detached(source.nodes[f])], seen[f := r], queue + [r]).Entries(source, active, done)
    {
      var s := State(nodes[r := Detached(source.nodes[f])], seen[f := r], queue + [r]);
      forall k | k in s.seen
        ensures s.Entry(source, k, active, done)
      {
        if k != f {
          assert Entry(source, k, active, done);
          var d := seen[k];
          s.CloneStays(source, this, d, k,
            if d in queue then 0 else if active == Some(d) then done else |source.nodes[k].children|);
        }
      }
    }

    lemma OneMoreRedirected(source: Source, k: NodeId, d: NodeId, i: nat)
      requires Entry(source, k, Some(d), i) && seen[k] == d && d !in queue
      requires i < |source.nodes[k].children| && Known(source, source.nodes[k].children[i])
      ensures d in nodes && i < |nodes[d].children|
      ensures var r := Image(source, source.nodes[k].children[i]);
              this.(nodes := nodes[d := nodes[d].(children := nodes[d].children[i := r])]).Entry(source, k, Some(d), i + 1)
    {
    }

    lemma OthersUnaffected(source: Source, k: NodeId, d: NodeId, i: nat, n: Node, j: NodeId)
      requires Entry(source, j, Some(d), i) && seen[j] != d
      ensures this.(nodes := nodes[d := n]).Entry(source, j, Some(d), i + 1)
    {
      this.(nodes := nodes[d := n]).CloneStays(source, this, seen[j], j,
        if seen[j] in queue then 0 else |source.nodes[j].children|);
    }

    /** One more reference of the clone being worked on is redirected. */
    lemma EntriesAdvance(source: Source, k: NodeId, d: NodeId, i: nat)
      requires Entries(source, Some(d), i) && k in seen && seen[k] == d && d !in queue
      requires forall j :: j in seen && j != k ==> seen[j] != d
      requires i < |source.nodes[k].children| && Known(source, source.nodes[k].children[i])
      ensures d in nodes && i < |nodes[d].children|
      ensures var r := Image(source, source.nodes[k].children[i]);
              this.(nodes := nodes[d := nodes[d].(children := nodes[d].children[i := r])]).Entries(source, Some(d), i + 1)
    {
      var r := Image(source, source.nodes[k].children[i]);
      OneMoreRedirected(source, k, d, i);
      var n := nodes[d].(children := nodes[d].children[i := r]);
      forall j | j in seen
        ensures this.(nodes := nodes[d := n]).Entry(source, j, Some(d), i + 1)
      {
        if j != k {
          OthersUnaffected(source, k, d, i, n, j);
        }
      }
    }

    /** What an entry says about the clone being worked on. */
    lemma EntryPending(source: Source, k: NodeId, d: NodeId, i: nat)
      requires source.Valid() && Entries(source, Some(d), i) && k in seen && seen[k] == d && d !in queue
      ensures k in source.nodes && d in nodes && |nodes[d].children| == |source.nodes[k].children|
      ensures i < |nodes[d].children| ==> source.Follow(nodes[d].children[i]) in nodes
      ensures i < |nodes[d].children| ==> nodes[d].children[i] == source.nodes[k].children[i]
    {
      assert Entry(source, k, Some(d), i);
    }

    /** A clone is taken off the queue to be worked on. */
    lemma EntriesStart(source: Source)
      requires Entries(source, None, 0) && queue != []
      requires forall i, j :: 0 <= i < j < |queue| ==> queue[i] != queue[j]
      ensures this.(queue := queue[..|queue| - 1]).Entries(source, Some(queue[|queue| - 1]), 0)
    {
      var d, s := queue[|queue| - 1], this.(queue := queue[..|queue| - 1]);
      assert queue == s.queue + [d];
      forall k | k in seen
        ensures s.Entry(source, k, Some(d), 0)
      {
        assert Entry(source, k, None, 0);
      }
    }

    /** All references of the clone being worked on have been redirected. */
    lemma EntriesFinish(source: Source, k: NodeId, d: NodeId, i: nat)
      requires Entries(source, Some(d), i) && k in seen && seen[k] == d && d !in queue && k in source.nodes
      requires i == |source.nodes[k].children| && forall j :: j in seen && j != k ==> seen[j] != d
      ensures Entries(source, None, 0)
    {
      forall j | j in seen
        ensures Entry(source, j, None, 0)
      {
        assert Entry(source, j, Some(d), i);
      }
    }
  }

  /** The memo is injective, and the queue holds each of its clones at most once. */
  ghost predicate Memo(seen: map<NodeId, NodeId>, origin: map<NodeId, NodeId>, queue: seq<NodeId>, nextId: NodeId) {
    && (forall k :: k in seen ==> seen[k] < nextId && seen[k] in origin && origin[seen[k]] == k)
    && (forall q :: q in queue ==> q < nextId && q in origin && origin[q] in seen && seen[origin[q]] == q)
    && forall i, j :: 0 <= i < j < |queue| ==> queue[i] != queue[j]
  }

  lemma MemoGrows(seen: map<NodeId, NodeId>, origin: map<NodeId, NodeId>, queue: seq<NodeId>, nextId: NodeId, f: NodeId)
    requires Memo(seen, origin, queue, nextId) && f !in seen
    ensures Memo(seen[f := nextId], origin[nextId := f], queue + [nextId], nextId + 1)
    ensures nextId !in queue
  {
    assert forall q :: q in queue + [nextId] <==> q in queue || q == nextId;
    var seen', origin', queue' := seen[f := nextId], origin[nextId := f], queue + [nextId];
    forall k | k in seen'
      ensures seen'[k] <= nextId && seen'[k] in origin' && origin'[seen'[k]] == k
    {
    }
    forall q | q in queue'
      ensures q <= nextId && q in origin' && origin'[q] in seen' && seen'[origin'[q]] == q
    {
      assert q in queue ==> origin[q] != f && q != nextId;
    }
    forall i, j | 0 <= i < j < |queue'|
      ensures queue'[i] != queue'[j]
    {
      assert queue'[i] in queue;
    }
  }

  lemma MemoIsInjective(seen: map<NodeId, NodeId>, origin: map<NodeId, NodeId>, queue: seq<NodeId>, nextId: NodeId)
    requires Memo(seen, origin, queue, nextId)
    ensures forall j, k :: j in seen && k in seen && j != k ==> seen[j] != seen[k]
  {
    assert forall j :: j in seen ==> origin[seen[j]] == j;
  }

  lemma MemoShrinks(seen: map<NodeId, NodeId>, origin: map<NodeId, NodeId>, queue: seq<NodeId>, nextId: NodeId)
    requires Memo(seen, origin, queue, nextId) && queue != []
    ensures var d, rest := queue[|queue| - 1], queue[..|queue| - 1];
            Memo(seen, origin, rest, nextId) && d !in rest && forall q :: q in queue <==> q == d || q in rest
  {
    var d, rest := queue[|queue| - 1], queue[..|queue| - 1];
    assert queue == rest + [d];
    assert forall q :: q in queue <==> q == d || q in rest;
    forall q | q in rest
      ensures q != d
    {
      var i :| 0 <= i < |rest| && rest[i] == q;
      assert queue[i] == q;
    }
    assert forall i, j :: 0 <= i < j < |rest| ==> rest[i] == queue[i] && rest[j] == queue[j];
  }

  class TypeCloner {
    const source: Source
    const errorType: NodeId
    const limit: nat
    var nodes: map<NodeId, Node>
    var nextId: NodeId
    var queue: seq<NodeId>
    var seen: map<NodeId, NodeId>
    var steps: nat
    /** The memo read backwards. */
    ghost var origin: map<NodeId, NodeId>

    constructor (source: Source, errorType: NodeId, limit: nat, nodes: map<NodeId, Node>, nextId: NodeId,
                 seen: map<NodeId, NodeId>, ghost origin: map<NodeId, NodeId>)
      ensures this.source == source && this.errorType == errorType && this.limit == limit
      ensures this.nodes == nodes && this.nextId == nextId && this.seen == seen
      ensures this.origin == origin && queue == [] && steps == 0
    {
      this.source, this.errorType, this.limit := source, errorType, limit;
      this.nodes, this.nextId, this.seen := nodes, nextId, seen;
      queue, steps := [], 0;
      this.origin := origin;
    }

    function Current(): State
      reads this`nodes, this`seen, this`queue
    {
      State(nodes, seen, queue)
    }

    predicate HasExceededIterationLimit()
      reads this
    {
      limit != 0 && steps + |queue| >= limit
    }

    /** The state between two redirections. The source itself has not been touched. */
    ghost predicate Consistent(active: Option<NodeId>, done: nat)
      reads this`nodes, this`nextId, this`queue, this`seen, this`origin
    {
      && source.Valid()
      && (forall n :: n in nodes || n in source.roots ==> n < nextId)
      && Memo(seen, origin, queue, nextId)
      && Current().Entries(source, active, done)
    }

    /**
     * Where references to `n` go, if that is settled: for a node of the source, if it is known. A clone, which is never
     * persistent, is not found unless the memo has it.
     */
    method Find(n: NodeId) returns (r: Option<NodeId>)
      requires source.Follow(n) in nodes
      ensures r.Some? ==> r.value == Current().Image(source, n)
      ensures source.Valid() && source.Follow(n) in source.nodes && nodes[source.Follow(n)] == source.nodes[source.Follow(n)] ==>
        (r.Some? <==> Current().Known(source, n))
      ensures !nodes[source.Follow(n)].persistent ==> (r.Some? <==> source.Follow(n) in seen)
    {
      var f := source.Follow(n);
      if f in seen {
        return Some(seen[f]);
      } else if nodes[f].persistent && source.force != Some(f) {
        return Some(f);
      }
      return None;
    }

    method ShallowClone(n: NodeId, ghost active: Option<NodeId>, ghost done: nat) returns (r: NodeId)
      requires source.Valid() && source.Follow(n) in source.nodes && source.Follow(n) in nodes
      requires active.Some? ==> active.value < nextId
      modifies this`nodes, this`nextId, this`queue, this`seen, this`origin
      ensures nextId >= old(nextId) && |queue| >= old(|queue|)
      ensures old(Consistent(active, done)) ==>
        && Consistent(active, done) && Current().Known(source, n) && r == Current().Image(source, n)
        && (old(Current().Known(source, n)) ==> Current() == old(Current()))
        && (!old(Current().Known(source, n)) ==>
              seen == old(seen)[source.Follow(n) := r] && queue == old(queue) + [r] && r >= old(nextId))
    {
      hide Memo, State.Entries;
      var f := source.Follow(n);
      if Consistent(active, done) {
        Current().SourceKept(source, f);
      }
      var found := Find(f);
      if found.Some? {
        return found.value;
      }
      r := nextId;
      if Consistent(active, done) {
        MemoGrows(seen, origin, queue, nextId, f);
        Current().EntriesGrow(source, f, r, active, done);
      }
      nextId := nextId + 1;
      nodes := nodes[r := Detached(nodes[f])];
      seen := seen[f := r];
      queue := queue + [r];
      origin := origin[r := f];
    }

    /** Redirect the reference at `i` of clone `d`. */
    method Redirect(d: NodeId, i: nat, ghost k: NodeId)
      requires k in seen && seen[k] == d && d !in queue && Consistent(Some(d), i) && k in source.nodes
      requires d in nodes && i < |nodes[d].children| == |source.nodes[k].children|
      modifies this`nodes, this`nextId, this`queue, this`seen, this`origin
      ensures k in seen && seen[k] == d && d !in queue && Consistent(Some(d), i + 1)
      ensures nextId >= old(nextId) && d in nodes && |nodes[d].children| == |source.nodes[k].children|
      ensures var f := source.Follow(source.nodes[k].children[i]);
        (seen == old(seen) && queue == old(queue)) ||
        (source.Copied(f) && f !in old(seen) && f in seen && seen == old(seen)[f := seen[f]] && |queue| == old(|queue|) + 1)
    {
      hide State.Entries;
      Current().EntryPending(source, k, d, i);
      MemoIsInjective(seen, origin, queue, nextId);
      assert d < nextId;
      var r := ShallowClone(nodes[d].children[i], Some(d), i);
      MemoIsInjective(seen, origin, queue, nextId);
      Current().EntryPending(source, k, d, i);
      Current().EntriesAdvance(source, k, d, i);
      nodes := nodes[d := nodes[d].(children := nodes[d].children[i := r])];
    }

    /** Redirect the references of a clone, one after the other. `cover` bounds what may be copied. */
    method CloneChildren(d: NodeId, ghost k: NodeId, ghost cover: set<NodeId>)
      requires k in seen && seen[k] == d && d !in queue && Consistent(Some(d), 0) && k in source.nodes
      requires source.Closed(cover) && seen.Keys <= cover
      modifies this`nodes, this`nextId, this`queue, this`seen, this`origin
      ensures Consistent(None, 0) && old(seen.Keys) <= seen.Keys <= cover
      ensures |queue| - |seen| == old(|queue| - |seen|) && |queue| >= old(|queue|)
      ensures forall j :: j in old(seen) ==> seen[j] == old(seen)[j]
    {
      hide Memo, State.Entries;
      Current().EntryPending(source, k, d, 0);
      var i := 0;
      while i < |nodes[d].children|
        invariant k in seen && seen[k] == d && d !in queue && Consistent(Some(d), i)
        invariant d in nodes && i <= |nodes[d].children| == |source.nodes[k].children|
        invariant old(seen.Keys) <= seen.Keys <= cover
        invariant |queue| - |seen| == old(|queue| - |seen|) && |queue| >= old(|queue|)
        invariant forall j :: j in old(seen) ==> seen[j] == old(seen)[j]
        decreases |source.nodes[k].children| - i
      {
        Redirect(d, i, k);
        i := i + 1;
      }
      MemoIsInjective(seen, origin, queue, nextId);
      Current().EntriesFinish(source, k, d, i);
    }

    /** Take the last clone off the queue and process it. */
    method ProcessLast(ghost cover: set<NodeId>)
      requires Consistent(None, 0) && source.Closed(cover) && seen.Keys <= cover && queue != []
      modifies this`nodes, this`nextId, this`queue, this`seen, this`origin
      ensures Consistent(None, 0) && old(seen.Keys) <= seen.Keys <= cover
      ensures |queue| - |seen| == old(|queue| - |seen|) - 1 && |queue| >= old(|queue|) - 1
      ensures forall j :: j in old(seen) ==> seen[j] == old(seen)[j]
    {
      hide State.Entries;
      var d := queue[|queue| - 1];
      ghost var k := origin[d];
      PendingIsNew(d, k);
      Current().EntriesStart(source);
      MemoShrinks(seen, origin, queue, nextId);
      queue := queue[..|queue| - 1];
      var found := Find(d);
      if found.None? {
        CloneChildren(d, k, cover);
      }
    }

    /** A queued clone is no node of the source, so the memo has nothing to say about it. */
    lemma PendingIsNew(d: NodeId, k: NodeId)
      requires Consistent(None, 0) && k in seen && seen[k] == d
      ensures k in source.nodes && d in nodes && !nodes[d].persistent && d !in source.roots && d !in seen
    {
      assert Current().Entry(source, k, None, 0);
      assert d in seen ==> Current().Entry(source, d, None, 0);
    }

    /** Work through the queue. The steps taken and the clones still queued add up to the clones there ever were. */
    method Run(ghost settled: bool, ghost cover: set<NodeId>, ghost base: int)
      requires if settled then
                 Consistent(None, 0) && source.Closed(cover) && seen.Keys <= cover && steps + |queue| == |seen| + base
               else HasExceededIterationLimit()
      modifies this
      ensures old(HasExceededIterationLimit()) ==> HasExceededIterationLimit()
      ensures old(queue) == [] ==> queue == [] && steps == old(steps) && seen == old(seen)
      ensures settled ==>
        && Consistent(None, 0) && old(seen.Keys) <= seen.Keys <= cover
        && (forall k :: k in old(seen) ==> seen[k] == old(seen)[k])
        && if queue == [] then
             steps == |seen| + base && (old(queue) != [] && limit != 0 ==> steps + 1 < limit)
           else
             HasExceededIterationLimit() && steps + |queue| == |seen| + base + 1
    {
      hide Memo, State.Entries, Consistent;
      while queue != []
        invariant settled ==>
          && Consistent(None, 0) && source.Closed(cover) && old(seen.Keys) <= seen.Keys <= cover
          && (forall k :: k in old(seen) ==> seen[k] == old(seen)[k])
          && steps + |queue| == |seen| + base
          && (queue == [] && old(queue) != [] && limit != 0 ==> steps + 1 < limit)
        invariant old(queue) == [] ==> queue == [] && steps == old(steps) && seen == old(seen)
        invariant !settled || old(HasExceededIterationLimit()) ==> steps == old(steps) && queue == old(queue)
        decreases |cover| - |seen.Keys|, |queue|
      {
        steps := steps + 1;
        if HasExceededIterationLimit() {
          break;
        }
        ghost var known := seen.Keys;
        ProcessLast(cover);
        SubsetsByCount(known, seen.Keys, cover);
      }
    }

    /** Nothing is pending, and every clone is finished. */
    ghost predicate Settled()
      reads this
    {
      queue == [] && Consistent(None, 0)
    }

    /** How many nodes a clone of `n` has to copy. */
    ghost function ToCopy(n: NodeId): int
      reads this
    {
      |source.Needed(seen.Keys, n)| - |seen|
    }

    lemma SettledIsNeeded(known: set<NodeId>, n: NodeId)
      requires Settled() && Current().Known(source, n) && known <= seen.Keys <= source.Needed(known, n)
      ensures seen.Keys == source.Needed(known, n)
    {
      Current().FinishedIsNeeded(source, known, n);
    }

    /** Copy `n` and what can be reached from it, as far as the budget goes. */
    method CloneReachable(n: NodeId)
      requires HasExceededIterationLimit() || Settled()
      requires source.Valid() && source.Follow(n) in source.nodes && source.Follow(n) in nodes
      modifies this
      ensures old(HasExceededIterationLimit()) ==> HasExceededIterationLimit()
      ensures !old(HasExceededIterationLimit()) ==>
        && (forall k :: k in old(seen) ==> k in seen && seen[k] == old(seen)[k])
        && if queue == [] then
             && Settled() && Current().Known(source, n) && seen.Keys == source.Needed(old(seen.Keys), n)
             && steps == old(steps) + old(ToCopy(n))
             && (old(ToCopy(n)) == 0 || limit == 0 || steps + 1 < limit)
           else
             HasExceededIterationLimit() && old(ToCopy(n)) > 0 && old(steps) + old(ToCopy(n)) + 1 >= limit
    {
      hide Memo, State.Entries, Consistent, Source.Needed, Source.Closed, State.Image;
      ghost var known, cover := seen.Keys, source.Needed(seen.Keys, n);
      source.NeededCovers(known, n);
      var _ := ShallowClone(n, None, 0);
      ghost var started := seen.Keys;
      Run(!old(HasExceededIterationLimit()), cover, steps + |queue| - |seen|);
      if !old(HasExceededIterationLimit()) {
        SubsetsByCount(known, seen.Keys, cover);
        SubsetsByCount(started, seen.Keys, cover);
        if queue == [] {
          SettledIsNeeded(known, n);
        }
      }
    }

    /** What a success leaves behind: a copy, field by field, of what is reached from `n` and had not been copied before. */
    ghost predicate Copies(known: map<NodeId, NodeId>, n: NodeId, r: NodeId)
      reads this
    {
      && Current().Stands(source, n, r)
      && (forall k :: k in seen <==> k in known || source.Reaches(n, k))
      && (forall k :: k in seen ==> Current().Mirrors(source, k))
      && forall k :: k in source.nodes ==> k in nodes && nodes[k] == source.nodes[k]
    }

    lemma SettledCopies(known: map<NodeId, NodeId>, n: NodeId, r: NodeId)
      requires Settled() && source.Closed(known.Keys) && source.Follow(n) in source.nodes
      requires Current().Known(source, n) && r == Current().Image(source, n)
      requires seen.Keys == source.Needed(known.Keys, n)
      ensures Copies(known, n, r)
    {
      hide Memo;
      forall k | k in seen
        ensures Current().Mirrors(source, k)
      {
        Current().ClonesMirror(source, k);
      }
      forall k
        ensures k in seen <==> k in known || source.Reaches(n, k)
      {
        source.NeededIsReached(known.Keys, n, k);
        assert k in seen <==> k in seen.Keys;
      }
      assert source.Follow(n) !in source.roots;
    }

    /** Clone `n`. This succeeds exactly if the budget allows for the nodes to be copied, and one more step. */
    method Clone(n: NodeId) returns (r: NodeId)
      requires HasExceededIterationLimit() || Settled()
      requires source.Valid() && source.Follow(n) in source.nodes && source.Follow(n) in nodes
      modifies this
      ensures old(HasExceededIterationLimit()) ==> HasExceededIterationLimit()
      ensures !old(HasExceededIterationLimit()) ==>
        (!HasExceededIterationLimit() <==> limit == 0 || old(ToCopy(n)) == 0 || old(steps) + old(ToCopy(n)) + 1 < limit)
      ensures HasExceededIterationLimit() ==> r == errorType
      ensures !HasExceededIterationLimit() ==>
        && Settled() && r == Current().Image(source, n) && Current().Known(source, n)
        && seen.Keys == source.Needed(old(seen.Keys), n)
        && (forall k :: k in old(seen) ==> seen[k] == old(seen)[k])
        && Copies(old(seen), n, r)
    {
      ghost var known := seen;
      if Settled() {
        Current().FinishedIsClosed(source);
      }
      CloneReachable(n);
      if HasExceededIterationLimit() {
        seen := seen[n := errorType];
        return errorType;
      }
      assert Current().Entries(source, None, 0);
      var found := Find(n);
      r := found.GetOr(errorType);
      if !old(HasExceededIterationLimit()) {
        SettledCopies(known, n, r);
      }
    }
  }

  lemma SubsetsByCount(a: set<NodeId>, b: set<NodeId>, c: set<NodeId>)
    requires a <= b <= c
    ensures |a| <= |b| <= |c| && (|a| == |b| ==> a == b)
  {
    assert b == a + (b - a) && c == b + (c - b);
  }
}