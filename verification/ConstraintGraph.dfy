/** The constraint graph itself: two maps from vertices to heap-allocated edge lists, updated in place. */
module ConstraintGraphs {
  import opened Basics
  import opened ConstraintLists
  import opened GraphSteps

  /** `types` and `packs` are the types and the packs among `all`. */
  ghost predicate Collected(types: seq<Vertex>, packs: seq<Vertex>, all: set<Vertex>) {
    && (forall t :: t in types <==> t in all && t.Type?)
    && (forall t :: t in packs <==> t in all && t.Pack?)
  }

  lemma CollectNone()
    ensures Collected([], [], {})
  {
  }

  lemma CollectOneMore(types: seq<Vertex>, packs: seq<Vertex>, done: set<Vertex>, v: Vertex)
    requires Collected(types, packs, done)
    ensures Collected(if v.Type? then types + [v] else types, if v.Pack? then packs + [v] else packs, done + {v})
  {
  }

  class ConstraintGraph {
    var dependencies: map<Vertex, ConstraintList>
    var reverseDependencies: map<Vertex, ConstraintList>
    /** Owns every edge list. */
    var constraintLists: set<ConstraintList>
    /** The two edge relations the lists stand for; a vertex without a list has no edges. */
    ghost var state: Graph

    /** `l` is registered for its owner, in its direction, and holds that owner's edges. */
    ghost predicate ValidList(l: ConstraintList)
      reads this, l
    {
      && l.Valid()
      && if l.reverse then
           l.owner in reverseDependencies && reverseDependencies[l.owner] == l && l.members == state.rdeps[l.owner]
         else
           l.owner in dependencies && dependencies[l.owner] == l && l.members == state.deps[l.owner]
    }

    /** Every registered list is owned here; a vertex without a list has no edges. */
    ghost predicate ValidVertex(v: Vertex)
      reads this, constraintLists
    {
      && (if v in dependencies then
            dependencies[v] in constraintLists && dependencies[v].owner == v && !dependencies[v].reverse
          else state.deps[v] == {})
      && if v in reverseDependencies then
           reverseDependencies[v] in constraintLists && reverseDependencies[v].owner == v && reverseDependencies[v].reverse
         else state.rdeps[v] == {}
    }

    ghost predicate Valid()
      reads this, constraintLists
    {
      && (forall l :: l in constraintLists ==> ValidList(l))
      && forall v: Vertex :: ValidVertex(v)
    }

    constructor ()
      ensures Valid() && state == Empty()
    {
      dependencies, reverseDependencies, constraintLists := map[], map[], {};
      state := Empty();
    }

    /** Lists are only ever added. */
    twostate predicate Grows()
      reads this
    {
      && old(constraintLists) <= constraintLists
      && forall l :: l in constraintLists && l !in old(constraintLists) ==> fresh(l)
    }

    lemma Registered(l: ConstraintList)
      requires Valid() && l in constraintLists
      ensures ValidList(l)
    {
    }

    /** The graph stays valid where `l`, which may be new, and the edges of its owner are all that changes. */
    twostate lemma OnlyChanged(new l: ConstraintList)
      requires old(Valid()) && constraintLists == old(constraintLists) + {l}
      requires forall k :: k in old(constraintLists) && k != l ==> unchanged(k)
      requires dependencies == if l.reverse then old(dependencies) else old(dependencies)[l.owner := l]
      requires reverseDependencies == if l.reverse then old(reverseDependencies)[l.owner := l] else old(reverseDependencies)
      requires l in old(constraintLists) || l.owner !in if l.reverse then old(reverseDependencies) else old(dependencies)
      requires l.Valid() && l.members == if l.reverse then state.rdeps[l.owner] else state.deps[l.owner]
      requires forall u: Vertex :: u != l.owner || l.reverse ==> state.deps[u] == old(state).deps[u]
      requires forall u: Vertex :: u != l.owner || !l.reverse ==> state.rdeps[u] == old(state).rdeps[u]
      ensures Valid()
    {
      forall k | k in old(constraintLists)
        ensures ValidList(k)
      {
        assert old(ValidList(k));
        if k != l {
          assert k.owner != l.owner || k.reverse != l.reverse;
        }
      }
      forall u: Vertex
        ensures ValidVertex(u)
      {
        assert old(ValidVertex(u));
      }
    }

    method FindDependencyList(v: Vertex) returns (l: ConstraintList)
      requires Valid()
      modifies this
      ensures Valid() && Grows() && state == old(state)
      ensures l in constraintLists && l.owner == v && !l.reverse && l.Valid() && l.members == state.deps[v]
    {
      assert ValidVertex(v);
      if v in dependencies {
        l := dependencies[v];
      } else {
        l := new ConstraintList(v, false);
        constraintLists := constraintLists + {l};
        dependencies := dependencies[v := l];
      }
      OnlyChanged(l);
    }

    method FindReverseDependencyList(v: Vertex) returns (l: ConstraintList)
      requires Valid()
      modifies this
      ensures Valid() && Grows() && state == old(state)
      ensures l in constraintLists && l.owner == v && l.reverse && l.Valid() && l.members == state.rdeps[v]
    {
      assert ValidVertex(v);
      if v in reverseDependencies {
        l := reverseDependencies[v];
      } else {
        l := new ConstraintList(v, true);
        constraintLists := constraintLists + {l};
        reverseDependencies := reverseDependencies[v := l];
      }
      OnlyChanged(l);
    }

    /** The owner of `l` also waits for `v`. */
    method InsertDep(l: ConstraintList, v: Vertex)
      requires Valid() && l in constraintLists && !l.reverse
      modifies l, this`state
      ensures Valid() && l.Valid() && state == Graph(With(old(state.deps), l.owner, v), old(state.rdeps))
      ensures l.members == old(l.members) + {v}
      ensures v in old(l.members) ==> l.order == old(l.order) && l.present == old(l.present)
    {
      hide Valid, ValidVertex, ConstraintLists.ConstraintList.Valid;
      Registered(l);
      l.Insert(v);
      state := Graph(With(state.deps, l.owner, v), state.rdeps);
      OnlyChanged(l);
    }

    /** `v` is also recorded as waiting for the owner of `l`. */
    method InsertReverse(l: ConstraintList, v: Vertex)
      requires Valid() && l in constraintLists && l.reverse
      modifies l, this`state
      ensures Valid() && l.Valid() && state == Graph(old(state.deps), With(old(state.rdeps), l.owner, v))
      ensures l.members == old(l.members) + {v}
      ensures v in old(l.members) ==> l.order == old(l.order) && l.present == old(l.present)
    {
      hide Valid, ValidVertex, ConstraintLists.ConstraintList.Valid;
      Registered(l);
      l.Insert(v);
      state := Graph(state.deps, With(state.rdeps, l.owner, v));
      OnlyChanged(l);
    }

    /** The owner of `l` no longer waits for `v`. */
    method RemoveDep(l: ConstraintList, v: Vertex)
      requires Valid() && l in constraintLists && !l.reverse
      modifies l, this`state
      ensures Valid() && l.Valid() && state == Graph(Without(old(state.deps), l.owner, v), old(state.rdeps))
      ensures l.members == old(l.members) - {v}
    {
      hide Valid, ValidVertex, ConstraintLists.ConstraintList.Valid;
      Registered(l);
      l.Remove(v);
      state := Graph(Without(state.deps, l.owner, v), state.rdeps);
      OnlyChanged(l);
    }

    /** `v` is no longer recorded as waiting for the owner of `l`. */
    method RemoveReverse(l: ConstraintList, v: Vertex)
      requires Valid() && l in constraintLists && l.reverse
      modifies l, this`state
      ensures Valid() && l.Valid() && state == Graph(old(state.deps), Without(old(state.rdeps), l.owner, v))
      ensures l.members == old(l.members) - {v}
    {
      hide Valid, ValidVertex, ConstraintLists.ConstraintList.Valid;
      Registered(l);
      l.Remove(v);
      state := Graph(state.deps, Without(state.rdeps, l.owner, v));
      OnlyChanged(l);
    }

    /** Nobody is recorded as waiting for the owner of `l`. */
    method ClearReverse(l: ConstraintList)
      requires Valid() && l in constraintLists && l.reverse
      modifies l, this`state
      ensures Valid() && state == Graph(old(state.deps), Cleared(old(state.rdeps), l.owner))
    {
      hide Valid, ValidVertex, ConstraintLists.ConstraintList.Valid;
      Registered(l);
      l.Clear();
      state := Graph(state.deps, Cleared(state.rdeps, l.owner));
      OnlyChanged(l);
    }

    /** Block `t` on `v`; the result says whether that is new, and whether the assertion on old blocks held. */
    method AddDependencyOf(v: Vertex, t: Vertex) returns (isNew: bool, asserted: bool)
      requires Valid()
      modifies this, constraintLists
      ensures Valid() && Grows() && state == AddDependency(old(state), v, t)
      ensures isNew == (v !in old(state).deps[t])
      ensures asserted == (isNew || t in old(state).rdeps[v])
    {
      var deps := FindDependencyList(t);
      var reverseDeps := FindReverseDependencyList(v);
      if deps.Contains(v) {
        return false, reverseDeps.Contains(t);
      }
      InsertDep(deps, v);
      InsertReverse(reverseDeps, t);
      return true, true;
    }

    /** Whatever waits for `e` also waits for `n`. */
    method InheritBlocks(e: Vertex, n: Vertex)
      requires Valid()
      modifies this, constraintLists
      ensures Valid() && Grows() && state == Inherit(old(state), e, n)
    {
      hide Valid, ConstraintLists.ConstraintList.Valid, WaitFor, Iterating, RestsAt;
      var existing := FindReverseDependencyList(e);
      var newReverse := FindReverseDependencyList(n);
      ghost var g, order, present := state, existing.order, existing.present;
      ghost var done: set<Vertex> := {};
      var i := existing.AdvanceUntilPresentOrEnd(0);
      IterationStarts(existing, i);
      WaitForNone(g, n);
      while i < |existing.order|
        invariant Valid() && Grows() && existing in constraintLists && newReverse in constraintLists
        invariant existing.Valid() && existing.order == order && existing.present == present
        invariant existing.reverse && existing.members == g.rdeps[e] && newReverse.reverse && newReverse.owner == n
        invariant Iterating(order, present, i, done, g.rdeps[e]) && i <= |order|
        invariant state == WaitFor(g, done, n)
      {
        var rdep := existing.order[i];
        IterationEnds(order, present, i, done, g.rdeps[e]);
        InheritBlock(rdep, newReverse, n, existing);
        WaitForOneMore(g, done, n, rdep);
        var next := existing.AdvanceUntilPresentOrEnd(i + 1);
        IterationAdvances(order, present, i, next, done, g.rdeps[e]);
        i, done := next, done + {rdep};
      }
      IterationEnds(order, present, i, done, g.rdeps[e]);
    }

    method InheritBlock(rdep: Vertex, newReverse: ConstraintList, n: Vertex, ghost walked: ConstraintList)
      requires Valid() && newReverse in constraintLists && newReverse.reverse && newReverse.owner == n
      requires walked in constraintLists && walked.reverse && walked.Valid() && rdep in walked.members
      modifies this, constraintLists
      ensures Valid() && Grows() && state == WaitFor(old(state), {rdep}, n)
      ensures walked.Valid() && walked.order == old(walked.order) && walked.present == old(walked.present)
      ensures walked.members == old(walked.members)
    {
      hide Valid, ConstraintLists.ConstraintList.Valid;
      InsertReverse(newReverse, rdep);
      var newDeps := FindDependencyList(rdep);
      InsertDep(newDeps, n);
      WaitForOne(old(state), rdep, n);
    }

    /** One waiter of `x` waits no longer. */
    method ReleaseWaiter(rdep: Vertex, x: Vertex, ghost walked: ConstraintList)
      requires Valid() && walked in constraintLists && walked.reverse && walked.Valid()
      modifies this, constraintLists
      ensures Valid() && Grows() && state == StopWaiting(old(state), {rdep}, x)
      ensures walked.Valid() && walked.order == old(walked.order) && walked.present == old(walked.present)
    {
      hide Valid, ConstraintLists.ConstraintList.Valid;
      var deps := FindDependencyList(rdep);
      RemoveDep(deps, x);
      StopWaitingForOne(old(state), rdep, x);
    }

    method ClearReverseDependenciesOf(x: Vertex)
      requires Valid()
      modifies this, constraintLists
      ensures Valid() && Grows() && state == ClearReverseOf(old(state), x)
    {
      hide Valid, ConstraintLists.ConstraintList.Valid, StopWaiting, Iterating, RestsAt;
      var revDeps := FindReverseDependencyList(x);
      ghost var g, order, present := state, revDeps.order, revDeps.present;
      ghost var done: set<Vertex> := {};
      var i := revDeps.AdvanceUntilPresentOrEnd(0);
      IterationStarts(revDeps, i);
      StopWaitingForNone(g, x);
      while i < |revDeps.order|
        invariant Valid() && Grows() && revDeps in constraintLists
        invariant revDeps.Valid() && revDeps.order == order && revDeps.present == present
        invariant Iterating(order, present, i, done, g.rdeps[x]) && i <= |order|
        invariant state == StopWaiting(g, done, x)
      {
        var rdep := revDeps.order[i];
        ReleaseWaiter(rdep, x, revDeps);
        StopWaitingForOneMore(g, done, x, rdep);
        var next := revDeps.AdvanceUntilPresentOrEnd(i + 1);
        IterationAdvances(order, present, i, next, done, g.rdeps[x]);
        i, done := next, done + {rdep};
      }
      IterationEnds(order, present, i, done, g.rdeps[x]);
      ClearReverse(revDeps);
    }

    /** The mutated types take on one dependency of the walked list. */
    method CopyDependency(vertex: Vertex, original: Option<Vertex>, mutated: seq<Vertex>, ghost walked: ConstraintList)
      requires Valid() && walked in constraintLists && !walked.reverse && walked.Valid() && vertex in walked.members
      modifies this, constraintLists
      ensures Valid() && Grows()
      ensures state == TakeOn(old(state), {vertex}, Forgotten(original), Elements(mutated))
      ensures walked.Valid() && walked.order == old(walked.order) && walked.present == old(walked.present)
      ensures walked.members == old(walked.members)
    {
      hide Valid, ConstraintLists.ConstraintList.Valid, TakeOn, Elements;
      ElementsOfNothing(mutated);
      ghost var g, forgotten := state, Forgotten(original);
      var reverseDeps := ForgetOriginal(vertex, original, walked);
      ghost var done: set<Vertex> := {};
      for k := 0 to |mutated|
        invariant Valid() && Grows() && walked in constraintLists && reverseDeps in constraintLists
        invariant reverseDeps.reverse && reverseDeps.owner == vertex
        invariant walked.Valid() && walked.order == old(walked.order) && walked.present == old(walked.present)
        invariant walked.members == old(walked.members)
        invariant done == Elements(mutated[..k])
        invariant state == TakeOn(g, {vertex}, forgotten, done)
      {
        CopyToTarget(vertex, reverseDeps, mutated[k], walked);
        TakeOnForOneMore(g, vertex, forgotten, done, mutated[k]);
        done := done + {mutated[k]};
        ElementsSoFar(mutated, k);
      }
      assert mutated[..|mutated|] == mutated;
    }

    method ForgetOriginal(vertex: Vertex, original: Option<Vertex>, ghost walked: ConstraintList) returns (l: ConstraintList)
      requires Valid() && walked in constraintLists && !walked.reverse && walked.Valid()
      modifies this, constraintLists
      ensures Valid() && Grows() && state == TakeOn(old(state), {vertex}, Forgotten(original), {})
      ensures l in constraintLists && l.reverse && l.owner == vertex
      ensures walked.Valid() && walked.order == old(walked.order) && walked.present == old(walked.present)
      ensures walked.members == old(walked.members)
    {
      hide Valid, ConstraintLists.ConstraintList.Valid, TakeOn;
      l := FindReverseDependencyList(vertex);
      TakeOnForNone(state, vertex, original);
      if original.Some? {
        RemoveReverse(l, original.value);
      }
    }

    method CopyToTarget(vertex: Vertex, reverseDeps: ConstraintList, subTarget: Vertex, ghost walked: ConstraintList)
      requires Valid() && walked in constraintLists && !walked.reverse && walked.Valid() && vertex in walked.members
      requires reverseDeps in constraintLists && reverseDeps.reverse && reverseDeps.owner == vertex
      modifies this, constraintLists
      ensures Valid() && Grows()
      ensures state == Graph(With(old(state.deps), subTarget, vertex), With(old(state.rdeps), vertex, subTarget))
      ensures walked.Valid() && walked.order == old(walked.order) && walked.present == old(walked.present)
      ensures walked.members == old(walked.members)
    {
      hide Valid, ConstraintLists.ConstraintList.Valid, With;
      var tyDeps := FindDependencyList(subTarget);
      InsertDep(tyDeps, vertex);
      InsertReverse(reverseDeps, subTarget);
    }

    method CopyDependenciesToReachableTypes(original: Option<Vertex>, source: ConstraintList, mutated: seq<Vertex>)
      requires Valid() && source in constraintLists && !source.reverse && source.Valid()
      modifies this, constraintLists
      ensures Valid() && Grows()
      ensures state == TakeOn(old(state), old(source.members), Forgotten(original), Elements(mutated))
    {
      hide Valid, ConstraintLists.ConstraintList.Valid, TakeOn, Iterating, RestsAt;
      ghost var g, order, present, all := state, source.order, source.present, source.members;
      ghost var forgotten, targets := Forgotten(original), Elements(mutated);
      ghost var done: set<Vertex> := {};
      var i := source.AdvanceUntilPresentOrEnd(0);
      IterationStarts(source, i);
      TakeOnNothing(g, forgotten, targets);
      while i < |source.order|
        invariant Valid() && Grows() && source in constraintLists
        invariant source.Valid() && source.order == order && source.present == present && source.members == all
        invariant Iterating(order, present, i, done, all) && i <= |order|
        invariant state == TakeOn(g, done, forgotten, targets)
      {
        var vertex := source.order[i];
        IterationEnds(order, present, i, done, all);
        CopyDependency(vertex, original, mutated, source);
        TakeOnOneMore(g, done, vertex, forgotten, targets);
        var next := source.AdvanceUntilPresentOrEnd(i + 1);
        IterationAdvances(order, present, i, next, done, all);
        i, done := next, done + {vertex};
      }
      IterationEnds(order, present, i, done, all);
    }

    method CopyDependenciesOf(source: Vertex, target: Vertex, tg: TypeGraph)
      requires Valid()
      modifies this, constraintLists
      ensures Valid() && Grows() && state == CopyDependencies(old(state), source, false, Targets(tg, target))
    {
      hide Valid, ConstraintLists.ConstraintList.Valid, TakeOn;
      var sourceDependencies := FindDependencyList(source);
      CopyDependenciesToReachableTypes(None, sourceDependencies, tg.reachable(target));
    }

    method ShiftReferences(source: Vertex, target: Vertex, tg: TypeGraph)
      requires Valid()
      modifies this, constraintLists
      ensures Valid() && Grows() && state == Shift(old(state), source, target, tg)
    {
      hide Valid, ConstraintLists.ConstraintList.Valid, TakeOn, ClearReverseOf;
      if source == target {
        return;
      }
      var sourceDependencies := FindDependencyList(source);
      CopyDependenciesToReachableTypes(Some(source), sourceDependencies, tg.reachable(target));
      ClearReverseDependenciesOf(source);
    }

    method RepairTypeReferences(start: Vertex, tg: TypeGraph)
      requires Valid()
      modifies this, constraintLists
      ensures Valid() && Grows() && state == Repair(old(state), start, tg)
    {
      hide Valid, Shift;
      var ty := start;
      var root := tg.follow(ty);
      var seen := {root};
      while ty !in seen
        invariant Valid() && Grows()
        invariant ShiftAll(state, Chain(tg, ty, seen), root, tg) == Repair(old(state), start, tg)
        decreases |tg.bound.Keys - seen|, if ty in tg.bound || ty in seen then 0 else 1
      {
        ghost var before := seen;
        seen := seen + {ty};
        ShiftReferences(ty, root, tg);
        ChainUnfolds(tg, ty, before);
        if ty in tg.bound {
          ty := tg.bound[ty];
        }
      }
    }

    method UnblockTypeOrPack(ty: Vertex, tg: TypeGraph)
      requires Valid()
      modifies this, constraintLists
      ensures Valid() && Grows() && state == UnblockType(old(state), ty, tg)
    {
      hide Valid, Repair, ClearReverseOf;
      RepairTypeReferences(ty, tg);
      ClearReverseDependenciesOf(tg.follow(ty));
    }

    /** Release what waits for `c`, then repair the types and the packs among it; they are returned in that order. */
    method UnblockConstraint(c: Vertex, tg: TypeGraph) returns (types: seq<Vertex>, packs: seq<Vertex>)
      requires Valid()
      modifies this, constraintLists
      ensures Valid() && Grows()
      ensures Collected(types, packs, old(state).rdeps[c])
      ensures state == GraphSteps.UnblockConstraint(old(state), c, types + packs, tg)
    {
      hide Valid, ConstraintLists.ConstraintList.Valid, StopWaiting, Iterating, RestsAt, Collected;
      types, packs := [], [];
      CollectNone();
      var revDeps := FindReverseDependencyList(c);
      ghost var g, order, present := state, revDeps.order, revDeps.present;
      ghost var done: set<Vertex> := {};
      var i := revDeps.AdvanceUntilPresentOrEnd(0);
      IterationStarts(revDeps, i);
      StopWaitingForNone(g, c);
      while i < |revDeps.order|
        invariant Valid() && Grows() && revDeps in constraintLists
        invariant revDeps.Valid() && revDeps.order == order && revDeps.present == present
        invariant Iterating(order, present, i, done, g.rdeps[c]) && i <= |order|
        invariant state == StopWaiting(g, done, c)
        invariant Collected(types, packs, done)
      {
        var rdep := revDeps.order[i];
        CollectOneMore(types, packs, done, rdep);
        if rdep.Type? {
          types := types + [rdep];
        } else if rdep.Pack? {
          packs := packs + [rdep];
        }
        ReleaseWaiter(rdep, c, revDeps);
        StopWaitingForOneMore(g, done, c, rdep);
        var next := revDeps.AdvanceUntilPresentOrEnd(i + 1);
        IterationAdvances(order, present, i, next, done, g.rdeps[c]);
        i, done := next, done + {rdep};
      }
      IterationEnds(order, present, i, done, g.rdeps[c]);
      RepairEach(types, tg);
      RepairEach(packs, tg);
      RepairAllAppend(ReleaseWaiters(g, c), types, packs, tg);
    }

    method RepairEach(tys: seq<Vertex>, tg: TypeGraph)
      requires Valid()
      modifies this, constraintLists
      ensures Valid() && Grows() && state == RepairAll(old(state), tys, tg)
    {
      hide Valid, Repair;
      for k := 0 to |tys|
        invariant Valid() && Grows()
        invariant RepairAll(state, tys[k..], tg) == RepairAll(old(state), tys, tg)
      {
        RepairTypeReferences(tys[k], tg);
        assert tys[k..][1..] == tys[k + 1..];
      }
    }

    method HasUnsolvedDependencies(v: Vertex) returns (unsolved: bool)
      requires Valid()
      modifies this
      ensures Valid() && Grows() && state == old(state)
      ensures unsolved <==> state.deps[v] != {}
    {
      var deps := FindDependencyList(v);
      return deps.Size() > 0;
    }
  }
}
