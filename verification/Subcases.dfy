/** Subcase replay: a test body is re-run until every leaf of its tree of subcases has been executed. */
module Subcases {

  datatype Signature = Signature(name: string, file: string, line: int)

  /** A subcase and the subcases its body contains, in source order. A test body is a sequence of them. */
  datatype Subcase = Subcase(sig: Signature, kids: seq<Subcase>)

  type Path = seq<Signature>

  // ---------------------------------------------------------------- the tree

  /** Siblings carry different signatures, at every level. */
  ghost predicate Distinct(kids: seq<Subcase>) {
    && (forall i, j :: 0 <= i < j < |kids| ==> kids[i].sig != kids[j].sig)
    && forall i :: 0 <= i < |kids| ==> Distinct(kids[i].kids)
  }

  function Under(sig: Signature, paths: seq<Path>): seq<Path> {
    if paths == [] then [] else [[sig] + paths[0]] + Under(sig, paths[1..])
  }

  function LeavesOf(t: Subcase): seq<Path> {
    if t.kids == [] then [[t.sig]] else Under(t.sig, Leaves(t.kids))
  }

  /** All root-to-leaf paths in source order. */
  function Leaves(kids: seq<Subcase>): seq<Path> {
    if kids == [] then [] else LeavesOf(kids[0]) + Leaves(kids[1..])
  }

  function Find(kids: seq<Subcase>, sig: Signature): (i: nat)
    ensures i <= |kids|
    ensures i < |kids| ==> kids[i].sig == sig
    ensures forall j :: 0 <= j < i ==> kids[j].sig != sig
  {
    if kids == [] || kids[0].sig == sig then 0 else 1 + Find(kids[1..], sig)
  }

  /** `q` leads to a subcase of the tree. */
  predicate IsNode(kids: seq<Subcase>, q: Path) {
    q != [] &&
    var i := Find(kids, q[0]);
    i < |kids| && (|q| > 1 ==> IsNode(kids[i].kids, q[1..]))
  }

  predicate IsLeaf(kids: seq<Subcase>, q: Path) {
    q != [] &&
    var i := Find(kids, q[0]);
    i < |kids| && if |q| == 1 then kids[i].kids == [] else IsLeaf(kids[i].kids, q[1..])
  }

  /** Where the first subcase to be entered stands among its siblings. */
  function Target(kids: seq<Subcase>, q: Path): nat
  {
    if q == [] then 0 else Find(kids, q[0])
  }

  /** The leaves below the first subcase to be entered that are still to come. */
  function Here(kids: seq<Subcase>, q: Path): seq<Path>
    requires kids != [] && (q == [] || IsNode(kids, q))
    decreases |q|, 0
  {
    var t := kids[Target(kids, q)];
    if |q| <= 1 then LeavesOf(t) else Under(t.sig, From(t.kids, q[1..]))
  }

  /** The leaves at or after the subcase `q` in source order; all of them when `q` is empty. */
  function From(kids: seq<Subcase>, q: Path): seq<Path>
    requires q == [] || IsNode(kids, q)
    decreases |q|, 1
  {
    if kids == [] then [] else Here(kids, q) + Leaves(kids[Target(kids, q) + 1..])
  }

  // ---------------------------------------------------------------- facts about the tree

  lemma {:induction false} UnderAt(sig: Signature, paths: seq<Path>)
    ensures |Under(sig, paths)| == |paths|
    ensures forall i :: 0 <= i < |paths| ==> Under(sig, paths)[i] == [sig] + paths[i]
    ensures paths != [] ==> Under(sig, paths)[1..] == Under(sig, paths[1..])
  {
    if paths != [] {
      UnderAt(sig, paths[1..]);
    }
  }

  lemma {:induction false} LeavesExist(kids: seq<Subcase>)
    ensures kids != [] ==> Leaves(kids) != [] && LeavesOf(kids[0]) != []
  {
    if kids != [] {
      LeavesExist(kids[0].kids);
      UnderAt(kids[0].sig, Leaves(kids[0].kids));
    }
  }

  lemma {:induction false} FromExists(kids: seq<Subcase>, q: Path)
    requires kids != [] && (q == [] || IsNode(kids, q))
    ensures From(kids, q) != [] && Here(kids, q) != []
    ensures forall p :: p in Here(kids, q) ==> p != [] && p[0] == kids[Target(kids, q)].sig
    decreases |q|
  {
    var t := kids[Target(kids, q)];
    LeavesExist(kids[Target(kids, q)..]);
    UnderAt(t.sig, Leaves(t.kids));
    if |q| > 1 {
      FromExists(t.kids, q[1..]);
      UnderAt(t.sig, From(t.kids, q[1..]));
    }
  }

  /** `Leaves` lists exactly the paths that end in a childless subcase. */
  lemma {:induction false} LeavesAreLeafPaths(kids: seq<Subcase>, q: Path)
    requires Distinct(kids)
    ensures q in Leaves(kids) <==> IsLeaf(kids, q)
    decreases kids, 1
  {
    if kids != [] {
      var t, rest := kids[0], kids[1..];
      assert forall i :: 0 <= i < |rest| ==> rest[i] == kids[i + 1];
      LeavesAreLeafPaths(rest, q);
      LeavesOfOne(t, q);
      if q != [] && q[0] == t.sig {
        assert Find(kids, q[0]) == 0;
        assert Find(rest, q[0]) == |rest|;
      } else if q != [] {
        assert Find(kids, q[0]) == 1 + Find(rest, q[0]);
      }
    }
  }

  lemma {:induction false} LeavesOfOne(t: Subcase, q: Path)
    requires Distinct(t.kids)
    ensures q in LeavesOf(t) <==>
      q != [] && q[0] == t.sig && if |q| == 1 then t.kids == [] else IsLeaf(t.kids, q[1..])
    decreases t, 0
  {
    if t.kids == [] {
      assert q in LeavesOf(t) <==> q == [t.sig];
    } else {
      UnderAt(t.sig, Leaves(t.kids));
      if q == [] {
        assert forall i :: 0 <= i < |LeavesOf(t)| ==> LeavesOf(t)[i] != q;
      } else {
        LeavesAreLeafPaths(t.kids, q[1..]);
        if q[0] == t.sig && q[1..] in Leaves(t.kids) {
          var i :| 0 <= i < |Leaves(t.kids)| && Leaves(t.kids)[i] == q[1..];
          assert LeavesOf(t)[i] == q;
        }
        if q in LeavesOf(t) {
          var i :| 0 <= i < |LeavesOf(t)| && LeavesOf(t)[i] == q;
          assert Leaves(t.kids)[i] == q[1..];
        }
      }
    }
  }

  /** Where two paths part, the first one goes to an earlier sibling. */
  ghost predicate Earlier(kids: seq<Subcase>, p: Path, q: Path)
    decreases |p|
  {
    p != [] && q != [] &&
    if p[0] == q[0] then exists k :: 0 <= k < |kids| && kids[k].sig == p[0] && Earlier(kids[k].kids, p[1..], q[1..])
    else exists a, b :: 0 <= a < b < |kids| && kids[a].sig == p[0] && kids[b].sig == q[0]
  }

  lemma EarlierInRest(kids: seq<Subcase>, p: Path, q: Path)
    requires kids != [] && Earlier(kids[1..], p, q)
    ensures Earlier(kids, p, q)
  {
    assert forall k :: 0 <= k < |kids| - 1 ==> kids[1..][k] == kids[k + 1];
    if p[0] == q[0] {
      var k :| 0 <= k < |kids[1..]| && kids[1..][k].sig == p[0] && Earlier(kids[1..][k].kids, p[1..], q[1..]);
      assert kids[k + 1].sig == p[0];
    } else {
      var a, b :| 0 <= a < b < |kids[1..]| && kids[1..][a].sig == p[0] && kids[1..][b].sig == q[0];
      assert kids[a + 1].sig == p[0] && kids[b + 1].sig == q[0];
    }
  }

  lemma StartsWithKid(kids: seq<Subcase>, q: Path)
    requires Distinct(kids) && q in Leaves(kids)
    ensures q != [] && exists k :: 0 <= k < |kids| && kids[k].sig == q[0]
  {
    LeavesAreLeafPaths(kids, q);
  }

  /** The paths are listed in source order. */
  lemma {:induction false} LeavesInOrder(kids: seq<Subcase>, i: nat, j: nat)
    requires Distinct(kids) && i < j < |Leaves(kids)|
    ensures Earlier(kids, Leaves(kids)[i], Leaves(kids)[j])
    decreases kids
  {
    var t, rest := kids[0], kids[1..];
    var p, q, n := Leaves(kids)[i], Leaves(kids)[j], |LeavesOf(t)|;
    assert forall k :: 0 <= k < |rest| ==> rest[k] == kids[k + 1];
    if i >= n {
      LeavesInOrder(rest, i - n, j - n);
      EarlierInRest(kids, p, q);
    } else if j >= n {
      assert q == Leaves(rest)[j - n];
      StartsWithKid(rest, q);
      var k :| 0 <= k < |rest| && rest[k].sig == q[0];
      LeavesOfOne(t, p);
      assert kids[0].sig == p[0] && kids[k + 1].sig == q[0];
    } else if t.kids != [] {
      UnderAt(t.sig, Leaves(t.kids));
      LeavesInOrder(t.kids, i, j);
      assert p[1..] == Leaves(t.kids)[i] && q[1..] == Leaves(t.kids)[j];
    }
  }

  /** No path is listed twice. */
  lemma {:induction false} LeavesAreDistinct(kids: seq<Subcase>)
    requires Distinct(kids)
    ensures forall i, j :: 0 <= i < j < |Leaves(kids)| ==> Leaves(kids)[i] != Leaves(kids)[j]
    decreases kids
  {
    if kids != [] {
      var t, rest := kids[0], kids[1..];
      LeavesAreDistinct(t.kids);
      LeavesAreDistinct(rest);
      UnderAt(t.sig, Leaves(t.kids));
      var a, b := LeavesOf(t), Leaves(rest);
      forall i, j | 0 <= i < |a| && 0 <= j < |b|
        ensures a[i] != b[j]
      {
        assert b[j] in Leaves(rest);
        LeavesAreLeafPaths(rest, b[j]);
        assert rest[Find(rest, b[j][0])].sig == b[j][0];
      }
      forall i, j | 0 <= i < j < |a|
        ensures a[i] != a[j]
      {
        if t.kids != [] {
          assert a[i][1..] == Leaves(t.kids)[i] && a[j][1..] == Leaves(t.kids)[j];
        }
      }
    }
  }

  // ---------------------------------------------------------------- what the completed set must not contain

  /** No completed path goes through `p`. */
  ghost predicate NoneThrough(done: set<Path>, p: Path) {
    forall d :: d in done ==> !(p <= d)
  }

  /** Nothing at or after the subcase `path + q` has been completed yet. */
  ghost predicate Untouched(done: set<Path>, path: Path, kids: seq<Subcase>, q: Path)
    requires q == [] || IsNode(kids, q)
    decreases |q|
  {
    && (forall j :: Target(kids, q) < j < |kids| ==> NoneThrough(done, path + [kids[j].sig]))
    && if |q| <= 1 then
         kids != [] ==> NoneThrough(done, path + [kids[Target(kids, q)].sig])
       else
         Untouched(done, path + [q[0]], kids[Target(kids, q)].kids, q[1..])
  }

  lemma NoneDeeper(done: set<Path>, p: Path, s: Signature)
    requires NoneThrough(done, p)
    ensures NoneThrough(done, p + [s])
  {
    forall d | d in done
      ensures !(p + [s] <= d)
    {
      assert p + [s] <= d ==> p <= d;
    }
  }

  lemma EnterUntouched(done: set<Path>, path: Path, kids: seq<Subcase>, q: Path)
    requires kids != [] && (q == [] || IsNode(kids, q)) && Untouched(done, path, kids, q)
    ensures var t := kids[Target(kids, q)];
            Untouched(done, path + [t.sig], t.kids, if |q| <= 1 then [] else q[1..])
  {
    if |q| <= 1 {
      var t := kids[Target(kids, q)];
      forall k: Subcase
        ensures NoneThrough(done, path + [t.sig] + [k.sig])
      {
        NoneDeeper(done, path + [t.sig], k.sig);
      }
    }
  }

  /** The planned path `next` stands for exactly the leaves `rest`; an empty one says that none is left. */
  ghost predicate Plans(done: set<Path>, path: Path, kids: seq<Subcase>, next: Path, rest: seq<Path>) {
    if rest == [] then next == [] else
      && path < next && IsNode(kids, next[|path|..])
      && From(kids, next[|path|..]) == rest && Untouched(done, path, kids, next[|path|..])
  }

  /** As `Plans`, with every leaf of `rest` below the sibling at `t`. */
  ghost predicate PlansWithin(done: set<Path>, path: Path, kids: seq<Subcase>, t: nat, next: Path, rest: seq<Path>) {
    && path < next && IsNode(kids, next[|path|..]) && Target(kids, next[|path|..]) == t < |kids|
    && Here(kids, next[|path|..]) == rest && Untouched(done, path, kids, next[|path|..])
  }

  /** The plan while the siblings from `i` on are scanned: later siblings matter only if `here` held a single leaf. */
  ghost predicate ScanPlan(done: set<Path>, path: Path, kids: seq<Subcase>, t: nat, here: seq<Path>, next: Path, i: nat)
    requires t < i <= |kids| && here != []
  {
    && (forall j :: t < j < |kids| ==> NoneThrough(done, path + [kids[j].sig]))
    && if |here| > 1 then PlansWithin(done, path, kids, t, next, here[1..])
       else next == if i == t + 1 then [] else path + [kids[t + 1].sig]
  }

  /** What executing the body of an entered subcase can reach: an empty path stands for the body itself. */
  ghost function Own(kids: seq<Subcase>, q: Path): seq<Path>
    requires q == [] || IsNode(kids, q)
  {
    if kids == [] then [[]] else From(kids, q)
  }

  lemma SiblingsStayUntouched(done: set<Path>, path: Path, a: Signature, b: Signature, tail: Path)
    requires a != b && NoneThrough(done, path + [b])
    ensures NoneThrough(done + {path + [a] + tail}, path + [b])
  {
    assert (path + [a] + tail)[|path|] == a;
    assert (path + [b])[|path|] == b;
  }

  /** Descending one level in the plan is a matter of dropping one signature. */
  lemma PlanMovesUp(done: set<Path>, path: Path, kids: seq<Subcase>, i: nat, next: Path, rest: seq<Path>)
    requires Distinct(kids) && i < |kids| && rest != []
    requires Plans(done, path + [kids[i].sig], kids[i].kids, next, rest)
    requires forall j :: i < j < |kids| ==> NoneThrough(done, path + [kids[j].sig])
    ensures PlansWithin(done, path, kids, i, next, Under(kids[i].sig, rest))
  {
    var t := kids[i];
    var n, n' := next[|path|..], next[|path + [t.sig]|..];
    assert next[|path|] == (path + [t.sig])[|path|] == t.sig;
    assert n[0] == t.sig && n[1..] == n';
    assert Find(kids, t.sig) == i;
    assert path + [n[0]] == path + [t.sig];
    assert path < next;
    assert IsNode(kids, n);
    assert Here(kids, n) == Under(t.sig, From(t.kids, n'));
  }

  /** The plan left behind by a subcase, seen from the body around it. */
  lemma ChildPlanned(
      done: set<Path>, path: Path, kids: seq<Subcase>, i: nat, own: seq<Path>, here: seq<Path>, next: Path)
    requires Distinct(kids) && i < |kids| && own != [] && here == Under(kids[i].sig, own)
    requires forall j :: i < j < |kids| ==> NoneThrough(done, path + [kids[j].sig])
    requires Plans(done, path + [kids[i].sig], kids[i].kids, next, own[1..])
    ensures |here| == |own| && here[0] == [kids[i].sig] + own[0]
    ensures path + [kids[i].sig] + own[0] == path + here[0]
    ensures ScanPlan(done, path, kids, i, here, next, i + 1)
  {
    UnderAt(kids[i].sig, own);
    Reassociate(path, kids[i].sig, own[0]);
    if |own| == 1 {
      assert own[1..] == [];
    } else {
      PlanMovesUp(done, path, kids, i, next, own[1..]);
    }
  }

  lemma Reassociate(path: Path, sig: Signature, tail: Path)
    ensures path + [sig] + tail == path + ([sig] + tail)
  {
  }

  lemma LaterSiblingsUntouched(done: set<Path>, path: Path, kids: seq<Subcase>, q: Path, tail: Path)
    requires Distinct(kids) && kids != [] && (q == [] || IsNode(kids, q)) && Untouched(done, path, kids, q)
    ensures var i := Target(kids, q);
            forall j :: i < j < |kids| ==>
              NoneThrough(done + {path + [kids[i].sig] + tail}, path + [kids[j].sig])
  {
    var i := Target(kids, q);
    forall j | i < j < |kids|
      ensures NoneThrough(done + {path + [kids[i].sig] + tail}, path + [kids[j].sig])
    {
      SiblingsStayUntouched(done, path, kids[i].sig, kids[j].sig, tail);
    }
  }

  lemma HereIsOwn(kids: seq<Subcase>, q: Path)
    requires kids != [] && (q == [] || IsNode(kids, q))
    ensures var t := kids[Target(kids, q)];
            Here(kids, q) == Under(t.sig, Own(t.kids, if |q| <= 1 then [] else q[1..]))
  {
    var t := kids[Target(kids, q)];
    var itself: seq<Path> := [[]];
    UnderAt(t.sig, itself);
    assert Under(t.sig, itself)[0] == [t.sig] + itself[0] == [t.sig];
    if |q| <= 1 && t.kids != [] {
      assert Here(t.kids, []) == LeavesOf(t.kids[0]);
      assert From(t.kids, []) == Leaves(t.kids);
    }
  }

  /** After the scan the plan covers the rest of the body. */
  lemma ScanComplete(done: set<Path>, path: Path, kids: seq<Subcase>, q: Path, next: Path)
    requires Distinct(kids) && kids != [] && (q == [] || IsNode(kids, q)) && Here(kids, q) != []
    requires ScanPlan(done, path, kids, Target(kids, q), Here(kids, q), next, |kids|)
    ensures Plans(done, path, kids, next, From(kids, q)[1..])
  {
    var i, here := Target(kids, q), Here(kids, q);
    var later := Leaves(kids[i + 1..]);
    assert From(kids, q)[1..] == here[1..] + later;
    if |here| == 1 {
      assert here[1..] + later == later;
      if i + 1 < |kids| {
        NextSiblingPlanned(done, path, kids, i + 1, next);
      }
    }
  }

  /** Planning for a sibling is planning for the leaves of it and of all siblings after it. */
  lemma NextSiblingPlanned(done: set<Path>, path: Path, kids: seq<Subcase>, i: nat, next: Path)
    requires Distinct(kids) && i < |kids| && next == path + [kids[i].sig]
    requires forall j :: i <= j < |kids| ==> NoneThrough(done, path + [kids[j].sig])
    ensures Leaves(kids[i..]) != [] && Plans(done, path, kids, next, Leaves(kids[i..]))
  {
    var n := [kids[i].sig];
    LeavesExist(kids[i..]);
    assert next[|path|..] == n && Find(kids, n[0]) == i;
    assert kids[i..][1..] == kids[i + 1..] && kids[i..][0] == kids[i];
    assert From(kids, n) == LeavesOf(kids[i]) + Leaves(kids[i + 1..]);
  }

  // ---------------------------------------------------------------- the run state

  /** The fields of the run state that subcases read and write. */
  class RunState {
    var subcaseStack: Path
    var nextSubcaseStack: Path
    var currentSubcaseDepth: nat
    var reachedLeaf: bool
    var fullyTraversedSubcases: set<Path>
    /** The childless subcases whose bodies have been executed, in order. */
    ghost var executed: seq<Path>

    constructor ()
      ensures nextSubcaseStack == []
    {
      nextSubcaseStack := [];
    }

    /** The constructor of a subcase; the result says whether its body is executed. */
    method Construct(sig: Signature) returns (entered: bool)
      requires reachedLeaf ==> currentSubcaseDepth < |subcaseStack|
      modifies this`subcaseStack, this`nextSubcaseStack, this`currentSubcaseDepth
      ensures !reachedLeaf ==>
        && entered == old(|nextSubcaseStack| <= |subcaseStack| || nextSubcaseStack[|subcaseStack|] == sig)
        && subcaseStack == (if entered then old(subcaseStack) + [sig] else old(subcaseStack))
        && nextSubcaseStack == old(nextSubcaseStack)
      ensures reachedLeaf ==>
        && entered == old(subcaseStack[currentSubcaseDepth] == sig)
        && subcaseStack == old(subcaseStack)
        && nextSubcaseStack ==
           var here := subcaseStack[..old(currentSubcaseDepth)] + [sig];
           if !entered && |old(nextSubcaseStack)| <= old(currentSubcaseDepth) && here !in fullyTraversedSubcases
           then here else old(nextSubcaseStack)
      ensures currentSubcaseDepth == old(currentSubcaseDepth) + if entered then 1 else 0
    {
      entered := false;
      if !reachedLeaf {
        if |nextSubcaseStack| <= |subcaseStack| || nextSubcaseStack[|subcaseStack|] == sig {
          subcaseStack := subcaseStack + [sig];
          currentSubcaseDepth := currentSubcaseDepth + 1;
          entered := true;
        }
      } else {
        if subcaseStack[currentSubcaseDepth] == sig {
          currentSubcaseDepth := currentSubcaseDepth + 1;
          entered := true;
        } else if |nextSubcaseStack| <= currentSubcaseDepth
                  && subcaseStack[..currentSubcaseDepth] + [sig] !in fullyTraversedSubcases {
          nextSubcaseStack := subcaseStack[..currentSubcaseDepth];
          nextSubcaseStack := nextSubcaseStack + [sig];
        }
      }
    }

    /** The destructor of a subcase whose body was executed. */
    method Destruct()
      requires currentSubcaseDepth > 0
      modifies this`nextSubcaseStack, this`currentSubcaseDepth, this`reachedLeaf, this`fullyTraversedSubcases
      ensures currentSubcaseDepth == old(currentSubcaseDepth) - 1 && reachedLeaf
      ensures nextSubcaseStack == if old(reachedLeaf) then old(nextSubcaseStack) else []
      ensures fullyTraversedSubcases ==
        old(fullyTraversedSubcases) + if nextSubcaseStack == [] then {subcaseStack} else {}
    {
      currentSubcaseDepth := currentSubcaseDepth - 1;
      if !reachedLeaf {
        fullyTraversedSubcases := fullyTraversedSubcases + {subcaseStack};
        nextSubcaseStack := [];
        reachedLeaf := true;
      } else if nextSubcaseStack == [] {
        fullyTraversedSubcases := fullyTraversedSubcases + {subcaseStack};
      }
    }

    /** About to execute a body at `path`; `q` is what the planned path adds below it. */
    ghost predicate Descending(path: Path, kids: seq<Subcase>, q: Path)
      reads this
    {
      && !reachedLeaf && subcaseStack == path && currentSubcaseDepth == |path|
      && (if q == [] then |nextSubcaseStack| <= |path| else nextSubcaseStack == path + q && IsNode(kids, q))
      && Untouched(fullyTraversedSubcases, path, kids, q)
    }

    /** A leaf has been reached below `path`: `rest` are the leaves left, and the next path plans for exactly those. */
    ghost predicate Planned(path: Path, kids: seq<Subcase>, leaf: Path, rest: seq<Path>)
      reads this
    {
      && reachedLeaf && subcaseStack == path + leaf && leaf != [] && currentSubcaseDepth == |path|
      && Plans(fullyTraversedSubcases, path, kids, nextSubcaseStack, rest)
    }

    /** Scanning the siblings after the one that was entered; `here` are the leaves the latter had to offer. */
    ghost predicate Scanning(path: Path, kids: seq<Subcase>, t: nat, here: seq<Path>, i: nat)
      requires t < i <= |kids| && here != []
      reads this
    {
      && reachedLeaf && subcaseStack == path + here[0] && here[0] != [] && here[0][0] == kids[t].sig
      && currentSubcaseDepth == |path|
      && ScanPlan(fullyTraversedSubcases, path, kids, t, here, nextSubcaseStack, i)
    }

    /** Execute a body once. It runs exactly one new leaf, the first one planned, and plans for the others. */
    method RunBody(ghost path: Path, kids: seq<Subcase>, ghost q: Path)
      requires Distinct(kids) && Descending(path, kids, q)
      modifies this
      ensures kids == [] ==>
        && Descending(path, kids, q) && nextSubcaseStack == old(nextSubcaseStack)
        && fullyTraversedSubcases == old(fullyTraversedSubcases) && executed == old(executed)
      ensures kids != [] ==>
        var all := From(kids, q);
        && all != [] && Planned(path, kids, all[0], all[1..])
        && fullyTraversedSubcases == old(fullyTraversedSubcases) + {path + all[0]}
        && executed == old(executed) + [path + all[0]]
      decreases kids, 2
    {
      ghost var t := Target(kids, q);
      ghost var here := if kids == [] then [] else Here(kids, q);
      if kids != [] {
        FromExists(kids, q);
      }
      var i := 0;
      while i < |kids|
        invariant 0 <= i <= |kids|
        invariant i <= t ==>
          && Descending(path, kids, q) && nextSubcaseStack == old(nextSubcaseStack)
          && fullyTraversedSubcases == old(fullyTraversedSubcases) && executed == old(executed)
        invariant i > t ==>
          && Scanning(path, kids, t, here, i)
          && fullyTraversedSubcases == old(fullyTraversedSubcases) + {path + here[0]}
          && executed == old(executed) + [path + here[0]]
      {
        RunSubcase(path, kids, i, q);
        i := i + 1;
      }
      if kids != [] {
        ScanComplete(fullyTraversedSubcases, path, kids, q, nextSubcaseStack);
      }
    }

    /** One subcase of the body: executed if it is the target, passed by otherwise. */
    method RunSubcase(ghost path: Path, kids: seq<Subcase>, i: nat, ghost q: Path)
      requires Distinct(kids) && i < |kids| && (q == [] || IsNode(kids, q))
      requires i <= Target(kids, q) ==> Descending(path, kids, q)
      requires i > Target(kids, q) ==> Here(kids, q) != [] && Scanning(path, kids, Target(kids, q), Here(kids, q), i)
      modifies this
      ensures i < Target(kids, q) ==> Descending(path, kids, q) && nextSubcaseStack == old(nextSubcaseStack)
      ensures i >= Target(kids, q) ==>
        Here(kids, q) != [] && Scanning(path, kids, Target(kids, q), Here(kids, q), i + 1)
      ensures i != Target(kids, q) ==>
        fullyTraversedSubcases == old(fullyTraversedSubcases) && executed == old(executed)
      ensures i == Target(kids, q) ==>
        && fullyTraversedSubcases == old(fullyTraversedSubcases) + {path + Here(kids, q)[0]}
        && executed == old(executed) + [path + Here(kids, q)[0]]
      decreases kids, 1
    {
      var entered := Construct(kids[i].sig);
      assert entered == (i == Target(kids, q));
      if entered {
        RunTarget(path, kids, i, q);
      }
    }

    /** The subcase of the body to be executed in this run, once it has been entered. */
    method RunTarget(ghost path: Path, kids: seq<Subcase>, i: nat, ghost q: Path)
      requires Distinct(kids) && i < |kids| && (q == [] || IsNode(kids, q)) && i == Target(kids, q)
      requires !reachedLeaf && subcaseStack == path + [kids[i].sig] && currentSubcaseDepth == |path| + 1
      requires if q == [] then |nextSubcaseStack| <= |path| else nextSubcaseStack == path + q
      requires Untouched(fullyTraversedSubcases, path, kids, q)
      modifies this
      ensures Here(kids, q) != [] && Scanning(path, kids, i, Here(kids, q), i + 1)
      ensures fullyTraversedSubcases == old(fullyTraversedSubcases) + {path + Here(kids, q)[0]}
      ensures executed == old(executed) + [path + Here(kids, q)[0]]
      decreases kids, 0
    {
      ghost var sig := kids[i].sig;
      ghost var q' := if |q| <= 1 then [] else q[1..];
      ghost var own := Own(kids[i].kids, q');
      assert Descending(path + [sig], kids[i].kids, q') by {
        EnterUntouched(fullyTraversedSubcases, path, kids, q);
        assert q' != [] ==> path + q == path + [sig] + q';
      }
      RunEntered(path, kids[i], q');
      HereIsOwn(kids, q);
      LaterSiblingsUntouched(old(fullyTraversedSubcases), path, kids, q, own[0]);
      ChildPlanned(fullyTraversedSubcases, path, kids, i, own, Here(kids, q), nextSubcaseStack);
    }

    /** Execute the body of the subcase just entered, and its destructor. */
    method RunEntered(ghost path: Path, t: Subcase, ghost q: Path)
      requires Distinct(t.kids) && Descending(path + [t.sig], t.kids, q)
      modifies this
      ensures var own := Own(t.kids, q);
        && own != []
        && reachedLeaf && subcaseStack == path + [t.sig] + own[0] && currentSubcaseDepth == |path|
        && fullyTraversedSubcases == old(fullyTraversedSubcases) + {path + [t.sig] + own[0]}
        && executed == old(executed) + [path + [t.sig] + own[0]]
        && Plans(fullyTraversedSubcases, path + [t.sig], t.kids, nextSubcaseStack, own[1..])
      decreases t
    {
      RunBody(path + [t.sig], t.kids, q);
      if t.kids == [] {
        executed := executed + [path + [t.sig]];
      }
      Destruct();
    }

    /** The leaves in `log` have been executed and the planned path stands for all the others. */
    ghost predicate Remaining(test: seq<Subcase>, log: seq<Path>)
      reads this
    {
      && (nextSubcaseStack == [] || IsNode(test, nextSubcaseStack))
      && Untouched(fullyTraversedSubcases, [], test, nextSubcaseStack)
      && log + From(test, nextSubcaseStack) == Leaves(test)
    }

    /** One iteration of the run loop: one more leaf, the next in source order, unless the test has none. */
    method RunOnce(test: seq<Subcase>, ghost log: seq<Path>) returns (ghost log': seq<Path>)
      requires Distinct(test) && Remaining(test, log)
      modifies this
      ensures test == [] ==>
        && log' == log && nextSubcaseStack == []
        && executed == old(executed) && fullyTraversedSubcases == old(fullyTraversedSubcases)
      ensures test != [] ==>
        && |log'| == |log| + 1 <= |Leaves(test)| && log' == log + [log'[|log|]]
        && executed == old(executed) + [log'[|log|]]
        && fullyTraversedSubcases == old(fullyTraversedSubcases) + {log'[|log|]}
      ensures if nextSubcaseStack == [] then log' == Leaves(test) else Remaining(test, log')
    {
      reachedLeaf := false;
      subcaseStack := [];
      currentSubcaseDepth := 0;
      ghost var all := From(test, nextSubcaseStack);
      RunBody([], test, nextSubcaseStack);
      log' := log;
      if test != [] {
        log' := log + [all[0]];
        LogAdvances(log, all, nextSubcaseStack);
      }
    }

    /** The run loop: the body is executed until no next path has been planned. */
    method RunTest(test: seq<Subcase>) returns (runs: nat)
      requires Distinct(test) && nextSubcaseStack == []
      modifies this
      ensures executed == old(executed) + Leaves(test)
      ensures fullyTraversedSubcases == set p | p in Leaves(test)
      ensures nextSubcaseStack == []
      ensures runs == if test == [] then 1 else |Leaves(test)|
    {
      assert test == [] ==> Leaves(test) == [];
      hide Leaves, From, Untouched, IsNode, Distinct;
      fullyTraversedSubcases := {};
      runs := 0;
      ghost var log: seq<Path> := [];
      FromStart(test);
      var runTest := true;
      while runTest
        invariant executed == old(executed) + log
        invariant if runTest then Remaining(test, log) else nextSubcaseStack == [] && log == Leaves(test)
        invariant forall p :: p in fullyTraversedSubcases <==> p in log
        invariant runs == |log| + if test == [] && !runTest then 1 else 0
        decreases |Leaves(test)| - |log|, runTest
      {
        ghost var l := log;
        log := RunOnce(test, log);
        if test != [] {
          LogGrows(old(executed), l, log[|l|]);
        }
        runs := runs + 1;
        if nextSubcaseStack == [] {
          runTest := false;
        }
      }
    }
  }

  lemma FromStart(test: seq<Subcase>)
    ensures Untouched({}, [], test, []) && [] + From(test, []) == Leaves(test)
  {
  }

  lemma LogGrows(before: seq<Path>, log: seq<Path>, leaf: Path)
    ensures before + log + [leaf] == before + (log + [leaf])
    ensures forall p :: p in log + [leaf] <==> p in log || p == leaf
  {
  }

  lemma LogAdvances(log: seq<Path>, all: seq<Path>, next: Path)
    requires all != []
    ensures [] + all[0] == all[0] && log + all == log + [all[0]] + all[1..]
    ensures next[0..] == next
  {
  }
}
