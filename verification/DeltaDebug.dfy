/** Delta debugging over a list of flags: sequential, and with the tests of a round running concurrently. */
module DeltaDebug {

  type Flag = string

  /** Whether running the program with exactly these flags shows the behaviour looked for. */
  type Oracle = seq<Flag> -> bool

  function Min(a: int, b: int): int {
    if a <= b then a else b
  }

  function Max(a: int, b: int): int {
    if a >= b then a else b
  }

  /** The flags not in `drop`, in their order. */
  function Complement(flags: seq<Flag>, drop: seq<Flag>): seq<Flag> {
    if flags == [] then []
    else if flags[0] in drop then Complement(flags[1..], drop)
    else [flags[0]] + Complement(flags[1..], drop)
  }

  predicate Distinct(flags: seq<Flag>) {
    forall i, j :: 0 <= i < j < |flags| ==> flags[i] != flags[j]
  }

  /** `a` arises from `b` by leaving flags out. */
  ghost predicate Subsequence(a: seq<Flag>, b: seq<Flag>) {
    a == [] || (b != [] && if a[0] == b[0] then Subsequence(a[1..], b[1..]) else Subsequence(a, b[1..]))
  }

  /** Of two or more flags none can be spared, and none suffices alone. */
  ghost predicate Minimal(hot: Oracle, flags: seq<Flag>) {
    |flags| >= 2 ==> forall i :: 0 <= i < |flags| ==> !hot(Complement(flags, [flags[i]])) && !hot([flags[i]])
  }

  /** What a search may end with. */
  ghost predicate Found(hot: Oracle, initial: seq<Flag>, flags: seq<Flag>) {
    Subsequence(flags, initial) && (flags == initial || hot(flags))
  }

  // ---------------------------------------------------------------- facts

  lemma {:induction false} SubsequenceDrops(a: seq<Flag>, b: seq<Flag>)
    requires b != [] && Subsequence(a, b[1..])
    ensures Subsequence(a, b)
    decreases |b|, 0
  {
    if a != [] && a[0] == b[0] {
      SubsequenceTail(a, b[1..]);
    }
  }

  lemma {:induction false} SubsequenceTail(a: seq<Flag>, b: seq<Flag>)
    requires a != [] && Subsequence(a, b)
    ensures Subsequence(a[1..], b)
    decreases |b|, 1
  {
    if a[0] == b[0] {
      SubsequenceDrops(a[1..], b);
    } else {
      SubsequenceTail(a, b[1..]);
      SubsequenceDrops(a[1..], b);
    }
  }

  lemma {:induction false} SubsequenceTransitive(a: seq<Flag>, b: seq<Flag>, c: seq<Flag>)
    requires Subsequence(a, b) && Subsequence(b, c)
    ensures Subsequence(a, c)
    decreases |c|
  {
    if a != [] {
      if b[0] == c[0] {
        if a[0] == b[0] {
          SubsequenceTransitive(a[1..], b[1..], c[1..]);
        } else {
          SubsequenceTransitive(a, b[1..], c[1..]);
          SubsequenceDrops(a, c);
        }
      } else {
        SubsequenceTransitive(a, b, c[1..]);
        SubsequenceDrops(a, c);
      }
    }
  }

  lemma {:induction false} ComplementIsSubsequence(flags: seq<Flag>, drop: seq<Flag>)
    ensures Subsequence(Complement(flags, drop), flags)
    ensures |Complement(flags, drop)| <= |flags|
    ensures (exists f :: f in flags && f in drop) ==> |Complement(flags, drop)| < |flags|
  {
    if flags != [] {
      ComplementIsSubsequence(flags[1..], drop);
      if flags[0] in drop {
        SubsequenceDrops(Complement(flags, drop), flags);
      } else {
        assert Complement(flags, drop)[1..] == Complement(flags[1..], drop);
      }
    }
  }

  lemma {:induction false} SliceIsSubsequence(flags: seq<Flag>, i: nat, j: nat)
    requires i <= j <= |flags|
    ensures Subsequence(flags[i..j], flags)
    decreases |flags|
  {
    if i < j {
      if i == 0 {
        SliceIsSubsequence(flags[1..], 0, j - 1);
        assert flags[0..j][1..] == flags[1..][0..j - 1];
      } else {
        SliceIsSubsequence(flags[1..], i - 1, j - 1);
        assert flags[1..][i - 1..j - 1] == flags[i..j];
        SubsequenceDrops(flags[i..j], flags);
      }
    }
  }

  /** Without repeated flags a complement is as long as expected. */
  lemma {:induction false} ComplementOfSlice(flags: seq<Flag>, i: nat, j: nat)
    requires Distinct(flags) && i <= j <= |flags|
    ensures Complement(flags, flags[i..j]) == flags[..i] + flags[j..]
  {
    ComplementBetween(flags, i, j, 0);
  }

  lemma {:induction false} ComplementBetween(flags: seq<Flag>, i: nat, j: nat, k: nat)
    requires Distinct(flags) && i <= j <= |flags| && k <= |flags|
    ensures Complement(flags[k..], flags[i..j]) ==
      if k <= i then flags[k..i] + flags[j..] else if k <= j then flags[j..] else flags[k..]
    decreases |flags| - k
  {
    if k < |flags| {
      ComplementBetween(flags, i, j, k + 1);
      DroppedIff(flags, i, j, k);
      NextFlag(flags, k, flags[i..j]);
      hide Distinct, Complement;
      if k < i {
        KeptInFront(flags, i, j, k);
      }
    }
  }

  lemma NextFlag(flags: seq<Flag>, k: nat, drop: seq<Flag>)
    requires k < |flags|
    ensures Complement(flags[k..], drop) ==
              if flags[k] in drop then Complement(flags[k + 1..], drop) else [flags[k]] + Complement(flags[k + 1..], drop)
  {
    assert flags[k..][1..] == flags[k + 1..];
  }

  lemma KeptInFront(flags: seq<Flag>, i: nat, j: nat, k: nat)
    requires k < i <= j <= |flags|
    ensures [flags[k]] + (flags[k + 1..i] + flags[j..]) == flags[k..i] + flags[j..]
  {
    assert flags[k..i] == [flags[k]] + flags[k + 1..i];
  }

  lemma DroppedIff(flags: seq<Flag>, i: nat, j: nat, k: nat)
    requires Distinct(flags) && i <= j <= |flags| && k < |flags|
    ensures flags[k] in flags[i..j] <==> i <= k < j
  {
    if i <= k < j {
      assert flags[i..j][k - i] == flags[k];
    }
  }

  lemma NothingToDrop(flags: seq<Flag>)
    ensures Complement(flags, []) == flags
  {
    if flags != [] {
      NothingToDrop(flags[1..]);
    }
  }

  lemma {:induction false} ComplementMembers(flags: seq<Flag>, drop: seq<Flag>)
    ensures forall f :: f in Complement(flags, drop) <==> f in flags && f !in drop
    ensures Distinct(flags) ==> Distinct(Complement(flags, drop))
  {
    if flags != [] {
      ComplementMembers(flags[1..], drop);
    }
  }

  /** Every flag that is not dropped stays, as often as it was there. */
  lemma {:induction false} ComplementCounts(flags: seq<Flag>, drop: seq<Flag>, f: Flag)
    ensures multiset(Complement(flags, drop))[f] == if f in drop then 0 else multiset(flags)[f]
  {
    if flags != [] {
      ComplementCounts(flags[1..], drop, f);
      assert flags == [flags[0]] + flags[1..];
    }
  }

  function PerSliceLen(n: nat, granularity: nat): nat
    requires granularity > 0
  {
    n / granularity
  }

  /** So many flags fit into each slice, if there are to be that many slices, and no more. */
  lemma SliceLength(n: nat, g: nat)
    requires g > 0
    ensures PerSliceLen(n, g) * g <= n < (PerSliceLen(n, g) + 1) * g
  {
    var q := n / g;
    assert n == q * g + n % g;
    assert (q + 1) * g == q * g + g;
  }

  lemma NoSlices(n: nat, g: nat)
    requires n < g
    ensures PerSliceLen(n, g) == 0
  {
  }

  /** A slice leaves room for one slice less than before. */
  lemma GranularityFits(n: nat, g: nat)
    requires 2 <= g <= n
    ensures var q := PerSliceLen(n, g); 1 <= q && 2 * q <= n && n - q >= g - 1
    ensures g == n ==> PerSliceLen(n, g) == 1
  {
    var q := n / g;
    assert q >= 1;
    assert q * g + n % g == n;
    ProductBound(q, g);
  }

  lemma ProductBound(q: nat, g: nat)
    requires q >= 1 && g >= 2
    ensures q * g >= q + g - 1 && q * g >= 2 * q
  {
    if q > 1 {
      ProductBound(q - 1, g);
    }
  }

  /** What is left of the flags when the slice `flags[i..j]` is taken, or taken away. */
  lemma SliceShrinks(flags: seq<Flag>, i: nat, j: nat)
    requires i < j <= |flags| && j - i < |flags|
    ensures Subsequence(flags[i..j], flags) && |flags[i..j]| < |flags|
    ensures Subsequence(Complement(flags, flags[i..j]), flags) && |Complement(flags, flags[i..j])| < |flags|
    ensures Distinct(flags) ==>
      && Distinct(flags[i..j]) && Distinct(Complement(flags, flags[i..j]))
      && |Complement(flags, flags[i..j])| == |flags| - (j - i)
  {
    SliceIsSubsequence(flags, i, j);
    assert flags[i] in flags[i..j];
    ComplementIsSubsequence(flags, flags[i..j]);
    ComplementMembers(flags, flags[i..j]);
    if Distinct(flags) {
      ComplementOfSlice(flags, i, j);
    }
  }

  // ---------------------------------------------------------------- sequential

  /** With slices of one flag, those before `offset` have been tested, to no avail. */
  ghost predicate Tested(hot: Oracle, flags: seq<Flag>, per: nat, offset: nat) {
    per == 1 ==> forall i :: 0 <= i < offset && i < |flags| ==> !hot(Complement(flags, [flags[i]])) && !hot([flags[i]])
  }

  lemma TestedOneMore(hot: Oracle, flags: seq<Flag>, per: nat, offset: nat, subset: seq<Flag>)
    requires Tested(hot, flags, per, offset) && offset < |flags| && subset == flags[offset..Min(offset + per, |flags|)]
    requires !hot(Complement(flags, subset)) && !hot(subset)
    ensures Tested(hot, flags, per, offset + per)
  {
    assert per == 1 ==> subset == [flags[offset]];
  }

  lemma TestedNone(hot: Oracle, flags: seq<Flag>, per: nat)
    ensures Tested(hot, flags, per, 0)
  {
  }

  lemma TestedAll(hot: Oracle, flags: seq<Flag>, offset: nat)
    requires Tested(hot, flags, 1, offset) && offset >= |flags|
    ensures Minimal(hot, flags)
  {
  }

  /** The search has `flags` left. Granularity exceeds their number only if they were reported hot and flags are repeated. */
  ghost predicate Searching(hot: Oracle, initial: seq<Flag>, flags: seq<Flag>, granularity: int) {
    && Found(hot, initial, flags) && granularity >= 2
    && (|flags| >= 2 && granularity > |flags| ==> hot(flags))
    && (Distinct(initial) && initial != [] ==>
          Distinct(flags) && flags != [] && (|flags| >= 2 ==> granularity <= |flags|))
  }

  lemma SearchGoesOn(hot: Oracle, initial: seq<Flag>, flags: seq<Flag>, g: int, i: nat, j: nat)
    requires Searching(hot, initial, flags, g) && 2 <= g <= |flags|
    requires i < j <= |flags| && j - i <= PerSliceLen(|flags|, g)
    ensures var less := Complement(flags, flags[i..j]);
            |less| < |flags| && (hot(less) ==> Searching(hot, initial, less, Max(g - 1, 2)))
    ensures |flags[i..j]| < |flags| && (hot(flags[i..j]) ==> Searching(hot, initial, flags[i..j], 2))
  {
    GranularityFits(|flags|, g);
    SliceShrinks(flags, i, j);
    SubsequenceTransitive(flags[i..j], flags, initial);
    SubsequenceTransitive(Complement(flags, flags[i..j]), flags, initial);
  }

  /** With a deterministic oracle the search ends, whether or not flags are repeated, and what it finds is minimal. */
  method DdMin(hot: Oracle, initial: seq<Flag>) returns (current: seq<Flag>)
    ensures Found(hot, initial, current) && Minimal(hot, current)
    ensures Distinct(initial) && initial != [] ==> current != []
  {
    hide Subsequence, Distinct, Tested, PerSliceLen, Complement;
    current := initial;
    var granularity := 2;
    SliceIsSubsequence(initial, 0, |initial|);
    assert initial[0..|initial|] == initial;
    while |current| >= 2
      invariant Searching(hot, initial, current, granularity)
      decreases |current|, if granularity > |current| then |current| + granularity else |current| - granularity
    {
      var changed := false;
      var flags := current;
      var offset, per := 0, PerSliceLen(|flags|, granularity);
      if granularity > |flags| {
        NothingToDrop(flags);
        NoSlices(|flags|, granularity);
      } else {
        GranularityFits(|flags|, granularity);
      }
      TestedNone(hot, flags, per);
      while offset < |flags|
        invariant !changed && current == flags && 0 <= offset && Tested(hot, flags, per, offset)
        invariant granularity > |flags| ==> offset == 0
        decreases |flags| - offset
      {
        var subset := flags[offset..Min(offset + per, |flags|)];
        var complement := Complement(flags, subset);
        if granularity <= |flags| {
          SearchGoesOn(hot, initial, flags, granularity, offset, Min(offset + per, |flags|));
        }
        if hot(complement) {
          current := complement;
          granularity := Max(granularity - 1, 2);
          changed := true;
          break;
        } else if hot(subset) {
          current := subset;
          granularity := 2;
          changed := true;
          break;
        }
        TestedOneMore(hot, flags, per, offset, subset);
        offset := offset + per;
      }
      if !changed {
        if granularity == |current| {
          TestedAll(hot, flags, offset);
          break;
        }
        granularity := Min(granularity * 2, |current|);
      }
    }
  }

  // ---------------------------------------------------------------- parallel

  function Flatten(slices: seq<seq<Flag>>): seq<Flag> {
    if slices == [] then [] else Flatten(slices[..|slices| - 1]) + slices[|slices| - 1]
  }

  /** Consecutive slices, of which the last may be shorter. */
  function Slices(flags: seq<Flag>, per: nat): seq<seq<Flag>>
    decreases |flags|
  {
    if flags == [] || per == 0 then []
    else [flags[..Min(per, |flags|)]] + Slices(flags[Min(per, |flags|)..], per)
  }

  ghost predicate SliceOf(s: seq<Flag>, flags: seq<Flag>, per: nat, i: nat) {
    i < |flags| && s == flags[i..Min(i + per, |flags|)]
  }

  /** The slices are consecutive and together all of the flags. */
  method PairwiseDisjoints(flags: seq<Flag>, granularity: nat) returns (slices: seq<seq<Flag>>, ghost starts: seq<nat>)
    requires 2 <= granularity <= |flags|
    ensures Flatten(slices) == flags && |starts| == |slices|
    ensures slices == Slices(flags, PerSliceLen(|flags|, granularity))
    ensures forall k :: 0 <= k < |slices| ==> SliceOf(slices[k], flags, PerSliceLen(|flags|, granularity), starts[k])
    ensures granularity == |flags| ==> |slices| == |flags| && forall k :: 0 <= k < |flags| ==> slices[k] == [flags[k]]
  {
    hide SliceOf, Flatten, PerSliceLen, Slices;
    slices, starts := [], [];
    var offset, per := 0, PerSliceLen(|flags|, granularity);
    GranularityFits(|flags|, granularity);
    FlattenNone(flags);
    assert flags[0..] == flags;
    while offset < |flags|
      invariant 0 <= offset && Flatten(slices) == flags[..Min(offset, |flags|)] && |starts| == |slices|
      invariant forall k :: 0 <= k < |slices| ==> SliceOf(slices[k], flags, per, starts[k])
      invariant slices + Slices(flags[Min(offset, |flags|)..], per) == Slices(flags, per)
      invariant granularity == |flags| ==> |slices| == offset <= |flags|
      invariant granularity == |flags| ==> forall k :: 0 <= k < |slices| ==> slices[k] == [flags[k]]
      decreases |flags| - offset
    {
      var s := flags[offset..Min(offset + per, |flags|)];
      FlattenOneMore(slices, flags, offset, Min(offset + per, |flags|));
      SliceAt(flags, per, offset);
      NextSlice(flags, per, offset);
      slices, starts := slices + [s], starts + [offset];
      offset := offset + per;
    }
    assert flags[..|flags|] == flags;
    NoSliceLeft(flags, per);
  }

  lemma NoSliceLeft(flags: seq<Flag>, per: nat)
    ensures Slices(flags[|flags|..], per) == []
  {
  }

  lemma NextSlice(flags: seq<Flag>, per: nat, i: nat)
    requires i < |flags| && per >= 1
    ensures var j := Min(i + per, |flags|); Slices(flags[i..], per) == [flags[i..j]] + Slices(flags[j..], per)
  {
    var j := Min(i + per, |flags|);
    assert flags[i..][..Min(per, |flags[i..]|)] == flags[i..j];
    assert flags[i..][Min(per, |flags[i..]|)..] == flags[j..];
  }

  lemma SliceAt(flags: seq<Flag>, per: nat, i: nat)
    requires i < |flags| && per >= 1
    ensures SliceOf(flags[i..Min(i + per, |flags|)], flags, per, i)
    ensures per == 1 ==> flags[i..Min(i + per, |flags|)] == [flags[i]]
  {
  }

  lemma FlattenNone(flags: seq<Flag>)
    ensures Flatten([]) == flags[..0]
  {
  }

  lemma FlattenOneMore(slices: seq<seq<Flag>>, flags: seq<Flag>, i: nat, j: nat)
    requires i <= j <= |flags| && Flatten(slices) == flags[..i]
    ensures Flatten(slices + [flags[i..j]]) == flags[..j]
  {
    assert (slices + [flags[i..j]])[..|slices|] == slices;
  }

  /** No job that has ended was hot. Jobs of the first kind test a slice, those of the second kind its complement. */
  ghost predicate Cold(hot: Oracle, flags: seq<Flag>, slices: seq<seq<Flag>>, subsets: set<nat>, complements: set<nat>) {
    && (forall k: nat :: k < |slices| && k !in subsets ==> !hot(slices[k]))
    && forall k: nat :: k < |slices| && k !in complements ==> !hot(Complement(flags, slices[k]))
  }

  lemma NoneEnded(hot: Oracle, flags: seq<Flag>, slices: seq<seq<Flag>>, jobs: set<nat>)
    requires forall k: nat :: k < |slices| ==> k in jobs
    ensures Cold(hot, flags, slices, jobs, jobs)
  {
  }

  lemma OneMoreCold(hot: Oracle, flags: seq<Flag>, slices: seq<seq<Flag>>, subsets: set<nat>, complements: set<nat>, k: nat)
    requires Cold(hot, flags, slices, subsets, complements) && k < |slices|
    ensures !hot(slices[k]) ==> Cold(hot, flags, slices, subsets - {k}, complements)
    ensures !hot(Complement(flags, slices[k])) ==> Cold(hot, flags, slices, subsets, complements - {k})
  {
  }

  lemma AllCold(hot: Oracle, flags: seq<Flag>, slices: seq<seq<Flag>>)
    requires Cold(hot, flags, slices, {}, {}) && |slices| == |flags|
    requires forall k :: 0 <= k < |flags| ==> slices[k] == [flags[k]]
    ensures Minimal(hot, flags)
  {
    forall i | 0 <= i < |flags|
      ensures !hot(Complement(flags, [flags[i]])) && !hot([flags[i]])
    {
      assert slices[i] == [flags[i]];
    }
  }

  /** A hot slice, or a hot complement of one, is what a round goes on with. */
  ghost predicate Takes(hot: Oracle, flags: seq<Flag>, granularity: nat, s: seq<Flag>, current: seq<Flag>, granularity': nat) {
    || (hot(s) && current == s && granularity' == 2)
    || (hot(Complement(flags, s)) && current == Complement(flags, s) && granularity' == Max(granularity - 1, 2))
  }

  ghost predicate Decides(hot: Oracle, flags: seq<Flag>, granularity: nat, current: seq<Flag>, granularity': nat)
    requires granularity > 0
  {
    var slices := Slices(flags, PerSliceLen(|flags|, granularity));
    exists k :: 0 <= k < |slices| && Takes(hot, flags, granularity, slices[k], current, granularity')
  }

  lemma DecidesBy(hot: Oracle, flags: seq<Flag>, granularity: nat, k: nat, current: seq<Flag>, granularity': nat)
    requires granularity > 0 && k < |Slices(flags, PerSliceLen(|flags|, granularity))|
    requires Takes(hot, flags, granularity, Slices(flags, PerSliceLen(|flags|, granularity))[k], current, granularity')
    ensures Decides(hot, flags, granularity, current, granularity')
  {
  }

  ghost predicate NoneHot(hot: Oracle, flags: seq<Flag>, granularity: nat)
    requires granularity > 0
  {
    Cold(hot, flags, Slices(flags, PerSliceLen(|flags|, granularity)), {}, {})
  }

  /** One round: the jobs end in any order, the first hot one decides, and what has not ended by then is cancelled. */
  method Round(hot: Oracle, initial: seq<Flag>, flags: seq<Flag>, granularity: nat)
      returns (changed: bool, current: seq<Flag>, granularity': nat)
    requires Searching(hot, initial, flags, granularity) && granularity <= |flags|
    ensures changed ==> |current| < |flags| && Searching(hot, initial, current, granularity')
    ensures if changed then Decides(hot, flags, granularity, current, granularity') else NoneHot(hot, flags, granularity)
    ensures !changed ==> current == flags && granularity' == granularity && (granularity == |flags| ==> Minimal(hot, flags))
  {
    assert granularity >= 2;
    hide Searching, Minimal, Flatten, SliceOf, Cold, Complement, PerSliceLen, Slices, Decides;
    changed, current, granularity' := false, flags, granularity;
    var slices, starts := PairwiseDisjoints(flags, granularity);
    var subsetJobs: set<nat> := {};
    var complementJobs: set<nat> := {};
    for k := 0 to |slices|
      invariant subsetJobs == complementJobs && forall j: nat :: j in subsetJobs <==> j < k
    {
      subsetJobs := subsetJobs + {k};
      complementJobs := complementJobs + {k};
    }
    NoneEnded(hot, flags, slices, subsetJobs);
    while subsetJobs != {} || (!changed && complementJobs != {})
      invariant forall k :: k in subsetJobs || k in complementJobs ==> 0 <= k < |slices|
      invariant !changed ==> current == flags && granularity' == granularity
      invariant !changed ==> Cold(hot, flags, slices, subsetJobs, complementJobs)
      invariant changed ==> |current| < |flags| && Searching(hot, initial, current, granularity')
      invariant changed ==> Decides(hot, flags, granularity, current, granularity')
      decreases |subsetJobs| + |complementJobs|
    {
      var ofComplement: bool := *;
      if subsetJobs == {} || (ofComplement && complementJobs != {}) {
        var k :| k in complementJobs;
        if !changed {
          OneMoreCold(hot, flags, slices, subsetJobs, complementJobs, k);
        }
        complementJobs := complementJobs - {k};
        SliceGoesOn(hot, initial, flags, granularity, slices[k], starts[k]);
        if !changed && hot(Complement(flags, slices[k])) {
          changed, current, granularity' := true, Complement(flags, slices[k]), Max(granularity - 1, 2);
          DecidesBy(hot, flags, granularity, k, current, granularity');
        }
      } else {
        var k :| k in subsetJobs;
        if !changed {
          OneMoreCold(hot, flags, slices, subsetJobs, complementJobs, k);
        }
        subsetJobs := subsetJobs - {k};
        SliceGoesOn(hot, initial, flags, granularity, slices[k], starts[k]);
        if !changed && hot(slices[k]) {
          changed, current, granularity' := true, slices[k], 2;
          DecidesBy(hot, flags, granularity, k, current, granularity');
        }
      }
    }
    if !changed && granularity == |flags| {
      AllCold(hot, flags, slices);
    }
  }

  lemma SliceGoesOn(hot: Oracle, initial: seq<Flag>, flags: seq<Flag>, g: nat, s: seq<Flag>, i: nat)
    requires Searching(hot, initial, flags, g) && 2 <= g <= |flags| && SliceOf(s, flags, PerSliceLen(|flags|, g), i)
    ensures var less := Complement(flags, s);
            |less| < |flags| && (hot(less) ==> Searching(hot, initial, less, Max(g - 1, 2)))
    ensures |s| < |flags| && (hot(s) ==> Searching(hot, initial, s, 2))
  {
    GranularityFits(|flags|, g);
    var j := Min(i + PerSliceLen(|flags|, g), |flags|);
    assert s == flags[i..j] && i < j;
    SearchGoesOn(hot, initial, flags, g, i, j);
  }

  /** Whatever the order in which jobs end: for distinct flags the search ends, and what it finds is minimal. */
  method DdMinParallel(hot: Oracle, initial: seq<Flag>) returns (current: seq<Flag>)
    requires Distinct(initial)
    ensures Found(hot, initial, current) && Minimal(hot, current)
    ensures initial != [] ==> current != []
  {
    current := initial;
    var granularity := 2;
    SliceIsSubsequence(initial, 0, |initial|);
    assert initial[0..|initial|] == initial;
    while |current| >= 2
      invariant Searching(hot, initial, current, granularity)
      decreases |current|, |current| - granularity
    {
      var changed, next, granularity' := Round(hot, initial, current, granularity);
      current, granularity := next, granularity';
      if !changed {
        if granularity == |current| {
          break;
        }
        granularity := Min(granularity * 2, |current|);
      }
    }
  }

  // ---------------------------------------------------------------- why the flags must be distinct here

  /** From one round to the next. */
  ghost predicate Moves(hot: Oracle, flags: seq<Flag>, granularity: nat, flags': seq<Flag>, granularity': nat) {
    && 2 <= granularity <= |flags|
    && (Decides(hot, flags, granularity, flags', granularity') ||
        (NoneHot(hot, flags, granularity) && granularity < |flags| &&
         flags' == flags && granularity' == Min(granularity * 2, |flags|)))
  }

  /** The slices to cut are of no flags, so that cutting them never gets to the end of the list. */
  ghost predicate Stuck(flags: seq<Flag>, granularity: nat) {
    |flags| >= 2 && granularity > 0 && PerSliceLen(|flags|, granularity) == 0
  }

  /**
   * A move gets the search stuck exactly if it takes a complement of at least two flags that is too short for as many
   * slices as were there, less one. Then flags of the slice taken away are repeated outside of it.
   */
  lemma StuckIff(hot: Oracle, flags: seq<Flag>, g: nat, flags': seq<Flag>, g': nat)
    requires Moves(hot, flags, g, flags', g')
    ensures Stuck(flags', g') <==> g' == g - 1 && 2 <= |flags'| < g - 1
    ensures Stuck(flags', g') ==>
      exists s :: s in Slices(flags, PerSliceLen(|flags|, g)) && flags' == Complement(flags, s) && |flags'| < |flags| - |s|
  {
    hide Complement, Slices, PerSliceLen, NoneHot;
    GranularityFits(|flags|, g);
    StuckIs(flags', g');
    if Decides(hot, flags, g, flags', g') {
      var slices := Slices(flags, PerSliceLen(|flags|, g));
      var k :| 0 <= k < |slices| && Takes(hot, flags, g, slices[k], flags', g');
      SlicesFit(flags, PerSliceLen(|flags|, g), k);
      assert slices[k] in slices;
    }
  }

  lemma StuckIs(flags: seq<Flag>, g: nat)
    ensures g > 0 ==> (Stuck(flags, g) <==> 2 <= |flags| < g)
  {
    if 0 < g <= |flags| {
      SomeSlices(|flags|, g);
    } else if g > 0 {
      NoSlices(|flags|, g);
    }
  }

  lemma SomeSlices(n: nat, g: nat)
    requires 1 <= g <= n
    ensures PerSliceLen(n, g) >= 1
  {
  }

  lemma {:induction false} SlicesFit(flags: seq<Flag>, per: nat, k: nat)
    requires k < |Slices(flags, per)|
    ensures |Slices(flags, per)[k]| <= per
    decreases |flags|
  {
    if k > 0 {
      SlicesFit(flags[Min(per, |flags|)..], per, k - 1);
    }
  }

  function Repeating(): seq<Flag> {
    ["a", "b", "a", "c"]
  }

  ghost predicate OnlyTheOthers(s: seq<Flag>) {
    s == ["b", "c"]
  }

  lemma SlicesOfRepeating()
    ensures Slices(Repeating(), 2) == [["a", "b"], ["a", "c"]]
    ensures Slices(Repeating(), 1) == [["a"], ["b"], ["a"], ["c"]]
  {
    hide Slices;
    var flags := Repeating();
    NextSlice(flags, 2, 0);
    NextSlice(flags, 2, 2);
    NextSlice(flags, 1, 0);
    NextSlice(flags, 1, 1);
    NextSlice(flags, 1, 2);
    NextSlice(flags, 1, 3);
    NoSliceLeft(flags, 1);
    NoSliceLeft(flags, 2);
    assert flags[0..] == flags && flags[0..2] == ["a", "b"] && flags[2..4] == ["a", "c"];
    assert flags[0..1] == ["a"] && flags[1..2] == ["b"] && flags[2..3] == ["a"] && flags[3..4] == ["c"];
  }

  function Kept(flag: Flag, drop: seq<Flag>): seq<Flag> {
    if flag in drop then [] else [flag]
  }

  lemma ComplementStep(first: Flag, rest: seq<Flag>, drop: seq<Flag>)
    ensures Complement([first] + rest, drop) == Kept(first, drop) + Complement(rest, drop)
  {
    assert ([first] + rest)[1..] == rest;
  }

  lemma ComplementOfFour(a: Flag, b: Flag, c: Flag, d: Flag, drop: seq<Flag>)
    ensures Complement([a, b, c, d], drop) == Kept(a, drop) + (Kept(b, drop) + (Kept(c, drop) + Kept(d, drop)))
  {
    assert Complement([], drop) == [];
    hide Complement, Kept;
    ComplementStep(a, [b, c, d], drop);
    ComplementStep(b, [c, d], drop);
    ComplementStep(c, [d], drop);
    ComplementStep(d, [], drop);
    assert [a] + [b, c, d] == [a, b, c, d] && [b] + [c, d] == [b, c, d] && [c] + [d] == [c, d] && [d] + [] == [d];
  }

  lemma ComplementsOfRepeating()
    ensures Complement(Repeating(), ["a", "b"]) == ["c"] && Complement(Repeating(), ["a", "c"]) == ["b"]
    ensures Complement(Repeating(), ["a"]) == ["b", "c"] && Complement(Repeating(), ["b"]) == ["a", "a", "c"]
    ensures Complement(Repeating(), ["c"]) == ["a", "b", "a"]
  {
    hide Complement;
    ComplementOfFour("a", "b", "a", "c", ["a", "b"]);
    ComplementOfFour("a", "b", "a", "c", ["a", "c"]);
    ComplementOfFour("a", "b", "a", "c", ["a"]);
    ComplementOfFour("a", "b", "a", "c", ["b"]);
    ComplementOfFour("a", "b", "a", "c", ["c"]);
  }

  /** Four flags, one of them twice: in whatever order the jobs end, the second round gets the search stuck. */
  lemma RepeatedFlagsLeaveEmptySlices()
    ensures Searching(OnlyTheOthers, Repeating(), Repeating(), 2)
    ensures Moves(OnlyTheOthers, Repeating(), 2, Repeating(), 4) && Moves(OnlyTheOthers, Repeating(), 4, ["b", "c"], 3)
    ensures forall flags, g :: Moves(OnlyTheOthers, Repeating(), 2, flags, g) ==> flags == Repeating() && g == 4
    ensures forall flags, g :: Moves(OnlyTheOthers, Repeating(), 4, flags, g) ==> flags == ["b", "c"] && g == 3
    ensures Searching(OnlyTheOthers, Repeating(), ["b", "c"], 3) && Stuck(["b", "c"], 3)
  {
    hide Complement, Slices, Subsequence;
    var flags, hot := Repeating(), OnlyTheOthers;
    SlicesOfRepeating();
    ComplementsOfRepeating();
    SliceIsSubsequence(flags, 0, |flags|);
    ComplementIsSubsequence(flags, ["a"]);
    assert flags[0..|flags|] == flags;
    assert flags[0] == flags[2];
    assert Takes(hot, flags, 4, Slices(flags, 1)[0], ["b", "c"], 3);
  }
}
