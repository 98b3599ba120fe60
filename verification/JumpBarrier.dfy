/** The jump barriers around calls from the host language into the virtual machine, and the raises between them. */
module JumpBarriers {
  import opened Basics

  // ---------------------------------------------------------------- programs

  /** What native code does with the machine. The status of a raise and the results of callbacks are given. */
  datatype Action =
    | Throw(status: int)
      // a host closure, or its continuation, through the trampoline
    | Dispatch(calls: seq<HostCall>, result: int)
      // the interrupt handler; a yield is refused across a native call
    | Interrupt(calls: seq<HostCall>, result: int, yieldable: bool)
      // a protected call of the machine's own
    | Protected(body: seq<Action>)

  /** What host code may do: it enters the machine through wrappers only. */
  datatype HostCall =
    | Wrapper(body: seq<Action>)
    | PcallYieldable(hasContinuation: bool, body: seq<Action>)
    | GetStatus

  const LUA_ERRRUN := 2

  /** How the trampoline reads a callback's result. */
  function Raised(n: int): (s: Option<int>)
    ensures forall status: int :: s == Some(status) <==> status >= 1 && n == -100 - status
  {
    if n < -100 then Some(-(n + 100)) else None
  }

  /** In 32 bits every result decodes without overflow; the statuses a host can raise end at 2147483548. */
  lemma SentinelRange(n: int, status: int)
    requires -0x8000_0000 <= n < 0x8000_0000 && status >= 1
    ensures Raised(n).Some? ==> 1 <= Raised(n).value < 0x8000_0000
    ensures -0x8000_0000 <= -100 - status <==> status <= 2147483548
    ensures Raised(-100 - status) == Some(status)
  {
    assert Raised(n).Some? ==> n == -100 - Raised(n).value;
  }

  /** The status an action raises out of itself. */
  function Own(a: Action): Option<int> {
    match a
    case Throw(s) => Some(s)
    case Dispatch(_, n) => Raised(n)
    case Interrupt(_, n, yieldable) =>
      if n == -1 then (if yieldable then None else Some(LUA_ERRRUN)) else Raised(n)
    case Protected(_) => None
  }

  /** What leaves a sequence of actions: the first raise of its own. */
  function RaisedBy(body: seq<Action>): Option<int> {
    if body == [] then None
    else if Own(body[0]).Some? then Own(body[0])
    else RaisedBy(body[1..])
  }

  lemma {:induction false} FirstRaise(body: seq<Action>, s: int)
    ensures RaisedBy(body) == Some(s) <==>
              exists i :: 0 <= i < |body| && Own(body[i]) == Some(s) && forall j :: 0 <= j < i ==> Own(body[j]) == None
  {
    if body != [] {
      FirstRaise(body[1..], s);
      if Own(body[0]) == None {
        if RaisedBy(body[1..]) == Some(s) {
          var i :| 0 <= i < |body[1..]| && Own(body[1..][i]) == Some(s) && forall j :: 0 <= j < i ==> Own(body[1..][j]) == None;
          assert Own(body[i + 1]) == Some(s);
          forall j | 0 <= j < i + 1
            ensures Own(body[j]) == None
          {
            if j > 0 {
              assert Own(body[1..][j - 1]) == None;
            }
          }
        }
        if i :| 0 <= i < |body| && Own(body[i]) == Some(s) && forall j :: 0 <= j < i ==> Own(body[j]) == None {
          assert Own(body[1..][i - 1]) == Some(s);
          forall j | 0 <= j < i - 1
            ensures Own(body[1..][j]) == None
          {
            assert Own(body[j + 1]) == None;
          }
        }
      }
    }
  }

  /** What a wrapper leaves for `luaW_getstatus`. */
  function StatusOf(body: seq<Action>): int {
    if RaisedBy(body).Some? then RaisedBy(body).value else 0
  }

  /**
   * An action raises a status out of itself by throwing it, by a result of a callback or of the interrupt handler that
   * encodes it, or, with status 2, by an interrupt that asks for a yield where none is possible.
   */
  ghost predicate Raises(a: Action, s: int) {
    match a
    case Throw(status) => s == status
    case Dispatch(_, n) => s >= 1 && n == -100 - s
    case Interrupt(_, n, yieldable) => (s >= 1 && n == -100 - s) || (n == -1 && !yieldable && s == 2)
    case Protected(_) => false
  }

  lemma OwnIsRaised(a: Action, s: int)
    ensures Own(a) == Some(s) <==> Raises(a, s)
  {
  }

  ghost predicate FirstRaised(body: seq<Action>, s: int) {
    exists i :: 0 <= i < |body| && Raises(body[i], s) && forall j, r :: 0 <= j < i ==> !Raises(body[j], r)
  }

  ghost predicate NeverRaises(body: seq<Action>) {
    forall i, r :: 0 <= i < |body| ==> !Raises(body[i], r)
  }

  /** The status of a wrapper is the first that an action of its own raises, and 0 if none does. */
  lemma StatusIsFirstRaised(body: seq<Action>, s: int)
    ensures RaisedBy(body) == Some(s) <==> FirstRaised(body, s)
    ensures StatusOf(body) == s <==> FirstRaised(body, s) || (NeverRaises(body) && s == 0)
  {
    FirstRaise(body, s);
    NoneRaised(body);
    forall a: Action, r: int
      ensures Own(a) == Some(r) <==> Raises(a, r)
    {
      OwnIsRaised(a, r);
    }
    hide Own, Raises;
  }

  lemma {:induction false} NoneRaised(body: seq<Action>)
    ensures RaisedBy(body) == None <==> forall i :: 0 <= i < |body| ==> Own(body[i]) == None
  {
    if body != [] {
      NoneRaised(body[1..]);
      assert forall i :: 0 <= i < |body| - 1 ==> body[1..][i] == body[i + 1];
      assert forall i :: 1 <= i < |body| ==> body[i] == body[1..][i - 1];
    }
  }

  /** A yield that the interrupt handler asks for inside of a wrapper is an error there, if it cannot be had. */
  lemma RefusedYield(yieldable: bool)
    ensures StatusOf([Interrupt([], -1, yieldable)]) == if yieldable then 0 else 2
  {
    var a := Interrupt([], -1, yieldable);
    assert [a][1..] == [];
    assert RaisedBy([a]) == Own(a);
  }

  // ---------------------------------------------------------------- what host code reads

  /** The statuses read so far, and the one that a read would give now. */
  datatype Trace = Trace(log: seq<int>, last: int)

  function AfterActions(body: seq<Action>, t: Trace): Trace
    decreases body
  {
    if body == [] then t
    else
      var t' := AfterAction(body[0], t);
      if Own(body[0]).Some? then t' else AfterActions(body[1..], t')
  }

  function AfterAction(a: Action, t: Trace): Trace
    decreases a
  {
    match a
    case Throw(_) => t
    case Dispatch(calls, _) => AfterCalls(calls, t)
    case Interrupt(calls, _, _) => AfterCalls(calls, t)
    case Protected(body) => AfterActions(body, t)
  }

  function AfterCalls(calls: seq<HostCall>, t: Trace): Trace
    decreases calls
  {
    if calls == [] then t else AfterCalls(calls[1..], AfterCall(calls[0], t))
  }

  function AfterCall(call: HostCall, t: Trace): Trace
    decreases call
  {
    match call
    case Wrapper(body) => AfterActions(body, t).(last := StatusOf(body))
    case PcallYieldable(hasContinuation, body) =>
      if hasContinuation then AfterActions(body, t).(last := StatusOf(body)) else t
    case GetStatus => t.(log := t.log + [t.last])
  }

  // ---------------------------------------------------------------- reading right after a wrapper

  /** Every read comes right after a wrapper that set up a barrier, or after another such read. */
  predicate Prompt(calls: seq<HostCall>, after: bool)
    decreases calls
  {
    calls == [] ||
    match calls[0]
    case Wrapper(body) => PromptActions(body) && Prompt(calls[1..], true)
    case PcallYieldable(hasContinuation, body) =>
      (hasContinuation ==> PromptActions(body)) && Prompt(calls[1..], hasContinuation)
    case GetStatus => after && Prompt(calls[1..], true)
  }

  predicate PromptActions(body: seq<Action>)
    decreases body
  {
    body == [] || (PromptAction(body[0]) && PromptActions(body[1..]))
  }

  predicate PromptAction(a: Action)
    decreases a
  {
    match a
    case Throw(_) => true
    case Dispatch(calls, _) => Prompt(calls, false)
    case Interrupt(calls, _, _) => Prompt(calls, false)
    case Protected(body) => PromptActions(body)
  }

  /** What the reads should give: each the status of the wrapper in front of it, `status` being the one before all. */
  function Statuses(calls: seq<HostCall>, status: int): seq<int>
    decreases calls
  {
    if calls == [] then []
    else match calls[0]
      case Wrapper(body) => StatusesWithin(body) + Statuses(calls[1..], StatusOf(body))
      case PcallYieldable(hasContinuation, body) =>
        if hasContinuation then StatusesWithin(body) + Statuses(calls[1..], StatusOf(body)) else Statuses(calls[1..], 0)
      case GetStatus => [status] + Statuses(calls[1..], status)
  }

  function StatusesWithin(body: seq<Action>): seq<int>
    decreases body
  {
    if body == [] then []
    else StatusesOf(body[0]) + if Own(body[0]).Some? then [] else StatusesWithin(body[1..])
  }

  function StatusesOf(a: Action): seq<int>
    decreases a
  {
    match a
    case Throw(_) => []
    case Dispatch(calls, _) => Statuses(calls, 0)
    case Interrupt(calls, _, _) => Statuses(calls, 0)
    case Protected(body) => StatusesWithin(body)
  }

  /** Every read that is not prompt meets a status of 0. */
  predicate Meets(calls: seq<HostCall>, after: bool, t: Trace)
    decreases calls
  {
    calls == [] || (MeetsOne(calls[0], after, t) && Meets(calls[1..], AfterWrapper(calls[0], after), AfterCall(calls[0], t)))
  }

  predicate MeetsOne(call: HostCall, after: bool, t: Trace)
    decreases call
  {
    match call
    case Wrapper(body) => MeetsWithin(body, t)
    case PcallYieldable(hasContinuation, body) => hasContinuation ==> MeetsWithin(body, t)
    case GetStatus => after || t.last == 0
  }

  predicate MeetsWithin(body: seq<Action>, t: Trace)
    decreases body
  {
    body == [] ||
    (MeetsInside(body[0], t) && (Own(body[0]) == None ==> MeetsWithin(body[1..], AfterAction(body[0], t))))
  }

  predicate MeetsInside(a: Action, t: Trace)
    decreases a
  {
    match a
    case Throw(_) => true
    case Dispatch(calls, _) => Meets(calls, false, t)
    case Interrupt(calls, _, _) => Meets(calls, false, t)
    case Protected(body) => MeetsWithin(body, t)
  }

  /** Is a read after this call prompt? */
  predicate AfterWrapper(call: HostCall, after: bool) {
    match call
    case Wrapper(_) => true
    case PcallYieldable(hasContinuation, _) => hasContinuation
    case GetStatus => after
  }

  /** What reads should give right after this call. */
  function Due(call: HostCall, status: int): int {
    match call
    case Wrapper(body) => StatusOf(body)
    case PcallYieldable(hasContinuation, body) => if hasContinuation then StatusOf(body) else 0
    case GetStatus => status
  }

  function StatusesOfCall(call: HostCall, status: int): seq<int> {
    match call
    case Wrapper(body) => StatusesWithin(body)
    case PcallYieldable(hasContinuation, body) => if hasContinuation then StatusesWithin(body) else []
    case GetStatus => [status]
  }

  lemma StatusesSplit(calls: seq<HostCall>, status: int)
    requires calls != []
    ensures Statuses(calls, status) == StatusesOfCall(calls[0], status) + Statuses(calls[1..], Due(calls[0], status))
  {
    if calls[0].PcallYieldable? && !calls[0].hasContinuation {
      assert [] + Statuses(calls[1..], 0) == Statuses(calls[1..], 0);
    }
  }

  /** `log` was `before`, and then the statuses `due` were read if and only if `right`; it has as many more in any case. */
  ghost predicate ReadIff(before: seq<int>, log: seq<int>, due: seq<int>, right: bool) {
    before <= log && |log| == |before| + |due| && (log == before + due <==> right)
  }

  lemma ReadsJoin(a: seq<int>, b: seq<int>, c: seq<int>, due: seq<int>, due': seq<int>, right: bool, right': bool)
    requires ReadIff(a, b, due, right) && ReadIff(b, c, due', right')
    ensures ReadIff(a, c, due + due', right && right')
  {
    Join(a, due, due');
    assert c == b + c[|b|..];
    if c == a + (due + due') {
      assert b == c[..|b|] == a + due;
      assert c[|b|..] == due';
    }
  }

  lemma NothingRead(log: seq<int>)
    ensures ReadIff(log, log, [], true)
  {
    assert log + [] == log;
  }

  lemma OneRead(log: seq<int>, last: int, status: int)
    ensures ReadIff(log, log + [last], [status], last == status)
  {
    assert (log + [last])[|log|] == last && (log + [status])[|log|] == status;
  }

  /**
   * All reads, however deep the nesting, give the status of the wrapper in front of them, and 0 where there is none, if and
   * only if every read that is not prompt meets a status of 0. Prompt reads are always right.
   */
  lemma {:induction false} ReadsAreRightIff(calls: seq<HostCall>, after: bool, t: Trace)
    ensures ReadIff(t.log, AfterCalls(calls, t).log, Statuses(calls, if after then t.last else 0), Meets(calls, after, t))
    decreases calls, 1
  {
    if calls == [] {
      NothingRead(t.log);
    } else {
      hide ReadIff, Statuses;
      var call, t' := calls[0], AfterCall(calls[0], t);
      var status := if after then t.last else 0;
      CallReadsIff(call, after, t);
      ReadsAreRightIff(calls[1..], AfterWrapper(call, after), t');
      StatusesSplit(calls, status);
      assert Due(call, status) == if AfterWrapper(call, after) then t'.last else 0;
      ReadsJoin(t.log, t'.log, AfterCalls(calls, t).log, StatusesOfCall(call, status),
                Statuses(calls[1..], Due(call, status)), MeetsOne(call, after, t), Meets(calls[1..], AfterWrapper(call, after), t'));
    }
  }

  lemma {:induction false} CallReadsIff(call: HostCall, after: bool, t: Trace)
    ensures ReadIff(t.log, AfterCall(call, t).log, StatusesOfCall(call, if after then t.last else 0), MeetsOne(call, after, t))
    decreases call, 1
  {
    match call
    case Wrapper(body) =>
      BodyReadsIff(body, t);
    case PcallYieldable(hasContinuation, body) =>
      if hasContinuation {
        BodyReadsIff(body, t);
      } else {
        NothingRead(t.log);
      }
    case GetStatus =>
      OneRead(t.log, t.last, if after then t.last else 0);
  }

  lemma {:induction false} BodyReadsIff(body: seq<Action>, t: Trace)
    ensures ReadIff(t.log, AfterActions(body, t).log, StatusesWithin(body), MeetsWithin(body, t))
    decreases body, 1
  {
    if body == [] {
      NothingRead(t.log);
    } else {
      hide ReadIff;
      var t' := AfterAction(body[0], t);
      ActionReadsIff(body[0], t);
      if Own(body[0]).Some? {
        assert StatusesOf(body[0]) + [] == StatusesOf(body[0]);
      } else {
        BodyReadsIff(body[1..], t');
        ReadsJoin(t.log, t'.log, AfterActions(body, t).log, StatusesOf(body[0]), StatusesWithin(body[1..]),
                  MeetsInside(body[0], t), MeetsWithin(body[1..], t'));
      }
    }
  }

  lemma {:induction false} ActionReadsIff(a: Action, t: Trace)
    ensures ReadIff(t.log, AfterAction(a, t).log, StatusesOf(a), MeetsInside(a, t))
    decreases a, 1
  {
    match a
    case Throw(_) => NothingRead(t.log);
    case Dispatch(calls, _) => ReadsAreRightIff(calls, false, t);
    case Interrupt(calls, _, _) => ReadsAreRightIff(calls, false, t);
    case Protected(body) => BodyReadsIff(body, t);
  }

  /** A single call leaves the status it should, unless it was refused and the last status was not 0. */
  lemma StatusAfterCall(call: HostCall, t: Trace)
    ensures AfterCall(call, t).last == Due(call, t.last) <==>
              (call.PcallYieldable? && !call.hasContinuation ==> t.last == 0)
  {
  }

  /** One cell for all threads of control suffices: a prompt read sees its own wrapper, however deep the nesting. */
  lemma PromptReadsAreRight(calls: seq<HostCall>, after: bool, t: Trace)
    requires Prompt(calls, after)
    ensures AfterCalls(calls, t).log == t.log + Statuses(calls, if after then t.last else 0)
  {
    PromptMeets(calls, after, t);
    ReadsAreRightIff(calls, after, t);
  }

  lemma {:induction false} PromptMeets(calls: seq<HostCall>, after: bool, t: Trace)
    requires Prompt(calls, after)
    ensures Meets(calls, after, t)
    decreases calls
  {
    if calls != [] {
      match calls[0] {
        case Wrapper(body) => PromptMeetsWithin(body, t);
        case PcallYieldable(hasContinuation, body) =>
          if hasContinuation {
            PromptMeetsWithin(body, t);
          }
        case GetStatus =>
      }
      PromptMeets(calls[1..], AfterWrapper(calls[0], after), AfterCall(calls[0], t));
    }
  }

  lemma {:induction false} PromptMeetsWithin(body: seq<Action>, t: Trace)
    requires PromptActions(body)
    ensures MeetsWithin(body, t)
    decreases body
  {
    if body != [] {
      match body[0] {
        case Throw(_) =>
        case Dispatch(calls, _) => PromptMeets(calls, false, t);
        case Interrupt(calls, _, _) => PromptMeets(calls, false, t);
        case Protected(inner) => PromptMeetsWithin(inner, t);
      }
      if Own(body[0]) == None {
        PromptMeetsWithin(body[1..], AfterAction(body[0], t));
      }
    }
  }

  lemma Join(a: seq<int>, b: seq<int>, c: seq<int>)
    ensures (a + b) + c == a + (b + c)
  {
  }

  /**
   * Other reads can give a status that belongs elsewhere: the first read of a callback, and the one after a
   * `luaW_pcallyieldable` that was refused for want of a continuation, which leaves the last status in place.
   */
  lemma LateReads(s: int)
    ensures var failed := Wrapper([Throw(s)]);
            && AfterCalls([failed, Wrapper([Dispatch([GetStatus], 0)])] + [], Trace([], 0)).log == [s]
            && AfterCalls([failed, PcallYieldable(false, [])] + [GetStatus], Trace([], 0)).log == [s]
  {
    var failed, callback, refused := Wrapper([Throw(s)]), Wrapper([Dispatch([GetStatus], 0)]), PcallYieldable(false, []);
    var t := AfterCall(failed, Trace([], 0));
    FailedWrapper(s, Trace([], 0));
    TwoCalls(failed, callback, [], Trace([], 0));
    ReadInCallback(t);
    TwoCalls(failed, refused, [GetStatus], Trace([], 0));
    assert AfterCalls([GetStatus], t) == AfterCalls([], AfterCall(GetStatus, t));
  }

  lemma FailedWrapper(s: int, t: Trace)
    ensures AfterCall(Wrapper([Throw(s)]), t) == Trace(t.log, s)
  {
    var body := [Throw(s)];
    assert Own(body[0]) == Some(s);
    assert AfterActions(body, t) == AfterAction(body[0], t) == t;
    assert RaisedBy(body) == Some(s);
  }

  lemma ReadInCallback(t: Trace)
    ensures AfterCall(Wrapper([Dispatch([GetStatus], 0)]), t).log == t.log + [t.last]
  {
    var body := [Dispatch([GetStatus], 0)];
    assert AfterCalls([GetStatus], t) == AfterCalls([], AfterCall(GetStatus, t));
    assert AfterActions(body, t) == AfterActions(body[1..], AfterCalls([GetStatus], t));
    assert body[1..] == [];
  }

  lemma TwoCalls(a: HostCall, b: HostCall, rest: seq<HostCall>, t: Trace)
    ensures AfterCalls([a, b] + rest, t) == AfterCalls(rest, AfterCall(b, AfterCall(a, t)))
  {
    assert ([a, b] + rest)[1..] == [b] + rest;
    assert ([b] + rest)[1..] == rest;
  }

  // ---------------------------------------------------------------- the machine

  class JumpBuffer {
    var prev: JumpBuffer?
    var status: int

    constructor ()
      ensures prev == null && status == 0
    {
      prev, status := null, 0;
    }
  }

  /** How control leaves a frame: normally, on the way to a jump target, or not at all. */
  datatype Exit = Done | Jump(target: JumpBuffer) | Aborted

  /** A raise goes to the current jump target; without one the process ends. */
  function ExitOf(raised: Option<int>, target: JumpBuffer?): Exit {
    if raised == None then Done else if target == null then Aborted else Jump(target)
  }

  function Recorded(raised: Option<int>, status: int): int {
    if raised.Some? then raised.value else status
  }

  /** The jump target is `errorjmp`; every run counts the host frames that a jump skipped. */
  class Machine {
    var errorjmp: JumpBuffer?
    var lastStatus: int
    var log: seq<int>

    constructor ()
      ensures errorjmp == null && lastStatus == 0 && log == []
    {
      errorjmp, lastStatus, log := null, 0, [];
    }

    ghost function Seen(): Trace
      reads this`log, this`lastStatus
    {
      Trace(log, lastStatus)
    }

    ghost function Target(): set<object>
      reads this`errorjmp
    {
      if errorjmp == null then {} else {errorjmp}
    }

    method Enter(jb: JumpBuffer)
      modifies this`errorjmp, jb
      ensures errorjmp == jb && jb.prev == old(errorjmp) && jb.status == 0
    {
      jb.prev := errorjmp;
      jb.status := 0;
      errorjmp := jb;
    }

    method Leave(jb: JumpBuffer)
      modifies this`errorjmp, this`lastStatus
      ensures errorjmp == jb.prev && lastStatus == jb.status
    {
      errorjmp := jb.prev;
      lastStatus := jb.status;
    }

    method Raise(status: int) returns (exit: Exit)
      modifies Target()
      ensures exit == ExitOf(Some(status), errorjmp)
      ensures errorjmp != null ==> errorjmp.status == status && errorjmp.prev == old(errorjmp.prev)
    {
      if errorjmp != null {
        errorjmp.status := status;
        return Jump(errorjmp);
      }
      return Aborted;
    }

    method RunActions(body: seq<Action>) returns (exit: Exit, skipped: int)
      modifies this, Target()
      ensures errorjmp == old(errorjmp) && skipped == 0
      ensures Seen() == AfterActions(body, old(Seen()))
      ensures exit == ExitOf(RaisedBy(body), errorjmp)
      ensures old(errorjmp) != null ==> errorjmp.prev == old(errorjmp.prev)
      ensures old(errorjmp) != null ==> errorjmp.status == Recorded(RaisedBy(body), old(errorjmp.status))
      decreases body, 0
    {
      exit, skipped := Done, 0;
      if body != [] {
        exit, skipped := RunAction(body[0]);
        if exit == Done {
          var more: int;
          exit, more := RunActions(body[1..]);
          skipped := skipped + more;
        }
      }
    }

    method RunAction(a: Action) returns (exit: Exit, skipped: int)
      modifies this, Target()
      ensures errorjmp == old(errorjmp) && skipped == 0
      ensures Seen() == AfterAction(a, old(Seen()))
      ensures exit == ExitOf(Own(a), errorjmp)
      ensures old(errorjmp) != null ==> errorjmp.prev == old(errorjmp.prev)
      ensures old(errorjmp) != null ==> errorjmp.status == Recorded(Own(a), old(errorjmp.status))
      decreases a, 0
    {
      exit, skipped := Done, 0;
      match a
      case Throw(status) =>
        exit := Raise(status);
      case Dispatch(calls, n) =>
        exit, skipped := RunCalls(calls);
        if exit == Done && n < -100 {
          exit := Raise(-(n + 100));
        }
      case Interrupt(calls, n, yieldable) =>
        exit, skipped := RunCalls(calls);
        if exit == Done {
          if n == -1 {
            if !yieldable {
              exit := Raise(LUA_ERRRUN);
            }
          } else if n < -100 {
            exit := Raise(-(n + 100));
          }
        }
      case Protected(body) =>
        var jb := new JumpBuffer();
        Enter(jb);
        exit, skipped := RunActions(body);
        if exit == Done || exit == Jump(jb) {
          errorjmp := jb.prev;
          exit := Done;
        }
    }

    /**
     * The machine entered from the host. Whatever happens inside, control comes back here with the outer barrier in
     * place, and the status is the one that was raised to this very barrier, or 0.
     */
    method RunWrapper(body: seq<Action>) returns (exit: Exit, skipped: int)
      modifies this, Target()
      ensures errorjmp == old(errorjmp) && skipped == 0 && exit == Done
      ensures Seen() == AfterActions(body, old(Seen())).(last := StatusOf(body))
      ensures old(errorjmp) != null ==> errorjmp.prev == old(errorjmp.prev) && errorjmp.status == old(errorjmp.status)
      decreases body, 1
    {
      var jb := new JumpBuffer();
      Enter(jb);
      exit, skipped := RunActions(body);
      if exit == Done || exit == Jump(jb) {
        Leave(jb);
        exit := Done;
      }
    }

    method RunCall(call: HostCall) returns (exit: Exit, skipped: int)
      modifies this, Target()
      ensures errorjmp == old(errorjmp) && skipped == 0 && exit == Done
      ensures Seen() == AfterCall(call, old(Seen()))
      ensures old(errorjmp) != null ==> errorjmp.prev == old(errorjmp.prev) && errorjmp.status == old(errorjmp.status)
      decreases call, 0
    {
      exit, skipped := Done, 0;
      match call
      case Wrapper(body) =>
        exit, skipped := RunWrapper(body);
      case PcallYieldable(hasContinuation, body) =>
        if hasContinuation {
          exit, skipped := RunWrapper(body);
        }
      case GetStatus =>
        log := log + [lastStatus];
    }

    /** A frame of the host language. A jump out of one of its calls would skip it. */
    method RunCalls(calls: seq<HostCall>) returns (exit: Exit, skipped: int)
      modifies this, Target()
      ensures errorjmp == old(errorjmp) && skipped == 0 && exit == Done
      ensures Seen() == AfterCalls(calls, old(Seen()))
      ensures old(errorjmp) != null ==> errorjmp.prev == old(errorjmp.prev) && errorjmp.status == old(errorjmp.status)
      decreases calls, 0
    {
      exit, skipped := Done, 0;
      if calls != [] {
        exit, skipped := RunCall(calls[0]);
        if exit != Done {
          skipped := skipped + 1;
          return;
        }
        var more: int;
        exit, more := RunCalls(calls[1..]);
        skipped := skipped + more;
      }
    }
  }
}
