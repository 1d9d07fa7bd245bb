/** The guarded state-transition engine of main.c: the globals `state` and
    `lock`, `change_state`, the decision and logging part of `post_status`,
    and `log_state` reduced to appending its message to the audit log.

    The pure part states the net effect of one call (ChangeStateEffect,
    PostStatusEffect) and of a run of calls (Run, Session); the class
    Controller mirrors the C code step by step and is proved to have that
    effect. */
module Engine {
  import opened States

  const UInt32Modulus: int := 0x1_0000_0000

  /** `uint32_t`, the type of `state` and of the transition target. */
  type UInt32 = n: int | 0 <= n < UInt32Modulus

  /** The numeric value of FAULT, the modulus of the successor rule. */
  const FaultCode: UInt32 := Ordinal(Fault)

  /** A transition request coming from the menu: one of the four state indices. */
  type Request = n: int | 0 <= n <= 3

  const InvalidTransition: string := "Invalid state transition attempted, entering FAULT state"

  /** The menu labels; index i < 4 names the state with ordinal i, the last one quits. */
  const Choices: seq<string> := ["SAFE TO APPROACH", "READY TO LAUNCH", "CRAWL", "FAULT", "quit"]

  const NChoices: nat := |Choices|

  /** `(*state + 1) % FAULT`, evaluated in 32-bit unsigned arithmetic. */
  function Successor(s: UInt32): (r: UInt32)
    ensures r < FaultCode
  {
    ((s + 1) % UInt32Modulus) % FaultCode
  }

  /** On the four state values the rule is the cycle
      SAFE_TO_APPROACH -> READY_TO_LAUNCH -> CRAWL -> SAFE_TO_APPROACH,
      and FAULT is followed by READY_TO_LAUNCH. */
  lemma SuccessorCycle()
    ensures Successor(Ordinal(SafeToApproach)) == Ordinal(ReadyToLaunch)
    ensures Successor(Ordinal(ReadyToLaunch)) == Ordinal(Crawl)
    ensures Successor(Ordinal(Crawl)) == Ordinal(SafeToApproach)
    ensures Successor(Ordinal(Fault)) == Ordinal(ReadyToLaunch)
  {
  }

  /** The successor of any state value is a live state, never FAULT. */
  lemma SuccessorIsLive(s: UInt32)
    requires s <= FaultCode
    ensures Successor(s) == (s + 1) % 3
    ensures FromOrdinal(Successor(s)).Some? && FromOrdinal(Successor(s)).value != Fault
  {
  }

  /** The addition wraps at 2^32: from the largest value the successor is 0,
      not (2^32) % 3 == 1. */
  lemma SuccessorWraps()
    ensures Successor(UInt32Modulus - 1) == 0
    ensures UInt32Modulus % 3 == 1
  {
  }

  /** The globals `state` and `lock` as one value. */
  datatype Panel = Panel(state: UInt32, lock: bool)

  /** `lock = 0; state = SAFE_TO_APPROACH;` at start-up. */
  const Initial: Panel := Panel(Ordinal(SafeToApproach), false)

  /** What one `change_state` call leaves behind: the new globals, the value
      written to `*success`, and the audit entries it appended. */
  datatype Transition = Transition(after: Panel, success: bool, logged: seq<string>)

  /** The net effect of `change_state(&state, target, &lock, &success)`.
      An illegal request from an unlocked panel falls through the commit tail:
      the lock ends set, but the state is the requested target, not FAULT. */
  function ChangeStateEffect(p: Panel, target: UInt32): Transition
  {
    if p.lock then Transition(p, false, [])
    else if target == Successor(p.state) then Transition(Panel(target, false), true, [])
    else Transition(Panel(target, true), true, [InvalidTransition])
  }

  lemma LockedRequestRejected(p: Panel, target: UInt32)
    requires p.lock
    ensures ChangeStateEffect(p, target) == Transition(p, false, [])
  {
  }

  lemma LegalRequestCommits(p: Panel, target: UInt32)
    requires !p.lock && target == Successor(p.state)
    ensures ChangeStateEffect(p, target) == Transition(Panel(target, false), true, [])
  {
  }

  /** An illegal request, FAULT itself included, logs the invalid-transition
      message once and latches the lock, yet reports success and leaves the
      state at the requested target: only a request for FAULT ends in FAULT. */
  lemma IllegalRequestFallsThrough(p: Panel, target: UInt32)
    requires !p.lock && target != Successor(p.state)
    ensures ChangeStateEffect(p, target) == Transition(Panel(target, true), true, [InvalidTransition])
    ensures ChangeStateEffect(p, target).after.state == FaultCode <==> target == FaultCode
  {
  }

  /** The globals after a sequence of `change_state` calls. */
  function Run(p: Panel, targets: seq<UInt32>): Panel
    decreases |targets|
  {
    if targets == [] then p
    else ChangeStateEffect(Run(p, targets[..|targets| - 1]), targets[|targets| - 1]).after
  }

  lemma {:induction false} RunAppend(p: Panel, ts: seq<UInt32>, us: seq<UInt32>)
    ensures Run(p, ts + us) == Run(Run(p, ts), us)
    decreases |us|
  {
    if us == [] {
      assert ts + us == ts;
    } else {
      var n := |us| - 1;
      assert (ts + us)[..|ts + us| - 1] == ts + us[..n];
      assert (ts + us)[|ts + us| - 1] == us[n];
      RunAppend(p, ts, us[..n]);
    }
  }

  /** Once the lock is set no call changes the state or the lock again,
      whatever the targets. */
  lemma {:induction false} LockIsSticky(p: Panel, targets: seq<UInt32>)
    requires p.lock
    ensures Run(p, targets) == p
    decreases |targets|
  {
    if targets != [] {
      LockIsSticky(p, targets[..|targets| - 1]);
    }
  }

  lemma LockStaysSet(p: Panel, ts: seq<UInt32>, us: seq<UInt32>)
    requires Run(p, ts).lock
    ensures Run(p, ts + us) == Run(p, ts)
  {
    RunAppend(p, ts, us);
    LockIsSticky(Run(p, ts), us);
  }

  /** A state value of the enum, with FAULT only under the lock. */
  ghost predicate Consistent(p: Panel)
  {
    p.state <= FaultCode && (p.state == FaultCode ==> p.lock)
  }

  /** From start-up, with targets drawn from the four states, every reachable
      pair is consistent. */
  lemma {:induction false} ReachableConsistent(targets: seq<UInt32>)
    requires forall i :: 0 <= i < |targets| ==> targets[i] <= FaultCode
    ensures Consistent(Run(Initial, targets))
    decreases |targets|
  {
    if targets != [] {
      var n := |targets| - 1;
      ReachableConsistent(targets[..n]);
    }
  }

  /** Once FAULT is reached from a consistent pair, nothing leaves it. */
  lemma FaultIsAbsorbing(p: Panel, targets: seq<UInt32>)
    requires Consistent(p) && p.state == FaultCode
    ensures Run(p, targets) == p
  {
    LockIsSticky(p, targets);
  }

  /** The lock does not imply FAULT: one out-of-order request from start-up
      leaves the panel locked in CRAWL. */
  lemma LockedOutsideFault()
    ensures Run(Initial, [Ordinal(Crawl)]) == Panel(Ordinal(Crawl), true)
  {
  }

  /** What one `post_status` call leaves behind: the globals, the audit
      entries appended during the call, and the label shown. */
  datatype Status = Status(after: Panel, logged: seq<string>, shown: string)

  /** The decision and logging part of `post_status(stat_win, istatus)`. */
  function PostStatusEffect(p: Panel, istatus: Request): Status
  {
    var t := ChangeStateEffect(p, istatus);
    if !t.success then Status(t.after, t.logged, Choices[FaultCode])
    else Status(t.after, t.logged + [Choices[istatus]], Choices[istatus])
  }

  /** Audit entries and label per request: a locked request logs nothing and
      shows FAULT; a legal one logs and shows its label; an illegal one logs
      the invalid-transition message and then its label, and shows the label. */
  lemma PostStatusOutcomes(p: Panel, istatus: Request)
    ensures p.lock ==>
      PostStatusEffect(p, istatus) == Status(p, [], "FAULT")
    ensures !p.lock && istatus == Successor(p.state) ==>
      PostStatusEffect(p, istatus) == Status(Panel(istatus, false), [Choices[istatus]], Choices[istatus])
    ensures !p.lock && istatus != Successor(p.state) ==>
      PostStatusEffect(p, istatus) == Status(Panel(istatus, true), [InvalidTransition, Choices[istatus]], Choices[istatus])
  {
  }

  /** From SAFE_TO_APPROACH, unlocked, a request for CRAWL ends locked in CRAWL
      with two audit entries, and CRAWL is displayed. */
  lemma OutOfOrderRequestExample()
    ensures PostStatusEffect(Initial, Ordinal(Crawl))
         == Status(Panel(2, true), [InvalidTransition, "CRAWL"], "CRAWL")
  {
  }

  /** The globals and the audit entries after a sequence of `post_status` calls. */
  datatype Trace = Trace(panel: Panel, log: seq<string>)

  function Session(p: Panel, requests: seq<Request>): Trace
    decreases |requests|
  {
    if requests == [] then Trace(p, [])
    else
      var prev := Session(p, requests[..|requests| - 1]);
      var s := PostStatusEffect(prev.panel, requests[|requests| - 1]);
      Trace(s.after, prev.log + s.logged)
  }

  /** `post_status` moves the globals exactly as `change_state` does. */
  lemma {:induction false} SessionFollowsRun(p: Panel, requests: seq<Request>)
    ensures Session(p, requests).panel == Run(p, requests)
    decreases |requests|
  {
    if requests != [] {
      var n := |requests| - 1;
      SessionFollowsRun(p, requests[..n]);
    }
  }

  /** A locked panel never writes to the audit log again. */
  lemma {:induction false} LockedSessionIsSilent(p: Panel, requests: seq<Request>)
    requires p.lock
    ensures Session(p, requests) == Trace(p, [])
    decreases |requests|
  {
    if requests != [] {
      LockedSessionIsSilent(p, requests[..|requests| - 1]);
    }
  }

  /** The labels of a sequence of requests. */
  function Labels(requests: seq<Request>): (r: seq<string>)
    ensures |r| == |requests|
    ensures forall i :: 0 <= i < |r| ==> r[i] == Choices[requests[i]]
    decreases |requests|
  {
    if requests == [] then [] else Labels(requests[..|requests| - 1]) + [Choices[requests[|requests| - 1]]]
  }

  /** While the panel never locks, the audit log is exactly the labels of the
      requests, one entry each, in order. */
  lemma {:induction false} UnlockedSessionLogsLabels(p: Panel, requests: seq<Request>)
    requires !Run(p, requests).lock
    ensures Session(p, requests).log == Labels(requests)
    decreases |requests|
  {
    SessionFollowsRun(p, requests);
    if requests != [] {
      var n := |requests| - 1;
      var prefix := requests[..n];
      SessionFollowsRun(p, prefix);
      UnlockedSessionLogsLabels(p, prefix);
    }
  }

  /** From an unlocked start, a session that ends locked has logged the
      invalid-transition message exactly once. */
  lemma {:induction false} InvalidLoggedOnce(p: Panel, requests: seq<Request>)
    requires !p.lock && Run(p, requests).lock
    ensures multiset(Session(p, requests).log)[InvalidTransition] == 1
    decreases |requests|
  {
    var n := |requests| - 1;
    var prefix, last := requests[..n], requests[n];
    var before := Session(p, prefix);
    var step := PostStatusEffect(before.panel, last);
    assert Session(p, requests).log == before.log + step.logged;
    SessionFollowsRun(p, prefix);
    if before.panel.lock {
      assert step.logged == [];
      InvalidLoggedOnce(p, prefix);
      assert Session(p, requests).log == before.log;
    } else {
      UnlockedSessionLogsLabels(p, prefix);
      assert !(InvalidTransition in Choices);
      assert multiset(before.log)[InvalidTransition] == 0;
      assert step.logged == [InvalidTransition, Choices[last]];
      assert multiset(step.logged)[InvalidTransition] == 1;
    }
  }

  /** The globals `state` and `lock` of main.c, and the file `state.log`
      as the sequence of messages appended to it during the run. */
  class Controller {
    var state: UInt32
    var lock: bool
    ghost var log: seq<string>

    function Snapshot(): Panel
      reads this
    {
      Panel(state, lock)
    }

    /** Start-up: `lock = 0; state = SAFE_TO_APPROACH;`. */
    constructor ()
      ensures Snapshot() == Initial && log == []
    {
      state := Ordinal(SafeToApproach);
      lock := false;
      log := [];
    }

    /** `log_state(msg)`: appends one line to the audit log. */
    method LogState(msg: string)
      modifies this`log
      ensures log == old(log) + [msg]
    {
      log := log + [msg];
    }

    method ChangeState(target: UInt32) returns (success: bool)
      modifies this
      ensures Snapshot() == ChangeStateEffect(old(Snapshot()), target).after
      ensures success == ChangeStateEffect(old(Snapshot()), target).success
      ensures log == old(log) + ChangeStateEffect(old(Snapshot()), target).logged
    {
      if lock {
        success := false;
        return;
      }
      // The test `target != FAULT` has an empty body in the source.
      if target != Successor(state) {
        success := false;
        lock := true;
        state := FaultCode;
        LogState(InvalidTransition);
      }
      ghost var lockBeforeToggles := lock;
      lock := !lock;
      state := target;
      lock := !lock;
      assert lock == lockBeforeToggles;
      success := true;
    }

    method PostStatus(istatus: Request) returns (shown: string)
      modifies this
      ensures Snapshot() == PostStatusEffect(old(Snapshot()), istatus).after
      ensures log == old(log) + PostStatusEffect(old(Snapshot()), istatus).logged
      ensures shown == PostStatusEffect(old(Snapshot()), istatus).shown
    {
      var success := ChangeState(istatus);
      if !success {
        shown := Choices[FaultCode];
        return;
      }
      LogState(Choices[istatus]);
      shown := Choices[istatus];
    }
  }
}
