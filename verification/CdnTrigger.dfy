/**
  The double-checked trigger of cdn/supervisor/service.go.

  Any number of calls of `triggerCdnSyncAction` run on one task over the shared lock pool, next to
  arbitrary other users of the pool and to arbitrary changes of the task's status. A call looks at
  the status under the read lock, gives that lock back, takes the write lock, looks again and only
  then starts the CDN.
 */
module CdnTrigger {
  import opened SyncLock

  type CallId = nat

  datatype CdnStatus = Waiting | Running | Failed | Success | SourceError {
    predicate IsFrozen() {
      Failed? || Waiting? || SourceError?
    }
  }

  /** Where a call is; the argument is the lock session it owns. */
  datatype Call =
    | Reading(sid: SessionId)    // in Lock(taskID, true), or past it and before the check
    | Lacked(sid: SessionId)     // returned errResourcesLacked without giving the read lock back
    | Upgrading(sid: SessionId)  // saw a frozen task, about to give the read lock back
    | Unlocked                   // between the two locks
    | Writing(sid: SessionId)    // in Lock(ID, false), or past it and before the second check
    | Confirmed(sid: SessionId)  // saw a frozen task again, about to start the trigger
    | Leaving(sid: SessionId)    // about to give its lock back and return
    | Returned
  {
    predicate Owns(s: SessionId) {
      !Unlocked? && !Returned? && sid == s
    }

    predicate Reads() {
      Reading? || Lacked? || Upgrading?
    }

    /** The call has returned, with or without giving its lock back. */
    predicate Ended() {
      Lacked? || Returned?
    }
  }

  datatype State<L> = State(pool: Pool<L>, calls: map<CallId, Call>, status: CdnStatus)

  datatype TriggerStep<L> =
    | OtherPoolUse(step: Step<L>)
    | LockForReading(call: CallId, sid: SessionId, locker: L)
    | ResourcesLacked(call: CallId)
    | Check(call: CallId)
    | GiveBack(call: CallId)
    | LockForWriting(call: CallId, sid: SessionId, locker: L)
    | Reconfirm(call: CallId)
    | StartTrigger(call: CallId)
    | Refreeze(status: CdnStatus)
    | SetStatus(status: CdnStatus)

  ghost predicate Owned<L>(s: State<L>, sid: SessionId) {
    exists c :: c in s.calls && s.calls[c].Owns(sid)
  }

  /** The call has been granted the lock of its session. */
  ghost predicate Granted<L>(s: State<L>, sid: SessionId) {
    sid in s.pool.sessions && s.pool.sessions[sid].holding
  }

  ghost predicate CanStep<L>(task: Key, s: State<L>, step: TriggerStep<L>) {
    match step
    case OtherPoolUse(ps) =>
      && Enabled(s.pool, ps)
      && (ps.BeginUnlockStep? ==> !Owned(s, ps.sid))
    case LockForReading(c, sid, locker) =>
      c !in s.calls && CanEnter(s.pool, sid, task, locker)
    case ResourcesLacked(c) =>
      c in s.calls && s.calls[c].Reading? && Granted(s, s.calls[c].sid)
    case Check(c) =>
      c in s.calls && s.calls[c].Reading? && Granted(s, s.calls[c].sid)
    case GiveBack(c) =>
      c in s.calls && (s.calls[c].Upgrading? || s.calls[c].Leaving?) && CanBeginUnlock(s.pool, s.calls[c].sid)
    case LockForWriting(c, sid, locker) =>
      c in s.calls && s.calls[c].Unlocked? && CanEnter(s.pool, sid, task, locker)
    case Reconfirm(c) =>
      c in s.calls && s.calls[c].Writing? && Granted(s, s.calls[c].sid)
    case StartTrigger(c) =>
      c in s.calls && s.calls[c].Confirmed?
    case Refreeze(status) =>
      !s.status.IsFrozen() && status.IsFrozen()
    case SetStatus(status) =>
      s.status.IsFrozen() || !status.IsFrozen()
  }

  ghost function Next<L>(task: Key, s: State<L>, step: TriggerStep<L>): State<L>
    requires CanStep(task, s, step)
  {
    match step
    case OtherPoolUse(ps) =>
      s.(pool := After(s.pool, ps))
    case LockForReading(c, sid, locker) =>
      s.(pool := Enter(s.pool, sid, task, Read, locker), calls := s.calls[c := Reading(sid)])
    case ResourcesLacked(c) =>
      s.(calls := s.calls[c := Lacked(s.calls[c].sid)])
    case Check(c) =>
      s.(calls := s.calls[c := if s.status.IsFrozen() then Upgrading(s.calls[c].sid) else Leaving(s.calls[c].sid)])
    case GiveBack(c) =>
      s.(pool := BeginUnlock(s.pool, s.calls[c].sid),
         calls := s.calls[c := if s.calls[c].Upgrading? then Unlocked else Returned])
    case LockForWriting(c, sid, locker) =>
      s.(pool := Enter(s.pool, sid, task, Write, locker), calls := s.calls[c := Writing(sid)])
    case Reconfirm(c) =>
      s.(calls := s.calls[c := if s.status.IsFrozen() then Confirmed(s.calls[c].sid) else Leaving(s.calls[c].sid)])
    case StartTrigger(c) =>
      s.(status := Running, calls := s.calls[c := Leaving(s.calls[c].sid)])
    case Refreeze(status) =>
      s.(status := status)
    case SetStatus(status) =>
      s.(status := status)
  }

  ghost predicate IsTriggerRun<L>(task: Key, states: seq<State<L>>, steps: seq<TriggerStep<L>>) {
    && |states| == |steps| + 1
    && states[0] == State(EmptyPool(), map[], Waiting)
    && forall i | 0 <= i < |steps| :: CanStep(task, states[i], steps[i]) && states[i + 1] == Next(task, states[i], steps[i])
  }

  ghost function Triggers<L>(steps: seq<TriggerStep<L>>): nat {
    if steps == [] then 0
    else Triggers(steps[..|steps| - 1]) + if steps[|steps| - 1].StartTrigger? then 1 else 0
  }

  ghost function Refreezes<L>(steps: seq<TriggerStep<L>>): nat {
    if steps == [] then 0
    else Refreezes(steps[..|steps| - 1]) + if steps[|steps| - 1].Refreeze? then 1 else 0
  }

  // ---------------------------------------------------------------------------------------------

  /** The lock session of a call is on the task, in the mode of its place, and held where it acts. */
  ghost predicate Backed<L>(task: Key, s: State<L>, c: CallId)
    requires c in s.calls
  {
    var call := s.calls[c];
    !call.Unlocked? && !call.Returned? ==>
      && call.sid in s.pool.sessions
      && s.pool.sessions[call.sid].key == task
      && (call.Reads() ==> s.pool.sessions[call.sid].mode == Read)
      && (call.Writing? || call.Confirmed? ==> s.pool.sessions[call.sid].mode == Write)
      && (call.Lacked? || call.Upgrading? || call.Confirmed? || call.Leaving? ==> s.pool.sessions[call.sid].holding)
  }

  ghost predicate OwnersDiffer<L>(s: State<L>) {
    forall c, c', sid | c in s.calls && c' in s.calls && s.calls[c].Owns(sid) && s.calls[c'].Owns(sid) :: c == c'
  }

  ghost predicate CallsBacked<L>(task: Key, s: State<L>) {
    && (forall c | c in s.calls :: Backed(task, s, c))
    && OwnersDiffer(s)
  }

  ghost predicate TriggerInv<L>(task: Key, s: State<L>) {
    Inv(s.pool) && CallsBacked(task, s)
  }

  lemma PoolStepKeepsSession<L>(p: Pool<L>, step: Step<L>, sid: SessionId)
    requires Enabled(p, step) && sid in p.sessions && !(step.BeginUnlockStep? && step.sid == sid)
    ensures sid in After(p, step).sessions
    ensures var a, b := p.sessions[sid], After(p, step).sessions[sid];
            b.key == a.key && b.mode == a.mode && (a.holding ==> b.holding)
  {
  }

  lemma OtherPoolUseKeepsInv<L>(task: Key, s: State<L>, ps: Step<L>)
    requires TriggerInv(task, s) && CanStep(task, s, OtherPoolUse(ps))
    ensures TriggerInv(task, Next(task, s, OtherPoolUse(ps)))
  {
    StepKeepsInv(s.pool, ps);
    forall c | c in s.calls ensures Backed(task, Next(task, s, OtherPoolUse(ps)), c) {
      var call := s.calls[c];
      if !call.Unlocked? && !call.Returned? {
        assert call.Owns(call.sid);
        PoolStepKeepsSession(s.pool, ps, call.sid);
      }
    }
  }

  lemma LockingKeepsCalls<L>(task: Key, s: State<L>, c: CallId, sid: SessionId, call: Call, locker: L)
    requires CallsBacked(task, s) && CanEnter(s.pool, sid, task, locker)
    requires c in s.calls ==> s.calls[c].Unlocked?
    requires call == Reading(sid) || call == Writing(sid)
    ensures CallsBacked(task, s.(pool := Enter(s.pool, sid, task, if call.Reading? then Read else Write, locker),
                                 calls := s.calls[c := call]))
  {
    var q := s.(pool := Enter(s.pool, sid, task, if call.Reading? then Read else Write, locker), calls := s.calls[c := call]);
    forall c' | c' in q.calls ensures Backed(task, q, c') {
      assert c' != c ==> Backed(task, s, c');
    }
    assert forall c' | c' in s.calls :: Backed(task, s, c') && !s.calls[c'].Owns(sid);
  }

  lemma GiveBackKeepsCalls<L>(task: Key, s: State<L>, c: CallId)
    requires CallsBacked(task, s) && CanStep(task, s, GiveBack(c))
    ensures CallsBacked(task, Next(task, s, GiveBack(c)))
  {
    var q := Next(task, s, GiveBack(c));
    var sid := s.calls[c].sid;
    assert s.calls[c].Owns(sid);
    forall c' | c' in q.calls ensures Backed(task, q, c') {
      assert c' != c ==> Backed(task, s, c') && !s.calls[c'].Owns(sid);
    }
  }

  /** A call that moves on without touching the pool keeps its session. */
  lemma MovingKeepsCalls<L>(task: Key, s: State<L>, c: CallId, call: Call, status: CdnStatus)
    requires CallsBacked(task, s) && c in s.calls
    requires !s.calls[c].Unlocked? && !s.calls[c].Returned? && call.Owns(s.calls[c].sid)
    requires Granted(s, s.calls[c].sid)
    requires call.Reads() ==> s.calls[c].Reads()
    requires call.Writing? || call.Confirmed? ==> s.calls[c].Writing? || s.calls[c].Confirmed?
    ensures CallsBacked(task, s.(calls := s.calls[c := call], status := status))
  {
    var q := s.(calls := s.calls[c := call], status := status);
    forall c' | c' in q.calls ensures Backed(task, q, c') {
      assert Backed(task, s, c');
    }
  }

  lemma TriggerStepKeepsInv<L>(task: Key, s: State<L>, step: TriggerStep<L>)
    requires TriggerInv(task, s) && CanStep(task, s, step)
    ensures TriggerInv(task, Next(task, s, step))
  {
    match step
    case OtherPoolUse(ps) =>
      OtherPoolUseKeepsInv(task, s, ps);
    case LockForReading(c, sid, locker) =>
      EnterKeepsInv(s.pool, sid, task, Read, locker);
      LockingKeepsCalls(task, s, c, sid, Reading(sid), locker);
    case ResourcesLacked(c) =>
      MovingKeepsCalls(task, s, c, Lacked(s.calls[c].sid), s.status);
    case Check(c) =>
      MovingKeepsCalls(task, s, c, Next(task, s, step).calls[c], s.status);
    case GiveBack(c) =>
      BeginUnlockKeepsInv(s.pool, s.calls[c].sid);
      GiveBackKeepsCalls(task, s, c);
    case LockForWriting(c, sid, locker) =>
      EnterKeepsInv(s.pool, sid, task, Write, locker);
      LockingKeepsCalls(task, s, c, sid, Writing(sid), locker);
    case Reconfirm(c) =>
      MovingKeepsCalls(task, s, c, Next(task, s, step).calls[c], s.status);
    case StartTrigger(c) =>
      assert Backed(task, s, c);
      MovingKeepsCalls(task, s, c, Leaving(s.calls[c].sid), Running);
    case Refreeze(status) =>
      StatusIsFree(task, s, status);
    case SetStatus(status) =>
      StatusIsFree(task, s, status);
  }

  lemma StatusIsFree<L>(task: Key, s: State<L>, status: CdnStatus)
    requires CallsBacked(task, s)
    ensures CallsBacked(task, s.(status := status))
  {
    assert forall c | c in s.calls :: Backed(task, s, c);
  }

  /** The write lock of the pool lets one call at a time past the second check. */
  lemma OneConfirmed<L>(task: Key, s: State<L>, c: CallId, c': CallId)
    requires TriggerInv(task, s) && c in s.calls && c' in s.calls
    requires s.calls[c].Confirmed? && s.calls[c'].Confirmed?
    ensures c == c'
  {
    assert Backed(task, s, c) && Backed(task, s, c');
    if s.calls[c].sid != s.calls[c'].sid {
      HoldersExclude(s.pool, s.calls[c].sid, s.calls[c'].sid);
      assert false;
    }
    assert s.calls[c].Owns(s.calls[c].sid) && s.calls[c'].Owns(s.calls[c].sid);
  }

  /** A trigger may still come: the task is frozen, or a call has confirmed that it was. */
  ghost predicate Armed<L>(s: State<L>) {
    s.status.IsFrozen() || exists c :: c in s.calls && s.calls[c].Confirmed?
  }

  lemma TriggerDisarms<L>(task: Key, s: State<L>, step: TriggerStep<L>)
    requires TriggerInv(task, s) && CanStep(task, s, step) && step.StartTrigger?
    ensures Armed(s) && !Armed(Next(task, s, step))
  {
    var q := Next(task, s, step);
    forall c | c in q.calls ensures !q.calls[c].Confirmed? {
      if c != step.call && s.calls[c].Confirmed? {
        OneConfirmed(task, s, c, step.call);
      }
    }
  }

  lemma OthersDoNotArm<L>(task: Key, s: State<L>, step: TriggerStep<L>)
    requires CanStep(task, s, step) && !step.StartTrigger? && !step.Refreeze? && Armed(Next(task, s, step))
    ensures Armed(s)
  {
    var q := Next(task, s, step);
    if !s.status.IsFrozen() {
      var c :| c in q.calls && q.calls[c].Confirmed?;
      assert c in s.calls && s.calls[c].Confirmed?;
    }
  }

  lemma {:induction false} TriggersAccounted<L>(task: Key, states: seq<State<L>>, steps: seq<TriggerStep<L>>, i: nat)
    requires IsTriggerRun(task, states, steps) && i < |states|
    ensures TriggerInv(task, states[i])
    ensures Triggers(steps[..i]) + (if Armed(states[i]) then 1 else 0) <= 1 + Refreezes(steps[..i])
  {
    if i > 0 {
      TriggersAccounted(task, states, steps, i - 1);
      TriggerStepKeepsInv(task, states[i - 1], steps[i - 1]);
      if steps[i - 1].StartTrigger? {
        TriggerDisarms(task, states[i - 1], steps[i - 1]);
      } else if !steps[i - 1].Refreeze? && Armed(states[i]) {
        OthersDoNotArm(task, states[i - 1], steps[i - 1]);
      }
      assert steps[..i][..i - 1] == steps[..i - 1];
    }
  }

  /** However many calls race, and whatever leaves its read lock behind, the CDN is started at most
      once more than the task is frozen again. */
  lemma TriggeredOncePerFreeze<L>(task: Key, states: seq<State<L>>, steps: seq<TriggerStep<L>>)
    requires IsTriggerRun(task, states, steps)
    ensures Triggers(steps) <= 1 + Refreezes(steps)
  {
    TriggersAccounted(task, states, steps, |steps|);
    assert steps[..|steps|] == steps;
  }

  /** The status of the task may change in any way at any time; what counts as freezing it again is a
      change from running or done to waiting or failed. */
  lemma AnyStatusChange<L>(task: Key, s: State<L>, status: CdnStatus)
    ensures var again := (s.status == Running || s.status == Success) && (status == Waiting || status == Failed || status == SourceError);
            && (CanStep(task, s, Refreeze(status)) <==> again) && (CanStep(task, s, SetStatus(status)) <==> !again)
            && (again ==> Next(task, s, Refreeze(status)) == s.(status := status))
            && (!again ==> Next(task, s, SetStatus(status)) == s.(status := status))
  {
  }

  // ---------------------------------------------------------------------------------------------
  // Why a call does, or does not, start the CDN
  // ---------------------------------------------------------------------------------------------

  /** At step k the call found the task running or done. */
  ghost predicate FoundActive<L>(states: seq<State<L>>, steps: seq<TriggerStep<L>>, c: CallId, k: nat) {
    && k < |steps| < |states| && (steps[k] == Check(c) || steps[k] == Reconfirm(c))
    && (states[k].status == Running || states[k].status == Success)
  }

  /** At step k the call found the task waiting or failed, while it held the write lock. */
  ghost predicate FoundFrozen<L>(states: seq<State<L>>, steps: seq<TriggerStep<L>>, c: CallId, k: nat) {
    && k < |steps| < |states| && steps[k] == Reconfirm(c)
    && (states[k].status == Waiting || states[k].status == Failed || states[k].status == SourceError)
  }

  /** The call has started the CDN, or has found the task running or done. */
  ghost predicate Settled<L>(states: seq<State<L>>, steps: seq<TriggerStep<L>>, c: CallId, i: nat) {
    || (exists k: nat :: k < i && k < |steps| && steps[k] == StartTrigger(c))
    || (exists k: nat :: k < i && FoundActive(states, steps, c, k))
  }

  lemma {:induction false} LeavesSettled<L>(task: Key, states: seq<State<L>>, steps: seq<TriggerStep<L>>, c: CallId, i: nat)
    requires IsTriggerRun(task, states, steps) && i < |states| && c in states[i].calls
    requires states[i].calls[c].Leaving? || states[i].calls[c].Returned?
    ensures Settled(states, steps, c, i)
  {
    var s, step := states[i - 1], steps[i - 1];
    assert CanStep(task, s, step) && states[i] == Next(task, s, step);
    if c in s.calls && (s.calls[c].Leaving? || s.calls[c].Returned?) {
      LeavesSettled(task, states, steps, c, i - 1);
    } else {
      assert step == StartTrigger(c) || FoundActive(states, steps, c, i - 1);
    }
  }

  /** In every run a call that has returned without errResourcesLacked has started the CDN, or has
      found the task running or done; a frozen task is not left alone. */
  lemma ReturnsForAReason<L>(task: Key, states: seq<State<L>>, steps: seq<TriggerStep<L>>, c: CallId, i: nat)
    requires IsTriggerRun(task, states, steps) && i < |states| && c in states[i].calls && states[i].calls[c].Returned?
    ensures || (exists k: nat :: k < i && steps[k] == StartTrigger(c))
            || (exists k: nat :: && k < i && (steps[k] == Check(c) || steps[k] == Reconfirm(c))
                                 && (states[k].status == Running || states[k].status == Success))
  {
    LeavesSettled(task, states, steps, c, i);
    if k: nat :| k < i && FoundActive(states, steps, c, k) {
      assert states[k].status == Running || states[k].status == Success;
    }
  }

  lemma {:induction false} ConfirmedFoundFrozen<L>(task: Key, states: seq<State<L>>, steps: seq<TriggerStep<L>>, c: CallId, i: nat)
    requires IsTriggerRun(task, states, steps) && i < |states| && c in states[i].calls && states[i].calls[c].Confirmed?
    ensures exists k: nat :: k < i && FoundFrozen(states, steps, c, k)
  {
    var s, step := states[i - 1], steps[i - 1];
    assert CanStep(task, s, step) && states[i] == Next(task, s, step);
    if c in s.calls && s.calls[c].Confirmed? {
      ConfirmedFoundFrozen(task, states, steps, c, i - 1);
    } else {
      assert FoundFrozen(states, steps, c, i - 1);
    }
  }

  /** In every run the CDN is started only by a call that has found the task waiting or failed under the
      write lock, and the task is running then. */
  lemma TriggersForAReason<L>(task: Key, states: seq<State<L>>, steps: seq<TriggerStep<L>>, c: CallId, i: nat)
    requires IsTriggerRun(task, states, steps) && i < |steps| && steps[i] == StartTrigger(c)
    ensures exists k: nat :: && k < i && steps[k] == Reconfirm(c)
                             && (states[k].status == Waiting || states[k].status == Failed || states[k].status == SourceError)
    ensures states[i + 1].status == Running
  {
    assert CanStep(task, states[i], steps[i]) && states[i + 1] == Next(task, states[i], steps[i]);
    ConfirmedFoundFrozen(task, states, steps, c, i);
    var k: nat :| k < i && FoundFrozen(states, steps, c, k);
    assert steps[k] == Reconfirm(c);
  }

  lemma Extend<L>(task: Key, states: seq<State<L>>, steps: seq<TriggerStep<L>>, step: TriggerStep<L>)
    returns (longer: seq<State<L>>, more: seq<TriggerStep<L>>)
    requires IsTriggerRun(task, states, steps) && CanStep(task, states[|steps|], step)
    ensures IsTriggerRun(task, longer, more) && longer[|more|] == Next(task, states[|steps|], step) && more == steps + [step]
  {
    longer, more := states + [Next(task, states[|steps|], step)], steps + [step];
  }

  /** The pool while a session, alone, holds the task with the first locker. */
  ghost function HeldAlone<L>(task: Key, locker: L, sid: SessionId, mode: Mode): Pool<L> {
    Pool(map[task := locker], map[locker := Rw(1, mode == Write, if mode == Read then 1 else 0)], {},
         map[sid := Session(task, mode, locker, true)], Free)
  }

  /** The pool after it has given the task back. */
  ghost function GivenBack<L>(locker: L): Pool<L> {
    Pool(map[], map[locker := UNUSED], {locker}, map[], Free)
  }

  lemma AloneGetsReadLock<L>(task: Key, locker: L) returns (states: seq<State<L>>, steps: seq<TriggerStep<L>>)
    ensures IsTriggerRun(task, states, steps)
    ensures states[|steps|] == State(HeldAlone(task, locker, 0, Read), map[0 := Reading(0)], Waiting)
  {
    states, steps := [State(EmptyPool(), map[], Waiting)], [];
    states, steps := Extend(task, states, steps, LockForReading(0, 0, locker));
    states, steps := Extend(task, states, steps, OtherPoolUse(AcquireStep(0)));
  }

  lemma AloneGivesReadLockBack<L>(task: Key, locker: L) returns (states: seq<State<L>>, steps: seq<TriggerStep<L>>)
    ensures IsTriggerRun(task, states, steps)
    ensures states[|steps|] == State(GivenBack(locker), map[0 := Unlocked], Waiting)
  {
    states, steps := AloneGetsReadLock(task, locker);
    states, steps := Extend(task, states, steps, Check(0));
    states, steps := Extend(task, states, steps, GiveBack(0));
    states, steps := Extend(task, states, steps, OtherPoolUse(EndUnlockStep));
  }

  lemma AloneGetsWriteLock<L>(task: Key, locker: L) returns (states: seq<State<L>>, steps: seq<TriggerStep<L>>)
    ensures IsTriggerRun(task, states, steps)
    ensures states[|steps|] == State(HeldAlone(task, locker, 1, Write), map[0 := Writing(1)], Waiting)
  {
    states, steps := AloneGivesReadLockBack(task, locker);
    states, steps := Extend(task, states, steps, LockForWriting(0, 1, locker));
    states, steps := Extend(task, states, steps, OtherPoolUse(AcquireStep(1)));
  }

  /** A call that is alone with a fresh task starts the CDN. */
  lemma AloneTriggers<L>(task: Key, locker: L) returns (states: seq<State<L>>, steps: seq<TriggerStep<L>>)
    ensures IsTriggerRun(task, states, steps) && StartTrigger(0) in steps
    ensures states[|steps|].status == Running && states[|steps|].calls == map[0 := Returned]
  {
    states, steps := AloneGetsWriteLock(task, locker);
    states, steps := Extend(task, states, steps, Reconfirm(0));
    states, steps := Extend(task, states, steps, StartTrigger(0));
    states, steps := Extend(task, states, steps, GiveBack(0));
    assert steps[|steps| - 2] == StartTrigger(0);
  }

  // ---------------------------------------------------------------------------------------------
  // The lock that errResourcesLacked leaves behind
  // ---------------------------------------------------------------------------------------------

  /** Somebody who is no call of the trigger enters Lock on the task in this step. */
  ghost predicate OtherEnters<L>(task: Key, step: TriggerStep<L>, sid: SessionId) {
    step.OtherPoolUse? && step.step.EnterStep? && step.step.sid == sid && step.step.key == task
  }

  /** At state i the session is still the one with which somebody else entered Lock at step k. */
  ghost predicate EnteredAt<L>(task: Key, states: seq<State<L>>, steps: seq<TriggerStep<L>>, i: nat, sid: SessionId, k: nat) {
    && k < i < |states| && k < |steps| && OtherEnters(task, steps[k], sid)
    && forall m | k < m <= i :: sid in states[m].pool.sessions
  }

  /** At state i the session belongs to somebody who is no call of the trigger. */
  ghost predicate OthersSession<L>(task: Key, states: seq<State<L>>, steps: seq<TriggerStep<L>>, i: nat, sid: SessionId) {
    exists k: nat :: EnteredAt(task, states, steps, i, sid, k)
  }

  /** A session on the task was there before, and its call keeps it, or it has just been entered. */
  lemma StepAccountsForSession<L>(task: Key, s: State<L>, step: TriggerStep<L>, sid: SessionId)
    requires CanStep(task, s, step) && sid in Users(Next(task, s, step).pool, task)
    ensures || Owned(Next(task, s, step), sid)
            || OtherEnters(task, step, sid)
            || (sid in Users(s.pool, task) && !Owned(s, sid))
  {
    var q := Next(task, s, step);
    if sid in Users(s.pool, task) && Owned(s, sid) {
      var c :| c in s.calls && s.calls[c].Owns(sid);
      assert c in q.calls && q.calls[c].Owns(sid);
    } else if sid !in Users(s.pool, task) && !OtherEnters(task, step, sid) {
      assert q.calls[step.call].Owns(sid);
    }
  }

  lemma StaysOthers<L>(task: Key, states: seq<State<L>>, steps: seq<TriggerStep<L>>, i: nat, sid: SessionId)
    requires i + 1 < |states| && sid in states[i + 1].pool.sessions && OthersSession(task, states, steps, i, sid)
    ensures OthersSession(task, states, steps, i + 1, sid)
  {
    var k: nat :| EnteredAt(task, states, steps, i, sid, k);
    assert EnteredAt(task, states, steps, i + 1, sid, k);
  }

  /** Every session on the task is the one of a call, or somebody else's. */
  lemma {:induction false} EverySessionIsSomebodys<L>(task: Key, states: seq<State<L>>, steps: seq<TriggerStep<L>>, i: nat,
                                                      sid: SessionId)
    requires IsTriggerRun(task, states, steps) && i < |states| && sid in Users(states[i].pool, task)
    ensures Owned(states[i], sid) || OthersSession(task, states, steps, i, sid)
  {
    if i > 0 {
      assert CanStep(task, states[i - 1], steps[i - 1]) && states[i] == Next(task, states[i - 1], steps[i - 1]);
      StepAccountsForSession(task, states[i - 1], steps[i - 1], sid);
      if OtherEnters(task, steps[i - 1], sid) {
        assert EnteredAt(task, states, steps, i, sid, i - 1);
      } else if !Owned(states[i], sid) {
        EverySessionIsSomebodys(task, states, steps, i - 1, sid);
        StaysOthers(task, states, steps, i - 1, sid);
      }
    }
  }

  /** Whatever else locks the task: when all calls have returned, nobody holds or waits for its lock
      exactly when no call returned errResourcesLacked and everybody else has left. */
  lemma BalancedExactlyWithoutLack<L>(task: Key, states: seq<State<L>>, steps: seq<TriggerStep<L>>, i: nat)
    requires IsTriggerRun(task, states, steps) && i < |states|
    requires forall c | c in states[i].calls :: states[i].calls[c].Ended()
    ensures Users(states[i].pool, task) == {} <==>
              && (forall c | c in states[i].calls :: !states[i].calls[c].Lacked?)
              && (forall sid | sid in Users(states[i].pool, task) :: !OthersSession(task, states, steps, i, sid))
  {
    var s := states[i];
    TriggersAccounted(task, states, steps, i);
    if c :| c in s.calls && s.calls[c].Lacked? {
      assert Backed(task, s, c);
      assert s.calls[c].sid in Users(s.pool, task);
    }
    forall sid | sid in Users(s.pool, task) ensures Owned(s, sid) || OthersSession(task, states, steps, i, sid) {
      EverySessionIsSomebodys(task, states, steps, i, sid);
    }
  }

  /** It does happen: the first call on a task finds no room for its content. */
  lemma LackIsReachable<L>(task: Key, locker: L) returns (states: seq<State<L>>, steps: seq<TriggerStep<L>>)
    ensures IsTriggerRun(task, states, steps) && forall k, sid | 0 <= k < |steps| :: !OtherEnters(task, steps[k], sid)
    ensures states[|steps|].calls == map[0 := Lacked(0)]
  {
    var s0: State<L> := State(EmptyPool(), map[], Waiting);
    var s1 := State(Enter(s0.pool, 0, task, Read, locker), map[0 := Reading(0)], Waiting);
    var s2 := s1.(pool := Acquire(s1.pool, 0));
    var s3 := s2.(calls := map[0 := Lacked(0)]);
    states := [s0, s1, s2, s3];
    steps := [LockForReading(0, 0, locker), OtherPoolUse(AcquireStep(0)), ResourcesLacked(0)];
    assert s1 == Next(task, s0, steps[0]) && s2 == Next(task, s1, steps[1]) && s3 == Next(task, s2, steps[2]);
  }

  lemma {:induction false} LackedStays<L>(task: Key, states: seq<State<L>>, steps: seq<TriggerStep<L>>, c: CallId, i: nat, j: nat)
    requires IsTriggerRun(task, states, steps) && i <= j < |states|
    requires c in states[i].calls && states[i].calls[c].Lacked?
    ensures c in states[j].calls && states[j].calls[c].Lacked?
    decreases j
  {
    if i < j {
      LackedStays(task, states, steps, c, i, j - 1);
      assert CanStep(task, states[j - 1], steps[j - 1]);
    }
  }

  /** The price of the early return: once a call has left with errResourcesLacked its read lock is
      never given back, and nobody, in the trigger or elsewhere, is ever granted the write lock of the
      task again. */
  lemma LackedEndsWriters<L>(task: Key, states: seq<State<L>>, steps: seq<TriggerStep<L>>, c: CallId, i: nat, j: nat,
                             writer: SessionId)
    requires IsTriggerRun(task, states, steps) && i <= j < |states|
    requires c in states[i].calls && states[i].calls[c].Lacked?
    requires writer in Users(states[j].pool, task) && states[j].pool.sessions[writer].mode == Write
    ensures !states[j].pool.sessions[writer].holding && !CanAcquire(states[j].pool, writer)
  {
    LackedStays(task, states, steps, c, i, j);
    TriggersAccounted(task, states, steps, j);
    var p, reader := states[j].pool, states[j].calls[c].sid;
    assert Backed(task, states[j], c);
    if p.sessions[writer].holding {
      HoldersExclude(p, writer, reader);
      assert false;
    }
    GrantedExactlyWhenFree(p, writer);
    assert reader in Abstract(p);
  }

  /** In particular the task is never triggered again. */
  lemma LackedEndsTriggers<L>(task: Key, states: seq<State<L>>, steps: seq<TriggerStep<L>>, c: CallId, i: nat, j: nat)
    requires IsTriggerRun(task, states, steps) && i <= j < |steps|
    requires c in states[i].calls && states[i].calls[c].Lacked?
    ensures !steps[j].StartTrigger?
  {
    TriggersAccounted(task, states, steps, j);
    var s, step := states[j], steps[j];
    assert CanStep(task, s, step);
    if step.StartTrigger? {
      assert Backed(task, s, step.call);
      LackedEndsWriters(task, states, steps, c, i, j, s.calls[step.call].sid);
    }
  }
}
