/**
  Rescheduling of peers in scheduler/core/service.go and scheduler/core/events.go.

  An entry (`rsPeer`) asks for a parent for its peer. `runReScheduleParentLoop` takes entries from a
  delaying queue and hands each to a worker as an event; applying the event counts it up and may put
  the entry back into the queue. What the loop and the event see of the peer, its task and the
  scheduler at that moment is an oracle. Stop closes a channel that the loop looks at before it takes
  an entry; the loop then shuts the queue down and returns.
 */
module Reschedule {
  import opened Wrappers

  const MAX_RESCHEDULE_TIMES := 8

  /** What the loop sees of a peer. */
  datatype LoopView = LoopView(connected: bool, isBackToSource: bool, done: bool, left: bool)

  datatype Sent = Delivered | ChannelBusy | SendFailed

  /** What the event sees: the task, the parent the peer has, and the outcome of scheduling. */
  datatype EventView = EventView(
    taskFailed: bool,
    connected: bool,
    parent: Option<string>,
    hasParent: bool,
    canBackToSource: bool,
    isBackToSource: bool,
    sent: Sent)

  /** How an entry ends. */
  datatype Outcome =
    | GaveUp(backToSource: bool)      // too many attempts: the channel is closed with an error
    | NoLongerNeeded                  // back-to-source peer already, or done, or gone
    | Closed                          // its task failed
    | AlreadyParented
    | BackToSource(registered: bool)
    | SendAttempted
    | ShutDown                        // the workers have stopped

  datatype Decision = Finished(outcome: Outcome) | HandOver

  /** One turn of the loop for an entry that has been applied `times` times. */
  function Decide(times: nat, v: LoopView): Decision {
    if times > MAX_RESCHEDULE_TIMES then Finished(GaveUp(v.connected))
    else if v.isBackToSource then Finished(NoLongerNeeded)
    else if v.done || v.left then Finished(NoLongerNeeded)
    else HandOver
  }

  datatype Verdict = Over(outcome: Outcome) | Requeue

  /** The effect of the event, after it has counted itself. */
  function Judge(blankParents: set<string>, v: EventView): Verdict {
    if v.taskFailed then Over(Closed)
    else if v.parent.Some? && v.parent.value !in blankParents then Over(AlreadyParented)
    else if !v.hasParent then
      if v.canBackToSource && !v.isBackToSource then Over(BackToSource(v.connected)) else Requeue
    else Over(SendAttempted)
  }

  // ---------------------------------------------------------------------------------------------
  // The code of the event
  // ---------------------------------------------------------------------------------------------

  class RsPeer {
    var times: nat
    const blankParents: set<string>

    constructor (blankParents: set<string>)
      ensures times == 0 && this.blankParents == blankParents
    {
      times, this.blankParents := 0, blankParents;
    }
  }

  class State {
    var waitQueue: multiset<RsPeer>
    /** The loop has shut the queue down. */
    var shuttingDown: bool

    /** AddAfter of the delaying queue, without the delay. */
    method AddAfter(entry: RsPeer)
      modifies this
      ensures shuttingDown == old(shuttingDown)
      ensures waitQueue == old(waitQueue) + if shuttingDown then multiset{} else multiset{entry}
    {
      if !shuttingDown {
        waitQueue := waitQueue + multiset{entry};
      }
    }

    /** reScheduleParentEvent.apply, and the fresh entry that a busy channel leaves behind. */
    method Apply(entry: RsPeer, v: EventView) returns (outcome: Option<Outcome>, renewed: Option<RsPeer>)
      modifies this, entry
      ensures entry.times == old(entry.times) + 1
      ensures Judge(entry.blankParents, v) == (if outcome.Some? then Over(outcome.value) else Requeue)
      ensures renewed.Some? <==> Judge(entry.blankParents, v) == Over(SendAttempted) && v.sent == ChannelBusy
      ensures renewed.Some? ==> fresh(renewed.value) && renewed.value.times == 0
      ensures shuttingDown == old(shuttingDown)
      ensures waitQueue == old(waitQueue) + (if outcome.None? && !shuttingDown then multiset{entry} else multiset{})
                                          + (if renewed.Some? && !shuttingDown then multiset{renewed.value} else multiset{})
    {
      entry.times := entry.times + 1;
      renewed := None;
      if v.taskFailed {
        return Some(Closed), None;
      }
      if v.parent.Some? && v.parent.value !in entry.blankParents {
        return Some(AlreadyParented), None;
      }
      if !v.hasParent {
        if v.canBackToSource && !v.isBackToSource {
          return Some(BackToSource(v.connected)), None;
        }
        AddAfter(entry);
        return None, None;
      }
      if v.sent == ChannelBusy {
        var again := new RsPeer({});
        AddAfter(again);
        renewed := Some(again);
      }
      outcome := Some(SendAttempted);
    }
  }

  // ---------------------------------------------------------------------------------------------
  // Entries in circulation
  // ---------------------------------------------------------------------------------------------

  type EntryId = nat
  type WorkerId = nat

  /** The loop goroutine: before its select, in wsdq.Get, holding an entry, blocked in worker.send, or
      returned after shutting the queue down. */
  datatype LoopPc = Top | Getting | Holding(entry: EntryId) | Sending(entry: EntryId) | Stopped {
    predicate Has(e: EntryId) {
      (Holding? || Sending?) && entry == e
    }
  }

  datatype Entry = Entry(times: nat, applied: nat, blankParents: set<string>, outcome: Option<Outcome>)

  /** `done` says whether Stop has been called, `dropped` are the entries that were added to the queue
      after it was shut down. */
  datatype System = System(
    entries: map<EntryId, Entry>,
    queue: multiset<EntryId>,
    loop: LoopPc,
    applying: map<WorkerId, EntryId>,
    done: bool,
    dropped: set<EntryId>)

  datatype Step =
    | NewEntry(entry: EntryId, blankParents: set<string>)   // another event queues a peer
    | Stop                                                  // close(done)
    | Look                                                  // the select of the loop
    | Take(entry: EntryId)                                  // wsdq.Get and wsdq.Done
    | Turn(seen: LoopView)
    | Deliver(w: WorkerId)                                  // send succeeds, apply begins
    | SendRefused                                           // the worker has been stopped
    | EndApply(w: WorkerId, view: EventView)

  ghost predicate Enabled(s: System, step: Step) {
    match step
    case NewEntry(e, _) => e !in s.entries
    case Stop => !s.done
    case Look => s.loop.Top?
    case Take(e) => s.loop.Getting? && e in s.queue
    case Turn(_) => s.loop.Holding? && s.loop.entry in s.entries
    case Deliver(w) => s.loop.Sending? && s.loop.entry in s.entries && w !in s.applying
    case SendRefused => s.loop.Sending? && s.loop.entry in s.entries && s.done
    case EndApply(w, _) => w in s.applying && s.applying[w] in s.entries
  }

  function End(e: Entry, outcome: Outcome): Entry {
    e.(outcome := Some(outcome))
  }

  /** A queue that has been shut down drops what is added to it. */
  function Add(s: System, e: EntryId): System {
    if s.loop.Stopped? then s.(dropped := s.dropped + {e}) else s.(queue := s.queue + multiset{e})
  }

  ghost function Next(s: System, step: Step): System
    requires Enabled(s, step)
  {
    match step
    case NewEntry(e, blank) => Add(s.(entries := s.entries[e := Entry(0, 0, blank, None)]), e)
    case Stop => s.(done := true)
    case Look => s.(loop := if s.done then Stopped else Getting)
    case Take(e) => s.(queue := s.queue - multiset{e}, loop := Holding(e))
    case Turn(view) =>
      var e := s.loop.entry;
      (match Decide(s.entries[e].times, view)
       case Finished(outcome) => s.(entries := s.entries[e := End(s.entries[e], outcome)], loop := Top)
       case HandOver => s.(loop := Sending(e)))
    case Deliver(w) =>
      var e := s.loop.entry;
      s.(entries := s.entries[e := s.entries[e].(times := s.entries[e].times + 1, applied := s.entries[e].applied + 1)],
         loop := Top,
         applying := s.applying[w := e])
    case SendRefused =>
      s.(entries := s.entries[s.loop.entry := End(s.entries[s.loop.entry], ShutDown)], loop := Top)
    case EndApply(w, view) =>
      var e := s.applying[w];
      var q := s.(applying := s.applying - {w});
      (match Judge(s.entries[e].blankParents, view)
       case Over(outcome) => q.(entries := q.entries[e := End(q.entries[e], outcome)])
       case Requeue => Add(q, e))
  }

  ghost predicate IsRun(states: seq<System>, steps: seq<Step>) {
    && |states| == |steps| + 1
    && states[0] == System(map[], multiset{}, Top, map[], false, {})
    && forall i | 0 <= i < |steps| :: Enabled(states[i], steps[i]) && states[i + 1] == Next(states[i], steps[i])
  }

  ghost predicate UnderApplication(s: System, e: EntryId) {
    exists w :: w in s.applying && s.applying[w] == e
  }

  /** All that a state says about one entry. */
  datatype Spot = Spot(entry: Entry, queued: nat, held: bool, sending: bool, underApplication: bool, dropped: bool) {

    /** The entry is in at most one place: queued once, in the loop, under application, or dropped. */
    predicate OnePlace() {
      && queued <= 1
      && (queued == 1 ==> !held && !sending && !underApplication && !dropped)
      && (held || sending ==> !(held && sending) && !underApplication && !dropped)
      && (underApplication ==> !dropped)
    }

    /** The entry has ended exactly when it is nowhere. */
    predicate EndedOrSomewhere() {
      entry.outcome.None? <==> queued > 0 || held || sending || underApplication || dropped
    }

    /** The entry counts its applications, is not sent out again once it has counted too many, and ends
        with an outcome that fits the count. */
    predicate Bounded() {
      && entry.applied == entry.times <= MAX_RESCHEDULE_TIMES + 1
      && (sending ==> entry.times <= MAX_RESCHEDULE_TIMES)
      && (underApplication ==> entry.times >= 1)
      && (entry.outcome.Some? ==> Fits(entry.outcome.value, entry.applied))
    }

    predicate Good() {
      OnePlace() && EndedOrSomewhere() && Bounded()
    }

    /** How many steps the entry can still take. */
    function Rank(): int {
      var turns := MAX_RESCHEDULE_TIMES + 1 - entry.times;
      if entry.outcome.Some? || dropped then 0
      else if underApplication then 4 * turns + 4
      else if queued > 0 then 4 * turns + 3
      else if held then 4 * turns + 2
      else 4 * turns + 1
    }
  }

  /** What the outcome of an entry says about how often it was applied. */
  predicate Fits(outcome: Outcome, applied: nat) {
    match outcome
    case GaveUp(_) => applied == MAX_RESCHEDULE_TIMES + 1
    case NoLongerNeeded => applied <= MAX_RESCHEDULE_TIMES
    case ShutDown => applied <= MAX_RESCHEDULE_TIMES
    case _ => 1 <= applied <= MAX_RESCHEDULE_TIMES + 1
  }

  ghost function At(s: System, e: EntryId): Spot
    requires e in s.entries
  {
    Spot(s.entries[e], s.queue[e], s.loop == Holding(e), s.loop == Sending(e), UnderApplication(s, e), e in s.dropped)
  }

  ghost predicate OneWorkerEach(s: System) {
    forall w, w' | w in s.applying && w' in s.applying && s.applying[w] == s.applying[w'] :: w == w'
  }

  /** Only entries that exist are in circulation; they are dropped only by a loop that has stopped. */
  ghost predicate Known(s: System) {
    && (forall e | e in s.queue :: e in s.entries)
    && (s.loop.Holding? || s.loop.Sending? ==> s.loop.entry in s.entries)
    && (forall w | w in s.applying :: s.applying[w] in s.entries)
    && (forall e | e in s.dropped :: e in s.entries)
    && (s.dropped != {} ==> s.loop.Stopped?)
    && (s.loop.Stopped? ==> s.done)
  }

  ghost predicate Inv(s: System) {
    && Known(s) && OneWorkerEach(s)
    && forall e | e in s.entries :: At(s, e).Good()
  }

  /** The step moves the entry. */
  ghost predicate Concerns(s: System, step: Step, e: EntryId)
    requires Enabled(s, step)
  {
    match step
    case Take(x) => x == e
    case Turn(_) => s.loop.entry == e
    case Deliver(_) => s.loop.entry == e
    case SendRefused => s.loop.entry == e
    case EndApply(w, _) => s.applying[w] == e
    case _ => false
  }

  /** Where a step that concerns the entry finds it. */
  predicate Finds(a: Spot, step: Step) {
    match step
    case Take(_) => a.queued > 0
    case Turn(_) => a.held
    case Deliver(_) => a.sending
    case SendRefused => a.sending
    case EndApply(_, _) => a.underApplication
    case _ => false
  }

  /** Where such a step leaves it; `stopped` says whether the queue has been shut down. */
  function Moved(a: Spot, step: Step, stopped: bool): Spot
    requires Finds(a, step)
  {
    match step
    case Take(_) => a.(queued := a.queued - 1, held := true)
    case Turn(view) =>
      (match Decide(a.entry.times, view)
       case Finished(outcome) => a.(held := false, entry := End(a.entry, outcome))
       case HandOver => a.(held := false, sending := true))
    case Deliver(_) =>
      a.(sending := false, underApplication := true, entry := a.entry.(times := a.entry.times + 1, applied := a.entry.applied + 1))
    case SendRefused => a.(sending := false, entry := End(a.entry, ShutDown))
    case EndApply(_, view) =>
      match Judge(a.entry.blankParents, view)
      case Over(outcome) => a.(underApplication := false, entry := End(a.entry, outcome))
      case Requeue =>
        if stopped then a.(underApplication := false, dropped := true)
        else a.(underApplication := false, queued := a.queued + 1)
  }

  /** An entry that is moved from a good spot is in a good spot again, and has fewer steps left. */
  lemma MovedIsGood(a: Spot, step: Step, stopped: bool)
    requires a.Good() && Finds(a, step)
    ensures Moved(a, step, stopped).Good() && 0 <= Moved(a, step, stopped).Rank() < a.Rank()
  {
  }

  lemma OthersKeepApplications(s: System, step: Step)
    requires Enabled(s, step) && !step.Deliver? && !step.EndApply?
    ensures Next(s, step).applying == s.applying
  {
  }

  lemma DeliveryAddsApplication(s: System, w: WorkerId, e: EntryId)
    requires Enabled(s, Deliver(w))
    ensures UnderApplication(Next(s, Deliver(w)), e) <==> s.loop.entry == e || UnderApplication(s, e)
  {
    var q := Next(s, Deliver(w));
    assert q.applying[w] == s.loop.entry;
    if v :| v in s.applying && s.applying[v] == e {
      assert q.applying[v] == e;
    }
  }

  lemma EndRemovesApplication(s: System, w: WorkerId, view: EventView, e: EntryId)
    requires OneWorkerEach(s) && Enabled(s, EndApply(w, view))
    ensures UnderApplication(Next(s, EndApply(w, view)), e) <==> UnderApplication(s, e) && s.applying[w] != e
  {
    var q := Next(s, EndApply(w, view));
    assert q.applying == s.applying - {w};
    if v :| v in s.applying && s.applying[v] == e && s.applying[w] != e {
      assert q.applying[v] == e;
    }
  }

  lemma ApplicationsMove(s: System, step: Step, e: EntryId)
    requires OneWorkerEach(s) && Enabled(s, step)
    ensures UnderApplication(Next(s, step), e) <==>
              || (step.Deliver? && s.loop.entry == e)
              || (UnderApplication(s, e) && !(step.EndApply? && s.applying[step.w] == e))
  {
    match step
    case Deliver(w) => DeliveryAddsApplication(s, w, e);
    case EndApply(w, view) => EndRemovesApplication(s, w, view, e);
    case _ => OthersKeepApplications(s, step);
  }

  lemma OthersStayQueued(s: System, step: Step, e: EntryId)
    requires Enabled(s, step) && e in s.entries && !Concerns(s, step, e)
    ensures Next(s, step).queue[e] == s.queue[e] && (e in Next(s, step).dropped <==> e in s.dropped)
  {
    match step
    case NewEntry(x, _) => assert x != e;
    case _ =>
  }

  lemma OthersStay(s: System, step: Step, e: EntryId)
    requires OneWorkerEach(s) && Enabled(s, step) && e in s.entries && !Concerns(s, step, e)
    ensures e in Next(s, step).entries && At(Next(s, step), e) == At(s, e)
  {
    ApplicationsMove(s, step, e);
    OthersStayQueued(s, step, e);
    assert Next(s, step).entries[e] == s.entries[e];
  }

  lemma LoopStepMoves(s: System, step: Step, e: EntryId)
    requires OneWorkerEach(s) && Enabled(s, step) && e in s.entries && Concerns(s, step, e) && !step.EndApply?
    ensures Finds(At(s, e), step) && At(Next(s, step), e) == Moved(At(s, e), step, s.loop.Stopped?)
  {
    ApplicationsMove(s, step, e);
    assert step.Take? ==> Next(s, step).queue[e] == s.queue[e] - 1;
  }

  lemma EndApplyMoves(s: System, step: Step, e: EntryId)
    requires OneWorkerEach(s) && Enabled(s, step) && e in s.entries && Concerns(s, step, e) && step.EndApply?
    ensures Finds(At(s, e), step) && At(Next(s, step), e) == Moved(At(s, e), step, s.loop.Stopped?)
  {
    ApplicationsMove(s, step, e);
    assert UnderApplication(s, e);
  }

  lemma OwnStepMoves(s: System, step: Step, e: EntryId)
    requires OneWorkerEach(s) && Enabled(s, step) && e in s.entries && Concerns(s, step, e)
    ensures e in Next(s, step).entries && Finds(At(s, e), step)
    ensures At(Next(s, step), e) == Moved(At(s, e), step, s.loop.Stopped?)
  {
    if step.EndApply? {
      EndApplyMoves(s, step, e);
    } else {
      LoopStepMoves(s, step, e);
    }
  }

  lemma AddKeepsKnown(s: System, e: EntryId)
    requires Known(s) && e in s.entries
    ensures Known(Add(s, e))
  {
  }

  lemma NewEntryKeepsKnown(s: System, e: EntryId, blank: set<string>)
    requires Known(s) && Enabled(s, NewEntry(e, blank))
    ensures Known(Next(s, NewEntry(e, blank)))
  {
    AddKeepsKnown(s.(entries := s.entries[e := Entry(0, 0, blank, None)]), e);
  }

  lemma EndApplyKeepsKnown(s: System, w: WorkerId, view: EventView)
    requires Known(s) && Enabled(s, EndApply(w, view))
    ensures Known(Next(s, EndApply(w, view)))
  {
    AddKeepsKnown(s.(applying := s.applying - {w}), s.applying[w]);
  }

  lemma TakeKeepsKnown(s: System, e: EntryId)
    requires Known(s) && Enabled(s, Take(e))
    ensures Known(Next(s, Take(e)))
  {
  }

  lemma LoopKeepsKnown(s: System, step: Step)
    requires Known(s) && Enabled(s, step) && !step.NewEntry? && !step.EndApply? && !step.Take?
    ensures Known(Next(s, step))
  {
    assert Next(s, step).queue == s.queue && Next(s, step).dropped == s.dropped;
    assert Next(s, step).entries.Keys == s.entries.Keys;
  }

  lemma StepKeepsKnown(s: System, step: Step)
    requires Known(s) && Enabled(s, step)
    ensures Known(Next(s, step))
  {
    match step
    case NewEntry(e, blank) => NewEntryKeepsKnown(s, e, blank);
    case EndApply(w, view) => EndApplyKeepsKnown(s, w, view);
    case Take(e) => TakeKeepsKnown(s, e);
    case _ => LoopKeepsKnown(s, step);
  }

  lemma StepKeepsWorkers(s: System, step: Step)
    requires Inv(s) && Enabled(s, step)
    ensures OneWorkerEach(Next(s, step))
  {
    if step.Deliver? {
      assert At(s, s.loop.entry).Good();
      assert forall w | w in s.applying :: s.applying[w] != s.loop.entry;
    }
  }

  lemma NewIsGood(s: System, step: Step)
    requires Known(s) && OneWorkerEach(s) && Enabled(s, step) && step.NewEntry?
    ensures step.entry in Next(s, step).entries && At(Next(s, step), step.entry).Good()
    ensures At(Next(s, step), step.entry).Rank() <= 4 * (MAX_RESCHEDULE_TIMES + 1) + 3
  {
    ApplicationsMove(s, step, step.entry);
    assert !UnderApplication(s, step.entry);
  }

  lemma StepKeepsInv(s: System, step: Step)
    requires Inv(s) && Enabled(s, step)
    ensures Inv(Next(s, step))
  {
    StepKeepsKnown(s, step);
    StepKeepsWorkers(s, step);
    forall e | e in Next(s, step).entries ensures At(Next(s, step), e).Good() {
      if e !in s.entries {
        NewIsGood(s, step);
      } else if Concerns(s, step, e) {
        OwnStepMoves(s, step, e);
        MovedIsGood(At(s, e), step, s.loop.Stopped?);
      } else {
        OthersStay(s, step, e);
      }
    }
  }

  lemma {:induction false} RunKeepsInv(states: seq<System>, steps: seq<Step>, i: nat)
    requires IsRun(states, steps) && i < |states|
    ensures Inv(states[i])
  {
    if i > 0 {
      RunKeepsInv(states, steps, i - 1);
      StepKeepsInv(states[i - 1], steps[i - 1]);
    }
  }

  /** Whatever scheduling answers, an entry is applied at most maxRescheduleTimes + 1 times, and its
      outcome tells how often: the loop gives up only on entries applied that often, and finds them no
      longer needed, or the workers stopped, only before. */
  lemma AppliedBoundedly(states: seq<System>, steps: seq<Step>, i: nat, e: EntryId)
    requires IsRun(states, steps) && i < |states| && e in states[i].entries
    ensures var entry := states[i].entries[e];
            && entry.applied <= 9
            && (entry.outcome.Some? ==> Fits(entry.outcome.value, entry.applied))
  {
    RunKeepsInv(states, steps, i);
    assert At(states[i], e).Good();
  }

  /** An entry is never queued twice, nor queued while it is in the loop or under application. */
  lemma NeverInTwoPlaces(states: seq<System>, steps: seq<Step>, i: nat, e: EntryId)
    requires IsRun(states, steps) && i < |states| && e in states[i].queue
    ensures states[i].queue[e] == 1 && !states[i].loop.Has(e) && !UnderApplication(states[i], e)
  {
    RunKeepsInv(states, steps, i);
    assert At(states[i], e).Good();
  }

  // ---------------------------------------------------------------------------------------------
  // What decides about an entry
  // ---------------------------------------------------------------------------------------------

  /** The loop hands an entry to a worker exactly when it was applied at most eight times and its peer
      is no back-to-source peer, not done and has not left; otherwise it ends it. */
  lemma HandedOverExactly(s: System, v: LoopView)
    requires Enabled(s, Turn(v))
    ensures var e, q := s.loop.entry, Next(s, Turn(v));
            && (q.loop == Sending(e) <==> s.entries[e].times <= 8 && !v.isBackToSource && !v.done && !v.left)
            && (q.loop != Sending(e) ==>
                  && q.loop == Top
                  && q.entries[e].outcome == Some(if s.entries[e].times > 8 then GaveUp(v.connected) else NoLongerNeeded))
  {
  }

  /** The peer has a parent that is not one of those the entry wants to get away from. */
  predicate HasOtherParent(blankParents: set<string>, v: EventView) {
    v.parent.Some? && v.parent.value !in blankParents
  }

  /** An application puts its entry back exactly when the task has not failed, the peer has no other
      parent, none was found and the peer may not, or need not, go back to source; otherwise the entry
      ends with the outcome of the first of these that holds. */
  lemma PutBackExactly(s: System, w: WorkerId, v: EventView)
    requires Enabled(s, EndApply(w, v)) && s.entries[s.applying[w]].outcome.None?
    ensures var e, q := s.applying[w], Next(s, EndApply(w, v));
            var blank := s.entries[e].blankParents;
            && (q.entries[e].outcome.None? <==>
                  !v.taskFailed && !HasOtherParent(blank, v) && !v.hasParent && (v.canBackToSource ==> v.isBackToSource))
            && (q.entries[e].outcome.None? ==>
                  if s.loop.Stopped? then q.queue == s.queue && e in q.dropped else q.queue == s.queue + multiset{e})
            && (v.taskFailed ==> q.entries[e].outcome == Some(Closed))
            && (!v.taskFailed && HasOtherParent(blank, v) ==> q.entries[e].outcome == Some(AlreadyParented))
            && (!v.taskFailed && !HasOtherParent(blank, v) && !v.hasParent && v.canBackToSource && !v.isBackToSource ==>
                  q.entries[e].outcome == Some(BackToSource(v.connected)))
            && (!v.taskFailed && !HasOtherParent(blank, v) && v.hasParent ==> q.entries[e].outcome == Some(SendAttempted))
  {
  }

  /** The step saw what this outcome of the entry says. */
  predicate Explains(entry: Entry, step: Step, outcome: Outcome) {
    match outcome
    case GaveUp(told) => step.Turn? && entry.times > 8 && told == step.seen.connected
    case NoLongerNeeded => step.Turn? && entry.times <= 8 && (step.seen.isBackToSource || step.seen.done || step.seen.left)
    case ShutDown => step.SendRefused?
    case Closed => step.EndApply? && step.view.taskFailed
    case AlreadyParented => step.EndApply? && !step.view.taskFailed && HasOtherParent(entry.blankParents, step.view)
    case BackToSource(told) =>
      && step.EndApply? && !step.view.taskFailed && !HasOtherParent(entry.blankParents, step.view)
      && !step.view.hasParent && step.view.canBackToSource && !step.view.isBackToSource && told == step.view.connected
    case SendAttempted =>
      step.EndApply? && !step.view.taskFailed && !HasOtherParent(entry.blankParents, step.view) && step.view.hasParent
  }

  /** The step ended the entry with this outcome, for the reason the outcome gives. */
  ghost predicate IsReason(s: System, step: Step, e: EntryId, outcome: Outcome) {
    Enabled(s, step) && e in s.entries && Concerns(s, step, e) && Explains(s.entries[e], step, outcome)
  }

  lemma MovedIsExplained(a: Spot, step: Step, stopped: bool)
    requires a.Good() && Finds(a, step) && Moved(a, step, stopped).entry.outcome.Some?
    ensures Explains(a.entry, step, Moved(a, step, stopped).entry.outcome.value)
  {
  }

  lemma StepEndsForAReason(s: System, step: Step, e: EntryId)
    requires Inv(s) && Enabled(s, step) && e in s.entries && Next(s, step).entries[e].outcome.Some?
    ensures || s.entries[e].outcome == Next(s, step).entries[e].outcome
            || IsReason(s, step, e, Next(s, step).entries[e].outcome.value)
  {
    if Concerns(s, step, e) {
      OwnStepMoves(s, step, e);
      MovedIsExplained(At(s, e), step, s.loop.Stopped?);
    } else {
      OthersStay(s, step, e);
    }
  }

  /** In every run an entry that has ended was ended by a step that saw what its outcome says. */
  lemma {:induction false} EndsForAReason(states: seq<System>, steps: seq<Step>, i: nat, e: EntryId)
    requires IsRun(states, steps) && i < |states| && e in states[i].entries && states[i].entries[e].outcome.Some?
    ensures exists k: nat :: k < i && k < |steps| && IsReason(states[k], steps[k], e, states[i].entries[e].outcome.value)
  {
    if i > 0 {
      RunKeepsInv(states, steps, i - 1);
      assert Enabled(states[i - 1], steps[i - 1]) && states[i] == Next(states[i - 1], steps[i - 1]);
      StepEndsForAReason(states[i - 1], steps[i - 1], e);
      if !IsReason(states[i - 1], steps[i - 1], e, states[i].entries[e].outcome.value) {
        EndsForAReason(states, steps, i - 1, e);
      }
    }
  }

  // ---------------------------------------------------------------------------------------------
  // Every entry ends, unless the loop stops first
  // ---------------------------------------------------------------------------------------------

  /** How many steps of a run, from the a-th on, concern the entry. */
  ghost function StepsFrom(states: seq<System>, steps: seq<Step>, e: EntryId, a: nat): nat
    requires IsRun(states, steps) && a <= |steps|
    decreases |steps| - a
  {
    if a == |steps| then 0
    else (if Concerns(states[a], steps[a], e) then 1 else 0) + StepsFrom(states, steps, e, a + 1)
  }

  lemma RunStepUsesUpRank(states: seq<System>, steps: seq<Step>, e: EntryId, i: nat)
    requires IsRun(states, steps) && i < |steps| && e in states[i].entries
    ensures e in states[i + 1].entries
    ensures At(states[i + 1], e).Rank() + (if Concerns(states[i], steps[i], e) then 1 else 0) <= At(states[i], e).Rank()
  {
    RunKeepsInv(states, steps, i);
    if Concerns(states[i], steps[i], e) {
      OwnStepMoves(states[i], steps[i], e);
      MovedIsGood(At(states[i], e), steps[i], states[i].loop.Stopped?);
    } else {
      OthersStay(states[i], steps[i], e);
    }
  }

  lemma {:induction false} StepsFromBoundedByRank(states: seq<System>, steps: seq<Step>, e: EntryId, a: nat)
    requires IsRun(states, steps) && a <= |steps| && e in states[a].entries
    ensures StepsFrom(states, steps, e, a) <= At(states[a], e).Rank()
    decreases |steps| - a
  {
    if a == |steps| {
      RunKeepsInv(states, steps, a);
      assert At(states[a], e).Good();
    } else {
      RunStepUsesUpRank(states, steps, e, a);
      StepsFromBoundedByRank(states, steps, e, a + 1);
    }
  }

  /** An entry takes at most 39 steps in any run, so it does not circulate for ever. */
  lemma CirculationEnds(states: seq<System>, steps: seq<Step>, e: EntryId, n: nat)
    requires IsRun(states, steps) && n < |steps| && steps[n].NewEntry? && steps[n].entry == e
    ensures StepsFrom(states, steps, e, n + 1) <= 39
  {
    RunKeepsInv(states, steps, n);
    NewIsGood(states[n], steps[n]);
    StepsFromBoundedByRank(states, steps, e, n + 1);
  }

  /** Nothing in the loop or the workers can move, whatever is seen of the peers. */
  ghost predicate Quiet(s: System, lv: LoopView, ev: EventView) {
    && !Enabled(s, Look) && !Enabled(s, Turn(lv))
    && (forall x :: !Enabled(s, Take(x)))
    && (forall w :: !Enabled(s, Deliver(w)) && !Enabled(s, EndApply(w, ev)))
  }

  /** When nothing moves any more, the entries without an outcome are exactly those that a stopped loop
      has left in the queue or that were added after it had shut the queue down. */
  lemma LeftBehindExactlyByStop(states: seq<System>, steps: seq<Step>, i: nat, e: EntryId, lv: LoopView, ev: EventView)
    requires IsRun(states, steps) && i < |states| && e in states[i].entries && Quiet(states[i], lv, ev)
    ensures states[i].entries[e].outcome.None? <==> states[i].loop.Stopped? && (e in states[i].queue || e in states[i].dropped)
  {
    RunKeepsInv(states, steps, i);
    var s := states[i];
    assert At(s, e).Good();
    forall w ensures w !in s.applying {
      assert !Enabled(s, EndApply(w, ev));
    }
    assert !Enabled(s, Deliver(0)) && !Enabled(s, Take(e));
  }

  /** Without Stop every entry ends: when nothing moves any more, each has an outcome. */
  lemma QuietMeansEnded(states: seq<System>, steps: seq<Step>, i: nat, e: EntryId, lv: LoopView, ev: EventView)
    requires IsRun(states, steps) && i < |states| && e in states[i].entries && Quiet(states[i], lv, ev)
    requires forall k | 0 <= k < i :: !steps[k].Stop?
    ensures states[i].entries[e].outcome.Some?
  {
    NotStopped(states, steps, i);
    RunKeepsInv(states, steps, i);
    LeftBehindExactlyByStop(states, steps, i, e, lv, ev);
  }

  lemma {:induction false} NotStopped(states: seq<System>, steps: seq<Step>, i: nat)
    requires IsRun(states, steps) && i < |states| && forall k | 0 <= k < i :: !steps[k].Stop?
    ensures !states[i].done
  {
    if i > 0 {
      NotStopped(states, steps, i - 1);
      assert Enabled(states[i - 1], steps[i - 1]) && !steps[i - 1].Stop?;
    }
  }

  /** After Stop the loop is in Get only if it was there already and has taken nothing since. */
  lemma {:induction false} WaitingSinceStop(states: seq<System>, steps: seq<Step>, i: nat, j: nat)
    requires IsRun(states, steps) && i < j < |states| && steps[i].Stop?
    ensures states[j].done
    ensures states[j].loop.Getting? ==> states[i].loop.Getting? && forall k | i < k < j :: !steps[k].Take?
    decreases j
  {
    assert Enabled(states[j - 1], steps[j - 1]) && states[j] == Next(states[j - 1], steps[j - 1]);
    if i < j - 1 {
      WaitingSinceStop(states, steps, i, j - 1);
    }
  }

  /** Stop is seen only before the next Get: a loop that is waiting in Get takes one more entry if one
      comes, a loop elsewhere takes none. */
  lemma StopTakesAtMostOneMore(states: seq<System>, steps: seq<Step>, i: nat, j: nat)
    requires IsRun(states, steps) && i < j < |steps| && steps[i].Stop? && steps[j].Take?
    ensures states[i].loop.Getting? && forall k | i < k < |steps| && k != j :: !steps[k].Take?
  {
    forall k | i < k < |steps| && steps[k].Take? ensures states[i].loop.Getting? && forall m | i < m < k :: !steps[m].Take? {
      assert Enabled(states[k], steps[k]);
      WaitingSinceStop(states, steps, i, k);
    }
  }

  /** It does happen: an entry comes, Stop is called, and the loop returns without it. */
  lemma StopLeavesEntry(lv: LoopView, ev: EventView) returns (states: seq<System>, steps: seq<Step>)
    ensures IsRun(states, steps) && Quiet(states[|steps|], lv, ev)
    ensures 0 in states[|steps|].entries && states[|steps|].entries[0].outcome.None?
  {
    var s0 := System(map[], multiset{}, Top, map[], false, {});
    var s1 := s0.(entries := map[0 := Entry(0, 0, {}, None)], queue := multiset{0});
    var s2 := s1.(done := true);
    var s3 := s2.(loop := Stopped);
    states := [s0, s1, s2, s3];
    steps := [NewEntry(0, {}), Stop, Look];
    assert s1 == Next(s0, steps[0]) && s2 == Next(s1, steps[1]) && s3 == Next(s2, steps[2]);
  }

  lemma Extend(states: seq<System>, steps: seq<Step>, step: Step) returns (longer: seq<System>, more: seq<Step>)
    requires IsRun(states, steps) && Enabled(states[|steps|], step)
    ensures IsRun(longer, more) && longer[|more|] == Next(states[|steps|], step)
  {
    longer, more := states + [Next(states[|steps|], step)], steps + [step];
  }

  lemma ComesToLoop() returns (states: seq<System>, steps: seq<Step>)
    ensures IsRun(states, steps)
    ensures states[|steps|] == System(map[0 := Entry(0, 0, {}, None)], multiset{}, Holding(0), map[], false, {})
  {
    states, steps := [System(map[], multiset{}, Top, map[], false, {})], [];
    states, steps := Extend(states, steps, NewEntry(0, {}));
    states, steps := Extend(states, steps, Look);
    states, steps := Extend(states, steps, Take(0));
  }

  /** An entry that is on its way to a worker when the workers stop ends as shut down. */
  lemma StopCanRefuse() returns (states: seq<System>, steps: seq<Step>)
    ensures IsRun(states, steps)
    ensures 0 in states[|steps|].entries && states[|steps|].entries[0].outcome == Some(ShutDown)
  {
    states, steps := ComesToLoop();
    states, steps := Extend(states, steps, Turn(LoopView(true, false, false, false)));
    states, steps := Extend(states, steps, Stop);
    states, steps := Extend(states, steps, SendRefused);
  }
}
