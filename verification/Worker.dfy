/**
  The event loops of scheduler/core/worker.go.

  A group of workers takes events over unbuffered channels; an event goes to the worker that the hash
  of its task selects. A send succeeds at the moment the worker receives the event, and fails once
  the worker's `done` channel is closed; when both are possible, select takes either.
 */
module Worker {

  type TaskId = string
  datatype Event = Event(task: TaskId, id: nat)

  /** What a worker goroutine is doing. */
  datatype Phase = Selecting | Applying(e: Event) | Exited

  datatype Loop = Loop(phase: Phase, done: bool)

  /** `accepted` are the events whose send returned true and `applied` the events whose apply has
      returned, in order. */
  datatype Group = Group(loops: seq<Loop>, accepted: seq<Event>, applied: seq<Event>)

  type Hash = TaskId -> nat

  /** workerGroup.send picks the worker by the event's hash key, the id of its task. */
  function Route(hash: Hash, workers: nat, e: Event): nat
    requires workers > 0
  {
    hash(e.task) % workers
  }

  datatype Step =
    | Accept(e: Event)    // rendezvous of send and receive: send returns true
    | Refuse(e: Event)    // send sees the closed done channel: it returns false
    | Finish(w: nat)      // apply returns
    | Stop(w: nat)        // close(done)
    | Exit(w: nat)        // the loop sees the closed done channel

  ghost predicate Enabled(hash: Hash, g: Group, step: Step) {
    match step
    case Accept(e) => |g.loops| > 0 && g.loops[Route(hash, |g.loops|, e)].phase.Selecting?
    case Refuse(e) => |g.loops| > 0 && g.loops[Route(hash, |g.loops|, e)].done
    case Finish(w) => w < |g.loops| && g.loops[w].phase.Applying?
    case Stop(w) => w < |g.loops| && !g.loops[w].done
    case Exit(w) => w < |g.loops| && g.loops[w].phase.Selecting? && g.loops[w].done
  }

  ghost function Next(hash: Hash, g: Group, step: Step): Group
    requires Enabled(hash, g, step)
  {
    match step
    case Accept(e) =>
      var w := Route(hash, |g.loops|, e);
      g.(loops := g.loops[w := g.loops[w].(phase := Applying(e))], accepted := g.accepted + [e])
    case Refuse(e) => g
    case Finish(w) =>
      g.(loops := g.loops[w := g.loops[w].(phase := Selecting)], applied := g.applied + [g.loops[w].phase.e])
    case Stop(w) => g.(loops := g.loops[w := g.loops[w].(done := true)])
    case Exit(w) => g.(loops := g.loops[w := g.loops[w].(phase := Exited)])
  }

  /** A run after start: all workers are up and nothing has been sent. */
  ghost predicate IsRun(hash: Hash, workers: nat, states: seq<Group>, steps: seq<Step>) {
    && |states| == |steps| + 1
    && states[0] == Group(seq(workers, _ => Loop(Selecting, false)), [], [])
    && forall i | 0 <= i < |steps| :: Enabled(hash, states[i], steps[i]) && states[i + 1] == Next(hash, states[i], steps[i])
  }

  /** The events of one task, in order. */
  ghost function Of(events: seq<Event>, task: TaskId): seq<Event> {
    if events == [] then []
    else Of(events[..|events| - 1], task) + if events[|events| - 1].task == task then [events[|events| - 1]] else []
  }

  lemma OfAppend(events: seq<Event>, e: Event, task: TaskId)
    ensures Of(events + [e], task) == Of(events, task) + if e.task == task then [e] else []
  {
    assert (events + [e])[..|events + [e]| - 1] == events;
  }

  /** The event of the task that its worker is applying, if any. */
  ghost function InProgress(hash: Hash, g: Group, task: TaskId): seq<Event> {
    if |g.loops| == 0 then []
    else
      var p := g.loops[hash(task) % |g.loops|].phase;
      if p.Applying? && p.e.task == task then [p.e] else []
  }

  /** The worker that the events of the task go to is applying one, of this or of another task. */
  ghost predicate IsBusy(hash: Hash, g: Group, task: TaskId) {
    |g.loops| > 0 && g.loops[hash(task) % |g.loops|].phase.Applying?
  }

  /** The loop of the worker that the events of the task go to has returned. */
  ghost predicate HasExited(hash: Hash, g: Group, task: TaskId) {
    |g.loops| > 0 && g.loops[hash(task) % |g.loops|].phase.Exited?
  }

  ghost predicate Routed(hash: Hash, g: Group) {
    forall w | 0 <= w < |g.loops| && g.loops[w].phase.Applying? :: Route(hash, |g.loops|, g.loops[w].phase.e) == w
  }

  /** Per task, the applied events and the one in progress are the accepted events. */
  ghost predicate Ordered(hash: Hash, g: Group) {
    forall task: TaskId :: Of(g.accepted, task) == Of(g.applied, task) + InProgress(hash, g, task)
  }

  lemma AcceptKeepsOrder(hash: Hash, g: Group, e: Event)
    requires Routed(hash, g) && Ordered(hash, g) && Enabled(hash, g, Accept(e))
    ensures Ordered(hash, Next(hash, g, Accept(e)))
  {
    var q := Next(hash, g, Accept(e));
    forall task: TaskId ensures Of(q.accepted, task) == Of(q.applied, task) + InProgress(hash, q, task) {
      OfAppend(g.accepted, e, task);
      assert Of(g.accepted, task) == Of(g.applied, task) + InProgress(hash, g, task);
      if e.task == task {
        assert InProgress(hash, g, task) == [] && InProgress(hash, q, task) == [e];
      } else {
        assert InProgress(hash, q, task) == InProgress(hash, g, task);
      }
    }
  }

  lemma FinishKeepsOrder(hash: Hash, g: Group, w: nat)
    requires Routed(hash, g) && Ordered(hash, g) && Enabled(hash, g, Finish(w))
    ensures Ordered(hash, Next(hash, g, Finish(w)))
  {
    var q := Next(hash, g, Finish(w));
    var e := g.loops[w].phase.e;
    forall task: TaskId ensures Of(q.accepted, task) == Of(q.applied, task) + InProgress(hash, q, task) {
      OfAppend(g.applied, e, task);
      assert Of(g.accepted, task) == Of(g.applied, task) + InProgress(hash, g, task);
      if e.task == task {
        assert InProgress(hash, g, task) == [e] && InProgress(hash, q, task) == [];
      } else {
        assert InProgress(hash, q, task) == InProgress(hash, g, task);
      }
    }
  }

  lemma OtherKeepsOrder(hash: Hash, g: Group, step: Step)
    requires Ordered(hash, g) && Enabled(hash, g, step) && !step.Accept? && !step.Finish?
    ensures Ordered(hash, Next(hash, g, step))
  {
    var q := Next(hash, g, step);
    forall task: TaskId ensures Of(q.accepted, task) == Of(q.applied, task) + InProgress(hash, q, task) {
      assert Of(g.accepted, task) == Of(g.applied, task) + InProgress(hash, g, task);
      assert InProgress(hash, q, task) == InProgress(hash, g, task);
    }
  }

  lemma StepKeepsInv(hash: Hash, g: Group, step: Step)
    requires Routed(hash, g) && Ordered(hash, g) && Enabled(hash, g, step)
    ensures Routed(hash, Next(hash, g, step)) && Ordered(hash, Next(hash, g, step))
  {
    match step
    case Accept(e) => AcceptKeepsOrder(hash, g, e);
    case Finish(w) => FinishKeepsOrder(hash, g, w);
    case _ => OtherKeepsOrder(hash, g, step);
  }

  lemma {:induction false} RunKeepsInv(hash: Hash, workers: nat, states: seq<Group>, steps: seq<Step>, i: nat)
    requires IsRun(hash, workers, states, steps) && i < |states|
    ensures Routed(hash, states[i]) && Ordered(hash, states[i])
  {
    if i > 0 {
      RunKeepsInv(hash, workers, states, steps, i - 1);
      StepKeepsInv(hash, states[i - 1], steps[i - 1]);
    }
  }

  /** In every run, around stop too: the events of a task have been applied in the order in which they
      were accepted, each once, except for at most the last one, which is then being applied. */
  lemma AcceptedAreAppliedInOrder(hash: Hash, workers: nat, states: seq<Group>, steps: seq<Step>, i: nat, task: TaskId)
    requires IsRun(hash, workers, states, steps) && i < |states|
    ensures var g := states[i];
            && |InProgress(hash, g, task)| <= 1
            && Of(g.accepted, task) == Of(g.applied, task) + InProgress(hash, g, task)
  {
    RunKeepsInv(hash, workers, states, steps, i);
  }

  /** No two events of the same task are ever in progress together. */
  lemma OneAtATime(hash: Hash, workers: nat, states: seq<Group>, steps: seq<Step>, i: nat, w: nat, w': nat)
    requires IsRun(hash, workers, states, steps) && i < |states| && w < |states[i].loops| && w' < |states[i].loops|
    requires states[i].loops[w].phase.Applying? && states[i].loops[w'].phase.Applying?
    requires states[i].loops[w].phase.e.task == states[i].loops[w'].phase.e.task
    ensures w == w'
  {
    RunKeepsInv(hash, workers, states, steps, i);
  }

  /** Whenever the worker of a task is not applying an event, be it before stop, after stop or after
      its loop has returned, everything accepted for the task has been applied. */
  lemma NothingAcceptedIsLost(hash: Hash, workers: nat, states: seq<Group>, steps: seq<Step>, i: nat, task: TaskId)
    requires IsRun(hash, workers, states, steps) && i < |states| && !IsBusy(hash, states[i], task)
    ensures Of(states[i].applied, task) == Of(states[i].accepted, task)
  {
    RunKeepsInv(hash, workers, states, steps, i);
    assert InProgress(hash, states[i], task) == [];
  }

  lemma ExitedAcceptsNothing(hash: Hash, g: Group, step: Step, task: TaskId)
    requires HasExited(hash, g, task) && Enabled(hash, g, step)
    ensures HasExited(hash, Next(hash, g, step), task)
    ensures Of(Next(hash, g, step).accepted, task) == Of(g.accepted, task)
  {
    if step.Accept? {
      OfAppend(g.accepted, step.e, task);
    }
  }

  /** After the loop of a task's worker has returned, what was accepted for the task is final, and all
      of it has been applied. */
  lemma {:induction false} ExitIsFinal(hash: Hash, workers: nat, states: seq<Group>, steps: seq<Step>, i: nat, j: nat, task: TaskId)
    requires IsRun(hash, workers, states, steps) && i <= j < |states| && HasExited(hash, states[i], task)
    ensures HasExited(hash, states[j], task)
    ensures Of(states[j].applied, task) == Of(states[j].accepted, task) == Of(states[i].accepted, task)
    decreases j
  {
    if i < j {
      ExitIsFinal(hash, workers, states, steps, i, j - 1, task);
      ExitedAcceptsNothing(hash, states[j - 1], steps[j - 1], task);
    }
    NothingAcceptedIsLost(hash, workers, states, steps, j, task);
  }

  /** A worker stops, and its loop returns, only after its done channel has been closed. */
  lemma {:induction false} EndsOnlyAfterStop(hash: Hash, workers: nat, states: seq<Group>, steps: seq<Step>, i: nat, w: nat)
    requires IsRun(hash, workers, states, steps) && i < |states| && w < |states[i].loops|
    requires states[i].loops[w].done || states[i].loops[w].phase.Exited?
    ensures |states[i].loops| == workers && states[i].loops[w].done && exists k: nat :: k < i && steps[k] == Stop(w)
  {
    if i > 0 {
      var g, step := states[i - 1], steps[i - 1];
      assert Enabled(hash, g, step) && states[i] == Next(hash, g, step);
      if step != Stop(w) {
        EndsOnlyAfterStop(hash, workers, states, steps, i - 1, w);
      } else {
        LoopsStay(hash, workers, states, steps, i);
      }
    }
  }

  lemma {:induction false} LoopsStay(hash: Hash, workers: nat, states: seq<Group>, steps: seq<Step>, i: nat)
    requires IsRun(hash, workers, states, steps) && i < |states|
    ensures |states[i].loops| == workers
  {
    if i > 0 {
      LoopsStay(hash, workers, states, steps, i - 1);
      assert Enabled(hash, states[i - 1], steps[i - 1]) && states[i] == Next(hash, states[i - 1], steps[i - 1]);
    }
  }

  /** An event is refused only after the worker of its task has been stopped. */
  lemma RefusedOnlyAfterStop(hash: Hash, workers: nat, states: seq<Group>, steps: seq<Step>, i: nat)
    requires IsRun(hash, workers, states, steps) && i < |steps| && steps[i].Refuse?
    ensures workers > 0 && exists k: nat :: k < i && steps[k] == Stop(hash(steps[i].e.task) % workers)
  {
    LoopsStay(hash, workers, states, steps, i);
    assert Enabled(hash, states[i], steps[i]);
    EndsOnlyAfterStop(hash, workers, states, steps, i, hash(steps[i].e.task) % workers);
  }

  /** A run in which an event is sent and applied, its worker stopped and gone, and the next refused. */
  lemma EventIsApplied(hash: Hash, workers: nat, e: Event) returns (states: seq<Group>, steps: seq<Step>)
    requires workers > 0
    ensures IsRun(hash, workers, states, steps) && steps != [] && steps[|steps| - 1] == Refuse(e)
    ensures states[|steps|].accepted == [e] == states[|steps|].applied && HasExited(hash, states[|steps|], e.task)
  {
    var w := hash(e.task) % workers;
    var g0 := Group(seq(workers, _ => Loop(Selecting, false)), [], []);
    var g1 := Group(g0.loops[w := Loop(Applying(e), false)], [e], []);
    var g2 := Group(g1.loops[w := Loop(Selecting, false)], [e], [e]);
    var g3 := g2.(loops := g2.loops[w := Loop(Selecting, true)]);
    var g4 := g3.(loops := g3.loops[w := Loop(Exited, true)]);
    states, steps := [g0, g1, g2, g3, g4, g4], [Accept(e), Finish(w), Stop(w), Exit(w), Refuse(e)];
    assert g1 == Next(hash, g0, steps[0]) && g2 == Next(hash, g1, steps[1]);
    assert g3 == Next(hash, g2, steps[2]) && g4 == Next(hash, g3, steps[3]) && g4 == Next(hash, g4, steps[4]);
  }
}
