/**
  The publisher of cdn/supervisor/progress/progress.go with all its subscribers, under the lock of the
  task that cdn/supervisor/progress/manager.go takes.

  `NotifySubscribers` walks over the list of subscribers and hands the piece to one after the other;
  `RemoveAllSubscribers` closes one after the other. What the manager does to one subscriber, and what
  that subscriber and its receiver do, are the steps of `SeedProgress`. Seen from each subscriber, every
  state of the publisher is a reachable state of that machine, so what holds in those holds for all
  subscribers; on top of that comes what subscribers do to each other.
 */
module SeedPublisher {
  import opened SeedStream
  import One = SeedProgress

  type Id = nat

  datatype Sub = Sub(reader: One.Reader, pending: PieceMap, buffer: seq<CdnPiece>, received: seq<CdnPiece>, gone: bool)

  /** How far Close is with the first subscriber of the list. */
  datatype Stage = Untouched | Marked | Woken

  /** What the holder of the task's lock is doing; `todo` are the subscribers it has not done with. */
  datatype Phase =
    | Idle
    | Notifying(piece: CdnPiece, todo: seq<Id>)    // about to lock the mutex of todo[0]
    | Signalling(piece: CdnPiece, todo: seq<Id>)   // todo[0] has the piece, its signal is to come
    | Closing(todo: seq<Id>, stage: Stage)
    | Over
  {
    predicate IsPublishing(p: CdnPiece) {
      (Notifying? || Signalling?) && piece == p
    }
  }

  /** A task with everyone who watches it. */
  datatype Watched = Watched(cdn: PieceMap, phase: Phase, order: seq<Id>, subs: map<Id, Sub>)

  const INITIAL := Watched(map[], Idle, [], map[])

  // ---------------------------------------------------------------------------------------------
  // One subscriber's view
  // ---------------------------------------------------------------------------------------------

  /** Where the manager is as far as subscriber x is concerned. */
  function ManagerFor(phase: Phase, x: Id, joined: bool): One.Manager {
    match phase
    case Idle => One.Idle
    case Notifying(p, todo) => if joined && x !in todo then One.Signalled(p) else One.Publishing(p)
    case Signalling(p, todo) =>
      if joined && x !in todo then One.Signalled(p)
      else if joined && x == todo[0] then One.Handed(p)
      else One.Publishing(p)
    case Closing(todo, stage) =>
      if joined && x !in todo then One.Over
      else if joined && x == todo[0] && stage == Marked then One.MarkedClosed
      else if joined && x == todo[0] && stage == Woken then One.SignalledClosed
      else One.Idle
    case Over => One.Over
  }

  function View(t: Watched, x: Id): One.State {
    if x in t.subs then
      var sub := t.subs[x];
      One.State(t.cdn, ManagerFor(t.phase, x, true), sub.reader, sub.pending, sub.buffer, sub.received, sub.gone)
    else One.State(t.cdn, ManagerFor(t.phase, x, false), One.Absent, map[], [], [], false)
  }

  /** The subscriber as it is in s. */
  function Put(t: Watched, x: Id, s: One.State): Watched {
    t.(subs := t.subs[x := Sub(s.reader, s.pending, s.buffer, s.received, s.gone)])
  }

  // ---------------------------------------------------------------------------------------------
  // The steps
  // ---------------------------------------------------------------------------------------------

  datatype Step =
    | Join(x: Id)                   // WatchSeedProgress
    | Publish(n: Uint32)            // PublishPiece takes the lock of the task
    | HandNext                      // Notify of todo[0] stores the piece
    | SignalNext                    // Notify of todo[0] signals
    | Store                         // UpdateProgress
    | BeginClosing                  // PublishTask has updated the task
    | CloseNext                     // the next action of Close on todo[0]
    | EndClosing
    | Own(x: Id, step: One.Step)    // a step of subscriber x or of its receiver

  predicate IsOwn(step: One.Step) {
    One.IsReadingStep(step) || step.Leave?
  }

  /** What Close does next to a subscriber. */
  function CloseStep(stage: Stage): One.Step {
    match stage
    case Untouched => One.MarkClosed
    case Marked => One.SignalClosed
    case Woken => One.CloseDone
  }

  ghost predicate Enabled(t: Watched, step: Step) {
    match step
    case Join(x) => x !in t.subs && (t.phase.Idle? || t.phase.Over?)
    case Publish(_) => t.phase.Idle?
    case HandNext => t.phase.Notifying? && t.phase.todo != [] && One.Enabled(View(t, t.phase.todo[0]), One.Hand)
    case SignalNext => t.phase.Signalling? && t.phase.todo != [] && One.Enabled(View(t, t.phase.todo[0]), One.Signal)
    case Store => t.phase.Notifying? && t.phase.todo == []
    case BeginClosing => t.phase.Idle?
    case CloseNext => t.phase.Closing? && t.phase.todo != [] && One.Enabled(View(t, t.phase.todo[0]), CloseStep(t.phase.stage))
    case EndClosing => t.phase.Closing? && t.phase.todo == []
    case Own(x, own) => x in t.subs && IsOwn(own) && One.Enabled(View(t, x), own)
  }

  function AfterClose(phase: Phase): Phase
    requires phase.Closing? && phase.todo != []
  {
    match phase.stage
    case Untouched => phase.(stage := Marked)
    case Marked => phase.(stage := Woken)
    case Woken => Closing(phase.todo[1..], Untouched)
  }

  ghost function Next(content: One.Content, t: Watched, step: Step): Watched
    requires Enabled(t, step)
  {
    match step
    case Join(x) =>
      Put(t, x, One.Next(content, View(t, x), One.Watch)).(order := if t.phase.Over? then t.order else t.order + [x])
    case Publish(n) => t.(phase := Notifying(content(n), t.order))
    case HandNext =>
      var x := t.phase.todo[0];
      Put(t, x, One.Next(content, View(t, x), One.Hand)).(phase := Signalling(t.phase.piece, t.phase.todo))
    case SignalNext =>
      var x := t.phase.todo[0];
      Put(t, x, One.Next(content, View(t, x), One.Signal)).(phase := Notifying(t.phase.piece, t.phase.todo[1..]))
    case Store => t.(phase := Idle, cdn := t.cdn[t.phase.piece.num := t.phase.piece])
    case BeginClosing => t.(phase := Closing(t.order, Untouched))
    case CloseNext =>
      var x := t.phase.todo[0];
      Put(t, x, One.Next(content, View(t, x), CloseStep(t.phase.stage))).(phase := AfterClose(t.phase))
    case EndClosing => t.(phase := Over)
    case Own(x, own) => Put(t, x, One.Next(content, View(t, x), own))
  }

  ghost predicate IsPath(content: One.Content, tasks: seq<Watched>, steps: seq<Step>) {
    && |tasks| == |steps| + 1
    && forall i | 0 <= i < |steps| :: Enabled(tasks[i], steps[i]) && tasks[i + 1] == Next(content, tasks[i], steps[i])
  }

  ghost predicate IsRun(content: One.Content, tasks: seq<Watched>, steps: seq<Step>) {
    One.Numbered(content) && IsPath(content, tasks, steps) && tasks[0] == INITIAL
  }

  ghost predicate Distinct(s: seq<Id>) {
    forall i, j | 0 <= i < j < |s| :: s[i] != s[j]
  }

  /** The list has every subscriber once until the task is over, and what is left to do is of it. */
  ghost predicate Listed(t: Watched) {
    && (!t.phase.Over? ==> Distinct(t.order) && forall x :: x in t.order <==> x in t.subs)
    && (t.phase.Notifying? || t.phase.Signalling? || t.phase.Closing? ==>
          Distinct(t.phase.todo) && forall x | x in t.phase.todo :: x in t.subs)
    && (t.phase.Signalling? ==> t.phase.todo != [])
    && (t.phase.Closing? && t.phase.todo == [] ==> t.phase.stage == Untouched)
  }

  lemma StepKeepsListed(content: One.Content, t: Watched, step: Step)
    requires Listed(t) && Enabled(t, step)
    ensures Listed(Next(content, t, step))
  {
  }

  // ---------------------------------------------------------------------------------------------
  // Every subscriber runs the machine of SeedProgress
  // ---------------------------------------------------------------------------------------------

  ghost predicate Reachable(content: One.Content, s: One.State) {
    exists states, steps :: One.IsRun(content, states, steps) && states[|steps|] == s
  }

  lemma OneMore(content: One.Content, s: One.State, step: One.Step)
    requires Reachable(content, s) && One.Enabled(s, step)
    ensures Reachable(content, One.Next(content, s, step))
  {
    var states, steps :| One.IsRun(content, states, steps) && states[|steps|] == s;
    var longer, more := One.Extend(content, states, steps, step);
  }

  /** An own step touches neither the task nor the manager. */
  lemma OwnIsLocal(content: One.Content, s: One.State, step: One.Step)
    requires IsOwn(step) && One.Enabled(s, step)
    ensures One.Next(content, s, step).cdn == s.cdn && One.Next(content, s, step).manager == s.manager
  {
  }

  /** The step deals with subscriber x; publishing, storing and closing the list deal with everyone. */
  predicate Concerns(t: Watched, step: Step, x: Id) {
    match step
    case Join(y) => x == y
    case Own(y, _) => x == y
    case HandNext => t.phase.Notifying? && t.phase.todo != [] && x == t.phase.todo[0]
    case SignalNext => t.phase.Signalling? && t.phase.todo != [] && x == t.phase.todo[0]
    case CloseNext => t.phase.Closing? && t.phase.todo != [] && x == t.phase.todo[0]
    case _ => true
  }

  predicate DealsWithOne(step: Step) {
    step.Join? || step.Own? || step.HandNext? || step.SignalNext? || step.CloseNext?
  }

  /** The step that the subscriber takes then. */
  function Counterpart(t: Watched, step: Step): One.Step
    requires DealsWithOne(step) && (step.CloseNext? ==> t.phase.Closing?)
  {
    match step
    case Join(_) => One.Watch
    case Own(_, own) => own
    case HandNext => One.Hand
    case SignalNext => One.Signal
    case CloseNext => CloseStep(t.phase.stage)
  }

  lemma ConcernedTakesStep(content: One.Content, t: Watched, step: Step, x: Id)
    requires Listed(t) && Enabled(t, step) && DealsWithOne(step) && Concerns(t, step, x)
    ensures One.Enabled(View(t, x), Counterpart(t, step))
    ensures View(Next(content, t, step), x) == One.Next(content, View(t, x), Counterpart(t, step))
  {
    if step.Own? {
      OwnIsLocal(content, View(t, x), step.step);
    }
  }

  lemma OthersSeeNothing(content: One.Content, t: Watched, step: Step, x: Id)
    requires Listed(t) && Enabled(t, step) && !Concerns(t, step, x)
    ensures View(Next(content, t, step), x) == View(t, x)
  {
  }

  /** A publication that is stored, or a closing that ends, has been a whole round for a subscriber that
      was not there. */
  lemma StoreReaches(content: One.Content, t: Watched, x: Id)
    requires Listed(t) && Enabled(t, Store) && Reachable(content, View(t, x))
    ensures Reachable(content, View(Next(content, t, Store), x))
  {
    var s := View(t, x);
    if x !in t.subs {
      OneMore(content, s, One.Hand);
      s := One.Next(content, s, One.Hand);
      OneMore(content, s, One.Signal);
      s := One.Next(content, s, One.Signal);
    }
    OneMore(content, s, One.StoreProgress);
  }

  lemma EndClosingReaches(content: One.Content, t: Watched, x: Id)
    requires Listed(t) && Enabled(t, EndClosing) && Reachable(content, View(t, x))
    ensures Reachable(content, View(Next(content, t, EndClosing), x))
  {
    if x !in t.subs {
      var s := View(t, x);
      OneMore(content, s, One.MarkClosed);
      s := One.Next(content, s, One.MarkClosed);
      OneMore(content, s, One.SignalClosed);
      s := One.Next(content, s, One.SignalClosed);
      OneMore(content, s, One.CloseDone);
    }
  }

  lemma StepReaches(content: One.Content, t: Watched, step: Step, x: Id)
    requires Listed(t) && Enabled(t, step) && Reachable(content, View(t, x))
    ensures Reachable(content, View(Next(content, t, step), x))
  {
    if !Concerns(t, step, x) {
      OthersSeeNothing(content, t, step, x);
    } else if DealsWithOne(step) {
      ConcernedTakesStep(content, t, step, x);
      OneMore(content, View(t, x), Counterpart(t, step));
    } else {
      match step
      case Publish(n) => OneMore(content, View(t, x), One.Publish(n));
      case Store => StoreReaches(content, t, x);
      case BeginClosing => assert View(Next(content, t, step), x) == View(t, x);
      case EndClosing => EndClosingReaches(content, t, x);
    }
  }

  /** In every run of the publisher, what each subscriber sees is a reachable state of `SeedProgress`. */
  lemma {:induction false} EveryViewIsReachable(content: One.Content, tasks: seq<Watched>, steps: seq<Step>, i: nat, x: Id)
    requires IsRun(content, tasks, steps) && i < |tasks|
    ensures Listed(tasks[i]) && Reachable(content, View(tasks[i], x))
  {
    if i == 0 {
      var states, none: seq<One.Step> := [One.INITIAL], [];
      assert One.IsRun(content, states, none) && states[|none|] == View(tasks[0], x);
    } else {
      EveryViewIsReachable(content, tasks, steps, i - 1, x);
      StepKeepsListed(content, tasks[i - 1], steps[i - 1]);
      StepReaches(content, tasks[i - 1], steps[i - 1], x);
    }
  }

  /** However many subscribers there are and whenever they join: a receiver that has seen the end of a
      channel that was not cancelled has received every piece of the task, and nothing else. */
  lemma EveryReceiverGetsAll(content: One.Content, tasks: seq<Watched>, steps: seq<Step>, i: nat, x: Id)
    requires IsRun(content, tasks, steps) && i < |tasks| && x in tasks[i].subs
    requires tasks[i].subs[x].reader == One.Exited(false) && tasks[i].subs[x].buffer == []
    ensures Streams(tasks[i].cdn, tasks[i].subs[x].received)
  {
    EveryViewIsReachable(content, tasks, steps, i, x);
    var states, moves :| One.IsRun(content, states, moves) && states[|moves|] == View(tasks[i], x);
    One.ClosedStreamIsComplete(content, states, moves, |moves|);
  }

  lemma BufferFits(content: One.Content, tasks: seq<Watched>, steps: seq<Step>, i: nat, x: Id)
    requires IsRun(content, tasks, steps) && i < |tasks|
    ensures Listed(tasks[i]) && |View(tasks[i], x).buffer| <= One.CAPACITY
  {
    EveryViewIsReachable(content, tasks, steps, i, x);
    var states, moves :| One.IsRun(content, states, moves) && states[|moves|] == View(tasks[i], x);
    One.RunKeepsInv(content, states, moves, |moves|);
  }

  // ---------------------------------------------------------------------------------------------
  // One subscriber can stop all
  // ---------------------------------------------------------------------------------------------

  ghost predicate EndsWith(todo: seq<Id>, tail: seq<Id>) {
    |tail| <= |todo| && forall k | 0 <= k < |tail| :: todo[|todo| - |tail| + k] == tail[k]
  }

  lemma StillEndsWith(todo: seq<Id>, tail: seq<Id>)
    requires EndsWith(todo, tail) && |tail| < |todo|
    ensures EndsWith(todo[1..], tail)
  {
  }

  ghost predicate IsStuck(t: Watched, x: Id) {
    x in t.subs && One.Stuck(View(t, x)) && |t.subs[x].buffer| <= One.CAPACITY
  }

  /** The publication of p has not come to x, the first of `tail`, whose reader is stuck. */
  ghost predicate Jammed(t: Watched, p: CdnPiece, x: Id, tail: seq<Id>) {
    && tail != [] && tail[0] == x && IsStuck(t, x)
    && t.phase.IsPublishing(p) && EndsWith(t.phase.todo, tail) && (t.phase.Signalling? ==> t.phase.todo[0] != x)
  }

  /** While a publication is under way only these steps are taken, and the mutex of x is not free. */
  lemma StepsWhenJammed(t: Watched, step: Step, p: CdnPiece, x: Id, tail: seq<Id>)
    requires Listed(t) && Enabled(t, step) && Jammed(t, p, x, tail)
    ensures step.Own? || step.HandNext? || step.SignalNext?
    ensures !step.Own? ==> |tail| < |t.phase.todo| && !Concerns(t, step, x)
  {
    assert t.phase.todo[|t.phase.todo| - |tail| + 0] == tail[0];
  }

  lemma StepStaysStuck(content: One.Content, t: Watched, step: Step, x: Id)
    requires Listed(t) && Enabled(t, step) && IsStuck(t, x) && (step.Own? || !Concerns(t, step, x))
    ensures IsStuck(Next(content, t, step), x)
  {
    if Concerns(t, step, x) {
      ConcernedTakesStep(content, t, step, x);
      One.StuckStays(content, View(t, x), step.step);
    } else {
      OthersSeeNothing(content, t, step, x);
    }
  }

  lemma StepStaysJammed(content: One.Content, t: Watched, step: Step, p: CdnPiece, x: Id, tail: seq<Id>)
    requires Listed(t) && Enabled(t, step) && Jammed(t, p, x, tail)
    ensures Jammed(Next(content, t, step), p, x, tail)
    ensures Next(content, t, step).cdn == t.cdn && Next(content, t, step).subs.Keys == t.subs.Keys
  {
    StepsWhenJammed(t, step, p, x, tail);
    StepStaysStuck(content, t, step, x);
    if step.SignalNext? {
      StillEndsWith(t.phase.todo, tail);
    }
  }

  /** Nothing has changed for the worse, or the better, since the publication of p jammed in `was`. */
  ghost predicate JammedSince(was: Watched, t: Watched, p: CdnPiece, x: Id, tail: seq<Id>) {
    Listed(t) && Jammed(t, p, x, tail) && t.cdn == was.cdn && t.subs.Keys == was.subs.Keys
  }

  lemma StepStaysJammedSince(content: One.Content, was: Watched, t: Watched, step: Step, p: CdnPiece, x: Id, tail: seq<Id>)
    requires JammedSince(was, t, p, x, tail) && Enabled(t, step)
    ensures JammedSince(was, Next(content, t, step), p, x, tail)
  {
    StepKeepsListed(content, t, step);
    StepStaysJammed(content, t, step, p, x, tail);
  }

  /** What every step keeps, a path keeps. */
  lemma {:induction false} PathKeeps(content: One.Content, tasks: seq<Watched>, steps: seq<Step>, i: nat, j: nat, kept: Watched -> bool)
    requires IsPath(content, tasks, steps) && i <= j < |tasks| && kept(tasks[i])
    requires forall t, step | kept(t) && Enabled(t, step) :: kept(Next(content, t, step))
    ensures kept(tasks[j])
    decreases j
  {
    if i < j {
      PathKeeps(content, tasks, steps, i, j - 1, kept);
    }
  }

  lemma PathStaysJammed(content: One.Content, tasks: seq<Watched>, steps: seq<Step>, i: nat, j: nat,
                        p: CdnPiece, x: Id, tail: seq<Id>)
    requires IsPath(content, tasks, steps) && i <= j < |tasks| && Listed(tasks[i]) && Jammed(tasks[i], p, x, tail)
    ensures JammedSince(tasks[i], tasks[j], p, x, tail)
  {
    var was := tasks[i];
    forall t, step | JammedSince(was, t, p, x, tail) && Enabled(t, step)
      ensures JammedSince(was, Next(content, t, step), p, x, tail)
    {
      StepStaysJammedSince(content, was, t, step, p, x, tail);
    }
    PathKeeps(content, tasks, steps, i, j, t => JammedSince(was, t, p, x, tail));
  }

  lemma TailIsWaiting(t: Watched, p: CdnPiece, x: Id, tail: seq<Id>)
    requires Listed(t) && Jammed(t, p, x, tail)
    ensures forall y | y in tail :: View(t, y).manager == One.Publishing(p)
  {
    var todo := t.phase.todo;
    forall y | y in tail ensures View(t, y).manager == One.Publishing(p) {
      var k :| 0 <= k < |tail| && tail[k] == y;
      assert todo[|todo| - |tail| + k] == y && todo[|todo| - |tail| + 0] == x;
    }
  }

  lemma JammedNow(content: One.Content, tasks: seq<Watched>, steps: seq<Step>, i: nat, k: nat)
    requires IsRun(content, tasks, steps) && i < |tasks| && tasks[i].phase.Notifying? && k < |tasks[i].phase.todo|
    requires One.Stuck(View(tasks[i], tasks[i].phase.todo[k]))
    ensures Listed(tasks[i]) && Jammed(tasks[i], tasks[i].phase.piece, tasks[i].phase.todo[k], tasks[i].phase.todo[k..])
  {
    BufferFits(content, tasks, steps, i, tasks[i].phase.todo[k]);
  }

  /** One receiver that has gone stops everybody: when the publication of a piece waits for a stuck
      reader, or has yet to come to it, then in every later state the publication is still under way,
      the task has no new piece and no new subscriber, and neither the stuck subscriber nor any of those
      after it in the list has been given the piece. */
  lemma OneStuckStopsAll(content: One.Content, tasks: seq<Watched>, steps: seq<Step>, i: nat, j: nat, k: nat)
    requires IsRun(content, tasks, steps) && i <= j < |tasks| && tasks[i].phase.Notifying? && k < |tasks[i].phase.todo|
    requires One.Stuck(View(tasks[i], tasks[i].phase.todo[k]))
    ensures tasks[j].phase.IsPublishing(tasks[i].phase.piece)
    ensures tasks[j].cdn == tasks[i].cdn && tasks[j].subs.Keys == tasks[i].subs.Keys
    ensures forall y | y in tasks[i].phase.todo[k..] :: View(tasks[j], y).manager == One.Publishing(tasks[i].phase.piece)
  {
    var p, x, tail := tasks[i].phase.piece, tasks[i].phase.todo[k], tasks[i].phase.todo[k..];
    JammedNow(content, tasks, steps, i, k);
    PathStaysJammed(content, tasks, steps, i, j, p, x, tail);
    TailIsWaiting(tasks[j], p, x, tail);
  }

  ghost predicate CanReach(content: One.Content, t: Watched, goal: Watched -> bool) {
    exists tasks: seq<Watched>, steps :: IsPath(content, tasks, steps) && tasks[0] == t && goal(tasks[|steps|])
  }

  /** The publication can be completed. */
  ghost predicate CanComplete(content: One.Content, t: Watched) {
    CanReach(content, t, (q: Watched) => q.phase.Idle?)
  }

  lemma ReachNow(content: One.Content, t: Watched, goal: Watched -> bool)
    requires goal(t)
    ensures CanReach(content, t, goal)
  {
    var tasks, none: seq<Step> := [t], [];
    assert IsPath(content, tasks, none) && tasks[0] == t && goal(tasks[|none|]);
  }

  lemma ReachLater(content: One.Content, t: Watched, step: Step, goal: Watched -> bool)
    requires Enabled(t, step) && CanReach(content, Next(content, t, step), goal)
    ensures CanReach(content, t, goal)
  {
    var tasks: seq<Watched>, steps :| IsPath(content, tasks, steps) && tasks[0] == Next(content, t, step) && goal(tasks[|steps|]);
    var longer, more := [t] + tasks, [step] + steps;
    forall i | 0 <= i < |more| ensures Enabled(longer[i], more[i]) && longer[i + 1] == Next(content, longer[i], more[i]) {
      assert i > 0 ==> Enabled(tasks[i - 1], steps[i - 1]) && tasks[i] == Next(content, tasks[i - 1], steps[i - 1]);
    }
    assert IsPath(content, longer, more) && longer[0] == t && longer[|more|] == tasks[|steps|];
  }

  /** Nobody who is still to be given the piece is stuck. */
  ghost predicate NobodyStuck(t: Watched)
    requires t.phase.Notifying?
  {
    forall x | x in t.phase.todo :: !One.Stuck(View(t, x)) && |View(t, x).buffer| <= One.CAPACITY
  }

  lemma EasingIsOwn(content: One.Content, s: One.State, step: One.Step)
    requires s.manager.Publishing? && s.reader.HoldsMutex() && One.Enabled(s, step)
    ensures IsOwn(step)
  {
  }

  /** Whoever holds the mutex of the next subscriber comes nearer to giving it back. */
  lemma NextEases(content: One.Content, t: Watched) returns (step: Step)
    requires Listed(t) && t.phase.Notifying? && t.phase.todo != [] && NobodyStuck(t) && t.subs[t.phase.todo[0]].reader.HoldsMutex()
    ensures Enabled(t, step)
    ensures var q := Next(content, t, step);
            && Listed(q) && q.phase == t.phase && NobodyStuck(q)
            && One.Work(View(q, t.phase.todo[0])) < One.Work(View(t, t.phase.todo[0]))
  {
    var x := t.phase.todo[0];
    var own := One.Unblocks(content, View(t, x));
    EasingIsOwn(content, View(t, x), own);
    step := Own(x, own);
    StepKeepsListed(content, t, step);
    ConcernedTakesStep(content, t, step, x);
    forall y | y in t.phase.todo && y != x ensures View(Next(content, t, step), y) == View(t, y) {
      OthersSeeNothing(content, t, step, y);
    }
  }

  /** Handing the piece to the next subscriber leaves the others as they are. */
  lemma NextIsHanded(content: One.Content, t: Watched)
    requires Listed(t) && t.phase.Notifying? && t.phase.todo != [] && NobodyStuck(t) && !t.subs[t.phase.todo[0]].reader.HoldsMutex()
    ensures Enabled(t, HandNext) && Enabled(Next(content, t, HandNext), SignalNext)
    ensures var q := Next(content, Next(content, t, HandNext), SignalNext);
            Listed(q) && q.phase == Notifying(t.phase.piece, t.phase.todo[1..]) && NobodyStuck(q)
  {
    var h := Next(content, t, HandNext);
    StepKeepsListed(content, t, HandNext);
    StepKeepsListed(content, h, SignalNext);
    forall y | y in t.phase.todo[1..] ensures View(Next(content, h, SignalNext), y) == View(t, y) {
      OthersSeeNothing(content, t, HandNext, y);
      OthersSeeNothing(content, h, SignalNext, y);
    }
  }

  lemma {:induction false} Completes(content: One.Content, t: Watched)
    requires Listed(t) && t.phase.Notifying? && NobodyStuck(t)
    ensures CanComplete(content, t)
    decreases |t.phase.todo|, if t.phase.todo == [] then 0 else One.Work(View(t, t.phase.todo[0]))
  {
    var idle := (q: Watched) => q.phase.Idle?;
    if t.phase.todo == [] {
      ReachNow(content, Next(content, t, Store), idle);
      ReachLater(content, t, Store, idle);
    } else if t.subs[t.phase.todo[0]].reader.HoldsMutex() {
      var step := NextEases(content, t);
      Completes(content, Next(content, t, step));
      ReachLater(content, t, step, idle);
    } else {
      NextIsHanded(content, t);
      var h := Next(content, t, HandNext);
      Completes(content, Next(content, h, SignalNext));
      ReachLater(content, h, SignalNext, idle);
      ReachLater(content, t, HandNext, idle);
    }
  }

  /** Closing one subscriber takes no mutex and leads to the next. */
  lemma OneIsClosed(content: One.Content, t: Watched)
    requires Listed(t) && t.phase.Closing? && t.phase.stage == Untouched && t.phase.todo != []
    ensures Enabled(t, CloseNext)
    ensures var t1 := Next(content, t, CloseNext); Enabled(t1, CloseNext)
    ensures var t2 := Next(content, Next(content, t, CloseNext), CloseNext); Enabled(t2, CloseNext)
    ensures var t3 := Next(content, Next(content, Next(content, t, CloseNext), CloseNext), CloseNext);
            Listed(t3) && t3.phase == Closing(t.phase.todo[1..], Untouched)
  {
    var x := t.phase.todo[0];
    var t1 := Next(content, t, CloseNext);
    StepKeepsListed(content, t, CloseNext);
    assert View(t1, x).manager == One.MarkedClosed;
    var t2 := Next(content, t1, CloseNext);
    StepKeepsListed(content, t1, CloseNext);
    assert View(t2, x).manager == One.SignalledClosed;
    StepKeepsListed(content, t2, CloseNext);
  }

  lemma {:induction false} ClosesAll(content: One.Content, t: Watched)
    requires Listed(t) && t.phase.Closing? && t.phase.stage == Untouched
    ensures CanReach(content, t, (q: Watched) => q.phase.Over?)
    decreases |t.phase.todo|
  {
    var over := (q: Watched) => q.phase.Over?;
    if t.phase.todo == [] {
      ReachNow(content, Next(content, t, EndClosing), over);
      ReachLater(content, t, EndClosing, over);
    } else {
      OneIsClosed(content, t);
      var t1 := Next(content, t, CloseNext);
      var t2 := Next(content, t1, CloseNext);
      ClosesAll(content, Next(content, t2, CloseNext));
      ReachLater(content, t2, CloseNext, over);
      ReachLater(content, t1, CloseNext, over);
      ReachLater(content, t, CloseNext, over);
    }
  }

  /** In every run: unlike a publication, PublishTask can always be completed once it has the lock of the
      task, whatever its subscribers do. */
  lemma ClosingNeverBlocks(content: One.Content, tasks: seq<Watched>, steps: seq<Step>, i: nat)
    requires IsRun(content, tasks, steps) && i < |tasks| && tasks[i].phase.Idle?
    ensures CanReach(content, tasks[i], (q: Watched) => q.phase.Over?)
  {
    EveryViewIsReachable(content, tasks, steps, i, 0);
    StepKeepsListed(content, tasks[i], BeginClosing);
    ClosesAll(content, Next(content, tasks[i], BeginClosing));
    ReachLater(content, tasks[i], BeginClosing, (q: Watched) => q.phase.Over?);
  }

  /** In every run: a publication that is under way can be completed exactly when none of the
      subscribers still to be given the piece is stuck. */
  lemma CompletesExactlyUnlessStuck(content: One.Content, tasks: seq<Watched>, steps: seq<Step>, i: nat)
    requires IsRun(content, tasks, steps) && i < |tasks| && tasks[i].phase.Notifying?
    ensures CanComplete(content, tasks[i]) <==> forall x | x in tasks[i].phase.todo :: !One.Stuck(View(tasks[i], x))
  {
    var t := tasks[i];
    if k :| 0 <= k < |t.phase.todo| && One.Stuck(View(t, t.phase.todo[k])) {
      JammedNow(content, tasks, steps, i, k);
      NeverCompletes(content, t, t.phase.piece, t.phase.todo[k], t.phase.todo[k..]);
      assert t.phase.todo[k] in t.phase.todo;
    } else {
      BufferFits(content, tasks, steps, i, 0);
      forall x | x in t.phase.todo ensures !One.Stuck(View(t, x)) && |View(t, x).buffer| <= One.CAPACITY {
        BufferFits(content, tasks, steps, i, x);
        var k :| 0 <= k < |t.phase.todo| && t.phase.todo[k] == x;
        assert !One.Stuck(View(t, t.phase.todo[k]));
      }
      Completes(content, t);
    }
  }

  lemma NeverCompletes(content: One.Content, t: Watched, p: CdnPiece, x: Id, tail: seq<Id>)
    requires Listed(t) && Jammed(t, p, x, tail)
    ensures !CanComplete(content, t)
  {
    if CanComplete(content, t) {
      var idle := (q: Watched) => q.phase.Idle?;
      assert CanReach(content, t, idle);
      var more: seq<Watched>, moves :| IsPath(content, more, moves) && more[0] == t && idle(more[|moves|]);
      PathStaysJammed(content, more, moves, 0, |moves|, p, x, tail);
      assert false;
    }
  }

  // ---------------------------------------------------------------------------------------------
  // It does happen
  // ---------------------------------------------------------------------------------------------

  lemma Extend(content: One.Content, tasks: seq<Watched>, steps: seq<Step>, step: Step) returns (longer: seq<Watched>, more: seq<Step>)
    requires IsRun(content, tasks, steps) && Enabled(tasks[|steps|], step)
    ensures IsRun(content, longer, more) && longer[|more|] == Next(content, tasks[|steps|], step)
  {
    longer, more := tasks + [Next(content, tasks[|steps|], step)], steps + [step];
  }

  lemma {:induction false} PublishesMany(content: One.Content, k: Uint32) returns (tasks: seq<Watched>, steps: seq<Step>)
    requires One.Numbered(content) && k < TWO_32 - 1
    ensures IsRun(content, tasks, steps) && tasks[|steps|] == INITIAL.(cdn := One.FirstPieces(content, k))
    ensures |One.FirstPieces(content, k)| == k
  {
    if k == 0 {
      assert One.FirstPieces(content, 0) == map[];
      tasks, steps := [INITIAL], [];
    } else {
      tasks, steps := PublishesMany(content, k - 1);
      One.FirstPiecesGrow(content, k - 1);
      tasks, steps := Extend(content, tasks, steps, Publish(k - 1));
      tasks, steps := Extend(content, tasks, steps, Store);
    }
  }

  /** Two subscribers join a task with more pieces than their channels hold, and the receiver of the
      first goes away. */
  lemma TwoJoin(content: One.Content) returns (tasks: seq<Watched>, steps: seq<Step>)
    requires One.Numbered(content)
    ensures IsRun(content, tasks, steps)
    ensures var pieces := One.FirstPieces(content, One.CAPACITY + 1);
            var sub := Sub(One.Top, pieces, [], [], false);
            |pieces| > One.CAPACITY && tasks[|steps|] == Watched(pieces, Idle, [0, 1], map[0 := sub.(gone := true), 1 := sub])
  {
    tasks, steps := PublishesMany(content, One.CAPACITY + 1);
    tasks, steps := Extend(content, tasks, steps, Join(0));
    tasks, steps := Extend(content, tasks, steps, Join(1));
    tasks, steps := Extend(content, tasks, steps, Own(0, One.Leave));
  }

  /** The second, whose receiver is there, is not given the next piece either. */
  lemma StopIsReachable(content: One.Content) returns (tasks: seq<Watched>, steps: seq<Step>)
    requires One.Numbered(content)
    ensures IsRun(content, tasks, steps)
    ensures var t := tasks[|steps|];
            t.phase.Notifying? && t.phase.todo == [0, 1] && One.Stuck(View(t, 0)) && !View(t, 1).gone
  {
    tasks, steps := TwoJoin(content);
    tasks, steps := Extend(content, tasks, steps, Own(0, One.LockAndCheck));
    tasks, steps := Extend(content, tasks, steps, Publish(One.CAPACITY + 1));
  }
}
