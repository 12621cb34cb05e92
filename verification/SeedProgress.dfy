/**
  From the pieces a CDN downloads to the pieces it streams: `PublishPiece`, `PublishTask` and
  `WatchSeedProgress` of cdn/supervisor/progress/manager.go and the subscriber of
  cdn/supervisor/progress/progress.go.

  One task and one of its subscribers. The manager's methods run one at a time under the lock of the
  task; the subscriber's `readLoop` runs beside them, and the two meet at the condition variable that
  guards the pending pieces. `readLoop` sends the pieces over a channel of bounded capacity to a
  receiver, which may go away. `content(n)` is the piece with number n.
 */
module SeedProgress {
  import opened SeedStream
  import opened Wrappers

  type Content = Uint32 -> CdnPiece

  /** The capacity of a subscriber's pieceChan. */
  const CAPACITY := 100

  /** Where the manager is. A PublishPiece, which holds the lock of the task throughout, waits for the
      subscriber's mutex, hands the piece over, signals, and only then stores it in the task; a
      PublishTask marks the subscriber closed, signals and closes its done channel. */
  datatype Manager =
    | Idle
    | Publishing(piece: CdnPiece)
    | Handed(piece: CdnPiece)
    | Signalled(piece: CdnPiece)
    | MarkedClosed
    | SignalledClosed
    | Over
  {
    /** The piece has been given to whoever listens, and is not in the task yet. */
    predicate HasGiven() {
      Handed? || Signalled?
    }
  }

  /** Where readLoop is. */
  datatype Reader =
    | Absent
    | Top              // before the select
    | Locked           // before the test of the waiting loop
    | Decided          // the test said to wait, Wait has not registered yet
    | Waiting          // in Wait
    | Woken            // signalled, about to lock again
    | Draining         // in sendPieces
    | Replaying        // the task was done already: its pieces are sent from a copy
    | Exited(cancelled: bool)
  {
    predicate HoldsMutex() {
      Locked? || Decided? || Draining?
    }
  }

  /** `buffer` are the pieces in the channel, `received` those taken out of it; `gone` says that the
      receiver takes no more. */
  datatype State = State(
    cdn: PieceMap,
    manager: Manager,
    reader: Reader,
    pending: PieceMap,
    buffer: seq<CdnPiece>,
    received: seq<CdnPiece>,
    gone: bool)
  {
    predicate Closed() {
      manager.MarkedClosed? || manager.SignalledClosed? || manager.Over?
    }
  }

  const INITIAL := State(map[], Idle, Absent, map[], [], [], false)

  datatype Step =
    | Watch                       // WatchSeedProgress
    | Publish(n: Uint32)          // PublishPiece takes the lock of the task
    | Hand                        // Notify stores the piece
    | Signal                      // Notify signals
    | StoreProgress               // UpdateProgress
    | MarkClosed                  // Close: closed.CAS
    | SignalClosed                // Close: cond.Signal
    | CloseDone                   // Close: close(done)
    | Cancel                      // the select sees ctx.Done
    | SeeDone                     // the select sees done
    | LockAndCheck                // the select takes the default case
    | Check                       // the test of the waiting loop
    | StartWaiting
    | Relock
    | Emit(n: Uint32)             // a send on the channel
    | EndDraining
    | TakeOut                     // a receive from the channel
    | Leave                       // the receiver goes away

  ghost predicate Enabled(s: State, step: Step) {
    match step
    case Watch => s.reader.Absent? && (s.manager.Idle? || s.manager.Over?)
    case Publish(_) => s.manager.Idle?
    case Hand => s.manager.Publishing? && !s.reader.HoldsMutex()
    case Signal => s.manager.Handed?
    case StoreProgress => s.manager.Signalled?
    case MarkClosed => s.manager.Idle?
    case SignalClosed => s.manager.MarkedClosed?
    case CloseDone => s.manager.SignalledClosed?
    case Cancel => s.reader.Top?
    case SeeDone => s.reader.Top? && s.manager.Over?
    case LockAndCheck => s.reader.Top? && !s.manager.Over?
    case Check => s.reader.Locked?
    case StartWaiting => s.reader.Decided?
    case Relock => s.reader.Woken?
    case Emit(n) => CanEmit(s) && IsLeast(s.pending, n)
    case EndDraining => (s.reader.Draining? || s.reader.Replaying?) && s.pending == map[]
    case TakeOut => !s.gone && s.buffer != []
    case Leave => !s.gone
  }

  /** The channel takes a piece; the one of a replay has no buffer. */
  predicate CanEmit(s: State) {
    (s.reader.Draining? && |s.buffer| < CAPACITY) || (s.reader.Replaying? && !s.gone)
  }

  ghost predicate IsLeast(pieces: PieceMap, n: Uint32) {
    n in pieces && forall m | m in pieces :: n <= m
  }

  function Wake(r: Reader): Reader {
    if r.Waiting? then Woken else r
  }

  /** A piece is handed to the subscriber if there is one that has not ended. */
  predicate Listens(r: Reader) {
    !r.Absent? && !r.Replaying? && !r.Exited?
  }

  function Emitted(s: State, n: Uint32): State
    requires n in s.pending
  {
    var q := s.(pending := s.pending - {n});
    if s.reader.Replaying? then q.(received := s.received + [s.pending[n]]) else q.(buffer := s.buffer + [s.pending[n]])
  }

  ghost function Next(content: Content, s: State, step: Step): State
    requires Enabled(s, step)
  {
    match step
    case Watch => s.(pending := s.cdn, reader := if s.manager.Over? then Replaying else Top)
    case Publish(n) => s.(manager := Publishing(content(n)))
    case Hand =>
      var p := s.manager.piece;
      s.(manager := Handed(p), pending := if Listens(s.reader) then s.pending[p.num := p] else s.pending)
    case Signal => s.(manager := Signalled(s.manager.piece), reader := Wake(s.reader))
    case StoreProgress => s.(manager := Idle, cdn := s.cdn[s.manager.piece.num := s.manager.piece])
    case MarkClosed => s.(manager := MarkedClosed)
    case SignalClosed => s.(manager := SignalledClosed, reader := Wake(s.reader))
    case CloseDone => s.(manager := Over)
    case Cancel => s.(reader := Exited(true))
    case SeeDone => s.(reader := if s.pending == map[] then Exited(false) else Draining)
    case LockAndCheck => s.(reader := Locked)
    case Check => s.(reader := if s.pending == map[] && !s.Closed() then Decided else Draining)
    case StartWaiting => s.(reader := Reader.Waiting)
    case Relock => s.(reader := Locked)
    case Emit(n) => Emitted(s, n)
    case EndDraining => s.(reader := if s.reader.Replaying? then Exited(false) else Top)
    case TakeOut => s.(buffer := s.buffer[1..], received := s.received + [s.buffer[0]])
    case Leave => s.(gone := true)
  }

  ghost predicate IsPath(content: Content, states: seq<State>, steps: seq<Step>) {
    && |states| == |steps| + 1
    && forall i | 0 <= i < |steps| :: Enabled(states[i], steps[i]) && states[i + 1] == Next(content, states[i], steps[i])
  }

  /** Every piece carries its own number. */
  ghost predicate Numbered(content: Content) {
    forall n: Uint32 :: content(n).num == n
  }

  ghost predicate IsRun(content: Content, states: seq<State>, steps: seq<Step>) {
    Numbered(content) && IsPath(content, states, steps) && states[0] == INITIAL
  }

  // ---------------------------------------------------------------------------------------------
  // Nothing is missed
  // ---------------------------------------------------------------------------------------------

  ghost predicate Seen(s: State, p: CdnPiece) {
    p in s.received || p in s.buffer || (p.num in s.pending && s.pending[p.num] == p)
  }

  /** Every piece of the task, and the one being published, has been sent or is pending, unless the
      subscriber was cancelled. */
  ghost predicate NothingMissed(s: State) {
    !s.reader.Absent? && s.reader != Exited(true) ==>
      && (forall n | n in s.cdn :: Seen(s, s.cdn[n]))
      && (s.manager.HasGiven() ==> Seen(s, s.manager.piece))
  }

  /** The piece is in the task, or is being published right now. */
  ghost predicate Published(s: State, p: CdnPiece) {
    || (p.num in s.cdn && s.cdn[p.num] == p)
    || (s.manager.HasGiven() && s.manager.piece == p)
  }

  /** Pieces are what their number says. */
  ghost predicate Genuine(content: Content, s: State) {
    && (forall n | n in s.cdn :: s.cdn[n] == content(n))
    && (s.manager.Publishing? || s.manager.HasGiven() ==> s.manager.piece == content(s.manager.piece.num))
    && (forall n | n in s.pending :: s.pending[n] == content(n))
  }

  ghost predicate NothingInvented(content: Content, s: State) {
    && (forall n | n in s.pending :: Published(s, s.pending[n]))
    && (forall p | p in s.buffer :: p == content(p.num) && Published(s, p))
    && (forall p | p in s.received :: p == content(p.num) && Published(s, p))
  }

  ghost predicate EndsInOrder(s: State) {
    && (s.reader.Replaying? ==> s.manager.Over?)
    && (s.reader == Exited(false) ==> s.manager.Over? && s.pending == map[])
    && (s.reader.Absent? ==> s.pending == map[] && s.buffer == [] && s.received == [])
    && (s.reader.Decided? ==> s.pending == map[])
    && |s.buffer| <= CAPACITY
  }

  ghost predicate Inv(content: Content, s: State) {
    NothingMissed(s) && Genuine(content, s) && NothingInvented(content, s) && EndsInOrder(s)
  }

  lemma SeenStays(content: Content, s: State, step: Step, p: CdnPiece)
    requires Genuine(content, s) && Enabled(s, step) && Numbered(content) && !step.Watch? && Seen(s, p) && p == content(p.num)
    ensures Seen(Next(content, s, step), p)
  {
    var q := Next(content, s, step);
    if step.Emit? {
      if p == s.pending[step.n] {
        assert s.reader.Replaying? ==> q.received[|s.received|] == p;
        assert !s.reader.Replaying? ==> q.buffer[|s.buffer|] == p;
      }
    } else if step.TakeOut? {
      assert q.received[|s.received|] == s.buffer[0];
    }
  }

  lemma StepMissesNothing(content: Content, s: State, step: Step)
    requires Inv(content, s) && Enabled(s, step) && Numbered(content)
    ensures NothingMissed(Next(content, s, step))
  {
    if !step.Watch? {
      forall p | Seen(s, p) && p == content(p.num) ensures Seen(Next(content, s, step), p) {
        SeenStays(content, s, step, p);
      }
    }
  }

  lemma PublishedStays(content: Content, s: State, step: Step, p: CdnPiece)
    requires Genuine(content, s) && Enabled(s, step) && Numbered(content) && Published(s, p) && p == content(p.num)
    ensures Published(Next(content, s, step), p)
  {
  }

  lemma PendingStaysPublished(content: Content, s: State, step: Step)
    requires Genuine(content, s) && NothingInvented(content, s) && Enabled(s, step) && Numbered(content)
    ensures var q := Next(content, s, step); forall n | n in q.pending :: Published(q, q.pending[n])
  {
    var q := Next(content, s, step);
    forall n | n in q.pending ensures Published(q, q.pending[n]) {
      if n in s.pending && q.pending[n] == s.pending[n] {
        PublishedStays(content, s, step, s.pending[n]);
      }
    }
  }

  lemma SentStaysPublished(content: Content, s: State, step: Step)
    requires Genuine(content, s) && NothingInvented(content, s) && Enabled(s, step) && Numbered(content)
    ensures var q := Next(content, s, step);
            && (forall p | p in q.buffer :: p == content(p.num) && Published(q, p))
            && (forall p | p in q.received :: p == content(p.num) && Published(q, p))
  {
    var q := Next(content, s, step);
    forall p | p in q.buffer || p in q.received ensures p == content(p.num) && Published(q, p) {
      if step.Emit? && p == s.pending[step.n] {
        assert Published(s, p);
      } else {
        assert p in s.buffer || p in s.received;
      }
      PublishedStays(content, s, step, p);
    }
  }

  lemma StepInventsNothing(content: Content, s: State, step: Step)
    requires Genuine(content, s) && NothingInvented(content, s) && Enabled(s, step) && Numbered(content)
    ensures NothingInvented(content, Next(content, s, step))
  {
    PendingStaysPublished(content, s, step);
    SentStaysPublished(content, s, step);
  }

  lemma StepStaysGenuine(content: Content, s: State, step: Step)
    requires Genuine(content, s) && Enabled(s, step) && Numbered(content)
    ensures Genuine(content, Next(content, s, step))
  {
  }

  lemma StepKeepsInv(content: Content, s: State, step: Step)
    requires Inv(content, s) && Enabled(s, step) && Numbered(content)
    ensures Inv(content, Next(content, s, step))
  {
    StepMissesNothing(content, s, step);
    StepStaysGenuine(content, s, step);
    StepInventsNothing(content, s, step);
  }

  lemma {:induction false} RunKeepsInv(content: Content, states: seq<State>, steps: seq<Step>, i: nat)
    requires IsRun(content, states, steps) && i < |states|
    ensures Inv(content, states[i])
  {
    if i > 0 {
      RunKeepsInv(content, states, steps, i - 1);
      StepKeepsInv(content, states[i - 1], steps[i - 1]);
    }
  }

  /** The receiver has seen the end of the channel: closed without cancellation, and drained. */
  ghost predicate SawEnd(s: State) {
    s.reader == Exited(false) && s.buffer == []
  }

  /** A receiver that has seen the end of a channel that was not cancelled has received the piece map
      of the task: every piece, and nothing else. */
  lemma ClosedStreamIsComplete(content: Content, states: seq<State>, steps: seq<Step>, i: nat)
    requires IsRun(content, states, steps) && i < |states| && SawEnd(states[i])
    ensures Streams(states[i].cdn, states[i].received)
  {
    RunKeepsInv(content, states, steps, i);
    var s := states[i];
    forall n | n in s.cdn ensures s.cdn[n].num == n && s.cdn[n] in s.received {
      assert Seen(s, s.cdn[n]);
    }
  }

  /** A replay is in increasing order: what has been received is, and comes before all that is pending. */
  ghost predicate ReplaysInOrder(s: State) {
    s.reader.Replaying? ==>
      && s.buffer == []
      && (forall a, b | 0 <= a < b < |s.received| :: s.received[a].num < s.received[b].num)
      && (forall a, n | 0 <= a < |s.received| && n in s.pending :: s.received[a].num < n)
  }

  lemma StepReplaysInOrder(content: Content, s: State, step: Step)
    requires ReplaysInOrder(s) && Inv(content, s) && Enabled(s, step) && Numbered(content)
    ensures ReplaysInOrder(Next(content, s, step))
  {
    if step.Emit? && s.reader.Replaying? {
      EmitReplaysInOrder(content, s, step.n);
    }
  }

  lemma EmitReplaysInOrder(content: Content, s: State, n: Uint32)
    requires ReplaysInOrder(s) && Genuine(content, s) && Numbered(content) && s.reader.Replaying? && IsLeast(s.pending, n)
    ensures ReplaysInOrder(Emitted(s, n))
  {
    assert s.pending[n].num == n;
  }

  /** A receiver that joined when the task was done gets its pieces in increasing order. */
  lemma {:induction false} ReplayIsSorted(content: Content, states: seq<State>, steps: seq<Step>, i: nat)
    requires IsRun(content, states, steps) && i < |states|
    ensures ReplaysInOrder(states[i])
  {
    if i > 0 {
      ReplayIsSorted(content, states, steps, i - 1);
      RunKeepsInv(content, states, steps, i - 1);
      StepReplaysInOrder(content, states[i - 1], steps[i - 1]);
    }
  }

  /** From the CDN's disk to the scheduler: when a successful seeding streams what it received until
      the end of the channel, a fresh task of the scheduler ends up with the CDN's pieces, number by
      number and field by field, and with no others. */
  lemma SchedulerGetsTheCdnsPieces(content: Content, states: seq<State>, steps: seq<Step>, i: nat,
                                   run: CdnRun, s: Scheduler, tiny: Option<seq<nat>>)
    requires IsRun(content, states, steps) && i < |states| && SawEnd(states[i])
    requires run.pieces == states[i].received && run.Succeeds()
    requires s.task.status != Success && s.task.pieces == map[] && s.Knows(run.peerId, run.hostId)
    ensures var cdn, task := states[i].cdn, Receive(s, None, Messages(run), Eof, tiny).0.task;
            && task.status == Success
            && (forall n | n in cdn :: ToInt32(n) in task.pieces && SamePiece(cdn[n], task.pieces[ToInt32(n)]))
            && (forall k | k in task.pieces :: exists n :: n in cdn && ToInt32(n) == k)
  {
    ClosedStreamIsComplete(content, states, steps, i);
    SeedingIsExact(s, run, Messages(run), Eof, tiny);
    SeedingGivesThePieceMap(states[i].cdn, run.pieces);
  }

  // ---------------------------------------------------------------------------------------------
  // Whether publishing blocks
  // ---------------------------------------------------------------------------------------------

  /** readLoop has the mutex and more pieces to send than the channel will ever take. */
  predicate Stuck(s: State) {
    s.gone && (s.reader.Locked? || s.reader.Draining?) && |s.pending| > CAPACITY - |s.buffer|
  }

  lemma OneLess(pieces: PieceMap, n: Uint32)
    requires n in pieces
    ensures |pieces - {n}| == |pieces| - 1
  {
    assert (pieces - {n}).Keys == pieces.Keys - {n};
  }

  lemma StuckStays(content: Content, s: State, step: Step)
    requires Stuck(s) && Enabled(s, step) && |s.buffer| <= CAPACITY
    ensures Stuck(Next(content, s, step)) && |Next(content, s, step).buffer| <= CAPACITY
    ensures s.manager.Publishing? ==> Next(content, s, step).manager == s.manager
  {
    if step.Emit? {
      OneLess(s.pending, step.n);
    }
  }

  /** What every step keeps, a path keeps. */
  lemma {:induction false} PathKeeps(content: Content, states: seq<State>, steps: seq<Step>, i: nat, j: nat, kept: State -> bool)
    requires IsPath(content, states, steps) && i <= j < |states| && kept(states[i])
    requires forall s, step | kept(s) && Enabled(s, step) :: kept(Next(content, s, step))
    ensures kept(states[j])
    decreases j
  {
    if i < j {
      PathKeeps(content, states, steps, i, j - 1, kept);
    }
  }

  /** The publisher that was stuck in `was` still is. */
  predicate StuckSince(was: State, s: State) {
    Stuck(s) && |s.buffer| <= CAPACITY && s.manager.Publishing? && s.manager == was.manager
  }

  lemma StuckForEver(content: Content, states: seq<State>, steps: seq<Step>, i: nat, j: nat)
    requires IsPath(content, states, steps) && i <= j < |states|
    requires Stuck(states[i]) && |states[i].buffer| <= CAPACITY && states[i].manager.Publishing?
    ensures StuckSince(states[i], states[j])
  {
    var was := states[i];
    forall s, step | StuckSince(was, s) && Enabled(s, step) ensures StuckSince(was, Next(content, s, step)) {
      StuckStays(content, s, step);
    }
    PathKeeps(content, states, steps, i, j, s => StuckSince(was, s));
  }

  /** How far readLoop is from giving the mutex back. */
  function Work(s: State): nat {
    match s.reader
    case Locked => 2 * |s.pending| + |s.buffer| + 3
    case Draining => 2 * |s.pending| + |s.buffer| + 1
    case Decided => 1
    case _ => 0
  }

  lemma LeastPiece(pieces: PieceMap) returns (n: Uint32)
    requires pieces != map[]
    ensures IsLeast(pieces, n)
    decreases |pieces|
  {
    var some :| some in pieces;
    if m :| m in pieces && m < some {
      OneLess(pieces, some);
      assert m in pieces - {some};
      n := LeastPiece(pieces - {some});
      assert n <= m && forall x | x in pieces :: x == some || x in pieces - {some};
    } else {
      n := some;
    }
  }

  /** What readLoop or the receiver can do next while pieces are being sent. */
  lemma NextOfDraining(s: State) returns (step: Step)
    requires s.reader.Draining? && !Stuck(s) && |s.buffer| <= CAPACITY
    ensures Enabled(s, step) && (step.Emit? || step.TakeOut? || step.EndDraining?)
  {
    if s.pending == map[] {
      step := EndDraining;
    } else if |s.buffer| < CAPACITY {
      var n := LeastPiece(s.pending);
      step := Emit(n);
    } else {
      assert s.pending.Keys != {};
      step := TakeOut;
    }
  }

  /** The step brings readLoop nearer to giving the mutex back. */
  ghost predicate Eases(content: Content, s: State, step: Step) {
    && Enabled(s, step)
    && var q := Next(content, s, step);
       q.manager == s.manager && !Stuck(q) && |q.buffer| <= CAPACITY && Work(q) < Work(s)
  }

  lemma SendingEases(content: Content, s: State, step: Step)
    requires s.reader.Draining? && !Stuck(s) && |s.buffer| <= CAPACITY
    requires Enabled(s, step) && (step.Emit? || step.TakeOut? || step.EndDraining?)
    ensures Eases(content, s, step)
  {
    if step.Emit? {
      OneLess(s.pending, step.n);
    }
  }

  lemma Unblocks(content: Content, s: State) returns (step: Step)
    requires s.manager.Publishing? && s.reader.HoldsMutex() && !Stuck(s) && |s.buffer| <= CAPACITY
    ensures Eases(content, s, step)
  {
    match s.reader
    case Locked => step := Check;
    case Decided => step := StartWaiting;
    case Draining =>
      step := NextOfDraining(s);
      SendingEases(content, s, step);
  }

  /** readLoop and the receiver can go on so that the waiting PublishPiece hands its piece over. */
  ghost predicate CanProceed(content: Content, s: State) {
    exists states, steps :: IsPath(content, states, steps) && states[0] == s && Enabled(states[|steps|], Hand)
  }

  lemma {:induction false} Proceeds(content: Content, s: State)
    requires s.manager.Publishing? && !Stuck(s) && |s.buffer| <= CAPACITY
    ensures CanProceed(content, s)
    decreases Work(s)
  {
    if s.reader.HoldsMutex() {
      var step := Unblocks(content, s);
      var q := Next(content, s, step);
      Proceeds(content, q);
      var states, steps :| IsPath(content, states, steps) && states[0] == q && Enabled(states[|steps|], Hand);
      PathFrom(content, s, step, states, steps);
    } else {
      var states, steps: seq<Step> := [s], [];
      assert IsPath(content, states, steps) && Enabled(states[|steps|], Hand);
    }
  }

  lemma PathFrom(content: Content, s: State, step: Step, states: seq<State>, steps: seq<Step>)
    requires Enabled(s, step) && IsPath(content, states, steps) && states[0] == Next(content, s, step)
    ensures IsPath(content, [s] + states, [step] + steps)
  {
    forall i | 0 <= i < |[step] + steps|
      ensures Enabled(([s] + states)[i], ([step] + steps)[i])
              && ([s] + states)[i + 1] == Next(content, ([s] + states)[i], ([step] + steps)[i])
    {
      assert i > 0 ==> Enabled(states[i - 1], steps[i - 1]) && states[i] == Next(content, states[i - 1], steps[i - 1]);
    }
  }

  /** A PublishPiece that waits for the mutex of the subscriber, with the lock of the task in its
      hands, waits for ever exactly when the receiver has gone and readLoop has more pieces to send
      than the channel has room for; otherwise readLoop and the receiver can let it go on. */
  lemma PublishingBlocksExactlyWhenStuck(content: Content, states: seq<State>, steps: seq<Step>, i: nat)
    requires IsRun(content, states, steps) && i < |states| && states[i].manager.Publishing?
    ensures Stuck(states[i]) ==> forall j | i <= j < |states| :: states[j].manager == states[i].manager
    ensures CanProceed(content, states[i]) <==> !Stuck(states[i])
    ensures Stuck(states[i]) <==>
              && states[i].gone && (states[i].reader.Locked? || states[i].reader.Draining?)
              && |states[i].pending| + |states[i].buffer| > 100
  {
    RunKeepsInv(content, states, steps, i);
    if Stuck(states[i]) {
      forall j | i <= j < |states| ensures states[j].manager == states[i].manager {
        StuckForEver(content, states, steps, i, j);
      }
      if CanProceed(content, states[i]) {
        var more, moves :| IsPath(content, more, moves) && more[0] == states[i] && Enabled(more[|moves|], Hand);
        StuckForEver(content, more, moves, 0, |moves|);
        assert false;
      }
    } else {
      Proceeds(content, states[i]);
    }
  }

  /** The run with one more step. */
  lemma Extend(content: Content, states: seq<State>, steps: seq<Step>, step: Step) returns (longer: seq<State>, more: seq<Step>)
    requires IsRun(content, states, steps) && Enabled(states[|steps|], step)
    ensures IsRun(content, longer, more) && longer[|more|] == Next(content, states[|steps|], step)
  {
    longer, more := states + [Next(content, states[|steps|], step)], steps + [step];
  }

  ghost function FirstPieces(content: Content, k: Uint32): PieceMap {
    map n: Uint32 | 0 <= n < k :: content(n)
  }

  lemma FirstPiecesGrow(content: Content, k: Uint32)
    requires k < TWO_32 - 1
    ensures FirstPieces(content, k + 1) == FirstPieces(content, k)[k := content(k)]
    ensures |FirstPieces(content, k + 1)| == |FirstPieces(content, k)| + 1
  {
    var fewer, more := FirstPieces(content, k), FirstPieces(content, k + 1);
    assert more == fewer[k := content(k)];
    assert more - {k} == fewer;
    OneLess(more, k);
  }

  /** Pieces can be published while nobody watches. */
  lemma {:induction false} PublishesMany(content: Content, k: Uint32) returns (states: seq<State>, steps: seq<Step>)
    requires Numbered(content) && k < TWO_32 - 1
    ensures IsRun(content, states, steps) && states[|steps|] == INITIAL.(cdn := FirstPieces(content, k))
    ensures |FirstPieces(content, k)| == k
  {
    if k == 0 {
      assert FirstPieces(content, 0) == map[];
      states, steps := [INITIAL], [];
    } else {
      states, steps := PublishesMany(content, k - 1);
      FirstPiecesGrow(content, k - 1);
      states, steps := Extend(content, states, steps, Publish(k - 1));
      states, steps := Extend(content, states, steps, Hand);
      states, steps := Extend(content, states, steps, Signal);
      states, steps := Extend(content, states, steps, StoreProgress);
    }
  }

  /** A run in which a subscriber waits, is given a piece, and receives it and the end of the channel. */
  lemma StreamCanEnd(content: Content, n: Uint32) returns (states: seq<State>, steps: seq<Step>)
    requires Numbered(content)
    ensures IsRun(content, states, steps) && SawEnd(states[|steps|])
    ensures states[|steps|].received == [content(n)] && states[|steps|].cdn == map[n := content(n)]
  {
    states, steps := SentToReceiver(content, n);
    states, steps := Extend(content, states, steps, MarkClosed);
    states, steps := Extend(content, states, steps, SignalClosed);
    states, steps := Extend(content, states, steps, CloseDone);
    states, steps := Extend(content, states, steps, SeeDone);
    states, steps := Extend(content, states, steps, TakeOut);
  }

  lemma SentToReceiver(content: Content, n: Uint32) returns (states: seq<State>, steps: seq<Step>)
    requires Numbered(content)
    ensures IsRun(content, states, steps)
    ensures states[|steps|] == State(map[n := content(n)], Idle, Top, map[], [content(n)], [], false)
  {
    states, steps := GivenWhileWaiting(content, n);
    states, steps := Extend(content, states, steps, Relock);
    assert n in states[|steps|].pending;
    states, steps := Extend(content, states, steps, Check);
    assert IsLeast(states[|steps|].pending, n);
    states, steps := Extend(content, states, steps, Emit(n));
    assert states[|steps|].pending == map[];
    states, steps := Extend(content, states, steps, EndDraining);
  }

  /** A run in which a subscriber with a piece to send is cancelled first: the piece is not sent. */
  lemma CancelDropsPieces(content: Content, n: Uint32) returns (states: seq<State>, steps: seq<Step>)
    requires Numbered(content)
    ensures IsRun(content, states, steps) && states[|steps|].reader == Exited(true)
    ensures states[|steps|].cdn == map[n := content(n)] && states[|steps|].buffer == [] == states[|steps|].received
  {
    states, steps := [INITIAL], [];
    states, steps := Extend(content, states, steps, Watch);
    states, steps := Extend(content, states, steps, Publish(n));
    states, steps := Extend(content, states, steps, Hand);
    states, steps := Extend(content, states, steps, Signal);
    states, steps := Extend(content, states, steps, StoreProgress);
    states, steps := Extend(content, states, steps, Cancel);
  }

  lemma GivenWhileWaiting(content: Content, n: Uint32) returns (states: seq<State>, steps: seq<Step>)
    requires Numbered(content)
    ensures IsRun(content, states, steps)
    ensures states[|steps|] == State(map[n := content(n)], Idle, Woken, map[n := content(n)], [], [], false)
  {
    states, steps := [INITIAL], [];
    states, steps := Extend(content, states, steps, Watch);
    states, steps := Extend(content, states, steps, LockAndCheck);
    states, steps := Extend(content, states, steps, Check);
    states, steps := Extend(content, states, steps, StartWaiting);
    states, steps := Extend(content, states, steps, Publish(n));
    states, steps := Extend(content, states, steps, Hand);
    states, steps := Extend(content, states, steps, Signal);
    states, steps := Extend(content, states, steps, StoreProgress);
  }

  /** It does happen: a subscriber joins when more pieces are there than its channel holds, and its
      receiver goes away. */
  lemma StuckIsReachable(content: Content) returns (states: seq<State>, steps: seq<Step>)
    requires Numbered(content)
    ensures IsRun(content, states, steps) && Stuck(states[|steps|]) && states[|steps|].manager.Publishing?
  {
    states, steps := PublishesMany(content, CAPACITY + 1);
    states, steps := Extend(content, states, steps, Watch);
    states, steps := Extend(content, states, steps, Leave);
    states, steps := Extend(content, states, steps, LockAndCheck);
    states, steps := Extend(content, states, steps, Publish(CAPACITY + 1));
  }

  // ---------------------------------------------------------------------------------------------
  // Whether the stream ends
  // ---------------------------------------------------------------------------------------------

  /** readLoop is about to wait, or waits. */
  predicate Asleep(r: Reader) {
    r.Decided? || r.Waiting?
  }

  lemma NobodySignals(content: Content, s: State, step: Step)
    requires (s.manager.SignalledClosed? || s.manager.Over?) && Enabled(s, step)
    ensures var q := Next(content, s, step);
            (q.manager.SignalledClosed? || q.manager.Over?) && (Asleep(q.reader) <==> Asleep(s.reader))
  {
  }

  lemma {:induction false} AfterCloseSignal(content: Content, states: seq<State>, steps: seq<Step>, i: nat, j: nat)
    requires IsRun(content, states, steps) && i < j < |states| && steps[i].SignalClosed?
    ensures states[j].manager.SignalledClosed? || states[j].manager.Over?
    ensures Asleep(states[j].reader) <==> states[i].reader.Decided?
    decreases j
  {
    if i < j - 1 {
      AfterCloseSignal(content, states, steps, i, j - 1);
      NobodySignals(content, states[j - 1], steps[j - 1]);
    } else {
      assert Enabled(states[i], steps[i]) && states[j] == Next(content, states[i], steps[i]);
    }
  }

  /** Close does not hold the mutex when it signals, so its signal can fall between the test of the
      waiting loop and the registration of Wait. In every run that is exactly when the stream does
      not end: readLoop then sleeps for ever, and in all other cases it never sleeps again. */
  lemma StreamHangsExactlyInTheWindow(content: Content, states: seq<State>, steps: seq<Step>, i: nat)
    requires IsRun(content, states, steps) && i < |steps| && steps[i].SignalClosed?
    ensures states[i].reader.Decided? ==> forall j | i < j < |states| :: Asleep(states[j].reader)
    ensures !states[i].reader.Decided? ==> forall j | i < j < |states| :: !Asleep(states[j].reader)
  {
    forall j | i < j < |states| ensures Asleep(states[j].reader) <==> states[i].reader.Decided? {
      AfterCloseSignal(content, states, steps, i, j);
    }
  }

  /** Such a run exists: the subscriber finds nothing to send just as the task is published. */
  lemma WindowIsReachable(content: Content) returns (states: seq<State>, steps: seq<Step>)
    requires Numbered(content)
    ensures IsRun(content, states, steps)
    ensures exists i :: 0 <= i < |steps| && steps[i].SignalClosed? && states[i].reader.Decided?
  {
    var s0 := INITIAL;
    var s1 := s0.(reader := Top);
    var s2 := s0.(reader := Locked);
    var s3 := s0.(reader := Decided);
    var s4 := s3.(manager := MarkedClosed);
    var s5 := s3.(manager := SignalledClosed);
    states := [s0, s1, s2, s3, s4, s5];
    steps := [Watch, LockAndCheck, Check, MarkClosed, SignalClosed];
    assert steps[4].SignalClosed? && states[4].reader.Decided?;
  }

  /** The receiver has gone before it could take all that is to be sent. */
  predicate Blocked(s: State) {
    s.gone && if s.reader.Replaying? then s.pending != map[] else |s.pending| > CAPACITY - |s.buffer|
  }

  /** How many steps readLoop and the receiver have left once everything is published. */
  function StepsLeft(s: State): nat {
    var pieces := 2 * |s.pending| + |s.buffer|;
    match s.reader
    case Exited(_) => |s.buffer|
    case Top => if s.pending == map[] then |s.buffer| + 1 else pieces + 4
    case Draining => pieces + 3
    case Replaying => pieces + 3
    case Locked => pieces + 4
    case Woken => pieces + 5
    case _ => pieces + 6
  }

  predicate IsReadingStep(step: Step) {
    step.Cancel? || step.SeeDone? || step.LockAndCheck? || step.Check? || step.StartWaiting? || step.Relock?
    || step.Emit? || step.EndDraining? || step.TakeOut?
  }

  ghost predicate Advances(content: Content, s: State, step: Step)
    requires Enabled(s, step)
  {
    var q := Next(content, s, step);
    StepsLeft(q) < StepsLeft(s) && !Asleep(q.reader) && (q.reader == Exited(true) || !Blocked(q))
  }

  lemma EmitAdvances(content: Content, s: State, n: Uint32)
    requires !Blocked(s) && |s.buffer| <= CAPACITY && Enabled(s, Emit(n))
    ensures Advances(content, s, Emit(n))
  {
    OneLess(s.pending, n);
  }

  lemma ReadingStepAdvances(content: Content, s: State, step: Step)
    requires s.manager.Over? && !Asleep(s.reader) && !Blocked(s) && |s.buffer| <= CAPACITY
    requires IsReadingStep(step) && Enabled(s, step)
    ensures Advances(content, s, step)
  {
    match step
    case Emit(n) => EmitAdvances(content, s, n);
    case _ =>
  }

  /** Once the task is published, a reader that is neither asleep nor blocked runs to its end: it or
      the receiver can always take a step, and every such step brings the end nearer. */
  lemma AwakeReaderEnds(content: Content, s: State)
    requires Inv(content, s) && s.manager.Over? && !s.reader.Absent? && !s.reader.Exited?
    requires !Asleep(s.reader) && !Blocked(s)
    ensures exists step :: IsReadingStep(step) && Enabled(s, step)
    ensures forall step | IsReadingStep(step) && Enabled(s, step) :: Advances(content, s, step)
  {
    forall step | IsReadingStep(step) && Enabled(s, step) ensures Advances(content, s, step) {
      ReadingStepAdvances(content, s, step);
    }
    AwakeReaderCanStep(s);
  }

  lemma AwakeReaderCanStep(s: State)
    requires s.manager.Over? && !s.reader.Absent? && !s.reader.Exited? && |s.buffer| <= CAPACITY
    requires !Asleep(s.reader) && !Blocked(s)
    ensures exists step :: IsReadingStep(step) && Enabled(s, step)
  {
    var step :=
      if s.reader.Top? then SeeDone
      else if s.reader.Locked? then Check
      else if s.reader.Woken? then Relock
      else EndDraining;
    if s.reader.Draining? {
      step := NextOfDraining(s);
    } else if s.reader.Replaying? && s.pending != map[] {
      var n := LeastPiece(s.pending);
      step := Emit(n);
    }
    assert IsReadingStep(step) && Enabled(s, step);
  }

  /** The reader is cancelled, or it is blocked. */
  predicate NeverEnds(s: State) {
    || s.reader == Exited(true)
    || (s.manager.Over? && Blocked(s) && !s.reader.Absent? && !s.reader.Exited? && |s.buffer| <= CAPACITY)
  }

  lemma StepNeverEnds(content: Content, s: State, step: Step)
    requires NeverEnds(s) && Enabled(s, step)
    ensures NeverEnds(Next(content, s, step))
  {
    if step.Emit? {
      OneLess(s.pending, step.n);
    }
  }

  /** A blocked reader never ends its stream, unless it is cancelled before it begins to send. */
  lemma {:induction false} BlockedNeverEnds(content: Content, states: seq<State>, steps: seq<Step>, i: nat, j: nat)
    requires IsRun(content, states, steps) && i <= j < |states|
    requires states[i].manager.Over? && Blocked(states[i]) && !states[i].reader.Absent? && !states[i].reader.Exited?
    ensures NeverEnds(states[j]) && !SawEnd(states[j])
    decreases j
  {
    if i < j {
      BlockedNeverEnds(content, states, steps, i, j - 1);
      StepNeverEnds(content, states[j - 1], steps[j - 1]);
    } else {
      RunKeepsInv(content, states, steps, i);
      assert NeverEnds(states[i]);
    }
  }
}
