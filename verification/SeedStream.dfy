/**
  The seeding protocol between a CDN node and a scheduler.

  The CDN (`ObtainSeeds`, cdn/rpcserver/rpcserver.go) sends one message per piece and, when the task
  has succeeded, a last message marked done. The scheduler (`receivePiece`, scheduler/supervisor/cdn.go)
  turns the stream into the state of its task and of the CDN's peer. The module has both ends as
  methods, and proves what the composition of the two gives the scheduler.

  What the CDN goes through is an oracle, a `CdnRun`; so is the download of a tiny file.
 */
module SeedStream {
  import opened Wrappers

  // ---------------------------------------------------------------------------------------------
  // Pieces on the two sides
  // ---------------------------------------------------------------------------------------------

  const TWO_31: int := 0x8000_0000
  const TWO_32: int := 0x1_0000_0000

  type Uint32 = n: int | 0 <= n < TWO_32

  /** Go's conversion of a uint32 to an int32. */
  function ToInt32(n: Uint32): (r: int)
    ensures -TWO_31 <= r < TWO_31 && (r == n || r == n - TWO_32)
  {
    if n < TWO_31 then n else n - TWO_32
  }

  /** Go's int32 addition of one. */
  function NextInt32(n: int): (r: int)
    ensures -TWO_31 <= n < TWO_31 ==> -TWO_31 <= r < TWO_31 && (r == n + 1 || r == n + 1 - TWO_32)
  {
    if n == TWO_31 - 1 then -TWO_31 else n + 1
  }

  datatype CdnPiece = CdnPiece(num: Uint32, md5: string, pieceStart: nat, originStart: nat, len: Uint32, style: nat)

  type PieceMap = map<Uint32, CdnPiece>

  datatype BasePiece = BasePiece(pieceNum: int, rangeStart: nat, rangeSize: nat, pieceMd5: string, pieceOffset: nat, pieceStyle: nat)

  function ToBase(p: CdnPiece): BasePiece {
    BasePiece(ToInt32(p.num), p.pieceStart, p.len, p.md5, p.originStart, p.style)
  }

  /** The scheduler's record of a piece says what the CDN's says. */
  predicate SamePiece(c: CdnPiece, b: BasePiece) {
    && b.pieceNum == ToInt32(c.num)
    && b.rangeStart == c.pieceStart && b.rangeSize == c.len && b.pieceOffset == c.originStart
    && b.pieceMd5 == c.md5 && b.pieceStyle == c.style
  }

  datatype PieceSeed =
    | Piece(peerId: string, hostId: string, info: BasePiece, contentLength: int, total: int)
    | Done(peerId: string, hostId: string, contentLength: int, total: int)

  // ---------------------------------------------------------------------------------------------
  // The CDN
  // ---------------------------------------------------------------------------------------------

  datatype Code = ResourceLacked | CDNTaskRegistryFail | CDNTaskDownloadFail | CDNError

  datatype Register = Registered | ResourcesLacked | RegisterFails
  datatype SeedTask = SeedTask(sourceFileLength: int, totalPieceCount: int, success: bool)

  /** What a call of ObtainSeeds meets: the registration, the length and piece count of the task as
      the i-th piece goes out, the pieces, and the task looked up at the end. */
  datatype CdnRun = CdnRun(
    peerId: string,
    hostId: string,
    register: Register,
    during: nat -> SeedTask,
    pieces: seq<CdnPiece>,
    final: Option<SeedTask>)
  {
    predicate Succeeds() {
      register.Registered? && final.Some? && final.value.success
    }
  }

  class SeedChannel {
    var sent: seq<PieceSeed>

    method Send(m: PieceSeed)
      modifies this
      ensures sent == old(sent) + [m]
    {
      sent := sent + [m];
    }
  }

  function PieceMessage(run: CdnRun, i: nat): PieceSeed
    requires i < |run.pieces|
  {
    Piece(run.peerId, run.hostId, ToBase(run.pieces[i]), run.during(i).sourceFileLength, run.during(i).totalPieceCount)
  }

  function PieceMessages(run: CdnRun): seq<PieceSeed> {
    seq(|run.pieces|, i requires 0 <= i < |run.pieces| => PieceMessage(run, i))
  }

  function DoneMessage(run: CdnRun): PieceSeed
    requires run.final.Some?
  {
    Done(run.peerId, run.hostId, run.final.value.sourceFileLength, run.final.value.totalPieceCount)
  }

  function Messages(run: CdnRun): seq<PieceSeed> {
    if !run.register.Registered? then []
    else if run.Succeeds() then PieceMessages(run) + [DoneMessage(run)]
    else PieceMessages(run)
  }

  function Failure(run: CdnRun): Option<Code> {
    match run.register
    case ResourcesLacked => Some(ResourceLacked)
    case RegisterFails => Some(CDNTaskRegistryFail)
    case Registered =>
      if run.final.None? then Some(CDNError)
      else if !run.final.value.success then Some(CDNTaskDownloadFail)
      else None
  }

  method ObtainSeeds(run: CdnRun, psc: SeedChannel) returns (err: Option<Code>)
    modifies psc
    ensures psc.sent == old(psc.sent) + Messages(run)
    ensures err == Failure(run)
    ensures err == None <==> run.Succeeds()
  {
    if run.register.ResourcesLacked? {
      return Some(ResourceLacked);
    } else if run.register.RegisterFails? {
      return Some(CDNTaskRegistryFail);
    }
    for i := 0 to |run.pieces|
      invariant psc.sent == old(psc.sent) + PieceMessages(run)[..i]
    {
      psc.Send(PieceMessage(run, i));
      assert PieceMessages(run)[..i + 1] == PieceMessages(run)[..i] + [PieceMessage(run, i)];
    }
    assert PieceMessages(run)[..|run.pieces|] == PieceMessages(run);
    if run.final.None? {
      return Some(CDNError);
    }
    if !run.final.value.success {
      return Some(CDNTaskDownloadFail);
    }
    psc.Send(DoneMessage(run));
    err := None;
  }

  // ---------------------------------------------------------------------------------------------
  // The scheduler
  // ---------------------------------------------------------------------------------------------

  datatype TaskStatus = Waiting | Running | Seeding | Success | Zombie | Fail
  datatype PeerStatus = PeerWaiting | PeerRunning | PeerZombie | PeerFail | PeerSuccess

  const TINY_FILE_SIZE := 128

  datatype Task = Task(
    pieces: map<int, BasePiece>,
    contentLength: int,
    totalPieceCount: int,
    status: TaskStatus,
    directPiece: seq<nat>)
  {
    predicate CanSchedule() {
      status == Seeding || status == Success
    }

    function GetOrAddPiece(p: BasePiece): Task {
      if p.pieceNum in pieces then this else this.(pieces := pieces[p.pieceNum := p])
    }
  }

  datatype Peer = Peer(hostId: string, status: PeerStatus, finished: int)

  datatype RecvError = RegisterFail | DownloadFail | Unknown | InvokeFail | InitPeerFail | EofTooEarly
  datatype RecvResult = Ok(peerId: string) | Err(error: RecvError)

  /** The end of a stream: closed, a coded error of the CDN, or a failed connection. */
  datatype End = Eof | Coded(code: Code) | Broken

  function ErrorOf(end: End): RecvError {
    match end
    case Eof => EofTooEarly
    case Coded(CDNTaskRegistryFail) => RegisterFail
    case Coded(CDNTaskDownloadFail) => DownloadFail
    case Coded(_) => Unknown
    case Broken => InvokeFail
  }

  datatype Scheduler = Scheduler(task: Task, peers: map<string, Peer>, hosts: set<string>, configured: set<string>) {

    /** A host for the CDN's peer can be found. */
    predicate Knows(peerId: string, hostId: string) {
      peerId in peers || hostId in hosts || hostId in configured
    }

    function InitPeer(m: PieceSeed): Scheduler {
      var peer := if m.peerId in peers then peers[m.peerId] else Peer(m.hostId, PeerWaiting, 0);
      this.(peers := peers[m.peerId := peer.(status := PeerRunning)],
            hosts := if m.peerId in peers then hosts else hosts + {m.hostId},
            task := if task.CanSchedule() then task else task.(status := Seeding))
    }

    function AddPiece(peerId: string, info: BasePiece): Scheduler
      requires peerId in peers
    {
      var peer := peers[peerId];
      var finished := NextInt32(info.pieceNum);
      this.(peers := peers[peerId := if finished > peer.finished then peer.(finished := finished) else peer],
            task := task.GetOrAddPiece(info))
    }

    function Finish(peerId: string, m: PieceSeed, tiny: Option<seq<nat>>): Scheduler
      requires peerId in peers
    {
      this.(peers := peers[peerId := peers[peerId].(status := PeerSuccess)],
            task := task.(totalPieceCount := m.total, contentLength := m.contentLength, status := Success,
            directPiece := if m.contentLength <= TINY_FILE_SIZE && tiny.Some? && |tiny.value| == m.contentLength
              then tiny.value else task.directPiece))
    }
  }

  /** The meaning of a stream for a scheduler whose CDN peer is `peer`, if it has one already. */
  function Receive(s: Scheduler, peer: Option<string>, msgs: seq<PieceSeed>, end: End, tiny: Option<seq<nat>>): (Scheduler, RecvResult)
    requires peer.Some? ==> peer.value in s.peers
    decreases |msgs|
  {
    if msgs == [] then
      (s, if end.Eof? && peer.Some? && s.task.status == Success then Ok(peer.value) else Err(ErrorOf(end)))
    else
      var m := msgs[0];
      if peer.None? && !s.Knows(m.peerId, m.hostId) then (s, Err(InitPeerFail))
      else
        var peerId := if peer.Some? then peer.value else m.peerId;
        var s1 := if peer.Some? then s else s.InitPeer(m);
        match m
        case Done(_, _, _, _) => (s1.Finish(peerId, m, tiny), Ok(peerId))
        case Piece(_, _, info, _, _) => Receive(s1.AddPiece(peerId, info), Some(peerId), msgs[1..], end, tiny)
  }

  class SeedReceiver {
    var task: Task
    var peers: map<string, Peer>
    var hosts: set<string>
    const configured: set<string>

    ghost function View(): Scheduler
      reads this
    {
      Scheduler(task, peers, hosts, configured)
    }

    /** initCDNPeer; None is its error. */
    method InitCDNPeer(m: PieceSeed) returns (peerId: Option<string>)
      modifies this
      ensures peerId == if old(View()).Knows(m.peerId, m.hostId) then Some(m.peerId) else None
      ensures peerId == None ==> View() == old(View())
      ensures peerId.Some? ==> && m.peerId in peers && task == old(task)
                               && View().(task := old(View()).InitPeer(m).task) == old(View()).InitPeer(m)
    {
      var peer;
      if m.peerId in peers {
        peer := peers[m.peerId];
      } else {
        if m.hostId !in hosts {
          if m.hostId !in configured {
            return None;
          }
          hosts := hosts + {m.hostId};
        }
        peer := Peer(m.hostId, PeerWaiting, 0);
      }
      peers := peers[m.peerId := peer.(status := PeerRunning)];
      peerId := Some(m.peerId);
    }

    /** A piece message: the peer's progress and the task's pieces. */
    method TakePiece(id: string, info: BasePiece)
      requires id in peers
      modifies this
      ensures View() == old(View()).AddPiece(id, info)
    {
      var finished := NextInt32(info.pieceNum);
      if finished > peers[id].finished {
        peers := peers[id := peers[id].(finished := finished)];
      }
      task := task.GetOrAddPiece(info);
    }

    /** The done message: length, count and success, and the content of a tiny file. */
    method Complete(id: string, m: PieceSeed, tiny: Option<seq<nat>>)
      requires id in peers && m.Done?
      modifies this
      ensures View() == old(View()).Finish(id, m, tiny)
    {
      task := task.(totalPieceCount := m.total, contentLength := m.contentLength, status := Success);
      peers := peers[id := peers[id].(status := PeerSuccess)];
      if task.contentLength <= TINY_FILE_SIZE && tiny.Some? && |tiny.value| == task.contentLength {
        task := task.(directPiece := tiny.value);
      }
    }

    method ReceivePiece(msgs: seq<PieceSeed>, end: End, tiny: Option<seq<nat>>) returns (r: RecvResult)
      modifies this
      ensures (View(), r) == Receive(old(View()), None, msgs, end, tiny)
    {
      var cdnPeer: Option<string> := None;
      var i := 0;
      while true
        invariant 0 <= i <= |msgs|
        invariant cdnPeer.Some? ==> cdnPeer.value in peers
        invariant Receive(View(), cdnPeer, msgs[i..], end, tiny) == Receive(old(View()), None, msgs, end, tiny)
        decreases |msgs| - i
      {
        if i == |msgs| {
          if end.Eof? && cdnPeer.Some? && task.status == Success {
            return Ok(cdnPeer.value);
          }
          return Err(ErrorOf(end));
        }
        var piece := msgs[i];
        ghost var before, had := View(), cdnPeer;
        if cdnPeer.None? {
          cdnPeer := InitCDNPeer(piece);
          if cdnPeer.None? {
            return Err(InitPeerFail);
          }
          if !task.CanSchedule() {
            task := task.(status := Seeding);
          }
        }
        var id := cdnPeer.value;
        ghost var ready := View();
        assert ready == if had.Some? then before else before.InitPeer(piece);
        match piece {
          case Done(_, _, _, _) =>
            Complete(id, piece, tiny);
            return Ok(id);
          case Piece(_, _, info, _, _) =>
            TakePiece(id, info);
        }
        assert msgs[i..][1..] == msgs[i + 1..];
        i := i + 1;
      }
    }
  }

  // ---------------------------------------------------------------------------------------------
  // The two ends together
  // ---------------------------------------------------------------------------------------------

  /** What the scheduler may see of a call of ObtainSeeds. The server returns an error as soon as the
      call does, so pieces not yet on the wire are lost; without error everything arrives in order. */
  ghost predicate Delivers(run: CdnRun, msgs: seq<PieceSeed>, end: End) {
    match Failure(run)
    case None => msgs == Messages(run) && end == Eof
    case Some(code) => msgs <= Messages(run) && end == Coded(code)
  }

  /** Of a failing run any number of messages may arrive, all of them included. */
  lemma AnyPrefixMayArrive(run: CdnRun, n: nat)
    requires n <= |Messages(run)| && Failure(run).Some?
    ensures Delivers(run, Messages(run)[..n], Coded(Failure(run).value))
  {
  }

  function AddAll(pieces: map<int, BasePiece>, more: seq<CdnPiece>): map<int, BasePiece>
    decreases |more|
  {
    if more == [] then pieces
    else
      var p := ToBase(more[0]);
      AddAll(if p.pieceNum in pieces then pieces else pieces[p.pieceNum := p], more[1..])
  }

  lemma MessagesShape(run: CdnRun)
    requires run.register.Registered?
    ensures |Messages(run)| == |run.pieces| + if run.Succeeds() then 1 else 0
    ensures forall i | 0 <= i < |run.pieces| :: Messages(run)[i] == PieceMessage(run, i)
    ensures run.Succeeds() ==> Messages(run)[|run.pieces|] == DoneMessage(run)
  {
  }

  /** What the messages say: one for each piece, with the fields of the piece and the length and piece
      count of the task at that moment, and after a success one with those of the end. */
  lemma MessagesSay(run: CdnRun)
    requires run.register.Registered?
    ensures |Messages(run)| == |run.pieces| + (if run.final.Some? && run.final.value.success then 1 else 0)
    ensures forall i | 0 <= i < |run.pieces| ::
              && Messages(run)[i].Piece? && SamePiece(run.pieces[i], Messages(run)[i].info)
              && Messages(run)[i].peerId == run.peerId && Messages(run)[i].hostId == run.hostId
              && Messages(run)[i].contentLength == run.during(i).sourceFileLength
              && Messages(run)[i].total == run.during(i).totalPieceCount
    ensures run.final.Some? && run.final.value.success ==>
              Messages(run)[|run.pieces|]
              == Done(run.peerId, run.hostId, run.final.value.sourceFileLength, run.final.value.totalPieceCount)
  {
    MessagesShape(run);
  }

  /** Past its first message a complete stream stores every remaining piece and ends in success. */
  lemma {:induction false} ReceiveRest(s: Scheduler, peerId: string, run: CdnRun, from: nat, end: End, tiny: Option<seq<nat>>)
    requires run.Succeeds() && from <= |run.pieces| && peerId in s.peers
    ensures var (s', r) := Receive(s, Some(peerId), Messages(run)[from..], end, tiny);
            && r == Ok(peerId) && peerId in s'.peers && s'.peers[peerId].status == PeerSuccess
            && s'.task.status == Success
            && s'.task.pieces == AddAll(s.task.pieces, run.pieces[from..])
            && s'.task.contentLength == run.final.value.sourceFileLength
            && s'.task.totalPieceCount == run.final.value.totalPieceCount
    decreases |run.pieces| - from
  {
    MessagesShape(run);
    var msgs := Messages(run)[from..];
    if from < |run.pieces| {
      var s1 := s.AddPiece(peerId, ToBase(run.pieces[from]));
      ReceiveRest(s1, peerId, run, from + 1, end, tiny);
      assert msgs[0] == PieceMessage(run, from) && msgs[1..] == Messages(run)[from + 1..];
      assert run.pieces[from..][1..] == run.pieces[from + 1..];
    } else {
      assert msgs == [DoneMessage(run)];
    }
  }

  /** An interrupted stream of pieces ends in an error and leaves no success behind. */
  lemma {:induction false} ReceiveCut(s: Scheduler, peer: Option<string>, msgs: seq<PieceSeed>, end: End, tiny: Option<seq<nat>>)
    requires peer.Some? ==> peer.value in s.peers
    requires forall m | m in msgs :: m.Piece?
    requires s.task.status != Success
    ensures var (s', r) := Receive(s, peer, msgs, end, tiny);
            && s'.task.status != Success
            && r == Err(if msgs == [] || peer.Some? || s.Knows(msgs[0].peerId, msgs[0].hostId) then ErrorOf(end) else InitPeerFail)
    decreases |msgs|
  {
    if msgs != [] && (peer.Some? || s.Knows(msgs[0].peerId, msgs[0].hostId)) {
      var peerId := if peer.Some? then peer.value else msgs[0].peerId;
      var s1 := if peer.Some? then s else s.InitPeer(msgs[0]);
      ReceiveCut(s1.AddPiece(peerId, msgs[0].info), Some(peerId), msgs[1..], end, tiny);
    }
  }

  /** For every CDN run, the scheduler's task succeeds if and only if the CDN's did and its host is
      known; then it has exactly the CDN's pieces, length and piece count. Otherwise the call fails
      and the task is not marked successful. */
  lemma SeedingIsExact(s: Scheduler, run: CdnRun, msgs: seq<PieceSeed>, end: End, tiny: Option<seq<nat>>)
    requires s.task.status != Success && Delivers(run, msgs, end)
    ensures var (s', r) := Receive(s, None, msgs, end, tiny);
            && (r.Ok? <==> run.Succeeds() && s.Knows(run.peerId, run.hostId))
            && (s'.task.status == Success <==> r.Ok?)
            && (r.Ok? ==>
                  && r.peerId == run.peerId && run.peerId in s'.peers && s'.peers[run.peerId].status == PeerSuccess
                  && s'.task.pieces == AddAll(s.task.pieces, run.pieces)
                  && s'.task.contentLength == run.final.value.sourceFileLength
                  && s'.task.totalPieceCount == run.final.value.totalPieceCount)
            && (r.Err? ==> r.error == if msgs == [] || s.Knows(run.peerId, run.hostId) then ErrorOf(end) else InitPeerFail)
            && (!s.Knows(run.peerId, run.hostId) ==> s' == s)
  {
    if run.register.Registered? {
      MessagesShape(run);
    }
    if !run.Succeeds() {
      ReceiveCut(s, None, msgs, end, tiny);
    } else if s.Knows(run.peerId, run.hostId) {
      if run.pieces == [] {
        assert msgs == [DoneMessage(run)];
      } else {
        var s1 := s.InitPeer(msgs[0]).AddPiece(run.peerId, ToBase(run.pieces[0]));
        assert msgs[1..] == Messages(run)[1..];
        ReceiveRest(s1, run.peerId, run, 1, end, tiny);
      }
    }
  }

  /** Which error the scheduler gets for which failure of the CDN. Without a host for the CDN's peer a
      first message is an error of its own. */
  lemma FailureIsReported(s: Scheduler, run: CdnRun, msgs: seq<PieceSeed>, end: End, tiny: Option<seq<nat>>)
    requires s.task.status != Success && Delivers(run, msgs, end)
    ensures var r := Receive(s, None, msgs, end, tiny).1;
            var unknown := msgs != [] && run.peerId !in s.peers && run.hostId !in s.hosts && run.hostId !in s.configured;
            && (unknown ==> r == Err(InitPeerFail))
            && (!unknown && run.register.ResourcesLacked? ==> r == Err(Unknown))
            && (!unknown && run.register.RegisterFails? ==> r == Err(RegisterFail))
            && (!unknown && run.register.Registered? && run.final.None? ==> r == Err(Unknown))
            && (!unknown && run.register.Registered? && run.final.Some? && !run.final.value.success ==> r == Err(DownloadFail))
            && (!unknown && run.register.Registered? && run.final.Some? && run.final.value.success ==> r == Ok(run.peerId))
  {
    SeedingIsExact(s, run, msgs, end, tiny);
    if run.register.Registered? {
      MessagesShape(run);
    }
  }

  /** A connection that breaks after any number of messages, short of the last one of a successful
      run, never yields success either. */
  lemma BrokenStreamFails(s: Scheduler, run: CdnRun, msgs: seq<PieceSeed>, tiny: Option<seq<nat>>)
    requires s.task.status != Success && msgs <= Messages(run) && |msgs| <= |run.pieces|
    ensures var (s', r) := Receive(s, None, msgs, Broken, tiny);
            && r == Err(if msgs == [] || s.Knows(run.peerId, run.hostId) then InvokeFail else InitPeerFail)
            && s'.task.status != Success
  {
    if run.register.Registered? {
      MessagesShape(run);
    }
    ReceiveCut(s, None, msgs, Broken, tiny);
  }

  /** A stream that is closed short of the done message is an error too. */
  lemma EarlyEndFails(s: Scheduler, run: CdnRun, msgs: seq<PieceSeed>, tiny: Option<seq<nat>>)
    requires s.task.status != Success && msgs <= Messages(run) && |msgs| <= |run.pieces|
    ensures var (s', r) := Receive(s, None, msgs, Eof, tiny);
            && r == Err(if msgs == [] || s.Knows(run.peerId, run.hostId) then EofTooEarly else InitPeerFail)
            && s'.task.status != Success
  {
    if run.register.Registered? {
      MessagesShape(run);
    }
    ReceiveCut(s, None, msgs, Eof, tiny);
  }

  // What becomes of the CDN's peer.

  /** The progress of a peer after some pieces: no less than before and than one past each of them, and
      one of these. */
  ghost predicate IsProgress(before: int, pieces: seq<CdnPiece>, after: int) {
    && before <= after
    && (forall p | p in pieces && ToInt32(p.num) != TWO_31 - 1 :: ToInt32(p.num) + 1 <= after)
    && (after == before || exists p :: p in pieces && ToInt32(p.num) != TWO_31 - 1 && after == ToInt32(p.num) + 1)
  }

  /** Only the peer and the task have changed, and the peer is on the same host. */
  ghost predicate SamePeers(s: Scheduler, s': Scheduler, peerId: string) {
    && s'.hosts == s.hosts && s'.configured == s.configured && s'.peers.Keys == s.peers.Keys
    && (forall p | p in s.peers && p != peerId :: s'.peers[p] == s.peers[p])
    && (peerId in s.peers ==> s'.peers[peerId].hostId == s.peers[peerId].hostId)
  }

  lemma ProgressByOne(before: int, p: CdnPiece, rest: seq<CdnPiece>, after: int)
    requires before >= -TWO_31
    requires IsProgress(if NextInt32(ToInt32(p.num)) > before then NextInt32(ToInt32(p.num)) else before, rest, after)
    ensures IsProgress(before, [p] + rest, after)
  {
    assert p in [p] + rest;
    assert forall x | x in rest :: x in [p] + rest;
  }

  lemma AddPieceKeepsPeers(s: Scheduler, peerId: string, p: CdnPiece)
    requires peerId in s.peers
    ensures var s1, next := s.AddPiece(peerId, ToBase(p)), NextInt32(ToInt32(p.num));
            && SamePeers(s, s1, peerId) && s1.task.directPiece == s.task.directPiece
            && s1.peers[peerId].finished == if next > s.peers[peerId].finished then next else s.peers[peerId].finished
  {
  }

  lemma SamePeersChain(s: Scheduler, s1: Scheduler, s2: Scheduler, peerId: string)
    requires SamePeers(s, s1, peerId) && SamePeers(s1, s2, peerId)
    ensures SamePeers(s, s2, peerId)
  {
  }

  lemma ReceiveNext(s: Scheduler, peerId: string, run: CdnRun, from: nat, end: End, tiny: Option<seq<nat>>)
    requires run.Succeeds() && from < |run.pieces| && peerId in s.peers
    ensures Receive(s, Some(peerId), Messages(run)[from..], end, tiny)
            == Receive(s.AddPiece(peerId, ToBase(run.pieces[from])), Some(peerId), Messages(run)[from + 1..], end, tiny)
  {
    MessagesShape(run);
    var msgs := Messages(run)[from..];
    assert msgs[0] == PieceMessage(run, from) && msgs[1..] == Messages(run)[from + 1..];
  }

  lemma ReceiveDone(s: Scheduler, peerId: string, run: CdnRun, end: End, tiny: Option<seq<nat>>)
    requires run.Succeeds() && peerId in s.peers
    ensures Receive(s, Some(peerId), Messages(run)[|run.pieces|..], end, tiny).0 == s.Finish(peerId, DoneMessage(run), tiny)
  {
    MessagesShape(run);
    assert Messages(run)[|run.pieces|..] == [DoneMessage(run)];
  }

  /** What a tiny file's download leaves in the task. */
  function Direct(length: int, tiny: Option<seq<nat>>, before: seq<nat>): seq<nat> {
    if length <= 128 && tiny.Some? && |tiny.value| == length then tiny.value else before
  }

  lemma {:induction false} PeerAfterRest(s: Scheduler, peerId: string, run: CdnRun, from: nat, end: End, tiny: Option<seq<nat>>)
    requires run.Succeeds() && from <= |run.pieces| && peerId in s.peers && s.peers[peerId].finished >= -TWO_31
    ensures var s' := Receive(s, Some(peerId), Messages(run)[from..], end, tiny).0;
            && SamePeers(s, s', peerId) && IsProgress(s.peers[peerId].finished, run.pieces[from..], s'.peers[peerId].finished)
            && s'.task.directPiece == Direct(run.final.value.sourceFileLength, tiny, s.task.directPiece)
    decreases |run.pieces| - from
  {
    var s' := Receive(s, Some(peerId), Messages(run)[from..], end, tiny).0;
    if from < |run.pieces| {
      var p, rest := run.pieces[from], run.pieces[from + 1..];
      var s1 := s.AddPiece(peerId, ToBase(p));
      AddPieceKeepsPeers(s, peerId, p);
      ReceiveNext(s, peerId, run, from, end, tiny);
      PeerAfterRest(s1, peerId, run, from + 1, end, tiny);
      SamePeersChain(s, s1, s', peerId);
      assert run.pieces[from..] == [p] + rest;
      ProgressByOne(s.peers[peerId].finished, p, rest, s'.peers[peerId].finished);
    } else {
      ReceiveDone(s, peerId, run, end, tiny);
    }
  }

  /** After a successful seeding the CDN's peer is there, new ones on the CDN's host, which is then
      known; its progress is that of the pieces; everybody else is as before; and a tiny file is kept
      whole. */
  lemma SeedingSetsPeer(s: Scheduler, run: CdnRun, tiny: Option<seq<nat>>)
    requires run.Succeeds() && s.Knows(run.peerId, run.hostId)
    requires run.peerId in s.peers ==> s.peers[run.peerId].finished >= -TWO_31
    ensures var s' := Receive(s, None, Messages(run), Eof, tiny).0;
            var known := run.peerId in s.peers;
            && s'.peers.Keys == s.peers.Keys + {run.peerId} && (forall p | p in s.peers && p != run.peerId :: s'.peers[p] == s.peers[p])
            && s'.peers[run.peerId].hostId == (if known then s.peers[run.peerId].hostId else run.hostId)
            && s'.hosts == (if known then s.hosts else s.hosts + {run.hostId})
            && IsProgress(if known then s.peers[run.peerId].finished else 0, run.pieces, s'.peers[run.peerId].finished)
            && s'.task.directPiece == (if run.final.value.sourceFileLength <= 128 && tiny.Some?
                                          && |tiny.value| == run.final.value.sourceFileLength
                                       then tiny.value else s.task.directPiece)
  {
    MessagesShape(run);
    var msgs := Messages(run);
    var s1 := s.InitPeer(msgs[0]);
    assert Receive(s, None, msgs, Eof, tiny).0 == Receive(s1, Some(run.peerId), msgs, Eof, tiny).0;
    assert msgs == msgs[0..] && run.pieces == run.pieces[0..];
    PeerAfterRest(s1, run.peerId, run, 0, Eof, tiny);
  }

  /** While pieces arrive the task can be scheduled and the peer runs. */
  lemma {:induction false} CutLeavesRunning(s: Scheduler, peerId: string, msgs: seq<PieceSeed>, end: End, tiny: Option<seq<nat>>)
    requires peerId in s.peers && (forall m | m in msgs :: m.Piece?)
    ensures var s' := Receive(s, Some(peerId), msgs, end, tiny).0;
            s'.task.status == s.task.status && peerId in s'.peers && s'.peers[peerId].status == s.peers[peerId].status
    decreases |msgs|
  {
    if msgs != [] {
      CutLeavesRunning(s.AddPiece(peerId, msgs[0].info), peerId, msgs[1..], end, tiny);
    }
  }

  /** An interrupted seeding that got through to a known host leaves the task seeding, unless it was a
      success before, and the peer running. */
  lemma InterruptedIsSeeding(s: Scheduler, run: CdnRun, msgs: seq<PieceSeed>, end: End, tiny: Option<seq<nat>>)
    requires s.Knows(run.peerId, run.hostId)
    requires msgs != [] && msgs <= Messages(run) && |msgs| <= |run.pieces|
    ensures var s' := Receive(s, None, msgs, end, tiny).0;
            && s'.task.status == (if s.task.status == Success then Success else Seeding)
            && run.peerId in s'.peers && s'.peers[run.peerId].status == PeerRunning
  {
    MessagesShape(run);
    assert forall m | m in msgs :: m.Piece?;
    var s1 := s.InitPeer(msgs[0]);
    assert Receive(s, None, msgs, end, tiny).0 == Receive(s1, Some(run.peerId), msgs, end, tiny).0;
    CutLeavesRunning(s1, run.peerId, msgs, end, tiny);
  }

  // The CDN keeps its pieces in a map keyed by their number; the stream shows all of it, possibly
  // with repetitions.

  ghost predicate Streams(cdn: PieceMap, pieces: seq<CdnPiece>) {
    && (forall n | n in cdn :: cdn[n].num == n && cdn[n] in pieces)
    && (forall p | p in pieces :: p.num in cdn && cdn[p.num] == p)
  }

  lemma ToInt32Injective(m: Uint32, n: Uint32)
    requires ToInt32(m) == ToInt32(n)
    ensures m == n
  {
  }

  ghost predicate Agrees(cdn: PieceMap, pieces: map<int, BasePiece>) {
    forall n | n in pieces :: exists c :: c in cdn && ToInt32(c) == n && pieces[n] == ToBase(cdn[c])
  }

  lemma {:induction false} AddAllAgrees(cdn: PieceMap, pieces: map<int, BasePiece>, more: seq<CdnPiece>)
    requires Agrees(cdn, pieces)
    requires forall p | p in more :: p.num in cdn && cdn[p.num] == p
    ensures Agrees(cdn, AddAll(pieces, more))
    ensures forall n | n in pieces :: n in AddAll(pieces, more)
    ensures forall p | p in more :: ToInt32(p.num) in AddAll(pieces, more)
    decreases |more|
  {
    if more != [] {
      var p := ToBase(more[0]);
      assert more[0] in more;
      var pieces1 := if p.pieceNum in pieces then pieces else pieces[p.pieceNum := p];
      assert Agrees(cdn, pieces1);
      AddAllAgrees(cdn, pieces1, more[1..]);
      assert forall q | q in more :: q == more[0] || q in more[1..];
    }
  }

  /** On a fresh task the scheduler ends up with the CDN's piece map, number by number. */
  lemma SeedingGivesThePieceMap(cdn: PieceMap, pieces: seq<CdnPiece>)
    requires Streams(cdn, pieces)
    ensures forall c | c in cdn :: ToInt32(c) in AddAll(map[], pieces) && SamePiece(cdn[c], AddAll(map[], pieces)[ToInt32(c)])
    ensures forall n | n in AddAll(map[], pieces) :: exists c :: c in cdn && ToInt32(c) == n
  {
    AddAllAgrees(cdn, map[], pieces);
    var all := AddAll(map[], pieces);
    forall c | c in cdn ensures ToInt32(c) in all && SamePiece(cdn[c], all[ToInt32(c)]) {
      assert cdn[c] in pieces;
      var c' :| c' in cdn && ToInt32(c') == ToInt32(c) && all[ToInt32(c)] == ToBase(cdn[c']);
      ToInt32Injective(c, c');
    }
  }
}
