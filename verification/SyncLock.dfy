/**
  The keyed reader/writer lock pool of pkg/synclock.

  `LockerPool` keeps one reference-counted RW mutex per key in use and recycles a mutex as soon as
  its count drops to zero. This module has the pool as a state machine over the atomic actions of
  `Lock` and `UnLock`, the invariant of that machine, the proof that it behaves like one permanent
  RW lock per key, and the pool as a class whose methods take exactly the machine's steps.

  A *session* is one call of `Lock`, from its critical section until the matching `UnLock`. A
  goroutine may own any number of sessions, on any keys.
 */
module SyncLock {

  type Key = string
  type SessionId = nat

  datatype Mode = Read | Write

  function ModeOf(rLock: bool): (mode: Mode)
    ensures mode == Read <==> rLock
  {
    if rLock then Read else Write
  }

  /** The value of a countRWMutex: the reference count and the embedded RWMutex. */
  datatype Rw = Rw(count: int, writer: bool, readers: nat) {

    predicate CanTake(mode: Mode) {
      !writer && (mode == Write ==> readers == 0)
    }

    function Take(mode: Mode): Rw
      requires CanTake(mode)
    {
      if mode == Read then this.(readers := readers + 1) else this.(writer := true)
    }

    /** Unlocking a mutex that is not locked in this mode is misuse. */
    predicate CanGive(mode: Mode) {
      if mode == Read then readers > 0 else writer
    }

    function Give(mode: Mode): Rw
      requires CanGive(mode)
    {
      if mode == Read then this.(readers := readers - 1) else this.(writer := false)
    }
  }

  const UNUSED := Rw(0, false, 0)

  /** A call of Lock past its critical section: blocked on `locker`, or holding it. */
  datatype Session<L> = Session(key: Key, mode: Mode, locker: L, holding: bool)

  /** The pool mutex. UnLock releases the locker before it drops its count, and other goroutines
      can take the locker in between, so that point of UnLock is a state of its own. */
  datatype Mutex<L> = Free | Unlocking(key: Key, locker: L)

  datatype Pool<L> = Pool(
    lockerMap: map<Key, L>,
    lockers: map<L, Rw>,
    idle: set<L>,
    sessions: map<SessionId, Session<L>>,
    mutex: Mutex<L>)

  function EmptyPool<L>(): Pool<L> {
    Pool(map[], map[], {}, map[], Free)
  }

  // ---------------------------------------------------------------------------------------------
  // The steps
  // ---------------------------------------------------------------------------------------------

  /** `locker` is the one mapped to the key, or whatever sync.Pool hands out. */
  ghost predicate Offered<L>(p: Pool<L>, key: Key, locker: L) {
    if key in p.lockerMap then locker == p.lockerMap[key] else locker in p.idle || locker !in p.lockers
  }

  /** The critical section of Lock. */
  ghost predicate CanEnter<L>(p: Pool<L>, sid: SessionId, key: Key, locker: L) {
    p.mutex.Free? && sid !in p.sessions && Offered(p, key, locker)
  }

  ghost function Enter<L>(p: Pool<L>, sid: SessionId, key: Key, mode: Mode, locker: L): Pool<L> {
    var was := if locker in p.lockers then p.lockers[locker] else UNUSED;
    p.(lockerMap := p.lockerMap[key := locker],
       lockers := p.lockers[locker := was.(count := was.count + 1)],
       idle := p.idle - {locker},
       sessions := p.sessions[sid := Session(key, mode, locker, false)])
  }

  /** The blocking lock call of Lock, at the moment it is granted. */
  ghost predicate CanAcquire<L>(p: Pool<L>, sid: SessionId) {
    && sid in p.sessions
    && !p.sessions[sid].holding
    && p.sessions[sid].locker in p.lockers
    && p.lockers[p.sessions[sid].locker].CanTake(p.sessions[sid].mode)
  }

  ghost function Acquire<L>(p: Pool<L>, sid: SessionId): Pool<L>
    requires CanAcquire(p, sid)
  {
    var s := p.sessions[sid];
    p.(lockers := p.lockers[s.locker := p.lockers[s.locker].Take(s.mode)],
       sessions := p.sessions[sid := s.(holding := true)])
  }

  /** UnLock up to the release of the locker that the map has for the key. */
  ghost predicate CanBeginUnlock<L>(p: Pool<L>, sid: SessionId) {
    && p.mutex.Free?
    && sid in p.sessions
    && p.sessions[sid].holding
    && p.sessions[sid].key in p.lockerMap
    && p.lockerMap[p.sessions[sid].key] in p.lockers
    && p.lockers[p.lockerMap[p.sessions[sid].key]].CanGive(p.sessions[sid].mode)
  }

  ghost function BeginUnlock<L>(p: Pool<L>, sid: SessionId): Pool<L>
    requires CanBeginUnlock(p, sid)
  {
    var s := p.sessions[sid];
    var locker := p.lockerMap[s.key];
    p.(lockers := p.lockers[locker := p.lockers[locker].Give(s.mode)],
       sessions := p.sessions - {sid},
       mutex := Unlocking(s.key, locker))
  }

  /** The rest of UnLock: drop the count, and recycle the locker when nobody is left. */
  ghost predicate CanEndUnlock<L>(p: Pool<L>) {
    p.mutex.Unlocking? && p.mutex.locker in p.lockers
  }

  ghost function EndUnlock<L>(p: Pool<L>): Pool<L>
    requires CanEndUnlock(p)
  {
    var Unlocking(key, locker) := p.mutex;
    var left := p.lockers[locker].count - 1;
    if left <= 0 then
      p.(lockers := p.lockers[locker := p.lockers[locker].(count := 0)],
         idle := p.idle + {locker},
         lockerMap := p.lockerMap - {key},
         mutex := Free)
    else
      p.(lockers := p.lockers[locker := p.lockers[locker].(count := left)],
         mutex := Free)
  }

  /** sync.Pool may forget an idle item at any time. */
  ghost function Forget<L>(p: Pool<L>, locker: L): Pool<L> {
    p.(lockers := p.lockers - {locker}, idle := p.idle - {locker})
  }

  datatype Step<L> =
    | EnterStep(sid: SessionId, key: Key, mode: Mode, locker: L)
    | AcquireStep(sid: SessionId)
    | BeginUnlockStep(sid: SessionId)
    | EndUnlockStep
    | ForgetStep(locker: L)

  ghost predicate Enabled<L>(p: Pool<L>, step: Step<L>) {
    match step
    case EnterStep(sid, key, _, locker) => CanEnter(p, sid, key, locker)
    case AcquireStep(sid) => CanAcquire(p, sid)
    case BeginUnlockStep(sid) => CanBeginUnlock(p, sid)
    case EndUnlockStep => CanEndUnlock(p)
    case ForgetStep(locker) => locker in p.idle
  }

  ghost function After<L>(p: Pool<L>, step: Step<L>): Pool<L>
    requires Enabled(p, step)
  {
    match step
    case EnterStep(sid, key, mode, locker) => Enter(p, sid, key, mode, locker)
    case AcquireStep(sid) => Acquire(p, sid)
    case BeginUnlockStep(sid) => BeginUnlock(p, sid)
    case EndUnlockStep => EndUnlock(p)
    case ForgetStep(locker) => Forget(p, locker)
  }

  /** `states` is a run of the pool: it starts empty and every step is one of the above. */
  ghost predicate IsRun<L>(states: seq<Pool<L>>, steps: seq<Step<L>>) {
    && |states| == |steps| + 1
    && states[0] == EmptyPool()
    && forall i | 0 <= i < |steps| :: Enabled(states[i], steps[i]) && states[i + 1] == After(states[i], steps[i])
  }

  // ---------------------------------------------------------------------------------------------
  // The invariant
  // ---------------------------------------------------------------------------------------------

  /** The sessions holding or waiting on a key. */
  ghost function Users<L>(p: Pool<L>, key: Key): set<SessionId> {
    set sid | sid in p.sessions && p.sessions[sid].key == key
  }

  ghost function Holders<L>(p: Pool<L>, key: Key, mode: Mode): set<SessionId> {
    set sid | sid in p.sessions && p.sessions[sid].key == key
              && p.sessions[sid].holding && p.sessions[sid].mode == mode
  }

  /** No locker serves two keys, and none is both mapped and idle; idle lockers are as good as new. */
  ghost predicate Placed<L>(p: Pool<L>) {
    && (forall k | k in p.lockerMap :: p.lockerMap[k] in p.lockers && p.lockerMap[k] !in p.idle)
    && (forall k, k' | k in p.lockerMap && k' in p.lockerMap && p.lockerMap[k] == p.lockerMap[k'] :: k == k')
    && (forall l | l in p.idle :: l in p.lockers && p.lockers[l] == UNUSED)
    && (p.mutex.Unlocking? ==> p.mutex.key in p.lockerMap && p.lockerMap[p.mutex.key] == p.mutex.locker)
  }

  /** No session waits on, or holds, a locker that is no longer the one of its key. */
  ghost predicate Attached<L>(p: Pool<L>) {
    forall sid | sid in p.sessions ::
      p.sessions[sid].key in p.lockerMap && p.lockerMap[p.sessions[sid].key] == p.sessions[sid].locker
  }

  /** UnLock has ended a session of the key but not yet dropped the count of its locker. */
  ghost function Pending<L>(p: Pool<L>, key: Key): nat {
    if p.mutex.Unlocking? && p.mutex.key == key then 1 else 0
  }

  /** The locker of a key counts its users, and its RWMutex agrees with the sessions holding it. */
  ghost predicate Accurate<L>(p: Pool<L>, key: Key)
    requires key in p.lockerMap && p.lockerMap[key] in p.lockers
  {
    var rw := p.lockers[p.lockerMap[key]];
    && rw.count == |Users(p, key)| + Pending(p, key)
    && rw.count > 0
    && rw.readers == |Holders(p, key, Read)|
    && (if rw.writer then 1 else 0) == |Holders(p, key, Write)|
    && (rw.writer ==> rw.readers == 0)
  }

  ghost predicate Inv<L>(p: Pool<L>) {
    && Placed(p)
    && Attached(p)
    && forall k | k in p.lockerMap :: Accurate(p, k)
  }

  /** A step that leaves the locker and the sessions of a key alone keeps it accurate. */
  lemma Untouched<L>(p: Pool<L>, q: Pool<L>, key: Key)
    requires key in p.lockerMap && p.lockerMap[key] in p.lockers && Accurate(p, key)
    requires key in q.lockerMap && q.lockerMap[key] in q.lockers
    requires q.lockers[q.lockerMap[key]] == p.lockers[p.lockerMap[key]]
    requires Pending(q, key) == Pending(p, key)
    requires forall sid :: sid in Users(q, key) <==> sid in Users(p, key)
    requires forall sid | sid in Users(p, key) :: q.sessions[sid] == p.sessions[sid]
    ensures Accurate(q, key)
  {
    assert Users(q, key) == Users(p, key);
    forall m ensures Holders(q, key, m) == Holders(p, key, m) {
      forall sid ensures sid in Holders(q, key, m) <==> sid in Holders(p, key, m) {
        assert sid in Users(q, key) <==> sid in Users(p, key);
      }
    }
  }

  /** What the critical section of Lock does to the users and holders of its key. */
  lemma EnterUsers<L>(p: Pool<L>, sid: SessionId, key: Key, mode: Mode, locker: L)
    requires Attached(p) && CanEnter(p, sid, key, locker)
    ensures var q := Enter(p, sid, key, mode, locker);
            && Users(q, key) == Users(p, key) + {sid}
            && (forall m :: Holders(q, key, m) == Holders(p, key, m))
            && (key !in p.lockerMap ==> Users(p, key) == {} && Holders(p, key, Read) == {} && Holders(p, key, Write) == {})
  {
  }

  lemma EnterAccurate<L>(p: Pool<L>, sid: SessionId, key: Key, mode: Mode, locker: L)
    requires Inv(p) && CanEnter(p, sid, key, locker)
    ensures Accurate(Enter(p, sid, key, mode, locker), key)
  {
    EnterUsers(p, sid, key, mode, locker);
    assert Accurate(Enter(p, sid, key, mode, locker), key);
  }

  lemma EnterPlaced<L>(p: Pool<L>, sid: SessionId, key: Key, mode: Mode, locker: L)
    requires Inv(p) && CanEnter(p, sid, key, locker)
    ensures Placed(Enter(p, sid, key, mode, locker)) && Attached(Enter(p, sid, key, mode, locker))
  {
  }

  lemma EnterOthers<L>(p: Pool<L>, sid: SessionId, key: Key, mode: Mode, locker: L, k: Key)
    requires Placed(p) && Attached(p) && CanEnter(p, sid, key, locker) && k in p.lockerMap && k != key && Accurate(p, k)
    ensures Accurate(Enter(p, sid, key, mode, locker), k)
  {
    Untouched(p, Enter(p, sid, key, mode, locker), k);
  }

  lemma EnterKeepsInv<L>(p: Pool<L>, sid: SessionId, key: Key, mode: Mode, locker: L)
    requires Inv(p) && CanEnter(p, sid, key, locker)
    ensures Inv(Enter(p, sid, key, mode, locker))
  {
    var q := Enter(p, sid, key, mode, locker);
    EnterPlaced(p, sid, key, mode, locker);
    EnterAccurate(p, sid, key, mode, locker);
    forall k | k in q.lockerMap && k != key ensures Accurate(q, k) {
      EnterOthers(p, sid, key, mode, locker, k);
    }
  }

  /** What the grant of a lock does to the users and holders of its key. */
  lemma AcquireUsers<L>(p: Pool<L>, sid: SessionId)
    requires CanAcquire(p, sid)
    ensures var q, key, mode := Acquire(p, sid), p.sessions[sid].key, p.sessions[sid].mode;
            && Users(q, key) == Users(p, key)
            && Holders(q, key, mode) == Holders(p, key, mode) + {sid} && sid !in Holders(p, key, mode)
            && (forall m | m != mode :: Holders(q, key, m) == Holders(p, key, m))
  {
  }

  lemma AcquireAccurate<L>(p: Pool<L>, sid: SessionId, key: Key)
    requires CanAcquire(p, sid) && p.sessions[sid].key == key
    requires key in p.lockerMap && p.lockerMap[key] == p.sessions[sid].locker && Accurate(p, key)
    ensures Accurate(Acquire(p, sid), key)
  {
    AcquireUsers(p, sid);
  }

  lemma AcquirePlaced<L>(p: Pool<L>, sid: SessionId)
    requires Placed(p) && Attached(p) && CanAcquire(p, sid)
    ensures Placed(Acquire(p, sid)) && Attached(Acquire(p, sid))
  {
  }

  lemma AcquireOthers<L>(p: Pool<L>, sid: SessionId, k: Key)
    requires Placed(p) && Attached(p) && CanAcquire(p, sid) && k in p.lockerMap && k != p.sessions[sid].key && Accurate(p, k)
    ensures Accurate(Acquire(p, sid), k)
  {
    Untouched(p, Acquire(p, sid), k);
  }

  lemma AcquireKeepsInv<L>(p: Pool<L>, sid: SessionId)
    requires Inv(p) && CanAcquire(p, sid)
    ensures Inv(Acquire(p, sid))
  {
    AcquirePlaced(p, sid);
    forall k | k in p.lockerMap ensures Accurate(Acquire(p, sid), k) {
      if k == p.sessions[sid].key {
        AcquireAccurate(p, sid, k);
      } else {
        AcquireOthers(p, sid, k);
      }
    }
  }

  /** What the release of a lock does to the users and holders of its key. */
  lemma BeginUnlockUsers<L>(p: Pool<L>, sid: SessionId)
    requires CanBeginUnlock(p, sid)
    ensures var q, key, mode := BeginUnlock(p, sid), p.sessions[sid].key, p.sessions[sid].mode;
            && Users(q, key) == Users(p, key) - {sid} && sid in Users(p, key)
            && Holders(q, key, mode) == Holders(p, key, mode) - {sid} && sid in Holders(p, key, mode)
            && (forall m | m != mode :: Holders(q, key, m) == Holders(p, key, m))
  {
  }

  lemma BeginUnlockAccurate<L>(p: Pool<L>, sid: SessionId, key: Key)
    requires CanBeginUnlock(p, sid) && p.sessions[sid].key == key && Accurate(p, key)
    ensures Accurate(BeginUnlock(p, sid), key)
  {
    BeginUnlockUsers(p, sid);
  }

  lemma BeginUnlockPlaced<L>(p: Pool<L>, sid: SessionId)
    requires Placed(p) && Attached(p) && CanBeginUnlock(p, sid)
    ensures Placed(BeginUnlock(p, sid)) && Attached(BeginUnlock(p, sid))
  {
  }

  lemma BeginUnlockOthers<L>(p: Pool<L>, sid: SessionId, k: Key)
    requires Placed(p) && Attached(p) && CanBeginUnlock(p, sid) && k in p.lockerMap && k != p.sessions[sid].key && Accurate(p, k)
    ensures Accurate(BeginUnlock(p, sid), k)
  {
    Untouched(p, BeginUnlock(p, sid), k);
  }

  lemma BeginUnlockKeepsInv<L>(p: Pool<L>, sid: SessionId)
    requires Inv(p) && CanBeginUnlock(p, sid)
    ensures Inv(BeginUnlock(p, sid))
  {
    BeginUnlockPlaced(p, sid);
    forall k | k in p.lockerMap ensures Accurate(BeginUnlock(p, sid), k) {
      if k == p.sessions[sid].key {
        BeginUnlockAccurate(p, sid, k);
      } else {
        BeginUnlockOthers(p, sid, k);
      }
    }
  }

  lemma EndUnlockPlaced<L>(p: Pool<L>)
    requires Inv(p) && CanEndUnlock(p)
    ensures Placed(EndUnlock(p)) && Attached(EndUnlock(p))
  {
    var key := p.mutex.key;
    if p.lockers[p.mutex.locker].count - 1 <= 0 {
      assert Accurate(p, key);
      assert Users(p, key) == {};
      assert Holders(p, key, Read) <= Users(p, key) && Holders(p, key, Write) <= Users(p, key);
      forall sid | sid in p.sessions ensures p.sessions[sid].key != key {
        assert p.sessions[sid].key == key ==> sid in Users(p, key);
      }
    }
  }

  lemma EndUnlockAccurate<L>(p: Pool<L>, k: Key)
    requires Placed(p) && Attached(p) && CanEndUnlock(p) && k in p.lockerMap && Accurate(p, k) && k in EndUnlock(p).lockerMap
    ensures Accurate(EndUnlock(p), k)
  {
    var q := EndUnlock(p);
    if k != p.mutex.key {
      Untouched(p, q, k);
    } else {
      assert Users(q, k) == Users(p, k);
      assert forall m :: Holders(q, k, m) == Holders(p, k, m);
    }
  }

  lemma EndUnlockKeepsInv<L>(p: Pool<L>)
    requires Inv(p) && CanEndUnlock(p)
    ensures Inv(EndUnlock(p))
  {
    EndUnlockPlaced(p);
    forall k | k in EndUnlock(p).lockerMap ensures Accurate(EndUnlock(p), k) {
      EndUnlockAccurate(p, k);
    }
  }

  lemma ForgetKeepsInv<L>(p: Pool<L>, locker: L)
    requires Inv(p) && locker in p.idle
    ensures Inv(Forget(p, locker))
  {
    forall k | k in p.lockerMap ensures Accurate(Forget(p, locker), k) {
      Untouched(p, Forget(p, locker), k);
    }
  }

  lemma StepKeepsInv<L>(p: Pool<L>, step: Step<L>)
    requires Inv(p) && Enabled(p, step)
    ensures Inv(After(p, step))
  {
    match step
    case EnterStep(sid, key, mode, locker) => EnterKeepsInv(p, sid, key, mode, locker);
    case AcquireStep(sid) => AcquireKeepsInv(p, sid);
    case BeginUnlockStep(sid) => BeginUnlockKeepsInv(p, sid);
    case EndUnlockStep => EndUnlockKeepsInv(p);
    case ForgetStep(locker) => ForgetKeepsInv(p, locker);
  }

  lemma {:induction false} RunKeepsInv<L>(states: seq<Pool<L>>, steps: seq<Step<L>>, i: nat)
    requires IsRun(states, steps) && i < |states|
    ensures Inv(states[i])
  {
    if i > 0 {
      RunKeepsInv(states, steps, i - 1);
      StepKeepsInv(states[i - 1], steps[i - 1]);
    }
  }

  // ---------------------------------------------------------------------------------------------
  // What the pool promises
  // ---------------------------------------------------------------------------------------------

  /** Between critical sections a locker's count is the number of sessions holding or waiting on its
      key, a key is mapped exactly when that number is positive, lockers are not shared between keys
      and an idle locker is unheld with count zero. */
  lemma PoolBalanced<L>(states: seq<Pool<L>>, steps: seq<Step<L>>, i: nat)
    requires IsRun(states, steps) && i < |states| && states[i].mutex.Free?
    ensures var p := states[i];
            && (forall k :: k in p.lockerMap <==> Users(p, k) != {})
            && (forall k | k in p.lockerMap :: p.lockerMap[k] in p.lockers && p.lockers[p.lockerMap[k]].count == |Users(p, k)|)
            && (forall k, k' | k in p.lockerMap && k' in p.lockerMap && k != k' :: p.lockerMap[k] != p.lockerMap[k'])
            && (forall l | l in p.idle :: l in p.lockers && p.lockers[l] == Rw(0, false, 0))
            && (forall l, sid | l in p.idle && sid in p.sessions :: p.sessions[sid].locker != l)
  {
    RunKeepsInv(states, steps, i);
    var p := states[i];
    forall k ensures k in p.lockerMap <==> Users(p, k) != {} {
      if k in p.lockerMap {
        assert Accurate(p, k);
        assert |Users(p, k)| > 0;
      } else {
        assert forall sid | sid in p.sessions :: p.sessions[sid].key != k;
      }
    }
  }

  lemma HoldersExclude<L>(p: Pool<L>, writer: SessionId, other: SessionId)
    requires Inv(p) && writer in p.sessions && other in p.sessions && writer != other
    requires p.sessions[writer].holding && p.sessions[writer].mode == Write
    requires p.sessions[other].key == p.sessions[writer].key
    ensures !p.sessions[other].holding
  {
    var key := p.sessions[writer].key;
    assert Accurate(p, key);
    assert writer in Holders(p, key, Write);
    assert |Holders(p, key, Write) - {writer}| == 0 && Holders(p, key, Read) == {};
    assert other !in Holders(p, key, Write) && other !in Holders(p, key, Read);
  }

  /** In every interleaving a key never has two writers, nor a writer together with a reader. */
  lemma MutualExclusion<L>(states: seq<Pool<L>>, steps: seq<Step<L>>, i: nat, s1: SessionId, s2: SessionId)
    requires IsRun(states, steps) && i < |states|
    requires s1 in states[i].sessions && s2 in states[i].sessions && s1 != s2
    requires states[i].sessions[s1].holding && states[i].sessions[s2].holding
    requires states[i].sessions[s1].key == states[i].sessions[s2].key
    ensures states[i].sessions[s1].mode == Read && states[i].sessions[s2].mode == Read
  {
    RunKeepsInv(states, steps, i);
    if states[i].sessions[s1].mode == Write {
      HoldersExclude(states[i], s1, s2);
    } else if states[i].sessions[s2].mode == Write {
      HoldersExclude(states[i], s2, s1);
    }
  }

  // One permanent RW lock per key: who holds what, and nothing else.

  datatype Grant = Grant(key: Key, mode: Mode)
  type Grants = map<SessionId, Grant>

  ghost predicate Compatible(held: Grants, g: Grant) {
    forall sid | sid in held && held[sid].key == g.key :: held[sid].mode == Read && g.mode == Read
  }

  ghost predicate Granted(before: Grants, after: Grants, sid: SessionId, g: Grant) {
    sid !in before && Compatible(before, g) && after == before[sid := g]
  }

  ghost predicate Released(before: Grants, after: Grants, sid: SessionId) {
    sid in before && after == before - {sid}
  }

  ghost predicate PermanentLocksStep(before: Grants, after: Grants) {
    || after == before
    || (exists sid, g :: Granted(before, after, sid, g))
    || (exists sid :: Released(before, after, sid))
  }

  ghost function Abstract<L>(p: Pool<L>): Grants {
    map sid | sid in p.sessions && p.sessions[sid].holding :: Grant(p.sessions[sid].key, p.sessions[sid].mode)
  }

  /** A blocked Lock can go on exactly when the permanent lock of its key could be granted: a
      recycled locker brings no old holder with it, and none is missed. */
  lemma GrantedExactlyWhenFree<L>(p: Pool<L>, sid: SessionId)
    requires Inv(p) && sid in p.sessions && !p.sessions[sid].holding
    ensures CanAcquire(p, sid) <==> Compatible(Abstract(p), Grant(p.sessions[sid].key, p.sessions[sid].mode))
  {
    var Session(key, mode, _, _) := p.sessions[sid];
    var held := Abstract(p);
    assert Accurate(p, key);
    if Compatible(held, Grant(key, mode)) {
      forall s ensures s !in Holders(p, key, Write) && (mode == Write ==> s !in Holders(p, key, Read)) {
        if s in p.sessions && p.sessions[s].holding && p.sessions[s].key == key {
          assert s in held;
        }
      }
      assert Holders(p, key, Write) == {} && (mode == Write ==> Holders(p, key, Read) == {});
    }
    if CanAcquire(p, sid) {
      assert |Holders(p, key, Write)| == 0;
      forall s | s in held && held[s].key == key ensures held[s].mode == Read && mode == Read {
        assert s in Holders(p, key, held[s].mode);
      }
    }
  }

  /** UnLock by a holder always finds its key, and a locker that is locked in its mode. */
  lemma HolderMayUnlock<L>(p: Pool<L>, sid: SessionId)
    requires Inv(p) && p.mutex.Free? && sid in p.sessions && p.sessions[sid].holding
    ensures CanBeginUnlock(p, sid)
  {
    var s := p.sessions[sid];
    assert Accurate(p, s.key);
    assert sid in Holders(p, s.key, s.mode);
  }

  /** The key is mapped to a locker that is locked in the mode. */
  ghost predicate Releasable<L>(p: Pool<L>, key: Key, mode: Mode) {
    key in p.lockerMap && p.lockerMap[key] in p.lockers && p.lockers[p.lockerMap[key]].CanGive(mode)
  }

  ghost predicate Holds<L>(p: Pool<L>, sid: SessionId, key: Key, mode: Mode) {
    sid in p.sessions && p.sessions[sid].holding && p.sessions[sid].key == key && p.sessions[sid].mode == mode
  }

  /** An UnLock that is no misuse ends a session: one holds the key in that mode exactly when the
      locker is locked in it. */
  lemma ReleasableExactlyWhenHeld<L>(p: Pool<L>, key: Key, mode: Mode)
    requires Inv(p)
    ensures Releasable(p, key, mode) <==> exists sid :: Holds(p, sid, key, mode)
  {
    if Releasable(p, key, mode) {
      assert Accurate(p, key);
      assert |Holders(p, key, mode)| > 0;
      var sid :| sid in Holders(p, key, mode);
      assert Holds(p, sid, key, mode);
    }
    if sid :| Holds(p, sid, key, mode) {
      assert Accurate(p, key);
      assert sid in Holders(p, key, mode);
    }
  }

  lemma AcquireRefines<L>(p: Pool<L>, sid: SessionId)
    requires Inv(p) && CanAcquire(p, sid)
    ensures Granted(Abstract(p), Abstract(Acquire(p, sid)), sid, Grant(p.sessions[sid].key, p.sessions[sid].mode))
  {
    GrantedExactlyWhenFree(p, sid);
  }

  lemma BeginUnlockRefines<L>(p: Pool<L>, sid: SessionId)
    requires CanBeginUnlock(p, sid)
    ensures Released(Abstract(p), Abstract(BeginUnlock(p, sid)), sid)
  {
  }

  /** Waiting sessions and lockers do not show. */
  lemma OthersRefine<L>(p: Pool<L>, step: Step<L>)
    requires Enabled(p, step) && !step.AcquireStep? && !step.BeginUnlockStep?
    ensures Abstract(After(p, step)) == Abstract(p)
  {
    if step.EnterStep? {
      assert forall sid | sid in p.sessions :: After(p, step).sessions[sid] == p.sessions[sid];
    }
  }

  lemma StepRefines<L>(p: Pool<L>, step: Step<L>)
    requires Inv(p) && Enabled(p, step)
    ensures PermanentLocksStep(Abstract(p), Abstract(After(p, step)))
  {
    match step
    case AcquireStep(sid) => AcquireRefines(p, sid);
    case BeginUnlockStep(sid) => BeginUnlockRefines(p, sid);
    case _ => OthersRefine(p, step);
  }

  /** Every run of the recycling pool is a run of permanent per-key locks. */
  lemma PoolRefinesPermanentLocks<L>(states: seq<Pool<L>>, steps: seq<Step<L>>)
    requires IsRun(states, steps)
    ensures Abstract(states[0]) == map[]
    ensures forall i | 0 <= i < |steps| :: PermanentLocksStep(Abstract(states[i]), Abstract(states[i + 1]))
  {
    forall i | 0 <= i < |steps| ensures PermanentLocksStep(Abstract(states[i]), Abstract(states[i + 1])) {
      RunKeepsInv(states, steps, i);
      StepRefines(states[i], steps[i]);
    }
  }

  // A run with recycling.

  lemma Extend<L>(states: seq<Pool<L>>, steps: seq<Step<L>>, step: Step<L>) returns (longer: seq<Pool<L>>, more: seq<Step<L>>)
    requires IsRun(states, steps) && Enabled(states[|steps|], step)
    ensures IsRun(longer, more) && longer[|more|] == After(states[|steps|], step)
  {
    longer, more := states + [After(states[|steps|], step)], steps + [step];
  }

  /** Two readers hold a key together. */
  lemma TwoReaders<L>(key: Key, locker: L) returns (states: seq<Pool<L>>, steps: seq<Step<L>>)
    ensures IsRun(states, steps)
    ensures states[|steps|] == Pool(map[key := locker], map[locker := Rw(2, false, 2)], {},
                                    map[0 := Session(key, Read, locker, true), 1 := Session(key, Read, locker, true)], Free)
  {
    states, steps := [EmptyPool()], [];
    states, steps := Extend(states, steps, EnterStep(0, key, Read, locker));
    states, steps := Extend(states, steps, AcquireStep(0));
    states, steps := Extend(states, steps, EnterStep(1, key, Read, locker));
    states, steps := Extend(states, steps, AcquireStep(1));
  }

  /** The key stays mapped when the first leaves, and the locker is idle when the second has left. */
  lemma BothLeave<L>(key: Key, locker: L) returns (states: seq<Pool<L>>, steps: seq<Step<L>>)
    ensures IsRun(states, steps)
    ensures states[|steps|] == Pool(map[], map[locker := UNUSED], {locker}, map[], Free)
  {
    states, steps := TwoReaders(key, locker);
    states, steps := Extend(states, steps, BeginUnlockStep(0));
    states, steps := Extend(states, steps, EndUnlockStep);
    assert states[|steps|] == Pool(map[key := locker], map[locker := Rw(1, false, 1)], {}, map[1 := Session(key, Read, locker, true)], Free);
    states, steps := Extend(states, steps, BeginUnlockStep(1));
    states, steps := Extend(states, steps, EndUnlockStep);
  }

  /** It then serves a writer of another key. */
  lemma LockerIsRecycled<L>(key: Key, other: Key, locker: L) returns (states: seq<Pool<L>>, steps: seq<Step<L>>)
    ensures IsRun(states, steps)
    ensures states[|steps|] == Pool(map[other := locker], map[locker := Rw(1, true, 0)], {},
                                    map[2 := Session(other, Write, locker, true)], Free)
  {
    states, steps := BothLeave(key, locker);
    states, steps := Extend(states, steps, EnterStep(2, other, Write, locker));
    states, steps := Extend(states, steps, AcquireStep(2));
  }

  /** Or is forgotten. */
  lemma LockerIsForgotten<L>(key: Key, locker: L) returns (states: seq<Pool<L>>, steps: seq<Step<L>>)
    ensures IsRun(states, steps) && states[|steps|] == EmptyPool()
  {
    states, steps := BothLeave(key, locker);
    states, steps := Extend(states, steps, ForgetStep(locker));
  }

  // ---------------------------------------------------------------------------------------------
  // The pool as an object
  // ---------------------------------------------------------------------------------------------

  class CountRWMutex {
    var count: int
    var writer: bool
    var readers: nat

    ghost function Value(): Rw
      reads this
    {
      Rw(count, writer, readers)
    }

    constructor ()
      ensures Value() == UNUSED
    {
      count, writer, readers := 0, false, 0;
    }

    method Inc() returns (n: int)
      modifies this
      ensures Value() == old(Value()).(count := old(count) + 1) && n == count
    {
      count := count + 1;
      n := count;
    }

    method Dec() returns (n: int)
      modifies this
      ensures Value() == old(Value()).(count := old(count) - 1) && n == count
    {
      count := count - 1;
      n := count;
    }

    method Reset()
      modifies this
      ensures Value() == old(Value()).(count := 0)
    {
      count := 0;
    }

    /** The lock call at the moment the RWMutex is looked at: granted, or still blocked. */
    method Lock(rLock: bool) returns (granted: bool)
      modifies this
      ensures granted == old(Value()).CanTake(ModeOf(rLock))
      ensures Value() == if granted then old(Value()).Take(ModeOf(rLock)) else old(Value())
    {
      granted := !writer && (rLock || readers == 0);
      if granted {
        if rLock { readers := readers + 1; } else { writer := true; }
      }
    }

    /** Unlocking a mutex that is not locked in this mode is misuse. Go ends the program on it, unless
        it is an RUnlock of a write-locked mutex on which readers wait. */
    method Unlock(rLock: bool) returns (misused: bool)
      modifies this
      ensures misused == !old(Value()).CanGive(ModeOf(rLock))
      ensures Value() == if misused then old(Value()) else old(Value()).Give(ModeOf(rLock))
    {
      misused := if rLock then readers == 0 else !writer;
      if !misused {
        if rLock { readers := readers - 1; } else { writer := false; }
      }
    }
  }

  class LockerPool {
    var lockerMap: map<Key, CountRWMutex>
    var syncPool: set<CountRWMutex>
    /** Every locker this pool has made, and the calls of Lock waiting or holding; for contracts only. */
    ghost var made: set<CountRWMutex>
    ghost var sessions: map<SessionId, Session<CountRWMutex>>

    ghost function State(): Pool<CountRWMutex>
      reads this, made
    {
      Pool(lockerMap, map l | l in made :: l.Value(), syncPool, sessions, Free)
    }

    constructor ()
      ensures State() == EmptyPool() && Inv(State())
    {
      lockerMap, syncPool, made, sessions := map[], {}, {}, map[];
    }

    /** The locker of a key: the mapped one, or one from the sync.Pool, which is then mapped. */
    method Checkout(key: Key) returns (locker: CountRWMutex)
      requires Placed(State())
      modifies this
      ensures fresh(made - old(made)) && made == old(made) + {locker}
      ensures Offered(old(State()), key, locker)
      ensures State().lockers == if locker in old(made) then old(State()).lockers else old(State()).lockers[locker := UNUSED]
      ensures lockerMap == old(lockerMap)[key := locker] && syncPool == old(syncPool) - {locker}
      ensures sessions == old(sessions)
    {
      if key in lockerMap {
        locker := lockerMap[key];
      } else {
        if syncPool != {} {
          locker :| locker in syncPool;
          syncPool := syncPool - {locker};
        } else {
          locker := new CountRWMutex();
          made := made + {locker};
        }
        lockerMap := lockerMap[key := locker];
      }
    }

    /** The new session counts on its locker. */
    method AddReference(locker: CountRWMutex, ghost sid: SessionId, ghost session: Session<CountRWMutex>)
      requires locker in made
      modifies this`sessions, locker
      ensures var was := old(State());
              State() == was.(lockers := was.lockers[locker := was.lockers[locker].(count := was.lockers[locker].count + 1)],
                              sessions := was.sessions[sid := session])
    {
      var _ := locker.Inc();
      sessions := sessions[sid := session];
    }

    /** Lock up to the release of the pool mutex. */
    method EnterLock(key: Key, rLock: bool, ghost sid: SessionId) returns (locker: CountRWMutex)
      requires Placed(State()) && sid !in sessions
      modifies this, made
      ensures fresh(made - old(made)) && locker in made
      ensures CanEnter(old(State()), sid, key, locker)
      ensures State() == Enter(old(State()), sid, key, ModeOf(rLock), locker)
    {
      locker := Checkout(key);
      AddReference(locker, sid, Session(key, ModeOf(rLock), locker, false));
    }

    /** The rest of Lock, retried until it is granted. */
    method AcquireLocker(locker: CountRWMutex, rLock: bool, ghost sid: SessionId) returns (granted: bool)
      requires sid in sessions && !sessions[sid].holding && locker in made
      requires sessions[sid].locker == locker && sessions[sid].mode == ModeOf(rLock)
      modifies this, made
      ensures granted <==> old(CanAcquire(State(), sid))
      ensures State() == if granted then Acquire(old(State()), sid) else old(State())
    {
      granted := locker.Lock(rLock);
      if granted {
        sessions := sessions[sid := sessions[sid].(holding := true)];
      }
    }

    /** The rest of UnLock: drop the count, and recycle the locker when nobody is left. */
    method DropReference(key: Key, locker: CountRWMutex)
      requires locker in made
      modifies this`lockerMap, this`syncPool, locker
      ensures State() == EndUnlock(old(State()).(mutex := Unlocking(key, locker)))
    {
      var left := locker.Dec();
      if left <= 0 {
        locker.Reset();
        syncPool := syncPool + {locker};
        lockerMap := lockerMap - {key};
      }
    }

    /** UnLock of a key in a mode in which its locker is not locked is misuse. Otherwise some session
        holds the key in that mode, and `sid` is the one that ends. */
    method UnLock(key: Key, rLock: bool, ghost sid: SessionId) returns (misused: bool)
      requires Placed(State())
      requires Releasable(State(), key, ModeOf(rLock)) ==> Holds(State(), sid, key, ModeOf(rLock))
      modifies this, made
      ensures misused <==> old(key in lockerMap && !Releasable(State(), key, ModeOf(rLock)))
      ensures old(Releasable(State(), key, ModeOf(rLock))) ==>
                && CanBeginUnlock(old(State()), sid) && CanEndUnlock(BeginUnlock(old(State()), sid))
                && State() == EndUnlock(BeginUnlock(old(State()), sid))
      ensures old(!Releasable(State(), key, ModeOf(rLock))) ==> State() == old(State())
    {
      if key !in lockerMap {
        return false;
      }
      var locker := lockerMap[key];
      misused := locker.Unlock(rLock);
      if misused {
        return;
      }
      sessions := sessions - {sid};
      assert State().(mutex := Unlocking(key, locker)) == BeginUnlock(old(State()), sid);
      DropReference(key, locker);
    }
  }
}
