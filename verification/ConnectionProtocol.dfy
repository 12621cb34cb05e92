/**
  Threads on one `Connection`.

  A read-locked section is cut at every access to a map, so readers interleave freely; a
  write-locked section is one step, possible only while nobody holds the read lock. `GetClientConn`
  and `TryMigrate` give the read lock back before they ask for the write lock, and other threads run
  in that window. Access times are also stored without any lock.
 */
module ConnectionProtocol {
  import opened Connection
  import opened Wrappers

  type Thread = nat

  datatype Pc =
    | GetKey(key: Key, stick: bool)                                  // read-locked, before key2NodeMap.Load
    | Store(node: Node, for': Option<Key>)                           // read-locked, before accessNodeMap.Store
    | Load(node: Node, for': Option<Key>)                            // read-locked, before node2ClientMap.Load
    | Dial(node: Node, for': Option<Key>)                            // read-locked, no client found
    | WantBind(key: Key)                                             // between the locks of GetClientConn
    | GetPrevious(key: Key, exclusive: set<Node>)                    // read-locked part of TryMigrate
    | WantMigrate(key: Key, excluded: set<Node>)                     // between the locks of TryMigrate
  {
    predicate ReadLocked() {
      !WantBind? && !WantMigrate?
    }
  }

  datatype State = State(table: Table, pcs: map<Thread, Pc>)

  datatype Step =
    | CallGet(t: Thread, key: Key, stick: bool)
    | CallGetByTarget(t: Thread, node: Node)
    | CallMigrate(t: Thread, key: Key, exclusive: set<Node>)
    | LookUpKey(t: Thread)
    | StoreAccess(t: Thread, now: Time)
    | LoadClient(t: Thread)
    | DialFails(t: Thread)
    | DialSucceeds(t: Thread, client: Client)
    | LookUpPrevious(t: Thread)
    | WriteBind(t: Thread, dial: Dialer, now: Time, found: Option<Candidate>)
    | WriteMigrate(t: Thread, dial: Dialer, now: Time, found: Option<Candidate>)
    | WriteRename(tmpKey: Key, realKey: Key)
    | WriteRing(ring: Ring, serverNodes: seq<Node>)
    | WriteGc(at: Node -> Time, expire: Time, closes: Node -> bool)
    | WriteClose(closes: Node -> bool)
    | TouchNode(node: Node, now: Time)

  ghost predicate NoReader(s: State) {
    forall t | t in s.pcs :: !s.pcs[t].ReadLocked()
  }

  ghost predicate Enabled(s: State, step: Step) {
    match step
    case CallGet(t, _, _) => t !in s.pcs
    case CallGetByTarget(t, _) => t !in s.pcs
    case CallMigrate(t, _, _) => t !in s.pcs
    case LookUpKey(t) => t in s.pcs && s.pcs[t].GetKey?
    case StoreAccess(t, _) => t in s.pcs && s.pcs[t].Store?
    case LoadClient(t) => t in s.pcs && s.pcs[t].Load?
    case DialFails(t) => t in s.pcs && s.pcs[t].Dial?
    case DialSucceeds(t, _) => t in s.pcs && s.pcs[t].Dial?
    case LookUpPrevious(t) => t in s.pcs && s.pcs[t].GetPrevious?
    case WriteBind(t, dial, _, found) =>
      NoReader(s) && t in s.pcs && s.pcs[t].WantBind? && Finds(s.table, s.pcs[t].key, {}, dial, found)
    case WriteMigrate(t, dial, _, found) =>
      NoReader(s) && t in s.pcs && s.pcs[t].WantMigrate? && Finds(s.table, s.pcs[t].key, s.pcs[t].excluded, dial, found)
    case WriteRename(tmpKey, _) => NoReader(s) && tmpKey in s.table.key2Node
    case WriteRing(_, _) => NoReader(s)
    case WriteGc(_, _, _) => NoReader(s)
    case WriteClose(_) => NoReader(s)
    case TouchNode(_, _) => true
  }

  ghost function Next(s: State, step: Step): State
    requires Enabled(s, step)
  {
    match step
    case CallGet(t, key, stick) => s.(pcs := s.pcs[t := GetKey(key, stick)])
    case CallGetByTarget(t, node) => s.(pcs := s.pcs[t := Store(node, None)])
    case CallMigrate(t, key, exclusive) => s.(pcs := s.pcs[t := GetPrevious(key, exclusive)])
    case LookUpKey(t) =>
      var GetKey(key, stick) := s.pcs[t];
      if key in s.table.key2Node then s.(pcs := s.pcs[t := Store(s.table.key2Node[key], Some(key))])
      else if stick then s.(pcs := s.pcs - {t})
      else s.(pcs := s.pcs[t := WantBind(key)])
    case StoreAccess(t, now) =>
      State(s.table.(access := s.table.access[s.pcs[t].node := now]),
            s.pcs[t := Load(s.pcs[t].node, s.pcs[t].for')])
    case LoadClient(t) =>
      if s.pcs[t].node in s.table.node2Client then s.(pcs := s.pcs - {t})
      else s.(pcs := s.pcs[t := Dial(s.pcs[t].node, s.pcs[t].for')])
    case DialFails(t) => s.(pcs := s.pcs - {t})
    case DialSucceeds(t, client) =>
      State(s.table.(node2Client := s.table.node2Client[s.pcs[t].node := client]), s.pcs - {t})
    case LookUpPrevious(t) =>
      s.(pcs := s.pcs[t := WantMigrate(s.pcs[t].key, Excluded(s.table, s.pcs[t].key, s.pcs[t].exclusive))])
    case WriteBind(t, _, now, found) =>
      State(if found.Some? then Bind(s.table, s.pcs[t].key, found.value, now) else s.table, s.pcs - {t})
    case WriteMigrate(t, _, now, found) =>
      State(if found.Some? then Bind(s.table, s.pcs[t].key, found.value, now) else s.table, s.pcs - {t})
    case WriteRename(tmpKey, realKey) => s.(table := Rename(s.table, tmpKey, realKey))
    case WriteRing(ring, serverNodes) => s.(table := s.table.(ring := ring, serverNodes := serverNodes))
    case WriteGc(at, expire, closes) => s.(table := Evict(s.table, IdleNodes(s.table, at, expire), closes))
    case WriteClose(closes) => s.(table := Evict(s.table, Elements(s.table.serverNodes), closes))
    case TouchNode(node, now) => s.(table := s.table.(access := s.table.access[node := now]))
  }

  ghost predicate IsRun(states: seq<State>, steps: seq<Step>) {
    && |states| == |steps| + 1
    && states[0].table.key2Node == map[] && states[0].pcs == map[]
    && forall i | 0 <= i < |steps| :: Enabled(states[i], steps[i]) && states[i + 1] == Next(states[i], steps[i])
  }

  /** While a thread is read-locked its key stays bound to the node it works on, and a node it has
      found to be without client has no key. */
  ghost predicate PcOk(table: Table, pc: Pc) {
    && ((pc.Store? || pc.Load? || pc.Dial?) && pc.for'.Some? ==>
          pc.for'.value in table.key2Node && table.key2Node[pc.for'.value] == pc.node)
    && (pc.Dial? ==> forall k | k in table.key2Node :: table.key2Node[k] != pc.node)
  }

  ghost predicate ProtocolInv(s: State) {
    Coherent(s.table) && forall t | t in s.pcs :: PcOk(s.table, s.pcs[t])
  }

  lemma StepKeepsInv(s: State, step: Step)
    requires ProtocolInv(s) && Enabled(s, step)
    ensures ProtocolInv(Next(s, step))
  {
    var q := Next(s, step);
    match step {
      case WriteGc(at, expire, closes) => EvictKeepsCoherent(s.table, IdleNodes(s.table, at, expire), closes);
      case WriteClose(closes) => EvictKeepsCoherent(s.table, Elements(s.table.serverNodes), closes);
      case _ =>
    }
    forall t | t in q.pcs ensures PcOk(q.table, q.pcs[t]) {
      assert t in s.pcs ==> PcOk(s.table, s.pcs[t]);
    }
  }

  lemma {:induction false} RunKeepsInv(states: seq<State>, steps: seq<Step>, i: nat)
    requires IsRun(states, steps) && i < |states|
    ensures ProtocolInv(states[i])
  {
    if i > 0 {
      RunKeepsInv(states, steps, i - 1);
      StepKeepsInv(states[i - 1], steps[i - 1]);
    }
  }

  /** In every reachable state every node that any key is bound to has a client and an access time. */
  lemma AlwaysCoherent(states: seq<State>, steps: seq<Step>, i: nat, key: Key)
    requires IsRun(states, steps) && i < |states| && key in states[i].table.key2Node
    ensures states[i].table.key2Node[key] in states[i].table.node2Client
    ensures states[i].table.key2Node[key] in states[i].table.access
  {
    RunKeepsInv(states, steps, i);
  }

  // ---------------------------------------------------------------------------------------------
  // A thread alone
  // ---------------------------------------------------------------------------------------------

  ghost predicate Leads(s: State, steps: seq<Step>, q: State)
    decreases |steps|
  {
    if steps == [] then s == q else Enabled(s, steps[0]) && Leads(Next(s, steps[0]), steps[1..], q)
  }

  lemma LeadsFirst(s: State, step: Step, rest: seq<Step>, q: State)
    requires Enabled(s, step) && Leads(Next(s, step), rest, q)
    ensures Leads(s, [step] + rest, q)
  {
    assert ([step] + rest)[1..] == rest;
  }

  /** The client of a node as loadOrCreateClientConnByNode leaves it. */
  function Loaded(table: Table, n: Node, dial: Dialer): Table {
    if n !in table.node2Client && dial(n).Some? then table.(node2Client := table.node2Client[n := dial(n).value]) else table
  }

  lemma SoloLoad(table: Table, t: Thread, n: Node, for': Option<Key>, dial: Dialer) returns (steps: seq<Step>)
    ensures Leads(State(table, map[t := Load(n, for')]), steps, State(Loaded(table, n, dial), map[]))
  {
    var s, q := State(table, map[t := Load(n, for')]), State(Loaded(table, n, dial), map[]);
    var end: seq<Step> := [];
    if n !in table.node2Client {
      var last := if dial(n).Some? then DialSucceeds(t, dial(n).value) else DialFails(t);
      LeadsFirst(s.(pcs := map[t := Dial(n, for')]), last, end, q);
      end := [last] + end;
    }
    LeadsFirst(s, LoadClient(t), end, q);
    steps := [LoadClient(t)] + end;
  }

  lemma SoloStore(table: Table, t: Thread, n: Node, for': Option<Key>, dial: Dialer, now: Time) returns (steps: seq<Step>)
    ensures Leads(State(table, map[t := Store(n, for')]), steps, State(Loaded(table.(access := table.access[n := now]), n, dial), map[]))
  {
    var touched := table.(access := table.access[n := now]);
    var s := State(table, map[t := Store(n, for')]);
    var rest := SoloLoad(touched, t, n, for', dial);
    assert Next(s, StoreAccess(t, now)) == State(touched, map[t := Load(n, for')]);
    LeadsFirst(s, StoreAccess(t, now), rest, State(Loaded(touched, n, dial), map[]));
    steps := [StoreAccess(t, now)] + rest;
  }

  /** A GetClientConn of a bound key that meets nobody else does what the method does: the access time
      of the node is stored, and a missing client if it can be dialed. */
  lemma SoloGetBound(s: State, t: Thread, key: Key, stick: bool, dial: Dialer, now: Time) returns (steps: seq<Step>)
    requires s.pcs == map[] && key in s.table.key2Node
    ensures var n := s.table.key2Node[key];
            Leads(s, steps, State(Loaded(s.table.(access := s.table.access[n := now]), n, dial), map[]))
  {
    var n := s.table.key2Node[key];
    var q := State(Loaded(s.table.(access := s.table.access[n := now]), n, dial), map[]);
    var s1, s2 := s.(pcs := map[t := GetKey(key, stick)]), s.(pcs := map[t := Store(n, Some(key))]);
    var rest := SoloStore(s.table, t, n, Some(key), dial, now);
    assert Next(s1, LookUpKey(t)) == s2;
    LeadsFirst(s1, LookUpKey(t), rest, q);
    rest := [LookUpKey(t)] + rest;
    assert Next(s, CallGet(t, key, stick)) == s1;
    LeadsFirst(s, CallGet(t, key, stick), rest, q);
    steps := [CallGet(t, key, stick)] + rest;
  }

  /** Of an unbound key: nothing happens if the caller needs the old binding, else the key is bound to
      the candidate that is found, if one is. */
  lemma SoloGetUnbound(s: State, t: Thread, key: Key, stick: bool, dial: Dialer, now: Time, found: Option<Candidate>)
    returns (steps: seq<Step>)
    requires s.pcs == map[] && key !in s.table.key2Node && Finds(s.table, key, {}, dial, found)
    ensures Leads(s, steps, if !stick && found.Some? then s.(table := Bind(s.table, key, found.value, now)) else s)
  {
    var s1 := s.(pcs := map[t := GetKey(key, stick)]);
    var q := if !stick && found.Some? then s.(table := Bind(s.table, key, found.value, now)) else s;
    var end: seq<Step> := [];
    if !stick {
      var s2 := s.(pcs := map[t := WantBind(key)]);
      LeadsFirst(s2, WriteBind(t, dial, now, found), end, q);
      end := [WriteBind(t, dial, now, found)] + end;
    }
    LeadsFirst(s1, LookUpKey(t), end, q);
    LeadsFirst(s, CallGet(t, key, stick), [LookUpKey(t)] + end, q);
    steps := [CallGet(t, key, stick)] + ([LookUpKey(t)] + end);
  }

  /** A TryMigrate that meets nobody else binds the key to what is found outside its list and off the
      node it is on. */
  lemma SoloMigrate(s: State, t: Thread, key: Key, exclusive: set<Node>, dial: Dialer, now: Time, found: Option<Candidate>)
    returns (steps: seq<Step>)
    requires s.pcs == map[]
    requires Finds(s.table, key, exclusive + (if key in s.table.key2Node then {s.table.key2Node[key]} else {}), dial, found)
    ensures Leads(s, steps, if found.Some? then s.(table := Bind(s.table, key, found.value, now)) else s)
  {
    var excluded := exclusive + if key in s.table.key2Node then {s.table.key2Node[key]} else {};
    var s1 := s.(pcs := map[t := GetPrevious(key, exclusive)]);
    var s2 := s.(pcs := map[t := WantMigrate(key, excluded)]);
    var q := if found.Some? then s.(table := Bind(s.table, key, found.value, now)) else s;
    LeadsFirst(s2, WriteMigrate(t, dial, now, found), [], q);
    LeadsFirst(s1, LookUpPrevious(t), [WriteMigrate(t, dial, now, found)] + [], q);
    steps := [CallMigrate(t, key, exclusive)] + ([LookUpPrevious(t)] + ([WriteMigrate(t, dial, now, found)] + []));
    LeadsFirst(s, CallMigrate(t, key, exclusive), [LookUpPrevious(t)] + ([WriteMigrate(t, dial, now, found)] + []), q);
  }

  /** A GetClientConnByTarget that meets nobody else stores the access time of its node, and a missing
      client if it can be dialed. */
  lemma SoloGetByTarget(s: State, t: Thread, n: Node, dial: Dialer, now: Time) returns (steps: seq<Step>)
    requires s.pcs == map[]
    ensures Leads(s, steps, State(Loaded(s.table.(access := s.table.access[n := now]), n, dial), map[]))
  {
    var rest := SoloStore(s.table, t, n, None, dial, now);
    assert Next(s, CallGetByTarget(t, n)) == s.(pcs := map[t := Store(n, None)]);
    LeadsFirst(s, CallGetByTarget(t, n), rest, State(Loaded(s.table.(access := s.table.access[n := now]), n, dial), map[]));
    steps := [CallGetByTarget(t, n)] + rest;
  }

  /** The write-locked sections can be run as soon as nobody reads, leave all threads where they are,
      and do to the table what the methods do: renaming, a new ring, a collection, a close. */
  lemma WriteSections(s: State, tmpKey: Key, realKey: Key, ring: Ring, nodes: seq<Node>, at: Node -> Time, expire: Time,
                      closes: Node -> bool)
    requires NoReader(s)
    ensures tmpKey in s.table.key2Node ==>
              && Enabled(s, WriteRename(tmpKey, realKey))
              && Next(s, WriteRename(tmpKey, realKey)) == s.(table := Rename(s.table, tmpKey, realKey))
    ensures Enabled(s, WriteRing(ring, nodes)) && Next(s, WriteRing(ring, nodes)) == s.(table := s.table.(ring := ring, serverNodes := nodes))
    ensures Enabled(s, WriteGc(at, expire, closes)) && Next(s, WriteGc(at, expire, closes)).pcs == s.pcs
    ensures var q := Next(s, WriteGc(at, expire, closes)).table;
            && (forall n :: n in q.node2Client <==>
                  n in s.table.node2Client && !(n in s.table.access && at(n) - s.table.access[n] >= expire && closes(n)))
            && (forall n :: n in q.access <==> n in s.table.access && at(n) - s.table.access[n] < expire)
            && (forall k :: k in q.key2Node <==>
                  && k in s.table.key2Node
                  && var n := s.table.key2Node[k]; n in s.table.access ==> at(n) - s.table.access[n] < expire)
    ensures Enabled(s, WriteClose(closes)) && Next(s, WriteClose(closes)).pcs == s.pcs
    ensures var q := Next(s, WriteClose(closes)).table;
            && (forall n :: n in q.node2Client <==> n in s.table.node2Client && !(n in s.table.serverNodes && closes(n)))
            && (forall n :: n in q.access <==> n in s.table.access && n !in s.table.serverNodes)
            && (forall k :: k in q.key2Node <==> k in s.table.key2Node && s.table.key2Node[k] !in s.table.serverNodes)
  {
  }

  /** An access time is stored at any time, without a lock. */
  lemma TouchIsFree(s: State, n: Node, now: Time)
    ensures Enabled(s, TouchNode(n, now))
    ensures Next(s, TouchNode(n, now)) == s.(table := s.table.(access := s.table.access[n := now]))
  {
  }

  // ---------------------------------------------------------------------------------------------
  // First binder wins
  // ---------------------------------------------------------------------------------------------

  /** Binding and migrating never give a node that has a client another one. */
  lemma WritersKeepClients(s: State, step: Step, node: Node)
    requires Enabled(s, step) && (step.WriteBind? || step.WriteMigrate?) && node in s.table.node2Client
    ensures node in Next(s, step).table.node2Client
    ensures Next(s, step).table.node2Client[node] == s.table.node2Client[node]
  {
    if step.found.Some? {
      FoundIsAllowed(s.table, s.pcs[step.t].key, if step.WriteBind? then {} else s.pcs[step.t].excluded, step.dial, step.found.value);
    }
  }

  /** The step ends a GetClientConn of the key with this node and client. */
  ghost predicate Returns(s: State, step: Step, key: Key, c: Candidate)
    requires Enabled(s, step)
  {
    match step
    case LoadClient(t) =>
      && s.pcs[t].for' == Some(key) && s.pcs[t].node == c.node
      && c.node in s.table.node2Client && s.table.node2Client[c.node] == c.client
    case DialSucceeds(t, client) => s.pcs[t].for' == Some(key) && s.pcs[t].node == c.node && c.client == client
    case WriteBind(t, _, _, found) => s.pcs[t].key == key && found == Some(c)
    case _ => false
  }

  /** A successful migration or a renaming of the key, or a GC or close of the node it is on. */
  ghost predicate Disturbs(s: State, step: Step, key: Key)
    requires Enabled(s, step)
  {
    match step
    case WriteMigrate(t, _, _, found) => s.pcs[t].key == key && found.Some?
    case WriteRename(tmpKey, realKey) => tmpKey != realKey && (tmpKey == key || realKey == key)
    case WriteGc(at, expire, _) => key in s.table.key2Node && s.table.key2Node[key] in IdleNodes(s.table, at, expire)
    case WriteClose(_) => key in s.table.key2Node && s.table.key2Node[key] in s.table.serverNodes
    case _ => false
  }

  ghost predicate BoundTo(table: Table, key: Key, c: Candidate) {
    && key in table.key2Node && table.key2Node[key] == c.node
    && c.node in table.node2Client && table.node2Client[c.node] == c.client
  }

  lemma ReturnBinds(s: State, step: Step, key: Key, c: Candidate)
    requires ProtocolInv(s) && Enabled(s, step) && Returns(s, step, key, c)
    ensures BoundTo(Next(s, step).table, key, c)
  {
    assert step.LoadClient? || step.DialSucceeds? ==> PcOk(s.table, s.pcs[step.t]);
  }

  lemma BindingStays(s: State, step: Step, key: Key, c: Candidate)
    requires ProtocolInv(s) && Enabled(s, step) && BoundTo(s.table, key, c) && !Disturbs(s, step, key)
    ensures BoundTo(Next(s, step).table, key, c)
  {
    match step
    case DialSucceeds(t, _) => assert PcOk(s.table, s.pcs[t]);
    case WriteBind(t, dial, _, found) =>
      if found.Some? {
        FoundIsAllowed(s.table, s.pcs[t].key, {}, dial, found.value);
        assert s.pcs[t].key == key ==> Stays(s.table, key, {});
      }
    case WriteMigrate(t, dial, _, found) =>
      if found.Some? {
        FoundIsAllowed(s.table, s.pcs[t].key, s.pcs[t].excluded, dial, found.value);
      }
    case _ =>
  }

  lemma BoundReturnsBinding(s: State, step: Step, key: Key, c: Candidate, c': Candidate)
    requires ProtocolInv(s) && Enabled(s, step) && BoundTo(s.table, key, c) && Returns(s, step, key, c')
    ensures c' == c
  {
    match step
    case LoadClient(t) => assert PcOk(s.table, s.pcs[t]);
    case WriteBind(t, dial, _, found) => assert Stays(s.table, key, {});
    case _ =>
  }

  lemma {:induction false} BindingLasts(states: seq<State>, steps: seq<Step>, i: nat, j: nat, key: Key, c: Candidate)
    requires IsRun(states, steps) && i <= j < |states| && BoundTo(states[i].table, key, c)
    requires forall m | i <= m < j :: !Disturbs(states[m], steps[m], key)
    ensures BoundTo(states[j].table, key, c)
    decreases j
  {
    if i < j {
      BindingLasts(states, steps, i, j - 1, key, c);
      RunKeepsInv(states, steps, j - 1);
      BindingStays(states[j - 1], steps[j - 1], key, c);
    }
  }

  /** However many GetClientConn calls race for a key, all of them end on the node and the client of
      the first one, until something migrates, renames, collects or closes the binding. */
  lemma FirstBinderWins(states: seq<State>, steps: seq<Step>, i: nat, j: nat, key: Key, c: Candidate, c': Candidate)
    requires IsRun(states, steps) && i < j < |steps|
    requires Returns(states[i], steps[i], key, c) && Returns(states[j], steps[j], key, c')
    requires forall m | i <= m < j :: !Disturbs(states[m], steps[m], key)
    ensures c' == c
  {
    RunKeepsInv(states, steps, i);
    ReturnBinds(states[i], steps[i], key, c);
    BindingLasts(states, steps, i + 1, j, key, c);
    RunKeepsInv(states, steps, j);
    BoundReturnsBinding(states[j], steps[j], key, c, c');
  }

  // ---------------------------------------------------------------------------------------------
  // Migration across the window
  // ---------------------------------------------------------------------------------------------

  ghost predicate IsStepOf(step: Step, t: Thread) {
    && !step.WriteRename? && !step.WriteRing? && !step.WriteGc? && !step.WriteClose? && !step.TouchNode?
    && step.t == t
  }

  lemma OtherThreadsStay(s: State, step: Step, t: Thread)
    requires Enabled(s, step) && !IsStepOf(step, t) && t in s.pcs
    ensures t in Next(s, step).pcs && Next(s, step).pcs[t] == s.pcs[t]
  {
  }

  lemma {:induction false} PcStays(states: seq<State>, steps: seq<Step>, i: nat, j: nat, t: Thread)
    requires IsRun(states, steps) && i <= j < |states| && t in states[i].pcs
    requires forall m | i <= m < j :: !IsStepOf(steps[m], t)
    ensures t in states[j].pcs && states[j].pcs[t] == states[i].pcs[t]
    decreases j
  {
    if i < j {
      PcStays(states, steps, i, j - 1, t);
      OtherThreadsStay(states[j - 1], steps[j - 1], t);
    }
  }

  /** Whatever happens between the read and the write section of a TryMigrate, even a rebinding of its
      key, it ends on a node outside its exclusive list and other than the previous node it read. */
  lemma MigrationAvoidsPrevious(states: seq<State>, steps: seq<Step>, i: nat, j: nat, t: Thread)
    requires IsRun(states, steps) && i < j < |steps|
    requires steps[i] == LookUpPrevious(t) && steps[j].WriteMigrate? && steps[j].t == t && steps[j].found.Some?
    requires forall m | i < m < j :: !IsStepOf(steps[m], t)
    ensures Enabled(states[i], steps[i])
    ensures var GetPrevious(key, exclusive) := states[i].pcs[t];
            && key in states[j + 1].table.key2Node
            && states[j + 1].table.key2Node[key] !in exclusive
            && (key in states[i].table.key2Node ==> states[j + 1].table.key2Node[key] != states[i].table.key2Node[key])
  {
    assert Enabled(states[i], steps[i]) && states[i + 1] == Next(states[i], steps[i]);
    PcStays(states, steps, i + 1, j, t);
    var s := states[j];
    assert Enabled(s, steps[j]);
    FoundIsAllowed(s.table, s.pcs[t].key, s.pcs[t].excluded, steps[j].dial, steps[j].found.value);
  }
}
