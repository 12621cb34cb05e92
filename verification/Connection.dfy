/**
  The connection table of pkg/rpc/client.go and its garbage collection in pkg/rpc/client_util.go.

  A `Connection` binds hash keys to server nodes (`key2NodeMap`), nodes to dialed clients
  (`node2ClientMap`) and nodes to their last access (`accessNodeMap`), and picks nodes for new keys
  from a consistent-hash ring. This module has the table as a value with the effect of every locked
  section on it, and the class whose methods run those sections; `ConnectionProtocol` lets threads
  interleave them.

  Dialing and closing are oracles: `dial(n)` is the outcome of dialing n during the call at hand,
  `closes(n)` tells whether closing the client of n succeeds.
 */
module Connection {

  type Key = string
  type Node = string
  type Client = nat
  type Time = int

  import opened Wrappers

  /** The hash ring: for every key an order in which each ring node appears exactly once. */
  datatype Ring = Ring(nodes: set<Node>, order: Key -> seq<Node>) {
    ghost predicate Valid() {
      forall k: Key :: NoDuplicates(order(k)) && Elements(order(k)) == nodes
    }
  }

  ghost predicate NoDuplicates<T>(s: seq<T>) {
    forall i, j | 0 <= i < j < |s| :: s[i] != s[j]
  }

  function Elements<T>(s: seq<T>): set<T> {
    set x | x in s
  }

  datatype Table = Table(
    key2Node: map<Key, Node>,
    node2Client: map<Node, Client>,
    access: map<Node, Time>,
    ring: Ring,
    serverNodes: seq<Node>)

  datatype Candidate = Candidate(node: Node, client: Client)

  type Dialer = Node -> Option<Client>

  /** Every node that a key is bound to has a client and an access time. */
  ghost predicate Coherent(t: Table) {
    forall k | k in t.key2Node :: t.key2Node[k] in t.node2Client && t.key2Node[k] in t.access
  }

  // ---------------------------------------------------------------------------------------------
  // Finding a node
  // ---------------------------------------------------------------------------------------------

  predicate Usable(clients: map<Node, Client>, dial: Dialer, n: Node) {
    n in clients || dial(n).Some?
  }

  function ClientOf(clients: map<Node, Client>, dial: Dialer, n: Node): Client
    requires Usable(clients, dial, n)
  {
    if n in clients then clients[n] else dial(n).value
  }

  /** The candidate is the first node of `nodes` that is not excluded and has, or gets, a client. */
  ghost predicate IsFirstUsable(nodes: seq<Node>, excluded: set<Node>, clients: map<Node, Client>, dial: Dialer, c: Candidate) {
    exists i :: && 0 <= i < |nodes| && nodes[i] == c.node
                && c.node !in excluded && Usable(clients, dial, c.node) && c.client == ClientOf(clients, dial, c.node)
                && forall j | 0 <= j < i :: nodes[j] in excluded || !Usable(clients, dial, nodes[j])
  }

  ghost predicate NoneUsable(nodes: seq<Node>, excluded: set<Node>, clients: map<Node, Client>, dial: Dialer) {
    forall n | n in nodes :: n in excluded || !Usable(clients, dial, n)
  }

  /** The key is bound to an allowed node that has a client: it stays where it is. */
  predicate Stays(t: Table, key: Key, excluded: set<Node>) {
    key in t.key2Node && t.key2Node[key] !in excluded && t.key2Node[key] in t.node2Client
  }

  /** What findCandidateClientConn promises, for every table, ring and set of excluded nodes. */
  ghost predicate Finds(t: Table, key: Key, excluded: set<Node>, dial: Dialer, r: Option<Candidate>) {
    if Stays(t, key, excluded) then
      r == Some(Candidate(t.key2Node[key], t.node2Client[t.key2Node[key]]))
    else match r
      case Some(c) => IsFirstUsable(t.ring.order(key), excluded, t.node2Client, dial, c)
      case None => NoneUsable(t.ring.order(key), excluded, t.node2Client, dial)
  }

  /** The promise leaves no choice. */
  lemma FindsIsUnique(t: Table, key: Key, excluded: set<Node>, dial: Dialer, r: Option<Candidate>, r': Option<Candidate>)
    requires Finds(t, key, excluded, dial, r) && Finds(t, key, excluded, dial, r')
    ensures r == r'
  {
    if !Stays(t, key, excluded) && r.Some? && r'.Some? {
      var nodes := t.ring.order(key);
      var i :| && 0 <= i < |nodes| && nodes[i] == r.value.node
               && forall j | 0 <= j < i :: nodes[j] in excluded || !Usable(t.node2Client, dial, nodes[j]);
      var i' :| && 0 <= i' < |nodes| && nodes[i'] == r'.value.node
                && forall j | 0 <= j < i' :: nodes[j] in excluded || !Usable(t.node2Client, dial, nodes[j]);
      assert !(i < i') && !(i' < i);
    }
  }

  /** The promise in full: the bound node if it is allowed and has a client; else the first ring node
      that is allowed and has a client or can be dialed, with that client; else none. */
  lemma FindsMeans(t: Table, key: Key, excluded: set<Node>, dial: Dialer, r: Option<Candidate>)
    requires Finds(t, key, excluded, dial, r)
    ensures key in t.key2Node && t.key2Node[key] !in excluded && t.key2Node[key] in t.node2Client ==>
              r == Some(Candidate(t.key2Node[key], t.node2Client[t.key2Node[key]]))
    ensures !(key in t.key2Node && t.key2Node[key] !in excluded && t.key2Node[key] in t.node2Client) ==>
              && (r.None? <==> forall n | n in t.ring.order(key) :: n in excluded || (n !in t.node2Client && dial(n).None?))
              && (r.Some? ==>
                    exists i :: && 0 <= i < |t.ring.order(key)| && t.ring.order(key)[i] == r.value.node && r.value.node !in excluded
                                && (if r.value.node in t.node2Client then r.value.client == t.node2Client[r.value.node]
                                    else dial(r.value.node) == Some(r.value.client))
                                && forall j | 0 <= j < i :: var n := t.ring.order(key)[j];
                                     n in excluded || (n !in t.node2Client && dial(n).None?))
  {
    if !Stays(t, key, excluded) && r.Some? {
      assert r.value.node in t.ring.order(key);
    }
  }

  /** A found node never is an excluded one, and keeps the client it has. */
  lemma FoundIsAllowed(t: Table, key: Key, excluded: set<Node>, dial: Dialer, c: Candidate)
    requires Finds(t, key, excluded, dial, Some(c))
    ensures c.node !in excluded
    ensures c.node in t.node2Client ==> t.node2Client[c.node] == c.client
  {
  }

  // ---------------------------------------------------------------------------------------------
  // What the locked sections do to the table
  // ---------------------------------------------------------------------------------------------

  function Bind(t: Table, key: Key, c: Candidate, now: Time): Table {
    t.(key2Node := t.key2Node[key := c.node],
       node2Client := t.node2Client[c.node := c.client],
       access := t.access[c.node := now])
  }

  function Rename(t: Table, tmpKey: Key, realKey: Key): Table
    requires tmpKey in t.key2Node
  {
    if tmpKey == realKey then t else t.(key2Node := t.key2Node[realKey := t.key2Node[tmpKey]] - {tmpKey})
  }

  /** Drop nodes with every key bound to them; their clients go unless closing them fails. */
  ghost function Evict(t: Table, nodes: set<Node>, closes: Node -> bool): Table {
    t.(key2Node := map k | k in t.key2Node && t.key2Node[k] !in nodes :: t.key2Node[k],
       node2Client := map n | n in t.node2Client && !(n in nodes && closes(n)) :: t.node2Client[n],
       access := map n | n in t.access && n !in nodes :: t.access[n])
  }

  /** The nodes a GC pass finds idle when it looks at node n at time at(n). */
  ghost function IdleNodes(t: Table, at: Node -> Time, expire: Time): set<Node> {
    set n | n in t.access && at(n) - t.access[n] >= expire
  }

  // ---------------------------------------------------------------------------------------------
  // The object
  // ---------------------------------------------------------------------------------------------

  datatype Cause = DeadlineExceeded | Canceled | DfError(resourceLacked: bool) | OtherCause

  predicate MayMigrate(cause: Cause) {
    match cause
    case DeadlineExceeded => false
    case Canceled => false
    case DfError(lacked) => lacked
    case OtherCause => true
  }

  class Conn {
    var key2Node: map<Key, Node>
    var node2Client: map<Node, Client>
    var access: map<Node, Time>
    var ring: Ring
    var serverNodes: seq<Node>
    const expire: Time

    ghost function View(): Table
      reads this
    {
      Table(key2Node, node2Client, access, ring, serverNodes)
    }

    constructor (ring: Ring, serverNodes: seq<Node>, expire: Time)
      ensures View() == Table(map[], map[], map[], ring, serverNodes) && Coherent(View())
      ensures this.expire == expire
    {
      key2Node, node2Client, access := map[], map[], map[];
      this.ring, this.serverNodes, this.expire := ring, serverNodes, expire;
    }

    method FindCandidate(key: Key, excluded: set<Node>, dial: Dialer) returns (r: Option<Candidate>)
      ensures Finds(View(), key, excluded, dial, r)
    {
      if key in key2Node && key2Node[key] !in excluded && key2Node[key] in node2Client {
        return Some(Candidate(key2Node[key], node2Client[key2Node[key]]));
      }
      var ringNodes := ring.order(key);
      for i := 0 to |ringNodes|
        invariant forall j | 0 <= j < i :: ringNodes[j] in excluded || !Usable(node2Client, dial, ringNodes[j])
      {
        var n := ringNodes[i];
        if n !in excluded {
          if n in node2Client {
            return Some(Candidate(n, node2Client[n]));
          }
          match dial(n) {
            case Some(client) => return Some(Candidate(n, client));
            case None =>
          }
        }
      }
      r := None;
    }

    /** GetClientConn once it holds the write lock. */
    method BindAbsent(key: Key, dial: Dialer, now: Time) returns (client: Option<Client>)
      modifies this
      ensures exists r :: && Finds(old(View()), key, {}, dial, r)
                          && (r.None? ==> client == None && View() == old(View()))
                          && (r.Some? ==> client == Some(r.value.client) && View() == Bind(old(View()), key, r.value, now))
      ensures old(Coherent(View())) ==> Coherent(View())
    {
      var r := FindCandidate(key, {}, dial);
      match r {
        case None =>
          client := None;
        case Some(c) =>
          key2Node := key2Node[key := c.node];
          node2Client := node2Client[c.node := c.client];
          access := access[c.node := now];
          client := Some(c.client);
      }
    }

    method LoadOrCreateByNode(node: Node, dial: Dialer, now: Time) returns (client: Option<Client>)
      modifies this
      ensures access == old(access)[node := now] && key2Node == old(key2Node)
      ensures client == if Usable(old(node2Client), dial, node) then Some(ClientOf(old(node2Client), dial, node)) else None
      ensures node2Client == if client.Some? then old(node2Client)[node := client.value] else old(node2Client)
      ensures ring == old(ring) && serverNodes == old(serverNodes)
      ensures old(Coherent(View())) ==> Coherent(View())
    {
      access := access[node := now];
      if node in node2Client {
        return Some(node2Client[node]);
      }
      client := dial(node);
      if client.Some? {
        node2Client := node2Client[node := client.value];
      }
    }

    /** GetClientConn without interference; None is the error return. */
    method GetClientConn(key: Key, stick: bool, dial: Dialer, now: Time) returns (client: Option<Client>)
      modifies this
      ensures old(Coherent(View())) ==> Coherent(View())
      ensures client.Some? ==> && key in key2Node && key2Node[key] in node2Client && client.value == node2Client[key2Node[key]]
                               && key2Node[key] in access && access[key2Node[key]] == now
      ensures stick && key !in old(key2Node) ==> client == None && View() == old(View())
      ensures key in old(key2Node) ==>
                var n := old(key2Node)[key];
                && key2Node == old(key2Node)
                && client == if n in old(node2Client) then Some(old(node2Client)[n]) else dial(n)
      ensures key !in old(key2Node) && !stick ==>
                && (client.Some? <==> exists n :: n in old(ring).order(key) && (n in old(node2Client) || dial(n).Some?))
                && (client.Some? ==> Finds(old(View()), key, {}, dial, Some(Candidate(key2Node[key], client.value))))
                && (client.None? ==> View() == old(View()))
      ensures forall k | k != key :: (k in key2Node <==> k in old(key2Node)) && (k in key2Node ==> key2Node[k] == old(key2Node)[k])
      ensures forall n | n in old(node2Client) :: n in node2Client && node2Client[n] == old(node2Client)[n]
    {
      if stick && key !in key2Node {
        return None;
      }
      if key in key2Node {
        client := LoadOrCreateByNode(key2Node[key], dial, now);
      } else {
        client := BindAbsent(key, dial, now);
        ghost var r :| && Finds(old(View()), key, {}, dial, r)
                       && (r.None? ==> client == None && View() == old(View()))
                       && (r.Some? ==> client == Some(r.value.client) && View() == Bind(old(View()), key, r.value, now));
        FindsMeans(old(View()), key, {}, dial, r);
        assert r.Some? ==> r.value.node in old(ring).order(key);
      }
    }

    /** TryMigrate without interference: the read section, then the write section. */
    method TryMigrate(key: Key, cause: Cause, exclusive: set<Node>, dial: Dialer, now: Time) returns (preNode: Option<Node>, ok: bool)
      modifies this
      ensures ok <==> && cause != DeadlineExceeded && cause != Canceled && (cause.DfError? ==> cause.resourceLacked)
                      && exists n :: && n in old(ring).order(key) && n !in exclusive
                                     && (key in old(key2Node) ==> n != old(key2Node)[key])
                                     && (n in old(node2Client) || dial(n).Some?)
      ensures !ok ==> preNode == None && View() == old(View())
      ensures ok ==> && MayMigrate(cause)
                     && preNode == (if key in old(key2Node) then Some(old(key2Node)[key]) else None)
                     && Migrates(old(View()), key, exclusive, dial, now, View())
      ensures old(Coherent(View())) ==> Coherent(View())
    {
      if cause == DeadlineExceeded || cause == Canceled {
        return None, false;
      }
      if cause.DfError? && !cause.resourceLacked {
        return None, false;
      }
      var excluded := exclusive;
      preNode := None;
      if key in key2Node {
        preNode := Some(key2Node[key]);
        excluded := excluded + {key2Node[key]};
      }
      var r := FindCandidate(key, excluded, dial);
      FindsMeans(View(), key, excluded, dial, r);
      match r {
        case None =>
          return None, false;
        case Some(c) =>
          key2Node := key2Node[key := c.node];
          node2Client := node2Client[c.node := c.client];
          access := access[c.node := now];
          ok := true;
          assert View() == Bind(old(View()), key, c, now);
      }
    }

    /** The type assertion on the node of an unbound temporary key panics. */
    method CorrectKey2NodeRelation(tmpKey: Key, realKey: Key) returns (panicked: bool)
      modifies this
      ensures panicked <==> tmpKey != realKey && tmpKey !in old(key2Node)
      ensures View() == if tmpKey in old(key2Node) then Rename(old(View()), tmpKey, realKey) else old(View())
      ensures tmpKey in old(key2Node) && tmpKey != realKey ==>
                && tmpKey !in key2Node && realKey in key2Node && key2Node[realKey] == old(key2Node)[tmpKey]
                && forall k | k != tmpKey && k != realKey ::
                     (k in key2Node <==> k in old(key2Node)) && (k in key2Node ==> key2Node[k] == old(key2Node)[k])
      ensures old(Coherent(View())) ==> Coherent(View())
    {
      if tmpKey == realKey {
        return false;
      }
      if tmpKey !in key2Node {
        return true;
      }
      panicked := false;
      var serverNode := key2Node[tmpKey];
      key2Node := key2Node[realKey := serverNode];
      key2Node := key2Node - {tmpKey};
    }

    method UpdateState(ring: Ring, addrs: seq<Node>)
      modifies this
      ensures View() == old(View()).(ring := ring, serverNodes := addrs)
    {
      this.serverNodes := addrs;
      this.ring := ring;
    }

    /** The loop of gcConn over the keys. */
    method DropKeys(node: Node)
      modifies this`key2Node
      ensures key2Node == map k | k in old(key2Node) && old(key2Node)[k] != node :: old(key2Node)[k]
    {
      var keys := key2Node.Keys;
      while keys != {}
        invariant keys <= old(key2Node).Keys
        invariant key2Node == map k | k in old(key2Node) && (k in keys || old(key2Node)[k] != node) :: old(key2Node)[k]
        decreases keys
      {
        var k :| k in keys;
        if key2Node[k] == node {
          key2Node := key2Node - {k};
        }
        keys := keys - {k};
      }
    }

    method GcConn(node: Node, closes: Node -> bool)
      modifies this
      ensures View() == Evict(old(View()), {node}, closes)
      ensures node in node2Client <==> node in old(node2Client) && !closes(node)
      ensures node !in access && forall k | k in key2Node :: key2Node[k] != node
    {
      if node in node2Client && closes(node) {
        node2Client := node2Client - {node};
      }
      DropKeys(node);
      access := access - {node};
    }

    /** One pass of startGC, looking at node n at time at(n). */
    method GcPass(at: Node -> Time, closes: Node -> bool)
      modifies this
      ensures View() == Evict(old(View()), IdleNodes(old(View()), at, expire), closes)
      ensures forall n :: n in node2Client <==>
                n in old(node2Client) && !(n in old(access) && at(n) - old(access)[n] >= expire && closes(n))
      ensures forall n :: n in access <==> n in old(access) && at(n) - old(access)[n] < expire
      ensures forall k :: k in key2Node <==>
                k in old(key2Node) && (var n := old(key2Node)[k]; n in old(access) ==> at(n) - old(access)[n] < expire)
      ensures (forall n | n in node2Client :: node2Client[n] == old(node2Client)[n])
              && (forall n | n in access :: access[n] == old(access)[n])
              && (forall k | k in key2Node :: key2Node[k] == old(key2Node)[k])
      ensures ring == old(ring) && serverNodes == old(serverNodes)
      ensures old(Coherent(View())) ==> Coherent(View())
    {
      var nodes := access.Keys;
      ghost var gone: set<Node> := {};
      EvictNothing(View(), closes);
      while nodes != {}
        invariant nodes + gone <= old(access).Keys && nodes !! gone
        invariant View() == Evict(old(View()), gone, closes)
        invariant gone == set n | n in IdleNodes(old(View()), at, expire) && n !in nodes
        decreases nodes
      {
        var n :| n in nodes;
        assert access[n] == old(access)[n];
        nodes := nodes - {n};
        if at(n) - access[n] >= expire {
          GcConn(n, closes);
          EvictMore(old(View()), gone, n, closes);
          gone := gone + {n};
        }
      }
      assert gone == IdleNodes(old(View()), at, expire);
      EvictKeepsCoherent(old(View()), gone, closes);
    }

    /** Close; the ring returned by RemoveNode is dropped, so the ring stays as it is. */
    method Close(closes: Node -> bool)
      modifies this
      ensures View() == Evict(old(View()), Elements(old(serverNodes)), closes)
      ensures forall n :: n in node2Client <==> n in old(node2Client) && !(n in old(serverNodes) && closes(n))
      ensures forall n :: n in access <==> n in old(access) && n !in old(serverNodes)
      ensures forall k :: k in key2Node <==> k in old(key2Node) && old(key2Node)[k] !in old(serverNodes)
      ensures (forall n | n in node2Client :: node2Client[n] == old(node2Client)[n])
              && (forall n | n in access :: access[n] == old(access)[n])
              && (forall k | k in key2Node :: key2Node[k] == old(key2Node)[k])
      ensures ring == old(ring) && serverNodes == old(serverNodes)
      ensures old(Coherent(View())) ==> Coherent(View())
    {
      EvictNothing(View(), closes);
      for i := 0 to |serverNodes|
        invariant serverNodes == old(serverNodes)
        invariant View() == Evict(old(View()), Elements(serverNodes[..i]), closes)
      {
        GcConn(serverNodes[i], closes);
        EvictMore(old(View()), Elements(serverNodes[..i]), serverNodes[i], closes);
        assert Elements(serverNodes[..i + 1]) == Elements(serverNodes[..i]) + {serverNodes[i]};
      }
      assert serverNodes[..|serverNodes|] == serverNodes;
      EvictKeepsCoherent(old(View()), Elements(serverNodes), closes);
    }
  }

  lemma EvictNothing(t: Table, closes: Node -> bool)
    ensures Evict(t, {}, closes) == t
  {
  }

  lemma EvictMore(t: Table, gone: set<Node>, n: Node, closes: Node -> bool)
    ensures Evict(Evict(t, gone, closes), {n}, closes) == Evict(t, gone + {n}, closes)
  {
    var a, b := Evict(Evict(t, gone, closes), {n}, closes), Evict(t, gone + {n}, closes);
    assert a.key2Node == b.key2Node;
    assert a.node2Client == b.node2Client;
    assert a.access == b.access;
  }

  /** Closing and GC never leave a key on a node without client, even when closing clients fails. */
  lemma EvictKeepsCoherent(t: Table, nodes: set<Node>, closes: Node -> bool)
    ensures Coherent(t) ==> Coherent(Evict(t, nodes, closes))
  {
  }

  /** After a collection or a close, a node whose client has been closed is served only with a client
      that has been dialed anew. */
  lemma ClosedIsDialedAnew(t: Table, nodes: set<Node>, closes: Node -> bool, key: Key, excluded: set<Node>, dial: Dialer, c: Candidate)
    requires c.node in nodes && closes(c.node) && Finds(Evict(t, nodes, closes), key, excluded, dial, Some(c))
    ensures dial(c.node) == Some(c.client)
  {
    FindsMeans(Evict(t, nodes, closes), key, excluded, dial, Some(c));
  }

  // ---------------------------------------------------------------------------------------------
  // Migration chains
  // ---------------------------------------------------------------------------------------------

  /** The nodes a migration may not choose: the caller's list and the node the key is bound to. */
  function Excluded(t: Table, key: Key, exclusive: set<Node>): set<Node> {
    exclusive + if key in t.key2Node then {t.key2Node[key]} else {}
  }

  /** A successful TryMigrate. */
  ghost predicate Migrates(t: Table, key: Key, exclusive: set<Node>, dial: Dialer, now: Time, t': Table) {
    exists c :: Finds(t, key, Excluded(t, key, exclusive), dial, Some(c)) && t' == Bind(t, key, c, now)
  }

  /** It moves the key to a ring node outside the exclusive list, other than the one it was on. */
  lemma MigratesAway(t: Table, key: Key, exclusive: set<Node>, dial: Dialer, now: Time, t': Table)
    requires Migrates(t, key, exclusive, dial, now, t') && t.ring.Valid()
    ensures key in t'.key2Node && t'.key2Node[key] in t.ring.nodes && t'.key2Node[key] !in exclusive
    ensures key in t.key2Node ==> t'.key2Node[key] != t.key2Node[key]
    ensures forall k | k != key && k in t.key2Node :: k in t'.key2Node && t'.key2Node[k] == t.key2Node[k]
    ensures forall n | n in t.node2Client :: n in t'.node2Client && t'.node2Client[n] == t.node2Client[n]
    ensures var n := t'.key2Node[key];
            && n in t'.access && t'.access[n] == now
            && n in t'.node2Client && (n !in t.node2Client ==> dial(n) == Some(t'.node2Client[n]))
            && forall m | m != n && m in t.access :: m in t'.access && t'.access[m] == t.access[m]
    ensures Coherent(t) ==> Coherent(t')
  {
    var c :| Finds(t, key, Excluded(t, key, exclusive), dial, Some(c)) && t' == Bind(t, key, c, now);
    assert !Stays(t, key, Excluded(t, key, exclusive));
    assert IsFirstUsable(t.ring.order(key), Excluded(t, key, exclusive), t.node2Client, dial, c);
    assert c.node in Elements(t.ring.order(key));
  }

  /** One caller that migrates a key again and again, adding each previous node to its exclusive
      list, on a fixed ring; others may change the table between the calls but not this binding. */
  datatype Hop = Hop(before: Table, exclusive: set<Node>, dial: Dialer, now: Time, after: Table)

  ghost predicate Continues(key: Key, hop: Hop, next: Hop) {
    && key in hop.after.key2Node && key in next.before.key2Node
    && next.before.key2Node[key] == hop.after.key2Node[key]
    && next.exclusive >= Excluded(hop.before, key, hop.exclusive)
  }

  ghost predicate IsChain(key: Key, ring: Ring, hops: seq<Hop>) {
    && (forall i | 0 <= i < |hops| ::
          hops[i].before.ring == ring && Migrates(hops[i].before, key, hops[i].exclusive, hops[i].dial, hops[i].now, hops[i].after))
    && (forall i, j | 0 <= i < j < |hops| && j == i + 1 :: Continues(key, hops[i], hops[j]))
  }

  lemma {:induction false} ChainExcludes(key: Key, ring: Ring, hops: seq<Hop>, i: nat, j: nat)
    requires ring.Valid() && IsChain(key, ring, hops) && i < j < |hops|
    requires key in hops[i].after.key2Node
    ensures hops[i].after.key2Node[key] in Excluded(hops[j].before, key, hops[j].exclusive)
    decreases j
  {
    assert Continues(key, hops[j - 1], hops[j]);
    if i < j - 1 {
      ChainExcludes(key, ring, hops, i, j - 1);
    }
  }

  lemma {:induction false} StartIsExcluded(key: Key, ring: Ring, hops: seq<Hop>, j: nat)
    requires IsChain(key, ring, hops) && j < |hops| && key in hops[0].before.key2Node
    ensures hops[0].before.key2Node[key] in Excluded(hops[j].before, key, hops[j].exclusive)
  {
    if j > 0 {
      StartIsExcluded(key, ring, hops, j - 1);
      assert Continues(key, hops[j - 1], hops[j]);
    }
  }

  lemma AvoidsStart(key: Key, ring: Ring, hops: seq<Hop>, i: nat)
    requires ring.Valid() && IsChain(key, ring, hops) && i < |hops| && key in hops[0].before.key2Node
    ensures key in hops[i].after.key2Node && hops[i].after.key2Node[key] != hops[0].before.key2Node[key]
  {
    StartIsExcluded(key, ring, hops, i);
    MigratesAway(hops[i].before, key, hops[i].exclusive, hops[i].dial, hops[i].now, hops[i].after);
  }

  /** Such a chain never returns to a node, not even to the one it started from, so it succeeds at most
      once for every other ring node. */
  lemma ChainVisitsDistinctNodes(key: Key, ring: Ring, hops: seq<Hop>)
    requires ring.Valid() && IsChain(key, ring, hops)
    ensures forall i | 0 <= i < |hops| :: key in hops[i].after.key2Node && hops[i].after.key2Node[key] in ring.nodes
    ensures forall i, j | 0 <= i < j < |hops| :: hops[i].after.key2Node[key] != hops[j].after.key2Node[key]
    ensures |hops| <= |ring.nodes|
    ensures hops != [] && key in hops[0].before.key2Node ==>
              var start := hops[0].before.key2Node[key];
              && (forall i | 0 <= i < |hops| :: hops[i].after.key2Node[key] != start)
              && |hops| <= |ring.nodes - {start}|
  {
    forall i | 0 <= i < |hops| ensures key in hops[i].after.key2Node && hops[i].after.key2Node[key] in ring.nodes {
      MigratesAway(hops[i].before, key, hops[i].exclusive, hops[i].dial, hops[i].now, hops[i].after);
    }
    forall i, j | 0 <= i < j < |hops| ensures hops[i].after.key2Node[key] != hops[j].after.key2Node[key] {
      ChainExcludes(key, ring, hops, i, j);
      MigratesAway(hops[j].before, key, hops[j].exclusive, hops[j].dial, hops[j].now, hops[j].after);
    }
    var visited := seq(|hops|, i requires 0 <= i < |hops| => hops[i].after.key2Node[key]);
    DistinctFit(visited, ring.nodes);
    if hops != [] && key in hops[0].before.key2Node {
      forall i | 0 <= i < |hops| ensures hops[i].after.key2Node[key] != hops[0].before.key2Node[key] {
        AvoidsStart(key, ring, hops, i);
      }
      DistinctFit(visited, ring.nodes - {hops[0].before.key2Node[key]});
    }
  }

  lemma {:induction false} DistinctFit<T>(s: seq<T>, bound: set<T>)
    requires NoDuplicates(s) && forall i | 0 <= i < |s| :: s[i] in bound
    ensures |s| <= |bound|
  {
    if s != [] {
      var last := s[|s| - 1];
      assert forall i | 0 <= i < |s| - 1 :: s[i] != last;
      DistinctFit(s[..|s| - 1], bound - {last});
    }
  }
}
