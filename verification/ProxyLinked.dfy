/** Every run keeps the tables linked to their owners, and a completed snapshot
    leaves exactly the services it named. */
module ProxyLinked {
  import opened Common
  import opened R = Router
  import opened ProxyTables

  /** The bouncer serves exactly the recorded services and runs while there is one. */
  ghost predicate RegistryLinked(t: Tables) {
    && t.registry.refs == t.crowdsec
    && (t.registry.running <==> t.crowdsec != {})
    && (t.registry.running ==> t.registry.available)
  }

  /** Mappings are keyed by their id and every record has an owner among them. */
  ghost predicate Linked(t: Tables) {
    && (forall k :: k in t.lastMappings ==> t.lastMappings[k].id == k)
    && t.svcPorts.Keys <= t.lastMappings.Keys
    && t.udpRelays.Keys <= t.lastMappings.Keys
    && t.crowdsec <= t.lastMappings.Keys
    && RegistryLinked(t)
  }

  /** Linked, except that `id` may own records before it is stored. */
  ghost predicate LinkedBut(t: Tables, id: ServiceId) {
    && (forall k :: k in t.lastMappings ==> t.lastMappings[k].id == k)
    && t.svcPorts.Keys <= t.lastMappings.Keys + {id}
    && t.udpRelays.Keys <= t.lastMappings.Keys + {id}
    && t.crowdsec <= t.lastMappings.Keys + {id}
    && RegistryLinked(t)
  }

  /** Cleaning up ports touches routers only. */
  lemma {:induction false} CleanupPortsFrame(c: Config, t: Tables, host: string, svc: ServiceId, ports: seq<nat>)
    ensures var t' := CleanupPorts(c, t, host, svc, ports);
            t' == t.(portRouters := t'.portRouters, main := t'.main)
    decreases |ports|
  {
    if ports != [] {
      CleanupPortsFrame(c, CleanupPort(c, t, host, svc, ports[0]), host, svc, ports[1..]);
    }
  }

  /** Cleanup drops exactly the service's own records. */
  lemma CleanupRecords(c: Config, t: Tables, m: Mapping)
    ensures var t' := Cleanup(c, t, m);
            && t'.lastMappings == t.lastMappings
            && t'.svcPorts == t.svcPorts - {m.id}
            && t'.udpRelays == t.udpRelays - {m.id}
            && t'.crowdsec == t.crowdsec - {m.id}
            && (RegistryLinked(t) ==> RegistryLinked(t'))
  {
    var t1 := if m.domain != "" then t.(main := RemoveRoute(t.main, m.domain, m.id)) else t;
    CleanupPortsFrame(c, t1.(svcPorts := t1.svcPorts - {m.id}), m.domain, m.id, Get(t1.svcPorts, m.id));
  }

  lemma ParseRestrictionsLinked(t: Tables, m: Mapping, env: Env)
    requires LinkedBut(t, m.id)
    ensures LinkedBut(ParseRestrictions(t, m, env), m.id)
  {
  }

  predicate RecordsPort(c: Config, m: Mapping) {
    m.mode == TCP || (m.mode == TLS && m.listenPort != c.mainPort)
  }

  function PortsAfter(c: Config, ports: map<ServiceId, seq<nat>>, m: Mapping): map<ServiceId, seq<nat>>
    requires m.listenPort >= 0
  {
    if RecordsPort(c, m) then ports[m.id := [m.listenPort]] else ports
  }

  function RouterAfter(r: Router, m: Mapping): Router {
    if m.mode == TCP then SetFallback(r, L4Route(m)) else AddRoute(r, m.domain, L4Route(m))
  }

  /** TCP and TLS setup either change nothing or update one router, the bouncer and the port record. */
  lemma L4SetupShape(c: Config, t: Tables, m: Mapping, env: Env)
    requires m.mode == TCP || m.mode == TLS
    ensures var o := Setup(c, t, m, env);
            if !L4Admissible(c, m) || !RouterReady(c, t, m.listenPort, env) then o == Failed(t)
            else
              o == Done(PutRouter(c, ParseRestrictions(t, m, env), m.listenPort,
                                  RouterAfter(RouterAt(c, t, m.listenPort), m))
                        .(svcPorts := PortsAfter(c, t.svcPorts, m)))
  {
  }

  /** The links read these tables only. */
  lemma LinkedFrame(t: Tables, t': Tables, id: ServiceId)
    requires LinkedBut(t, id)
    requires t'.lastMappings == t.lastMappings && t'.crowdsec == t.crowdsec && t'.registry == t.registry
    requires t'.svcPorts.Keys <= t.svcPorts.Keys + {id} && t'.udpRelays.Keys <= t.udpRelays.Keys + {id}
    ensures LinkedBut(t', id)
  {
  }

  lemma L4SetupLinked(c: Config, t: Tables, m: Mapping, env: Env)
    requires LinkedBut(t, m.id) && (m.mode == TCP || m.mode == TLS)
    ensures LinkedBut(Setup(c, t, m, env).t, m.id)
    ensures Setup(c, t, m, env).t.lastMappings == t.lastMappings
  {
    L4SetupShape(c, t, m, env);
    ParseRestrictionsLinked(t, m, env);
    if Setup(c, t, m, env).Done? {
      LinkedFrame(ParseRestrictions(t, m, env), Setup(c, t, m, env).t, m.id);
    }
  }

  lemma UdpSetupLinked(c: Config, t: Tables, m: Mapping, env: Env)
    requires LinkedBut(t, m.id) && m.mode == UDP
    ensures LinkedBut(Setup(c, t, m, env).t, m.id)
    ensures Setup(c, t, m, env).t.lastMappings == t.lastMappings
  {
    var t1 := t.(udpRelays := t.udpRelays - {m.id});
    LinkedFrame(t, t1, m.id);
    ParseRestrictionsLinked(t1, m, env);
    if Setup(c, t, m, env).Done? {
      LinkedFrame(ParseRestrictions(t1, m, env), Setup(c, t, m, env).t, m.id);
    }
  }

  lemma SetupLinked(c: Config, t: Tables, m: Mapping, env: Env)
    requires LinkedBut(t, m.id)
    ensures LinkedBut(Setup(c, t, m, env).t, m.id)
    ensures Setup(c, t, m, env).t.lastMappings == t.lastMappings
  {
    match m.mode
    case TCP => L4SetupLinked(c, t, m, env);
    case TLS => L4SetupLinked(c, t, m, env);
    case UDP => UdpSetupLinked(c, t, m, env);
    case HTTP => ParseRestrictionsLinked(t.(main := AddRoute(t.main, m.domain, HttpRouteOf(m))), m, env);
  }

  /** One mapping update, whatever fails, keeps the tables linked. */
  lemma ProcessLinked(c: Config, t: Tables, m: Mapping, env: Env)
    requires Linked(t)
    ensures Linked(Process(c, t, m, env))
  {
    match m.update
    case Created =>
      if env.peerOk {
        SetupLinked(c, t, m, env);
        CleanupRecords(c, Setup(c, t, m, env).t, m);
      }
    case Modified =>
      var t1 := Cleanup(c, t, Previous(t, m));
      CleanupRecords(c, t, Previous(t, m));
      SetupLinked(c, t1, m, env);
      CleanupRecords(c, Setup(c, t1, m, env).t, m);
    case Removed =>
      RemoveRecords(c, t, m);
  }

  lemma {:induction false} ProcessAllLinked(c: Config, t: Tables, run: seq<Update>)
    requires Linked(t)
    ensures Linked(ProcessAll(c, t, run))
    decreases |run|
  {
    if run != [] {
      ProcessLinked(c, t, run[0].0, run[0].1);
      ProcessAllLinked(c, Process(c, t, run[0].0, run[0].1), run[1..]);
    }
  }

  lemma ProcessAllStep(c: Config, t: Tables, u: Update, rest: seq<Update>)
    ensures ProcessAll(c, t, [u] + rest) == ProcessAll(c, Process(c, t, u.0, u.1), rest)
  {
    assert ([u] + rest)[1..] == rest;
  }

  /** The states along a run are its first step and then the states along the rest. */
  lemma ProcessPrefixes(c: Config, t: Tables, run: seq<Update>)
    requires run != []
    ensures var t1 := Process(c, t, run[0].0, run[0].1);
            && ProcessAll(c, t, run[..1]) == t1
            && forall k :: 0 <= k <= |run[1..]| ==> ProcessAll(c, t, run[..k + 1]) == ProcessAll(c, t1, run[1..][..k])
  {
    var u := run[0];
    forall k | 0 <= k <= |run[1..]|
      ensures ProcessAll(c, t, run[..k + 1]) == ProcessAll(c, Process(c, t, u.0, u.1), run[1..][..k])
    {
      assert run[..k + 1] == [u] + run[1..][..k];
      ProcessAllStep(c, t, u, run[1..][..k]);
    }
    assert run[1..][..0] == [];
  }

  // ----------------------------------------------------------- reconciliation

  lemma {:induction false} StaleIds(last: map<ServiceId, Mapping>, order: seq<ServiceId>, seen: set<ServiceId>)
    requires forall k :: k in last ==> last[k].id == k
    requires forall k :: k in order ==> k in last
    ensures var stale := Stale(last, order, seen);
            && (forall m :: m in stale ==> m.id !in seen && m.id in order)
            && (forall k :: k in order && k !in seen ==> exists m :: m in stale && m.id == k)
  {
    if order != [] {
      assert order == [order[0]] + order[1..];
      StaleIds(last, order[1..], seen);
      var stale := Stale(last, order, seen);
      var rest := Stale(last, order[1..], seen);
      forall k | k in order && k !in seen
        ensures exists m :: m in stale && m.id == k
      {
        if k == order[0] {
          assert last[k] in stale;
        } else {
          var m :| m in rest && m.id == k;
          assert m in stale;
        }
      }
    }
  }

  /** `t'` holds exactly what `t` holds about the services in `kept`. */
  ghost predicate RestrictedTo(t: Tables, t': Tables, kept: set<ServiceId>) {
    && t'.lastMappings == (map k | k in t.lastMappings && k in kept :: t.lastMappings[k])
    && t'.svcPorts == (map k | k in t.svcPorts && k in kept :: t.svcPorts[k])
    && t'.udpRelays == (map k | k in t.udpRelays && k in kept :: t.udpRelays[k])
    && t'.crowdsec == t.crowdsec * kept
  }

  /** The records of a state without some services. */
  ghost predicate RecordsWithout(t: Tables, t': Tables, gone: set<ServiceId>) {
    && t'.lastMappings == t.lastMappings - gone
    && t'.svcPorts == t.svcPorts - gone
    && t'.udpRelays == t.udpRelays - gone
    && t'.crowdsec == t.crowdsec - gone
  }

  lemma RecordsCompose(t: Tables, t1: Tables, t2: Tables, a: set<ServiceId>, b: set<ServiceId>)
    requires RecordsWithout(t, t1, a) && RecordsWithout(t1, t2, b)
    ensures RecordsWithout(t, t2, a + b)
  {
  }

  lemma RemoveRecords(c: Config, t: Tables, m: Mapping)
    requires Linked(t)
    ensures Linked(Remove(c, t, m))
    ensures RecordsWithout(t, Remove(c, t, m), {m.id})
  {
    CleanupRecords(c, t.(lastMappings := t.lastMappings - {m.id}), Previous(t, m));
  }

  function IdsOf(ms: seq<Mapping>): set<ServiceId> { set m | m in ms :: m.id }

  lemma IdsOfSplit(ms: seq<Mapping>)
    requires ms != []
    ensures IdsOf(ms) == {ms[0].id} + IdsOf(ms[1..])
  {
    assert ms == [ms[0]] + ms[1..];
  }

  lemma {:induction false} RemoveAllRecords(c: Config, t: Tables, stale: seq<Mapping>)
    requires Linked(t)
    ensures Linked(RemoveAll(c, t, stale))
    ensures RecordsWithout(t, RemoveAll(c, t, stale), IdsOf(stale))
    decreases |stale|
  {
    if stale == [] {
      assert IdsOf(stale) == {};
    } else {
      var t1 := Remove(c, t, stale[0]);
      RemoveRecords(c, t, stale[0]);
      RemoveAllRecords(c, t1, stale[1..]);
      IdsOfSplit(stale);
      RecordsCompose(t, t1, RemoveAll(c, t1, stale[1..]), {stale[0].id}, IdsOf(stale[1..]));
    }
  }

  lemma StaleSet(last: map<ServiceId, Mapping>, order: seq<ServiceId>, seen: set<ServiceId>)
    requires forall k :: k in last ==> last[k].id == k
    requires Lists(order, last.Keys)
    ensures IdsOf(Stale(last, order, seen)) == last.Keys - seen
  {
    StaleIds(last, order, seen);
    var stale := Stale(last, order, seen);
    forall k | k in last.Keys - seen ensures k in IdsOf(stale) {
      var m :| m in stale && m.id == k;
    }
  }

  /** Removing every stored service outside a set is restricting to the set. */
  lemma WithoutIsRestricted(t: Tables, t': Tables, seen: set<ServiceId>)
    requires Linked(t) && RecordsWithout(t, t', t.lastMappings.Keys - seen)
    ensures RestrictedTo(t, t', seen)
  {
    forall k | k in t.svcPorts || k in t.udpRelays || k in t.crowdsec ensures k in t.lastMappings.Keys {
    }
  }

  /** Whatever order the tables are walked in, a reconciled snapshot keeps exactly
      the services it saw, with their records, and nothing else keeps any. */
  lemma ReconcileRestricts(c: Config, t: Tables, order: seq<ServiceId>, seen: set<ServiceId>)
    requires Linked(t)
    requires Lists(order, t.lastMappings.Keys)
    ensures var t' := Reconcile(c, t, order, seen);
            Linked(t') && RestrictedTo(t, t', seen)
  {
    var stale := Stale(t.lastMappings, order, seen);
    StaleSet(t.lastMappings, order, seen);
    RemoveAllRecords(c, t, stale);
    WithoutIsRestricted(t, RemoveAll(c, t, stale), seen);
  }

  // ------------------------------------------------------------------ streams

  lemma ReceiveLinked(c: Config, s: Stream, b: Batch)
    requires Linked(s.t) && Receivable(c, s, b)
    ensures Linked(Receive(c, s, b).t)
  {
    ProcessAllLinked(c, s.t, b.updates);
    if Reconciles(s, b) {
      ReconcileRestricts(c, ProcessAll(c, s.t, b.updates), b.order, s.seen + Ids(b.updates));
    }
  }

  lemma {:induction false} PlayLinked(c: Config, s: Stream, batches: seq<Batch>)
    requires Linked(s.t) && Playable(c, s, batches)
    ensures Linked(Play(c, s, batches).t)
    decreases |batches|
  {
    if batches != [] {
      ReceiveLinked(c, s, batches[0]);
      PlayLinked(c, Receive(c, s, batches[0]), batches[1..]);
    }
  }

  /** Over any number of connections and batches, no port record, relay or bouncer
      reference is ever left without an owner. */
  lemma {:induction false} ConnectLinked(c: Config, t: Tables, streams: seq<seq<Batch>>)
    requires Linked(t) && Connectable(c, t, streams)
    ensures Linked(Connect(c, t, streams))
    decreases |streams|
  {
    if streams != [] {
      PlayLinked(c, Stream(t, false, {}), streams[0]);
      ConnectLinked(c, Play(c, Stream(t, false, {}), streams[0]).t, streams[1..]);
    }
  }

  lemma EveryRunLinked(c: Config, crowdsecConfigured: bool, streams: seq<seq<Batch>>)
    requires Connectable(c, Initial(crowdsecConfigured), streams)
    ensures Linked(Connect(c, Initial(crowdsecConfigured), streams))
  {
    ConnectLinked(c, Initial(crowdsecConfigured), streams);
  }

  function AllUpdates(batches: seq<Batch>): seq<Update> {
    if batches == [] then [] else batches[0].updates + AllUpdates(batches[1..])
  }

  lemma {:induction false} ProcessAllSplit(c: Config, t: Tables, a: seq<Update>, b: seq<Update>)
    ensures ProcessAll(c, t, a + b) == ProcessAll(c, ProcessAll(c, t, a), b)
    decreases |a|
  {
    if a == [] {
      assert a + b == b;
    } else {
      assert (a + b)[1..] == a[1..] + b;
      ProcessAllSplit(c, Process(c, t, a[0].0, a[0].1), a[1..], b);
    }
  }

  /** Until a batch completes the snapshot, a stream only applies updates and collects ids. */
  lemma {:induction false} PlayIncomplete(c: Config, s: Stream, batches: seq<Batch>)
    requires !s.done && Playable(c, s, batches)
    requires forall b :: b in batches ==> !b.syncComplete
    ensures Play(c, s, batches) ==
            Stream(ProcessAll(c, s.t, AllUpdates(batches)), false, s.seen + Ids(AllUpdates(batches)))
    decreases |batches|
  {
    if batches == [] {
      assert s.seen + Ids([]) == s.seen;
    } else {
      var b := batches[0];
      assert b in batches;
      assert forall x :: x in batches[1..] ==> x in batches;
      PlayIncomplete(c, Receive(c, s, b), batches[1..]);
      ProcessAllSplit(c, s.t, b.updates, AllUpdates(batches[1..]));
      assert Ids(AllUpdates(batches)) == Ids(b.updates) + Ids(AllUpdates(batches[1..]));
    }
  }

  lemma {:induction false} PlaySplit(c: Config, s: Stream, a: seq<Batch>, b: seq<Batch>)
    requires Playable(c, s, a + b)
    ensures Playable(c, s, a) && Playable(c, Play(c, s, a), b)
    ensures Play(c, s, a + b) == Play(c, Play(c, s, a), b)
    decreases |a|
  {
    if a == [] {
      assert a + b == b;
    } else {
      assert (a + b)[1..] == a[1..] + b;
      PlaySplit(c, Receive(c, s, a[0]), a[1..], b);
    }
  }

  /** When a connection's snapshot completes, after any earlier connections and any
      number of batches, the stored mappings are exactly those the updates of this
      connection produced, restricted to the ids it named; likewise ports, relays and
      bouncer references. */
  lemma SnapshotRestricts(c: Config, crowdsecConfigured: bool, earlier: seq<seq<Batch>>, batches: seq<Batch>,
                          last: Batch)
    requires Connectable(c, Initial(crowdsecConfigured), earlier)
    requires Playable(c, Stream(Connect(c, Initial(crowdsecConfigured), earlier), false, {}), batches + [last])
    requires last.syncComplete && forall b :: b in batches ==> !b.syncComplete
    ensures var t0 := Connect(c, Initial(crowdsecConfigured), earlier);
            var updates := AllUpdates(batches + [last]);
            var t := ProcessAll(c, t0, updates);
            var s' := Play(c, Stream(t0, false, {}), batches + [last]);
            s'.done && Linked(s'.t) && RestrictedTo(t, s'.t, Ids(updates))
  {
    var t0 := Connect(c, Initial(crowdsecConfigured), earlier);
    EveryRunLinked(c, crowdsecConfigured, earlier);
    var s := Stream(t0, false, {});
    PlaySplit(c, s, batches, [last]);
    PlayIncomplete(c, s, batches);
    var mid := Play(c, s, batches);
    AllUpdatesSnoc(batches, last);
    ProcessAllSplit(c, t0, AllUpdates(batches), last.updates);
    var t := ProcessAll(c, mid.t, last.updates);
    ProcessAllLinked(c, t0, AllUpdates(batches + [last]));
    var seen := mid.seen + Ids(last.updates);
    assert seen == Ids(AllUpdates(batches + [last]));
    ReconcileRestricts(c, t, last.order, seen);
    assert Play(c, mid, [last]) == Receive(c, mid, last);
  }

  lemma {:induction false} AllUpdatesSnoc(batches: seq<Batch>, last: Batch)
    ensures AllUpdates(batches + [last]) == AllUpdates(batches) + last.updates
  {
    if batches == [] {
      assert batches + [last] == [last];
      assert AllUpdates([last]) == last.updates + AllUpdates([]);
    } else {
      assert (batches + [last])[1..] == batches[1..] + [last];
      AllUpdatesSnoc(batches[1..], last);
    }
  }

  /** After the snapshot has completed, later batches of the stream never reconcile. */
  lemma {:induction false} CompletedStreamOnlyProcesses(c: Config, s: Stream, batches: seq<Batch>)
    requires s.done && Playable(c, s, batches)
    ensures Play(c, s, batches) == s.(t := ProcessAll(c, s.t, AllUpdates(batches)))
    decreases |batches|
  {
    if batches != [] {
      CompletedStreamOnlyProcesses(c, Receive(c, s, batches[0]), batches[1..]);
      ProcessAllSplit(c, s.t, batches[0].updates, AllUpdates(batches[1..]));
    }
  }
}
