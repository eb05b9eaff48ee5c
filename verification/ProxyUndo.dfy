/** What teardown undoes: failed setups roll back, removal undoes creation, and
    exactly when either disturbs another service. */
module ProxyUndo {
  import opened Common
  import opened R = Router
  import opened ProxyTables
  import opened ProxyLinked
  import opened ProxyRouters
  import opened ProxyOwned
  import opened ProxyStreams

  /** An unknown service has nothing to clean up. */
  lemma CleanupAbsent(c: Config, t: Tables, m: Mapping)
    requires Good(c, t) && m.id !in t.lastMappings
    ensures Cleanup(c, t, m) == t
  {
    UnknownErased(c, t, m.id);
    RemoveAbsent(t.main, m.domain, m.id);
    assert t.svcPorts - {m.id} == t.svcPorts;
    assert t.udpRelays - {m.id} == t.udpRelays;
    assert t.crowdsec - {m.id} == t.crowdsec;
    assert CleanupPorts(c, t, m.domain, m.id, []) == t;
  }

  /** Acquiring and then releasing the bouncer for an unknown service restores it. */
  lemma ReleaseUndoesAcquire(t: Tables, m: Mapping, env: Env)
    requires RegistryLinked(t) && m.id !in t.crowdsec
    ensures var t1 := ParseRestrictions(t, m, env);
            && ReleaseCrowdSec(t1, m.id) == t
            && t1 == t.(registry := t1.registry, crowdsec := t1.crowdsec)
  {
    var t1 := ParseRestrictions(t, m, env);
    assert t.crowdsec - {m.id} == t.crowdsec;
    assert t.crowdsec + {m.id} - {m.id} == t.crowdsec;
  }

  /** Cleaning up after HTTP setup, complete or not, restores the tables. */
  lemma CleanupUndoesHTTP(c: Config, t: Tables, m: Mapping, env: Env)
    requires Good(c, t) && m.id !in t.lastMappings && m.mode == HTTP
    ensures Cleanup(c, Setup(c, t, m, env).t, m) == t
  {
    UnknownErased(c, t, m.id);
    if m.paths == [] {
      CleanupAbsent(c, t, m);
    } else {
      var t1 := t.(main := AddRoute(t.main, m.domain, HttpRouteOf(m)));
      ReleaseUndoesAcquire(t1, m, env);
      var t2 := ParseRestrictions(t1, m, env);
      assert Setup(c, t, m, env).t == t2;
      RemoveUndoesAdd(t.main, m.domain, HttpRouteOf(m));
      RestoreRecords(c, t, t2, m, t.main);
    }
  }

  /** When the ports hold nothing of the service, cleanup acts on the main route and the records alone. */
  lemma RestoreRecords(c: Config, t: Tables, t2: Tables, m: Mapping, main: Router)
    requires m.id !in t.svcPorts && m.id !in t.udpRelays
    requires t2 == t.(main := t2.main, registry := t2.registry, crowdsec := t2.crowdsec, udpRelays := t2.udpRelays)
    requires t2.udpRelays - {m.id} == t.udpRelays
    requires main == t.main
    requires (if m.domain != "" then RemoveRoute(t2.main, m.domain, m.id) else t2.main) == main
    requires ReleaseCrowdSec(t2, m.id) == t.(main := t2.main, udpRelays := t2.udpRelays)
    ensures Cleanup(c, t2, m) == t
  {
    assert t2.svcPorts - {m.id} == t2.svcPorts;
    var t3 := t2.(main := main);
    assert CleanupPorts(c, t3, m.domain, m.id, []) == t3;
  }

  lemma CleanupUndoesUDP(c: Config, t: Tables, m: Mapping, env: Env)
    requires Good(c, t) && m.id !in t.lastMappings && m.mode == UDP
    ensures Cleanup(c, Setup(c, t, m, env).t, m) == t
  {
    UnknownErased(c, t, m.id);
    assert t.udpRelays - {m.id} == t.udpRelays;
    if Setup(c, t, m, env).Failed? {
      CleanupAbsent(c, t, m);
    } else {
      ReleaseUndoesAcquire(t, m, env);
      var t2 := Setup(c, t, m, env).t;
      RemoveAbsent(t.main, m.domain, m.id);
      assert t2.udpRelays - {m.id} == t.udpRelays;
      RestoreRecords(c, t, t2, m, t.main);
    }
  }

  /** A CREATED update of an unknown service that fails at any step leaves every table as it was. */
  lemma FailedCreateRollsBack(c: Config, t: Tables, m: Mapping, env: Env)
    requires Good(c, t) && m.id !in t.lastMappings
    requires !env.peerOk || Setup(c, t, m, env).Failed?
    ensures Add(c, t, m, env) == t
  {
    if env.peerOk {
      match m.mode
      case HTTP => CleanupUndoesHTTP(c, t, m, env);
      case UDP => CleanupUndoesUDP(c, t, m, env);
      case TCP => CleanupAbsent(c, t, m);
      case TLS => CleanupAbsent(c, t, m);
    }
  }

  // --------------------------------------------------- create, then remove

  /** Setup takes over, or teardown will wrongly keep or drop, a fallback. */
  predicate Clobbers(c: Config, t: Tables, m: Mapping, env: Env) {
    && env.peerOk && (m.mode == TCP || m.mode == TLS)
    && L4Admissible(c, m) && RouterReady(c, t, m.listenPort, env)
    && (if m.mode == TCP
        then m.domain != "" || RouterAt(c, t, m.listenPort).fallback.Some?
        else m.domain == "" && m.listenPort != c.mainPort && RouterAt(c, t, m.listenPort).fallback.Some?)
  }

  /** Detaching the service restores the router it was put on, exactly when no fallback is in the way. */
  lemma DetachUndoesAttach(r: Router, m: Mapping)
    requires m.mode == TCP || m.mode == TLS
    requires WellFormed(r)
    requires !Serves(Get(r.routes, ToLower(m.domain)), m.id)
    requires r.fallback.Some? ==> r.fallback.value.service != m.id
    ensures Detach(RouterAfter(r, m), m.domain, m.id) == r <==>
            if m.mode == TCP then m.domain == "" && r.fallback.None?
            else m.domain != "" || r.fallback.None?
  {
    RemoveUndoesAdd(r, m.domain, L4Route(m));
    if m.mode == TCP && m.domain != "" {
      RemoveAbsent(SetFallback(r, L4Route(m)), m.domain, m.id);
    }
  }

  lemma FreshRouter(c: Config, t: Tables, m: Mapping, p: nat)
    requires Good(c, t) && m.id !in t.lastMappings
    ensures var r := RouterAt(c, t, p);
            && WellFormed(r) && !Serves(Get(r.routes, ToLower(m.domain)), m.id)
            && (r.fallback.Some? ==> r.fallback.value.service != m.id)
  {
    UnknownErased(c, t, m.id);
    if !IsMain(c, p) && p in t.portRouters {
      assert PortOwned(t.lastMappings, t.svcPorts, p, t.portRouters[p]);
    }
  }

  /** Cleanup of a recorded port puts back the detached router, or closes the port when that is empty. */
  lemma CleanupRecordedPort(c: Config, t: Tables, m: Mapping, p: nat)
    requires !IsMain(c, p) && m.id in t.svcPorts && t.svcPorts[m.id] == [p] && p in t.portRouters
    requires m.domain != "" ==> RemoveRoute(t.main, m.domain, m.id) == t.main
    ensures var d := Detach(t.portRouters[p], m.domain, m.id);
            Cleanup(c, t, m) ==
            ReleaseCrowdSec(t.(portRouters := if IsEmpty(d) then t.portRouters - {p} else t.portRouters[p := d],
                               svcPorts := t.svcPorts - {m.id}, udpRelays := t.udpRelays - {m.id}), m.id)
  {
    var u, d := t.(svcPorts := t.svcPorts - {m.id}), Detach(t.portRouters[p], m.domain, m.id);
    assert t.portRouters[p := d] - {p} == t.portRouters - {p};
    assert [p][1..] == [];
    assert CleanupPorts(c, u, m.domain, m.id, [p]) == CleanupPort(c, u, m.domain, m.id, p);
  }

  /** The per-port router map is restored exactly when its one router is. */
  lemma PortsRestored(c: Config, t: Tables, p: nat, d: Router)
    requires NoEmpty(t) && !IsMain(c, p)
    ensures (if IsEmpty(d) then t.portRouters - {p} else t.portRouters[p := d]) == t.portRouters
       <==> d == RouterAt(c, t, p)
  {
    if p in t.portRouters {
      assert d == t.portRouters[p] ==> t.portRouters[p := d] == t.portRouters;
      assert p !in t.portRouters - {p};
      assert t.portRouters[p := d][p] == d;
    } else {
      assert t.portRouters - {p} == t.portRouters;
      assert p in t.portRouters[p := d];
      assert IsEmpty(d) <==> d == R.EMPTY;
    }
  }

  /** Cleanup after a successful L4 setup on a custom port restores the tables exactly when the router is restored. */
  lemma CleanupUndoesCustomPort(c: Config, t: Tables, m: Mapping, env: Env)
    requires Good(c, t) && m.id !in t.lastMappings
    requires m.mode == TCP || m.mode == TLS
    requires L4Admissible(c, m) && RouterReady(c, t, m.listenPort, env) && !IsMain(c, m.listenPort)
    ensures var d := Detach(RouterAfter(RouterAt(c, t, m.listenPort), m), m.domain, m.id);
            Cleanup(c, Setup(c, t, m, env).t, m) == t <==> d == RouterAt(c, t, m.listenPort)
  {
    var p := m.listenPort;
    var d := Detach(RouterAfter(RouterAt(c, t, p), m), m.domain, m.id);
    CustomPortCleaned(c, t, m, env);
    PortsRestored(c, t, p, d);
  }

  lemma RoutersAgain(routers: map<nat, Router>, p: nat, r: Router, d: Router)
    ensures routers[p := r][p := d] == routers[p := d] && routers[p := r] - {p} == routers - {p}
  {
  }

  lemma CustomPortCleaned(c: Config, t: Tables, m: Mapping, env: Env)
    requires Good(c, t) && m.id !in t.lastMappings
    requires m.mode == TCP || m.mode == TLS
    requires L4Admissible(c, m) && RouterReady(c, t, m.listenPort, env) && !IsMain(c, m.listenPort)
    ensures var p := m.listenPort;
            var d := Detach(RouterAfter(RouterAt(c, t, p), m), m.domain, m.id);
            Cleanup(c, Setup(c, t, m, env).t, m) ==
            t.(portRouters := if IsEmpty(d) then t.portRouters - {p} else t.portRouters[p := d])
  {
    var p, r := m.listenPort, RouterAfter(RouterAt(c, t, m.listenPort), m);
    var d := Detach(r, m.domain, m.id);
    L4SetupShape(c, t, m, env);
    UnknownErased(c, t, m.id);
    ReleaseUndoesAcquire(t, m, env);
    RemoveAbsent(t.main, m.domain, m.id);
    var t0, t1 := ParseRestrictions(t, m, env), Setup(c, t, m, env).t;
    assert t1 == t0.(portRouters := t.portRouters[p := r], svcPorts := t.svcPorts[m.id := [p]]);
    assert t1.svcPorts - {m.id} == t.svcPorts && t.udpRelays - {m.id} == t.udpRelays;
    CleanupRecordedPort(c, t1, m, p);
    RoutersAgain(t.portRouters, p, r, d);
    var routers := if IsEmpty(d) then t.portRouters - {p} else t.portRouters[p := d];
    assert Cleanup(c, t1, m) == ReleaseCrowdSec(t0.(portRouters := routers), m.id);
  }

  lemma CleanupUndoesMainTLS(c: Config, t: Tables, m: Mapping, env: Env)
    requires Good(c, t) && m.id !in t.lastMappings && m.mode == TLS
    requires L4Admissible(c, m) && m.listenPort == c.mainPort
    ensures Cleanup(c, Setup(c, t, m, env).t, m) == t
  {
    L4SetupShape(c, t, m, env);
    UnknownErased(c, t, m.id);
    FreshRouter(c, t, m, m.listenPort);
    ReleaseUndoesAcquire(t, m, env);
    var t1 := Setup(c, t, m, env).t;
    assert t.udpRelays - {m.id} == t.udpRelays;
    RemoveUndoesAdd(t.main, m.domain, L4Route(m));
    RestoreRecords(c, t, t1, m, t.main);
  }

  lemma CleanupUndoesMainTCP(c: Config, t: Tables, m: Mapping, env: Env)
    requires Good(c, t) && m.id !in t.lastMappings && m.mode == TCP
    requires L4Admissible(c, m) && m.listenPort == c.mainPort
    ensures Cleanup(c, Setup(c, t, m, env).t, m) == t <==> m.domain == "" && t.main.fallback.None?
  {
    var p, r := m.listenPort, RouterAfter(t.main, m);
    L4SetupShape(c, t, m, env);
    UnknownErased(c, t, m.id);
    FreshRouter(c, t, m, p);
    ReleaseUndoesAcquire(t, m, env);
    var t0 := ParseRestrictions(t, m, env);
    var t1 := Setup(c, t, m, env).t;
    assert t.udpRelays - {m.id} == t.udpRelays;
    assert t1 == t0.(main := r, svcPorts := t.svcPorts[m.id := [p]]);
    assert t1.svcPorts - {m.id} == t.svcPorts;
    RemoveAbsent(r, m.domain, m.id);
    CleanupRecordedMain(c, t1, m, p);
    assert Cleanup(c, t1, m) == ReleaseCrowdSec(t0.(main := Detach(r, m.domain, m.id)), m.id);
    DetachUndoesAttach(t.main, m);
  }

  lemma CleanupRecordedMain(c: Config, t: Tables, m: Mapping, p: nat)
    requires IsMain(c, p) && m.id in t.svcPorts && t.svcPorts[m.id] == [p]
    requires m.domain != "" ==> RemoveRoute(t.main, m.domain, m.id) == t.main
    ensures Cleanup(c, t, m) ==
            ReleaseCrowdSec(t.(main := Detach(t.main, m.domain, m.id), svcPorts := t.svcPorts - {m.id},
                               udpRelays := t.udpRelays - {m.id}), m.id)
  {
    var u := t.(svcPorts := t.svcPorts - {m.id});
    assert [p][1..] == [];
    assert CleanupPort(c, u, m.domain, m.id, p) == u.(main := Detach(t.main, m.domain, m.id));
    assert CleanupPorts(c, u, m.domain, m.id, [p]) == u.(main := Detach(t.main, m.domain, m.id));
  }

  /** The same on the main port, where only TCP leaves a port record. */
  lemma CleanupUndoesMainPort(c: Config, t: Tables, m: Mapping, env: Env)
    requires Good(c, t) && m.id !in t.lastMappings
    requires m.mode == TCP || m.mode == TLS
    requires L4Admissible(c, m) && m.listenPort == c.mainPort
    ensures Cleanup(c, Setup(c, t, m, env).t, m) == t <==>
            if m.mode == TCP then m.domain == "" && t.main.fallback.None? else true
  {
    if m.mode == TCP {
      CleanupUndoesMainTCP(c, t, m, env);
    } else {
      CleanupUndoesMainTLS(c, t, m, env);
    }
  }

  /** Creating an unknown service and removing it again restores every table,
      except exactly when the setup met, or leaves behind, a fallback it does not own. */
  lemma RemoveUndoesCreate(c: Config, t: Tables, m: Mapping, env: Env, gone: Mapping)
    requires Good(c, t) && m.id !in t.lastMappings && gone.id == m.id
    ensures Remove(c, Add(c, t, m, env), gone) == t <==> !Clobbers(c, t, m, env)
  {
    var o := Setup(c, t, m, env);
    assert t.lastMappings - {m.id} == t.lastMappings;
    if !env.peerOk || o.Failed? {
      FailedCreateRollsBack(c, t, m, env);
      CleanupAbsent(c, t, gone);
    } else {
      SetupLinked(c, t, m, env);
      assert t.lastMappings[m.id := m] - {m.id} == t.lastMappings;
      var t1 := Store(o.t, m);
      assert t1.(lastMappings := t1.lastMappings - {m.id}) == o.t;
      assert Remove(c, t1, gone) == Cleanup(c, o.t, m);
      match m.mode
      case HTTP => CleanupUndoesHTTP(c, t, m, env);
      case UDP => CleanupUndoesUDP(c, t, m, env);
      case TCP => CleanupUndoesL4(c, t, m, env);
      case TLS => CleanupUndoesL4(c, t, m, env);
    }
  }

  lemma CleanupUndoesL4(c: Config, t: Tables, m: Mapping, env: Env)
    requires Good(c, t) && m.id !in t.lastMappings && env.peerOk
    requires m.mode == TCP || m.mode == TLS
    requires Setup(c, t, m, env).Done?
    ensures Cleanup(c, Setup(c, t, m, env).t, m) == t <==> !Clobbers(c, t, m, env)
  {
    L4SetupShape(c, t, m, env);
    if IsMain(c, m.listenPort) {
      CleanupUndoesMainPort(c, t, m, env);
    } else {
      FreshRouter(c, t, m, m.listenPort);
      CleanupUndoesCustomPort(c, t, m, env);
      DetachUndoesAttach(RouterAt(c, t, m.listenPort), m);
    }
  }

  lemma TwoOnOnePort(c: Config, a: Mapping, b: Mapping)
    requires c == Config(443, 51820)
    requires a == L4Mapping(Created, "a", "", TCP, 9000) && b == L4Mapping(Created, "b", "", TCP, 9000)
    ensures var t1 := Process(c, Initial(false), a, ALL_OK);
            && t1.lastMappings == map["a" := a] && t1.svcPorts == map["a" := [9000]]
            && t1.portRouters == map[9000 := SetFallback(R.EMPTY, L4Route(a))]
            && Clobbers(c, t1, b, ALL_OK)
  {
  }

  /** Two TCP services on one custom port: creating and removing the second closes the port
      on the first, which stays stored and recorded there. */
  lemma ClobberedFallback()
    ensures var c := Config(443, 51820);
            var b := L4Mapping(Created, "b", "", TCP, 9000);
            var t1 := Process(c, Initial(false), L4Mapping(Created, "a", "", TCP, 9000), ALL_OK);
            var t2 := Remove(c, Process(c, t1, b, ALL_OK), b);
            && Clobbers(c, t1, b, ALL_OK)
            && 9000 in t1.portRouters && 9000 !in t2.portRouters
            && "a" in t2.lastMappings && "a" in t2.svcPorts && t2.svcPorts["a"] == [9000]
  {
    var c := Config(443, 51820);
    var a := L4Mapping(Created, "a", "", TCP, 9000);
    var b := L4Mapping(Created, "b", "", TCP, 9000);
    TwoOnOnePort(c, a, b);
    var t1 := Process(c, Initial(false), a, ALL_OK);
    var t := Process(c, t1, b, ALL_OK);
    assert t.svcPorts == map["a" := [9000], "b" := [9000]] && t.lastMappings["b"] == b;
    assert t.portRouters == map[9000 := SetFallback(R.EMPTY, L4Route(b))] by {
      assert SetFallback(SetFallback(R.EMPTY, L4Route(a)), L4Route(b)) == SetFallback(R.EMPTY, L4Route(b));
    }
    CleanupRecordedPort(c, t.(lastMappings := t.lastMappings - {"b"}), b, 9000);
  }

  // ----------------------------------------------------------- other services

  /** The route on the port's router, the main one included. */
  predicate RouteAt(c: Config, t: Tables, p: nat, h: string, x: Route) { x in Get(RouterAt(c, t, p).routes, h) }

  predicate FallbackAt(c: Config, t: Tables, p: nat, x: Route) { RouterAt(c, t, p).fallback == Some(x) }

  /** Two numbers of one router: every main port number names the main router. */
  predicate SamePort(c: Config, p: nat, q: nat) { p == q || (IsMain(c, p) && IsMain(c, q)) }

  lemma DetachSpares(r: Router, host: string, svc: ServiceId, h: string, x: Route)
    requires x.service != svc
    ensures var d := Detach(r, host, svc);
            && (x in Get(d.routes, h) <==> x in Get(r.routes, h))
            && (d.fallback == Some(x) <==> r.fallback == Some(x) && host != "")
  {
    WithoutMembers(Get(r.routes, ToLower(host)), svc);
  }

  lemma DetachEmpty(host: string, svc: ServiceId)
    ensures Detach(R.EMPTY, host, svc) == R.EMPTY
  {
    assert R.EMPTY.routes - {ToLower(host)} == R.EMPTY.routes;
  }

  /** Cleaning up a port detaches its router, whether or not that closes the port. */
  lemma CleanupPortDetaches(c: Config, t: Tables, host: string, svc: ServiceId, port: nat, p: nat)
    ensures RouterAt(c, CleanupPort(c, t, host, svc, port), p)
         == if SamePort(c, port, p) then Detach(RouterAt(c, t, p), host, svc) else RouterAt(c, t, p)
  {
    DetachEmpty(host, svc);
  }

  lemma {:induction false} CleanupPortsSpare(
    c: Config, t: Tables, host: string, svc: ServiceId, ports: seq<nat>, p: nat, h: string, x: Route)
    requires x.service != svc
    ensures var t' := CleanupPorts(c, t, host, svc, ports);
            && (RouteAt(c, t', p, h, x) <==> RouteAt(c, t, p, h, x))
            && (FallbackAt(c, t', p, x) <==>
                FallbackAt(c, t, p, x) && !(host == "" && exists q :: q in ports && SamePort(c, q, p)))
    decreases |ports|
  {
    if ports != [] {
      var t1 := CleanupPort(c, t, host, svc, ports[0]);
      CleanupPortDetaches(c, t, host, svc, ports[0], p);
      DetachSpares(RouterAt(c, t, p), host, svc, h, x);
      CleanupPortsSpare(c, t1, host, svc, ports[1..], p, h, x);
      SomePort(c, ports, p);
    }
  }

  lemma SomePort(c: Config, ports: seq<nat>, p: nat)
    requires ports != []
    ensures (exists q :: q in ports && SamePort(c, q, p)) <==>
            SamePort(c, ports[0], p) || exists q :: q in ports[1..] && SamePort(c, q, p)
  {
    assert ports == [ports[0]] + ports[1..];
  }

  /** The first step of a teardown: the main router drops the service's host. */
  function WithoutHost(t: Tables, m: Mapping): Tables {
    if m.domain != "" then t.(main := RemoveRoute(t.main, m.domain, m.id)) else t
  }

  lemma WithoutHostSpares(c: Config, t: Tables, m: Mapping, p: nat, h: string, x: Route)
    requires x.service != m.id
    ensures RouteAt(c, WithoutHost(t, m), p, h, x) <==> RouteAt(c, t, p, h, x)
    ensures FallbackAt(c, WithoutHost(t, m), p, x) <==> FallbackAt(c, t, p, x)
  {
    WithoutMembers(Get(t.main.routes, ToLower(m.domain)), m.id);
  }

  /** What follows the loop over the ports touches no router. */
  lemma CleanupIsItsPorts(c: Config, t: Tables, m: Mapping, p: nat)
    ensures var t1 := WithoutHost(t, m).(svcPorts := t.svcPorts - {m.id});
            RouterAt(c, Cleanup(c, t, m), p) ==
            RouterAt(c, CleanupPorts(c, t1, m.domain, m.id, Get(t.svcPorts, m.id)), p)
  {
  }

  /** In every state, tearing a service down keeps every route of every other service on
      every router, the main one included, and another service's fallback survives exactly
      when the torn-down service has a domain or no record on that port. */
  lemma CleanupSparesOthers(c: Config, t: Tables, m: Mapping, p: nat, h: string, x: Route)
    requires x.service != m.id
    ensures var t', ports := Cleanup(c, t, m), Get(t.svcPorts, m.id);
            && (RouteAt(c, t', p, h, x) <==> RouteAt(c, t, p, h, x))
            && (FallbackAt(c, t', p, x) <==>
                FallbackAt(c, t, p, x) && !(m.domain == "" && exists q :: q in ports && SamePort(c, q, p)))
  {
    var t1 := WithoutHost(t, m);
    WithoutHostSpares(c, t, m, p, h, x);
    CleanupIsItsPorts(c, t, m, p);
    CleanupPortsSpare(c, t1.(svcPorts := t.svcPorts - {m.id}), m.domain, m.id, Get(t.svcPorts, m.id), p, h, x);
  }
}
