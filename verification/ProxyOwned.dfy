/** Exactly which updates keep every route and fallback owned. Ownership is strict: a route
    belongs to a stored service and is under that service's stored domain, a fallback belongs
    to one stored without a domain, and on a custom port both are recorded there. */
module ProxyOwned {
  import opened Common
  import opened R = Router
  import opened ProxyTables
  import opened ProxyLinked
  import opened ProxyRouters

  type Mappings = map<ServiceId, Mapping>
  type Ports = map<ServiceId, seq<nat>>

  // ------------------------------------------------------- entries of a service

  /** Ownership of one router, main or not; only the main router's routes need no port record. */
  ghost predicate EntriesOwned(last: Mappings, ports: Ports, p: nat, isMain: bool, r: Router) {
    && WellFormed(r)
    && (forall h, x :: h in r.routes && x in r.routes[h] ==> RouteOwned(last, ports, p, isMain, h, x))
    && (r.fallback.Some? ==> FallbackOwned(last, ports, p, r.fallback.value))
  }

  ghost predicate RouteOwned(last: Mappings, ports: Ports, p: nat, isMain: bool, h: string, x: Route) {
    && x.service in last && ToLower(last[x.service].domain) == h
    && (isMain || Owner(last, ports, p, x.service))
  }

  ghost predicate FallbackOwned(last: Mappings, ports: Ports, p: nat, x: Route) {
    Owner(last, ports, p, x.service) && last[x.service].domain == ""
  }

  lemma PortEntries(last: Mappings, ports: Ports, p: nat, r: Router)
    ensures PortOwned(last, ports, p, r) <==> EntriesOwned(last, ports, p, false, r)
  {
    if EntriesOwned(last, ports, p, false, r) {
      forall h, x | h in r.routes && x in r.routes[h]
        ensures Owner(last, ports, p, x.service) && ToLower(last[x.service].domain) == h
      {
        assert RouteOwned(last, ports, p, false, h, x);
      }
    }
  }

  lemma MainEntries(c: Config, last: Mappings, ports: Ports, r: Router)
    ensures MainOwned(c, last, ports, r) <==> EntriesOwned(last, ports, c.mainPort, true, r)
  {
    if EntriesOwned(last, ports, c.mainPort, true, r) {
      forall h, x | h in r.routes && x in r.routes[h]
        ensures x.service in last && ToLower(last[x.service].domain) == h
      {
        assert RouteOwned(last, ports, c.mainPort, true, h, x);
      }
    }
  }

  predicate Falls(r: Router, svc: ServiceId) { r.fallback.Some? && r.fallback.value.service == svc }

  /** The service has a route under the host. */
  predicate Routes(r: Router, h: string, svc: ServiceId) { Serves(Get(r.routes, h), svc) }

  /** Whatever routes the service has are under the mapping's host. */
  ghost predicate HostsFit(r: Router, m: Mapping) { forall h :: Routes(r, h, m.id) ==> h == ToLower(m.domain) }

  /** A fallback of the service goes with a mapping without a domain. */
  predicate FallbackFits(r: Router, m: Mapping) { Falls(r, m.id) ==> m.domain == "" }

  ghost predicate HoldsNothing(r: Router, svc: ServiceId) { !Falls(r, svc) && forall h :: !Routes(r, h, svc) }

  /** Whether the setup of the mapping leaves a record on port `p` as it is, if there is one. */
  predicate StaysOn(c: Config, m: Mapping, p: nat) { RecordsPort(c, m) ==> m.listenPort == p }

  // -------------------------------------------------------------------- teardown

  lemma DetachLess(last: Mappings, ports: Ports, p: nat, isMain: bool, r: Router, m: Mapping)
    requires EntriesOwned(last, ports, p, isMain, r)
    ensures EntriesOwned(last, ports, p, isMain, Detach(r, m.domain, m.id))
    ensures EntriesOwned(last, ports, p, isMain, RemoveRoute(r, m.domain, m.id))
  {
    WithoutMembers(Get(r.routes, ToLower(m.domain)), m.id);
    RemoveRouteWellFormed(r, m.domain, m.id);
    var r' := RemoveRoute(r, m.domain, m.id);
    forall h, x | h in r'.routes && x in r'.routes[h] ensures RouteOwned(last, ports, p, isMain, h, x) {
      assert h in r.routes && x in r.routes[h];
    }
  }

  /** Detaching a mapping takes all the service has on the router exactly when it fits. */
  lemma DetachTakesAll(r: Router, m: Mapping)
    requires WellFormed(r)
    ensures HoldsNothing(Detach(r, m.domain, m.id), m.id) <==> HostsFit(r, m) && FallbackFits(r, m)
  {
    var h0 := ToLower(m.domain);
    var r' := Detach(r, m.domain, m.id);
    WithoutMembers(Get(r.routes, h0), m.id);
    if m.domain != "" {
      assert Get(r'.routes, h0) == Without(Get(r.routes, h0), m.id);
      assert !Routes(r', h0, m.id);
    } else {
      assert !Routes(r, "", m.id);
    }
    forall h | h != h0 || m.domain == "" ensures Routes(r', h, m.id) <==> Routes(r, h, m.id) {
      assert Get(r'.routes, h) == Get(r.routes, h);
    }
  }

  /** Dropping a service's port record leaves a router owned exactly when the service has
      nothing there that needs the record. */
  lemma DropRecordExactly(last: Mappings, ports: Ports, p: nat, isMain: bool, r: Router, id: ServiceId)
    requires EntriesOwned(last, ports, p, isMain, r)
    ensures EntriesOwned(last, ports - {id}, p, isMain, r) <==>
            if isMain then !Falls(r, id) else HoldsNothing(r, id)
  {
    if !Falls(r, id) && (isMain || HoldsNothing(r, id)) {
      forall h, x | h in r.routes && x in r.routes[h] ensures RouteOwned(last, ports - {id}, p, isMain, h, x) {
        assert RouteOwned(last, ports, p, isMain, h, x);
        assert isMain || !Routes(r, h, id);
        assert x in Get(r.routes, h);
      }
    }
  }

  /** A service has nothing on a port it is not recorded on. */
  lemma NothingElsewhere(last: Mappings, ports: Ports, p: nat, r: Router, id: ServiceId)
    requires EntriesOwned(last, ports, p, false, r) && !(id in ports && ports[id] == [p])
    ensures HoldsNothing(r, id)
  {
    forall h ensures !Routes(r, h, id) {
      assert forall x :: x in Get(r.routes, h) ==> RouteOwned(last, ports, p, false, h, x);
    }
  }

  /** The routers a teardown leaves: those of the recorded port detached, and closed when empty. */
  lemma CleanupRouters(c: Config, t: Tables, m: Mapping)
    requires SinglePorts(t.svcPorts)
    ensures var t', id := Cleanup(c, t, m), m.id;
            var main := if m.domain != "" then RemoveRoute(t.main, m.domain, id) else t.main;
            if id !in t.svcPorts then t'.main == main && t'.portRouters == t.portRouters
            else
              var q := t.svcPorts[id][0];
              && t'.main == (if IsMain(c, q) then Detach(main, m.domain, id) else main)
              && t'.portRouters.Keys <= t.portRouters.Keys
              && (forall p :: p in t.portRouters && (p != q || IsMain(c, q)) ==>
                    p in t'.portRouters && t'.portRouters[p] == t.portRouters[p])
              && (q in t.portRouters && !IsMain(c, q) ==>
                    var d := Detach(t.portRouters[q], m.domain, id);
                    if IsEmpty(d) then q !in t'.portRouters else q in t'.portRouters && t'.portRouters[q] == d)
  {
    var main := if m.domain != "" then RemoveRoute(t.main, m.domain, m.id) else t.main;
    var t2 := t.(main := main, svcPorts := t.svcPorts - {m.id});
    if m.id in t.svcPorts {
      var q := t.svcPorts[m.id][0];
      assert t.svcPorts[m.id] == [q] && [q][1..] == [];
      assert CleanupPorts(c, t2, m.domain, m.id, [q]) == CleanupPort(c, t2, m.domain, m.id, q);
    }
  }

  /** One custom port after a teardown. */
  lemma CleanupPortExactly(c: Config, t: Tables, m: Mapping, p: nat)
    requires Owned(c, t) && p in t.portRouters
    ensures var t', r := Cleanup(c, t, m), t.portRouters[p];
            (p in t'.portRouters ==> PortOwned(t.lastMappings, t.svcPorts - {m.id}, p, t'.portRouters[p]))
            <==> HostsFit(r, m) && FallbackFits(r, m)
  {
    var last, ports, id, r := t.lastMappings, t.svcPorts, m.id, t.portRouters[p];
    CleanupRouters(c, t, m);
    PortEntries(last, ports, p, r);
    if id in ports && ports[id] == [p] {
      var d := Detach(r, m.domain, id);
      DetachLess(last, ports, p, false, r, m);
      DetachTakesAll(r, m);
      DropRecordExactly(last, ports, p, false, d, id);
      PortEntries(last, ports - {id}, p, d);
    } else {
      assert id in ports ==> ports[id] == [ports[id][0]];
      NothingElsewhere(last, ports, p, r, id);
      DropRecordExactly(last, ports, p, false, r, id);
      PortEntries(last, ports - {id}, p, r);
    }
  }

  lemma CleanupMainExactly(c: Config, t: Tables, m: Mapping)
    requires Owned(c, t)
    ensures MainOwned(c, t.lastMappings, t.svcPorts - {m.id}, Cleanup(c, t, m).main) <==> FallbackFits(t.main, m)
  {
    var last, ports, main' := t.lastMappings, t.svcPorts, Cleanup(c, t, m).main;
    CleanupRouters(c, t, m);
    MainEntries(c, last, ports, t.main);
    DetachLess(last, ports, c.mainPort, true, t.main, m);
    DetachLess(last, ports, c.mainPort, true, RemoveRoute(t.main, m.domain, m.id), m);
    DropRecordExactly(last, ports, c.mainPort, true, main', m.id);
    MainEntries(c, last, ports - {m.id}, main');
    if Falls(t.main, m.id) {
      assert ports[m.id] == [c.mainPort];
    }
  }

  /** What a teardown under the mapping's domain takes away of its service. */
  ghost predicate CleanedAway(t: Tables, m: Mapping) {
    && FallbackFits(t.main, m)
    && (forall p :: p in t.portRouters ==> HostsFit(t.portRouters[p], m) && FallbackFits(t.portRouters[p], m))
  }

  /** A teardown keeps all routes owned if and only if the service's routes on its port are
      under the host it is torn down with, and its fallback goes with a mapping without one. */
  lemma CleanupOwnedExactly(c: Config, t: Tables, m: Mapping)
    requires Owned(c, t)
    ensures Owned(c, Cleanup(c, t, m)) <==> CleanedAway(t, m)
  {
    CleanupRecords(c, t, m);
    CleanupMainExactly(c, t, m);
    CleanupPortsExactly(c, t, m);
  }

  lemma CleanupPortsExactly(c: Config, t: Tables, m: Mapping)
    requires Owned(c, t)
    ensures PortsOwned(c, t.lastMappings, t.svcPorts - {m.id}, Cleanup(c, t, m).portRouters) <==>
            forall p :: p in t.portRouters ==> HostsFit(t.portRouters[p], m) && FallbackFits(t.portRouters[p], m)
  {
    var t' := Cleanup(c, t, m);
    CleanupRouters(c, t, m);
    forall p | p in t.portRouters
      ensures (p in t'.portRouters ==> PortOwned(t.lastMappings, t.svcPorts - {m.id}, p, t'.portRouters[p]))
              <==> HostsFit(t.portRouters[p], m) && FallbackFits(t.portRouters[p], m)
    {
      CleanupPortExactly(c, t, m, p);
    }
    assert t'.portRouters.Keys <= t.portRouters.Keys;
  }

  // ----------------------------------------------------------------------- setup

  function NewPorts(c: Config, ports: Ports, m: Mapping): Ports {
    if RecordsPort(c, m) && m.listenPort >= 0 then ports[m.id := [m.listenPort]] else ports
  }

  /** Whatever the service has on the router agrees with the mapping about to be stored:
      routes under its host, a fallback only without a domain, and the port record, where
      one is needed, not about to move. */
  ghost predicate RouterFits(c: Config, m: Mapping, p: nat, isMain: bool, r: Router) {
    && HostsFit(r, m) && FallbackFits(r, m)
    && ((if isMain then !Falls(r, m.id) else HoldsNothing(r, m.id)) || StaysOn(c, m, p))
  }

  ghost predicate Fits(c: Config, t: Tables, m: Mapping) {
    && RouterFits(c, m, c.mainPort, true, t.main)
    && (forall p :: p in t.portRouters ==> RouterFits(c, m, p, false, t.portRouters[p]))
  }

  lemma RouteStored(c: Config, last: Mappings, ports: Ports, m: Mapping, p: nat, isMain: bool, h: string, x: Route)
    requires RouteOwned(last, ports, p, isMain, h, x)
    ensures RouteOwned(last[m.id := m], NewPorts(c, ports, m), p, isMain, h, x) <==>
            (x.service == m.id ==> h == ToLower(m.domain) && (isMain || m.listenPort < 0 || StaysOn(c, m, p)))
  {
  }

  lemma FallbackStored(c: Config, last: Mappings, ports: Ports, m: Mapping, p: nat, x: Route)
    requires FallbackOwned(last, ports, p, x)
    ensures FallbackOwned(last[m.id := m], NewPorts(c, ports, m), p, x) <==>
            (x.service == m.id ==> m.domain == "" && (m.listenPort < 0 || StaysOn(c, m, p)))
  {
  }

  /** Storing a mapping keeps an untouched router owned exactly when the router fits. */
  lemma UntouchedExactly(c: Config, last: Mappings, ports: Ports, m: Mapping, p: nat, isMain: bool, r: Router)
    requires EntriesOwned(last, ports, p, isMain, r) && (RecordsPort(c, m) ==> m.listenPort >= 0)
    ensures EntriesOwned(last[m.id := m], NewPorts(c, ports, m), p, isMain, r) <==> RouterFits(c, m, p, isMain, r)
  {
    var last', ports' := last[m.id := m], NewPorts(c, ports, m);
    forall h, x | h in r.routes && x in r.routes[h]
      ensures RouteOwned(last', ports', p, isMain, h, x) <==>
              (x.service == m.id ==> h == ToLower(m.domain) && (isMain || StaysOn(c, m, p)))
    {
      assert RouteOwned(last, ports, p, isMain, h, x);
      RouteStored(c, last, ports, m, p, isMain, h, x);
    }
    if r.fallback.Some? { FallbackStored(c, last, ports, m, p, r.fallback.value); }
    RoutesOfService(r, m.id);
  }

  /** The service's routes, as entries of the host table. */
  lemma RoutesOfService(r: Router, id: ServiceId)
    ensures forall h :: Routes(r, h, id) <==> h in r.routes && exists x :: x in r.routes[h] && x.service == id
  {
  }

  /** Adding an owned route neither mends nor breaks the ownership of the rest. */
  lemma AddedExactly(last: Mappings, ports: Ports, p: nat, isMain: bool, r: Router, host: string, route: Route)
    requires WellFormed(r) && RouteOwned(last, ports, p, isMain, ToLower(host), route)
    ensures EntriesOwned(last, ports, p, isMain, AddRoute(r, host, route)) <==> EntriesOwned(last, ports, p, isMain, r)
  {
    var h0, r' := ToLower(host), AddRoute(r, host, route);
    UpsertMembers(Get(r.routes, h0), route);
    if EntriesOwned(last, ports, p, isMain, r') {
      forall h, x | h in r.routes && x in r.routes[h] ensures RouteOwned(last, ports, p, isMain, h, x) {
        if h != h0 || x.service != route.service {
          assert h in r'.routes && x in r'.routes[h];
        }
      }
    }
    if EntriesOwned(last, ports, p, isMain, r) {
      forall h, x | h in r'.routes && x in r'.routes[h] ensures RouteOwned(last, ports, p, isMain, h, x) {
        assert x == route || (h in r.routes && x in r.routes[h]);
      }
    }
  }

  /** A TCP setup's fallback is owned exactly by a mapping without a domain. */
  lemma FallbackExactly(c: Config, last: Mappings, ports: Ports, m: Mapping, isMain: bool, r: Router)
    requires m.mode == TCP && m.listenPort >= 0 && EntriesOwned(last, ports, m.listenPort, isMain, r)
    ensures EntriesOwned(last[m.id := m], NewPorts(c, ports, m), m.listenPort, isMain, SetFallback(r, L4Route(m))) <==>
            RouterFits(c, m, m.listenPort, isMain, r) && m.domain == ""
  {
    var last', ports', p := last[m.id := m], NewPorts(c, ports, m), m.listenPort;
    UntouchedExactly(c, last, ports, m, p, isMain, r);
    if EntriesOwned(last', ports', p, isMain, SetFallback(r, L4Route(m))) && r.fallback.Some? {
      FallbackStored(c, last, ports, m, p, r.fallback.value);
    }
  }

  /** The router a TCP or TLS setup changes. */
  lemma RouterAfterExactly(c: Config, last: Mappings, ports: Ports, m: Mapping, isMain: bool, r: Router)
    requires (m.mode == TCP || m.mode == TLS) && m.listenPort > 0 && (m.listenPort == c.mainPort <==> isMain)
    requires EntriesOwned(last, ports, m.listenPort, isMain, r)
    ensures EntriesOwned(last[m.id := m], NewPorts(c, ports, m), m.listenPort, isMain, RouterAfter(r, m)) <==>
            RouterFits(c, m, m.listenPort, isMain, r) && PlainTCP(m)
  {
    if m.mode == TCP {
      FallbackExactly(c, last, ports, m, isMain, r);
    } else {
      UntouchedExactly(c, last, ports, m, m.listenPort, isMain, r);
      AddedExactly(last[m.id := m], NewPorts(c, ports, m), m.listenPort, isMain, r, m.domain, L4Route(m));
    }
  }

  predicate PlainTCP(m: Mapping) { m.mode == TCP ==> m.domain == "" }

  // ------------------------------------------------------------ stored mappings

  /** When setup fails, read off the mapping, the routers and the world's answers. */
  predicate SetupFails(c: Config, t: Tables, m: Mapping, env: Env) {
    match m.mode
    case HTTP => m.paths != [] && !(env.authOk && env.chainsOk)
    case UDP => !L4Admissible(c, m) || !env.listenOk || !env.dialerOk
    case TCP => !L4Admissible(c, m) || !RouterReady(c, t, m.listenPort, env)
    case TLS => !L4Admissible(c, m) || !RouterReady(c, t, m.listenPort, env)
  }

  lemma SetupFailsExactly(c: Config, t: Tables, m: Mapping, env: Env)
    ensures Setup(c, t, m, env).Failed? <==> SetupFails(c, t, m, env)
  {
  }

  lemma UntouchedPorts(c: Config, t: Tables, m: Mapping)
    requires Owned(c, t) && (RecordsPort(c, m) ==> m.listenPort >= 0)
    ensures PortsOwned(c, t.lastMappings[m.id := m], NewPorts(c, t.svcPorts, m), t.portRouters) <==>
            forall p :: p in t.portRouters ==> RouterFits(c, m, p, false, t.portRouters[p])
  {
    var last', ports' := t.lastMappings[m.id := m], NewPorts(c, t.svcPorts, m);
    forall p | p in t.portRouters
      ensures PortOwned(last', ports', p, t.portRouters[p]) <==> RouterFits(c, m, p, false, t.portRouters[p])
    {
      UntouchedPort(c, t, m, p);
    }
  }

  lemma UntouchedPort(c: Config, t: Tables, m: Mapping, p: nat)
    requires Owned(c, t) && (RecordsPort(c, m) ==> m.listenPort >= 0) && p in t.portRouters
    ensures PortOwned(t.lastMappings[m.id := m], NewPorts(c, t.svcPorts, m), p, t.portRouters[p]) <==>
            RouterFits(c, m, p, false, t.portRouters[p])
  {
    PortEntries(t.lastMappings, t.svcPorts, p, t.portRouters[p]);
    PortEntries(t.lastMappings[m.id := m], NewPorts(c, t.svcPorts, m), p, t.portRouters[p]);
    UntouchedExactly(c, t.lastMappings, t.svcPorts, m, p, false, t.portRouters[p]);
  }

  lemma UntouchedMain(c: Config, t: Tables, m: Mapping)
    requires Owned(c, t) && (RecordsPort(c, m) ==> m.listenPort >= 0)
    ensures MainOwned(c, t.lastMappings[m.id := m], NewPorts(c, t.svcPorts, m), t.main) <==>
            RouterFits(c, m, c.mainPort, true, t.main)
  {
    MainEntries(c, t.lastMappings, t.svcPorts, t.main);
    MainEntries(c, t.lastMappings[m.id := m], NewPorts(c, t.svcPorts, m), t.main);
    UntouchedExactly(c, t.lastMappings, t.svcPorts, m, c.mainPort, true, t.main);
  }

  lemma ChangedPort(c: Config, t: Tables, m: Mapping)
    requires Owned(c, t) && (m.mode == TCP || m.mode == TLS) && m.listenPort > 0 && !IsMain(c, m.listenPort)
    ensures var r := RouterAt(c, t, m.listenPort);
            PortOwned(t.lastMappings[m.id := m], NewPorts(c, t.svcPorts, m), m.listenPort, RouterAfter(r, m)) <==>
            RouterFits(c, m, m.listenPort, false, r) && PlainTCP(m)
  {
    var p, r := m.listenPort, RouterAt(c, t, m.listenPort);
    PortEntries(t.lastMappings, t.svcPorts, p, r);
    PortEntries(t.lastMappings[m.id := m], NewPorts(c, t.svcPorts, m), p, RouterAfter(r, m));
    RouterAfterExactly(c, t.lastMappings, t.svcPorts, m, false, r);
  }

  lemma ChangedMain(c: Config, t: Tables, m: Mapping)
    requires Owned(c, t) && (m.mode == TCP || m.mode == TLS) && m.listenPort > 0 && IsMain(c, m.listenPort)
    ensures MainOwned(c, t.lastMappings[m.id := m], NewPorts(c, t.svcPorts, m), RouterAfter(t.main, m)) <==>
            RouterFits(c, m, c.mainPort, true, t.main) && PlainTCP(m)
  {
    MainEntries(c, t.lastMappings, t.svcPorts, t.main);
    MainEntries(c, t.lastMappings[m.id := m], NewPorts(c, t.svcPorts, m), RouterAfter(t.main, m));
    RouterAfterExactly(c, t.lastMappings, t.svcPorts, m, true, t.main);
  }

  lemma ChangedMainHTTP(c: Config, t: Tables, m: Mapping)
    requires Owned(c, t) && m.mode == HTTP
    ensures MainOwned(c, t.lastMappings[m.id := m], t.svcPorts, AddRoute(t.main, m.domain, HttpRouteOf(m))) <==>
            RouterFits(c, m, c.mainPort, true, t.main)
  {
    UntouchedMain(c, t, m);
    var r := AddRoute(t.main, m.domain, HttpRouteOf(m));
    MainEntries(c, t.lastMappings[m.id := m], t.svcPorts, t.main);
    MainEntries(c, t.lastMappings[m.id := m], t.svcPorts, r);
    AddedExactly(t.lastMappings[m.id := m], t.svcPorts, c.mainPort, true, t.main, m.domain, HttpRouteOf(m));
  }

  /** The per-port routers after one of them, existing or fresh, was changed. */
  lemma ChangedPorts(c: Config, t: Tables, m: Mapping)
    requires Owned(c, t) && (m.mode == TCP || m.mode == TLS) && m.listenPort > 0 && !IsMain(c, m.listenPort)
    ensures var p := m.listenPort;
            var routers := t.portRouters[p := RouterAfter(RouterAt(c, t, p), m)];
            PortsOwned(c, t.lastMappings[m.id := m], NewPorts(c, t.svcPorts, m), routers) <==>
            PlainTCP(m) && forall q :: q in t.portRouters ==> RouterFits(c, m, q, false, t.portRouters[q])
  {
    var p := m.listenPort;
    var routers := t.portRouters[p := RouterAfter(RouterAt(c, t, p), m)];
    var last', ports' := t.lastMappings[m.id := m], NewPorts(c, t.svcPorts, m);
    ChangedPort(c, t, m);
    assert p !in t.portRouters ==> RouterFits(c, m, p, false, RouterAt(c, t, p));
    forall q | q in t.portRouters && q != p
      ensures PortOwned(last', ports', q, routers[q]) <==> RouterFits(c, m, q, false, t.portRouters[q])
    {
      UntouchedPort(c, t, m, q);
    }
    assert p in routers;
    assert forall q :: q in routers <==> q == p || q in t.portRouters;
  }

  /** The routers and port records a successful TCP or TLS setup leaves. */
  lemma L4Routing(c: Config, t: Tables, m: Mapping, env: Env)
    requires (m.mode == TCP || m.mode == TLS) && !SetupFails(c, t, m, env)
    ensures m.listenPort > 0
    ensures var t', r := Setup(c, t, m, env).t, RouterAfter(RouterAt(c, t, m.listenPort), m);
            && t'.lastMappings == t.lastMappings && t'.svcPorts == NewPorts(c, t.svcPorts, m)
            && (if IsMain(c, m.listenPort) then t'.main == r && t'.portRouters == t.portRouters
                else t'.main == t.main && t'.portRouters == t.portRouters[m.listenPort := r])
  {
    L4SetupShape(c, t, m, env);
    RestrictionsRouting(t, m, env);
  }

  lemma L4StoredExactly(c: Config, t: Tables, m: Mapping, env: Env)
    requires Owned(c, t) && (m.mode == TCP || m.mode == TLS) && !SetupFails(c, t, m, env)
    ensures Owned(c, Store(Setup(c, t, m, env).t, m)) <==> Fits(c, t, m) && PlainTCP(m)
  {
    L4Routing(c, t, m, env);
    assert SinglePorts(NewPorts(c, t.svcPorts, m));
    if IsMain(c, m.listenPort) {
      ChangedMain(c, t, m);
      UntouchedPorts(c, t, m);
    } else {
      UntouchedMain(c, t, m);
      ChangedPorts(c, t, m);
    }
  }

  /** A successful setup, once its mapping is stored, keeps all routes owned if and only if
      what the service already had fits the mapping, and a TCP mapping has no domain. */
  lemma StoredExactly(c: Config, t: Tables, m: Mapping, env: Env)
    requires Owned(c, t) && !SetupFails(c, t, m, env)
    ensures Owned(c, Store(Setup(c, t, m, env).t, m)) <==> Fits(c, t, m) && PlainTCP(m)
  {
    match m.mode
    case TCP => L4StoredExactly(c, t, m, env);
    case TLS => L4StoredExactly(c, t, m, env);
    case UDP =>
      RestrictionsRouting(t.(udpRelays := t.udpRelays - {m.id}), m, env);
      UntouchedMain(c, t, m);
      UntouchedPorts(c, t, m);
    case HTTP =>
      var r := AddRoute(t.main, m.domain, HttpRouteOf(m));
      RestrictionsRouting(t.(main := r), m, env);
      UntouchedMain(c, t, m);
      ChangedMainHTTP(c, t, m);
      UntouchedPorts(c, t, m);
  }

  // -------------------------------------------------------------- failed setups

  /** The other tables of `u` around the routers of `t`. */
  function Around(u: Tables, t: Tables): Tables { u.(main := t.main, portRouters := t.portRouters) }

  /** Cleaning up ports reads and writes routers only. */
  lemma {:induction false} CleanupPortsAround(c: Config, u: Tables, t: Tables, host: string, svc: ServiceId,
                                              ports: seq<nat>)
    ensures CleanupPorts(c, Around(u, t), host, svc, ports) == Around(u, CleanupPorts(c, t, host, svc, ports))
    decreases |ports|
  {
    if ports != [] {
      assert CleanupPort(c, Around(u, t), host, svc, ports[0]) == Around(u, CleanupPort(c, t, host, svc, ports[0]));
      CleanupPortsAround(c, u, CleanupPort(c, t, host, svc, ports[0]), host, svc, ports[1..]);
    }
  }

  /** Teardown under a domain leaves the same routers whether or not a route of the service
      was just added under it. */
  lemma CleanupRouting(c: Config, t: Tables, t': Tables, m: Mapping)
    requires t'.svcPorts == t.svcPorts && t'.portRouters == t.portRouters
    requires t'.main == t.main || t'.main == AddRoute(t.main, m.domain, HttpRouteOf(m))
    ensures SameRouting(Cleanup(c, t, m), Cleanup(c, t', m))
  {
    RemoveAddSame(t.main, m.domain, HttpRouteOf(m), m.domain);
    CleanupRecords(c, t, m);
    CleanupRecords(c, t', m);
    var main := if m.domain != "" then RemoveRoute(t.main, m.domain, m.id) else t.main;
    assert main == if m.domain != "" then RemoveRoute(t'.main, m.domain, m.id) else t'.main;
    var ports := t.svcPorts - {m.id};
    var u, u' := t.(main := main, svcPorts := ports), t'.(main := main, svcPorts := ports);
    assert Around(u', u) == u';
    CleanupPortsAround(c, u', u, m.domain, m.id, Get(t.svcPorts, m.id));
  }

  /** A failed setup leaves at most a route that its own teardown takes away again. */
  lemma FailedRouting(c: Config, t: Tables, m: Mapping, env: Env)
    requires SetupFails(c, t, m, env)
    ensures var t' := Setup(c, t, m, env).t;
            && t'.lastMappings == t.lastMappings && t'.svcPorts == t.svcPorts && t'.portRouters == t.portRouters
            && (t'.main == t.main || t'.main == AddRoute(t.main, m.domain, HttpRouteOf(m)))
  {
    if m.mode == HTTP {
      RestrictionsRouting(t.(main := AddRoute(t.main, m.domain, HttpRouteOf(m))), m, env);
    }
  }

  /** Rolling a failed setup back keeps all routes owned if and only if what the service
      already had is what a teardown under the new domain takes away. */
  lemma RolledBackExactly(c: Config, t: Tables, m: Mapping, env: Env)
    requires Owned(c, t) && SetupFails(c, t, m, env)
    ensures Owned(c, Cleanup(c, Setup(c, t, m, env).t, m)) <==> CleanedAway(t, m)
  {
    var t1 := Setup(c, t, m, env).t;
    FailedRouting(c, t, m, env);
    CleanupRouting(c, t, t1, m);
    CleanupOwnedExactly(c, t, m);
    CleanupRecords(c, t, m);
    CleanupRecords(c, t1, m);
  }

  // --------------------------------------------------------------------- updates

  lemma ErasedFits(c: Config, t: Tables, m: Mapping)
    requires Owned(c, t) && Erased(t, m.id)
    ensures Fits(c, t, m) && CleanedAway(t, m)
  {
    RoutesOfService(t.main, m.id);
    forall p | p in t.portRouters ensures HoldsNothing(t.portRouters[p], m.id) {
      PortEntries(t.lastMappings, t.svcPorts, p, t.portRouters[p]);
      NothingElsewhere(t.lastMappings, t.svcPorts, p, t.portRouters[p], m.id);
    }
  }

  lemma StoredCleans(c: Config, t: Tables, m: Mapping)
    requires Owned(c, t) && (m.id in t.lastMappings ==> t.lastMappings[m.id].domain == m.domain)
    ensures CleanedAway(t, m)
  {
    forall p | p in t.portRouters ensures HostsFit(t.portRouters[p], m) && FallbackFits(t.portRouters[p], m) {
      RoutesOfService(t.portRouters[p], m.id);
      assert PortOwned(t.lastMappings, t.svcPorts, p, t.portRouters[p]);
    }
  }

  /** No route of the service is left on the main router. */
  lemma CleanupErases(c: Config, t: Tables, m: Mapping)
    requires Owned(c, t) && (m.id in t.lastMappings ==> t.lastMappings[m.id].domain == m.domain)
    ensures Erased(Cleanup(c, t, m), m.id)
  {
    var h0 := ToLower(m.domain);
    var main := if m.domain != "" then RemoveRoute(t.main, m.domain, m.id) else t.main;
    CleanupRecords(c, t, m);
    CleanupRouters(c, t, m);
    WithoutMembers(Get(t.main.routes, h0), m.id);
    WithoutMembers(Get(main.routes, h0), m.id);
    assert forall h, x :: h in main.routes && x in main.routes[h] ==> h in t.main.routes && x in t.main.routes[h];
    assert forall h, x :: h in main.routes && x in main.routes[h] ==> x.service != m.id;
    var main' := Detach(main, m.domain, m.id);
    assert forall h, x :: h in main'.routes && x in main'.routes[h] ==> h in main.routes && x in main.routes[h];
  }

  /** Cleaning up with the domain the service was stored under erases it everywhere
      and leaves everyone else's routes owned. */
  lemma CleanupOwned(c: Config, t: Tables, m: Mapping)
    requires Owned(c, t) && (m.id in t.lastMappings ==> t.lastMappings[m.id].domain == m.domain)
    ensures Owned(c, Cleanup(c, t, m)) && Erased(Cleanup(c, t, m), m.id)
  {
    StoredCleans(c, t, m);
    CleanupOwnedExactly(c, t, m);
    CleanupErases(c, t, m);
  }

  lemma RemoveOwned(c: Config, t: Tables, m: Mapping)
    requires Linked(t) && Owned(c, t)
    ensures Owned(c, Remove(c, t, m))
  {
    var prev := Previous(t, m);
    CleanupOwned(c, t, prev);
    CleanupRecords(c, t, prev);
    CleanupIgnoresStored(c, t, prev, t.lastMappings - {m.id});
    ErasedRestore(c, Cleanup(c, t, prev), m.id, t.lastMappings - {m.id});
  }

  /** When one update keeps every route owned, read off the tables before it. */
  ghost predicate KeepsOwned(c: Config, t: Tables, m: Mapping, env: Env) {
    match m.update
    case Created =>
      !env.peerOk || if SetupFails(c, t, m, env) then CleanedAway(t, m) else Fits(c, t, m) && PlainTCP(m)
    case Modified => PlainTCP(m) || SetupFails(c, Cleanup(c, t, Previous(t, m)), m, env)
    case Removed => true
  }

  /** The exact condition for ownership, stored domains included. A CREATED update keeps it if
      and only if no peer was added, or the setup failed and the teardown under the new domain
      takes all the service had on its port, or it succeeded, what the service had fits the new
      mapping and a TCP mapping has no domain; a MODIFIED one exactly unless it sets up a TCP
      mapping with a domain; a REMOVED one always. */
  lemma OwnedExactly(c: Config, t: Tables, m: Mapping, env: Env)
    requires Linked(t) && Owned(c, t)
    ensures Owned(c, Process(c, t, m, env)) <==> KeepsOwned(c, t, m, env)
  {
    match m.update
    case Created =>
      SetupFailsExactly(c, t, m, env);
      if SetupFails(c, t, m, env) {
        RolledBackExactly(c, t, m, env);
      } else {
        StoredExactly(c, t, m, env);
      }
    case Modified =>
      var t1 := Cleanup(c, t, Previous(t, m));
      CleanupOwned(c, t, Previous(t, m));
      ErasedFits(c, t1, m);
      SetupFailsExactly(c, t1, m, env);
      if SetupFails(c, t1, m, env) {
        RolledBackExactly(c, t1, m, env);
      } else {
        StoredExactly(c, t1, m, env);
      }
    case Removed => RemoveOwned(c, t, m);
  }

  // ------------------------------------------------------------------------ runs

  lemma UnknownErased(c: Config, t: Tables, id: ServiceId)
    requires Linked(t) && Owned(c, t) && id !in t.lastMappings
    ensures Erased(t, id)
  {
  }

  /** A CREATED update is compatible when its id is new, or when the service is
      re-sent under the domain it is stored with and without moving its port. */
  predicate Compatible(c: Config, t: Tables, m: Mapping) {
    m.id !in t.lastMappings ||
    (t.lastMappings[m.id].domain == m.domain &&
     (RecordsPort(c, m) && m.id in t.svcPorts ==> t.svcPorts[m.id] == [m.listenPort]))
  }

  /** What a well-behaved management server sends: TCP mappings without a domain, and
      CREATED only for new ids or unmoved services. It is enough for ownership. */
  lemma CompatibleKeepsOwned(c: Config, t: Tables, m: Mapping, env: Env)
    requires Linked(t) && Owned(c, t) && PlainTCP(m) && (m.update == Created ==> Compatible(c, t, m))
    ensures KeepsOwned(c, t, m, env)
  {
    if m.update == Created {
      if m.id !in t.lastMappings {
        UnknownErased(c, t, m.id);
        ErasedFits(c, t, m);
      } else {
        StoredCleans(c, t, m);
        CompatibleFits(c, t, m);
      }
    }
  }

  lemma CompatibleFits(c: Config, t: Tables, m: Mapping)
    requires Owned(c, t) && m.id in t.lastMappings && Compatible(c, t, m)
    ensures Fits(c, t, m)
  {
    StoredCleans(c, t, m);
    RoutesOfService(t.main, m.id);
    if Falls(t.main, m.id) { assert t.svcPorts[m.id] == [c.mainPort]; }
    forall p | p in t.portRouters ensures HoldsNothing(t.portRouters[p], m.id) || StaysOn(c, m, p) {
      PortEntries(t.lastMappings, t.svcPorts, p, t.portRouters[p]);
      if !(m.id in t.svcPorts && t.svcPorts[m.id] == [p]) {
        NothingElsewhere(t.lastMappings, t.svcPorts, p, t.portRouters[p], m.id);
      }
    }
  }

  ghost predicate KeepsOwnedAll(c: Config, t: Tables, run: seq<Update>)
    decreases |run|
  {
    run == [] ||
    (KeepsOwned(c, t, run[0].0, run[0].1) && KeepsOwnedAll(c, Process(c, t, run[0].0, run[0].1), run[1..]))
  }

  /** All along a run each route is under the domain its service is stored with, each fallback
      belongs to a service stored without one, and what is on a custom port is recorded there,
      if and only if every update meets the exact condition when its turn comes. */
  lemma {:induction false} RoutesOwnedExactly(c: Config, t: Tables, run: seq<Update>)
    requires Linked(t) && Owned(c, t)
    ensures KeepsOwnedAll(c, t, run) <==> forall k :: 0 <= k <= |run| ==> Owned(c, ProcessAll(c, t, run[..k]))
    decreases |run|
  {
    assert run[..0] == [];
    if run != [] {
      var u := run[0];
      var t1 := Process(c, t, u.0, u.1);
      OwnedExactly(c, t, u.0, u.1);
      ProcessLinked(c, t, u.0, u.1);
      ProcessPrefixes(c, t, run);
      if Owned(c, t1) {
        RoutesOwnedExactly(c, t1, run[1..]);
        assert forall k :: 1 <= k <= |run| ==> ProcessAll(c, t, run[..k]) == ProcessAll(c, t1, run[1..][..k - 1]);
      }
    }
  }

  /** The tables after a TCP service on one custom port was created again on another. */
  lemma MovedCreate(c: Config, a: Mapping, b: Mapping, p: nat, q: nat)
    requires c == Config(443, 51820) && p == 9000 && q == 9001
    requires a == L4Mapping(Created, "s", "", TCP, p) && b == L4Mapping(Created, "s", "", TCP, q)
    ensures var t := Process(c, Process(c, Initial(false), a, ALL_OK), b, ALL_OK);
            && t.lastMappings == map["s" := b] && t.svcPorts == map["s" := [q]]
            && t.portRouters == map[p := SetFallback(R.EMPTY, L4Route(a)), q := SetFallback(R.EMPTY, L4Route(b))]
  {
  }

  lemma RemoveClearsOnly(c: Config, t: Tables, b: Mapping, d: Mapping, p: nat, q: nat)
    requires b.id == d.id && b.domain == "" && t.lastMappings == map[b.id := b] && t.svcPorts == map[b.id := [q]]
    requires p != q && !IsMain(c, p) && p in t.portRouters
    ensures var t' := Remove(c, t, d);
            t'.lastMappings == map[] && p in t'.portRouters && t'.portRouters[p] == t.portRouters[p]
  {
    var t1 := t.(lastMappings := t.lastMappings - {d.id}, svcPorts := t.svcPorts - {d.id});
    var t2 := CleanupPort(c, t1, "", d.id, q);
    assert [q][1..] == [];
    assert CleanupPorts(c, t1, "", d.id, [q]) == t2;
    CleanupRecords(c, t.(lastMappings := t.lastMappings - {d.id}), b);
  }

  /** A CREATED update that moves a known service to another port orphans the old one:
      after removal its fallback still answers for a service nobody stores. */
  lemma MovedCreateOrphansPort()
    ensures var c := Config(443, 51820);
            var run := [(L4Mapping(Created, "s", "", TCP, 9000), ALL_OK),
                        (L4Mapping(Created, "s", "", TCP, 9001), ALL_OK),
                        (L4Mapping(Removed, "s", "", TCP, 9001), ALL_OK)];
            var t := ProcessAll(c, Initial(false), run);
            && t.lastMappings == map[]
            && 9000 in t.portRouters && t.portRouters[9000].fallback.Some?
            && t.portRouters[9000].fallback.value.service == "s"
  {
    var c := Config(443, 51820);
    var a := L4Mapping(Created, "s", "", TCP, 9000);
    var b := L4Mapping(Created, "s", "", TCP, 9001);
    var d := L4Mapping(Removed, "s", "", TCP, 9001);
    var t1 := Process(c, Initial(false), a, ALL_OK);
    var t2 := Process(c, t1, b, ALL_OK);
    ProcessAllStep(c, Initial(false), (a, ALL_OK), [(b, ALL_OK), (d, ALL_OK)]);
    ProcessAllStep(c, t1, (b, ALL_OK), [(d, ALL_OK)]);
    ProcessAllStep(c, t2, (d, ALL_OK), []);
    assert [(a, ALL_OK)] + [(b, ALL_OK), (d, ALL_OK)] == [(a, ALL_OK), (b, ALL_OK), (d, ALL_OK)];
    assert [(b, ALL_OK)] + [(d, ALL_OK)] == [(b, ALL_OK), (d, ALL_OK)];
    assert [(d, ALL_OK)] + [] == [(d, ALL_OK)];
    MovedCreate(c, a, b, 9000, 9001);
    RemoveClearsOnly(c, t2, b, d, 9000, 9001);
  }
}
