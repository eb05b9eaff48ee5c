/** What every run keeps true of the per-port and main routers. */
module ProxyRouters {
  import opened Common
  import opened R = Router
  import opened ProxyTables
  import opened ProxyLinked

  // ------------------------------------------------- empty per-port routers

  ghost predicate NoEmpty(t: Tables) {
    forall p :: p in t.portRouters ==> !IsEmpty(t.portRouters[p])
  }

  lemma {:induction false} CleanupPortsNoEmpty(c: Config, t: Tables, host: string, svc: ServiceId, ports: seq<nat>)
    requires NoEmpty(t)
    ensures NoEmpty(CleanupPorts(c, t, host, svc, ports))
    decreases |ports|
  {
    if ports != [] {
      CleanupPortsNoEmpty(c, CleanupPort(c, t, host, svc, ports[0]), host, svc, ports[1..]);
    }
  }

  lemma CleanupNoEmpty(c: Config, t: Tables, m: Mapping)
    requires NoEmpty(t)
    ensures NoEmpty(Cleanup(c, t, m))
  {
    var t1 := if m.domain != "" then t.(main := RemoveRoute(t.main, m.domain, m.id)) else t;
    CleanupPortsNoEmpty(c, t1.(svcPorts := t1.svcPorts - {m.id}), m.domain, m.id, Get(t1.svcPorts, m.id));
  }

  /** A TLS mapping without a domain opens a listener whose route is then ignored. */
  predicate OpensEmpty(c: Config, t: Tables, m: Mapping, env: Env) {
    && m.mode == TLS && m.domain == "" && L4Admissible(c, m)
    && !IsMain(c, m.listenPort) && m.listenPort !in t.portRouters && env.listenOk
  }

  lemma RouterAfterEmpty(r: Router, m: Mapping)
    requires m.mode == TCP || m.mode == TLS
    ensures IsEmpty(RouterAfter(r, m)) <==> m.mode == TLS && m.domain == "" && IsEmpty(r)
  {
    if m.mode == TLS && m.domain != "" {
      assert ToLower(m.domain) in RouterAfter(r, m).routes;
    }
  }

  lemma L4SetupNoEmpty(c: Config, t: Tables, m: Mapping, env: Env)
    requires NoEmpty(t) && (m.mode == TCP || m.mode == TLS)
    ensures NoEmpty(Setup(c, t, m, env).t) <==> !OpensEmpty(c, t, m, env)
    ensures OpensEmpty(c, t, m, env) ==> Setup(c, t, m, env).Done?
  {
    L4SetupShape(c, t, m, env);
    var p := m.listenPort;
    if Setup(c, t, m, env).Done? && !IsMain(c, p) {
      var r := RouterAt(c, t, p);
      RouterAfterEmpty(r, m);
      var routers := Setup(c, t, m, env).t.portRouters;
      assert routers == t.portRouters[p := RouterAfter(r, m)];
      assert p in routers && (p in t.portRouters ==> !IsEmpty(t.portRouters[p]));
      assert forall q :: q in routers && q != p ==> q in t.portRouters;
    }
  }

  lemma SetupNoEmpty(c: Config, t: Tables, m: Mapping, env: Env)
    requires NoEmpty(t)
    ensures NoEmpty(Setup(c, t, m, env).t) <==> !OpensEmpty(c, t, m, env)
    ensures OpensEmpty(c, t, m, env) ==> Setup(c, t, m, env).Done?
  {
    if m.mode == TCP || m.mode == TLS {
      L4SetupNoEmpty(c, t, m, env);
    } else {
      assert Setup(c, t, m, env).t.portRouters == t.portRouters;
    }
  }

  /** Whether one update leaves an empty per-port router behind. */
  predicate LeavesEmpty(c: Config, t: Tables, m: Mapping, env: Env) {
    match m.update
    case Created => env.peerOk && OpensEmpty(c, t, m, env)
    case Modified => OpensEmpty(c, Cleanup(c, t, Previous(t, m)), m, env)
    case Removed => false
  }

  /** From a state without empty per-port routers, one update leads to a state with
      one exactly when it sets up a domain-less TLS mapping on a fresh custom port. */
  lemma EmptyRouterExactly(c: Config, t: Tables, m: Mapping, env: Env)
    requires NoEmpty(t)
    ensures NoEmpty(Process(c, t, m, env)) <==> !LeavesEmpty(c, t, m, env)
  {
    match m.update
    case Created =>
      SetupNoEmpty(c, t, m, env);
      if Setup(c, t, m, env).Failed? {
        CleanupNoEmpty(c, Setup(c, t, m, env).t, m);
      }
    case Modified =>
      var t1 := Cleanup(c, t, Previous(t, m));
      CleanupNoEmpty(c, t, Previous(t, m));
      SetupNoEmpty(c, t1, m, env);
      if Setup(c, t1, m, env).Failed? {
        CleanupNoEmpty(c, Setup(c, t1, m, env).t, m);
      }
    case Removed =>
      CleanupNoEmpty(c, t.(lastMappings := t.lastMappings - {m.id}), Previous(t, m));
  }

  /** When every TLS mapping carries a domain, no run reaches an empty per-port router. */
  lemma {:induction false} NoEmptyRouterInRuns(c: Config, t: Tables, run: seq<Update>)
    requires NoEmpty(t)
    requires forall u :: u in run && u.0.mode == TLS ==> u.0.domain != ""
    ensures NoEmpty(ProcessAll(c, t, run))
    decreases |run|
  {
    if run != [] {
      assert run[0] in run;
      EmptyRouterExactly(c, t, run[0].0, run[0].1);
      assert forall u :: u in run[1..] ==> u in run;
      NoEmptyRouterInRuns(c, Process(c, t, run[0].0, run[0].1), run[1..]);
    }
  }

  const ALL_OK := Env(true, true, true, true, true, true)

  function L4Mapping(update: UpdateType, id: ServiceId, domain: string, mode: Mode, port: int): Mapping {
    Mapping(update, id, "acct", domain, mode, port, [Target("10.0.0.1:80", true)], None)
  }

  /** A reachable state does hold an empty per-port router. */
  lemma DomainlessTlsLeavesEmptyRouter()
    ensures var c := Config(443, 51820);
            var run := [(L4Mapping(Created, "s", "", TLS, 8443), ALL_OK)];
            !NoEmpty(ProcessAll(c, Initial(false), run))
  {
    var c := Config(443, 51820);
    var u := (L4Mapping(Created, "s", "", TLS, 8443), ALL_OK);
    EmptyRouterExactly(c, Initial(false), u.0, u.1);
    assert ProcessAll(c, Initial(false), [u]) == ProcessAll(c, Process(c, Initial(false), u.0, u.1), [u][1..]);
  }

  // ---------------------------------------------------------------- ownership

  ghost predicate Owner(last: map<ServiceId, Mapping>, ports: map<ServiceId, seq<nat>>, p: nat, svc: ServiceId) {
    svc in last && svc in ports && ports[svc] == [p]
  }

  /** Everything on a per-port router belongs to a stored service recorded on that
      port: routes under its domain, the fallback to one without a domain. */
  ghost predicate PortOwned(last: map<ServiceId, Mapping>, ports: map<ServiceId, seq<nat>>, p: nat, r: Router) {
    && WellFormed(r)
    && (forall h, x :: h in r.routes && x in r.routes[h] ==>
          Owner(last, ports, p, x.service) && ToLower(last[x.service].domain) == h)
    && (r.fallback.Some? ==>
          Owner(last, ports, p, r.fallback.value.service) && last[r.fallback.value.service].domain == "")
  }

  /** The same for the main router, whose routes need no port record. */
  ghost predicate MainOwned(c: Config, last: map<ServiceId, Mapping>, ports: map<ServiceId, seq<nat>>, r: Router) {
    && WellFormed(r)
    && (forall h, x :: h in r.routes && x in r.routes[h] ==>
          x.service in last && ToLower(last[x.service].domain) == h)
    && (r.fallback.Some? ==>
          Owner(last, ports, c.mainPort, r.fallback.value.service) && last[r.fallback.value.service].domain == "")
  }

  ghost predicate SinglePorts(ports: map<ServiceId, seq<nat>>) {
    forall k :: k in ports ==> |ports[k]| == 1 && ports[k][0] != 0
  }

  ghost predicate Owned(c: Config, t: Tables) {
    && SinglePorts(t.svcPorts)
    && MainOwned(c, t.lastMappings, t.svcPorts, t.main)
    && PortsOwned(c, t.lastMappings, t.svcPorts, t.portRouters)
  }

  ghost predicate PortsOwned(c: Config, last: map<ServiceId, Mapping>, ports: map<ServiceId, seq<nat>>,
                             routers: map<nat, Router>) {
    forall p :: p in routers ==> !IsMain(c, p) && PortOwned(last, ports, p, routers[p])
  }

  /** No record and no route of the service is left. */
  ghost predicate Erased(t: Tables, id: ServiceId) {
    && id !in t.svcPorts
    && (forall h, x :: h in t.main.routes && x in t.main.routes[h] ==> x.service != id)
  }

  /** Ownership does not depend on how, or whether, an erased service is stored. */
  lemma ErasedRestore(c: Config, t: Tables, id: ServiceId, last: map<ServiceId, Mapping>)
    requires Owned(c, t) && Erased(t, id)
    requires last - {id} == t.lastMappings - {id}
    ensures Owned(c, t.(lastMappings := last))
  {
    assert forall k :: k != id && k in t.lastMappings ==> k in t.lastMappings - {id};
    assert forall k :: k != id && k in t.lastMappings ==> k in last && last[k] == t.lastMappings[k];
    forall p | p in t.portRouters
      ensures PortOwned(last, t.svcPorts, p, t.portRouters[p])
    {
    }
  }

  predicate SameRouting(t: Tables, t': Tables) {
    t'.svcPorts == t.svcPorts && t'.main == t.main && t'.portRouters == t.portRouters
  }

  lemma RestrictionsRouting(t: Tables, m: Mapping, env: Env)
    ensures var t' := ParseRestrictions(t, m, env); SameRouting(t, t') && t'.lastMappings == t.lastMappings
  {
  }

  /** Cleanup neither reads nor writes the stored mappings. */
  lemma {:induction false} CleanupPortsIgnoreStored(c: Config, t: Tables, host: string, svc: ServiceId,
                                                    ports: seq<nat>, last: map<ServiceId, Mapping>)
    ensures CleanupPorts(c, t.(lastMappings := last), host, svc, ports)
         == CleanupPorts(c, t, host, svc, ports).(lastMappings := last)
    decreases |ports|
  {
    if ports != [] {
      CleanupPortsIgnoreStored(c, CleanupPort(c, t, host, svc, ports[0]), host, svc, ports[1..], last);
    }
  }

  lemma CleanupIgnoresStored(c: Config, t: Tables, m: Mapping, last: map<ServiceId, Mapping>)
    ensures Cleanup(c, t.(lastMappings := last), m) == Cleanup(c, t, m).(lastMappings := last)
  {
    var t1 := if m.domain != "" then t.(main := RemoveRoute(t.main, m.domain, m.id)) else t;
    CleanupPortsIgnoreStored(c, t1.(svcPorts := t1.svcPorts - {m.id}), m.domain, m.id, Get(t1.svcPorts, m.id), last);
  }
}
