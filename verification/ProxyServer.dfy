/** The proxy server's mapping updates in place (proxy/server.go), each method
    tied to the transition of ProxyTables it performs. */
module ProxyServer {
  import opened Common
  import R = Router
  import T = ProxyTables

  type ServiceId = R.ServiceId

  /** The router taken for a port is the only one a later store replaces. */
  lemma PutTwice(c: T.Config, t: T.Tables, m: T.Mapping, env: T.Env, p: nat, r0: R.Router, r: R.Router)
    ensures T.PutRouter(c, T.ParseRestrictions(T.PutRouter(c, t, p, r0), m, env), p, r)
         == T.PutRouter(c, T.ParseRestrictions(t, m, env), p, r)
  {
    assert t.portRouters[p := r0][p := r] == t.portRouters[p := r];
  }

  class Server {
    const c: T.Config
    var lastMappings: map<ServiceId, T.Mapping>
    var svcPorts: map<ServiceId, seq<nat>>
    var portRouters: map<nat, R.Router>
    var mainRouter: R.Router
    var udpRelays: map<ServiceId, nat>
    var crowdsecServices: set<ServiceId>
    var registry: T.Registry

    function State(): T.Tables
      reads this
    {
      T.Tables(lastMappings, svcPorts, portRouters, mainRouter, udpRelays, crowdsecServices, registry)
    }

    constructor (c: T.Config, crowdsecConfigured: bool)
      ensures this.c == c && State() == T.Initial(crowdsecConfigured)
    {
      this.c := c;
      lastMappings, svcPorts, portRouters, mainRouter := map[], map[], map[], R.EMPTY;
      udpRelays, crowdsecServices, registry := map[], {}, T.Registry(crowdsecConfigured, false, {});
    }

    // ---------------------------------------------------------------- routers

    method RouterForPort(port: nat, env: T.Env) returns (router: Option<R.Router>)
      modifies this`portRouters
      ensures router.Some? <==> T.RouterReady(c, old(State()), port, env)
      ensures router.Some? ==> router.value == T.RouterAt(c, old(State()), port)
      ensures State() == if router.Some? then T.PutRouter(c, old(State()), port, router.value) else old(State())
    {
      if port == 0 || port == c.mainPort { return Some(mainRouter); }
      if port in portRouters {
        assert portRouters == portRouters[port := portRouters[port]];
        return Some(portRouters[port]);
      }
      if !env.listenOk { return None; }
      portRouters := portRouters[port := R.EMPTY];
      router := Some(R.EMPTY);
    }

    method SetRouter(port: nat, router: R.Router)
      modifies this`portRouters, this`mainRouter
      ensures State() == T.PutRouter(c, old(State()), port, router)
    {
      if port == 0 || port == c.mainPort {
        mainRouter := router;
      } else {
        portRouters := portRouters[port := router];
      }
    }

    method CleanupPortIfEmpty(port: nat)
      modifies this`portRouters
      ensures State() == T.CleanupPortIfEmpty(c, old(State()), port)
    {
      if port == 0 || port == c.mainPort { return; }
      if port !in portRouters || !R.IsEmpty(portRouters[port]) { return; }
      portRouters := portRouters - {port};
    }

    // --------------------------------------------------------------- CrowdSec

    method ParseRestrictions(m: T.Mapping, env: T.Env)
      modifies this`registry, this`crowdsecServices
      ensures State() == T.ParseRestrictions(old(State()), m, env)
    {
      if m.restrictions.None? { return; }
      if m.restrictions.value == T.CrowdSecEnforce || m.restrictions.value == T.CrowdSecObserve {
        var (reg, ok) := T.Acquire(registry, m.id, env.bouncerStarts);
        registry := reg;
        if ok {
          crowdsecServices := crowdsecServices + {m.id};
        }
      }
    }

    method ReleaseCrowdSec(svc: ServiceId)
      modifies this`registry, this`crowdsecServices
      ensures State() == T.ReleaseCrowdSec(old(State()), svc)
    {
      var had := svc in crowdsecServices;
      crowdsecServices := crowdsecServices - {svc};
      if had {
        registry := T.Release(registry, svc);
      }
    }

    // ------------------------------------------------------------------ setup

    method SetupHTTP(m: T.Mapping, env: T.Env) returns (ok: bool)
      modifies this`mainRouter, this`registry, this`crowdsecServices
      ensures T.SetupHTTP(old(State()), m, env) == if ok then T.Done(State()) else T.Failed(State())
    {
      if m.paths == [] { return true; }
      mainRouter := R.AddRoute(mainRouter, m.domain, T.HttpRouteOf(m));
      ParseRestrictions(m, env);
      if !env.authOk { return false; }
      if !env.chainsOk { return false; }
      ok := true;
    }

    method SetupTCP(m: T.Mapping, env: T.Env) returns (ok: bool)
      modifies this
      ensures T.SetupTCP(c, old(State()), m, env) == if ok then T.Done(State()) else T.Failed(State())
    {
      if !T.ValidPort(m.listenPort) { return false; }
      if T.L4Target(m) == "" { return false; }
      if c.wireguardPort != 0 && m.listenPort == c.wireguardPort { return false; }
      var router := RouterForPort(m.listenPort, env);
      if router.None? { return false; }
      ParseRestrictions(m, env);
      var updated := R.SetFallback(router.value, T.L4Route(m));
      PutTwice(c, old(State()), m, env, m.listenPort, router.value, updated);
      SetRouter(m.listenPort, updated);
      svcPorts := svcPorts[m.id := [m.listenPort]];
      ok := true;
    }

    method SetupTLS(m: T.Mapping, env: T.Env) returns (ok: bool)
      modifies this
      ensures T.SetupTLS(c, old(State()), m, env) == if ok then T.Done(State()) else T.Failed(State())
    {
      if !T.ValidPort(m.listenPort) { return false; }
      if T.L4Target(m) == "" { return false; }
      if c.wireguardPort != 0 && m.listenPort == c.wireguardPort { return false; }
      var router := RouterForPort(m.listenPort, env);
      if router.None? { return false; }
      ParseRestrictions(m, env);
      var updated := R.AddRoute(router.value, m.domain, T.L4Route(m));
      PutTwice(c, old(State()), m, env, m.listenPort, router.value, updated);
      SetRouter(m.listenPort, updated);
      if m.listenPort != c.mainPort {
        svcPorts := svcPorts[m.id := [m.listenPort]];
      }
      ok := true;
    }

    method SetupUDP(m: T.Mapping, env: T.Env) returns (ok: bool)
      modifies this`udpRelays, this`registry, this`crowdsecServices
      ensures T.SetupUDP(c, old(State()), m, env) == if ok then T.Done(State()) else T.Failed(State())
    {
      if !T.ValidPort(m.listenPort) { return false; }
      if T.L4Target(m) == "" { return false; }
      if c.wireguardPort != 0 && m.listenPort == c.wireguardPort { return false; }
      RemoveUDPRelay(m.id);
      if !env.listenOk { return false; }
      if !env.dialerOk { return false; }
      ParseRestrictions(m, env);
      udpRelays := udpRelays[m.id := m.listenPort];
      ok := true;
    }

    method SetupMappingRoutes(m: T.Mapping, env: T.Env) returns (ok: bool)
      modifies this
      ensures T.Setup(c, old(State()), m, env) == if ok then T.Done(State()) else T.Failed(State())
    {
      match m.mode
      case TCP => ok := SetupTCP(m, env);
      case UDP => ok := SetupUDP(m, env);
      case TLS => ok := SetupTLS(m, env);
      case HTTP => ok := SetupHTTP(m, env);
    }

    // ---------------------------------------------------------------- cleanup

    method RemoveUDPRelay(svc: ServiceId)
      modifies this`udpRelays
      ensures State() == old(State()).(udpRelays := old(udpRelays) - {svc})
    {
      if svc in udpRelays {
        udpRelays := udpRelays - {svc};
      } else {
        assert udpRelays - {svc} == udpRelays;
      }
    }

    method CleanupMappingRoutes(m: T.Mapping)
      modifies this
      ensures State() == T.Cleanup(c, old(State()), m)
    {
      if m.domain != "" {
        mainRouter := R.RemoveRoute(mainRouter, m.domain, m.id);
      }
      var entries := Get(svcPorts, m.id);
      svcPorts := svcPorts - {m.id};
      ghost var t := State();
      var i := 0;
      while i < |entries|
        invariant 0 <= i <= |entries|
        invariant T.CleanupPorts(c, State(), m.domain, m.id, entries[i..])
               == T.CleanupPorts(c, t, m.domain, m.id, entries)
      {
        var port := entries[i];
        ghost var before := State();
        if port == 0 || port == c.mainPort {
          mainRouter := T.Detach(mainRouter, m.domain, m.id);
        } else if port in portRouters {
          portRouters := portRouters[port := T.Detach(portRouters[port], m.domain, m.id)];
        }
        CleanupPortIfEmpty(port);
        assert State() == T.CleanupPort(c, before, m.domain, m.id, port);
        assert entries[i..][1..] == entries[i + 1..];
        i := i + 1;
      }
      RemoveUDPRelay(m.id);
      ReleaseCrowdSec(m.id);
    }

    // ---------------------------------------------------------------- updates

    method AddMapping(m: T.Mapping, env: T.Env) returns (ok: bool)
      modifies this
      ensures State() == T.Add(c, old(State()), m, env)
      ensures ok <==> env.peerOk && T.Setup(c, old(State()), m, env).Done?
    {
      if !env.peerOk { return false; }
      ok := SetupMappingRoutes(m, env);
      if !ok {
        CleanupMappingRoutes(m);
        return false;
      }
      lastMappings := lastMappings[m.id := m];
    }

    method ModifyMapping(m: T.Mapping, env: T.Env) returns (ok: bool)
      modifies this
      ensures State() == T.Modify(c, old(State()), m, env)
      ensures ok <==> T.Setup(c, T.Cleanup(c, old(State()), T.Previous(old(State()), m)), m, env).Done?
    {
      if m.id in lastMappings {
        CleanupMappingRoutes(lastMappings[m.id]);
      } else {
        CleanupMappingRoutes(m);
      }
      ok := SetupMappingRoutes(m, env);
      if !ok {
        CleanupMappingRoutes(m);
        return false;
      }
      lastMappings := lastMappings[m.id := m];
    }

    method RemoveMapping(m: T.Mapping)
      modifies this
      ensures State() == T.Remove(c, old(State()), m)
    {
      if m.id in lastMappings {
        var stored := lastMappings[m.id];
        lastMappings := lastMappings - {m.id};
        CleanupMappingRoutes(stored);
      } else {
        assert lastMappings - {m.id} == lastMappings;
        CleanupMappingRoutes(m);
      }
    }

    method ProcessMappings(updates: seq<T.Update>)
      modifies this
      ensures State() == T.ProcessAll(c, old(State()), updates)
    {
      var i := 0;
      while i < |updates|
        invariant 0 <= i <= |updates|
        invariant T.ProcessAll(c, State(), updates[i..]) == T.ProcessAll(c, old(State()), updates)
      {
        var (m, env) := updates[i];
        assert updates[i..][1..] == updates[i + 1..];
        match m.update {
          case Created => var _ := AddMapping(m, env);
          case Modified => var _ := ModifyMapping(m, env);
          case Removed => RemoveMapping(m);
        }
        i := i + 1;
      }
    }

    /** Removes the stored mappings the snapshot did not name, walking them in any order. */
    method ReconcileSnapshot(seen: set<ServiceId>) returns (ghost order: seq<ServiceId>)
      modifies this
      ensures T.Lists(order, old(lastMappings).Keys)
      ensures State() == T.Reconcile(c, old(State()), order, seen)
    {
      var stale: seq<T.Mapping> := [];
      order := [];
      var rest := lastMappings.Keys;
      while rest != {}
        invariant State() == old(State())
        invariant rest <= lastMappings.Keys
        invariant T.Lists(order, lastMappings.Keys - rest)
        invariant stale == T.Stale(lastMappings, order, seen)
        decreases rest
      {
        var svc :| svc in rest;
        StaleSnoc(lastMappings, order, svc, seen);
        if svc !in seen {
          stale := stale + [lastMappings[svc]];
        }
        order := order + [svc];
        rest := rest - {svc};
      }
      assert lastMappings.Keys - rest == lastMappings.Keys;
      assert stale[0..] == stale;
      var i := 0;
      while i < |stale|
        invariant 0 <= i <= |stale|
        invariant T.RemoveAll(c, State(), stale[i..]) == T.RemoveAll(c, old(State()), stale)
      {
        assert stale[i..][1..] == stale[i + 1..];
        RemoveMapping(stale[i]);
        i := i + 1;
      }
    }
  }

  lemma {:induction false} StaleSnoc(last: map<ServiceId, T.Mapping>, order: seq<ServiceId>, svc: ServiceId,
                                     seen: set<ServiceId>)
    requires forall k :: k in order ==> k in last
    requires svc in last
    ensures T.Stale(last, order + [svc], seen) ==
            T.Stale(last, order, seen) + if svc in seen then [] else [last[svc]]
  {
    if order == [] {
      assert order + [svc] == [svc];
      assert T.Stale(last, [svc], seen) == (if svc in seen then [] else [last[svc]]) + T.Stale(last, [], seen);
    } else {
      assert (order + [svc])[1..] == order[1..] + [svc];
      StaleSnoc(last, order[1..], svc, seen);
    }
  }

  /** Collects the ids of one connection's snapshot and reconciles when it completes. */
  class SnapshotTracker {
    var done: bool
    var snapshotIDs: set<ServiceId>

    constructor ()
      ensures !done && snapshotIDs == {}
    {
      done, snapshotIDs := false, {};
    }

    /** Processes one received batch and records it. */
    method Receive(s: Server, updates: seq<T.Update>, syncComplete: bool) returns (ghost order: seq<ServiceId>)
      modifies this, s
      ensures var before := T.Stream(old(s.State()), old(done), old(snapshotIDs));
              var b := T.Batch(updates, syncComplete, order);
              T.Receivable(s.c, before, b) && T.Stream(s.State(), done, snapshotIDs) == T.Receive(s.c, before, b)
    {
      order := [];
      s.ProcessMappings(updates);
      if done { return; }
      var i := 0;
      while i < |updates|
        invariant 0 <= i <= |updates|
        invariant !done && snapshotIDs == old(snapshotIDs) + T.Ids(updates[..i])
        invariant s.State() == T.ProcessAll(s.c, old(s.State()), updates)
      {
        assert updates[..i + 1] == updates[..i] + [updates[i]];
        assert T.Ids(updates[..i + 1]) == T.Ids(updates[..i]) + {updates[i].0.id};
        snapshotIDs := snapshotIDs + {updates[i].0.id};
        i := i + 1;
      }
      assert updates[..|updates|] == updates;
      if !syncComplete { return; }
      order := s.ReconcileSnapshot(snapshotIDs);
      snapshotIDs := {};
      done := true;
    }
  }
}
