/** The plain form of ownership: whatever is routed belongs to a stored service, recorded on
    the port where the port matters, under whatever domain. Exactly which updates keep it. */
module ProxyTracked {
  import opened Common
  import opened R = Router
  import opened ProxyTables
  import opened ProxyLinked
  import opened ProxyRouters
  import opened ProxyOwned

  // ------------------------------------------------------------- what is tracked

  predicate Recorded(ports: Ports, svc: ServiceId, p: nat) { svc in ports && ports[svc] == [p] }

  ghost predicate HasRoutes(r: Router, svc: ServiceId) { exists h :: Routes(r, h, svc) }

  /** What the service has on the router that only makes sense with a port record. */
  ghost predicate NeedsRecord(r: Router, svc: ServiceId, isMain: bool) {
    Falls(r, svc) || (!isMain && HasRoutes(r, svc))
  }

  /** The service is stored if it has main routes, and stored and recorded on each port on
      which it has a fallback, or a route of a custom port. */
  ghost predicate TracksOne(c: Config, t: Tables, svc: ServiceId) {
    && (HasRoutes(t.main, svc) ==> svc in t.lastMappings)
    && (Falls(t.main, svc) ==> svc in t.lastMappings && Recorded(t.svcPorts, svc, c.mainPort))
    && (forall p :: p in t.portRouters && NeedsRecord(t.portRouters[p], svc, false) ==>
          svc in t.lastMappings && Recorded(t.svcPorts, svc, p))
  }

  /** One port per record, well-formed routers, and custom ports only among the per-port ones. */
  ghost predicate Kept(c: Config, t: Tables) {
    && SinglePorts(t.svcPorts) && WellFormed(t.main)
    && (forall p :: p in t.portRouters ==> !IsMain(c, p) && WellFormed(t.portRouters[p]))
  }

  ghost predicate Tracked(c: Config, t: Tables) { Kept(c, t) && forall svc :: TracksOne(c, t, svc) }

  /** Ownership is stronger: it also fixes the host a route is under. */
  lemma OwnedIsTracked(c: Config, t: Tables)
    requires Owned(c, t)
    ensures Tracked(c, t)
  {
    forall p | p in t.portRouters ensures PortOwned(t.lastMappings, t.svcPorts, p, t.portRouters[p]) {
    }
    forall svc ensures TracksOne(c, t, svc) {
      RoutesOfService(t.main, svc);
      forall p | p in t.portRouters && NeedsRecord(t.portRouters[p], svc, false)
        ensures svc in t.lastMappings && Recorded(t.svcPorts, svc, p)
      {
        RoutesOfService(t.portRouters[p], svc);
      }
    }
  }

  // ------------------------------------------------- router operations by service

  lemma RemoveRouteRoutes(r: Router, host: string, id: ServiceId, h: string, svc: ServiceId)
    ensures Routes(RemoveRoute(r, host, id), h, svc) <==> Routes(r, h, svc) && !(svc == id && h == ToLower(host))
  {
    WithoutMembers(Get(r.routes, ToLower(host)), id);
  }

  lemma AddRouteRoutes(r: Router, host: string, route: Route, h: string, svc: ServiceId)
    ensures Routes(AddRoute(r, host, route), h, svc) <==>
            Routes(r, h, svc) || (host != "" && svc == route.service && h == ToLower(host))
  {
    UpsertMembers(Get(r.routes, ToLower(host)), route);
    if Routes(r, h, svc) && svc != route.service {
      var x :| x in Get(r.routes, h) && x.service == svc;
      assert x in Get(AddRoute(r, host, route).routes, h);
    }
  }

  ghost predicate LessRouter(r: Router, r': Router, svc: ServiceId) {
    (HasRoutes(r', svc) ==> HasRoutes(r, svc)) && (Falls(r', svc) ==> Falls(r, svc))
  }

  lemma RemoveRouteLess(r: Router, host: string, id: ServiceId, svc: ServiceId)
    ensures LessRouter(r, RemoveRoute(r, host, id), svc)
  {
    forall h ensures Routes(RemoveRoute(r, host, id), h, svc) ==> Routes(r, h, svc) {
      RemoveRouteRoutes(r, host, id, h, svc);
    }
  }

  lemma DetachLessRouter(r: Router, host: string, id: ServiceId, svc: ServiceId)
    ensures LessRouter(r, Detach(r, host, id), svc)
  {
    RemoveRouteLess(r, host, id, svc);
    assert host == "" ==> forall h :: Routes(Detach(r, host, id), h, svc) ==> Routes(r, h, svc);
  }

  /** Adding a route changes nothing for the other services, and takes nothing from its own. */
  lemma AddRouteServices(r: Router, host: string, route: Route, svc: ServiceId)
    ensures svc != route.service ==> LessRouter(r, AddRoute(r, host, route), svc)
    ensures LessRouter(AddRoute(r, host, route), r, svc)
    ensures Falls(AddRoute(r, host, route), svc) <==> Falls(r, svc)
  {
    forall h
      ensures Routes(AddRoute(r, host, route), h, svc) <==>
              Routes(r, h, svc) || (host != "" && svc == route.service && h == ToLower(host))
    {
      AddRouteRoutes(r, host, route, h, svc);
    }
  }

  /** The same of a TCP or TLS setup, which only ever adds for its own service. */
  lemma RouterAfterServices(r: Router, m: Mapping, svc: ServiceId)
    requires m.mode == TCP || m.mode == TLS
    ensures svc != m.id ==> LessRouter(r, RouterAfter(r, m), svc)
    ensures LessRouter(RouterAfter(r, m), r, m.id)
    ensures m.mode == TLS ==> (Falls(RouterAfter(r, m), svc) <==> Falls(r, svc))
  {
    if m.mode == TLS {
      AddRouteServices(r, m.domain, L4Route(m), svc);
      AddRouteServices(r, m.domain, L4Route(m), m.id);
    } else {
      assert forall h :: Routes(RouterAfter(r, m), h, svc) <==> Routes(r, h, svc);
      assert forall h :: Routes(RouterAfter(r, m), h, m.id) <==> Routes(r, h, m.id);
    }
  }

  // ----------------------------------------------------------- the other services

  /** All the service has in the later tables it had in the earlier ones. */
  ghost predicate Less(t: Tables, t': Tables, svc: ServiceId) {
    && LessRouter(t.main, t'.main, svc)
    && (forall p :: p in t'.portRouters && NeedsRecord(t'.portRouters[p], svc, false) ==>
          p in t.portRouters && NeedsRecord(t.portRouters[p], svc, false))
  }

  lemma LessTracks(c: Config, t: Tables, t': Tables, svc: ServiceId)
    requires TracksOne(c, t, svc) && Less(t, t', svc)
    requires svc in t.lastMappings ==> svc in t'.lastMappings
    requires forall p :: Recorded(t.svcPorts, svc, p) ==> Recorded(t'.svcPorts, svc, p)
    ensures TracksOne(c, t', svc)
  {
  }

  lemma CleanupLess(c: Config, t: Tables, m: Mapping, svc: ServiceId)
    requires SinglePorts(t.svcPorts)
    ensures Less(t, Cleanup(c, t, m), svc)
  {
    var t', main := Cleanup(c, t, m), if m.domain != "" then RemoveRoute(t.main, m.domain, m.id) else t.main;
    CleanupRouters(c, t, m);
    RemoveRouteLess(t.main, m.domain, m.id, svc);
    DetachLessRouter(main, m.domain, m.id, svc);
    forall p | p in t'.portRouters ensures p in t.portRouters && LessRouter(t.portRouters[p], t'.portRouters[p], svc) {
      DetachLessRouter(t.portRouters[p], m.domain, m.id, svc);
    }
  }

  lemma EmptyHasNothing(svc: ServiceId)
    ensures !NeedsRecord(R.EMPTY, svc, false)
  {
    assert forall h :: !Routes(R.EMPTY, h, svc);
  }

  lemma SetupLess(c: Config, t: Tables, m: Mapping, env: Env, svc: ServiceId)
    requires svc != m.id
    ensures Less(t, Setup(c, t, m, env).t, svc)
  {
    SetupFailsExactly(c, t, m, env);
    if SetupFails(c, t, m, env) {
      FailedRouting(c, t, m, env);
      AddRouteServices(t.main, m.domain, HttpRouteOf(m), svc);
    } else {
      match m.mode
      case TCP => L4SetupLess(c, t, m, env, svc);
      case TLS => L4SetupLess(c, t, m, env, svc);
      case UDP => RestrictionsRouting(t.(udpRelays := t.udpRelays - {m.id}), m, env);
      case HTTP =>
        AddRouteServices(t.main, m.domain, HttpRouteOf(m), svc);
        RestrictionsRouting(t.(main := AddRoute(t.main, m.domain, HttpRouteOf(m))), m, env);
    }
  }

  lemma L4SetupLess(c: Config, t: Tables, m: Mapping, env: Env, svc: ServiceId)
    requires svc != m.id && (m.mode == TCP || m.mode == TLS) && !SetupFails(c, t, m, env)
    ensures Less(t, Setup(c, t, m, env).t, svc)
  {
    L4Routing(c, t, m, env);
    RouterAfterServices(RouterAt(c, t, m.listenPort), m, svc);
    EmptyHasNothing(svc);
  }

  // ------------------------------------------------------------ what is always kept

  lemma CleanupKept(c: Config, t: Tables, m: Mapping)
    requires Kept(c, t)
    ensures Kept(c, Cleanup(c, t, m))
  {
    var main := if m.domain != "" then RemoveRoute(t.main, m.domain, m.id) else t.main;
    CleanupRecords(c, t, m);
    CleanupRouters(c, t, m);
    RemoveRouteWellFormed(t.main, m.domain, m.id);
    RemoveRouteWellFormed(main, m.domain, m.id);
    forall p | p in t.portRouters ensures WellFormed(Detach(t.portRouters[p], m.domain, m.id)) {
      RemoveRouteWellFormed(t.portRouters[p], m.domain, m.id);
    }
  }

  lemma L4SetupKept(c: Config, t: Tables, m: Mapping, env: Env)
    requires Kept(c, t) && (m.mode == TCP || m.mode == TLS) && !SetupFails(c, t, m, env)
    ensures Kept(c, Setup(c, t, m, env).t)
  {
    L4Routing(c, t, m, env);
    AddRouteWellFormed(RouterAt(c, t, m.listenPort), m.domain, L4Route(m));
  }

  lemma SetupKept(c: Config, t: Tables, m: Mapping, env: Env)
    requires Kept(c, t)
    ensures Kept(c, Setup(c, t, m, env).t)
  {
    SetupFailsExactly(c, t, m, env);
    AddRouteWellFormed(t.main, m.domain, HttpRouteOf(m));
    if SetupFails(c, t, m, env) {
      FailedRouting(c, t, m, env);
    } else {
      match m.mode
      case TCP => L4SetupKept(c, t, m, env);
      case TLS => L4SetupKept(c, t, m, env);
      case UDP => RestrictionsRouting(t.(udpRelays := t.udpRelays - {m.id}), m, env);
      case HTTP => RestrictionsRouting(t.(main := AddRoute(t.main, m.domain, HttpRouteOf(m))), m, env);
    }
  }

  // ------------------------------------------------------------ the service itself

  /** The service has nothing left that needs a port record. */
  ghost predicate NothingLeft(t: Tables, id: ServiceId) {
    && !Falls(t.main, id)
    && (forall p :: p in t.portRouters ==> !NeedsRecord(t.portRouters[p], id, false))
  }

  lemma CleanupPortLeft(c: Config, t: Tables, m: Mapping, p: nat)
    requires Kept(c, t) && TracksOne(c, t, m.id) && p in t.portRouters
    ensures var t', r := Cleanup(c, t, m), t.portRouters[p];
            p in t'.portRouters && NeedsRecord(t'.portRouters[p], m.id, false) <==>
            !(HostsFit(r, m) && FallbackFits(r, m))
  {
    CleanupRouters(c, t, m);
    var r := t.portRouters[p];
    if Recorded(t.svcPorts, m.id, p) {
      DetachTakesAll(r, m);
      var d := Detach(r, m.domain, m.id);
      assert HoldsNothing(d, m.id) <==> !NeedsRecord(d, m.id, false);
      if IsEmpty(d) {
        assert forall h :: !Routes(d, h, m.id);
      }
    } else {
      assert !NeedsRecord(r, m.id, false);
      assert m.id in t.svcPorts ==> t.svcPorts[m.id] == [t.svcPorts[m.id][0]];
    }
  }

  lemma CleanupMainLeft(c: Config, t: Tables, m: Mapping)
    requires Kept(c, t) && TracksOne(c, t, m.id)
    ensures Falls(Cleanup(c, t, m).main, m.id) <==> !FallbackFits(t.main, m)
  {
    CleanupRouters(c, t, m);
  }

  /** A teardown leaves nothing of the service that needs a record if and only if what it
      had is what a teardown under that domain takes away. */
  lemma CleanupLeavesExactly(c: Config, t: Tables, m: Mapping)
    requires Kept(c, t) && TracksOne(c, t, m.id)
    ensures NothingLeft(Cleanup(c, t, m), m.id) <==> CleanedAway(t, m)
  {
    var t' := Cleanup(c, t, m);
    CleanupRouters(c, t, m);
    CleanupMainLeft(c, t, m);
    forall p | p in t.portRouters
      ensures (p in t'.portRouters && NeedsRecord(t'.portRouters[p], m.id, false)) <==>
              !(HostsFit(t.portRouters[p], m) && FallbackFits(t.portRouters[p], m))
    {
      CleanupPortLeft(c, t, m, p);
    }
    assert t'.portRouters.Keys <= t.portRouters.Keys;
  }

  /** Whatever needs a record would still have it where the mapping is about to put it. */
  ghost predicate StaysPut(c: Config, t: Tables, m: Mapping) {
    && (Falls(t.main, m.id) ==> StaysOn(c, m, c.mainPort))
    && (forall p :: p in t.portRouters && NeedsRecord(t.portRouters[p], m.id, false) ==> StaysOn(c, m, p))
  }

  /** All the service needs a record for is on the port the mapping records. */
  ghost predicate RecordedAfter(c: Config, t: Tables, m: Mapping) {
    var ports := NewPorts(c, t.svcPorts, m);
    && (Falls(t.main, m.id) ==> Recorded(ports, m.id, c.mainPort))
    && (forall p :: p in t.portRouters && NeedsRecord(t.portRouters[p], m.id, false) ==> Recorded(ports, m.id, p))
  }

  lemma L4StoredTracks(c: Config, t: Tables, m: Mapping, env: Env)
    requires (m.mode == TCP || m.mode == TLS) && !SetupFails(c, t, m, env)
    ensures TracksOne(c, Store(Setup(c, t, m, env).t, m), m.id) <==> RecordedAfter(c, t, m)
  {
    L4Routing(c, t, m, env);
    var r, t' := RouterAt(c, t, m.listenPort), Setup(c, t, m, env).t;
    RouterAfterServices(r, m, m.id);
    if IsMain(c, m.listenPort) {
      assert t'.portRouters == t.portRouters;
    } else {
      assert t'.portRouters[m.listenPort] == RouterAfter(r, m);
      assert forall p :: p in t.portRouters && p != m.listenPort ==> t'.portRouters[p] == t.portRouters[p];
    }
  }

  /** After a successful setup the stored service is tracked exactly when its new record
      covers all it has. */
  lemma StoredTracksExactly(c: Config, t: Tables, m: Mapping, env: Env)
    requires !SetupFails(c, t, m, env)
    ensures TracksOne(c, Store(Setup(c, t, m, env).t, m), m.id) <==> RecordedAfter(c, t, m)
  {
    match m.mode
    case TCP => L4StoredTracks(c, t, m, env);
    case TLS => L4StoredTracks(c, t, m, env);
    case UDP => RestrictionsRouting(t.(udpRelays := t.udpRelays - {m.id}), m, env);
    case HTTP =>
      AddRouteServices(t.main, m.domain, HttpRouteOf(m), m.id);
      RestrictionsRouting(t.(main := AddRoute(t.main, m.domain, HttpRouteOf(m))), m, env);
  }

  lemma StaysPutIsRecorded(c: Config, t: Tables, m: Mapping)
    requires TracksOne(c, t, m.id) && (RecordsPort(c, m) ==> m.listenPort >= 0)
    ensures RecordedAfter(c, t, m) <==> StaysPut(c, t, m)
  {
  }

  /** Without a record the service is tracked exactly when it has nothing that needs one. */
  lemma UnrecordedTracks(c: Config, t: Tables, id: ServiceId)
    requires id !in t.svcPorts
    ensures TracksOne(c, t, id) <==> NothingLeft(t, id) && (HasRoutes(t.main, id) ==> id in t.lastMappings)
  {
  }

  /** Rolling a failed setup back leaves the service what the teardown alone would leave it. */
  lemma RolledBackTracks(c: Config, t: Tables, m: Mapping, env: Env)
    requires Kept(c, t) && SetupFails(c, t, m, env) && (HasRoutes(t.main, m.id) ==> m.id in t.lastMappings)
    ensures TracksOne(c, Cleanup(c, Setup(c, t, m, env).t, m), m.id) <==> NothingLeft(Cleanup(c, t, m), m.id)
  {
    var t1 := Setup(c, t, m, env).t;
    FailedRouting(c, t, m, env);
    CleanupRouting(c, t, t1, m);
    CleanupRecords(c, t, m);
    CleanupRecords(c, t1, m);
    CleanupLess(c, t, m, m.id);
    UnrecordedTracks(c, Cleanup(c, t1, m), m.id);
  }

  lemma CreatedTracks(c: Config, t: Tables, m: Mapping, env: Env)
    requires Kept(c, t) && TracksOne(c, t, m.id) && env.peerOk
    ensures TracksOne(c, Add(c, t, m, env), m.id) <==>
            if SetupFails(c, t, m, env) then CleanedAway(t, m) else StaysPut(c, t, m)
  {
    SetupFailsExactly(c, t, m, env);
    if SetupFails(c, t, m, env) {
      RolledBackTracks(c, t, m, env);
      CleanupLeavesExactly(c, t, m);
    } else {
      StoredTracksExactly(c, t, m, env);
      StaysPutIsRecorded(c, t, m);
    }
  }

  /** The mapping puts its record where the service's record was. */
  predicate PutsBack(c: Config, t: Tables, m: Mapping) {
    RecordsPort(c, m) && m.listenPort >= 0 && Recorded(t.svcPorts, m.id, m.listenPort)
  }

  lemma PutBackCovers(c: Config, t: Tables, prev: Mapping, m: Mapping)
    requires Kept(c, t) && TracksOne(c, t, m.id) && prev.id == m.id
    ensures RecordedAfter(c, Cleanup(c, t, prev), m) <==> CleanedAway(t, prev) || PutsBack(c, t, m)
  {
    CleanupLess(c, t, prev, m.id);
    CleanupRecords(c, t, prev);
    CleanupLeavesExactly(c, t, prev);
  }

  lemma ModifiedTracks(c: Config, t: Tables, m: Mapping, env: Env)
    requires Kept(c, t) && TracksOne(c, t, m.id) && Previous(t, m).id == m.id
    ensures var prev := Previous(t, m);
            TracksOne(c, Modify(c, t, m, env), m.id) <==>
            CleanedAway(t, prev) || (!SetupFails(c, Cleanup(c, t, prev), m, env) && PutsBack(c, t, m))
  {
    var prev, t1 := Previous(t, m), Cleanup(c, t, Previous(t, m));
    CleanupKept(c, t, prev);
    CleanupRecords(c, t, prev);
    CleanupLess(c, t, prev, m.id);
    SetupFailsExactly(c, t1, m, env);
    if SetupFails(c, t1, m, env) {
      RolledBackTracks(c, t1, m, env);
      CleanupRouters(c, t1, m);
      CleanupLeavesExactly(c, t, prev);
    } else {
      StoredTracksExactly(c, t1, m, env);
      PutBackCovers(c, t, prev, m);
    }
  }

  lemma MainRoutesLeft(c: Config, t: Tables, m: Mapping)
    requires Kept(c, t)
    ensures HasRoutes(Cleanup(c, t, m).main, m.id) <==> !HostsFit(t.main, m)
  {
    CleanupRouters(c, t, m);
    var main := if m.domain != "" then RemoveRoute(t.main, m.domain, m.id) else t.main;
    forall h
      ensures Routes(main, h, m.id) <==> Routes(t.main, h, m.id) && h != ToLower(m.domain)
      ensures Routes(Detach(main, m.domain, m.id), h, m.id) <==> Routes(main, h, m.id)
    {
      RemoveRouteRoutes(t.main, m.domain, m.id, h, m.id);
      RemoveRouteRoutes(main, m.domain, m.id, h, m.id);
      assert !Routes(t.main, "", m.id);
    }
  }

  lemma RemovedTracks(c: Config, t: Tables, m: Mapping)
    requires Kept(c, t) && TracksOne(c, t, m.id) && Previous(t, m).id == m.id
    ensures var prev := Previous(t, m);
            TracksOne(c, Remove(c, t, m), m.id) <==> CleanedAway(t, prev) && HostsFit(t.main, prev)
  {
    var prev := Previous(t, m);
    CleanupIgnoresStored(c, t, prev, t.lastMappings - {m.id});
    CleanupRecords(c, t, prev);
    CleanupLeavesExactly(c, t, prev);
    MainRoutesLeft(c, t, prev);
    UnrecordedTracks(c, Remove(c, t, m), m.id);
  }

  // --------------------------------------------------------------------- updates

  lemma OthersTracked(c: Config, t: Tables, m: Mapping, env: Env, svc: ServiceId)
    requires Kept(c, t) && TracksOne(c, t, svc) && svc != m.id && Previous(t, m).id == m.id
    ensures TracksOne(c, Process(c, t, m, env), svc)
  {
    match m.update
    case Created => SetUpOthers(c, t, m, env, svc);
    case Modified =>
      var t1 := Cleanup(c, t, Previous(t, m));
      CleanupKept(c, t, Previous(t, m));
      CleanupLess(c, t, Previous(t, m), svc);
      CleanupRecords(c, t, Previous(t, m));
      LessTracks(c, t, t1, svc);
      SetUpOthers(c, t1, m, env, svc);
    case Removed =>
      var t1 := t.(lastMappings := t.lastMappings - {m.id});
      CleanupLess(c, t1, Previous(t, m), svc);
      CleanupRecords(c, t1, Previous(t, m));
      LessTracks(c, t1, Remove(c, t, m), svc);
  }

  /** A setup, stored or rolled back. */
  lemma SetUpOthers(c: Config, t: Tables, m: Mapping, env: Env, svc: ServiceId)
    requires Kept(c, t) && TracksOne(c, t, svc) && svc != m.id
    ensures TracksOne(c, Store(Setup(c, t, m, env).t, m), svc)
    ensures TracksOne(c, Cleanup(c, Setup(c, t, m, env).t, m), svc)
  {
    var t1 := Setup(c, t, m, env).t;
    SetupLess(c, t, m, env, svc);
    SetupKept(c, t, m, env);
    SetupRecords(c, t, m, env);
    LessTracks(c, t, t1, svc);
    CleanupLess(c, t1, m, svc);
    CleanupRecords(c, t1, m);
    LessTracks(c, t1, Cleanup(c, t1, m), svc);
  }

  lemma SetupRecords(c: Config, t: Tables, m: Mapping, env: Env)
    ensures var t' := Setup(c, t, m, env).t;
            && t'.lastMappings == t.lastMappings
            && (t'.svcPorts == t.svcPorts || t'.svcPorts == NewPorts(c, t.svcPorts, m))
  {
    SetupFailsExactly(c, t, m, env);
    if SetupFails(c, t, m, env) {
      FailedRouting(c, t, m, env);
    } else if m.mode == TCP || m.mode == TLS {
      L4Routing(c, t, m, env);
    }
  }

  lemma ProcessKept(c: Config, t: Tables, m: Mapping, env: Env)
    requires Kept(c, t)
    ensures Kept(c, Process(c, t, m, env))
  {
    match m.update
    case Created =>
      SetupKept(c, t, m, env);
      CleanupKept(c, Setup(c, t, m, env).t, m);
    case Modified =>
      var t1 := Cleanup(c, t, Previous(t, m));
      CleanupKept(c, t, Previous(t, m));
      SetupKept(c, t1, m, env);
      CleanupKept(c, Setup(c, t1, m, env).t, m);
    case Removed => CleanupKept(c, t.(lastMappings := t.lastMappings - {m.id}), Previous(t, m));
  }

  /** When one update leaves everything tracked, read off the tables before it. */
  ghost predicate KeepsTracked(c: Config, t: Tables, m: Mapping, env: Env) {
    var prev := Previous(t, m);
    match m.update
    case Created =>
      !env.peerOk || if SetupFails(c, t, m, env) then CleanedAway(t, m) else StaysPut(c, t, m)
    case Modified =>
      CleanedAway(t, prev) || (!SetupFails(c, Cleanup(c, t, prev), m, env) && PutsBack(c, t, m))
    case Removed => CleanedAway(t, prev) && HostsFit(t.main, prev)
  }

  /** The exact condition for the plain property, from any tables that have it. A CREATED
      update keeps it if and only if no peer was added, or the setup failed and its teardown
      takes all the service had on its port, or it succeeded and the record of whatever needs
      one stays where it is. A MODIFIED or REMOVED one keeps it if and only if the teardown
      of the stored mapping takes all there is to take, or, for MODIFIED, the new record is
      put back on the old port. */
  lemma TrackedExactly(c: Config, t: Tables, m: Mapping, env: Env)
    requires Linked(t) && Tracked(c, t)
    ensures Tracked(c, Process(c, t, m, env)) <==> KeepsTracked(c, t, m, env)
  {
    ProcessKept(c, t, m, env);
    forall svc | svc != m.id ensures TracksOne(c, Process(c, t, m, env), svc) {
      OthersTracked(c, t, m, env, svc);
    }
    match m.update
    case Created => if env.peerOk { CreatedTracks(c, t, m, env); }
    case Modified => ModifiedTracks(c, t, m, env);
    case Removed => RemovedTracks(c, t, m);
  }

  /** Where routes are also under the stored domains, only a CREATED update can lose track. */
  lemma OwnedKeepsTracked(c: Config, t: Tables, m: Mapping, env: Env)
    requires Linked(t) && Owned(c, t) && m.update != Created
    ensures Tracked(c, Process(c, t, m, env))
  {
    var prev := Previous(t, m);
    OwnedIsTracked(c, t);
    StoredCleans(c, t, prev);
    RoutesOfService(t.main, prev.id);
    TrackedExactly(c, t, m, env);
  }

  ghost predicate KeepsTrackedAll(c: Config, t: Tables, run: seq<Update>)
    decreases |run|
  {
    run == [] ||
    (KeepsTracked(c, t, run[0].0, run[0].1) && KeepsTrackedAll(c, Process(c, t, run[0].0, run[0].1), run[1..]))
  }

  /** All along a run every route and fallback belongs to a stored service, recorded on its
      port where the port matters, if and only if every update meets the condition when its
      turn comes. */
  lemma {:induction false} TrackedRunsExactly(c: Config, t: Tables, run: seq<Update>)
    requires Linked(t) && Tracked(c, t)
    ensures KeepsTrackedAll(c, t, run) <==> forall k :: 0 <= k <= |run| ==> Tracked(c, ProcessAll(c, t, run[..k]))
    decreases |run|
  {
    assert run[..0] == [];
    if run != [] {
      var t1 := Process(c, t, run[0].0, run[0].1);
      TrackedExactly(c, t, run[0].0, run[0].1);
      ProcessLinked(c, t, run[0].0, run[0].1);
      ProcessPrefixes(c, t, run);
      if Tracked(c, t1) {
        TrackedRunsExactly(c, t1, run[1..]);
        assert forall k :: 1 <= k <= |run| ==> ProcessAll(c, t, run[..k]) == ProcessAll(c, t1, run[1..][..k - 1]);
      }
    }
  }
}
