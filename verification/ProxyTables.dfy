/** The reverse proxy's linked tables (proxy/server.go) and the transition each
    mapping update makes on them. Outcomes of the outside world are the fields
    of `Env`, one record per processed mapping. */
module ProxyTables {
  import opened Common
  import opened R = Router

  datatype Mode = HTTP | TCP | UDP | TLS

  datatype CrowdSecMode = CrowdSecOff | CrowdSecEnforce | CrowdSecObserve

  datatype UpdateType = Created | Modified | Removed

  /** `isHostPort` is the verdict of net.SplitHostPort on the address. */
  datatype Target = Target(address: string, isHostPort: bool)

  datatype Mapping = Mapping(
    update: UpdateType, id: ServiceId, account: string, domain: string, mode: Mode,
    listenPort: int, paths: seq<Target>, restrictions: Option<CrowdSecMode>)

  /** What the outside world answers while one mapping is processed. */
  datatype Env = Env(
    peerOk: bool,          // AddPeer succeeds
    listenOk: bool,        // net.Listen / net.ListenPacket succeeds
    dialerOk: bool,        // resolveDialFunc succeeds
    bouncerStarts: bool,   // Bouncer.Start succeeds
    authOk: bool,          // auth.AddDomain succeeds
    chainsOk: bool)        // Manager.Rebuild succeeds

  datatype Config = Config(mainPort: nat, wireguardPort: nat)

  /** The shared CrowdSec bouncer with its consumers (crowdsec/registry.go). */
  datatype Registry = Registry(available: bool, running: bool, refs: set<ServiceId>)

  datatype Tables = Tables(
    lastMappings: map<ServiceId, Mapping>,
    svcPorts: map<ServiceId, seq<nat>>,
    portRouters: map<nat, Router>,
    main: Router,
    udpRelays: map<ServiceId, nat>,
    crowdsec: set<ServiceId>,
    registry: Registry)

  function Initial(crowdsecConfigured: bool): Tables {
    Tables(map[], map[], map[], R.EMPTY, map[], {}, Registry(crowdsecConfigured, false, {}))
  }

  // ---------------------------------------------------------------- CrowdSec

  function Acquire(r: Registry, svc: ServiceId, starts: bool): (Registry, bool) {
    if !r.available then (r, false)
    else if svc in r.refs then (r, r.running)
    else if r.running || starts then (r.(running := true, refs := r.refs + {svc}), true)
    else (r, false)
  }

  function Release(r: Registry, svc: ServiceId): Registry {
    r.(refs := r.refs - {svc}, running := r.running && r.refs - {svc} != {})
  }

  function ParseRestrictions(t: Tables, m: Mapping, env: Env): Tables {
    if m.restrictions.None? || m.restrictions.value == CrowdSecOff then t
    else
      var (reg, ok) := Acquire(t.registry, m.id, env.bouncerStarts);
      t.(registry := reg, crowdsec := if ok then t.crowdsec + {m.id} else t.crowdsec)
  }

  function ReleaseCrowdSec(t: Tables, svc: ServiceId): Tables {
    t.(crowdsec := t.crowdsec - {svc},
       registry := if svc in t.crowdsec then Release(t.registry, svc) else t.registry)
  }

  // ------------------------------------------------------------------- setup

  datatype Outcome = Done(t: Tables) | Failed(t: Tables)

  predicate ValidPort(port: int) { 1 <= port <= 65535 }

  /** The address of the first path, or the empty string. */
  function L4Target(m: Mapping): string {
    if m.paths == [] || !m.paths[0].isHostPort then "" else m.paths[0].address
  }

  predicate TunnelConflict(c: Config, port: int) {
    c.wireguardPort != 0 && port == c.wireguardPort
  }

  /** The checks TCP and TLS setup make before asking for a router. */
  predicate L4Admissible(c: Config, m: Mapping) {
    ValidPort(m.listenPort) && L4Target(m) != "" && !TunnelConflict(c, m.listenPort)
  }

  predicate IsMain(c: Config, port: nat) { port == 0 || port == c.mainPort }

  /** Whether a router for the port is at hand or can be opened. */
  predicate RouterReady(c: Config, t: Tables, port: nat, env: Env) {
    IsMain(c, port) || port in t.portRouters || env.listenOk
  }

  /** The router of a port: the main one, the existing one, or a new empty one. */
  function RouterAt(c: Config, t: Tables, port: nat): Router {
    if IsMain(c, port) then t.main
    else if port in t.portRouters then t.portRouters[port]
    else R.EMPTY
  }

  function PutRouter(c: Config, t: Tables, port: nat, r: Router): Tables {
    if IsMain(c, port) then t.(main := r) else t.(portRouters := t.portRouters[port := r])
  }

  function L4Route(m: Mapping): Route {
    Route(TcpRoute, m.account, m.id, m.domain, L4Target(m))
  }

  function HttpRouteOf(m: Mapping): Route {
    Route(HttpRoute, m.account, m.id, m.domain, "")
  }

  function SetupHTTP(t: Tables, m: Mapping, env: Env): Outcome {
    if m.paths == [] then Done(t)
    else
      var t1 := t.(main := AddRoute(t.main, m.domain, HttpRouteOf(m)));
      var t2 := ParseRestrictions(t1, m, env);
      if env.authOk && env.chainsOk then Done(t2) else Failed(t2)
  }

  function SetupTCP(c: Config, t: Tables, m: Mapping, env: Env): Outcome {
    if !L4Admissible(c, m) || !RouterReady(c, t, m.listenPort, env) then Failed(t)
    else
      var t1 := ParseRestrictions(t, m, env);
      var t2 := PutRouter(c, t1, m.listenPort, SetFallback(RouterAt(c, t, m.listenPort), L4Route(m)));
      Done(t2.(svcPorts := t2.svcPorts[m.id := [m.listenPort]]))
  }

  function SetupTLS(c: Config, t: Tables, m: Mapping, env: Env): Outcome {
    if !L4Admissible(c, m) || !RouterReady(c, t, m.listenPort, env) then Failed(t)
    else
      var t1 := ParseRestrictions(t, m, env);
      var t2 := PutRouter(c, t1, m.listenPort, AddRoute(RouterAt(c, t, m.listenPort), m.domain, L4Route(m)));
      Done(if m.listenPort == c.mainPort then t2 else t2.(svcPorts := t2.svcPorts[m.id := [m.listenPort]]))
  }

  function SetupUDP(c: Config, t: Tables, m: Mapping, env: Env): Outcome {
    if !L4Admissible(c, m) then Failed(t)
    else
      var t1 := t.(udpRelays := t.udpRelays - {m.id});
      if !env.listenOk || !env.dialerOk then Failed(t1)
      else
        var t2 := ParseRestrictions(t1, m, env);
        Done(t2.(udpRelays := t2.udpRelays[m.id := m.listenPort]))
  }

  function Setup(c: Config, t: Tables, m: Mapping, env: Env): Outcome {
    match m.mode
    case TCP => SetupTCP(c, t, m, env)
    case UDP => SetupUDP(c, t, m, env)
    case TLS => SetupTLS(c, t, m, env)
    case HTTP => SetupHTTP(t, m, env)
  }

  // ----------------------------------------------------------------- cleanup

  function CleanupPortIfEmpty(c: Config, t: Tables, port: nat): Tables {
    if !IsMain(c, port) && port in t.portRouters && IsEmpty(t.portRouters[port])
    then t.(portRouters := t.portRouters - {port})
    else t
  }

  /** Cleanup picks the removal by whether the mapping has a domain. */
  function Detach(r: Router, host: string, svc: ServiceId): Router {
    if host != "" then RemoveRoute(r, host, svc) else RemoveFallback(r)
  }

  function CleanupPort(c: Config, t: Tables, host: string, svc: ServiceId, port: nat): Tables {
    var t1 := if IsMain(c, port) || port in t.portRouters
              then PutRouter(c, t, port, Detach(RouterAt(c, t, port), host, svc))
              else t;
    CleanupPortIfEmpty(c, t1, port)
  }

  function CleanupPorts(c: Config, t: Tables, host: string, svc: ServiceId, ports: seq<nat>): Tables
    decreases |ports|
  {
    if ports == [] then t
    else CleanupPorts(c, CleanupPort(c, t, host, svc, ports[0]), host, svc, ports[1..])
  }

  function Cleanup(c: Config, t: Tables, m: Mapping): Tables {
    var t1 := if m.domain != "" then t.(main := RemoveRoute(t.main, m.domain, m.id)) else t;
    var t2 := CleanupPorts(c, t1.(svcPorts := t1.svcPorts - {m.id}), m.domain, m.id, Get(t1.svcPorts, m.id));
    ReleaseCrowdSec(t2.(udpRelays := t2.udpRelays - {m.id}), m.id)
  }

  // ----------------------------------------------------------------- updates

  function Store(t: Tables, m: Mapping): Tables {
    t.(lastMappings := t.lastMappings[m.id := m])
  }

  function Add(c: Config, t: Tables, m: Mapping, env: Env): Tables {
    if !env.peerOk then t
    else match Setup(c, t, m, env)
      case Done(t1) => Store(t1, m)
      case Failed(t1) => Cleanup(c, t1, m)
  }

  /** The mapping whose routes an update tears down: the stored one when there is one. */
  function Previous(t: Tables, m: Mapping): Mapping {
    if m.id in t.lastMappings then t.lastMappings[m.id] else m
  }

  function Modify(c: Config, t: Tables, m: Mapping, env: Env): Tables {
    match Setup(c, Cleanup(c, t, Previous(t, m)), m, env)
    case Done(t1) => Store(t1, m)
    case Failed(t1) => Cleanup(c, t1, m)
  }

  function Remove(c: Config, t: Tables, m: Mapping): Tables {
    Cleanup(c, t.(lastMappings := t.lastMappings - {m.id}), Previous(t, m))
  }

  function Process(c: Config, t: Tables, m: Mapping, env: Env): Tables {
    match m.update
    case Created => Add(c, t, m, env)
    case Modified => Modify(c, t, m, env)
    case Removed => Remove(c, t, m)
  }

  type Update = (Mapping, Env)

  function ProcessAll(c: Config, t: Tables, run: seq<Update>): Tables
    decreases |run|
  {
    if run == [] then t
    else ProcessAll(c, Process(c, t, run[0].0, run[0].1), run[1..])
  }

  // ----------------------------------------------------------- reconciliation

  /** `order` lists a set of keys, each once: one possible Go map iteration. */
  ghost predicate Lists(order: seq<ServiceId>, keys: set<ServiceId>) {
    && (forall k :: k in order <==> k in keys)
    && (forall i, j :: 0 <= i < j < |order| ==> order[i] != order[j])
  }

  /** The stale mappings, collected before any of them is removed. */
  function Stale(last: map<ServiceId, Mapping>, order: seq<ServiceId>, seen: set<ServiceId>): (r: seq<Mapping>)
    requires forall k :: k in order ==> k in last
  {
    if order == [] then []
    else if order[0] in seen then Stale(last, order[1..], seen)
    else [last[order[0]]] + Stale(last, order[1..], seen)
  }

  function RemoveAll(c: Config, t: Tables, stale: seq<Mapping>): Tables
    decreases |stale|
  {
    if stale == [] then t else RemoveAll(c, Remove(c, t, stale[0]), stale[1..])
  }

  function Reconcile(c: Config, t: Tables, order: seq<ServiceId>, seen: set<ServiceId>): Tables
    requires Lists(order, t.lastMappings.Keys)
  {
    RemoveAll(c, t, Stale(t.lastMappings, order, seen))
  }

  /** One received message; `order` is the map iteration order should it be reconciled. */
  datatype Batch = Batch(updates: seq<Update>, syncComplete: bool, order: seq<ServiceId>)

  function Ids(updates: seq<Update>): set<ServiceId> {
    set u | u in updates :: u.0.id
  }

  /** Tables together with the tracker of the current stream. */
  datatype Stream = Stream(t: Tables, done: bool, seen: set<ServiceId>)

  predicate Reconciles(s: Stream, b: Batch) { !s.done && b.syncComplete }

  ghost predicate Receivable(c: Config, s: Stream, b: Batch) {
    Reconciles(s, b) ==> Lists(b.order, ProcessAll(c, s.t, b.updates).lastMappings.Keys)
  }

  function Receive(c: Config, s: Stream, b: Batch): Stream
    requires Receivable(c, s, b)
  {
    var t := ProcessAll(c, s.t, b.updates);
    if s.done then s.(t := t)
    else
      var seen := s.seen + Ids(b.updates);
      if b.syncComplete then Stream(Reconcile(c, t, b.order, seen), true, {})
      else Stream(t, false, seen)
  }

  ghost predicate Playable(c: Config, s: Stream, batches: seq<Batch>)
    decreases |batches|
  {
    batches == [] || (Receivable(c, s, batches[0]) && Playable(c, Receive(c, s, batches[0]), batches[1..]))
  }

  function Play(c: Config, s: Stream, batches: seq<Batch>): Stream
    requires Playable(c, s, batches)
    decreases |batches|
  {
    if batches == [] then s else Play(c, Receive(c, s, batches[0]), batches[1..])
  }

  /** Every connection starts a fresh tracker over the tables the last one left. */
  ghost predicate Connectable(c: Config, t: Tables, streams: seq<seq<Batch>>)
    decreases |streams|
  {
    streams == [] ||
    (Playable(c, Stream(t, false, {}), streams[0]) &&
     Connectable(c, Play(c, Stream(t, false, {}), streams[0]).t, streams[1..]))
  }

  function Connect(c: Config, t: Tables, streams: seq<seq<Batch>>): Tables
    requires Connectable(c, t, streams)
    decreases |streams|
  {
    if streams == [] then t
    else Connect(c, Play(c, Stream(t, false, {}), streams[0]).t, streams[1..])
  }
}
