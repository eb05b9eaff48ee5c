/** The queue of routes that arrive before an account's inbound listener is up
    (proxy/inbound.go), and when replaying it agrees with direct application. */
module InboundQueue {
  import opened Common
  import opened R = Router

  datatype Pending = Pending(host: string, route: Route)

  predicate SameKey(p: Pending, host: string, svc: ServiceId) {
    p.host == host && p.route.service == svc
  }

  predicate HasKey(q: seq<Pending>, host: string, svc: ServiceId) {
    exists p :: p in q && SameKey(p, host, svc)
  }

  function Init(q: seq<Pending>): seq<Pending>
    requires q != []
  {
    q[..|q| - 1]
  }

  function Last(q: seq<Pending>): Pending
    requires q != []
  {
    q[|q| - 1]
  }

  /** Overwrites the first entry of the same key. */
  function ReplaceFirst(q: seq<Pending>, host: string, route: Route): seq<Pending> {
    if q == [] then []
    else if HasKey(Init(q), host, route.service) then ReplaceFirst(Init(q), host, route) + [Last(q)]
    else if SameKey(Last(q), host, route.service) then Init(q) + [Pending(host, route)]
    else q
  }

  function Queue(q: seq<Pending>, host: string, route: Route): seq<Pending> {
    if HasKey(q, host, route.service) then ReplaceFirst(q, host, route) else q + [Pending(host, route)]
  }

  /** Every entry except those of the key, in order. */
  function Drop(q: seq<Pending>, host: string, svc: ServiceId): seq<Pending> {
    if q == [] then []
    else if SameKey(Last(q), host, svc) then Drop(Init(q), host, svc)
    else Drop(Init(q), host, svc) + [Last(q)]
  }

  /** The router after the queued routes are applied to a fresh one. */
  function Replay(q: seq<Pending>): Router {
    if q == [] then R.EMPTY else AddRoute(Replay(Init(q)), Last(q).host, Last(q).route)
  }

  datatype Op = Add(host: string, route: Route) | Remove(host: string, svc: ServiceId)

  function Enqueue(q: seq<Pending>, op: Op): seq<Pending> {
    match op
    case Add(host, route) => Queue(q, host, route)
    case Remove(host, svc) => Drop(q, host, svc)
  }

  function Direct(t: Router, op: Op): Router {
    match op
    case Add(host, route) => AddRoute(t, host, route)
    case Remove(host, svc) => RemoveRoute(t, host, svc)
  }

  function EnqueueAll(ops: seq<Op>): seq<Pending> {
    if ops == [] then [] else Enqueue(EnqueueAll(ops[..|ops| - 1]), ops[|ops| - 1])
  }

  function DirectAll(ops: seq<Op>): Router {
    if ops == [] then R.EMPTY else Direct(DirectAll(ops[..|ops| - 1]), ops[|ops| - 1])
  }

  // -------------------------------------------------------------- list lemmas

  function Find(list: seq<Route>, svc: ServiceId): Option<Route> {
    if list == [] then None
    else if list[0].service == svc then Some(list[0])
    else Find(list[1..], svc)
  }

  lemma {:induction false} FindServes(list: seq<Route>, svc: ServiceId)
    ensures Find(list, svc).Some? <==> Serves(list, svc)
  {
    if list != [] {
      assert list[0] in list;
      assert list == [list[0]] + list[1..];
      FindServes(list[1..], svc);
      if Serves(list[1..], svc) {
        var r :| r in list[1..] && r.service == svc;
        assert r in list;
      }
    }
  }

  lemma {:induction false} FindUpsert(list: seq<Route>, r: Route, svc: ServiceId)
    ensures Find(Upsert(list, r), svc) == if r.service == svc then Some(r) else Find(list, svc)
  {
    if list != [] && list[0].service != r.service {
      FindUpsert(list[1..], r, svc);
    }
  }

  lemma {:induction false} UpsertIdle(list: seq<Route>, r: Route)
    requires Find(list, r.service) == Some(r)
    ensures Upsert(list, r) == list
  {
    if list[0].service != r.service {
      UpsertIdle(list[1..], r);
    }
  }

  lemma {:induction false} WithoutUpsertOther(list: seq<Route>, r: Route, svc: ServiceId)
    requires r.service != svc
    ensures Without(Upsert(list, r), svc) == Upsert(Without(list, svc), r)
  {
    if list == [] {
      assert Without([r], svc) == [r] + Without([r][1..], svc);
    } else if list[0].service == r.service {
      assert Upsert(list, r)[1..] == list[1..];
      assert ([list[0]] + Without(list[1..], svc))[1..] == Without(list[1..], svc);
    } else {
      WithoutUpsertOther(list[1..], r, svc);
      assert Upsert(list, r)[1..] == Upsert(list[1..], r);
      if list[0].service != svc {
        assert ([list[0]] + Without(list[1..], svc))[1..] == Without(list[1..], svc);
      }
    }
  }

  lemma {:induction false} UpsertTwice(list: seq<Route>, r1: Route, r2: Route)
    requires r1.service == r2.service
    ensures Upsert(Upsert(list, r1), r2) == Upsert(list, r2)
  {
    if list == [] {
      assert [r1][1..] == [];
    } else if list[0].service == r1.service {
      assert ([r1] + list[1..])[1..] == list[1..];
    } else {
      UpsertTwice(list[1..], r1, r2);
      assert Upsert(list, r1)[1..] == Upsert(list[1..], r1);
    }
  }

  lemma {:induction false} UpsertSwap(list: seq<Route>, r1: Route, r2: Route)
    requires r1.service != r2.service && Serves(list, r1.service)
    ensures Upsert(Upsert(list, r1), r2) == Upsert(Upsert(list, r2), r1)
  {
    var l0, l' := list[0], list[1..];
    assert list == [l0] + l';
    if l0.service == r1.service {
      assert ([r1] + l')[1..] == l';
      assert ([l0] + Upsert(l', r2))[1..] == Upsert(l', r2);
    } else if l0.service == r2.service {
      assert ([r2] + l')[1..] == l';
      assert ([l0] + Upsert(l', r1))[1..] == Upsert(l', r1);
    } else {
      UpsertSwap(l', r1, r2);
      assert ([l0] + Upsert(l', r1))[1..] == Upsert(l', r1);
      assert ([l0] + Upsert(l', r2))[1..] == Upsert(l', r2);
    }
  }

  // ------------------------------------------------------------ router lemmas

  /** Two spellings of one host name the same route slot of a service. */
  predicate SameSlot(h1: string, s1: ServiceId, h2: string, s2: ServiceId) {
    ToLower(h1) == ToLower(h2) && s1 == s2
  }

  lemma RemoveAddOther(t: Router, h1: string, r: Route, h2: string, svc: ServiceId)
    requires !SameSlot(h1, r.service, h2, svc)
    ensures RemoveRoute(AddRoute(t, h1, r), h2, svc) == AddRoute(RemoveRoute(t, h2, svc), h1, r)
  {
    var a, b := ToLower(h1), ToLower(h2);
    if a == b {
      WithoutUpsertOther(Get(t.routes, a), r, svc);
    } else {
      var list := Upsert(Get(t.routes, a), r);
      assert t.routes[a := list] - {b} == (t.routes - {b})[a := list];
      var rest := Without(Get(t.routes, b), svc);
      assert t.routes[a := list][b := rest] == t.routes[b := rest][a := list];
    }
  }

  lemma AddAddSame(t: Router, h1: string, r1: Route, h2: string, r2: Route)
    requires SameSlot(h1, r1.service, h2, r2.service)
    ensures AddRoute(AddRoute(t, h1, r1), h2, r2) == AddRoute(t, h2, r2)
  {
    UpsertTwice(Get(t.routes, ToLower(h1)), r1, r2);
  }

  lemma AddAddSwap(t: Router, h1: string, r1: Route, h2: string, r2: Route)
    requires !SameSlot(h1, r1.service, h2, r2.service)
    requires Serves(Get(t.routes, ToLower(h1)), r1.service)
    ensures AddRoute(AddRoute(t, h1, r1), h2, r2) == AddRoute(AddRoute(t, h2, r2), h1, r1)
  {
    var a, b := ToLower(h1), ToLower(h2);
    if a == b {
      UpsertSwap(Get(t.routes, a), r1, r2);
    } else {
      var la, lb := Upsert(Get(t.routes, a), r1), Upsert(Get(t.routes, b), r2);
      assert t.routes[a := la][b := lb] == t.routes[b := lb][a := la];
    }
  }

  // ------------------------------------------------------------------- replay

  /** The route a slot ends up with is that of its last queued spelling. */
  function LastInSlot(q: seq<Pending>, host: string, svc: ServiceId): Option<Route> {
    if q == [] then None
    else if SameSlot(Last(q).host, Last(q).route.service, host, svc) then Some(Last(q).route)
    else LastInSlot(Init(q), host, svc)
  }

  function Slot(t: Router, host: string, svc: ServiceId): Option<Route> {
    Find(Get(t.routes, ToLower(host)), svc)
  }

  lemma {:induction false} ReplaySlot(q: seq<Pending>, host: string, svc: ServiceId)
    requires host != ""
    ensures Slot(Replay(q), host, svc) == LastInSlot(q, host, svc)
  {
    if q != [] {
      var t, x := Replay(Init(q)), Last(q);
      ReplaySlot(Init(q), host, svc);
      FindUpsert(Get(t.routes, ToLower(x.host)), x.route, svc);
    }
  }

  /** The queued routes applied, in order, to a router that may already hold routes. */
  function ReplayOnto(t: Router, q: seq<Pending>): Router {
    if q == [] then t else AddRoute(ReplayOnto(t, Init(q)), Last(q).host, Last(q).route)
  }

  lemma {:induction false} ReplayOntoEmpty(q: seq<Pending>)
    ensures ReplayOnto(R.EMPTY, q) == Replay(q)
  {
    if q != [] { ReplayOntoEmpty(Init(q)); }
  }

  /** A flush gives every slot its last queued route and leaves the slots without one alone. */
  lemma {:induction false} FlushedSlot(t: Router, q: seq<Pending>, host: string, svc: ServiceId)
    requires host != ""
    ensures Slot(ReplayOnto(t, q), host, svc) ==
            if LastInSlot(q, host, svc).Some? then LastInSlot(q, host, svc) else Slot(t, host, svc)
  {
    if q != [] {
      var t', x := ReplayOnto(t, Init(q)), Last(q);
      FlushedSlot(t, Init(q), host, svc);
      FindUpsert(Get(t'.routes, ToLower(x.host)), x.route, svc);
    }
  }

  /** A route added directly between publishing and the flush survives the flush if and only
      if its slot is not queued, or was last queued with that very route. */
  lemma DirectAdditionSurvivesExactly(t: Router, q: seq<Pending>, host: string, route: Route)
    requires host != ""
    ensures Slot(ReplayOnto(AddRoute(t, host, route), q), host, route.service) == Some(route) <==>
            var e := LastInSlot(q, host, route.service); e.None? || e == Some(route)
  {
    FlushedSlot(AddRoute(t, host, route), q, host, route.service);
    FindUpsert(Get(t.routes, ToLower(host)), route, route.service);
  }

  /** So a newer route added directly is lost to an older one still queued for its slot. */
  lemma FlushRestoresOlder(t: Router, host: string, older: Route, newer: Route)
    requires host != "" && older.service == newer.service
    ensures Slot(ReplayOnto(AddRoute(t, host, newer), [Pending(host, older)]), host, newer.service) == Some(older)
  {
    var q := [Pending(host, older)];
    assert Last(q) == Pending(host, older);
    FlushedSlot(AddRoute(t, host, newer), q, host, newer.service);
  }

  lemma {:induction false} LastInSlotFound(q: seq<Pending>, host: string, svc: ServiceId)
    ensures LastInSlot(q, host, svc).Some? <==>
            exists p :: p in q && SameSlot(p.host, p.route.service, host, svc)
  {
    if q != [] {
      assert q == Init(q) + [Last(q)];
      assert Last(q) in q;
      LastInSlotFound(Init(q), host, svc);
      if p :| p in Init(q) && SameSlot(p.host, p.route.service, host, svc) {
        assert p in q;
      }
    }
  }

  lemma SlotServes(q: seq<Pending>, host: string, svc: ServiceId)
    requires host != ""
    ensures Serves(Get(Replay(q).routes, ToLower(host)), svc) <==>
            exists p :: p in q && SameSlot(p.host, p.route.service, host, svc)
  {
    ReplaySlot(q, host, svc);
    LastInSlotFound(q, host, svc);
    FindServes(Get(Replay(q).routes, ToLower(host)), svc);
  }

  /** Queued under another spelling of the same host. */
  ghost predicate OtherSpelling(q: seq<Pending>, host: string, svc: ServiceId) {
    exists p :: p in q && SameSlot(p.host, p.route.service, host, svc) && p.host != host
  }

  lemma {:induction false} DropReplays(q: seq<Pending>, host: string, svc: ServiceId)
    requires !OtherSpelling(q, host, svc)
    ensures Replay(Drop(q, host, svc)) == RemoveRoute(Replay(q), host, svc)
  {
    if q == [] {
      assert R.EMPTY.routes - {ToLower(host)} == R.EMPTY.routes;
    } else {
      var x := Last(q);
      assert x in q;
      assert forall p :: p in Init(q) ==> p in q;
      DropReplays(Init(q), host, svc);
      if SameKey(x, host, svc) {
        RemoveAddSame(Replay(Init(q)), x.host, x.route, host);
      } else {
        RemoveAddOther(Replay(Init(q)), x.host, x.route, host, svc);
        var d := Drop(Init(q), host, svc);
        assert Init(d + [x]) == d && Last(d + [x]) == x;
      }
    }
  }

  lemma {:induction false} DropMembers(q: seq<Pending>, host: string, svc: ServiceId)
    ensures forall p :: p in Drop(q, host, svc) <==> p in q && !SameKey(p, host, svc)
  {
    if q != [] {
      assert q == Init(q) + [Last(q)];
      DropMembers(Init(q), host, svc);
    }
  }

  /** Pruning the queue agrees with removing from the router it would build exactly
      when the service is not queued under another spelling of the host. */
  lemma DropExactly(q: seq<Pending>, host: string, svc: ServiceId)
    ensures Replay(Drop(q, host, svc)) == RemoveRoute(Replay(q), host, svc) <==> !OtherSpelling(q, host, svc)
  {
    if OtherSpelling(q, host, svc) {
      var p :| p in q && SameSlot(p.host, p.route.service, host, svc) && p.host != host;
      DropMembers(q, host, svc);
      assert |ToLower(host)| == |ToLower(p.host)|;
      SlotServes(Drop(q, host, svc), host, svc);
      WithoutMembers(Get(Replay(q).routes, ToLower(host)), svc);
    } else {
      DropReplays(q, host, svc);
    }
  }

  lemma {:induction false} ReplaceFirstMembers(q: seq<Pending>, host: string, route: Route)
    requires HasKey(q, host, route.service)
    ensures |ReplaceFirst(q, host, route)| == |q|
    ensures Pending(host, route) in ReplaceFirst(q, host, route)
    ensures forall p :: p in ReplaceFirst(q, host, route) ==> p == Pending(host, route) || p in q
  {
    assert q == Init(q) + [Last(q)];
    if HasKey(Init(q), host, route.service) {
      ReplaceFirstMembers(Init(q), host, route);
    }
  }

  /** Overwriting in the queue differs from overwriting in the router at most in the slot's value. */
  lemma {:induction false} ReplaceOverwrites(q: seq<Pending>, host: string, route: Route)
    requires host != "" && HasKey(q, host, route.service)
    ensures AddRoute(Replay(ReplaceFirst(q, host, route)), host, route) == AddRoute(Replay(q), host, route)
  {
    var i, x := Init(q), Last(q);
    assert q == i + [x];
    if HasKey(i, host, route.service) {
      var f := ReplaceFirst(i, host, route);
      ReplaceOverwrites(i, host, route);
      assert Init(f + [x]) == f && Last(f + [x]) == x;
      if SameSlot(x.host, x.route.service, host, route.service) {
        AddAddSame(Replay(f), x.host, x.route, host, route);
        AddAddSame(Replay(i), x.host, x.route, host, route);
      } else {
        ReplaceFirstMembers(i, host, route);
        SlotServes(f, host, route.service);
        SlotServes(i, host, route.service);
        AddAddSwap(Replay(f), host, route, x.host, x.route);
        AddAddSwap(Replay(i), host, route, x.host, x.route);
      }
    } else {
      var y := Pending(host, route);
      assert Init(i + [y]) == i && Last(i + [y]) == y;
      AddAddSame(Replay(i), host, route, host, route);
      AddAddSame(Replay(i), x.host, x.route, host, route);
    }
  }

  /** The slot's last entry is the one an overwrite replaces, or carries the route already. */
  predicate Overrides(q: seq<Pending>, host: string, route: Route) {
    if q == [] then false
    else if SameSlot(Last(q).host, Last(q).route.service, host, route.service)
    then Last(q).route == route || (Last(q).host == host && !HasKey(Init(q), host, route.service))
    else Overrides(Init(q), host, route)
  }

  lemma {:induction false} OverridesReplaces(q: seq<Pending>, host: string, route: Route)
    requires HasKey(q, host, route.service)
    ensures LastInSlot(ReplaceFirst(q, host, route), host, route.service) == Some(route) <==> Overrides(q, host, route)
  {
    var i, x := Init(q), Last(q);
    assert q == i + [x];
    if HasKey(i, host, route.service) {
      OverridesReplaces(i, host, route);
      var f := ReplaceFirst(i, host, route);
      assert Init(f + [x]) == f && Last(f + [x]) == x;
    } else {
      var y := Pending(host, route);
      assert Init(i + [y]) == i && Last(i + [y]) == y;
    }
  }

  /** Queueing agrees with adding to the router the queue would build if and only if the
      host is empty, the key is new, or the slot's last entry is the one overwritten or
      carries the route already. */
  lemma QueueExactly(q: seq<Pending>, host: string, route: Route)
    ensures Replay(Queue(q, host, route)) == AddRoute(Replay(q), host, route) <==>
            host == "" || !HasKey(q, host, route.service) || Overrides(q, host, route)
  {
    if !HasKey(q, host, route.service) {
      var y := Pending(host, route);
      assert Init(q + [y]) == q && Last(q + [y]) == y;
    } else if host == "" {
      ReplaceEmptyHost(q, route);
    } else {
      var q' := ReplaceFirst(q, host, route);
      ReplaceOverwrites(q, host, route);
      OverridesReplaces(q, host, route);
      ReplaySlot(q', host, route.service);
      FindUpsert(Get(Replay(q).routes, ToLower(host)), route, route.service);
      if Slot(Replay(q'), host, route.service) == Some(route) {
        var t, h := Replay(q'), ToLower(host);
        UpsertIdle(Get(t.routes, h), route);
        assert t.routes[h := t.routes[h]] == t.routes;
      }
    }
  }

  lemma {:induction false} ReplaceEmptyHost(q: seq<Pending>, route: Route)
    ensures Replay(ReplaceFirst(q, "", route)) == Replay(q)
  {
    if q != [] {
      var i, x := Init(q), Last(q);
      ReplaceEmptyHost(i, route);
      if HasKey(i, "", route.service) {
        var f := ReplaceFirst(i, "", route);
        assert Init(f + [x]) == f && Last(f + [x]) == x;
      } else if SameKey(x, "", route.service) {
        var y := Pending("", route);
        assert Init(i + [y]) == i && Last(i + [y]) == y;
      }
    }
  }

  // --------------------------------------------------------------------- runs

  /** At most one entry per host and service. */
  ghost predicate DistinctKeys(q: seq<Pending>) {
    forall i, j :: 0 <= i < j < |q| ==> !SameKey(q[i], q[j].host, q[j].route.service)
  }

  lemma {:induction false} DropDistinct(q: seq<Pending>, host: string, svc: ServiceId)
    requires DistinctKeys(q)
    ensures DistinctKeys(Drop(q, host, svc))
  {
    if q != [] {
      DropDistinct(Init(q), host, svc);
      DropMembers(Init(q), host, svc);
      var d := Drop(Init(q), host, svc);
      forall k | 0 <= k < |d| ensures !SameKey(d[k], Last(q).host, Last(q).route.service) {
        assert d[k] in Init(q);
      }
    }
  }

  lemma {:induction false} ReplaceFirstKeys(q: seq<Pending>, host: string, route: Route)
    ensures |ReplaceFirst(q, host, route)| == |q|
    ensures forall i :: 0 <= i < |q| ==>
              SameKey(ReplaceFirst(q, host, route)[i], q[i].host, q[i].route.service)
  {
    if q != [] && HasKey(Init(q), host, route.service) {
      ReplaceFirstKeys(Init(q), host, route);
    }
  }

  /** The queue never holds two entries of one key, whatever is added and removed. */
  lemma {:induction false} QueueKeysDistinct(ops: seq<Op>)
    ensures DistinctKeys(EnqueueAll(ops))
  {
    if ops != [] {
      var op := ops[|ops| - 1];
      var q := EnqueueAll(ops[..|ops| - 1]);
      QueueKeysDistinct(ops[..|ops| - 1]);
      match op
      case Remove(host, svc) => DropDistinct(q, host, svc);
      case Add(host, route) =>
        ReplaceFirstKeys(q, host, route);
        var q' := Queue(q, host, route);
        if !HasKey(q, host, route.service) {
          forall k | 0 <= k < |q| ensures !SameKey(q'[k], host, route.service) {
            assert q[k] in q;
          }
        } else {
          forall i, j | 0 <= i < j < |q'|
            ensures !SameKey(q'[i], q'[j].host, q'[j].route.service)
          {
            assert SameKey(q'[i], q[i].host, q[i].route.service);
            assert SameKey(q'[j], q[j].host, q[j].route.service);
          }
        }
    }
  }

  /** Hosts that differ only in letter case are not mixed. */
  ghost predicate OneSpelling(ops: seq<Op>) {
    forall a, b :: a in ops && b in ops && ToLower(a.host) == ToLower(b.host) ==> a.host == b.host
  }

  lemma {:induction false} QueuedHosts(ops: seq<Op>)
    ensures forall p :: p in EnqueueAll(ops) ==> exists op :: op in ops && op.host == p.host
  {
    if ops != [] {
      var op := ops[|ops| - 1];
      var before := ops[..|ops| - 1];
      var q := EnqueueAll(before);
      QueuedHosts(before);
      assert op in ops;
      match op {
        case Remove(host, svc) => DropMembers(q, host, svc);
        case Add(host, route) =>
          if HasKey(q, host, route.service) {
            ReplaceFirstMembers(q, host, route);
          }
      }
      forall p | p in EnqueueAll(ops) ensures exists op :: op in ops && op.host == p.host {
        if p in q {
          var o :| o in before && o.host == p.host;
          assert o in ops;
        }
      }
    }
  }

  lemma LastDiffers(q: seq<Pending>, host: string, svc: ServiceId)
    requires q != [] && DistinctKeys(q) && HasKey(Init(q), host, svc)
    ensures DistinctKeys(Init(q)) && !SameKey(Last(q), host, svc)
  {
    var p :| p in Init(q) && SameKey(p, host, svc);
    var k :| 0 <= k < |q| - 1 && q[k] == p;
    assert !SameKey(q[k], Last(q).host, Last(q).route.service);
  }

  /** The last entry of a slot. */
  function LastEntry(q: seq<Pending>, host: string, svc: ServiceId): Option<Pending> {
    if q == [] then None
    else if SameSlot(Last(q).host, Last(q).route.service, host, svc) then Some(Last(q))
    else LastEntry(Init(q), host, svc)
  }

  lemma {:induction false} DistinctOverrides(q: seq<Pending>, host: string, route: Route)
    requires DistinctKeys(q) && HasKey(q, host, route.service)
    ensures var e := LastEntry(q, host, route.service);
            && e.Some? && e.value in q && SameSlot(e.value.host, e.value.route.service, host, route.service)
            && (Overrides(q, host, route) <==> e.value.host == host || e.value.route == route)
  {
    assert q == Init(q) + [Last(q)] && Last(q) in q;
    if HasKey(Init(q), host, route.service) {
      LastDiffers(q, host, route.service);
      DistinctOverrides(Init(q), host, route);
    }
  }

  /** In every queue that additions and removals build: queueing agrees with adding directly
      if and only if the host is empty, the key is new, or the slot's last entry is spelled
      the same way or carries the route already. */
  lemma RequeueExactly(ops: seq<Op>, host: string, route: Route)
    ensures var q := EnqueueAll(ops);
            Replay(Queue(q, host, route)) == AddRoute(Replay(q), host, route) <==>
            || host == "" || !HasKey(q, host, route.service)
            || (var e := LastEntry(q, host, route.service); e.Some? && (e.value.host == host || e.value.route == route))
  {
    var q := EnqueueAll(ops);
    QueueKeysDistinct(ops);
    QueueExactly(q, host, route);
    if HasKey(q, host, route.service) { DistinctOverrides(q, host, route); }
  }

  /** Any sequence of additions and removals issued before the listener is up, then
      replayed, builds the very router direct application would have built. */
  lemma {:induction false} ReplayAgrees(ops: seq<Op>)
    requires OneSpelling(ops)
    ensures Replay(EnqueueAll(ops)) == DirectAll(ops)
  {
    if ops != [] {
      var before := ops[..|ops| - 1];
      var op := ops[|ops| - 1];
      assert op in ops && forall o :: o in before ==> o in ops;
      ReplayAgrees(before);
      var q := EnqueueAll(before);
      QueuedHosts(before);
      QueueKeysDistinct(before);
      forall p | p in q && ToLower(p.host) == ToLower(op.host) ensures p.host == op.host {
        var o :| o in before && o.host == p.host;
        assert o in ops;
      }
      match op
      case Remove(host, svc) => DropExactly(q, host, svc);
      case Add(host, route) =>
        QueueExactly(q, host, route);
        if HasKey(q, host, route.service) {
          DistinctOverrides(q, host, route);
        }
    }
  }

  lemma OneOp(x: Op)
    ensures EnqueueAll([x]) == Enqueue([], x) && DirectAll([x]) == Direct(R.EMPTY, x)
  {
    assert [x][..0] == [];
    assert EnqueueAll([]) == [] && DirectAll([]) == R.EMPTY;
  }

  lemma TwoOps(x: Op, y: Op)
    ensures EnqueueAll([x, y]) == Enqueue(EnqueueAll([x]), y)
    ensures DirectAll([x, y]) == Direct(DirectAll([x]), y)
  {
    assert [x, y][..1] == [x];
  }

  lemma ReplayOne(p: Pending)
    ensures Replay([p]) == AddRoute(R.EMPTY, p.host, p.route)
  {
    assert Init([p]) == [];
  }

  lemma RemoveOnly(host: string, route: Route, other: string)
    requires ToLower(host) == ToLower(other) != ""
    ensures ToLower(host) !in RemoveRoute(AddRoute(R.EMPTY, host, route), other, route.service).routes
  {
    assert Upsert([], route) == [route];
    assert Get(AddRoute(R.EMPTY, host, route).routes, ToLower(other)) == [route];
    assert [route][1..] == [] && Without([], route.service) == [];
    assert Without([route], route.service) == [];
  }

  /** Any two spellings of a host that differ in letter case break the agreement: removing
      the one misses a route queued under the other. */
  lemma MixedCaseDisagrees(host: string, other: string, route: Route)
    requires host != other && ToLower(host) == ToLower(other) != ""
    ensures var ops := [Add(host, route), Remove(other, route.service)];
            Replay(EnqueueAll(ops)) != DirectAll(ops)
  {
    OneOp(Add(host, route));
    TwoOps(Add(host, route), Remove(other, route.service));
    var p := Pending(host, route);
    assert Enqueue([], Add(host, route)) == [p];
    assert Drop([p], other, route.service) == [p] by { assert Init([p]) == []; }
    ReplayOne(p);
    RemoveOnly(host, route, other);
    assert ToLower(host) in AddRoute(R.EMPTY, host, route).routes;
  }
}
