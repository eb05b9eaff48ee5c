/** The inbound manager's critical sections (proxy/inbound.go): pure sections, the
    class that performs them in place, and every interleaving of them. */
module InboundManager {
  import opened Common
  import opened R = Router
  import opened Q = InboundQueue

  type Account = string
  type EntryId = nat

  /** What muxLock guards. */
  datatype Guarded = Guarded(entries: map<Account, EntryId>, pending: map<Account, seq<Pending>>)

  function AddSection(g: Guarded, acct: Account, host: string, route: Route): Guarded {
    if acct in g.entries then g
    else g.(pending := g.pending[acct := Q.Queue(Get(g.pending, acct), host, route)])
  }

  function DropSection(g: Guarded, acct: Account, host: string, svc: ServiceId): Guarded {
    if acct !in g.pending then g
    else
      var rest := Q.Drop(g.pending[acct], host, svc);
      g.(pending := if rest == [] then g.pending - {acct} else g.pending[acct := rest])
  }

  function PublishSection(g: Guarded, acct: Account, e: EntryId): Guarded {
    g.(entries := g.entries[acct := e])
  }

  function FlushSection(g: Guarded, acct: Account): Guarded {
    g.(pending := g.pending - {acct})
  }

  function StopSection(g: Guarded, acct: Account, e: EntryId): Guarded {
    if acct in g.entries && g.entries[acct] == e
    then Guarded(g.entries - {acct}, g.pending - {acct})
    else g
  }

  // ------------------------------------------------------------------ in place

  /** Compacts the queue within its own backing array, as a pure filter would. */
  method CompactInPlace(a: array<Pending>, host: string, svc: ServiceId) returns (n: nat)
    modifies a
    ensures n <= a.Length
    ensures a[..n] == Q.Drop(old(a[..]), host, svc)
  {
    n := 0;
    var i := 0;
    while i < a.Length
      invariant 0 <= n <= i <= a.Length
      invariant forall k :: i <= k < a.Length ==> a[k] == old(a[k])
      invariant a[..n] == Q.Drop(old(a[..i]), host, svc)
    {
      ghost var done := old(a[..i + 1]);
      assert Q.Init(done) == old(a[..i]) && Q.Last(done) == old(a[i]);
      if a[i].host == host && a[i].route.service == svc {
      } else {
        ghost var kept := a[..n];
        a[n] := a[i];
        assert a[..n + 1] == kept + [old(a[i])];
        n := n + 1;
      }
      i := i + 1;
    }
    assert old(a[..a.Length]) == old(a[..]);
  }

  class Manager {
    var entries: map<Account, EntryId>
    var pendingRoutes: map<Account, seq<Pending>>
    var routers: map<EntryId, Router>   // each guarded by its own lock

    function G(): Guarded
      reads this
    {
      Guarded(entries, pendingRoutes)
    }

    function RouterOf(e: EntryId): Router
      reads this
    {
      if e in routers then routers[e] else R.EMPTY
    }

    constructor ()
      ensures G() == Guarded(map[], map[]) && routers == map[]
    {
      entries, pendingRoutes, routers := map[], map[], map[];
    }

    method QueuePendingLocked(acct: Account, host: string, route: Route)
      modifies this`pendingRoutes
      ensures pendingRoutes == old(pendingRoutes)[acct := Q.Queue(Get(old(pendingRoutes), acct), host, route)]
    {
      var queued := Get(pendingRoutes, acct);
      var i := 0;
      while i < |queued|
        invariant 0 <= i <= |queued|
        invariant pendingRoutes == old(pendingRoutes)
        invariant !Q.HasKey(queued[..i], host, route.service)
      {
        if queued[i].host == host && queued[i].route.service == route.service {
          ReplaceAt(queued, i, host, route);
          pendingRoutes := pendingRoutes[acct := queued[i := Pending(host, route)]];
          return;
        }
        assert queued[..i + 1] == queued[..i] + [queued[i]];
        i := i + 1;
      }
      assert queued[..i] == queued;
      pendingRoutes := pendingRoutes[acct := queued + [Pending(host, route)]];
    }

    method DropPendingLocked(acct: Account, host: string, svc: ServiceId)
      modifies this`pendingRoutes
      ensures G() == DropSection(old(G()), acct, host, svc)
    {
      if acct !in pendingRoutes { return; }
      var queued := pendingRoutes[acct];
      var backing := new Pending[|queued|](i requires 0 <= i < |queued| => queued[i]);
      assert backing[..] == queued;
      var n := CompactInPlace(backing, host, svc);
      if n == 0 {
        pendingRoutes := pendingRoutes - {acct};
        return;
      }
      pendingRoutes := pendingRoutes[acct := backing[..n]];
    }

    method AddRoute(acct: Account, host: string, route: Route)
      modifies this
      ensures G() == AddSection(old(G()), acct, host, route)
      ensures routers == if acct in old(entries)
                         then old(routers)[old(entries)[acct] := R.AddRoute(old(RouterOf(entries[acct])), host, route)]
                         else old(routers)
    {
      if acct !in entries {
        QueuePendingLocked(acct, host, route);
        return;
      }
      var e := entries[acct];
      routers := routers[e := R.AddRoute(RouterOf(e), host, route)];
    }

    method RemoveRoute(acct: Account, host: string, svc: ServiceId)
      modifies this
      ensures G() == DropSection(old(G()), acct, host, svc)
      ensures routers == if acct in old(entries)
                         then old(routers)[old(entries)[acct] := R.RemoveRoute(old(RouterOf(entries[acct])), host, svc)]
                         else old(routers)
    {
      DropPendingLocked(acct, host, svc);
      if acct !in entries { return; }
      var e := entries[acct];
      routers := routers[e := R.RemoveRoute(RouterOf(e), host, svc)];
    }

    /** The end of bringUp: the fresh entry, with its empty router, becomes visible. */
    method Publish(acct: Account, e: EntryId)
      requires e !in routers
      modifies this`entries, this`routers
      ensures G() == PublishSection(old(G()), acct, e)
      ensures routers == old(routers)[e := R.EMPTY]
    {
      routers := routers[e := R.EMPTY];
      entries := entries[acct := e];
    }

    /** Applies the queued routes, in order, to whatever the entry's router already holds. */
    method FlushPending(acct: Account, e: EntryId)
      modifies this`pendingRoutes, this`routers
      ensures G() == FlushSection(old(G()), acct)
      ensures RouterOf(e) == Q.ReplayOnto(old(RouterOf(e)), Get(old(pendingRoutes), acct))
      ensures forall f :: f != e ==> RouterOf(f) == old(RouterOf(f))
    {
      var queued := Get(pendingRoutes, acct);
      pendingRoutes := pendingRoutes - {acct};
      var i := 0;
      while i < |queued|
        invariant 0 <= i <= |queued|
        invariant G() == FlushSection(old(G()), acct)
        invariant RouterOf(e) == Q.ReplayOnto(old(RouterOf(e)), queued[..i])
        invariant forall f :: f != e ==> RouterOf(f) == old(RouterOf(f))
      {
        assert Q.Init(queued[..i + 1]) == queued[..i] && Q.Last(queued[..i + 1]) == queued[i];
        routers := routers[e := R.AddRoute(RouterOf(e), queued[i].host, queued[i].route)];
        i := i + 1;
      }
      assert queued[..i] == queued;
    }

    /** The critical section of tearDown. */
    method TearDown(acct: Account, e: EntryId)
      modifies this`entries, this`pendingRoutes
      ensures G() == StopSection(old(G()), acct, e)
    {
      if acct in entries && entries[acct] == e {
        entries := entries - {acct};
        pendingRoutes := pendingRoutes - {acct};
      }
    }
  }

  /** A route queued, then a newer one added directly between publishing and the flush: the
      flush puts the older route back. */
  method OlderRouteWins(acct: Account, e: EntryId, host: string, older: Route, newer: Route) returns (m: Manager)
    requires host != "" && older.service == newer.service
    ensures fresh(m) && m.entries == map[acct := e] && acct !in m.pendingRoutes
    ensures Q.Slot(m.RouterOf(e), host, newer.service) == Some(older)
  {
    m := new Manager();
    m.AddRoute(acct, host, older);
    assert Get(m.pendingRoutes, acct) == [Pending(host, older)];
    m.Publish(acct, e);
    m.AddRoute(acct, host, newer);
    m.FlushPending(acct, e);
    Q.FlushRestoresOlder(R.EMPTY, host, older, newer);
  }

  lemma {:induction false} ReplaceAt(q: seq<Pending>, i: nat, host: string, route: Route)
    requires i < |q| && Q.SameKey(q[i], host, route.service)
    requires !Q.HasKey(q[..i], host, route.service)
    ensures Q.HasKey(q, host, route.service)
    ensures Q.ReplaceFirst(q, host, route) == q[i := Pending(host, route)]
  {
    assert q[i] in q;
    if i == |q| - 1 {
      assert Q.Init(q) == q[..i];
    } else {
      assert q[i] in Q.Init(q) && Q.Init(q)[..i] == q[..i];
      ReplaceAt(Q.Init(q), i, host, route);
    }
  }

  // ------------------------------------------------------------ interleavings

  /** The life of one listener entry: published, then flushed, then handed back by
      onClientReady, and only then stopped. */
  datatype Phase = Published | Flushed | Returned | Stopped

  datatype Life = Life(acct: Account, phase: Phase)

  datatype System = System(g: Guarded, lives: map<EntryId, Life>)

  datatype Action =
    | DoAdd(acct: Account, host: string, route: Route)
    | DoRemove(acct: Account, host: string, svc: ServiceId)
    | DoPublish(acct: Account, e: EntryId)
    | DoFlush(e: EntryId)
    | DoReturn(e: EntryId)
    | DoStop(e: EntryId)

  predicate InPhase(s: System, e: EntryId, phase: Phase) {
    e in s.lives && s.lives[e].phase == phase
  }

  function Advance(s: System, e: EntryId, phase: Phase): map<EntryId, Life>
    requires e in s.lives
  {
    s.lives[e := Life(s.lives[e].acct, phase)]
  }

  /** One critical section; an action that is not due changes nothing. */
  function Step(s: System, a: Action): System {
    match a
    case DoAdd(acct, host, route) => s.(g := AddSection(s.g, acct, host, route))
    case DoRemove(acct, host, svc) => s.(g := DropSection(s.g, acct, host, svc))
    case DoPublish(acct, e) =>
      if e in s.lives then s
      else System(PublishSection(s.g, acct, e), s.lives[e := Life(acct, Published)])
    case DoFlush(e) =>
      if !InPhase(s, e, Published) then s
      else System(FlushSection(s.g, s.lives[e].acct), Advance(s, e, Flushed))
    case DoReturn(e) =>
      if !InPhase(s, e, Flushed) then s else s.(lives := Advance(s, e, Returned))
    case DoStop(e) =>
      if !InPhase(s, e, Returned) then s
      else System(StopSection(s.g, s.lives[e].acct, e), Advance(s, e, Stopped))
  }

  const START := System(Guarded(map[], map[]), map[])

  function Run(s: System, actions: seq<Action>): System
    decreases |actions|
  {
    if actions == [] then s else Run(Step(s, actions[0]), actions[1..])
  }

  /** The current entry is a live one of its account, and once it has flushed nothing is queued. */
  ghost predicate NothingStranded(s: System) {
    forall acct :: acct in s.g.entries ==>
      var e := s.g.entries[acct];
      && e in s.lives && s.lives[e].acct == acct && s.lives[e].phase != Stopped
      && (s.lives[e].phase != Published ==> acct !in s.g.pending)
  }

  lemma StepStrandsNothing(s: System, a: Action)
    requires NothingStranded(s)
    ensures NothingStranded(Step(s, a))
  {
  }

  /** In every interleaving, an account whose entry has flushed has an empty queue. */
  lemma {:induction false} RunStrandsNothing(s: System, actions: seq<Action>)
    requires NothingStranded(s)
    ensures NothingStranded(Run(s, actions))
    decreases |actions|
  {
    if actions != [] {
      StepStrandsNothing(s, actions[0]);
      RunStrandsNothing(Step(s, actions[0]), actions[1..]);
    }
  }

  ghost predicate Holds(s: System, acct: Account, p: Pending) {
    p in Get(s.g.pending, acct)
  }

  /** While an entry is published the account's queue only shrinks. */
  lemma PublishedQueueShrinks(s: System, a: Action, acct: Account, p: Pending)
    requires acct in s.g.entries && acct in Step(s, a).g.entries
    ensures Holds(Step(s, a), acct, p) ==> Holds(s, acct, p)
  {
    if a.DoRemove? {
      Q.DropMembers(Get(s.g.pending, a.acct), a.host, a.svc);
    }
  }

  /** With an entry in place nothing is queued, so an empty queue stays empty. */
  lemma {:induction false} EmptyWhilePublished(s: System, acct: Account, actions: seq<Action>)
    requires acct !in s.g.pending && acct in s.g.entries
    requires forall i :: 0 <= i <= |actions| ==> acct in Run(s, actions[..i]).g.entries
    ensures forall i :: 0 <= i <= |actions| ==> acct !in Run(s, actions[..i]).g.pending
    decreases |actions|
  {
    assert Run(s, actions[..0]) == s;
    if actions != [] {
      var s1 := Step(s, actions[0]);
      forall i | 1 <= i <= |actions|
        ensures Run(s, actions[..i]) == Run(s1, actions[1..][..i - 1])
      {
        assert actions[..i][1..] == actions[1..][..i - 1];
      }
      assert forall i :: 0 <= i <= |actions[1..]| ==> Run(s1, actions[1..][..i]) == Run(s, actions[..i + 1]);
      assert acct in Run(s, actions[..1]).g.entries;
      assert acct !in s1.g.pending;
      EmptyWhilePublished(s1, acct, actions[1..]);
      forall i | 0 <= i <= |actions|
        ensures acct !in Run(s, actions[..i]).g.pending
      {
        if i > 0 {
          assert acct !in Run(s1, actions[1..][..i - 1]).g.pending;
        }
      }
    }
  }

  /** After an entry of any reachable state has flushed, and until the account's entry is
      removed, the account's queue stays empty through any further steps. */
  lemma FlushedQueueStaysEmpty(before: seq<Action>, acct: Account, actions: seq<Action>)
    requires var s := Run(START, before);
             && acct in s.g.entries && !InPhase(s, s.g.entries[acct], Published)
             && (forall i :: 0 <= i <= |actions| ==> acct in Run(s, actions[..i]).g.entries)
    ensures forall i :: 0 <= i <= |actions| ==> acct !in Run(Run(START, before), actions[..i]).g.pending
  {
    RunStrandsNothing(START, before);
    EmptyWhilePublished(Run(START, before), acct, actions);
  }

  /** In every reachable state a queued route leaves the queue only by being removed,
      overwritten under its key, or handed to a flush: teardown never discards one. */
  lemma QueuedRouteLeavesOnlyBy(actions: seq<Action>, a: Action, acct: Account, p: Pending)
    requires Holds(Run(START, actions), acct, p)
    requires !Holds(Step(Run(START, actions), a), acct, p)
    ensures var s := Run(START, actions);
            || (a.DoRemove? && a.acct == acct && Q.SameKey(p, a.host, a.svc))
            || (a.DoAdd? && a.acct == acct && Q.SameKey(p, a.host, a.route.service))
            || (a.DoFlush? && InPhase(s, a.e, Published) && s.lives[a.e].acct == acct)
  {
    var s := Run(START, actions);
    RunStrandsNothing(START, actions);
    match a
    case DoAdd(acct', host, route) =>
      if acct' == acct && acct !in s.g.entries {
        var q := Get(s.g.pending, acct);
        if Q.HasKey(q, host, route.service) {
          ReplaceKeepsOthers(q, host, route);
        }
      }
    case DoRemove(acct', host, svc) =>
      Q.DropMembers(Get(s.g.pending, acct'), host, svc);
    case DoStop(e) =>
    case DoFlush(e) =>
    case DoPublish(_, _) =>
    case DoReturn(_) =>
  }

  lemma {:induction false} ReplaceKeepsOthers(q: seq<Pending>, host: string, route: Route)
    ensures forall p :: p in q && !Q.SameKey(p, host, route.service) ==> p in Q.ReplaceFirst(q, host, route)
  {
    if q != [] {
      assert q == Q.Init(q) + [Q.Last(q)];
      ReplaceKeepsOthers(Q.Init(q), host, route);
    }
  }

  /** When an account's entries do not overlap, the flushed batch goes to the router
      that later additions use: every live entry is the published one. */
  ghost predicate OneAtATime(s: System) {
    forall e :: e in s.lives && s.lives[e].phase != Stopped ==>
      s.lives[e].acct in s.g.entries && s.g.entries[s.lives[e].acct] == e
  }

  ghost predicate Sequential(s: System, a: Action) {
    a.DoPublish? ==> forall e :: e in s.lives && s.lives[e].acct == a.acct ==> s.lives[e].phase == Stopped
  }

  ghost predicate SequentialRun(s: System, actions: seq<Action>)
    decreases |actions|
  {
    actions == [] || (Sequential(s, actions[0]) && SequentialRun(Step(s, actions[0]), actions[1..]))
  }

  lemma StepOneAtATime(s: System, a: Action)
    requires NothingStranded(s) && OneAtATime(s) && Sequential(s, a)
    ensures OneAtATime(Step(s, a))
  {
  }

  lemma {:induction false} FlushReachesCurrentRouter(s: System, actions: seq<Action>)
    requires NothingStranded(s) && OneAtATime(s) && SequentialRun(s, actions)
    ensures OneAtATime(Run(s, actions))
    decreases |actions|
  {
    if actions != [] {
      StepStrandsNothing(s, actions[0]);
      StepOneAtATime(s, actions[0]);
      FlushReachesCurrentRouter(Step(s, actions[0]), actions[1..]);
    }
  }
}
