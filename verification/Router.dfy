/** The SNI router (proxy/internal/tcp/router.go): routes per lower-cased host
    in registration order, at most one per service, plus an optional fallback. */
module Router {
  import opened Common

  type ServiceId = string

  datatype RouteKind = HttpRoute | TcpRoute

  datatype Route = Route(kind: RouteKind, account: string, service: ServiceId, domain: string, target: string)

  datatype Router = Router(routes: map<string, seq<Route>>, fallback: Option<Route>)

  const EMPTY := Router(map[], None)

  predicate IsEmpty(r: Router) {
    r.routes == map[] && r.fallback.None?
  }

  /** Replace the route of the same service in place, or append. */
  function Upsert(list: seq<Route>, route: Route): (r: seq<Route>)
    ensures r != []
  {
    if list == [] then [route]
    else if list[0].service == route.service then [route] + list[1..]
    else [list[0]] + Upsert(list[1..], route)
  }

  /** All routes except those of `svc`, in order. */
  function Without(list: seq<Route>, svc: ServiceId): seq<Route> {
    if list == [] then []
    else if list[0].service == svc then Without(list[1..], svc)
    else [list[0]] + Without(list[1..], svc)
  }

  predicate Serves(list: seq<Route>, svc: ServiceId) {
    exists r :: r in list && r.service == svc
  }

  function AddRoute(t: Router, host: string, route: Route): Router {
    var h := ToLower(host);
    if h == "" then t else t.(routes := t.routes[h := Upsert(Get(t.routes, h), route)])
  }

  function RemoveRoute(t: Router, host: string, svc: ServiceId): Router {
    var h := ToLower(host);
    var rest := Without(Get(t.routes, h), svc);
    t.(routes := if rest == [] then t.routes - {h} else t.routes[h := rest])
  }

  function SetFallback(t: Router, route: Route): Router {
    t.(fallback := Some(route))
  }

  /** Clears the fallback whichever service owns it. */
  function RemoveFallback(t: Router): Router {
    t.(fallback := None)
  }

  /** No host is kept with an empty list, and the empty host has no routes. */
  ghost predicate WellFormed(t: Router) {
    "" !in t.routes && forall h :: h in t.routes ==> t.routes[h] != []
  }

  lemma {:induction false} UpsertMembers(list: seq<Route>, route: Route)
    ensures route in Upsert(list, route)
    ensures forall r :: r in Upsert(list, route) ==> r == route || r in list
    ensures forall r :: r in list && r.service != route.service ==> r in Upsert(list, route)
  {
    if list != [] && list[0].service != route.service {
      UpsertMembers(list[1..], route);
    }
  }

  lemma {:induction false} WithoutMembers(list: seq<Route>, svc: ServiceId)
    ensures forall r :: r in Without(list, svc) <==> r in list && r.service != svc
  {
    if list != [] {
      WithoutMembers(list[1..], svc);
      assert list == [list[0]] + list[1..];
    }
  }

  lemma {:induction false} WithoutAbsent(list: seq<Route>, svc: ServiceId)
    requires !Serves(list, svc)
    ensures Without(list, svc) == list
  {
    if list != [] {
      assert list[0] in list;
      assert forall r :: r in list[1..] ==> r in list;
      WithoutAbsent(list[1..], svc);
    }
  }

  /** Removing a freshly added service restores the list. */
  lemma {:induction false} WithoutUpsert(list: seq<Route>, route: Route)
    requires !Serves(list, route.service)
    ensures Without(Upsert(list, route), route.service) == list
  {
    if list != [] {
      assert list[0] in list;
      assert forall r :: r in list[1..] ==> r in list;
      WithoutUpsert(list[1..], route);
    } else {
      assert Without([route], route.service) == Without([route][1..], route.service);
    }
  }

  lemma AddRouteWellFormed(t: Router, host: string, route: Route)
    requires WellFormed(t)
    ensures WellFormed(AddRoute(t, host, route))
  {
  }

  lemma RemoveRouteWellFormed(t: Router, host: string, svc: ServiceId)
    requires WellFormed(t)
    ensures WellFormed(RemoveRoute(t, host, svc))
  {
  }

  lemma {:induction false} WithoutUpsertSame(list: seq<Route>, r: Route)
    ensures Without(Upsert(list, r), r.service) == Without(list, r.service)
  {
    if list == [] {
      assert Upsert(list, r)[1..] == [];
    } else if list[0].service == r.service {
      assert Upsert(list, r)[1..] == list[1..];
    } else {
      WithoutUpsertSame(list[1..], r);
      assert Upsert(list, r)[1..] == Upsert(list[1..], r);
    }
  }

  /** A removal also takes away a route added just before, under any spelling of the host. */
  lemma RemoveAddSame(t: Router, h1: string, r: Route, h2: string)
    requires ToLower(h1) == ToLower(h2)
    ensures RemoveRoute(AddRoute(t, h1, r), h2, r.service) == RemoveRoute(t, h2, r.service)
  {
    var h := ToLower(h1);
    WithoutUpsertSame(Get(t.routes, h), r);
    assert t.routes[h := Upsert(Get(t.routes, h), r)] - {h} == t.routes - {h};
  }

  /** Registering a host for a service that has none there, then removing it, restores the router. */
  lemma RemoveUndoesAdd(t: Router, host: string, route: Route)
    requires WellFormed(t)
    requires !Serves(Get(t.routes, ToLower(host)), route.service)
    ensures RemoveRoute(AddRoute(t, host, route), host, route.service) == t
  {
    var h := ToLower(host);
    if h == "" {
      assert Get(t.routes, h) == [];
      assert t.routes - {h} == t.routes;
    } else {
      WithoutUpsert(Get(t.routes, h), route);
      assert t.routes[h := Upsert(Get(t.routes, h), route)] - {h} == t.routes - {h};
      if h in t.routes {
        assert t.routes[h := t.routes[h]] == t.routes;
      } else {
        assert t.routes - {h} == t.routes;
      }
    }
  }

  /** Removing a service that has no route for the host changes nothing. */
  lemma RemoveAbsent(t: Router, host: string, svc: ServiceId)
    requires WellFormed(t)
    requires !Serves(Get(t.routes, ToLower(host)), svc)
    ensures RemoveRoute(t, host, svc) == t
  {
    var h := ToLower(host);
    WithoutAbsent(Get(t.routes, h), svc);
    if h in t.routes {
      assert t.routes[h := t.routes[h]] == t.routes;
    } else {
      assert t.routes - {h} == t.routes;
    }
  }
}
