/** The cached longest-first order of the domain mappings (sortedDomains in
    client/anonymize/anonymize.go), rebuilt only when the lengths differ. */
module SortedDomains {
  import opened Common
  import AD = AnonymizeDomain
  import IP = AnonymizeIP

  // --------------------------------------------------------------- the order

  /** Longer first, then lexicographic. */
  predicate Before(x: string, y: string) {
    |x| > |y| || (|x| == |y| && x != y && LexLeq(x, y))
  }

  lemma {:induction false} LexTotal(x: string, y: string)
    ensures LexLeq(x, y) || LexLeq(y, x)
    ensures LexLeq(x, y) && LexLeq(y, x) ==> x == y
  {
    if x != [] && y != [] {
      LexTotal(x[1..], y[1..]);
      if x[0] == y[0] && x[1..] == y[1..] {
        assert x == [x[0]] + x[1..] && y == [y[0]] + y[1..];
      }
    }
  }

  lemma {:induction false} LexTransitive(x: string, y: string, z: string)
    requires LexLeq(x, y) && LexLeq(y, z)
    ensures LexLeq(x, z)
  {
    if x != [] && y != [] && z != [] && x[0] == y[0] && y[0] == z[0] {
      LexTransitive(x[1..], y[1..], z[1..]);
    }
  }

  lemma BeforeTransitive(x: string, y: string, z: string)
    requires Before(x, y) && Before(y, z)
    ensures Before(x, z)
  {
    if |x| == |y| && |y| == |z| {
      LexTransitive(x, y, z);
      LexTotal(x, y);
      LexTotal(y, z);
    }
  }

  lemma BeforeTotal(x: string, y: string)
    ensures x != y ==> Before(x, y) || Before(y, x)
    ensures !(Before(x, y) && Before(y, x))
  {
    LexTotal(x, y);
  }

  ghost predicate Ascending(order: seq<string>) {
    forall i, j :: 0 <= i < j < |order| ==> Before(order[i], order[j])
  }

  /** The keys, each once, in order. */
  ghost predicate IsOrdering(order: seq<string>, keys: set<string>) {
    Ascending(order) && forall k :: k in order <==> k in keys
  }

  /** There is only one such ordering, however the map was walked. */
  lemma {:induction false} OrderingUnique(a: seq<string>, b: seq<string>, keys: set<string>)
    requires IsOrdering(a, keys) && IsOrdering(b, keys)
    ensures a == b
    decreases |a|
  {
    assert Elements(a) == keys && Elements(b) == keys;
    OrderingLength(a);
    OrderingLength(b);
    if a != [] {
      assert a[0] in b;
      assert b[0] in a;
      var i :| 0 <= i < |b| && b[i] == a[0];
      var j :| 0 <= j < |a| && a[j] == b[0];
      if i > 0 && j > 0 {
        BeforeTotal(a[0], b[0]);
      }
      var x := a[0];
      forall k ensures k in a[1..] <==> k in keys - {x} {
        Rest(a, keys, k);
      }
      forall k ensures k in b[1..] <==> k in keys - {x} {
        Rest(b, keys, k);
      }
      OrderingUnique(a[1..], b[1..], keys - {x});
      assert a == [x] + a[1..] && b == [x] + b[1..];
    }
  }

  lemma Rest(a: seq<string>, keys: set<string>, k: string)
    requires IsOrdering(a, keys) && a != []
    ensures k in a[1..] <==> k in keys - {a[0]}
  {
    assert a == [a[0]] + a[1..];
    if k in a[1..] {
      var i :| 0 <= i < |a[1..]| && a[1..][i] == k;
      assert Before(a[0], a[i + 1]);
      BeforeTotal(a[0], k);
    }
    assert k in a <==> k in keys;
  }

  // ----------------------------------------------------------------- sorting

  function Insert(order: seq<string>, x: string): seq<string> {
    if order == [] then [x]
    else if Before(x, order[0]) then [x] + order
    else [order[0]] + Insert(order[1..], x)
  }

  /** slices.SortFunc with the comparison above. */
  function Sort(xs: seq<string>): seq<string> {
    if xs == [] then [] else Insert(Sort(xs[..|xs| - 1]), xs[|xs| - 1])
  }

  lemma {:induction false} InsertOrdering(order: seq<string>, keys: set<string>, x: string)
    requires IsOrdering(order, keys) && x !in keys
    ensures IsOrdering(Insert(order, x), keys + {x})
    decreases |order|
  {
    if order == [] {
      assert forall k :: k in keys ==> k in order;
      assert keys + {x} == {x};
    } else {
      var y, rest := order[0], order[1..];
      assert y in order;
      BeforeTotal(x, y);
      if Before(x, y) {
        var r := [x] + order;
        forall i | 0 <= i < |order| ensures Before(x, order[i]) {
          if i > 0 { BeforeTransitive(x, y, order[i]); }
        }
      } else {
        forall k ensures k in rest <==> k in keys - {y} { Rest(order, keys, k); }
        InsertOrdering(rest, keys - {y}, x);
        var r := Insert(rest, x);
        forall i | 0 <= i < |r| ensures Before(y, r[i]) {
          assert r[i] in r;
          if r[i] != x {
            assert r[i] in rest;
            var j :| 0 <= j < |rest| && rest[j] == r[i];
            assert rest[j] == order[j + 1];
          }
        }
        assert (keys - {y}) + {x} + {y} == keys + {x};
      }
    }
  }

  predicate Distinct(xs: seq<string>) {
    forall i, j :: 0 <= i < j < |xs| ==> xs[i] != xs[j]
  }

  function Elements(xs: seq<string>): set<string> { set x | x in xs }

  lemma {:induction false} SortOrdering(xs: seq<string>)
    requires Distinct(xs)
    ensures IsOrdering(Sort(xs), Elements(xs))
  {
    if xs != [] {
      var i, x := xs[..|xs| - 1], xs[|xs| - 1];
      SortOrdering(i);
      assert xs == i + [x];
      assert forall k :: 0 <= k < |i| ==> i[k] == xs[k] != x;
      InsertOrdering(Sort(i), Elements(i), x);
      assert Elements(xs) == Elements(i) + {x};
    }
  }

  // ------------------------------------------------------------------- cache

  /** The anonymizer together with its cached order. */
  datatype Cached = Cached(s: AD.State, order: seq<string>)

  /** `walk` is the map iteration order should the cache be rebuilt. */
  ghost predicate Walks(walk: seq<string>, c: Cached) {
    Distinct(walk) && Elements(walk) == c.s.domains.Keys
  }

  function Lookup(c: Cached, walk: seq<string>): (Cached, seq<string>) {
    if |c.order| == |c.s.domains| then (c, c.order)
    else (c.(order := Sort(walk)), Sort(walk))
  }

  datatype Op = Call(call: AD.Call) | Sorted(walk: seq<string>)

  ghost predicate Enabled(c: Cached, op: Op) {
    op.Sorted? ==> Walks(op.walk, c)
  }

  ghost function Step(c: Cached, op: Op): Cached
    requires Enabled(c, op)
  {
    match op
    case Call(call) => c.(s := AD.Step(c.s, call))
    case Sorted(walk) => Lookup(c, walk).0
  }

  ghost predicate Playable(c: Cached, ops: seq<Op>)
    decreases |ops|
  {
    ops == [] || (Enabled(c, ops[0]) && Playable(Step(c, ops[0]), ops[1..]))
  }

  ghost function Run(c: Cached, ops: seq<Op>): Cached
    requires Playable(c, ops)
    decreases |ops|
  {
    if ops == [] then c else Run(Step(c, ops[0]), ops[1..])
  }

  /** The cache orders a set of keys the map still has. */
  ghost predicate CacheSound(c: Cached) {
    AD.Sound(c.s) && IsOrdering(c.order, Elements(c.order)) && Elements(c.order) <= c.s.domains.Keys
  }

  /** Equal lengths can only mean equal key sets. */
  lemma SameLengthSameKeys(c: Cached)
    requires CacheSound(c) && |c.order| == |c.s.domains|
    ensures Elements(c.order) == c.s.domains.Keys
  {
    OrderingLength(c.order);
    SubsetOfSameSize(Elements(c.order), c.s.domains.Keys);
  }

  lemma {:induction false} OrderingLength(order: seq<string>)
    requires IsOrdering(order, Elements(order))
    ensures |Elements(order)| == |order|
    decreases |order|
  {
    if order != [] {
      var i, x := order[..|order| - 1], order[|order| - 1];
      assert order == i + [x];
      OrderingLength(i);
      forall k | 0 <= k < |i| ensures i[k] != x {
        assert Before(order[k], order[|order| - 1]);
        BeforeTotal(order[k], x);
      }
      assert Elements(order) == Elements(i) + {x};
    }
  }

  lemma SubsetOfSameSize<T>(a: set<T>, b: set<T>)
    requires a <= b && |a| == |b|
    ensures a == b
  {
    assert b == a + (b - a);
    assert |b| == |a| + |b - a|;
  }

  lemma LookupOrdered(c: Cached, walk: seq<string>)
    requires CacheSound(c) && Walks(walk, c)
    ensures IsOrdering(Lookup(c, walk).1, c.s.domains.Keys)
    ensures CacheSound(Lookup(c, walk).0)
  {
    if |c.order| == |c.s.domains| {
      SameLengthSameKeys(c);
    } else {
      SortOrdering(walk);
      assert Elements(Sort(walk)) == c.s.domains.Keys;
    }
  }

  lemma {:induction false} RunCacheSound(c: Cached, ops: seq<Op>)
    requires CacheSound(c) && Playable(c, ops)
    ensures CacheSound(Run(c, ops))
    decreases |ops|
  {
    if ops != [] {
      match ops[0] {
        case Call(call) => AD.StepSound(c.s, call);
        case Sorted(walk) => LookupOrdered(c, walk);
      }
      RunCacheSound(Step(c, ops[0]), ops[1..]);
    }
  }

  /** In every state any run of anonymizing and sorting reaches, the order returned is the
      longest-first ordering of exactly the current keys, although the cache is kept
      whenever its length matches, and whatever order the map is walked in. */
  lemma SortedDomainsIsExact(level: IP.Level, ops: seq<Op>, walk: seq<string>, other: seq<string>)
    requires Playable(Cached(AD.New(level), []), ops)
    requires var c := Run(Cached(AD.New(level), []), ops); Walks(walk, c) && Walks(other, c)
    ensures var c := Run(Cached(AD.New(level), []), ops);
            && IsOrdering(Lookup(c, walk).1, c.s.domains.Keys)
            && Lookup(c, walk).1 == Lookup(c, other).1
  {
    var c0 := Cached(AD.New(level), []);
    RunCacheSound(c0, ops);
    var c := Run(c0, ops);
    LookupOrdered(c, walk);
    LookupOrdered(c, other);
    OrderingUnique(Lookup(c, walk).1, Lookup(c, other).1, c.s.domains.Keys);
  }
}
