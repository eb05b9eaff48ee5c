/** Address anonymization (client/anonymize/anonymize.go): pool allocators with
    high-water marks and a memo map, over whole runs of calls. */
module AnonymizeIP {
  import opened NetIP

  datatype Level = LevelDefault | LevelStrict

  /** Public and internal pools, one per family. */
  datatype Pool = Public4 | Public6 | Internal4 | Internal6

  /** 198.51.100.0, 2001:db8:ffff::, 198.18.0.0 and 2001:db8:1::. */
  function Start(p: Pool): nat {
    match p
    case Public4 => 198 * TWO24 + 51 * TWO16 + 100 * 256
    case Public6 => 0x2001_0db8_ffff * TWO80
    case Internal4 => 198 * TWO24 + 18 * TWO16
    case Internal6 => 0x2001_0db8_0001 * TWO80
  }

  predicate Is4(p: Pool) { p == Public4 || p == Internal4 }

  predicate InFamily(p: Pool, v: nat) {
    v < if Is4(p) then TWO32 else TWO128
  }

  function PoolAddr(p: Pool, v: nat): Addr
    requires InFamily(p, v)
  {
    if Is4(p) then V4(v) else V6(v, "")
  }

  datatype State = State(
    level: Level, memo: map<Addr, Addr>,
    public4: Addr, public6: Addr, internal4: Addr, internal6: Addr)

  function New(level: Level): State {
    State(level, map[], V4(Start(Public4)), V6(Start(Public6), ""), V4(Start(Internal4)), V6(Start(Internal6), ""))
  }

  /** The pool's high-water mark: the next address it hands out. */
  function Current(s: State, p: Pool): Addr {
    match p
    case Public4 => s.public4
    case Public6 => s.public6
    case Internal4 => s.internal4
    case Internal6 => s.internal6
  }

  function SetCurrent(s: State, p: Pool, a: Addr): State {
    match p
    case Public4 => s.(public4 := a)
    case Public6 => s.(public6 := a)
    case Internal4 => s.(internal4 := a)
    case Internal6 => s.(internal6 := a)
  }

  predicate IsCGNAT(a: Addr) { a.V4? && a.v / TWO22 == 401 }

  predicate IsWellKnown(a: Addr) {
    match a
    case Invalid => false
    case V4(v) => v in {0x08080808, 0x08080404, 0x01010101, 0x01000001, 0x09090909, 0x95707070, 0x80000000}
    case V6(v, zone) =>
      zone == "" && v in {
        0x2001_4860_4860_0000_0000_0000_0000_8888, 0x2001_4860_4860_0000_0000_0000_0000_8844,
        0x2606_4700_4700_0000_0000_0000_0000_1111, 0x2606_4700_4700_0000_0000_0000_0000_1001,
        0x2620_00fe_0000_0000_0000_0000_0000_00fe, 0x2620_00fe_0000_0000_0000_0000_0000_0009,
        0x8000_0000_0000_0000_0000_0000_0000_0000}
  }

  predicate IsInternal(a: Addr) {
    (a.V4? && IsPrivate(a)) || IsLinkLocalUnicast(a) || IsCGNAT(a)
  }

  predicate InPool(s: State, a: Addr, p: Pool) {
    Leq(PoolAddr(p, Start(p)), a) && Leq(a, Current(s, p))
  }

  /** Within what the pools of the address's family have handed out, mark included. */
  predicate InAnonymizedRange(s: State, a: Addr) {
    if a.V4? then InPool(s, a, Public4) || InPool(s, a, Internal4)
    else InPool(s, a, Public6) || InPool(s, a, Internal6)
  }

  predicate Preserved(a: Addr) {
    IsLoopback(a) || IsUnspecified(a) || IsMulticast(a) || IsWellKnown(a)
  }

  /** Returned unchanged, apart from unmapping. */
  predicate Passes(s: State, a: Addr) {
    Preserved(a) || InAnonymizedRange(s, a) || (IsInternal(a) && s.level == LevelDefault)
  }

  function PoolFor(level: Level, a: Addr): Pool {
    if level == LevelStrict && (IsInternal(a) || IsPrivate(a))
    then if a.V4? then Internal4 else Internal6
    else if a.V4? then Public4 else Public6
  }

  function NextAnonIP(s: State, a: Addr): (State, Addr) {
    var p := PoolFor(s.level, a);
    (SetCurrent(s, p, Next(Current(s, p))), Current(s, p))
  }

  function Anonymize(s: State, ip: Addr): (State, Addr) {
    var a := Unmap(ip);
    if Passes(s, a) then (s, a)
    else if a in s.memo then (s, s.memo[a])
    else
      var (s1, anon) := NextAnonIP(s, a);
      (s1.(memo := s1.memo[a := anon]), anon)
  }

  function Run(s: State, calls: seq<Addr>): State
    decreases |calls|
  {
    if calls == [] then s else Run(Anonymize(s, calls[0]).0, calls[1..])
  }

  lemma {:induction false} RunSplit(s: State, a: seq<Addr>, b: seq<Addr>)
    ensures Run(s, a + b) == Run(Run(s, a), b)
    decreases |a|
  {
    if a == [] {
      assert a + b == b;
    } else {
      assert (a + b)[1..] == a[1..] + b;
      RunSplit(Anonymize(s, a[0]).0, a[1..], b);
    }
  }

  lemma RunOne(s: State, ip: Addr)
    ensures Run(s, [ip]) == Anonymize(s, ip).0
  {
    assert [ip][1..] == [];
  }

  predicate Exhausted(s: State) {
    exists p: Pool :: Current(s, p).Invalid?
  }

  // ---------------------------------------------------------------- invariants

  /** The pool has handed out exactly the values from its start up to `Mark`. */
  ghost function Mark(s: State, p: Pool): nat
    requires !Current(s, p).Invalid?
  {
    Current(s, p).v
  }

  ghost predicate MarksValid(s: State) {
    forall p: Pool ::
      && !Current(s, p).Invalid?
      && Mark(s, p) >= Start(p) && InFamily(p, Mark(s, p))
      && Current(s, p) == PoolAddr(p, Mark(s, p))
  }

  ghost predicate HandedOut(s: State, p: Pool, v: nat)
    requires MarksValid(s)
  {
    Start(p) <= v < Mark(s, p)
  }

  /** Some address of the pool's class is replaced by the value. */
  ghost predicate Held(s: State, p: Pool, v: nat) {
    InFamily(p, v) && exists a :: a in s.memo && PoolFor(s.level, a) == p && s.memo[a] == PoolAddr(p, v)
  }

  /** A replacement is a handed-out value of the pool chosen for its original. */
  ghost predicate Issued(s: State, a: Addr)
    requires MarksValid(s) && a in s.memo
  {
    var p := PoolFor(s.level, a);
    exists v: nat :: HandedOut(s, p, v) && s.memo[a] == PoolAddr(p, v)
  }

  ghost predicate Consistent(s: State) {
    && MarksValid(s)
    && (forall a :: a in s.memo ==> Issued(s, a))
    && DistinctInPools(s.level, s.memo)
    && (forall p: Pool, v :: HandedOut(s, p, v) ==> Held(s, p, v))
  }

  lemma NewConsistent(level: Level)
    ensures Consistent(New(level))
  {
  }

  /** A run that ends unexhausted was never exhausted. */
  lemma ExhaustionIsFinal(s: State, ip: Addr)
    requires Exhausted(s)
    ensures Exhausted(Anonymize(s, ip).0)
  {
    var p: Pool :| Current(s, p).Invalid?;
    assert Current(Anonymize(s, ip).0, p).Invalid?;
  }

  /** The state after `a` takes the next address of pool `p`. */
  ghost function Allocated(s: State, a: Addr, p: Pool): State {
    SetCurrent(s, p, Next(Current(s, p))).(memo := s.memo[a := Current(s, p)])
  }

  lemma AllocatedMarks(s: State, a: Addr, p: Pool)
    requires MarksValid(s) && !Next(Current(s, p)).Invalid?
    ensures var s' := Allocated(s, a, p);
            && MarksValid(s') && s'.level == s.level
            && (forall q: Pool :: Mark(s', q) == if q == p then Mark(s, p) + 1 else Mark(s, q))
  {
    var s' := Allocated(s, a, p);
    assert forall q: Pool :: Current(s', q) == if q == p then Next(Current(s, p)) else Current(s, q);
  }

  lemma AllocatedIssued(s: State, a: Addr, p: Pool)
    requires Consistent(s) && !Next(Current(s, p)).Invalid? && PoolFor(s.level, a) == p
    ensures var s' := Allocated(s, a, p); MarksValid(s') && forall b :: b in s'.memo ==> Issued(s', b)
  {
    AllocatedMarks(s, a, p);
    var s' := Allocated(s, a, p);
    forall b | b in s'.memo ensures Issued(s', b) {
      if b == a {
        assert HandedOut(s', p, Mark(s, p));
      } else {
        var q := PoolFor(s.level, b);
        assert Issued(s, b);
        var v: nat :| HandedOut(s, q, v) && s.memo[b] == PoolAddr(q, v);
        assert HandedOut(s', q, v);
      }
    }
  }

  lemma AllocatedHeld(s: State, a: Addr, p: Pool)
    requires Consistent(s) && !Next(Current(s, p)).Invalid? && PoolFor(s.level, a) == p && a !in s.memo
    ensures var s' := Allocated(s, a, p);
            MarksValid(s') && forall q: Pool, v :: HandedOut(s', q, v) ==> Held(s', q, v)
  {
    AllocatedMarks(s, a, p);
    var s' := Allocated(s, a, p);
    forall q: Pool, v: nat | HandedOut(s', q, v) ensures Held(s', q, v) {
      if q == p && v == Mark(s, p) {
        assert s'.memo[a] == PoolAddr(p, v);
      } else {
        assert HandedOut(s, q, v);
        HeldStays(s, a, p, q, v);
      }
    }
  }

  lemma HeldStays(s: State, a: Addr, p: Pool, q: Pool, v: nat)
    requires Held(s, q, v) && a !in s.memo
    ensures Held(Allocated(s, a, p), q, v)
  {
    var b :| b in s.memo && PoolFor(s.level, b) == q && s.memo[b] == PoolAddr(q, v);
    assert Allocated(s, a, p).memo[b] == PoolAddr(q, v);
  }

  /** No address of the pool's class already holds the address now handed out. */
  lemma CurrentUnheld(s: State, p: Pool, b: Addr)
    requires Consistent(s) && b in s.memo && PoolFor(s.level, b) == p
    ensures s.memo[b] != Current(s, p)
  {
    assert Issued(s, b);
    var v: nat :| HandedOut(s, p, v) && s.memo[b] == PoolAddr(p, v);
  }

  ghost predicate DistinctInPools(level: Level, memo: map<Addr, Addr>) {
    forall a, b :: (a in memo && b in memo && PoolFor(level, a) == PoolFor(level, b) && memo[a] == memo[b]) ==> a == b
  }

  lemma AllocatedDistinct(s: State, a: Addr, p: Pool)
    requires Consistent(s) && PoolFor(s.level, a) == p && a !in s.memo
    ensures DistinctInPools(s.level, s.memo[a := Current(s, p)])
  {
    forall b | b in s.memo && PoolFor(s.level, b) == p ensures s.memo[b] != Current(s, p) {
      CurrentUnheld(s, p, b);
    }
  }

  lemma AllocateConsistent(s: State, a: Addr, p: Pool)
    requires Consistent(s) && !Next(Current(s, p)).Invalid? && PoolFor(s.level, a) == p && a !in s.memo
    ensures Consistent(Allocated(s, a, p)) && Extends(s, Allocated(s, a, p))
  {
    AllocatedMarks(s, a, p);
    AllocatedIssued(s, a, p);
    AllocatedHeld(s, a, p);
    AllocatedDistinct(s, a, p);
    assert Allocated(s, a, p).memo == s.memo[a := Current(s, p)];
  }

  /** One call keeps the state consistent and only extends it. */
  lemma StepExtends(s: State, ip: Addr)
    requires Consistent(s) && !Exhausted(Anonymize(s, ip).0)
    ensures Consistent(Anonymize(s, ip).0) && Extends(s, Anonymize(s, ip).0)
  {
    var a := Unmap(ip);
    if !Passes(s, a) && a !in s.memo {
      var p := PoolFor(s.level, a);
      var s' := Anonymize(s, ip).0;
      assert s' == Allocated(s, a, p);
      assert Current(s', p) == Next(Current(s, p));
      AllocateConsistent(s, a, p);
    }
  }

  lemma {:induction false} RunExhaustion(s: State, calls: seq<Addr>)
    requires Exhausted(s)
    ensures Exhausted(Run(s, calls))
    decreases |calls|
  {
    if calls != [] {
      ExhaustionIsFinal(s, calls[0]);
      RunExhaustion(Anonymize(s, calls[0]).0, calls[1..]);
    }
  }

  // ------------------------------------------------------------ later states

  /** What later states keep: the level, every memo entry, and every mark or more. */
  ghost predicate Extends(s: State, s': State)
    requires MarksValid(s) && MarksValid(s')
  {
    && s'.level == s.level
    && (forall a :: a in s.memo ==> a in s'.memo && s'.memo[a] == s.memo[a])
    && (forall p: Pool :: Mark(s, p) <= Mark(s', p))
  }

  lemma ExtendsTransitive(s: State, s1: State, s2: State)
    requires MarksValid(s) && MarksValid(s1) && MarksValid(s2)
    requires Extends(s, s1) && Extends(s1, s2)
    ensures Extends(s, s2)
  {
  }

  lemma {:induction false} RunExtends(s: State, calls: seq<Addr>)
    requires Consistent(s) && !Exhausted(Run(s, calls))
    ensures Consistent(Run(s, calls)) && Extends(s, Run(s, calls))
    decreases |calls|
  {
    if calls != [] {
      var s1 := Anonymize(s, calls[0]).0;
      if Exhausted(s1) {
        RunExhaustion(s1, calls[1..]);
      }
      StepExtends(s, calls[0]);
      RunExtends(s1, calls[1..]);
      ExtendsTransitive(s, s1, Run(s1, calls[1..]));
    }
  }

  lemma InPoolIs(s: State, a: Addr, p: Pool)
    requires MarksValid(s)
    ensures a.V4? && Is4(p) ==> (InPool(s, a, p) <==> Start(p) <= a.v <= Mark(s, p))
    ensures a.V6? && !Is4(p) ==>
              (InPool(s, a, p) <==> Start(p) <= a.v && (a.v < Mark(s, p) || (a.v == Mark(s, p) && a.zone == "")))
    ensures a.Invalid? ==> !InPool(s, a, p)
  {
  }

  lemma RangeGrows(s: State, s': State, a: Addr)
    requires MarksValid(s) && MarksValid(s') && Extends(s, s')
    ensures InAnonymizedRange(s, a) ==> InAnonymizedRange(s', a)
    ensures Passes(s, a) ==> Passes(s', a)
  {
    forall p: Pool
      ensures InPool(s, a, p) && (a.V4? <==> Is4(p)) ==> InPool(s', a, p)
    {
      InPoolIs(s, a, p);
      InPoolIs(s', a, p);
    }
  }

  /** A replacement lies in its pool's range and is never IPv4-mapped. */
  lemma IssuedPasses(s: State, a: Addr)
    requires Consistent(s) && a in s.memo
    ensures InAnonymizedRange(s, s.memo[a]) && Unmap(s.memo[a]) == s.memo[a]
  {
    assert Issued(s, a);
    var p := PoolFor(s.level, a);
    InPoolIs(s, s.memo[a], p);
  }

  /** Whatever an anonymizer returns, it returns unchanged at every later call,
      whatever is anonymized in between, until a pool is exhausted. */
  lemma AnonymizeIsIdempotent(level: Level, before: seq<Addr>, ip: Addr, between: seq<Addr>)
    requires var (s1, r) := Anonymize(Run(New(level), before), ip); !Exhausted(Run(s1, between))
    ensures var (s1, r) := Anonymize(Run(New(level), before), ip);
            var s2 := Run(s1, between);
            Anonymize(s2, r) == (s2, r)
  {
    var s := Run(New(level), before);
    var (s1, r) := Anonymize(s, ip);
    var s2 := Run(s1, between);
    Reached(level, before, ip, between);
    RunExtends(s1, between);
    ExtendsTransitive(s, s1, s2);
    var a := Unmap(ip);
    if Passes(s, a) {
      RangeGrows(s, s2, a);
    } else {
      IssuedPasses(s1, a);
      RangeGrows(s1, s2, r);
    }
  }

  lemma Reached(level: Level, before: seq<Addr>, ip: Addr, between: seq<Addr>)
    requires !Exhausted(Run(Anonymize(Run(New(level), before), ip).0, between))
    ensures var s := Run(New(level), before);
            Consistent(s) && Consistent(Anonymize(s, ip).0) && Extends(s, Anonymize(s, ip).0)
  {
    var s := Run(New(level), before);
    var s1 := Anonymize(s, ip).0;
    if Exhausted(s1) { RunExhaustion(s1, between); }
    if Exhausted(s) { ExhaustionIsFinal(s, ip); }
    NewConsistent(level);
    RunExtends(New(level), before);
    StepExtends(s, ip);
  }

  /** A replacement given to an address outside the range is a different address. */
  lemma ReplacementDiffers(s: State, ip: Addr)
    requires Consistent(s) && !Passes(s, Unmap(ip))
    ensures Anonymize(s, ip).1 != Unmap(ip)
  {
    var a := Unmap(ip);
    if a in s.memo {
      IssuedPasses(s, a);
    } else {
      var p := PoolFor(s.level, a);
      InPoolIs(s, Current(s, p), p);
      assert InAnonymizedRange(s, Current(s, p));
    }
  }

  /** An address gets one answer at every call, exactly unless it was replaced and a
      pool's mark has reached it since. */
  lemma AnswerStableExactly(level: Level, before: seq<Addr>, ip: Addr, between: seq<Addr>)
    requires !Exhausted(Run(Anonymize(Run(New(level), before), ip).0, between))
    ensures var s := Run(New(level), before);
            var (s1, r) := Anonymize(s, ip);
            var s2 := Run(s1, between);
            Anonymize(s2, ip).1 == r <==> Passes(s, Unmap(ip)) || !InAnonymizedRange(s2, Unmap(ip))
  {
    var s := Run(New(level), before);
    var s1 := Anonymize(s, ip).0;
    var s2 := Run(s1, between);
    Reached(level, before, ip, between);
    RunExtends(s1, between);
    ExtendsTransitive(s, s1, s2);
    LaterAnswer(s, ip, s2);
  }

  /** It does change: 198.51.100.1 is first answered with the pool's start, whose successor it
      is, and at the next call with itself. */
  lemma AnswerChanges()
    ensures var ip := V4(Start(Public4) + 1);
            var (s1, first) := Anonymize(New(LevelDefault), ip);
            first == V4(Start(Public4)) && Anonymize(s1, ip) == (s1, ip)
  {
  }

  /** What one call answers, and what it leaves in the memo. */
  lemma AnswerIs(s: State, ip: Addr)
    ensures var (s1, r) := Anonymize(s, ip);
            if Passes(s, Unmap(ip)) then r == Unmap(ip) else Unmap(ip) in s1.memo && r == s1.memo[Unmap(ip)]
  {
  }

  lemma PassesLater(s: State, s2: State, a: Addr)
    requires s2.level == s.level && !Passes(s, a)
    ensures Passes(s2, a) <==> InAnonymizedRange(s2, a)
  {
  }

  lemma LaterAnswer(s: State, ip: Addr, s2: State)
    requires Consistent(s) && Consistent(s2)
    requires Consistent(Anonymize(s, ip).0) && Extends(Anonymize(s, ip).0, s2) && Extends(s, s2)
    ensures Anonymize(s2, ip).1 == Anonymize(s, ip).1 <==>
            Passes(s, Unmap(ip)) || !InAnonymizedRange(s2, Unmap(ip))
  {
    var a := Unmap(ip);
    AnswerIs(s, ip);
    AnswerIs(s2, ip);
    if Passes(s, a) {
      RangeGrows(s, s2, a);
    } else {
      ReplacementDiffers(s, ip);
      PassesLater(s, s2, a);
      if !Passes(s2, a) { MemoAnswer(s2, ip); }
    }
  }

  lemma MemoAnswer(s: State, ip: Addr)
    requires Unmap(ip) in s.memo && !Passes(s, Unmap(ip))
    ensures Anonymize(s, ip) == (s, s.memo[Unmap(ip)])
  {
  }

  // -------------------------------------------------------------- injectivity

  /** How many addresses a pool has handed out. */
  ghost function Count(s: State, p: Pool): int
    requires MarksValid(s)
  {
    Mark(s, p) - Start(p)
  }

  /** Room an internal pool has before it runs into the public pool above it. */
  function Gap(internal: Pool): int
    requires internal == Internal4 || internal == Internal6
  {
    if internal == Internal4 then Start(Public4) - Start(Internal4) else Start(Public6) - Start(Internal6)
  }

  lemma GapValues()
    ensures Gap(Internal4) == 2_188_288
    ensures Gap(Internal6) == 65_534 * TWO80
  {
  }

  ghost predicate Injective(s: State) {
    forall a, b :: a in s.memo && b in s.memo && s.memo[a] == s.memo[b] ==> a == b
  }

  ghost predicate Collides(s: State, internal: Pool, public: Pool)
    requires MarksValid(s)
    requires internal == Internal4 || internal == Internal6
  {
    Count(s, internal) > Gap(internal) && Count(s, public) > 0
  }

  lemma CollisionShares(s: State, internal: Pool, public: Pool)
    requires Consistent(s)
    requires (internal == Internal4 && public == Public4) || (internal == Internal6 && public == Public6)
    requires Collides(s, internal, public)
    ensures !Injective(s)
  {
    var v := Start(public);
    assert HandedOut(s, public, v) && HandedOut(s, internal, v);
    var a :| a in s.memo && PoolFor(s.level, a) == public && s.memo[a] == PoolAddr(public, v);
    var b :| b in s.memo && PoolFor(s.level, b) == internal && s.memo[b] == PoolAddr(internal, v);
    assert a != b && s.memo[a] == s.memo[b];
  }

  lemma SharedMeansCollision(s: State, a: Addr, b: Addr)
    requires Consistent(s) && a in s.memo && b in s.memo && s.memo[a] == s.memo[b] && a != b
    ensures Collides(s, Internal4, Public4) || Collides(s, Internal6, Public6)
  {
    var p, q := PoolFor(s.level, a), PoolFor(s.level, b);
    assert p != q;
    assert Issued(s, a) && Issued(s, b);
  }

  /** In every unexhausted state reached by any run, distinct addresses have distinct
      replacements if and only if neither internal pool has overrun its gap while the
      public pool above it is in use. */
  lemma ReplacementsDistinctExactly(level: Level, calls: seq<Addr>)
    requires !Exhausted(Run(New(level), calls))
    ensures var s := Run(New(level), calls);
            && MarksValid(s)
            && (Injective(s) <==> !Collides(s, Internal4, Public4) && !Collides(s, Internal6, Public6))
  {
    NewConsistent(level);
    RunExtends(New(level), calls);
    var s := Run(New(level), calls);
    if Collides(s, Internal4, Public4) { CollisionShares(s, Internal4, Public4); }
    if Collides(s, Internal6, Public6) { CollisionShares(s, Internal6, Public6); }
    if !Injective(s) {
      var a, b :| a in s.memo && b in s.memo && s.memo[a] == s.memo[b] && a != b;
      SharedMeansCollision(s, a, b);
    }
  }

  /** The answer given at the i-th call of a run. */
  function Answer(level: Level, calls: seq<Addr>, i: nat): Addr
    requires i < |calls|
  {
    Anonymize(Run(New(level), calls[..i]), calls[i]).1
  }

  /** The answer given to an address that no mark has reached at the end of the run is the
      one in the memo there. */
  lemma AnswerInMemo(level: Level, calls: seq<Addr>, i: nat)
    requires i < |calls|
    requires var s := Run(New(level), calls); !Exhausted(s) && !Passes(s, Unmap(calls[i]))
    ensures var s, x := Run(New(level), calls), Unmap(calls[i]);
            x in s.memo && Answer(level, calls, i) == s.memo[x]
  {
    RunAround(New(level), calls, i);
    Reached(level, calls[..i], calls[i], calls[i + 1..]);
    var s := Run(New(level), calls[..i]);
    var s1 := Anonymize(s, calls[i]).0;
    RunExtends(s1, calls[i + 1..]);
    NotPassedEarlier(s, s1, Run(s1, calls[i + 1..]), calls[i]);
  }

  lemma RunAround(s: State, calls: seq<Addr>, i: nat)
    requires i < |calls|
    ensures Run(s, calls) == Run(Anonymize(Run(s, calls[..i]), calls[i]).0, calls[i + 1..])
  {
    var rest := calls[i..];
    assert calls == calls[..i] + rest && rest[1..] == calls[i + 1..];
    RunSplit(s, calls[..i], rest);
  }

  lemma NotPassedEarlier(s: State, s1: State, s2: State, ip: Addr)
    requires Consistent(s) && s1 == Anonymize(s, ip).0 && Consistent(s1) && Consistent(s2)
    requires Extends(s, s1) && Extends(s1, s2) && !Passes(s2, Unmap(ip))
    ensures Unmap(ip) in s2.memo && Anonymize(s, ip).1 == s2.memo[Unmap(ip)]
  {
    ExtendsTransitive(s, s1, s2);
    RangeGrows(s, s2, Unmap(ip));
    AnswerIs(s, ip);
  }

  /** Two distinct addresses answered at any two calls of one run, and reached by no mark at
      its end, have different answers while the internal pools keep to their gaps. */
  lemma UnreachedNeverShare(level: Level, calls: seq<Addr>, i: nat, j: nat)
    requires i < |calls| && j < |calls| && Unmap(calls[i]) != Unmap(calls[j])
    requires var s := Run(New(level), calls);
             && !Exhausted(s) && MarksValid(s)
             && !Passes(s, Unmap(calls[i])) && !Passes(s, Unmap(calls[j]))
             && Count(s, Internal4) <= 2_188_288 && Count(s, Internal6) <= 65_534 * TWO80
    ensures Answer(level, calls, i) != Answer(level, calls, j)
  {
    GapValues();
    ReplacementsDistinctExactly(level, calls);
    AnswerInMemo(level, calls, i);
    AnswerInMemo(level, calls, j);
  }

  // ------------------------------------------------------------ a full gap

  /** Distinct addresses of 10.0.0.0/8. */
  function Privates(n: nat): seq<Addr>
    requires n < TWO24
  {
    seq(n, i requires 0 <= i < n => V4(10 * TWO24 + i))
  }

  /** Only the internal IPv4 pool is in use, `n` addresses of it. */
  ghost predicate Filled(s: State, n: nat) {
    && Start(Internal4) + n < TWO32
    && s == New(LevelStrict).(memo := s.memo, internal4 := V4(Start(Internal4) + n))
    && (forall a :: a in s.memo ==> a.V4? && 10 * TWO24 <= a.v < 10 * TWO24 + n)
  }

  lemma FillOne(s: State, n: nat)
    requires Filled(s, n) && n < 2_188_289
    ensures Filled(Anonymize(s, V4(10 * TWO24 + n)).0, n + 1)
  {
    var a := V4(10 * TWO24 + n);
    assert IsPrivate(a) && !Passes(s, a) && a !in s.memo;
  }

  lemma PrivatesSnoc(n: nat)
    requires 0 < n < TWO24
    ensures Privates(n) == Privates(n - 1) + [V4(10 * TWO24 + (n - 1))]
  {
  }

  lemma {:induction false} FillPool(n: nat)
    requires n <= 2_188_289
    ensures Filled(Run(New(LevelStrict), Privates(n)), n)
  {
    if n > 0 {
      FillPool(n - 1);
      var s, last := Run(New(LevelStrict), Privates(n - 1)), V4(10 * TWO24 + (n - 1));
      PrivatesSnoc(n);
      RunSplit(New(LevelStrict), Privates(n - 1), [last]);
      RunOne(s, last);
      FillOne(s, n - 1);
    }
  }

  /** One internal address more than the gap has room for, then one public address: two
      addresses share a replacement. */
  lemma CollisionReached()
    ensures var s := Run(New(LevelStrict), Privates(2_188_289) + [V4(0x01020304)]);
            !Exhausted(s) && MarksValid(s) && Collides(s, Internal4, Public4) && !Injective(s)
  {
    FillPool(2_188_289);
    CollisionAfter(Privates(2_188_289));
  }

  lemma CollisionAfter(calls: seq<Addr>)
    requires Filled(Run(New(LevelStrict), calls), 2_188_289)
    ensures var s := Run(New(LevelStrict), calls + [V4(0x01020304)]);
            !Exhausted(s) && MarksValid(s) && Collides(s, Internal4, Public4) && !Injective(s)
  {
    RunSplit(New(LevelStrict), calls, [V4(0x01020304)]);
    RunOne(Run(New(LevelStrict), calls), V4(0x01020304));
    OnePublic(Run(New(LevelStrict), calls));
    ReplacementsDistinctExactly(LevelStrict, calls + [V4(0x01020304)]);
  }

  lemma OnePublic(s: State)
    requires Filled(s, 2_188_289)
    ensures var s' := Anonymize(s, V4(0x01020304)).0;
            !Exhausted(s') && MarksValid(s') && Collides(s', Internal4, Public4)
  {
    var a := V4(0x01020304);
    assert !IsInternal(a) && !IsPrivate(a) && !Preserved(a) && !Passes(s, a) && a !in s.memo;
    var s' := Anonymize(s, a).0;
    assert s' == s.(memo := s'.memo, public4 := V4(Start(Public4) + 1));
    GapValues();
  }
}
