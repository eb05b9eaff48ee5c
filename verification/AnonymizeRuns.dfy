/** Further facts about whole runs of the anonymizer: numbered placeholders never
    collide, and a full reverse name, once anonymized, is final. */
module AnonymizeRuns {
  import opened Common
  import opened Names
  import opened NetIP
  import opened BitStrings
  import opened ReverseZone
  import opened ReverseZoneParser
  import opened AnonymizeDomain
  import IP = AnonymizeIP

  // ------------------------------------------------------------- placeholders

  /** Every placeholder carries a 32-bit number. */
  ghost predicate NumbersSmall(labels: map<string, string>) {
    forall l :: l in labels ==> IsPlaceholder(labels[l]) && NumberOf(labels[l]) < UINT32
  }

  ghost predicate NumbersDistinct(labels: map<string, string>)
    requires NumbersSmall(labels)
  {
    forall l, k :: l in labels && k in labels && l != k ==> NumberOf(labels[l]) != NumberOf(labels[k])
  }

  /** Labels are numbered from 1 without repetition until the 32-bit counter has wrapped
      around to 0 and handed that out too. */
  ghost predicate Numbered(labels: map<string, string>, counter: nat) {
    && NumbersSmall(labels)
    && (|labels| < UINT32 ==> NumbersTo(labels, counter))
    && (|labels| <= UINT32 ==> NumbersDistinct(labels))
  }

  ghost predicate NumbersTo(labels: map<string, string>, counter: nat)
    requires NumbersSmall(labels)
  {
    counter == |labels| && forall l :: l in labels ==> 1 <= NumberOf(labels[l]) <= counter
  }

  lemma AddNumbered(labels: map<string, string>, counter: nat, lbl: string, anon: string, n: nat)
    requires Numbered(labels, counter) && lbl !in labels
    requires IsPlaceholder(anon) && NumberOf(anon) == n < UINT32
    requires |labels| < UINT32 ==> n == if |labels| + 1 == UINT32 then 0 else |labels| + 1
    ensures Numbered(labels[lbl := anon], n)
  {
    var labels' := labels[lbl := anon];
    assert |labels'| == |labels| + 1;
    assert NumbersSmall(labels');
    if |labels'| <= UINT32 {
      forall l | l in labels ensures NumberOf(labels[l]) != n {
        assert 1 <= NumberOf(labels[l]) <= |labels|;
      }
    }
  }

  lemma NextNumber(labels: map<string, string>, counter: nat, n: nat)
    requires Numbered(labels, counter) && n == (counter + 1) % UINT32
    ensures n < UINT32
    ensures |labels| < UINT32 ==> n == if |labels| + 1 == UINT32 then 0 else |labels| + 1
  {
  }

  lemma AnonymizeLabelNumbered(s: State, lbl: string, k: Kind)
    requires Numbered(s.labels, s.counter)
    ensures var s' := AnonymizeLabel(s, lbl, k).0; Numbered(s'.labels, s'.counter)
  {
    if lbl != "*" && lbl !in s.issued && lbl !in s.labels {
      var n := (s.counter + 1) % UINT32;
      NextNumber(s.labels, s.counter, n);
      PlaceholderShape(k, n);
      AddNumbered(s.labels, s.counter, lbl, Placeholder(k, n), n);
    }
  }

  lemma {:induction false} AnonymizeLabelsNumbered(s: State, labels: seq<string>, k: Kind)
    requires Numbered(s.labels, s.counter)
    ensures var s' := AnonymizeLabels(s, labels, k).0; Numbered(s'.labels, s'.counter)
    decreases |labels|
  {
    if labels != [] {
      AnonymizeLabelNumbered(s, labels[0], k);
      AnonymizeLabelsNumbered(AnonymizeLabel(s, labels[0], k).0, labels[1..], k);
    }
  }

  lemma OtherNumbered(s: State, base: string, parts: seq<string>, random: string)
    requires Numbered(s.labels, s.counter) && |parts| >= 2
    ensures var s' := AnonymizeOther(s, base, parts, random).0; Numbered(s'.labels, s'.counter)
  {
    var lookup := LookupOf(parts);
    AnonymizeLabelsNumbered(Minted(s, lookup, random), Split(TrimSuffix(base, "." + lookup)), Host);
  }

  lemma PlainDomainNumbered(s: State, domain: string, random: string)
    requires Numbered(s.labels, s.counter) && ParseReverseZone(BaseOf(domain)).None?
    ensures var s' := Anonymize(s, domain, random).0; Numbered(s'.labels, s'.counter)
  {
    var base := BaseOf(domain);
    var suffix := ProtectedSuffix(base);
    if suffix != "" {
      AnonymizeLabelsNumbered(s, Split(TrimSuffix(base, "." + suffix)), Peer);
    } else if |Split(base)| >= 2 {
      OtherNumbered(s, base, Split(base), random);
    }
  }

  lemma {:induction false} RunNumbered(s: State, calls: seq<Call>)
    requires Numbered(s.labels, s.counter)
    ensures var s' := Run(s, calls); Numbered(s'.labels, s'.counter)
    decreases |calls|
  {
    if calls != [] {
      var c := calls[0];
      if c.CallDomain? {
        var base := BaseOf(c.domain);
        if ParseReverseZone(base).None? {
          PlainDomainNumbered(s, c.domain, c.random);
        } else if !HasSuffix(base, ANON_TLD) {
          ReverseZoneFrame(s, base);
        }
      }
      RunNumbered(Step(s, c), calls[1..]);
    }
  }

  /** A map into the numbers below `n` that repeats none has at most `n` keys. */
  lemma {:induction false} Pigeonhole(numbers: map<string, nat>, n: nat)
    requires forall l :: l in numbers ==> numbers[l] < n
    requires forall l, k :: l in numbers && k in numbers && l != k ==> numbers[l] != numbers[k]
    ensures |numbers| <= n
    decreases n
  {
    if n == 0 {
      assert numbers == map[];
    } else if l :| l in numbers && numbers[l] == n - 1 {
      Pigeonhole(numbers - {l}, n - 1);
      assert numbers == (numbers - {l})[l := n - 1];
    } else {
      Pigeonhole(numbers, n - 1);
    }
  }

  /** In every run, at any level and of either kind, all labels have placeholders with
      different numbers if and only if at most 2^32 labels have been numbered. */
  lemma PlaceholdersDistinctExactly(level: IP.Level, calls: seq<Call>)
    ensures var labels := Run(New(level), calls).labels;
            NumbersSmall(labels) && (NumbersDistinct(labels) <==> |labels| <= UINT32)
  {
    RunNumbered(New(level), calls);
    var labels := Run(New(level), calls).labels;
    if NumbersDistinct(labels) {
      var numbers := map l | l in labels :: NumberOf(labels[l]);
      Pigeonhole(numbers, UINT32);
      assert numbers.Keys == labels.Keys;
      assert |numbers| == |numbers.Keys| && |labels| == |labels.Keys|;
    }
  }

  // ----------------------------------------------------- full reverse names

  /** The addresses a run of calls hands to the address anonymizer. */
  function Addresses(c: Call): seq<Addr> {
    match c
    case CallIP(ip) => [ip]
    case CallDomain(domain, _) =>
      var base := BaseOf(domain);
      if HasSuffix(base, ANON_TLD) || ParseReverseZone(base).None? then []
      else [AddrOf(ParseReverseZone(base).value)]
  }

  function AllAddresses(calls: seq<Call>): seq<Addr> {
    if calls == [] then [] else Addresses(calls[0]) + AllAddresses(calls[1..])
  }

  lemma PlainDomainKeepsIP(s: State, domain: string, random: string)
    requires Sound(s) && ParseReverseZone(BaseOf(domain)).None?
    ensures Anonymize(s, domain, random).0.ip == s.ip
  {
    var base := BaseOf(domain);
    var suffix := ProtectedSuffix(base);
    if suffix != "" {
      AnonymizeLabelsSound(s, Split(TrimSuffix(base, "." + suffix)), Peer);
    } else {
      var parts := Split(base);
      if |parts| > 2 {
        var lookup := LookupOf(parts);
        AnonymizeLabelsSound(Minted(s, lookup, random), Split(TrimSuffix(base, "." + lookup)), Host);
      }
    }
  }

  lemma StepAddresses(s: State, c: Call)
    requires Sound(s)
    ensures Step(s, c).ip == IP.Run(s.ip, Addresses(c))
  {
    var calls := Addresses(c);
    if calls != [] {
      assert IP.Run(s.ip, calls) == IP.Run(IP.Anonymize(s.ip, calls[0]).0, calls[1..]);
    }
    if c.CallDomain? {
      var base := BaseOf(c.domain);
      if ParseReverseZone(base).None? {
        PlainDomainKeepsIP(s, c.domain, c.random);
      } else if !HasSuffix(base, ANON_TLD) {
        ReverseZoneFrame(s, base);
      }
    }
  }

  /** The address state of a run is that of the addresses it passed on. */
  lemma {:induction false} RunAddresses(s: State, calls: seq<Call>)
    requires Sound(s)
    ensures Run(s, calls).ip == IP.Run(s.ip, AllAddresses(calls))
    decreases |calls|
  {
    if calls != [] {
      StepAddresses(s, calls[0]);
      StepSound(s, calls[0]);
      RunAddresses(Step(s, calls[0]), calls[1..]);
      IP.RunSplit(s.ip, Addresses(calls[0]), AllAddresses(calls[1..]));
    }
  }

  /** A name that spells a whole address. */
  predicate IsFullZone(base: string) {
    var z := ParseReverseZone(base);
    z.Some? && z.value.count == LabelCount(z.value.family)
  }

  lemma AddrBits(z: Zone)
    requires |z.addr| == Width(z.family)
    ensures FamilyOf(AddrOf(z)) == z.family && BitsOfAddr(AddrOf(z)) == z.addr
  {
    ToBitsOfValue(z.addr);
  }

  lemma AddrOfBits(a: Addr)
    requires a.V4? || (a.V6? && a.zone == "")
    ensures AddrOf(Zone(FamilyOf(a), BitsOfAddr(a), LabelCount(FamilyOf(a)))) == a
  {
    WidthPowers();
    ValueOfToBits(a.v, Width(FamilyOf(a)));
  }

  /** A printed full name parses back to the address it was printed from. */
  lemma FullNameParses(a: Addr)
    requires a.V4? || (a.V6? && a.zone == "")
    ensures var f := FamilyOf(a);
            var n := Join(NameLabels(f, BitsOfAddr(a), LabelCount(f))) + Suffix(f);
            ParseReverseZone(n) == Some(Zone(f, BitsOfAddr(a), LabelCount(f)))
  {
    var f := FamilyOf(a);
    ParseOfPrint(f, BitsOfAddr(a), LabelCount(f));
    assert BitsOfAddr(a)[..Width(f)] == BitsOfAddr(a);
    assert Pad(f, BitsOfAddr(a)) == BitsOfAddr(a);
  }

  /** The replacement of an address keeps its family and carries no IPv6 zone. */
  lemma ReplacementFamily(s: IP.State, z: Zone)
    requires IP.Consistent(s) && |z.addr| == Width(z.family)
    requires !(z.family == IP6 && IsMapped(z.addr))
    ensures Unmap(AddrOf(z)) == AddrOf(z)
    ensures var a := IP.Anonymize(s, AddrOf(z)).1;
            (a.V4? || (a.V6? && a.zone == "")) && FamilyOf(a) == z.family && Unmap(a) == a
  {
    var x := AddrOf(z);
    NotMappedValue(z);
    if !IP.Passes(s, x) {
      if x in s.memo {
        assert IP.Issued(s, x);
        IP.IssuedPasses(s, x);
      } else {
        var p := IP.PoolFor(s.level, x);
        assert IP.Current(s, p) == IP.PoolAddr(p, IP.Mark(s, p));
      }
    }
  }

  lemma NotMappedValue(z: Zone)
    requires |z.addr| == Width(z.family) && !(z.family == IP6 && IsMapped(z.addr))
    ensures Unmap(AddrOf(z)) == AddrOf(z)
  {
    if z.family == IP6 {
      MappedValue(z.addr);
    }
  }

  function Ones(n: nat): (b: Bits)
    ensures |b| == n && forall i :: 0 <= i < n ==> b[i]
  {
    seq(n, _ => true)
  }

  lemma {:induction false} OnesValue(n: nat)
    ensures Value(Ones(n)) == Pow2(n) - 1
  {
    if n > 0 {
      OnesValue(n - 1);
      assert Ones(n)[..n - 1] == Ones(n - 1);
    }
  }

  lemma MappedParts(b: Bits)
    requires |b| == 128
    ensures IsMapped(b) <==> b[..80] == Zeros(80) && b[80..96] == Ones(16)
  {
    assert forall i :: 0 <= i < 80 ==> b[..80][i] == b[i];
    assert forall i :: 80 <= i < 96 ==> b[80..96][i - 80] == b[i];
  }

  lemma HighValue(b: Bits)
    requires |b| == 128
    ensures Value(b) / TWO32 == Value(b[..96])
  {
    var hi, lo := b[..96], b[96..];
    assert b == hi + lo;
    ValueAppend(hi, lo);
    ValueBound(lo);
    WidthPowers();
    Quotient(Value(hi), Value(lo));
  }

  lemma Quotient(high: nat, low: nat)
    requires low < TWO32
    ensures (high * TWO32 + low) / TWO32 == high
  {
  }

  /** ::ffff:0:0/96 by bits and by value. */
  lemma MappedValue(b: Bits)
    requires |b| == 128
    ensures IsMapped(b) <==> Value(b) / TWO32 == 0xffff
  {
    MappedParts(b);
    HighValue(b);
    FfffValue(b[..80], b[80..96]);
    assert b[..96] == b[..80] + b[80..96];
  }

  lemma FfffValue(zeros: Bits, ones: Bits)
    requires |zeros| == 80 && |ones| == 16
    ensures Value(zeros + ones) == 0xffff <==> zeros == Zeros(80) && ones == Ones(16)
  {
    ValueAppend(zeros, ones);
    ValueBound(ones);
    SixteenBits();
    OnesValue(16);
    ZeroValue(Zeros(80));
    if Value(zeros + ones) == 0xffff {
      assert Value(zeros) == 0;
      ValueInjective(zeros, Zeros(80));
      ValueInjective(ones, Ones(16));
    }
  }

  /** The name of the zone for the replacement of its address. */
  function ZoneAnswer(base: string, z: Zone, a: Addr): string
    requires FamilyOf(a) == z.family && z.count <= LabelCount(z.family) && |z.addr| == Width(z.family)
  {
    LabelsFit(z.family, z.count);
    if a == AddrOf(z) then base else Join(NameLabels(z.family, BitsOfAddr(a), z.count)) + Suffix(z.family)
  }

  /** A reverse name outside the IPv4-mapped range is answered by the zone of the replacement. */
  lemma ZoneIsAnswered(s: State, domain: string, random: string, z: Zone)
    requires IP.Consistent(s.ip) && ParseReverseZone(BaseOf(domain)) == Some(z) && !IsMappedZone(BaseOf(domain))
    ensures var (ip', a) := IP.Anonymize(s.ip, AddrOf(z));
            && (a.V4? || (a.V6? && a.zone == "")) && FamilyOf(a) == z.family && Unmap(a) == a
            && !Panics(s, domain)
            && Anonymize(s, domain, random) ==
               (s.(ip := ip'), WithTrailingDot(ZoneAnswer(BaseOf(domain), z, a), HasSuffix(domain, ".")))
  {
    ZoneEnd(BaseOf(domain));
    ReplacementFamily(s.ip, z);
  }

  /** Whatever the level, the answer for a full reverse name outside the IPv4-mapped
      range is final: any later call returns it unchanged, until a pool is exhausted. */
  lemma FullZoneIsIdempotent(level: IP.Level, before: seq<Call>, domain: string, random: string, between: seq<Call>,
                             random2: string)
    requires IsFullZone(BaseOf(domain)) && !IsMappedZone(BaseOf(domain))
    requires var s1 := Anonymize(Run(New(level), before), domain, random).0; !IP.Exhausted(Run(s1, between).ip)
    ensures var s := Run(New(level), before);
            var (s1, r) := Anonymize(s, domain, random);
            var s2 := Run(s1, between);
            !Panics(s, domain) && !Panics(s2, r) && Anonymize(s2, r, random2) == (s2, r)
  {
    var s, z := Run(New(level), before), ParseReverseZone(BaseOf(domain)).value;
    var s1 := Anonymize(s, domain, random).0;
    var s2 := Run(s1, between);
    FullZoneStates(level, before, domain, random, between);
    ZoneIsAnswered(s, domain, random, z);
    var a := IP.Anonymize(s.ip, AddrOf(z)).1;
    FinalName(s2, ZoneAnswer(BaseOf(domain), z, a), a, HasSuffix(domain, "."), random2, BaseOf(domain), z);
  }

  lemma FullZoneStates(level: IP.Level, before: seq<Call>, domain: string, random: string, between: seq<Call>)
    requires ParseReverseZone(BaseOf(domain)).Some?
    requires var s1 := Anonymize(Run(New(level), before), domain, random).0; !IP.Exhausted(Run(s1, between).ip)
    ensures var s, x := Run(New(level), before), AddrOf(ParseReverseZone(BaseOf(domain)).value);
            var s2 := Run(Anonymize(s, domain, random).0, between);
            var a := IP.Anonymize(s.ip, x).1;
            IP.Consistent(s.ip) && IP.Anonymize(s2.ip, a) == (s2.ip, a)
  {
    var s, x := Run(New(level), before), AddrOf(ParseReverseZone(BaseOf(domain)).value);
    var s1 := Anonymize(s, domain, random).0;
    ZoneEnd(BaseOf(domain));
    RunSound(New(level), before);
    StepSound(s, CallDomain(domain, random));
    RunAddresses(New(level), before);
    RunAddresses(s1, between);
    ReverseZoneFrame(s, BaseOf(domain));
    IP.Reached(level, AllAddresses(before), x, AllAddresses(between));
    IP.AnonymizeIsIdempotent(level, AllAddresses(before), x, AllAddresses(between));
  }

  /** A full name of an address that the address anonymizer now returns unchanged. */
  lemma FinalName(s: State, name: string, a: Addr, hasDot: bool, random: string, base: string, z: Zone)
    requires ParseReverseZone(base) == Some(z) && z.count == LabelCount(z.family)
    requires a.V4? || (a.V6? && a.zone == "")
    requires FamilyOf(a) == z.family && Unmap(a) == a
    requires name == ZoneAnswer(base, z, a)
    requires IP.Anonymize(s.ip, a) == (s.ip, a)
    ensures var r := WithTrailingDot(name, hasDot);
            !Panics(s, r) && Anonymize(s, r, random) == (s, r)
  {
    ParsedFrom(base);
    AddrBits(z);
    FullNameParses(a);
    AddrOfBits(a);
    assert ParseReverseZone(name) == Some(Zone(z.family, BitsOfAddr(a), z.count));
    ZoneEnd(name);
    DottedBase(name, hasDot);
    UnmappedBits(a);
  }

  // ----------------------------------------------------- IPv4-mapped names

  /** A name in the IPv4-mapped range has its replacement in IPv4. */
  lemma MappedReplacement(s: IP.State, z: Zone)
    requires IP.Consistent(s) && z.family == IP6 && |z.addr| == 128 && IsMapped(z.addr)
    ensures IP.Anonymize(s, AddrOf(z)).1.V4?
  {
    MappedValue(z.addr);
    var x := Unmap(AddrOf(z));
    if !IP.Passes(s, x) {
      var p := IP.PoolFor(s.level, x);
      if x in s.memo {
        assert IP.Issued(s, x);
      } else {
        assert IP.Current(s, p) == IP.PoolAddr(p, IP.Mark(s, p));
      }
    }
  }

  /** In every consistent state the printer runs past the replacement's labels exactly on the
      ip6.arpa names in the IPv4-mapped range. */
  lemma OverrunsExactly(s: State, base: string)
    requires IP.Consistent(s.ip) && ParseReverseZone(base).Some?
    ensures Overruns(s, base) <==> IsMappedZone(base)
  {
    var z := ParseReverseZone(base).value;
    if IsMappedZone(base) {
      MappedReplacement(s.ip, z);
      MappedZoneOverruns(base);
    } else {
      ReplacementFamily(s.ip, z);
    }
  }

  /** In every run that has exhausted no pool, AnonymizeDomain panics exactly on the names in
      that range, with or without a final dot. */
  lemma PanicsExactly(level: IP.Level, calls: seq<Call>, domain: string)
    requires !IP.Exhausted(Run(New(level), calls).ip)
    ensures Panics(Run(New(level), calls), domain) <==> IsMappedZone(BaseOf(domain))
  {
    RunAddresses(New(level), calls);
    IP.NewConsistent(level);
    IP.RunExtends(IP.New(level), AllAddresses(calls));
    if ParseReverseZone(BaseOf(domain)).Some? {
      ZoneEnd(BaseOf(domain));
      OverrunsExactly(Run(New(level), calls), BaseOf(domain));
    }
  }

  /** ::ffff:0.0.0.0, and the 24 labels of its /96: four times f, then twenty times 0. */
  function MappedBase(): (b: Bits)
    ensures |b| == 128 && IsMapped(b)
  {
    Zeros(80) + Ones(16) + Zeros(32)
  }

  function MappedLabels(): seq<string> { seq(24, i => if i < 4 then "f" else "0") }

  lemma MappedGroup(i: nat)
    requires i < 24
    ensures GroupLabel(IP6, MappedBase(), i) == if i < 20 then "0" else "f"
  {
    var g := Group(IP6, MappedBase(), i);
    if i < 20 {
      assert forall k :: 0 <= k < 4 ==> g[k] == MappedBase()[4 * i + k] == false;
      ZeroValue(g);
    } else {
      assert forall k :: 0 <= k < 4 ==> g[k] == MappedBase()[4 * i + k] == true;
      assert g == Ones(4);
      OnesValue(4);
      assert Pow2(4) == 16;
    }
  }

  /** One such name, of any length of run before it. */
  lemma MappedNamePanics(level: IP.Level, calls: seq<Call>)
    requires !IP.Exhausted(Run(New(level), calls).ip)
    ensures Panics(Run(New(level), calls), Join(MappedLabels()) + Suffix(IP6))
  {
    var b, name := MappedBase(), Join(MappedLabels()) + Suffix(IP6);
    forall i | 0 <= i < 24 ensures NameLabels(IP6, b, 24)[i] == MappedLabels()[i] {
      MappedGroup(23 - i);
    }
    assert NameLabels(IP6, b, 24) == MappedLabels();
    ParseOfPrint(IP6, b, 24);
    assert Pad(IP6, b[..96]) == b;
    ZoneEnd(name);
    PanicsExactly(level, calls, name);
  }

  lemma UnmappedBits(a: Addr)
    requires (a.V4? || a.V6?) && Unmap(a) == a
    ensures !IsMapped(BitsOfAddr(a))
  {
    if a.V6? {
      WidthPowers();
      ValueOfToBits(a.v, 128);
      MappedValue(BitsOfAddr(a));
    }
  }

  lemma ZoneEnd(name: string)
    requires ParseReverseZone(name).Some?
    ensures name != "" && name[|name| - 1] != '.' && !HasSuffix(name, ANON_TLD)
  {
    var f := ParseReverseZone(name).value.family;
    ParsedFrom(name);
    SuffixEnds(TrimSuffix(ToLower(name), Suffix(f)), f);
    assert ToLower(name)[|name| - 1] == LowerChar(name[|name| - 1]) == 'a';
    NotSuffix(name, ANON_TLD);
  }

  lemma SuffixEnds(stem: string, f: Family)
    ensures var s := stem + Suffix(f); s != "" && s[|s| - 1] == 'a'
  {
    assert Suffix(f)[|Suffix(f)| - 1] == 'a';
  }
}
