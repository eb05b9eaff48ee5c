/** Domain anonymization (client/anonymize/anonymize.go): memo maps, numbered label
    placeholders and the reverse-zone rule, over whole runs of calls. */
module AnonymizeDomain {
  import opened Common
  import opened Names
  import opened NetIP
  import opened BitStrings
  import opened ReverseZone
  import opened ReverseZoneParser
  import IP = AnonymizeIP

  const ANON_TLD := ".domain"
  const INFRA_DOMAIN := "netbird.io"
  const PROTECTED_DOMAINS := ["netbird.io", "netbird.selfhosted", "netbird.cloud", "netbird.stage"]
  const UINT32 := 0x1_0000_0000

  datatype Kind = Host | Peer

  function KindName(k: Kind): string { if k == Host then "host" else "peer" }

  function Placeholder(k: Kind, n: nat): string { KindName(k) + "-" + Decimal(n) }

  datatype State = State(
    ip: IP.State,
    domains: map<string, string>,
    labels: map<string, string>,
    issued: set<string>,       // placeholders handed out
    counter: nat)              // a uint32

  function New(level: IP.Level): State {
    State(IP.New(level), map[], map[], {}, 0)
  }

  // ------------------------------------------------------------------- labels

  function AnonymizeLabel(s: State, lbl: string, k: Kind): (State, string) {
    if lbl == "*" || lbl in s.issued then (s, lbl)
    else if lbl in s.labels then (s, s.labels[lbl])
    else
      var n := (s.counter + 1) % UINT32;
      var anon := Placeholder(k, n);
      (s.(counter := n, labels := s.labels[lbl := anon], issued := s.issued + {anon}), anon)
  }

  function AnonymizeLabels(s: State, labels: seq<string>, k: Kind): (r: (State, seq<string>))
    ensures |r.1| == |labels|
    decreases |labels|
  {
    if labels == [] then (s, [])
    else
      var (s1, first) := AnonymizeLabel(s, labels[0], k);
      var (s2, rest) := AnonymizeLabels(s1, labels[1..], k);
      (s2, [first] + rest)
  }

  // ------------------------------------------------------------ reverse zones

  function AddrOf(z: Zone): Addr
    requires |z.addr| == Width(z.family)
  {
    ValueBound(z.addr);
    WidthPowers();
    if z.family == InAddr then V4(Value(z.addr)) else V6(Value(z.addr), "")
  }

  lemma WidthPowers()
    ensures Pow2(32) == TWO32 && Pow2(128) == TWO128
  {
    SixteenBits();
    Square(16, 0x1_0000);
    Square(32, TWO32);
    Square(64, 0x1_0000_0000_0000_0000);
  }

  lemma SixteenBits()
    ensures Pow2(16) == 0x1_0000
  {
    assert Pow2(4) == 16;
    Square(4, 16);
    Square(8, 256);
  }

  lemma Square(n: nat, v: nat)
    requires Pow2(n) == v
    ensures Pow2(n + n) == v * v
  {
    PowerOfSum(n, n);
  }

  lemma {:induction false} PowerOfSum(a: nat, b: nat)
    ensures Pow2(a + b) == Pow2(a) * Pow2(b)
  {
    if a > 0 {
      PowerOfSum(a - 1, b);
      TwiceProduct(Pow2(a - 1), Pow2(b));
    }
  }

  lemma TwiceProduct(x: nat, y: nat)
    ensures 2 * (x * y) == (2 * x) * y
  {
  }

  function FamilyOf(a: Addr): Family { if a.V4? then InAddr else IP6 }

  function BitsOfAddr(a: Addr): (b: Bits)
    ensures |b| == Width(FamilyOf(a))
  {
    match a
    case Invalid => Zeros(128)
    case V4(v) => ToBits(v, 32)
    case V6(v, _) => ToBits(v, 128)
  }

  /** A zone under ::ffff:0:0/96, which AnonymizeIP turns into an IPv4 address. */
  predicate IsMappedZone(base: string) {
    var z := ParseReverseZone(base);
    z.Some? && z.value.family == IP6 && IsMapped(z.value.addr)
  }

  /** Such a name has more labels than an IPv4 address has octets to print. */
  lemma MappedZoneOverruns(base: string)
    requires IsMappedZone(base)
    ensures ParseReverseZone(base).value.count >= 24
  {
    var z := ParseReverseZone(base).value;
    ParsedFrom(base);
    assert z.addr[95];
  }

  /** Where the printer indexes past the replacement's labels, which is a run-time panic. */
  predicate Overruns(s: State, base: string)
    requires ParseReverseZone(base).Some?
  {
    var z := ParseReverseZone(base).value;
    var a := IP.Anonymize(s.ip, AddrOf(z)).1;
    a != AddrOf(z) && z.count > LabelCount(FamilyOf(a))
  }

  /** reverseZoneName of the replacement under the original suffix. Where the code panics the
      name stands in for an answer that is never given; the address is replaced all the same. */
  function AnonymizeReverseZone(s: State, base: string): (State, string)
    requires ParseReverseZone(base).Some?
  {
    var z := ParseReverseZone(base).value;
    var (ip', a) := IP.Anonymize(s.ip, AddrOf(z));
    var f := FamilyOf(a);
    (s.(ip := ip'),
     if a == AddrOf(z) || z.count > LabelCount(f) then base
     else
       LabelsFit(f, z.count);
       Join(NameLabels(f, BitsOfAddr(a), z.count)) + Suffix(z.family))
  }

  // ------------------------------------------------------------------ domains

  /** Equal to the protected domain or below it, anchored at a label. */
  predicate Matches(base: string, d: string) { base == d || HasSuffix(base, "." + d) }

  function FirstMatch(base: string, ds: seq<string>): (r: string)
    ensures r != "" ==> r in ds && Matches(base, r)
  {
    if ds == [] then "" else if Matches(base, ds[0]) then ds[0] else FirstMatch(base, ds[1..])
  }

  function ProtectedSuffix(base: string): string { FirstMatch(base, PROTECTED_DOMAINS) }

  predicate StartsAt(s: string, sub: string, i: nat) {
    i + |sub| <= |s| && s[i..i + |sub|] == sub
  }

  /** strings.Replace(s, sub, with, 1). */
  function ReplaceOnce(s: string, sub: string, with: string): string {
    if StartsAt(s, sub, 0) then with + s[|sub|..]
    else if s == "" then ""
    else [s[0]] + ReplaceOnce(s[1..], sub, with)
  }

  function WithTrailingDot(s: string, hasDot: bool): string {
    if hasDot then s + "." else s
  }

  function BaseOf(domain: string): string {
    if HasSuffix(domain, ".") then domain[..|domain| - 1] else domain
  }

  /** The last two labels, by which a base domain is looked up. */
  function LookupOf(parts: seq<string>): string
    requires |parts| >= 2
  {
    parts[|parts| - 2] + "." + parts[|parts| - 1]
  }

  function AnonymizePeerName(s: State, base: string, suffix: string): (State, string) {
    var (s1, labels) := AnonymizeLabels(s, Split(TrimSuffix(base, "." + suffix)), Peer);
    var result := Join(labels) + "." + suffix;
    (if result != base then s1.(domains := s1.domains[base := result]) else s1, result)
  }

  /** The state in which a base domain has its replacement. */
  function Minted(s: State, lookup: string, random: string): State {
    if lookup in s.domains then s else s.(domains := s.domains[lookup := "anon-" + random + ANON_TLD])
  }

  function AnonymizeOther(s: State, base: string, parts: seq<string>, random: string): (State, string)
    requires |parts| >= 2
  {
    var lookup := LookupOf(parts);
    var s1 := Minted(s, lookup, random);
    var anonymized := s1.domains[lookup];
    if s.ip.level == IP.LevelStrict && |parts| > 2 then
      var (s2, labels) := AnonymizeLabels(s1, Split(TrimSuffix(base, "." + lookup)), Host);
      var result := Join(labels) + "." + anonymized;
      (s2.(domains := s2.domains[base := result]), result)
    else
      (s1, ReplaceOnce(base, lookup, anonymized))
  }

  /** `random` stands for generateRandomString(5). */
  function Anonymize(s: State, domain: string, random: string): (State, string) {
    var hasDot, base := HasSuffix(domain, "."), BaseOf(domain);
    if HasSuffix(base, ANON_TLD) then (s, domain)
    else if ParseReverseZone(base).Some? then
      var (s1, zone) := AnonymizeReverseZone(s, base);
      (s1, WithTrailingDot(zone, hasDot))
    else
      var suffix := ProtectedSuffix(base);
      if suffix != "" then
        if s.ip.level == IP.LevelDefault || base == suffix || suffix == INFRA_DOMAIN then (s, domain)
        else
          var (s1, name) := AnonymizePeerName(s, base, suffix);
          (s1, WithTrailingDot(name, hasDot))
      else
        var parts := Split(base);
        if |parts| < 2 then (s, domain)
        else
          var (s1, name) := AnonymizeOther(s, base, parts, random);
          (s1, WithTrailingDot(name, hasDot))
  }

  /** Where AnonymizeDomain panics instead of answering. */
  predicate Panics(s: State, domain: string) {
    var base := BaseOf(domain);
    !HasSuffix(base, ANON_TLD) && ParseReverseZone(base).Some? && Overruns(s, base)
  }

  // --------------------------------------------------------------------- runs

  datatype Call = CallIP(ip: Addr) | CallDomain(domain: string, random: string)

  function Step(s: State, c: Call): State {
    match c
    case CallIP(ip) => s.(ip := IP.Anonymize(s.ip, ip).0)
    case CallDomain(domain, random) => Anonymize(s, domain, random).0
  }

  function Run(s: State, calls: seq<Call>): State
    decreases |calls|
  {
    if calls == [] then s else Run(Step(s, calls[0]), calls[1..])
  }

  // --------------------------------------------------------------- invariants

  predicate IsPlaceholder(p: string) {
    |p| > 5 && (p[..5] == "host-" || p[..5] == "peer-") && AllDigits(p[5..])
  }

  function NumberOf(p: string): nat
    requires IsPlaceholder(p)
  {
    DecimalValue(p[5..])
  }

  lemma PlaceholderShape(k: Kind, n: nat)
    ensures IsPlaceholder(Placeholder(k, n)) && NumberOf(Placeholder(k, n)) == n
    ensures Dotless(Placeholder(k, n)) && Placeholder(k, n) != "*"
  {
    var p := Placeholder(k, n);
    DecimalRoundTrip(n);
    assert p[..5] == KindName(k) + "-" && p[5..] == Decimal(n);
    assert p == p[..5] + p[5..];
    assert Dotless(KindName(k) + "-");
  }

  /** Placeholders are exactly the images of labels, dotless and well formed. */
  ghost predicate LabelsSound(s: State) {
    && (forall l :: l in s.labels ==> s.labels[l] in s.issued)
    && (forall p :: p in s.issued ==> IsPlaceholder(p) && Dotless(p))
  }

  /** A name of exactly two labels is only ever mapped under the anonymous TLD. */
  ghost predicate BasesSound(s: State) {
    forall d :: d in s.domains && |Split(d)| == 2 ==> HasSuffix(s.domains[d], ANON_TLD)
  }

  ghost predicate Sound(s: State) { LabelsSound(s) && BasesSound(s) }

  /** What later states keep. */
  ghost predicate Extends(s: State, s': State) {
    s.issued <= s'.issued && s.domains.Keys <= s'.domains.Keys && s'.ip.level == s.ip.level
  }

  /** Every label of the answer passes through unchanged later. */
  ghost predicate Settled(s: State, labels: seq<string>) {
    forall i :: 0 <= i < |labels| ==> (labels[i] == "*" || labels[i] in s.issued)
  }

  lemma AnonymizeLabelSound(s: State, lbl: string, k: Kind)
    requires LabelsSound(s)
    ensures var (s', r) := AnonymizeLabel(s, lbl, k);
            && LabelsSound(s') && (r == "*" || r in s'.issued)
            && s'.domains == s.domains && s'.ip == s.ip && s.issued <= s'.issued
  {
    PlaceholderShape(k, (s.counter + 1) % UINT32);
  }

  lemma {:induction false} AnonymizeLabelsSound(s: State, labels: seq<string>, k: Kind)
    requires LabelsSound(s)
    ensures var (s', r) := AnonymizeLabels(s, labels, k);
            && LabelsSound(s') && Settled(s', r)
            && s'.domains == s.domains && s'.ip == s.ip && s.issued <= s'.issued
    decreases |labels|
  {
    if labels != [] {
      var s1 := AnonymizeLabel(s, labels[0], k).0;
      AnonymizeLabelSound(s, labels[0], k);
      AnonymizeLabelsSound(s1, labels[1..], k);
    }
  }

  lemma {:induction false} SettledLabelsPass(s: State, labels: seq<string>, k: Kind)
    requires Settled(s, labels)
    ensures AnonymizeLabels(s, labels, k) == (s, labels)
    decreases |labels|
  {
    if labels != [] {
      assert labels == [labels[0]] + labels[1..];
      SettledLabelsPass(s, labels[1..], k);
    }
  }

  lemma SettledDotless(s: State, labels: seq<string>)
    requires LabelsSound(s) && Settled(s, labels)
    ensures AllDotless(labels)
  {
  }

  // ------------------------------------------------------------- name shapes

  /** A name ending in a dotted two-label suffix, with something in front, has three labels or more. */
  lemma ThreeLabels(front: string, a: string, b: string)
    ensures |Split(front + "." + (a + "." + b))| >= 3
  {
    SplitAround(a, b);
    SplitAround(front, a + "." + b);
  }

  /** The characters that tell protected domains apart. */
  function LastTwo(s: string): (char, char)
    requires |s| >= 2
  {
    (s[|s| - 2], s[|s| - 1])
  }

  lemma ProtectedShape(d: string)
    requires d in PROTECTED_DOMAINS
    ensures |d| >= 8 && d[..8] == "netbird."
    ensures LastTwo(d) == if d == "netbird.io" then ('i', 'o')
                          else if d == "netbird.selfhosted" then ('e', 'd')
                          else if d == "netbird.cloud" then ('u', 'd') else ('g', 'e')
  {
    var i :| 0 <= i < 4 && d == PROTECTED_DOMAINS[i];
  }

  lemma LookupHasTwo(base: string, parts: seq<string>)
    requires parts == Split(base) && |parts| >= 2
    ensures |Split(LookupOf(parts))| == 2
  {
    SplitDotless(base);
    var a, b := parts[|parts| - 2], parts[|parts| - 1];
    assert Dotless(parts[|parts| - 2]) && Dotless(parts[|parts| - 1]);
    SplitOne(a);
    SplitOne(b);
    SplitAround(a, b);
  }

  lemma SuffixOfConcat(a: string, b: string, suffix: string)
    requires HasSuffix(b, suffix)
    ensures HasSuffix(a + b, suffix)
  {
    var s := a + b;
    assert s[|s| - |suffix|..] == b[|b| - |suffix|..];
  }

  // -------------------------------------------------------------- soundness

  lemma PeerNameLong(base: string, suffix: string)
    requires suffix in PROTECTED_DOMAINS && HasSuffix(base, "." + suffix)
    ensures |Split(base)| >= 3
  {
    ProtectedShape(suffix);
    var trimmed, b := TrimSuffix(base, "." + suffix), suffix[8..];
    assert suffix == "netbird" + "." + b;
    assert base == trimmed + "." + suffix;
    ThreeLabels(trimmed, "netbird", b);
  }

  lemma PeerNameSound(s: State, base: string, suffix: string)
    requires Sound(s) && suffix in PROTECTED_DOMAINS && HasSuffix(base, "." + suffix)
    ensures var (s', r) := AnonymizePeerName(s, base, suffix);
            && Sound(s') && Extends(s, s')
            && exists labels :: labels != [] && Settled(s', labels) && r == Join(labels) + "." + suffix
  {
    var front := Split(TrimSuffix(base, "." + suffix));
    AnonymizeLabelsSound(s, front, Peer);
    PeerNameLong(base, suffix);
    var labels := AnonymizeLabels(s, front, Peer).1;
    var s' := AnonymizePeerName(s, base, suffix).0;
    assert Settled(s', labels);
  }

  lemma MintedSound(s: State, lookup: string, random: string)
    requires Sound(s) && |Split(lookup)| == 2
    ensures var s' := Minted(s, lookup, random);
            Sound(s') && Extends(s, s') && lookup in s'.domains && HasSuffix(s'.domains[lookup], ANON_TLD)
  {
    SuffixOfAppend("anon-" + random, ANON_TLD);
  }

  lemma ReplaceWhole(s: string, with: string)
    ensures ReplaceOnce(s, s, with) == with
  {
    assert s[..|s|] == s && with + s[|s|..] == with;
  }

  lemma TwoLabelBase(base: string, parts: seq<string>)
    requires parts == Split(base) && |parts| == 2
    ensures base == LookupOf(parts)
  {
    JoinSplit(base);
    assert parts[1..] == [parts[1]];
  }

  lemma OtherSound(s: State, base: string, parts: seq<string>, random: string)
    requires Sound(s) && parts == Split(base) && |parts| >= 2
    ensures var (s', r) := AnonymizeOther(s, base, parts, random);
            && Sound(s') && Extends(s, s')
            && (s.ip.level == IP.LevelStrict ==> HasSuffix(r, ANON_TLD))
  {
    var lookup := LookupOf(parts);
    LookupHasTwo(base, parts);
    MintedSound(s, lookup, random);
    var s1 := Minted(s, lookup, random);
    var anonymized := s1.domains[lookup];
    if s.ip.level == IP.LevelStrict && |parts| > 2 {
      var front := Split(TrimSuffix(base, "." + lookup));
      AnonymizeLabelsSound(s1, front, Host);
      var labels := AnonymizeLabels(s1, front, Host).1;
      SuffixOfConcat(Join(labels) + ".", anonymized, ANON_TLD);
    } else if |parts| == 2 {
      TwoLabelBase(base, parts);
      ReplaceWhole(base, anonymized);
    }
  }

  lemma LevelKept(s: IP.State, a: Addr)
    ensures IP.Anonymize(s, a).0.level == s.level
  {
  }

  lemma ReverseZoneFrame(s: State, base: string)
    requires ParseReverseZone(base).Some?
    ensures var s' := AnonymizeReverseZone(s, base).0;
            && s' == s.(ip := IP.Anonymize(s.ip, AddrOf(ParseReverseZone(base).value)).0)
            && s'.ip.level == s.ip.level
  {
    LevelKept(s.ip, AddrOf(ParseReverseZone(base).value));
  }

  /** One call of either kind keeps the memo maps sound and only adds to them. */
  lemma StepSound(s: State, c: Call)
    requires Sound(s)
    ensures Sound(Step(s, c)) && Extends(s, Step(s, c))
  {
    if c.CallIP? {
      LevelKept(s.ip, c.ip);
    } else {
      var base := BaseOf(c.domain);
      if HasSuffix(base, ANON_TLD) {
      } else if ParseReverseZone(base).Some? {
        ReverseZoneFrame(s, base);
      } else {
        PlainDomainSound(s, c.domain, c.random);
      }
    }
  }

  lemma PlainDomainSound(s: State, domain: string, random: string)
    requires Sound(s) && ParseReverseZone(BaseOf(domain)).None? && !HasSuffix(BaseOf(domain), ANON_TLD)
    ensures var s' := Anonymize(s, domain, random).0; Sound(s') && Extends(s, s')
  {
    var base := BaseOf(domain);
    var suffix := ProtectedSuffix(base);
    if suffix != "" {
      if base != suffix { PeerNameSound(s, base, suffix); }
    } else if |Split(base)| >= 2 {
      OtherSound(s, base, Split(base), random);
    }
  }

  lemma {:induction false} RunSound(s: State, calls: seq<Call>)
    requires Sound(s)
    ensures Sound(Run(s, calls)) && Extends(s, Run(s, calls))
    decreases |calls|
  {
    if calls != [] {
      StepSound(s, calls[0]);
      RunSound(Step(s, calls[0]), calls[1..]);
    }
  }

  // -------------------------------------------------------------- idempotence

  lemma DottedBase(name: string, hasDot: bool)
    requires name != "" && name[|name| - 1] != '.'
    ensures var d := WithTrailingDot(name, hasDot); HasSuffix(d, ".") == hasDot && BaseOf(d) == name
  {
    var d := WithTrailingDot(name, hasDot);
    assert d[|d| - 1..] == [d[|d| - 1]];
    assert hasDot ==> d[..|name|] == name;
  }

  lemma AnonymousBase(name: string, hasDot: bool)
    requires HasSuffix(name, ANON_TLD)
    ensures BaseOf(WithTrailingDot(name, hasDot)) == name
  {
    assert name[|name| - 1] == name[|name| - |ANON_TLD|..][6] == 'n';
    DottedBase(name, hasDot);
  }

  /** A name under a protected suffix is not a reverse zone, not anonymous, and keeps its suffix. */
  lemma ProtectedName(front: string, suffix: string)
    requires suffix in PROTECTED_DOMAINS
    ensures var name := front + "." + suffix;
            && name[|name| - 1] != '.' && !HasSuffix(name, ANON_TLD) && ParseReverseZone(name).None?
            && ProtectedSuffix(name) == suffix && name != suffix
            && HasSuffix(name, "." + suffix) && TrimSuffix(name, "." + suffix) == front
  {
    var name := front + "." + suffix;
    assert name[|name| - |"." + suffix|..] == "." + suffix;
    LastChars(name, suffix);
  }

  lemma {:induction false} OnlyMatch(base: string, ds: seq<string>, d: string)
    requires d in ds && d != "" && Matches(base, d)
    requires forall e :: e in ds && e != d ==> !Matches(base, e)
    ensures FirstMatch(base, ds) == d
  {
    assert ds == [ds[0]] + ds[1..];
    if ds[0] != d {
      OnlyMatch(base, ds[1..], d);
    }
  }

  /** The last characters tell the suffixes apart. */
  lemma LastChars(name: string, suffix: string)
    requires suffix in PROTECTED_DOMAINS && HasSuffix(name, "." + suffix)
    ensures name[|name| - 1] != '.' && !HasSuffix(name, ANON_TLD)
    ensures ParseReverseZone(name).None? && ProtectedSuffix(name) == suffix
  {
    ProtectedShape(suffix);
    SuffixTail(name, "." + suffix);
    assert LastTwo("." + suffix) == LastTwo(suffix);
    NotSuffix(name, ANON_TLD);
    NotSuffix(ToLower(name), Suffix(InAddr));
    NotSuffix(ToLower(name), Suffix(IP6));
    forall e | e in PROTECTED_DOMAINS && e != suffix ensures !Matches(name, e) {
      ProtectedShape(e);
      OtherSuffix(name, e);
    }
    OnlyMatch(name, PROTECTED_DOMAINS, suffix);
  }

  lemma SuffixTail(s: string, t: string)
    requires HasSuffix(s, t) && |t| >= 2
    ensures LastTwo(s) == LastTwo(t)
  {
    var u := s[|s| - |t|..];
    assert u[|t| - 1] == s[|s| - 1] && u[|t| - 2] == s[|s| - 2];
  }

  lemma NotSuffix(s: string, suffix: string)
    requires s != "" && suffix != "" && s[|s| - 1] != suffix[|suffix| - 1]
    ensures !HasSuffix(s, suffix)
  {
  }

  lemma OtherSuffix(name: string, d: string)
    requires |name| >= 2 && |d| >= 2 && LastTwo(name) != LastTwo(d)
    ensures !Matches(name, d)
  {
    assert LastTwo("." + d) == LastTwo(d);
    if |d| < |name| && name[|name| - |"." + d|..] == "." + d {
      SuffixTail(name, "." + d);
    }
  }

  /** A settled peer name comes back unchanged from any later state. */
  lemma PeerNameSettled(s: State, labels: seq<string>, suffix: string, hasDot: bool, random: string)
    requires Sound(s) && labels != [] && Settled(s, labels)
    requires suffix in PROTECTED_DOMAINS && suffix != INFRA_DOMAIN
    ensures var r := WithTrailingDot(Join(labels) + "." + suffix, hasDot);
            !Panics(s, r) && Anonymize(s, r, random) == (s, r)
  {
    var name := Join(labels) + "." + suffix;
    var r := WithTrailingDot(name, hasDot);
    ProtectedName(Join(labels), suffix);
    DottedBase(name, hasDot);
    SettledDotless(s, labels);
    SplitJoin(labels);
    SettledLabelsPass(s, labels, Peer);
    assert AnonymizePeerName(s, name, suffix) == (s, name);
  }

  /** At the strict level the answer for any name that is not a reverse zone (protected,
      infrastructure, wildcard, dotted or plain) is final: any later call returns it
      unchanged and changes nothing. */
  lemma AnonymizeIsIdempotent(level: IP.Level, before: seq<Call>, domain: string, random: string, between: seq<Call>,
                              random2: string)
    requires level == IP.LevelStrict
    requires ParseReverseZone(BaseOf(domain)).None?
    ensures var (s1, r) := Anonymize(Run(New(level), before), domain, random);
            var s2 := Run(s1, between);
            !Panics(s2, r) && Anonymize(s2, r, random2) == (s2, r)
  {
    var s := Run(New(level), before);
    RunSound(New(level), before);
    StepSound(s, CallDomain(domain, random));
    RunSound(Anonymize(s, domain, random).0, between);
    LaterReturned(s, domain, random, Run(Anonymize(s, domain, random).0, between), random2);
  }

  lemma LaterReturned(s: State, domain: string, random: string, s2: State, random2: string)
    requires Sound(s) && Sound(s2) && Extends(s, s2) && Extends(Anonymize(s, domain, random).0, s2)
    requires s.ip.level == IP.LevelStrict && ParseReverseZone(BaseOf(domain)).None?
    ensures var r := Anonymize(s, domain, random).1; !Panics(s2, r) && Anonymize(s2, r, random2) == (s2, r)
  {
    var (s1, r) := Anonymize(s, domain, random);
    var hasDot, base := HasSuffix(domain, "."), BaseOf(domain);
    var suffix := ProtectedSuffix(base);
    if HasSuffix(base, ANON_TLD) {
    } else if suffix != "" {
      if base != suffix && suffix != INFRA_DOMAIN {
        PeerNameSound(s, base, suffix);
        var name := AnonymizePeerName(s, base, suffix).1;
        var labels :| labels != [] && Settled(s1, labels) && name == Join(labels) + "." + suffix;
        assert Settled(s2, labels);
        PeerNameSettled(s2, labels, suffix, hasDot, random2);
      }
    } else if |Split(base)| >= 2 {
      OtherSound(s, base, Split(base), random);
      AnonymousBase(AnonymizeOther(s, base, Split(base), random).1, hasDot);
      AnonymousIsNoZone(BaseOf(r));
    }
  }

  lemma AnonymousIsNoZone(name: string)
    requires HasSuffix(name, ANON_TLD)
    ensures ParseReverseZone(name).None?
  {
    assert name[|name| - 1] == name[|name| - |ANON_TLD|..][6] == 'n';
    NotSuffix(ToLower(name), Suffix(InAddr));
    NotSuffix(ToLower(name), Suffix(IP6));
  }
}
