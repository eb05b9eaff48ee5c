/** The reverse zone parser and printer of client/anonymize/reverse_zone.go, and how
    they undo each other and the zones client/internal/dns.go generates. */
module ReverseZoneParser {
  import opened Common
  import opened Names
  import opened BitStrings
  import opened ReverseZone

  predicate IsHexDigit(c: char) {
    '0' <= c <= '9' || 'a' <= c <= 'f' || 'A' <= c <= 'F'
  }

  function HexValue(c: char): (d: nat)
    requires IsHexDigit(c)
    ensures d < 16
  {
    if c <= '9' then c as int - '0' as int
    else if c <= 'F' then c as int - 'A' as int + 10
    else c as int - 'a' as int + 10
  }

  /** strconv.ParseUint(label, 10, 8) for an octet, one hex digit for a nibble. */
  function ParseLabel(f: Family, lbl: string): (r: Option<nat>)
    ensures r.Some? ==> r.value < Base(f)
  {
    if f == InAddr then
      if AllDigits(lbl) && DecimalValue(lbl) <= 255 then Some(DecimalValue(lbl)) else None
    else
      if |lbl| == 1 && IsHexDigit(lbl[0]) then Some(HexValue(lbl[0])) else None
  }

  predicate LabelsOk(f: Family, labels: seq<string>) {
    forall i :: 0 <= i < |labels| ==> ParseLabel(f, labels[i]).Some?
  }

  predicate InBase(f: Family, ds: seq<nat>) {
    forall i :: 0 <= i < |ds| ==> ds[i] < Base(f)
  }

  function Values(f: Family, labels: seq<string>): (r: seq<nat>)
    requires LabelsOk(f, labels)
    ensures |r| == |labels| && InBase(f, r)
    ensures forall i :: 0 <= i < |labels| ==> r[i] == ParseLabel(f, labels[i]).value
  {
    seq(|labels|, i requires 0 <= i < |labels| => ParseLabel(f, labels[i]).value)
  }

  /** The leading bits that octets or nibbles, last one first, spell. */
  function BitsOf(f: Family, ds: seq<nat>): (b: Bits)
    ensures |b| == LabelBits(f) * |ds|
  {
    if ds == [] then [] else BitsOf(f, ds[1..]) + ToBits(ds[0], LabelBits(f))
  }

  /** The address with the absent low-order part padded with zeroes, and the label count. */
  datatype Zone = Zone(family: Family, addr: Bits, count: nat)

  function Pad(f: Family, b: Bits): (r: Bits)
    requires |b| <= Width(f)
    ensures |r| == Width(f)
  {
    b + Zeros(Width(f) - |b|)
  }

  function ParseLabels(f: Family, labels: seq<string>): (r: Option<Zone>)
    ensures r.Some? ==>
              r.value.family == f && r.value.count == |labels| <= LabelCount(f) && |r.value.addr| == Width(f)
  {
    if labels == [] || |labels| > LabelCount(f) || !LabelsOk(f, labels) then None
    else
      LabelsFit(f, |labels|);
      Some(Zone(f, Pad(f, BitsOf(f, Values(f, labels))), |labels|))
  }

  function ParseReverseZone(domain: string): (r: Option<Zone>)
    ensures r.Some? ==> r.value.count <= LabelCount(r.value.family) && |r.value.addr| == Width(r.value.family)
  {
    var lower := ToLower(domain);
    if HasSuffix(lower, Suffix(InAddr)) then ParseLabels(InAddr, Split(TrimSuffix(lower, Suffix(InAddr))))
    else if HasSuffix(lower, Suffix(IP6)) then ParseLabels(IP6, Split(TrimSuffix(lower, Suffix(IP6))))
    else None
  }

  /** reverseZoneName together with the zone suffix. */
  function PrintZone(z: Zone): string
    requires z.count <= LabelCount(z.family) && |z.addr| == Width(z.family)
  {
    LabelsFit(z.family, z.count);
    Join(NameLabels(z.family, z.addr, z.count)) + Suffix(z.family)
  }

  // --------------------------------------------------------------- lower case

  predicate IsLower(s: string) { ToLower(s) == s }

  lemma LowerChars(s: string)
    ensures IsLower(s) <==> forall i :: 0 <= i < |s| ==> !('A' <= s[i] <= 'Z')
  {
    if !IsLower(s) {
      var i :| 0 <= i < |s| && ToLower(s)[i] != s[i];
    }
    forall i | 0 <= i < |s| && 'A' <= s[i] <= 'Z' ensures ToLower(s)[i] != s[i] {
    }
  }

  lemma LowerConcat(a: string, b: string)
    ensures IsLower(a + b) <==> IsLower(a) && IsLower(b)
  {
    LowerChars(a);
    LowerChars(b);
    LowerChars(a + b);
    assert forall i :: 0 <= i < |a| ==> (a + b)[i] == a[i];
    assert forall i :: 0 <= i < |b| ==> (a + b)[|a| + i] == b[i];
  }

  lemma {:induction false} LowerJoin(labels: seq<string>)
    requires forall i :: 0 <= i < |labels| ==> IsLower(labels[i])
    ensures IsLower(Join(labels))
  {
    if |labels| > 1 {
      LowerJoin(labels[1..]);
      LowerConcat(labels[0] + ".", Join(labels[1..]));
      LowerConcat(labels[0], ".");
    }
  }

  // ------------------------------------------------------------------- labels

  /** A printed label is lower case and parses back to its value. */
  lemma LabelRoundTrip(f: Family, d: nat)
    requires d < Base(f)
    ensures ParseLabel(f, Label(f, d)) == Some(d) && IsLower(Label(f, d))
  {
    LowerChars(Label(f, d));
    DecimalRoundTrip(d);
  }

  predicate CanonicalLabel(f: Family, lbl: string) {
    f == InAddr ==> NoLeadingZero(lbl)
  }

  /** A lower-case label prints back as itself exactly when it has no leading zero. */
  lemma LabelPrintsBack(f: Family, lbl: string)
    requires IsLower(lbl) && ParseLabel(f, lbl).Some?
    ensures Label(f, ParseLabel(f, lbl).value) == lbl <==> CanonicalLabel(f, lbl)
  {
    LowerChars(lbl);
    if f == InAddr {
      DecimalOfValue(lbl);
    } else {
      assert lbl == [lbl[0]];
      assert HexChar(HexValue(lbl[0])) == lbl[0];
    }
  }

  function GroupValue(f: Family, a: Bits, i: nat): nat
    requires LabelBits(f) * (i + 1) <= |a|
  {
    Value(Group(f, a, i))
  }

  function GroupValues(f: Family, a: Bits, n: nat): (r: seq<nat>)
    requires LabelBits(f) * n <= |a|
    ensures |r| == n && forall i :: 0 <= i < n ==> r[i] == GroupValue(f, a, n - 1 - i)
  {
    seq(n, i requires 0 <= i < n => GroupValue(f, a, n - 1 - i))
  }

  lemma {:induction false} BitsOfGroups(f: Family, a: Bits, n: nat)
    requires LabelBits(f) * n <= |a|
    ensures BitsOf(f, GroupValues(f, a, n)) == a[..LabelBits(f) * n]
  {
    if n > 0 {
      var i := n - 1;
      BitsOfGroups(f, a, i);
      ToBitsOfValue(Group(f, a, i));
      assert GroupValues(f, a, n)[1..] == GroupValues(f, a, i);
      LeadingGroup(f, a, i);
    }
  }

  lemma NameLabelsParse(f: Family, a: Bits, n: nat)
    requires LabelBits(f) * n <= |a|
    ensures LabelsOk(f, NameLabels(f, a, n)) && BitsOf(f, Values(f, NameLabels(f, a, n))) == a[..LabelBits(f) * n]
  {
    forall i | 0 <= i < n
      ensures ParseLabel(f, NameLabels(f, a, n)[i]) == Some(Value(Group(f, a, n - 1 - i)))
    {
      var g := Group(f, a, n - 1 - i);
      LabelValueBound(f, g);
      LabelRoundTrip(f, Value(g));
    }
    assert Values(f, NameLabels(f, a, n)) == GroupValues(f, a, n);
    BitsOfGroups(f, a, n);
  }

  lemma NameLabelsLower(f: Family, a: Bits, n: nat)
    requires LabelBits(f) * n <= |a|
    ensures IsLower(Join(NameLabels(f, a, n)) + Suffix(f))
  {
    forall i | 0 <= i < n ensures IsLower(NameLabels(f, a, n)[i]) {
      LabelValueBound(f, Group(f, a, n - 1 - i));
      LabelRoundTrip(f, Value(Group(f, a, n - 1 - i)));
    }
    LowerJoin(NameLabels(f, a, n));
    LowerChars(Suffix(f));
    LowerConcat(Join(NameLabels(f, a, n)), Suffix(f));
  }

  /** The two suffixes exclude each other and come off again. */
  lemma SuffixDecides(j: string, f: Family)
    ensures HasSuffix(j + Suffix(f), Suffix(f)) && TrimSuffix(j + Suffix(f), Suffix(f)) == j
    ensures f == IP6 ==> !HasSuffix(j + Suffix(f), Suffix(InAddr))
  {
    assert f == IP6 ==> (j + Suffix(f))[|j + Suffix(f)| - 6] == '6';
    assert Suffix(InAddr)[|Suffix(InAddr)| - 6] == 'r';
  }

  /** Parsing what the printer writes truncates the address to its first labels. */
  lemma ParseOfPrint(f: Family, a: Bits, n: nat)
    requires |a| == Width(f) && 1 <= n <= LabelCount(f)
    ensures LabelBits(f) * n <= Width(f)
    ensures ParseReverseZone(PrintZone(Zone(f, a, n))) == Some(Zone(f, Pad(f, a[..LabelBits(f) * n]), n))
  {
    LabelsFit(f, n);
    var labels := NameLabels(f, a, n);
    var name := Join(labels) + Suffix(f);
    NameLabelsLower(f, a, n);
    NameLabelsShape(f, a, n);
    SuffixDecides(Join(labels), f);
    SplitJoin(labels);
    NameLabelsParse(f, a, n);
  }

  /** The parser recovers from a generated zone name, final dot removed, the masked
      network and the rounded-up label count, for every prefix length from 1. */
  lemma ParseOfGenerated(f: Family, net: Bits, bits: nat)
    requires |net| == Width(f) && 1 <= bits <= Width(f)
    ensures var zone := ZoneName(f, net, bits);
            && zone != "" && zone[|zone| - 1] == '.'
            && ParseReverseZone(zone[..|zone| - 1]) == Some(Zone(f, Masked(net, bits), LabelsFor(f, bits)))
  {
    var m, base := LabelsFor(f, bits), Masked(net, bits);
    var s := Join(NameLabels(f, base, m)) + Suffix(f);
    FqdnAddsDot(f, Join(NameLabels(f, base, m)));
    assert (s + ".")[..|s|] == s;
    ParseOfPrint(f, base, m);
    PadMasked(f, net, bits);
  }

  lemma PadMasked(f: Family, net: Bits, bits: nat)
    requires |net| == Width(f) && bits <= Width(f)
    ensures Pad(f, Masked(net, bits)[..LabelBits(f) * LabelsFor(f, bits)]) == Masked(net, bits)
  {
  }

  // ---------------------------------------------------------------- canonical

  /** Lower case, and no octet written with a leading zero. */
  predicate Canonical(domain: string, f: Family) {
    && IsLower(domain)
    && forall i :: 0 <= i < |Split(TrimSuffix(domain, Suffix(f)))| ==>
         CanonicalLabel(f, Split(TrimSuffix(domain, Suffix(f)))[i])
  }

  /** The labels printed from the spelled bits are the values' own labels. */
  lemma {:induction false} LabelsOfBits(f: Family, ds: seq<nat>)
    requires InBase(f, ds)
    ensures forall i :: 0 <= i < |ds| ==> NameLabels(f, BitsOf(f, ds), |ds|)[i] == Label(f, ds[i])
  {
    if ds != [] {
      LabelsOfBits(f, ds[1..]);
      LabelsSpelled(f, ds);
      forall i | 0 < i < |ds| ensures NameLabels(f, BitsOf(f, ds), |ds|)[i] == Label(f, ds[i]) {
        assert ds[i] == ds[1..][i - 1];
      }
    }
  }

  /** The first value is printed first, before the labels of the rest. */
  lemma LabelsSpelled(f: Family, ds: seq<nat>)
    requires InBase(f, ds) && ds != []
    ensures NameLabels(f, BitsOf(f, ds), |ds|)
         == [Label(f, ds[0])] + NameLabels(f, BitsOf(f, ds[1..]), |ds| - 1)
  {
    var n, front, g := |ds| - 1, BitsOf(f, ds[1..]), ToBits(ds[0], LabelBits(f));
    LastGroup(f, front, g, n);
    ReprintedGroup(f, front + g, n, ds[0]);
    SnocLabels(f, front + g, front, n);
  }

  lemma LastGroup(f: Family, front: Bits, g: Bits, i: nat)
    requires |front| == LabelBits(f) * i && |g| == LabelBits(f)
    ensures LabelBits(f) * (i + 1) == |front + g| && Group(f, front + g, i) == g
    ensures (front + g)[..|front|] == front
  {
  }

  lemma SnocLabels(f: Family, b: Bits, front: Bits, i: nat)
    requires LabelBits(f) * (i + 1) <= |b| && LabelBits(f) * i == |front| <= |b| && b[..|front|] == front
    ensures NameLabels(f, b, i + 1) == [GroupLabel(f, b, i)] + NameLabels(f, front, i)
  {
    assert front[..|front|] == front;
    NameLabelsInjective(f, b, front, i);
    NameLabelsStep(f, b, i);
  }

  lemma ReprintedGroup(f: Family, a: Bits, i: nat, d: nat)
    requires LabelBits(f) * (i + 1) <= |a| && d < Base(f)
    requires Group(f, a, i) == ToBits(d, LabelBits(f))
    ensures GroupLabel(f, a, i) == Label(f, d)
  {
    LabelDigitBound(f, d);
    ValueOfToBits(d, LabelBits(f));
  }

  lemma LabelDigitBound(f: Family, d: nat)
    requires d < Base(f)
    ensures d < Pow2(LabelBits(f))
  {
    assert Pow2(4) == 16;
    assert Pow2(8) == 16 * Pow2(4);
  }

  lemma LabelsOfLower(s: string)
    requires IsLower(s)
    ensures forall i :: 0 <= i < |Split(s)| ==> IsLower(Split(s)[i])
    decreases |s|
  {
    if s != "" {
      LowerChars(s);
      LowerChars(s[1..]);
      LabelsOfLower(s[1..]);
      LowerChars([s[0]]);
      LowerConcat([s[0]], Split(s[1..])[0]);
    }
  }

  /** Reprinting parsed labels gives them back exactly when each is canonical. */
  lemma ReprintedLabels(f: Family, labels: seq<string>)
    requires LabelsOk(f, labels) && forall i :: 0 <= i < |labels| ==> IsLower(labels[i])
    ensures NameLabels(f, BitsOf(f, Values(f, labels)), |labels|) == labels <==>
            forall i :: 0 <= i < |labels| ==> CanonicalLabel(f, labels[i])
  {
    var printed := NameLabels(f, BitsOf(f, Values(f, labels)), |labels|);
    LabelsOfBits(f, Values(f, labels));
    forall i | 0 <= i < |labels| ensures printed[i] == labels[i] <==> CanonicalLabel(f, labels[i]) {
      LabelPrintsBack(f, labels[i]);
    }
  }

  /** What a successful parse read. */
  lemma ParsedFrom(domain: string)
    requires ParseReverseZone(domain).Some?
    ensures var z := ParseReverseZone(domain).value;
            var lower, f := ToLower(domain), z.family;
            var stem := TrimSuffix(lower, Suffix(f));
            && lower == stem + Suffix(f)
            && ParseLabels(f, Split(stem)) == Some(z)
            && NameLabels(f, z.addr, z.count) == NameLabels(f, BitsOf(f, Values(f, Split(stem))), z.count)
  {
    var z := ParseReverseZone(domain).value;
    var f := z.family;
    var labels := Split(TrimSuffix(ToLower(domain), Suffix(f)));
    var b := BitsOf(f, Values(f, labels));
    assert z.addr[..|b|] == b && b[..|b|] == b;
    NameLabelsInjective(f, z.addr, b, |labels|);
  }

  /** Reprinting a parsed name gives the name back if and only if it is canonical. */
  lemma PrintOfParseExactly(domain: string)
    requires ParseReverseZone(domain).Some?
    ensures var z := ParseReverseZone(domain).value;
            PrintZone(z) == domain <==> Canonical(domain, z.family)
  {
    var z := ParseReverseZone(domain).value;
    var f := z.family;
    var lower := ToLower(domain);
    var stem := TrimSuffix(lower, Suffix(f));
    var labels := Split(stem);
    ParsedFrom(domain);
    LowerConcat(stem, Suffix(f));
    LabelsOfLower(stem);
    ReprintedLabels(f, labels);
    JoinSplit(stem);
    var printed := NameLabels(f, z.addr, z.count);
    NameLabelsShape(f, z.addr, z.count);
    SplitJoin(printed);
    NameLabelsLower(f, z.addr, z.count);
    if PrintZone(z) == domain {
      assert |Join(printed)| == |stem|;
      AppendInjective(Join(printed), Suffix(f), stem, Suffix(f));
    }
  }
}
