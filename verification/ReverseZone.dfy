/** Reverse DNS names: the PTR and zone printers of client/internal/dns.go for
    in-addr.arpa (section 3.5 of RFC 1035) and ip6.arpa (section 2.5 of RFC 3596).
    Addresses and prefixes are bit strings, most significant bit first. */
module ReverseZone {
  import opened BitStrings
  import opened Names

  // ----------------------------------------------------------------- families

  datatype Family = InAddr | IP6

  function LabelBits(f: Family): nat { if f == InAddr then 8 else 4 }

  function LabelCount(f: Family): nat { if f == InAddr then 4 else 32 }

  function Width(f: Family): nat { if f == InAddr then 32 else 128 }

  function Suffix(f: Family): string { if f == InAddr then ".in-addr.arpa" else ".ip6.arpa" }

  /** A family's labels fit its width. */
  lemma LabelsFit(f: Family, n: nat)
    requires n <= LabelCount(f)
    ensures LabelBits(f) * n <= Width(f)
  {
  }

  /** Number of values one label can take. */
  function Base(f: Family): nat { if f == InAddr then 256 else 16 }

  lemma LabelValueBound(f: Family, g: Bits)
    requires |g| == LabelBits(f)
    ensures Value(g) < Base(f)
  {
    ValueBound(g);
    assert Pow2(4) == 16;
    assert Pow2(8) == 16 * Pow2(4);
  }

  function HexChar(d: nat): char
    requires d < 16
  {
    if d < 10 then ('0' as int + d) as char else ('a' as int + d - 10) as char
  }

  /** How one label is written: an octet in decimal, a nibble in lower-case hex. */
  function Label(f: Family, d: nat): string
    requires d < Base(f)
  {
    if f == InAddr then Decimal(d) else [HexChar(d)]
  }

  /** The i-th octet or nibble of an address. */
  function Group(f: Family, a: Bits, i: nat): (g: Bits)
    requires LabelBits(f) * (i + 1) <= |a|
    ensures |g| == LabelBits(f)
  {
    a[LabelBits(f) * i..LabelBits(f) * (i + 1)]
  }

  function GroupLabel(f: Family, a: Bits, i: nat): string
    requires LabelBits(f) * (i + 1) <= |a|
  {
    LabelValueBound(f, Group(f, a, i));
    Label(f, Value(Group(f, a, i)))
  }

  /** The first `n` labels of an address, last one first. */
  function NameLabels(f: Family, a: Bits, n: nat): (r: seq<string>)
    requires LabelBits(f) * n <= |a|
    ensures |r| == n && forall i :: 0 <= i < n ==> r[i] == GroupLabel(f, a, n - 1 - i)
  {
    seq(n, i requires 0 <= i < n => GroupLabel(f, a, n - 1 - i))
  }

  /** dns.Fqdn. */
  function Fqdn(s: string): string {
    if HasSuffix(s, ".") then s else s + "."
  }

  function PtrName(f: Family, a: Bits): string
    requires |a| == Width(f)
  {
    Fqdn(Join(NameLabels(f, a, LabelCount(f))) + Suffix(f))
  }

  // ----------------------------------------------------------------- prefixes

  /** The network address: everything after the prefix length cleared. */
  function Masked(net: Bits, bits: nat): (r: Bits)
    requires bits <= |net|
    ensures |r| == |net|
  {
    net[..bits] + Zeros(|net| - bits)
  }

  predicate Contains(net: Bits, bits: nat, a: Bits)
    requires bits <= |net|
  {
    |a| == |net| && a[..bits] == net[..bits]
  }

  /** Prefix length rounded up to whole labels. */
  function LabelsFor(f: Family, bits: nat): (r: nat)
    requires bits <= Width(f)
    ensures r <= LabelCount(f) && bits <= LabelBits(f) * r < bits + LabelBits(f)
  {
    (bits + LabelBits(f) - 1) / LabelBits(f)
  }

  function ZoneName(f: Family, net: Bits, bits: nat): string
    requires |net| == Width(f) && bits <= Width(f)
  {
    Fqdn(Join(NameLabels(f, Masked(net, bits), LabelsFor(f, bits))) + Suffix(f))
  }

  /** A name at the zone's apex or below it. */
  predicate Under(name: string, zone: string) {
    name == zone || HasSuffix(name, "." + zone)
  }

  // -------------------------------------------------------------------- labels

  lemma LabelShape(f: Family, d: nat)
    requires d < Base(f)
    ensures Dotless(Label(f, d)) && Label(f, d) != ""
  {
    DecimalRoundTrip(d);
  }

  lemma LabelInjective(f: Family, a: nat, b: nat)
    requires a < Base(f) && b < Base(f) && Label(f, a) == Label(f, b)
    ensures a == b
  {
    DecimalRoundTrip(a);
    DecimalRoundTrip(b);
  }

  lemma NameLabelsShape(f: Family, a: Bits, n: nat)
    requires LabelBits(f) * n <= |a|
    ensures AllDotless(NameLabels(f, a, n))
    ensures forall i :: 0 <= i < n ==> NameLabels(f, a, n)[i] != ""
  {
    forall i | 0 <= i < n ensures Dotless(NameLabels(f, a, n)[i]) && NameLabels(f, a, n)[i] != "" {
      LabelValueBound(f, Group(f, a, n - 1 - i));
      LabelShape(f, Value(Group(f, a, n - 1 - i)));
    }
  }

  lemma GroupLabelInjective(f: Family, a: Bits, b: Bits, i: nat)
    requires LabelBits(f) * (i + 1) <= |a| && LabelBits(f) * (i + 1) <= |b|
    ensures GroupLabel(f, a, i) == GroupLabel(f, b, i) <==> Group(f, a, i) == Group(f, b, i)
  {
    var x, y := Group(f, a, i), Group(f, b, i);
    LabelValueBound(f, x);
    LabelValueBound(f, y);
    if GroupLabel(f, a, i) == GroupLabel(f, b, i) {
      LabelInjective(f, Value(x), Value(y));
      ValueInjective(x, y);
    }
  }

  lemma NameLabelsStep(f: Family, a: Bits, i: nat)
    requires LabelBits(f) * (i + 1) <= |a|
    ensures NameLabels(f, a, i + 1) == [GroupLabel(f, a, i)] + NameLabels(f, a, i)
  {
  }

  lemma LeadingGroup(f: Family, a: Bits, i: nat)
    requires LabelBits(f) * (i + 1) <= |a|
    ensures a[..LabelBits(f) * (i + 1)] == a[..LabelBits(f) * i] + Group(f, a, i)
  {
    LeadingSplit(a, LabelBits(f) * i, LabelBits(f) * (i + 1));
  }

  /** Equal labels come from equal leading bits. */
  lemma {:induction false} NameLabelsInjective(f: Family, a: Bits, b: Bits, n: nat)
    requires LabelBits(f) * n <= |a| && LabelBits(f) * n <= |b|
    ensures NameLabels(f, a, n) == NameLabels(f, b, n) <==> a[..LabelBits(f) * n] == b[..LabelBits(f) * n]
  {
    if n > 0 {
      var i := n - 1;
      NameLabelsInjective(f, a, b, i);
      NameLabelsInjectiveStep(f, a, b, i);
    }
  }

  lemma NameLabelsInjectiveStep(f: Family, a: Bits, b: Bits, i: nat)
    requires LabelBits(f) * (i + 1) <= |a| && LabelBits(f) * (i + 1) <= |b|
    requires NameLabels(f, a, i) == NameLabels(f, b, i) <==> a[..LabelBits(f) * i] == b[..LabelBits(f) * i]
    ensures NameLabels(f, a, i + 1) == NameLabels(f, b, i + 1)
       <==> a[..LabelBits(f) * (i + 1)] == b[..LabelBits(f) * (i + 1)]
  {
    GroupLabelInjective(f, a, b, i);
    NameLabelsStep(f, a, i);
    NameLabelsStep(f, b, i);
    LeadingGroup(f, a, i);
    LeadingGroup(f, b, i);
    AppendInjective(a[..LabelBits(f) * i], Group(f, a, i), b[..LabelBits(f) * i], Group(f, b, i));
    AppendInjective([GroupLabel(f, a, i)], NameLabels(f, a, i), [GroupLabel(f, b, i)], NameLabels(f, b, i));
  }

  lemma LeadingSplit(a: Bits, i: nat, j: nat)
    requires i <= j <= |a|
    ensures a[..j] == a[..i] + a[i..j]
  {
  }

  lemma AppendInjective<T>(a: seq<T>, x: seq<T>, b: seq<T>, y: seq<T>)
    requires |a| == |b|
    ensures a + x == b + y <==> a == b && x == y
  {
    if a + x == b + y {
      assert a == (a + x)[..|a|] && x == (a + x)[|a|..];
      assert b == (b + y)[..|a|] && y == (b + y)[|a|..];
    }
  }

  function ApexLabels(f: Family): seq<string> {
    if f == InAddr then ["in-addr", "arpa", ""] else ["ip6", "arpa", ""]
  }

  function Apex(f: Family): string { if f == InAddr then "in-addr.arpa." else "ip6.arpa." }

  lemma ApexSplit(f: Family)
    ensures Split(Apex(f)) == ApexLabels(f)
  {
    var labels := ApexLabels(f);
    assert AllDotless(labels);
    assert labels[1..] == ["arpa", ""] && labels[1..][1..] == [""];
    assert Join(labels[1..]) == "arpa.";
    assert Join(labels) == Apex(f);
    SplitJoin(labels);
  }

  lemma FqdnAddsDot(f: Family, j: string)
    ensures Fqdn(j + Suffix(f)) == j + Suffix(f) + "."
  {
    var s, x := j + Suffix(f), Suffix(f);
    assert s[|s| - 1] == x[|x| - 1] == 'a';
  }

  lemma PrintedFqdn(f: Family, j: string)
    ensures Fqdn(j + Suffix(f)) == j + "." + Apex(f)
  {
    FqdnAddsDot(f, j);
    assert Suffix(f) + "." == "." + Apex(f);
    assert j + Suffix(f) + "." == j + (Suffix(f) + ".");
    assert j + ("." + Apex(f)) == j + "." + Apex(f);
  }

  /** A printed name with its final dot, as labels. */
  lemma PrintedSplit(f: Family, labels: seq<string>)
    requires AllDotless(labels)
    ensures Fqdn(Join(labels) + Suffix(f)) == Join(labels) + "." + Apex(f)
    ensures Split(Join(labels) + "." + Apex(f)) == (if labels == [] then [""] else labels) + ApexLabels(f)
  {
    PrintedFqdn(f, Join(labels));
    ApexSplit(f);
    SplitAround(Join(labels), Apex(f));
    if labels != [] { SplitJoin(labels); }
  }

  predicate LabelSuffix(name: seq<string>, zone: seq<string>) {
    |zone| <= |name| && name[|name| - |zone|..] == zone
  }

  lemma UnderHasLabelSuffix(x: string, zone: string)
    ensures LabelSuffix(Split(x + "." + zone), Split(zone))
  {
    SplitAround(x, zone);
  }

  lemma AppendIsUnder(x: string, zone: string)
    ensures Under(x + "." + zone, zone)
  {
    assert x + "." + zone == x + ("." + zone);
    SuffixOfAppend(x, "." + zone);
  }

  lemma LabelSuffixIsUnder(name: string, zone: string)
    requires LabelSuffix(Split(name), Split(zone))
    ensures Under(name, zone)
  {
    var ln, lz := Split(name), Split(zone);
    JoinSplit(name);
    JoinSplit(zone);
    var front := ln[..|ln| - |lz|];
    assert ln == front + lz;
    if front == [] {
      assert ln == lz;
    } else {
      JoinAppend(front, lz);
      AppendIsUnder(Join(front), zone);
    }
  }

  /** Being under a zone is having its labels at the end. */
  lemma UnderIsLabelSuffix(name: string, zone: string)
    ensures Under(name, zone) <==> LabelSuffix(Split(name), Split(zone))
  {
    if LabelSuffix(Split(name), Split(zone)) {
      LabelSuffixIsUnder(name, zone);
    } else if Under(name, zone) && name != zone {
      var x := name[..|name| - |zone| - 1];
      assert name == x + "." + zone;
      UnderHasLabelSuffix(x, zone);
    }
  }

  /** An IPv4-mapped IPv6 address, ::ffff:0:0/96. */
  predicate IsMapped(a: Bits) {
    |a| == 128 && (forall i :: 0 <= i < 80 ==> !a[i]) && (forall i :: 80 <= i < 96 ==> a[i])
  }
}
