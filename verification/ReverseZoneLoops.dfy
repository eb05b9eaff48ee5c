/** The loops of client/internal/dns.go and client/anonymize/reverse_zone.go that
    fill octet and nibble arrays by reversed index, against the functions above them. */
module ReverseZoneLoops {
  import opened Common
  import opened BitStrings
  import opened ReverseZone
  import opened ReverseZoneParser

  /** The bytes of an address. */
  ghost predicate BytesOf(raw: seq<nat>, a: Bits) {
    |a| == 8 * |raw| && forall i :: 0 <= i < |raw| ==> raw[i] == Value(a[8 * i..8 * i + 8])
  }

  lemma ByteHalves(b: Bits)
    requires |b| == 8
    ensures Value(b) < 256 && Value(b) / 16 == Value(b[..4]) && Value(b) % 16 == Value(b[4..])
  {
    assert b == b[..4] + b[4..];
    ValueAppend(b[..4], b[4..]);
    LabelValueBound(IP6, b[..4]);
    LabelValueBound(IP6, b[4..]);
    assert Pow2(4) == 16;
    NibblePair(Value(b[..4]), Value(b[4..]), Value(b));
  }

  lemma NibblePair(high: nat, low: nat, v: nat)
    requires high < 16 && low < 16 && v == high * 16 + low
    ensures v < 256 && v / 16 == high && v % 16 == low
  {
  }

  /** The nibble a byte contributes at an even or odd position. */
  lemma NibbleOfByte(a: Bits, raw: seq<nat>, i: nat)
    requires BytesOf(raw, a) && i < |raw|
    ensures raw[i] < 256
    ensures GroupLabel(IP6, a, 2 * i) == [HexChar(raw[i] / 16)]
    ensures GroupLabel(IP6, a, 2 * i + 1) == [HexChar(raw[i] % 16)]
  {
    var b := a[8 * i..8 * i + 8];
    ByteHalves(b);
    assert Group(IP6, a, 2 * i) == b[..4];
    assert Group(IP6, a, 2 * i + 1) == b[4..];
  }

  /** createPTRRecord's nibble loop for IPv6. */
  method PtrNibbles(raw: seq<nat>, ghost a: Bits) returns (nibbles: array<string>)
    requires |raw| == 16 && BytesOf(raw, a)
    ensures nibbles[..] == NameLabels(IP6, a, 32)
  {
    nibbles := new string[32](_ => "");
    var i := 0;
    while i < 16
      invariant 0 <= i <= 16
      invariant forall j :: 32 - 2 * i <= j < 32 ==> nibbles[j] == NameLabels(IP6, a, 32)[j]
    {
      NibbleOfByte(a, raw, i);
      nibbles[31 - i * 2] := [HexChar(raw[i] / 16)];
      nibbles[31 - i * 2 - 1] := [HexChar(raw[i] % 16)];
      i := i + 1;
    }
  }

  /** generateReverseZoneName's nibble loop: in order of the address. */
  method AllNibbles(raw: seq<nat>, ghost a: Bits) returns (nibbles: array<string>)
    requires |raw| == 16 && BytesOf(raw, a)
    ensures nibbles.Length == 32 && forall j :: 0 <= j < 32 ==> nibbles[j] == GroupLabel(IP6, a, j)
  {
    nibbles := new string[32](_ => "");
    var i := 0;
    while i < 16
      invariant 0 <= i <= 16
      invariant forall j :: 0 <= j < 2 * i ==> nibbles[j] == GroupLabel(IP6, a, j)
    {
      NibbleOfByte(a, raw, i);
      nibbles[i * 2] := [HexChar(raw[i] / 16)];
      nibbles[i * 2 + 1] := [HexChar(raw[i] % 16)];
      i := i + 1;
    }
  }

  /** generateReverseZoneName's last loop: the first labels, reversed. */
  method ReverseUsed(f: Family, all: seq<string>, count: nat, ghost a: Bits) returns (used: array<string>)
    requires |a| == Width(f) && |all| == LabelCount(f) && count <= LabelCount(f)
    requires forall j :: 0 <= j < LabelCount(f) ==> all[j] == GroupLabel(f, a, j)
    ensures used[..] == NameLabels(f, a, count)
  {
    used := new string[count](_ => "");
    var i := 0;
    while i < count
      invariant 0 <= i <= count
      invariant forall j :: count - i <= j < count ==> used[j] == all[count - 1 - j]
    {
      used[count - 1 - i] := all[i];
      i := i + 1;
    }
    forall j | 0 <= j < count ensures used[..][j] == NameLabels(f, a, count)[j] {
      assert used[j] == all[count - 1 - j];
    }
  }

  /** The octets of an IPv4 address. */
  ghost predicate OctetsOf(octets: seq<nat>, a: Bits) {
    |octets| == 4 && |a| == 32 && forall i :: 0 <= i < 4 ==> octets[i] == Value(Group(InAddr, a, i))
  }

  /** reverseZoneAddrV4. */
  method ReverseZoneAddrV4(labels: seq<string>) returns (octets: seq<nat>, ok: bool)
    ensures ok <==> ParseLabels(InAddr, labels).Some?
    ensures ok ==> OctetsOf(octets, ParseLabels(InAddr, labels).value.addr)
  {
    octets := [];
    if |labels| == 0 || |labels| > 4 { return [], false; }
    var a := new nat[4](_ => 0);
    var n, i := |labels|, 0;
    while i < n
      invariant 0 <= i <= n
      invariant forall j :: 0 <= j < i ==> ParseLabel(InAddr, labels[j]) == Some(a[n - 1 - j])
      invariant forall j :: n <= j < 4 ==> a[j] == 0
    {
      var octet := ParseLabel(InAddr, labels[i]);
      if octet.None? { return [], false; }
      a[n - 1 - i] := octet.value;
      i := i + 1;
    }
    ok, octets := true, a[..];
    ghost var ds := Values(InAddr, labels);
    forall j | 0 <= j < 4
      ensures octets[j] == Value(Group(InAddr, Pad(InAddr, BitsOf(InAddr, ds)), j))
    {
      PaddedGroup(InAddr, ds, j);
      if j < n {
        assert ParseLabel(InAddr, labels[n - 1 - j]) == Some(a[j]);
        assert ds[n - 1 - j] == a[j];
      }
    }
  }

  lemma {:induction false} SpelledGroup(f: Family, ds: seq<nat>, j: nat)
    requires InBase(f, ds) && j < |ds|
    ensures LabelBits(f) * (j + 1) <= LabelBits(f) * |ds|
    ensures Value(Group(f, BitsOf(f, ds), j)) == ds[|ds| - 1 - j]
    decreases |ds|
  {
    var k, n := LabelBits(f), |ds|;
    var front, g := BitsOf(f, ds[1..]), ToBits(ds[0], LabelBits(f));
    if j == n - 1 {
      LastGroup(f, front, g, n - 1);
      LabelDigitBound(f, ds[0]);
      ValueOfToBits(ds[0], k);
    } else {
      SpelledGroup(f, ds[1..], j);
      assert Group(f, front + g, j) == Group(f, front, j);
    }
  }

  /** Group j of the padded address: the label's value, or zero past the labels. */
  lemma PaddedGroup(f: Family, ds: seq<nat>, j: nat)
    requires InBase(f, ds) && |ds| <= LabelCount(f) && j < LabelCount(f)
    ensures LabelBits(f) * |ds| <= Width(f)
    ensures Value(Group(f, Pad(f, BitsOf(f, ds)), j)) == if j < |ds| then ds[|ds| - 1 - j] else 0
  {
    LabelBitsGrow(f, |ds|, LabelCount(f));
    var b := BitsOf(f, ds);
    if j < |ds| {
      LabelBitsGrow(f, j + 1, |ds|);
      SpelledGroup(f, ds, j);
      PadKeepsGroup(f, b, j);
    } else {
      PadGroupZero(f, b, |ds|, j);
    }
  }

  lemma LabelBitsGrow(f: Family, i: nat, j: nat)
    requires i <= j
    ensures LabelBits(f) * i <= LabelBits(f) * j && LabelBits(f) * LabelCount(f) == Width(f)
  {
  }

  lemma PadKeepsGroup(f: Family, b: Bits, j: nat)
    requires |b| <= Width(f) && LabelBits(f) * (j + 1) <= |b|
    ensures Group(f, Pad(f, b), j) == Group(f, b, j)
  {
  }

  lemma PadGroupZero(f: Family, b: Bits, n: nat, j: nat)
    requires |b| == LabelBits(f) * n <= Width(f) && n <= j < LabelCount(f)
    ensures Value(Group(f, Pad(f, b), j)) == 0
  {
    var g, from := Group(f, Pad(f, b), j), LabelBits(f) * j;
    assert from >= |b|;
    assert forall i :: 0 <= i < |g| ==> g[i] == Pad(f, b)[from + i];
    ZeroValue(g);
  }

  /** reverseZoneName's loops: labels appended from the last to the first. */
  method ReverseZoneLabels(f: Family, values: seq<nat>, count: nat, ghost a: Bits) returns (labels: seq<string>)
    requires |a| == Width(f) && |values| == LabelCount(f) && count <= LabelCount(f)
    requires forall i :: 0 <= i < LabelCount(f) ==> values[i] == Value(Group(f, a, i)) && values[i] < Base(f)
    ensures labels == NameLabels(f, a, count)
  {
    labels := [];
    var i: int := count - 1;
    while i >= 0
      invariant -1 <= i < count
      invariant |labels| == count - 1 - i
      invariant forall j :: 0 <= j < |labels| ==> labels[j] == NameLabels(f, a, count)[j]
    {
      assert values[i] == Value(Group(f, a, i));
      labels := labels + [Label(f, values[i])];
      i := i - 1;
    }
  }

  /** reverseZoneAddrV6: nibbles appended from the last label, then padded to 32. */
  method ReverseZoneAddrV6(labels: seq<string>) returns (nibbles: seq<nat>, ok: bool)
    ensures ok <==> ParseLabels(IP6, labels).Some?
    ensures ok ==> |nibbles| == 32 &&
                   forall i :: 0 <= i < 32 ==> nibbles[i] == Value(Group(IP6, ParseLabels(IP6, labels).value.addr, i))
  {
    nibbles := [];
    if |labels| == 0 || |labels| > 32 { return [], false; }
    var n, i: int := |labels|, |labels| - 1;
    while i >= 0
      invariant -1 <= i < n
      invariant |nibbles| == n - 1 - i
      invariant forall j :: i < j < n ==> ParseLabel(IP6, labels[j]) == Some(nibbles[n - 1 - j])
    {
      if |labels[i]| != 1 || !IsHexDigit(labels[i][0]) { return [], false; }
      nibbles := nibbles + [HexValue(labels[i][0])];
      i := i - 1;
    }
    while |nibbles| < 32
      invariant n <= |nibbles| <= 32
      invariant forall j :: 0 <= j < n ==> ParseLabel(IP6, labels[j]) == Some(nibbles[n - 1 - j])
      invariant forall j :: n <= j < |nibbles| ==> nibbles[j] == 0
    {
      nibbles := nibbles + [0];
    }
    ok := true;
    ghost var ds := Values(IP6, labels);
    forall j | 0 <= j < 32
      ensures nibbles[j] == Value(Group(IP6, Pad(IP6, BitsOf(IP6, ds)), j))
    {
      PaddedGroup(IP6, ds, j);
      if j < n {
        assert ParseLabel(IP6, labels[n - 1 - j]) == Some(nibbles[j]);
        assert ds[n - 1 - j] == nibbles[j];
      }
    }
  }
}
