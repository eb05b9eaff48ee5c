/** Which addresses a generated reverse zone covers, for every prefix of both families, and
    where the records collected for a network lie (client/internal/dns.go). */
module ZoneCoverage {
  import opened BitStrings
  import opened Common
  import opened Names
  import opened ReverseZone

  /** One name's labels end in another's, apex included, exactly when the families agree
      and the shorter list ends the longer. */
  lemma ApexTails(f: Family, nv: seq<string>, g: Family, nz: seq<string>)
    ensures LabelSuffix(nv + ApexLabels(f), nz + ApexLabels(g)) <==> f == g && LabelSuffix(nv, nz)
  {
    var ln, lz := nv + ApexLabels(f), nz + ApexLabels(g);
    if |nz| <= |nv| {
      var k := |nv| - |nz|;
      var tail := ln[k..];
      assert tail == nv[k..] + ApexLabels(f);
      assert tail[|nz|] == ApexLabels(f)[0] && lz[|nz|] == ApexLabels(g)[0];
      assert ApexLabels(f)[0] == ApexLabels(g)[0] ==> f == g;
      assert tail[..|nz|] == nv[k..] && lz[..|nz|] == nz;
    }
  }

  /** The last `m` printed labels are the labels of the leading bits. */
  lemma LabelTail(f: Family, a: Bits, n: nat, m: nat)
    requires m <= n && LabelBits(f) * n <= |a|
    ensures LabelBits(f) * m <= |a| && NameLabels(f, a, n)[n - m..] == NameLabels(f, a, m)
  {
  }

  lemma UnderIsTail(name: string, f: Family, nv: seq<string>, zone: string, g: Family, nz: seq<string>)
    requires Split(name) == nv + ApexLabels(f) && nv != [] && nv[|nv| - 1] != ""
    requires Split(zone) == (if nz == [] then [""] else nz) + ApexLabels(g)
    ensures Under(name, zone) <==> f == g && nz != [] && LabelSuffix(nv, nz)
  {
    UnderIsLabelSuffix(name, zone);
    if nz == [] {
      ApexTails(f, nv, g, [""]);
      assert nv[|nv| - 1..] == [nv[|nv| - 1]];
    } else {
      ApexTails(f, nv, g, nz);
    }
  }

  lemma SuffixIsBits(f: Family, a: Bits, base: Bits, m: nat)
    requires |a| == |base| == Width(f) && m <= LabelCount(f)
    ensures LabelSuffix(NameLabels(f, a, LabelCount(f)), NameLabels(f, base, m))
       <==> a[..LabelBits(f) * m] == base[..LabelBits(f) * m]
  {
    LabelTail(f, a, LabelCount(f), m);
    NameLabelsInjective(f, a, base, m);
  }

  /** A PTR name is under a zone exactly when the zone's labels lead the address's. */
  lemma UnderIsBits(f: Family, a: Bits, g: Family, net: Bits, bits: nat)
    requires |a| == Width(f) && |net| == Width(g) && bits <= Width(g)
    ensures var m := LabelBits(g) * LabelsFor(g, bits);
            Under(PtrName(f, a), ZoneName(g, net, bits)) <==>
            f == g && bits > 0 && a[..m] == Masked(net, bits)[..m]
  {
    var base, m := Masked(net, bits), LabelsFor(g, bits);
    PtrSplit(f, a);
    ZoneSplit(g, net, bits);
    UnderIsTail(PtrName(f, a), f, NameLabels(f, a, LabelCount(f)), ZoneName(g, net, bits), g, NameLabels(g, base, m));
    if f == g { SuffixIsBits(f, a, base, m); }
  }

  lemma PtrSplit(f: Family, a: Bits)
    requires |a| == Width(f)
    ensures var nv := NameLabels(f, a, LabelCount(f));
            Split(PtrName(f, a)) == nv + ApexLabels(f) && nv != [] && nv[|nv| - 1] != ""
  {
    NameLabelsShape(f, a, LabelCount(f));
    PrintedSplit(f, NameLabels(f, a, LabelCount(f)));
  }

  lemma ZoneSplit(g: Family, net: Bits, bits: nat)
    requires |net| == Width(g) && bits <= Width(g)
    ensures var nz := NameLabels(g, Masked(net, bits), LabelsFor(g, bits));
            Split(ZoneName(g, net, bits)) == (if nz == [] then [""] else nz) + ApexLabels(g)
  {
    NameLabelsShape(g, Masked(net, bits), LabelsFor(g, bits));
    PrintedSplit(g, NameLabels(g, Masked(net, bits), LabelsFor(g, bits)));
  }

  /** For every prefix and every address of either family: a PTR name at or under the
      generated zone belongs to an address the prefix contains. */
  lemma ZoneCoversOnlyPrefix(f: Family, a: Bits, g: Family, net: Bits, bits: nat)
    requires |a| == Width(f) && |net| == Width(g) && bits <= Width(g)
    requires Under(PtrName(f, a), ZoneName(g, net, bits))
    ensures f == g && Contains(net, bits, a)
  {
    UnderIsBits(f, a, g, net, bits);
    var m := LabelBits(g) * LabelsFor(g, bits);
    assert a[..bits] == a[..m][..bits];
    assert Masked(net, bits)[..m][..bits] == net[..bits];
  }

  /** The prefix length falls on a label boundary. */
  predicate Aligned(f: Family, bits: nat) { bits > 0 && bits % LabelBits(f) == 0 }

  lemma AlignedCovers(f: Family, net: Bits, bits: nat, a: Bits)
    requires |net| == Width(f) && bits <= Width(f)
    requires Aligned(f, bits) && Contains(net, bits, a)
    ensures Under(PtrName(f, a), ZoneName(f, net, bits))
  {
    assert LabelBits(f) * LabelsFor(f, bits) == bits;
    assert Masked(net, bits)[..bits] == net[..bits];
    UnderIsBits(f, a, f, net, bits);
  }

  /** Setting one more bit of a network makes it IPv4-mapped only from a /95. */
  lemma MappedByOneBit(f: Family, net: Bits, bits: nat, m: nat)
    requires |net| == Width(f) && bits < m <= Width(f) && m % LabelBits(f) == 0
    requires IsMapped(Masked(net, bits)[m - 1 := true]) && !IsMapped(Masked(net, bits)) && m < bits + LabelBits(f)
    ensures HalvesMapped(f, net, bits)
  {
    var base := Masked(net, bits);
    var a := base[m - 1 := true];
    assert m <= 96 by {
      if m > 96 { assert forall i :: 0 <= i < 96 ==> base[i] == a[i]; }
    }
    assert a[95] && forall i :: bits <= i < 128 ==> !base[i];
    assert m == 96;
    assert a[94];
  }

  lemma RoundedUp(f: Family, bits: nat)
    requires 0 < bits <= Width(f) && !Aligned(f, bits)
    ensures var m := LabelBits(f) * LabelsFor(f, bits);
            bits < m < bits + LabelBits(f) && m <= Width(f) && m % LabelBits(f) == 0
  {
  }

  /** Of an unaligned prefix, setting the last bit of the last zone label gives an
      address that is contained but whose PTR name is outside the zone. */
  lemma UnalignedMisses(f: Family, net: Bits, bits: nat) returns (a: Bits)
    requires |net| == Width(f) && bits <= Width(f) && !Aligned(f, bits)
    ensures Contains(net, bits, a)
    ensures !Under(PtrName(f, a), ZoneName(f, net, bits))
    ensures IsMapped(a) ==> IsMapped(Masked(net, bits)) || HalvesMapped(f, net, bits)
  {
    var base := Masked(net, bits);
    assert base[..bits] == net[..bits];
    if bits == 0 {
      a := base;
    } else {
      var m := LabelBits(f) * LabelsFor(f, bits);
      RoundedUp(f, bits);
      a := base[m - 1 := true];
      assert a[..bits] == base[..bits];
      assert a[..m] != base[..m] by { assert a[..m][m - 1] && !base[..m][m - 1]; }
      assert IsMapped(a) && !IsMapped(base) ==> HalvesMapped(f, net, bits) by {
        if IsMapped(a) && !IsMapped(base) { MappedByOneBit(f, net, bits, m); }
      }
    }
    UnderIsBits(f, a, f, net, bits);
  }

  /** Every contained address has its PTR name in the zone if and only if the prefix
      length is a positive multiple of the label size. */
  lemma ZoneCoversPrefixExactly(f: Family, net: Bits, bits: nat)
    requires |net| == Width(f) && bits <= Width(f)
    ensures (forall a: Bits :: Contains(net, bits, a) ==> Under(PtrName(f, a), ZoneName(f, net, bits)))
            <==> Aligned(f, bits)
  {
    if Aligned(f, bits) {
      forall a: Bits | Contains(net, bits, a) ensures Under(PtrName(f, a), ZoneName(f, net, bits)) {
        AlignedCovers(f, net, bits, a);
      }
    } else {
      var a := UnalignedMisses(f, net, bits);
      assert Contains(net, bits, a);
    }
  }

  // ------------------------------------------------------- addresses as given

  function Unmapped(f: Family, a: Bits): (r: (Family, Bits))
    requires |a| == Width(f)
    ensures |r.1| == Width(r.0)
  {
    if f == IP6 && IsMapped(a) then (InAddr, a[96..]) else (f, a)
  }

  /** generateReverseZoneName: masked, then unmapped, then rounded by the family that results. */
  function GenerateReverseZoneName(f: Family, net: Bits, bits: nat): Option<string>
    requires |net| == Width(f) && bits <= Width(f)
  {
    var (g, ip) := Unmapped(f, Masked(net, bits));
    if g == InAddr then
      var octets := (bits + 7) / 8;
      if octets > 4 then None else Some(Fqdn(Join(NameLabels(InAddr, ip, octets)) + Suffix(InAddr)))
    else
      Some(Fqdn(Join(NameLabels(IP6, ip, (bits + 3) / 4)) + Suffix(IP6)))
  }

  /** createPTRRecord on a parsed address. */
  function CreatePTRRecord(f: Family, a: Bits, g: Family, net: Bits, bits: nat): Option<string>
    requires |a| == Width(f) && |net| == Width(g) && bits <= Width(g)
  {
    var (h, ip) := Unmapped(f, a);
    if h == g && Contains(net, bits, ip) then Some(PtrName(h, ip)) else None
  }

  /** A zone is generated for every network except an IPv4-mapped one, and it is the zone above. */
  lemma GeneratedZone(f: Family, net: Bits, bits: nat)
    requires |net| == Width(f) && bits <= Width(f)
    ensures GenerateReverseZoneName(f, net, bits) ==
            if f == IP6 && IsMapped(Masked(net, bits)) then None else Some(ZoneName(f, net, bits))
  {
    var ip := Masked(net, bits);
    if f == IP6 && IsMapped(ip) {
      assert ip[95];
      assert bits >= 96;
    }
  }

  /** The one unaligned prefix whose other half is exactly the IPv4-mapped range. */
  predicate HalvesMapped(f: Family, net: Bits, bits: nat)
    requires |net| == Width(f) && bits <= Width(f)
  {
    f == IP6 && bits == 95 && IsMapped(Masked(net, bits)[95 := true])
  }

  ghost predicate RecordsInZone(f: Family, net: Bits, bits: nat)
    requires |net| == Width(f) && bits <= Width(f)
  {
    forall h: Family, a: Bits :: |a| == Width(h) ==> RecordInZone(h, a, f, net, bits)
  }

  predicate RecordInZone(h: Family, a: Bits, f: Family, net: Bits, bits: nat)
    requires |a| == Width(h) && |net| == Width(f) && bits <= Width(f)
  {
    var r := CreatePTRRecord(h, a, f, net, bits);
    r.Some? ==> Under(r.value, ZoneName(f, net, bits))
  }

  lemma HalvedBits(net: Bits, a: Bits)
    requires |net| == 128 && HalvesMapped(IP6, net, 95) && Contains(net, 95, a)
    ensures a[95] ==> IsMapped(a)
    ensures !a[95] ==> a[..96] == Masked(net, 95)[..96]
  {
    var base := Masked(net, 95);
    assert base[..95] == net[..95];
    forall i | 0 <= i < 95 ensures a[i] == base[i] {
      assert a[..95][i] == base[..95][i];
    }
    if a[95] {
      assert forall i :: 0 <= i < 96 ==> a[i] == base[95 := true][i];
    }
  }

  lemma HalvedRecordInZone(h: Family, a: Bits, net: Bits)
    requires |a| == Width(h) && |net| == 128 && HalvesMapped(IP6, net, 95)
    ensures RecordInZone(h, a, IP6, net, 95)
  {
    if CreatePTRRecord(h, a, IP6, net, 95).Some? {
      HalvedBits(net, a);
      UnderIsBits(IP6, a, IP6, net, 95);
    }
  }

  /** Every record collected for a network lies in the generated zone, whatever addresses
      are offered, if and only if the prefix falls on a label boundary, or is the one whose
      addresses outside the zone are all IPv4-mapped and therefore never recorded. */
  lemma RecordsInZoneExactly(f: Family, net: Bits, bits: nat)
    requires |net| == Width(f) && bits <= Width(f)
    requires f == IP6 ==> !IsMapped(Masked(net, bits))
    ensures RecordsInZone(f, net, bits) <==> Aligned(f, bits) || HalvesMapped(f, net, bits)
  {
    if Aligned(f, bits) {
      forall h: Family, a: Bits | |a| == Width(h) ensures RecordInZone(h, a, f, net, bits) {
        if CreatePTRRecord(h, a, f, net, bits).Some? {
          AlignedCovers(f, net, bits, Unmapped(h, a).1);
        }
      }
    } else if HalvesMapped(f, net, bits) {
      forall h: Family, a: Bits | |a| == Width(h) ensures RecordInZone(h, a, f, net, bits) {
        HalvedRecordInZone(h, a, net);
      }
    } else {
      var a := UnalignedMisses(f, net, bits);
      assert Unmapped(f, a) == (f, a);
      assert !RecordInZone(f, a, f, net, bits);
    }
  }
}
