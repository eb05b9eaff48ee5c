/** The anonymizer's state updated in place (client/anonymize/anonymize.go), each
    method tied to the transition it performs. */
module Anonymizer {
  import opened Common
  import opened Names
  import opened NetIP
  import opened ReverseZone
  import opened ReverseZoneParser
  import IP = AnonymizeIP
  import AD = AnonymizeDomain
  import SD = SortedDomains

  class Anonymizer {
    var level: IP.Level
    var ipAnonymizer: map<Addr, Addr>
    var currentAnonIPv4: Addr
    var currentAnonIPv6: Addr
    var currentAnonInternalIPv4: Addr
    var currentAnonInternalIPv6: Addr
    var domainAnonymizer: map<string, string>
    var domainOrder: seq<string>
    var labelAnonymizer: map<string, string>
    var labelAnonymized: set<string>
    var labelCounter: nat

    function IPState(): IP.State
      reads this
    {
      IP.State(level, ipAnonymizer, currentAnonIPv4, currentAnonIPv6, currentAnonInternalIPv4, currentAnonInternalIPv6)
    }

    function State(): AD.State
      reads this
    {
      AD.State(IPState(), domainAnonymizer, labelAnonymizer, labelAnonymized, labelCounter)
    }

    constructor (level: IP.Level)
      ensures State() == AD.New(level) && domainOrder == []
    {
      this.level := level;
      ipAnonymizer := map[];
      currentAnonIPv4, currentAnonIPv6 := V4(IP.Start(IP.Public4)), V6(IP.Start(IP.Public6), "");
      currentAnonInternalIPv4, currentAnonInternalIPv6 := V4(IP.Start(IP.Internal4)), V6(IP.Start(IP.Internal6), "");
      domainAnonymizer, domainOrder, labelAnonymizer, labelAnonymized, labelCounter := map[], [], map[], {}, 0;
    }

    method NextAnonIP(ip: Addr) returns (anon: Addr)
      modifies this`currentAnonIPv4, this`currentAnonIPv6, this`currentAnonInternalIPv4, this`currentAnonInternalIPv6
      ensures (IPState(), anon) == IP.NextAnonIP(old(IPState()), ip)
    {
      if level == IP.LevelStrict && (IP.IsInternal(ip) || IsPrivate(ip)) {
        if ip.V4? {
          anon := currentAnonInternalIPv4;
          currentAnonInternalIPv4 := Next(currentAnonInternalIPv4);
          return;
        }
        anon := currentAnonInternalIPv6;
        currentAnonInternalIPv6 := Next(currentAnonInternalIPv6);
        return;
      }
      if ip.V4? {
        anon := currentAnonIPv4;
        currentAnonIPv4 := Next(currentAnonIPv4);
        return;
      }
      anon := currentAnonIPv6;
      currentAnonIPv6 := Next(currentAnonIPv6);
    }

    method AnonymizeIP(ip: Addr) returns (r: Addr)
      modifies this`ipAnonymizer, this`currentAnonIPv4, this`currentAnonIPv6,
               this`currentAnonInternalIPv4, this`currentAnonInternalIPv6
      ensures (IPState(), r) == IP.Anonymize(old(IPState()), ip)
    {
      var a := Unmap(ip);
      if IP.Preserved(a) || IP.InAnonymizedRange(IPState(), a) { return a; }
      if IP.IsInternal(a) && level == IP.LevelDefault { return a; }
      if a !in ipAnonymizer {
        var anon := NextAnonIP(a);
        ipAnonymizer := ipAnonymizer[a := anon];
      }
      r := ipAnonymizer[a];
    }

    method AnonymizeLabel(lbl: string, k: AD.Kind) returns (anon: string)
      modifies this`labelAnonymizer, this`labelAnonymized, this`labelCounter
      ensures (State(), anon) == AD.AnonymizeLabel(old(State()), lbl, k)
    {
      if lbl == "*" { return lbl; }
      if lbl in labelAnonymized { return lbl; }
      if lbl !in labelAnonymizer {
        labelCounter := (labelCounter + 1) % AD.UINT32;
        anon := AD.Placeholder(k, labelCounter);
        labelAnonymizer := labelAnonymizer[lbl := anon];
        labelAnonymized := labelAnonymized + {anon};
      }
      anon := labelAnonymizer[lbl];
    }

    method AnonymizeLabels(prefix: string, k: AD.Kind) returns (r: string)
      modifies this`labelAnonymizer, this`labelAnonymized, this`labelCounter
      ensures State() == AD.AnonymizeLabels(old(State()), Split(prefix), k).0
      ensures r == Join(AD.AnonymizeLabels(old(State()), Split(prefix), k).1)
    {
      var labels := Split(prefix);
      ghost var given, done := labels, [];
      ghost var s0 := State();
      ghost var s := s0;
      ProgressStart(s, given, k);
      assert labels == done + given[0..];
      var i := 0;
      while i < |labels|
        invariant 0 <= i <= |labels| == |given| && |done| == i && labels == done + given[i..]
        invariant State() == s && Progress(s0, s, given, done, i, k)
      {
        ProgressStep(s0, s, given, done, i, k);
        ReplaceNext(done, given, i, AD.AnonymizeLabel(s, given[i], k).1);
        var anon := AnonymizeLabel(labels[i], k);
        labels := labels[i := anon];
        done := done + [anon];
        s := State();
        i := i + 1;
      }
      ProgressEnd(s0, s, given, done, k);
      assert labels == done;
      r := Join(labels);
    }

    method AnonymizePeerName(base: string, suffix: string) returns (r: string)
      modifies this`domainAnonymizer, this`labelAnonymizer, this`labelAnonymized, this`labelCounter
      ensures (State(), r) == AD.AnonymizePeerName(old(State()), base, suffix)
    {
      var labels := AnonymizeLabels(TrimSuffix(base, "." + suffix), AD.Peer);
      FrameLabels(old(State()), Split(TrimSuffix(base, "." + suffix)), AD.Peer);
      r := labels + "." + suffix;
      if r != base {
        domainAnonymizer := domainAnonymizer[base := r];
      }
    }

    /** AnonymizeDomain for names that are neither anonymous, reverse zones nor protected. */
    method AnonymizeOther(base: string, random: string) returns (r: string)
      requires |Split(base)| >= 2
      modifies this`domainAnonymizer, this`labelAnonymizer, this`labelAnonymized, this`labelCounter
      ensures (State(), r) == AD.AnonymizeOther(old(State()), base, Split(base), random)
    {
      var parts := Split(base);
      var lookup := parts[|parts| - 2] + "." + parts[|parts| - 1];
      if lookup !in domainAnonymizer {
        domainAnonymizer := domainAnonymizer[lookup := "anon-" + random + AD.ANON_TLD];
      }
      var anonymized := domainAnonymizer[lookup];
      r := AD.ReplaceOnce(base, lookup, anonymized);
      if level == IP.LevelStrict && |parts| > 2 {
        ghost var before := State();
        FrameLabels(before, Split(TrimSuffix(base, "." + lookup)), AD.Host);
        var labels := AnonymizeLabels(TrimSuffix(base, "." + lookup), AD.Host);
        r := labels + "." + anonymized;
        domainAnonymizer := domainAnonymizer[base := r];
      }
    }

    /** None stands for the run-time panic. */
    method AnonymizeDomain(domain: string, random: string) returns (r: Option<string>)
      modifies this
      ensures domainOrder == old(domainOrder)
      ensures State() == AD.Anonymize(old(State()), domain, random).0
      ensures r == if AD.Panics(old(State()), domain) then None else Some(AD.Anonymize(old(State()), domain, random).1)
    {
      var hasDot := HasSuffix(domain, ".");
      var base := domain;
      if hasDot { base := domain[..|domain| - 1]; }
      if HasSuffix(base, AD.ANON_TLD) { return Some(domain); }
      var answer, isZone := AnonymizeReverseZone(base);
      if isZone {
        return if answer.None? then None else Some(AD.WithTrailingDot(answer.value, hasDot));
      }
      var suffix := AD.ProtectedSuffix(base);
      if suffix != "" {
        if level == IP.LevelDefault || base == suffix || suffix == AD.INFRA_DOMAIN { return Some(domain); }
        var name := AnonymizePeerName(base, suffix);
        return Some(AD.WithTrailingDot(name, hasDot));
      }
      if |Split(base)| < 2 { return Some(domain); }
      var name := AnonymizeOther(base, random);
      r := Some(AD.WithTrailingDot(name, hasDot));
    }

    /** Not ok for a name that is not a reverse zone; None where the printer indexes past the
        replacement's octets. */
    method AnonymizeReverseZone(base: string) returns (r: Option<string>, ok: bool)
      modifies this`ipAnonymizer, this`currentAnonIPv4, this`currentAnonIPv6,
               this`currentAnonInternalIPv4, this`currentAnonInternalIPv6
      ensures ok <==> ParseReverseZone(base).Some?
      ensures State() == if ok then AD.AnonymizeReverseZone(old(State()), base).0 else old(State())
      ensures r == if !ok then Some("")
                   else if AD.Overruns(old(State()), base) then None
                   else Some(AD.AnonymizeReverseZone(old(State()), base).1)
    {
      var zone := ParseReverseZone(base);
      if zone.None? { return Some(""), false; }
      var x := AD.AddrOf(zone.value);
      var a := AnonymizeIP(x);
      if a == x { return Some(base), true; }
      var f, count := AD.FamilyOf(a), zone.value.count;
      if count > LabelCount(f) { return None, true; }
      LabelsFit(f, count);
      return Some(Join(NameLabels(f, AD.BitsOfAddr(a), count)) + Suffix(zone.value.family)), true;
    }

    /** The cached order, rebuilt only on a length mismatch, walking the map in any order. */
    method SortedDomains() returns (order: seq<string>, ghost walk: seq<string>)
      modifies this`domainOrder
      ensures SD.Walks(walk, SD.Cached(State(), old(domainOrder)))
      ensures (SD.Cached(State(), domainOrder), order) == SD.Lookup(SD.Cached(old(State()), old(domainOrder)), walk)
    {
      var keys := domainAnonymizer.Keys;
      var listed: seq<string> := [];
      var rest := keys;
      while rest != {}
        invariant rest <= keys && SD.Distinct(listed) && SD.Elements(listed) == keys - rest
        invariant domainOrder == old(domainOrder)
        decreases rest
      {
        var d :| d in rest;
        assert d !in SD.Elements(listed);
        assert SD.Elements(listed + [d]) == SD.Elements(listed) + {d};
        listed := listed + [d];
        rest := rest - {d};
      }
      walk := listed;
      if |domainOrder| != |domainAnonymizer| {
        domainOrder := SD.Sort(listed);
      }
      order := domainOrder;
    }
  }

  /** The first `i` labels are done and the rest remain. */
  ghost predicate Progress(s0: AD.State, s: AD.State, given: seq<string>, done: seq<string>, i: nat, k: AD.Kind)
    requires i <= |given|
  {
    var (s', rest) := AD.AnonymizeLabels(s, given[i..], k);
    AD.AnonymizeLabels(s0, given, k) == (s', done + rest)
  }

  lemma ProgressStart(s: AD.State, given: seq<string>, k: AD.Kind)
    ensures Progress(s, s, given, [], 0, k)
  {
    assert given[0..] == given;
    var (s', rest) := AD.AnonymizeLabels(s, given, k);
    assert [] + rest == rest;
  }

  lemma ProgressStep(s0: AD.State, s: AD.State, given: seq<string>, done: seq<string>, i: nat, k: AD.Kind)
    requires i < |given| && Progress(s0, s, given, done, i, k)
    ensures var (s', first) := AD.AnonymizeLabel(s, given[i], k);
            Progress(s0, s', given, done + [first], i + 1, k)
  {
    var (s', first) := AD.AnonymizeLabel(s, given[i], k);
    assert given[i..][1..] == given[i + 1..];
    var rest := AD.AnonymizeLabels(s', given[i + 1..], k).1;
    assert done + ([first] + rest) == done + [first] + rest;
  }

  lemma ProgressEnd(s0: AD.State, s: AD.State, given: seq<string>, done: seq<string>, k: AD.Kind)
    requires Progress(s0, s, given, done, |given|, k)
    ensures AD.AnonymizeLabels(s0, given, k) == (s, done)
  {
    assert done + [] == done;
  }

  lemma ReplaceNext(done: seq<string>, given: seq<string>, i: nat, anon: string)
    requires |done| == i < |given|
    ensures (done + given[i..])[i] == given[i]
    ensures (done + given[i..])[i := anon] == done + [anon] + given[i + 1..]
  {
  }

  /** Numbering labels leaves the address state and the domain map alone. */
  lemma {:induction false} FrameLabels(s: AD.State, labels: seq<string>, k: AD.Kind)
    ensures var s' := AD.AnonymizeLabels(s, labels, k).0; s'.ip == s.ip && s'.domains == s.domains
    decreases |labels|
  {
    if labels != [] {
      FrameLabels(AD.AnonymizeLabel(s, labels[0], k).0, labels[1..], k);
    }
  }
}
