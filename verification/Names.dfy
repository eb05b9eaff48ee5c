/** Dot-separated names and decimal labels: strings.Split, Join, HasSuffix and
    strconv as far as domain names need them. */
module Names {

  predicate HasSuffix(s: string, suffix: string) {
    |suffix| <= |s| && s[|s| - |suffix|..] == suffix
  }

  function TrimSuffix(s: string, suffix: string): string {
    if HasSuffix(s, suffix) then s[..|s| - |suffix|] else s
  }

  lemma SuffixOfAppend(x: string, y: string)
    ensures HasSuffix(x + y, y)
  {
  }

  /** strings.Split(s, "."). */
  function Split(s: string): (r: seq<string>)
    ensures r != []
  {
    if s == "" then [""]
    else if s[0] == '.' then [""] + Split(s[1..])
    else var rest := Split(s[1..]); [[s[0]] + rest[0]] + rest[1..]
  }

  /** strings.Join(labels, "."). */
  function Join(labels: seq<string>): string {
    if labels == [] then ""
    else if |labels| == 1 then labels[0]
    else labels[0] + "." + Join(labels[1..])
  }

  predicate Dotless(s: string) { '.' !in s }

  predicate AllDotless(labels: seq<string>) {
    forall i :: 0 <= i < |labels| ==> Dotless(labels[i])
  }

  lemma {:induction false} JoinSplit(s: string)
    ensures Join(Split(s)) == s
  {
    if s != "" {
      JoinSplit(s[1..]);
      var rest := Split(s[1..]);
      if s[0] == '.' {
        assert ([""] + rest)[1..] == rest;
        assert Join([""] + rest) == "" + "." + Join(rest);
      } else {
        var r := [[s[0]] + rest[0]] + rest[1..];
        assert r[1..] == rest[1..];
        assert Join(r) == [s[0]] + Join(rest);
      }
      assert s == [s[0]] + s[1..];
    }
  }

  lemma {:induction false} SplitDotless(s: string)
    ensures AllDotless(Split(s))
  {
    if s != "" {
      SplitDotless(s[1..]);
      var rest := Split(s[1..]);
      if s[0] != '.' {
        assert Dotless(rest[0]);
      }
    }
  }

  lemma {:induction false} SplitOne(s: string)
    requires Dotless(s)
    ensures Split(s) == [s]
  {
    if s != "" {
      assert s[0] in s && forall c :: c in s[1..] ==> c in s;
      SplitOne(s[1..]);
      assert s == [s[0]] + s[1..];
    }
  }

  lemma SplitHead(c: char, s: string)
    ensures Split([c] + s)
         == if c == '.' then [""] + Split(s) else [[c] + Split(s)[0]] + Split(s)[1..]
  {
    assert ([c] + s)[1..] == s;
  }

  /** Splitting around a dot splits both sides. */
  lemma {:induction false} SplitAround(a: string, b: string)
    ensures Split(a + "." + b) == Split(a) + Split(b)
  {
    if a == "" {
      assert a + "." + b == ['.'] + b;
      SplitHead('.', b);
    } else {
      SplitAround(a[1..], b);
      SplitAroundStep(a[0], a[1..], b);
      assert a == [a[0]] + a[1..];
    }
  }

  lemma SplitAroundStep(c: char, a: string, b: string)
    requires Split(a + "." + b) == Split(a) + Split(b)
    ensures Split([c] + a + "." + b) == Split([c] + a) + Split(b)
  {
    SplitHead(c, a);
    SplitHead(c, a + "." + b);
    ConsAppend(c, a, b);
    if c == '.' {
      EmptyHead(Split(a), Split(b));
    } else {
      HeadAppend([c], Split(a), Split(b));
    }
  }

  lemma ConsAppend(c: char, a: string, b: string)
    ensures [c] + (a + "." + b) == [c] + a + "." + b
  {
  }

  lemma EmptyHead(x: seq<string>, y: seq<string>)
    ensures [""] + (x + y) == [""] + x + y
  {
  }

  lemma HeadAppend(h: string, x: seq<string>, y: seq<string>)
    requires x != []
    ensures [h + (x + y)[0]] + (x + y)[1..] == [h + x[0]] + x[1..] + y
  {
    assert (x + y)[1..] == x[1..] + y;
  }

  lemma {:induction false} SplitJoin(labels: seq<string>)
    requires labels != [] && AllDotless(labels)
    ensures Split(Join(labels)) == labels
  {
    SplitOne(labels[0]);
    if |labels| > 1 {
      SplitJoin(labels[1..]);
      SplitAround(labels[0], Join(labels[1..]));
    } else {
      assert labels == [labels[0]];
    }
  }

  lemma {:induction false} JoinAppend(a: seq<string>, b: seq<string>)
    requires a != [] && b != []
    ensures Join(a + b) == Join(a) + "." + Join(b)
  {
    if |a| == 1 {
      assert (a + b)[1..] == b;
    } else {
      assert (a + b)[1..] == a[1..] + b;
      JoinAppend(a[1..], b);
    }
  }

  // ----------------------------------------------------------------- decimals

  predicate IsDigit(c: char) { '0' <= c <= '9' }

  function DigitChar(d: nat): char
    requires d < 10
  {
    ('0' as int + d) as char
  }

  function DigitValue(c: char): nat
    requires IsDigit(c)
  {
    c as int - '0' as int
  }

  /** strconv.Itoa of a natural number. */
  function Decimal(n: nat): (r: string)
    ensures r != "" && forall i :: 0 <= i < |r| ==> IsDigit(r[i])
  {
    if n < 10 then [DigitChar(n)] else Decimal(n / 10) + [DigitChar(n % 10)]
  }

  predicate AllDigits(s: string) {
    s != "" && forall i :: 0 <= i < |s| ==> IsDigit(s[i])
  }

  function DecimalValue(s: string): nat
    requires forall i :: 0 <= i < |s| ==> IsDigit(s[i])
  {
    if s == "" then 0
    else DecimalValue(s[..|s| - 1]) * 10 + DigitValue(s[|s| - 1])
  }

  predicate NoLeadingZero(s: string) { |s| == 1 || (s != "" && s[0] != '0') }

  lemma {:induction false} DecimalRoundTrip(n: nat)
    ensures DecimalValue(Decimal(n)) == n
    ensures NoLeadingZero(Decimal(n)) && Dotless(Decimal(n))
    ensures n > 0 ==> Decimal(n)[0] != '0'
  {
    if n >= 10 {
      DecimalRoundTrip(n / 10);
      var s := Decimal(n);
      assert s[..|s| - 1] == Decimal(n / 10);
    } else {
      assert Decimal(n)[..0] == "";
    }
  }

  lemma DecimalStep(n: nat, c: char)
    requires n > 0 && IsDigit(c)
    ensures Decimal(n * 10 + DigitValue(c)) == Decimal(n) + [c]
  {
    var m := n * 10 + DigitValue(c);
    assert m / 10 == n && m % 10 == DigitValue(c);
  }

  lemma {:induction false} DecimalOfCanonical(s: string)
    requires AllDigits(s) && NoLeadingZero(s)
    ensures Decimal(DecimalValue(s)) == s
    ensures s != "0" ==> DecimalValue(s) > 0
  {
    if |s| == 1 {
      assert s[..0] == "" && s == [s[0]];
    } else {
      var i := s[..|s| - 1];
      assert i[0] == s[0];
      DecimalOfCanonical(i);
      DecimalStep(DecimalValue(i), s[|s| - 1]);
      assert s == i + [s[|s| - 1]];
    }
  }

  lemma DecimalOfValue(s: string)
    requires AllDigits(s)
    ensures Decimal(DecimalValue(s)) == s <==> NoLeadingZero(s)
    ensures NoLeadingZero(s) && s != "0" ==> DecimalValue(s) > 0
  {
    if NoLeadingZero(s) {
      DecimalOfCanonical(s);
    } else {
      DecimalRoundTrip(DecimalValue(s));
    }
  }
}
