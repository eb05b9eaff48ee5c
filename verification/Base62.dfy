/** Base 62 numerals of 32-bit values (base62/base62.go). */
module Base62 {
  import opened Common

  const DIGITS := "0123456789"
  const UPPER := "ABCDEFGHIJKLMNOPQRSTUVWXYZ"
  const LOWER := "abcdefghijklmnopqrstuvwxyz"
  const ALPHABET := DIGITS + UPPER + LOWER
  const LIMIT := 0x1_0000_0000

  // ---------------------------------------------------------------------- digits

  predicate IsDigit(c: char) { '0' <= c <= '9' || 'A' <= c <= 'Z' || 'a' <= c <= 'z' }

  /** The position of `c` in the alphabet. */
  function IndexOf(c: char): (r: nat)
    requires IsDigit(c)
    ensures r < 62
  {
    if c <= '9' then c as int - '0' as int
    else if c <= 'Z' then c as int - 'A' as int + 10
    else c as int - 'a' as int + 36
  }

  lemma DigitsAt(i: nat)
    requires i < 10
    ensures IsDigit(DIGITS[i]) && IndexOf(DIGITS[i]) == i
  {
  }

  lemma UpperAt(i: nat)
    requires i < 26
    ensures IsDigit(UPPER[i]) && IndexOf(UPPER[i]) == i + 10
  {
  }

  lemma LowerAt(i: nat)
    requires i < 26
    ensures IsDigit(LOWER[i]) && IndexOf(LOWER[i]) == i + 36
  {
  }

  function DigitOf(d: nat): (c: char)
    requires d < 62
    ensures IsDigit(c) && IndexOf(c) == d
  {
    if d < 10 then ('0' as int + d) as char
    else if d < 36 then ('A' as int + d - 10) as char
    else ('a' as int + d - 36) as char
  }

  lemma DigitOfIndex(c: char)
    requires IsDigit(c)
    ensures DigitOf(IndexOf(c)) == c
  {
  }

  lemma AlphabetAt(d: nat)
    requires d < 62
    ensures ALPHABET[d] == DigitOf(d)
  {
    ThreeParts(DIGITS, UPPER, LOWER, d);
    if d < 10 {
      DigitsAt(d);
      DigitOfIndex(DIGITS[d]);
    } else if d < 36 {
      UpperAt(d - 10);
      DigitOfIndex(UPPER[d - 10]);
    } else {
      LowerAt(d - 36);
      DigitOfIndex(LOWER[d - 36]);
    }
  }

  lemma ThreeParts(a: string, b: string, c: string, d: nat)
    requires d < |a| + |b| + |c|
    ensures (a + b + c)[d] == if d < |a| then a[d] else if d < |a| + |b| then b[d - |a|] else c[d - |a| - |b|]
  {
  }

  lemma AlphabetLength()
    ensures |ALPHABET| == 62
  {
  }

  /** A character is accepted exactly when the alphabet has it, and its index is where. */
  lemma IndexRuneExactly(c: char)
    ensures IsDigit(c) <==> exists d :: 0 <= d < |ALPHABET| && ALPHABET[d] == c
    ensures |ALPHABET| == 62 && (IsDigit(c) ==> ALPHABET[IndexOf(c)] == c)
  {
    AlphabetLength();
    forall d | 0 <= d < 62 ensures ALPHABET[d] == DigitOf(d) { AlphabetAt(d); }
    if IsDigit(c) { DigitOfIndex(c); }
  }

  predicate Valid(s: string) { forall i :: 0 <= i < |s| ==> IsDigit(s[i]) }

  // ------------------------------------------------------------- what they denote

  function Pow(e: nat): nat { if e == 0 then 1 else 62 * Pow(e - 1) }

  /** The number a string of digits denotes. */
  function Value(s: string): nat
    requires Valid(s)
  {
    if s == [] then 0 else Value(s[..|s| - 1]) * 62 + IndexOf(s[|s| - 1])
  }

  /** A numeral without leading zeros. */
  predicate Canonical(s: string) { s != [] && Valid(s) && (s[0] == '0' ==> |s| == 1) }

  /** The numeral of a number. */
  function Numeral(n: nat): string {
    if n < 62 then [DigitOf(n)] else Numeral(n / 62) + [DigitOf(n % 62)]
  }

  lemma {:induction false} NumeralDenotes(n: nat)
    ensures Canonical(Numeral(n)) && Value(Numeral(n)) == n
    ensures Numeral(n)[0] == '0' ==> n == 0
  {
    if n < 62 {
      assert Numeral(n)[..0] == [];
    } else {
      NumeralDenotes(n / 62);
      assert Numeral(n)[..|Numeral(n)| - 1] == Numeral(n / 62);
    }
  }

  /** Each number has one numeral without leading zeros. */
  lemma {:induction false} NumeralUnique(s: string)
    requires Canonical(s)
    ensures Numeral(Value(s)) == s
    ensures s[0] != '0' ==> Value(s) > 0
  {
    DigitOfIndex(s[|s| - 1]);
    var init := s[..|s| - 1];
    if init == [] {
      assert Value(init) == 0;
    } else {
      NumeralUnique(init);
      assert Value(s) / 62 == Value(init) && Value(s) % 62 == IndexOf(s[|s| - 1]);
      assert s == init + [s[|s| - 1]];
    }
  }

  lemma {:induction false} NumeralLength(n: nat, k: nat)
    requires k > 0 && n < Pow(k)
    ensures |Numeral(n)| <= k
  {
    if n >= 62 {
      assert Pow(1) == 62 * Pow(0);
      NumeralLength(n / 62, k - 1);
    }
  }

  /** The numeral of a 32-bit value has at most six digits. */
  lemma NumeralShort(n: nat)
    requires n < LIMIT
    ensures |Numeral(n)| <= 6
  {
    assert Pow(2) == 3_844 && Pow(4) == 14_776_336 && Pow(6) == 56_800_235_584;
    NumeralLength(n, 6);
  }

  lemma Distributes(a: nat, p: nat, v: nat)
    ensures (a * p + v) * 62 == a * (62 * p) + v * 62
  {
  }

  lemma {:induction false} ValueFromFront(c: char, s: string)
    requires IsDigit(c) && Valid(s)
    ensures Valid([c] + s) && Value([c] + s) == IndexOf(c) * Pow(|s|) + Value(s)
  {
    if s == [] {
      assert ([c] + s)[..0] == [];
    } else {
      var init := s[..|s| - 1];
      ValueFromFront(c, init);
      assert ([c] + s)[..|s|] == [c] + init;
      Distributes(IndexOf(c), Pow(|init|), Value(init));
    }
  }

  // --------------------------------------------------------------------- decoding

  /** The 32-bit power of 62 the decoder multiplies with. Powers up to 62^5 are exact; what
      converting a larger floating-point power to 32 bits yields depends on the platform
      and is left to `wide`. */
  function Power(wide: nat -> nat, e: nat): nat { if e <= 5 then Pow(e) else wide(e) % LIMIT }

  /** What one digit adds to the result. */
  function Term(wide: nat -> nat, c: char, e: nat): nat
    requires IsDigit(c)
  {
    IndexOf(c) * Power(wide, e)
  }

  function Wrap(x: nat): nat { x % LIMIT }

  /** What the decoder computes of a string of digits, modulo 2^32. */
  function Decoded(wide: nat -> nat, s: string): nat
    requires Valid(s)
  {
    if s == [] then 0 else Wrap(Term(wide, s[0], |s| - 1) + Decoded(wide, s[1..]))
  }

  lemma WrapAdd(a: nat, b: nat)
    ensures Wrap(a + Wrap(b)) == Wrap(a + b)
  {
    assert a + b == (a + b % LIMIT) + (b / LIMIT) * LIMIT;
  }

  lemma TermExact(wide: nat -> nat, c: char, e: nat)
    requires IsDigit(c) && (e > 5 ==> c == '0')
    ensures Term(wide, c, e) == IndexOf(c) * Pow(e)
  {
    if e > 5 { assert IndexOf(c) == 0; }
  }

  /** Nothing but zeros precedes the last six digits. */
  predicate SixDigits(s: string) { forall i :: 0 <= i < |s| - 6 ==> s[i] == '0' }

  /** On every platform: with at most six digits after leading zeros, decoding gives the
      number denoted, modulo 2^32. */
  lemma {:induction false} DecodedDenotes(wide: nat -> nat, s: string)
    requires Valid(s) && SixDigits(s)
    ensures Decoded(wide, s) == Wrap(Value(s))
  {
    if s != [] {
      var rest := s[1..];
      DecodedDenotes(wide, rest);
      TermExact(wide, s[0], |rest|);
      ValueFromFront(s[0], rest);
      assert s == [s[0]] + rest;
      WrapAdd(Term(wide, s[0], |rest|), Value(rest));
    }
  }

  lemma DecodedFits(wide: nat -> nat, s: string)
    requires Valid(s) && |s| <= 6 && Value(s) < LIMIT
    ensures Decoded(wide, s) == Value(s)
  {
    DecodedDenotes(wide, s);
  }

  /** Decoding undoes encoding on every 32-bit value. */
  lemma DecodeOfEncode(wide: nat -> nat, n: nat)
    requires n < LIMIT
    ensures Canonical(Numeral(n)) && |Numeral(n)| <= 6 && Decoded(wide, Numeral(n)) == n
  {
    NumeralDenotes(n);
    NumeralShort(n);
    DecodedFits(wide, Numeral(n));
  }

  lemma DecodedBounded(wide: nat -> nat, s: string)
    requires Valid(s)
    ensures Decoded(wide, s) < LIMIT
  {
  }

  lemma EncodeOfCanonical(wide: nat -> nat, s: string)
    requires Canonical(s) && Value(s) < LIMIT
    ensures Numeral(Decoded(wide, s)) == s
  {
    NumeralUnique(s);
    DecodeOfEncode(wide, Value(s));
  }

  /** Encoding undoes decoding on exactly the numerals without leading zeros whose number
      fits 32 bits. */
  lemma EncodeOfDecodeExactly(wide: nat -> nat, s: string)
    requires Valid(s)
    ensures Numeral(Decoded(wide, s)) == s <==> Canonical(s) && Value(s) < LIMIT
  {
    DecodedBounded(wide, s);
    var n := Decoded(wide, s);
    if Canonical(s) && Value(s) < LIMIT {
      EncodeOfCanonical(wide, s);
    } else if Numeral(n) == s {
      NumeralDenotes(n);
    }
  }

  // ------------------------------------------------------------------- the loops

  function Reversed(s: string): string { seq(|s|, i requires 0 <= i < |s| => s[|s| - 1 - i]) }

  /** Swaps the characters pairwise from both ends. */
  method ReverseRunes(runes: array<char>)
    modifies runes
    ensures runes[..] == Reversed(old(runes[..]))
  {
    var i, j := 0, runes.Length - 1;
    while i < j
      invariant 0 <= i <= runes.Length && j == runes.Length - 1 - i && i <= j + 1
      invariant forall k :: 0 <= k < i ==> runes[k] == old(runes[runes.Length - 1 - k])
      invariant forall k :: j < k < runes.Length ==> runes[k] == old(runes[runes.Length - 1 - k])
      invariant forall k :: i <= k <= j ==> runes[k] == old(runes[k])
    {
      runes[i], runes[j] := runes[j], runes[i];
      i, j := i + 1, j - 1;
    }
  }

  method Reverse(s: string) returns (r: string)
    ensures r == Reversed(s)
  {
    var runes := new char[|s|](i requires 0 <= i < |s| => s[i]);
    assert runes[..] == s;
    ReverseRunes(runes);
    r := runes[..];
  }

  method Encode(num: nat) returns (encoded: string)
    requires num < LIMIT
    ensures encoded == Numeral(num)
  {
    if num == 0 { return [DigitOf(0)]; }
    var n: nat, digits := num, "";
    while n > 0
      invariant n > 0 ==> Numeral(num) == Numeral(n) + Reversed(digits)
      invariant n == 0 ==> Numeral(num) == Reversed(digits)
    {
      ghost var was, high := Reversed(digits), n / 62;
      digits := digits + [DigitOf(n % 62)];
      assert Reversed(digits) == [DigitOf(n % 62)] + was;
      assert high > 0 ==> Numeral(n) + was == Numeral(high) + Reversed(digits);
      n := n / 62;
    }
    encoded := Reverse(digits);
    assert encoded == Reversed(digits);
  }

  lemma DecodedStart(wide: nat -> nat, s: string)
    ensures Valid(s) ==> Wrap(Decoded(wide, s)) == Decoded(wide, s)
  {
    if Valid(s) { DecodedBounded(wide, s); }
  }

  lemma DecodedEnd(wide: nat -> nat, s: string, sofar: nat)
    requires sofar < LIMIT
    ensures Wrap(sofar + Decoded(wide, s[|s|..])) == sofar
  {
  }

  lemma DecodedUnfolds(wide: nat -> nat, s: string, i: nat)
    requires Valid(s) && i < |s|
    ensures Decoded(wide, s[i..]) == Wrap(Term(wide, s[i], |s| - i - 1) + Decoded(wide, s[i + 1..]))
  {
    assert s[i..][1..] == s[i + 1..];
  }

  lemma DecodedStep(wide: nat -> nat, s: string, i: nat, sofar: nat)
    requires Valid(s) && i < |s|
    ensures Wrap(Wrap(sofar + Wrap(Term(wide, s[i], |s| - i - 1))) + Decoded(wide, s[i + 1..]))
         == Wrap(sofar + Decoded(wide, s[i..]))
  {
    var term, rest, suffix := Term(wide, s[i], |s| - i - 1), Decoded(wide, s[i + 1..]), Decoded(wide, s[i..]);
    assert suffix == Wrap(term + rest) by { DecodedUnfolds(wide, s, i); }
    Advances(sofar, term, rest, suffix);
  }

  lemma Advances(sofar: nat, term: nat, rest: nat, suffix: nat)
    requires suffix == Wrap(term + rest)
    ensures Wrap(Wrap(sofar + Wrap(term)) + rest) == Wrap(sofar + suffix)
  {
    Accumulates(sofar, term, rest);
  }

  lemma Accumulates(a: nat, b: nat, c: nat)
    ensures Wrap(Wrap(a + Wrap(b)) + c) == Wrap(a + Wrap(b + c))
  {
    WrapAdd(a, b);
    WrapAdd(c, a + b);
    WrapAdd(a, b + c);
  }

  /** None is the error for the first character outside the alphabet. */
  method Decode(wide: nat -> nat, encoded: string) returns (r: Option<nat>)
    ensures r.Some? <==> Valid(encoded)
    ensures Valid(encoded) ==> r == Some(Decoded(wide, encoded))
  {
    var decoded: nat, i := 0, 0;
    assert encoded[0..] == encoded;
    DecodedStart(wide, encoded);
    while i < |encoded|
      invariant 0 <= i <= |encoded| && decoded < LIMIT
      invariant forall k :: 0 <= k < i ==> IsDigit(encoded[k])
      invariant Valid(encoded) ==> Wrap(decoded + Decoded(wide, encoded[i..])) == Decoded(wide, encoded)
    {
      if !IsDigit(encoded[i]) { return None; }
      if Valid(encoded) { DecodedStep(wide, encoded, i, decoded); }
      decoded := Wrap(decoded + Wrap(Term(wide, encoded[i], |encoded| - i - 1)));
      i := i + 1;
    }
    DecodedEnd(wide, encoded, decoded);
    r := Some(decoded);
  }
}
