/** `sqlite3Atoi64` of bench/fp_corpus/sqlite_excerpt.c, for UTF-8 text. */
module Atoi64 {
  import opened Decimal
  import opened Int64Text

  const LARGEST := 0x7fff_ffff_ffff_ffff
  const SMALLEST := -0x8000_0000_0000_0000

  /** `sqlite3Isspace`, as the C locale's isspace. */
  predicate IsSpace(c: char) { c == ' ' || '\t' <= c <= '\r' }

  // ---- what the text says ----

  /** How many characters from s's start on satisfy p. */
  function Run(s: string, p: char -> bool): (n: nat)
    ensures n <= |s| && (n < |s| ==> !p(s[n]))
    ensures forall i :: 0 <= i < n ==> p(s[i])
  {
    if s == "" || !p(s[0]) then 0 else 1 + Run(s[1..], p)
  }

  /** The text split as optional spaces, an optional sign, digits, and the rest. */
  datatype Split = Split(negative: bool, digits: string, rest: string)

  function SplitText(s: string): (r: Split)
    ensures AllDigits(r.digits)
  {
    var t := s[Run(s, IsSpace)..];
    var negative := t != "" && t[0] == '-';
    var body := if t != "" && (t[0] == '-' || t[0] == '+') then t[1..] else t;
    var n := Run(body, IsDigit);
    Split(negative, body[..n], body[n..])
  }

  /** The value stored: the signed digits, clamped to the 64 bit range. */
  function Stored(r: Split): I64
    requires AllDigits(r.digits)
  {
    var v: int := Value(r.digits);
    if r.negative then (if v > 0x8000_0000_0000_0000 then SMALLEST else -v)
    else if v > LARGEST then LARGEST else v
  }

  /** The return code. */
  function Code(r: Split): int
    requires AllDigits(r.digits)
  {
    var v := Value(r.digits);
    if v > 0x8000_0000_0000_0000 then 2
    else if v == 0x8000_0000_0000_0000 && !r.negative then 3
    else if r.digits == "" then -1
    else if exists i :: 0 <= i < |r.rest| && !IsSpace(r.rest[i]) then 1
    else 0
  }

  // ---- compare2pow63 ----

  /** All but the last digit of 2^63. */
  const POW63 := "922337203685477580"

  lemma ValueOfSnoc(s: string, c: char)
    requires AllDigits(s) && IsDigit(c)
    ensures AllDigits(s + [c]) && Value(s + [c]) == Value(s) * 10 + DigitValue(c)
  {
    assert (s + [c])[..|s|] == s;
  }

  lemma ValueOfThree(s: string)
    requires |s| == 3 && AllDigits(s)
    ensures Value(s) == DigitValue(s[0]) * 100 + DigitValue(s[1]) * 10 + DigitValue(s[2])
  {
    assert s[..2][..1] == s[..1] && s[..1][..0] == "";
    assert Value(s[..1]) == DigitValue(s[0]);
    assert Value(s[..2]) == Value(s[..1]) * 10 + DigitValue(s[1]);
  }

  lemma ValueOfSix(s: string)
    requires |s| == 6 && AllDigits(s)
    ensures Value(s) == DigitValue(s[0]) * 100000 + DigitValue(s[1]) * 10000 + DigitValue(s[2]) * 1000
                      + DigitValue(s[3]) * 100 + DigitValue(s[4]) * 10 + DigitValue(s[5])
  {
    hide Value;
    ValueOfThree(s[..3]);
    ValueOfThree(s[3..]);
    assert s == s[..3] + s[3..];
    ValueOfSum(s[..3], s[3..]);
    assert Pow10(3) == 1000;
  }

  lemma Pow63Value()
    ensures AllDigits(POW63 + "8") && Value(POW63 + "8") == 0x8000_0000_0000_0000
  {
    hide Value;
    var a, b, c := "922337", "203685", "477580";
    ValueOfSix(a);
    ValueOfSix(b);
    ValueOfSix(c);
    assert Pow10(6) == 1000000;
    ValueOfSum(a, b);
    ValueOfSum(a + b, c);
    assert POW63 == a + b + c;
    ValueOfSnoc(POW63, '8');
  }

  /** The first difference decides between two runs of digits of one length. */
  lemma FirstDifference(a: string, b: string, k: nat)
    requires AllDigits(a) && AllDigits(b) && |a| == |b| && k < |a|
    requires a[..k] == b[..k] && a[k] < b[k]
    ensures Value(a) < Value(b)
  {
    hide Value, Pow10;
    var m := |a| - k - 1;
    Cut(a, k);
    Cut(b, k);
    ValueBound(a[k + 1..]);
    var head := Value(a[..k]) * 10;
    Scaled(head + DigitValue(a[k]), head + DigitValue(b[k]), Pow10(m));
  }

  lemma Cut(a: string, k: nat)
    requires AllDigits(a) && k < |a|
    ensures AllDigits(a[..k]) && AllDigits(a[k + 1..])
    ensures Value(a) == (Value(a[..k]) * 10 + DigitValue(a[k])) * Pow10(|a| - k - 1) + Value(a[k + 1..])
  {
    hide Value, Pow10;
    assert a == a[..k] + [a[k]] + a[k + 1..];
    ValueOfSnoc(a[..k], a[k]);
    ValueOfSum(a[..k] + [a[k]], a[k + 1..]);
  }

  lemma Scaled(x: int, y: int, p: nat)
    requires x < y
    ensures x * p + p <= y * p
  {
    assert (x + 1) * p <= y * p;
  }

  /** `compare2pow63` with an increment of one: the sign of z - 2^63. */
  method Compare2Pow63(z: string) returns (c: int)
    requires |z| == 19 && AllDigits(z)
    ensures c < 0 <==> Value(z) < 0x8000_0000_0000_0000
    ensures c > 0 <==> Value(z) > 0x8000_0000_0000_0000
  {
    hide Value;
    c := 0;
    var i := 0;
    while c == 0 && i < 18
      invariant 0 <= i <= 18
      invariant forall k :: 0 <= k < i - 1 ==> z[k] == POW63[k]
      invariant c == 0 && i > 0 ==> z[i - 1] == POW63[i - 1]
      invariant c != 0 ==> && 0 < i
                           && c == (z[i - 1] as int - POW63[i - 1] as int) * 10
      decreases 18 - i
    {
      c := (z[i] as int - POW63[i] as int) * 10;
      i := i + 1;
    }
    ghost var at := if c == 0 then 18 else i - 1;
    if c == 0 {
      c := z[18] as int - '8' as int;
    }
    assert z[..at] == POW63[..at];
    Decided(z, at);
  }

  /** The order with 2^63 is that of the first digits that differ, or of the last ones. */
  lemma Decided(z: string, at: nat)
    requires |z| == 19 && AllDigits(z) && at <= 18 && z[..at] == POW63[..at]
    requires at < 18 ==> z[at] != POW63[at]
    ensures var d := if at < 18 then POW63[at] else '8';
      && (z[at] < d <==> Value(z) < 0x8000_0000_0000_0000)
      && (z[at] > d <==> Value(z) > 0x8000_0000_0000_0000)
  {
    hide Value;
    var whole := POW63 + "8";
    Pow63Value();
    assert z[..at] == whole[..at];
    if z[at] < whole[at] {
      FirstDifference(z, whole, at);
    } else if z[at] > whole[at] {
      FirstDifference(whole, z, at);
    } else {
      assert z == z[..18] + [z[18]] && whole == whole[..18] + [whole[18]];
    }
  }

  // ---- sqlite3Atoi64 ----

  lemma {:induction false} RunIs(s: string, p: char -> bool, n: nat)
    requires n <= |s| && (n < |s| ==> !p(s[n]))
    requires forall i :: 0 <= i < n ==> p(s[i])
    ensures Run(s, p) == n
  {
    if n > 0 {
      assert forall i :: 0 <= i < n - 1 ==> s[1..][i] == s[i + 1];
      RunIs(s[1..], p, n - 1);
    }
  }

  /** The first loop: the index after the leading spaces. */
  method SkipSpaces(z: string) returns (at: nat)
    ensures at == Run(z, IsSpace)
  {
    at := 0;
    while at < |z| && IsSpace(z[at])
      invariant at <= |z| && forall i :: 0 <= i < at ==> IsSpace(z[i])
    {
      at := at + 1;
    }
    RunIs(z, IsSpace, at);
  }

  lemma {:induction false} ValueOfZeros(s: string)
    requires forall i :: 0 <= i < |s| ==> s[i] == '0'
    ensures AllDigits(s) && Value(s) == 0
  {
    if s != "" {
      ValueOfZeros(s[..|s| - 1]);
    }
  }

  /** The two digit loops: leading zeros, then digits gathered in a word that wraps. */
  method ReadDigits(body: string) returns (skipped: nat, i: nat, u: U64)
    ensures skipped + i == Run(body, IsDigit)
    ensures forall k :: 0 <= k < skipped ==> body[k] == '0'
    ensures i > 0 ==> body[skipped] != '0'
    ensures AllDigits(body[skipped..skipped + i])
    ensures u == Value(body[skipped..skipped + i]) % 0x1_0000_0000_0000_0000
  {
    hide Value;
    skipped := 0;
    while skipped < |body| && body[skipped] == '0'
      invariant skipped <= |body| && forall k :: 0 <= k < skipped ==> body[k] == '0'
    {
      skipped := skipped + 1;
    }
    i := 0;
    u := 0;
    ValueOfZeros("");
    assert body[skipped..skipped] == "";
    while skipped + i < |body| && IsDigit(body[skipped + i])
      invariant skipped + i <= |body| && AllDigits(body[skipped..skipped + i])
      invariant u == Value(body[skipped..skipped + i]) % 0x1_0000_0000_0000_0000
    {
      var c := DigitValue(body[skipped + i]);
      ValueOfSnoc(body[skipped..skipped + i], body[skipped + i]);
      assert body[skipped..skipped + i] + [body[skipped + i]] == body[skipped..skipped + i + 1];
      WrapStep(Value(body[skipped..skipped + i]), c);
      u := (u as int * 10 + c) % 0x1_0000_0000_0000_0000;
      i := i + 1;
    }
    assert forall k :: 0 <= k < skipped + i ==> IsDigit(body[k]) by {
      forall k | 0 <= k < skipped + i ensures IsDigit(body[k]) {
        assert k >= skipped ==> body[k] == body[skipped..skipped + i][k - skipped];
      }
    }
    RunIs(body, IsDigit, skipped + i);
  }

  lemma WrapStep(v: nat, c: int)
    ensures (v * 10 + c) % 0x1_0000_0000_0000_0000
         == ((v % 0x1_0000_0000_0000_0000) * 10 + c) % 0x1_0000_0000_0000_0000
  {
    var q, r := v / 0x1_0000_0000_0000_0000, v % 0x1_0000_0000_0000_0000;
    assert v * 10 + c == (10 * q) * 0x1_0000_0000_0000_0000 + (r * 10 + c);
    Wrapped(10 * q, r * 10 + c);
  }

  lemma Wrapped(k: int, m: int)
    ensures (k * 0x1_0000_0000_0000_0000 + m) % 0x1_0000_0000_0000_0000 == m % 0x1_0000_0000_0000_0000
  {
  }

  /** The loop over the text after the digits. */
  method TailCode(rest: string) returns (rc: int)
    ensures rc == if exists i :: 0 <= i < |rest| && !IsSpace(rest[i]) then 1 else 0
  {
    rc := 0;
    var j := 0;
    while j < |rest|
      invariant j <= |rest| && rc == 0
      invariant forall i :: 0 <= i < j ==> IsSpace(rest[i])
    {
      if !IsSpace(rest[j]) {
        rc := 1;
        break;
      }
      j := j + 1;
    }
  }

  /** Significant digits and how many there are bound the value. */
  lemma DigitsBound(s: string)
    requires AllDigits(s) && s != "" && s[0] != '0'
    ensures Pow10(|s| - 1) <= Value(s) < Pow10(|s|)
  {
    hide Value, Pow10;
    ValueBound(s);
    Cut(s, 0);
    assert s[..0] == "";
    ValueOfZeros("");
    Scaled(0, DigitValue(s[0]), Pow10(|s| - 1));
  }

  lemma Pow10Grows(a: nat, b: nat)
    requires a <= b
    ensures Pow10(a) <= Pow10(b)
  {
    hide Pow10;
    Pow10Sum(a, b - a);
    Scaled(0, Pow10(b - a), Pow10(a));
  }

  /** The spaces and the sign. */
  method ReadSign(z: string) returns (neg: bool, body: string)
    ensures var n := Run(body, IsDigit); SplitText(z) == Split(neg, body[..n], body[n..])
  {
    var at := SkipSpaces(z);
    neg := false;
    assert z[at..] != "" <==> at < |z|;
    assert at < |z| ==> z[at..][1..] == z[at + 1..];
    if at < |z| {
      if z[at] == '-' {
        neg := true;
        at := at + 1;
      } else if z[at] == '+' {
        at := at + 1;
      }
    }
    body := z[at..];
  }

  /** `sqlite3Atoi64`: the code and the stored value, for any text at all. The accumulator wraps on
      20 digits and more, and the value stored is right all the same. */
  method Atoi64(z: string) returns (rc: int, num: I64)
    ensures rc == Code(SplitText(z))
    ensures num == Stored(SplitText(z))
  {
    hide Value, Pow10, SplitText, Run, AllDigits;
    var neg, body := ReadSign(z);
    var skipped, i, u := ReadDigits(body);
    DigitsAre(body, skipped, i);
    var tail := TailCode(body[skipped + i..]);
    rc, num := Decide(neg, skipped, i, u, tail, body[skipped..skipped + i]);
  }

  /** The rest of `sqlite3Atoi64`, after its loops. */
  method Decide(neg: bool, skipped: nat, i: nat, u: U64, tail: int, sig: string) returns (rc: int, num: I64)
    requires |sig| == i && AllDigits(sig) && (i > 0 ==> sig[0] != '0')
    requires u == Value(sig) % 0x1_0000_0000_0000_0000
    ensures num == if neg then (if Value(sig) > 0x8000_0000_0000_0000 then SMALLEST else -(Value(sig) as int))
                   else if Value(sig) > LARGEST then LARGEST else Value(sig)
    ensures rc == if Value(sig) > 0x8000_0000_0000_0000 then 2
                  else if Value(sig) == 0x8000_0000_0000_0000 && !neg then 3
                  else if i == 0 && skipped == 0 then -1
                  else tail
  {
    hide Value, Pow10, AllDigits;
    SigBounds(sig);
    if u > LARGEST {
      num := if neg then SMALLEST else LARGEST;
    } else if neg {
      num := -(u as int);
    } else {
      num := u;
    }
    rc := tail;
    if i == 0 && skipped == 0 {
      rc := -1;
    }
    if i < 19 {
      assert u <= LARGEST;
      return;
    }
    var j := 1;
    if i == 19 {
      j := Compare2Pow63(sig);
    }
    if j < 0 {
      assert u <= LARGEST;
      return;
    }
    num := if neg then SMALLEST else LARGEST;
    if j > 0 {
      return 2, num;
    }
    assert u - 1 == LARGEST;
    return if neg then rc else 3, num;
  }

  /** How many significant digits there are bounds the value. */
  lemma SigBounds(sig: string)
    requires AllDigits(sig) && (sig != "" ==> sig[0] != '0')
    ensures |sig| < 19 ==> Value(sig) < 1_000_000_000_000_000_000
    ensures |sig| == 19 ==> Value(sig) < 10_000_000_000_000_000_000
    ensures |sig| > 19 ==> Value(sig) >= 10_000_000_000_000_000_000
  {
    hide Value, Pow10;
    Powers();
    ValueBound(sig);
    if |sig| < 19 {
      Pow10Grows(|sig|, 18);
    } else if |sig| > 19 {
      DigitsBound(sig);
      Pow10Grows(19, |sig| - 1);
    }
  }

  /** Leading zeros are worth nothing. */
  lemma DigitsAre(body: string, skipped: nat, i: nat)
    requires skipped + i <= |body| && AllDigits(body[skipped..skipped + i])
    requires forall k :: 0 <= k < skipped ==> body[k] == '0'
    ensures AllDigits(body[..skipped + i]) && Value(body[..skipped + i]) == Value(body[skipped..skipped + i])
  {
    hide Value, Pow10;
    var zeros, digits := body[..skipped], body[skipped..skipped + i];
    assert body[..skipped + i] == zeros + digits;
    ValueOfZeros(zeros);
    ValueOfSum(zeros, digits);
  }

  /** Parsing what the printer wrote gives back every 64 bit value, -2^63 included, with code 0. */
  lemma ParseOfPrinted(v: I64)
    ensures Code(SplitText(SignedText(v))) == 0 && Stored(SplitText(SignedText(v))) == v
  {
    hide Value, Text;
    var n: nat := if v < 0 then -(v as int) else v;
    var s, digits := SignedText(v), Text(n);
    ValueOfText(n);
    RunIs(s, IsSpace, 0);
    RunIs(digits, IsDigit, |digits|);
    assert s[0..] == s;
    assert v < 0 ==> s[1..] == digits;
    assert digits[..|digits|] == digits && digits[|digits|..] == "";
    assert SplitText(s) == Split(v < 0, digits, "");
  }
}
