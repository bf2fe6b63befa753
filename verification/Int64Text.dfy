/** The 64 bit decimal printers of bench/fp_corpus/sqlite_excerpt.c: two digits at a time, and the
    variant that takes off eight at a time while the value is over 32 bits. */
module Int64Text {
  import opened Decimal

  type I64 = x: int | -0x8000_0000_0000_0000 <= x < 0x8000_0000_0000_0000
  type U64 = x: int | 0 <= x < 0x1_0000_0000_0000_0000

  /** SQLITE_U64_DIGITS */
  const DIGITS := 20

  /** The text of a signed value. */
  function SignedText(v: int): string {
    if v < 0 then "-" + Text(-v) else Text(v)
  }

  /** The digits of a value, none for zero: what is left to print. */
  function Left(n: nat): string {
    if n == 0 then "" else Text(n)
  }

  /** Two digits of the digit-pair table. */
  function Pair(k: int): (s: string)
    requires 0 <= k < 100
    ensures |s| == 2
  {
    [Digit(k / 10), Digit(k % 10)]
  }

  lemma TwoDigits(n: nat)
    requires n >= 10
    ensures Left(n) == Left(n / 100) + Pair(n % 100)
  {
    assert n / 10 / 10 == n / 100 && n / 10 % 10 == n % 100 / 10 && n % 10 == n % 100 % 10;
    if n < 100 {
      assert Text(n) == Text(n / 10) + [Digit(n % 10)];
    } else {
      assert Text(n) == Text(n / 100) + [Digit(n / 10 % 10)] + [Digit(n % 10)];
    }
  }

  /** Putting two characters in front of what is printed so far. */
  method PutPair(a: array<char>, i: nat, k: int)
    requires 0 <= k < 100 && i + 2 <= a.Length
    modifies a
    ensures forall j :: 0 <= j < a.Length && !(i <= j < i + 2) ==> a[j] == old(a[j])
    ensures a[i..i + 2] == Pair(k)
    ensures a[i..] == Pair(k) + old(a[i + 2..])
  {
    a[i] := Digit(k / 10);
    a[i + 1] := Digit(k % 10);
  }

  /** `sqlite3Int64ToText`: prints v with its sign and a zero byte, and returns the length. */
  method Int64ToText(v: I64, zOut: array<char>) returns (n: nat)
    requires zOut.Length >= DIGITS + 1
    modifies zOut
    ensures n == |SignedText(v)| && n < zOut.Length
    ensures zOut[..n] == SignedText(v) && zOut[n] == '\0'
    ensures zOut[n + 1..] == old(zOut[n + 1..])
  {
    hide Text;
    if v == 0 {
      ZeroText();
      zOut[0] := '0';
      zOut[1] := '\0';
      assert zOut[..1] == "0";
      return 1;
    }
    var a, i := Render(v);
    n := DIGITS - i;
    CopyOut(zOut, a, i, n + 1);
    assert zOut[..n] == zOut[..n + 1][..n];
  }

  /** The text of v with its sign at the end of a local buffer. */
  method Render(v: I64) returns (a: array<char>, i: nat)
    requires v != 0
    ensures fresh(a) && a.Length == DIGITS + 1 && i < DIGITS
    ensures a[i..] == SignedText(v) + ['\0']
  {
    hide Text, Left;
    var x: U64 := if v < 0 then -(v as int) else v;
    SmallText(x);
    a := new char[DIGITS + 1];
    a[DIGITS] := '\0';
    i := PrintPairs(x, a, DIGITS);
    assert a[i..] == Text(x) + ['\0'];
    if v < 0 {
      i := i - 1;
      PutOne(a, i, '-');
      Append("-", Text(x), ['\0']);
    }
  }

  /** memcpy(zOut, &a[i], n) */
  method CopyOut(zOut: array<char>, a: array<char>, i: nat, n: nat)
    requires zOut != a && i + n == a.Length && n <= zOut.Length
    modifies zOut
    ensures zOut[..n] == a[i..] && zOut[n..] == old(zOut[n..])
  {
    forall j | 0 <= j < n {
      zOut[j] := a[i + j];
    }
  }

  lemma SmallText(x: nat)
    requires 0 < x <= 0x8000_0000_0000_0000
    ensures 0 < |Left(x)| <= 19 && Left(x) == Text(x)
  {
    Powers();
    TextLength(x, 19);
  }

  /** The two-digit printing loop both printers end with, onto what is printed already. */
  method PrintPairs(x0: U64, a: array<char>, i0: nat) returns (i: nat)
    requires a.Length == DIGITS + 1 && |Left(x0)| <= i0 <= DIGITS
    modifies a
    ensures i + |Left(x0)| == i0
    ensures a[i..] == Left(x0) + old(a[i0..])
  {
    hide Text, Pair, Left, Digit;
    var x := x0;
    i := i0;
    assert a[i..] == [] + a[i..];
    ghost var done := "";
    NoneLeft();
    while x >= 10
      invariant i + |done| == i0
      invariant Left(x0) == Left(x) + done
      invariant a[i..] == done + old(a[i0..])
    {
      var kk := x % 100;
      TwoDigits(x);
      i := i - 2;
      PutPair(a, i, kk);
      Append(Left(x / 100), Pair(kk), done);
      Append(Pair(kk), done, old(a[i0..]));
      done := Pair(kk) + done;
      x := x / 100;
    }
    OneDigit(x);
    if x != 0 {
      i := i - 1;
      PutOne(a, i, Digit(x));
      Append([Digit(x)], done, old(a[i0..]));
    }
  }

  method PutOne(a: array<char>, i: nat, c: char)
    requires i < a.Length
    modifies a
    ensures a[i..] == [c] + old(a[i + 1..])
  {
    a[i] := c;
  }

  lemma Append(a: string, b: string, c: string)
    ensures a + b + c == a + (b + c)
  {
  }

  lemma ZeroText()
    ensures Text(0) == "0"
  {
  }

  lemma NoneLeft()
    ensures Left(0) == ""
  {
  }

  lemma OneDigit(x: nat)
    requires x < 10
    ensures Left(x) == if x == 0 then "" else [Digit(x)]
  {
  }

  lemma FourPairs(v: nat)
    requires v >= 0x1_0000_0000
    ensures var x32 := v % 100000000;
      && Left(v) == Left(v / 100000000) + (Pair(x32 / 10000 / 100) + Pair(x32 / 10000 % 100)
                                         + Pair(x32 % 10000 / 100) + Pair(x32 % 10000 % 100))
  {
    hide Text, Pair, Left;
    var x32 := v % 100000000;
    var w := v / 100;
    var x := w / 100;
    var y := x / 100;
    PairsOf(v);
    TwoDigits(v);
    TwoDigits(w);
    TwoDigits(x);
    TwoDigits(y);
    var rest := Left(v / 100000000);
    assert rest + Pair(y % 100) + Pair(x % 100) + Pair(w % 100) + Pair(v % 100)
        == rest + (Pair(y % 100) + Pair(x % 100) + Pair(w % 100) + Pair(v % 100));
  }

  /** The pairs of v, taken off two at a time or eight at a time. */
  lemma PairsOf(v: nat)
    ensures v % 100 == v % 100000000 % 10000 % 100
    ensures v / 100 % 100 == v % 100000000 % 10000 / 100
    ensures v / 100 / 100 % 100 == v % 100000000 / 10000 % 100
    ensures v / 100 / 100 / 100 % 100 == v % 100000000 / 10000 / 100
    ensures v / 100 / 100 / 100 / 100 == v / 100000000
  {
    var q, r := v / 100000000, v % 100000000;
    var t, u := r / 10000, r % 10000;
    assert v == (q * 1000000 + t * 100 + u / 100) * 100 + u % 100;
    Divide(q * 1000000 + t * 100 + u / 100, u % 100);
    Divide(q * 10000 + t, u / 100);
    assert q * 10000 + t == (q * 100 + t / 100) * 100 + t % 100;
    Divide(q * 100 + t / 100, t % 100);
    Divide(q, t / 100);
  }

  lemma Divide(k: int, m: int)
    requires 0 <= m < 100
    ensures (k * 100 + m) / 100 == k && (k * 100 + m) % 100 == m
  {
  }

  /** `sqlite3UInt64ToText`: prints v onto the end of the buffer and returns where it starts; for
      zero it prints nothing. */
  method UInt64ToText(v0: U64, a: array<char>) returns (i: nat)
    requires a.Length == DIGITS + 1
    modifies a
    ensures i <= DIGITS
    ensures a[i..] == Left(v0) + ['\0']
  {
    hide Text, Pair, Left;
    LongestText(v0);
    var v := v0;
    i := DIGITS;
    a[i] := '\0';
    ghost var done := "";
    while v >= 0x1_0000_0000
      invariant i + |done| == DIGITS
      invariant Left(v0) == Left(v) + done
      invariant a[i..] == done + ['\0']
    {
      FourPairs(v);
      ghost var rest := Left(v / 100000000);
      var x32 := v % 100000000;
      v := v / 100000000;
      var y := x32 % 10000;
      x32 := x32 / 10000;
      var x1 := x32 / 100;
      var x0 := x32 % 100;
      var y1 := y / 100;
      var y0 := y % 100;
      ghost var pairs := Pair(x1) + Pair(x0) + Pair(y1) + Pair(y0);
      assert Left(v0) == rest + (pairs + done);
      ghost var before := a[i..];
      i := i - 8;
      PutEight(a, i, x1, x0, y1, y0);
      assert a[i..] == a[i..i + 8] + a[i + 8..];
      assert a[i + 8..] == before;
      done := pairs + done;
    }
    ghost var before := a[i..];
    i := PrintPairs(v, a, i);
  }

  /** The buffers are as long as the longest text, 2^64 - 1, with a zero byte. */
  lemma LongestTextFills()
    ensures |Text(0xffff_ffff_ffff_ffff)| == DIGITS
  {
    var n := 0xffff_ffff_ffff_ffff;
    Powers();
    ValueOfText(n);
    ValueBound(Text(n));
    TextLength(n, 20);
    if |Text(n)| < 20 {
      Pow10Sum(|Text(n)|, 19 - |Text(n)|);
      AtLeastOnce(Pow10(|Text(n)|), Pow10(19 - |Text(n)|));
    }
  }

  lemma AtLeastOnce(x: nat, y: nat)
    requires y > 0
    ensures x <= x * y
  {
  }

  lemma LongestText(v: U64)
    ensures |Left(v)| <= DIGITS
  {
    Powers();
    if v > 0 {
      TextLength(v, 20);
    }
  }

  method PutEight(a: array<char>, i: nat, x1: int, x0: int, y1: int, y0: int)
    requires 0 <= x1 < 100 && 0 <= x0 < 100 && 0 <= y1 < 100 && 0 <= y0 < 100 && i + 8 <= a.Length
    modifies a
    ensures forall j :: 0 <= j < a.Length && !(i <= j < i + 8) ==> a[j] == old(a[j])
    ensures a[i..i + 8] == Pair(x1) + Pair(x0) + Pair(y1) + Pair(y0)
  {
    hide Pair;
    PutPair(a, i, x1);
    PutPair(a, i + 2, x0);
    PutPair(a, i + 4, y1);
    PutPair(a, i + 6, y0);
    assert a[i..i + 2] == Pair(x1) && a[i + 2..i + 4] == Pair(x0) && a[i + 4..i + 6] == Pair(y1);
    assert a[i..i + 4] == a[i..i + 2] + a[i + 2..i + 4];
    assert a[i..i + 6] == a[i..i + 4] + a[i + 4..i + 6];
    assert a[i..i + 8] == a[i..i + 6] + a[i + 6..i + 8];
  }
}
