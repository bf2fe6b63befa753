/** `sqlite3Atoi64` told by the parts of its text (bench/fp_corpus/sqlite_excerpt.c). */
module Atoi64Texts {
  import opened Decimal
  import opened Atoi64

  /** One of the six characters C's isspace takes. */
  predicate IsWhite(c: char) {
    var n := c as int;
    n == 32 || n == 9 || n == 10 || n == 11 || n == 12 || n == 13
  }

  /** Spaces, a sign or none, digits, and a rest that does not go on with what stands before it. */
  predicate AreParts(spaces: string, sign: string, digits: string, rest: string) {
    && (forall c :: c in spaces ==> IsWhite(c)) && AllDigits(digits)
    && (sign == "" || sign == "-" || sign == "+")
    && (rest != "" ==> !IsDigit(rest[0]))
    && (sign == "" && digits == "" && rest != "" ==> rest[0] != '-' && rest[0] != '+' && !IsWhite(rest[0]))
  }

  lemma SpacesRun(spaces: string, t: string)
    requires (forall c :: c in spaces ==> IsWhite(c)) && (t != "" ==> !IsWhite(t[0]))
    ensures Run(spaces + t, IsSpace) == |spaces| && (spaces + t)[|spaces|..] == t
  {
    var s := spaces + t;
    forall i | 0 <= i < |spaces| ensures IsSpace(s[i]) {
      assert s[i] == spaces[i] && spaces[i] in spaces;
    }
    assert |spaces| < |s| ==> s[|spaces|] == t[0];
    RunIs(s, IsSpace, |spaces|);
  }

  lemma DigitsRun(digits: string, rest: string)
    requires AllDigits(digits) && (rest != "" ==> !IsDigit(rest[0]))
    ensures Run(digits + rest, IsDigit) == |digits|
    ensures (digits + rest)[..|digits|] == digits && (digits + rest)[|digits|..] == rest
  {
    var s := digits + rest;
    forall i | 0 <= i < |digits| ensures IsDigit(s[i]) {
      assert s[i] == digits[i];
    }
    assert |digits| < |s| ==> s[|digits|] == rest[0];
    RunIs(s, IsDigit, |digits|);
  }

  lemma FirstAfterSpaces(sign: string, digits: string, rest: string)
    requires AreParts("", sign, digits, rest)
    ensures var body, t := digits + rest, sign + (digits + rest);
      && (t != "" ==> !IsWhite(t[0]))
      && (sign != "" ==> t != "" && t[0] == sign[0] && t[1..] == body)
      && (sign == "" ==> t == body && (t != "" ==> t[0] != '-' && t[0] != '+'))
  {
    if sign == "" && digits != "" {
      assert (digits + rest)[0] == digits[0];
    }
  }

  lemma SplitFrom(s: string, at: nat, negative: bool, body: string, n: nat)
    requires at <= |s| && Run(s, IsSpace) == at && n <= |body| && Run(body, IsDigit) == n
    requires var t := s[at..];
      if t != "" && (t[0] == '-' || t[0] == '+') then negative == (t[0] == '-') && t[1..] == body
      else !negative && t == body
    ensures AllDigits(body[..n]) && SplitText(s) == Split(negative, body[..n], body[n..])
  {
    hide Run;
  }

  /** The text is split as it was put together. */
  lemma SplitOf(spaces: string, sign: string, digits: string, rest: string)
    requires AreParts(spaces, sign, digits, rest)
    ensures SplitText(spaces + (sign + (digits + rest))) == Split(sign == "-", digits, rest)
  {
    hide Run, SplitText, IsWhite;
    var body, t := digits + rest, sign + (digits + rest);
    FirstAfterSpaces(sign, digits, rest);
    SpacesRun(spaces, t);
    DigitsRun(digits, rest);
    SplitFrom(spaces + t, |spaces|, sign == "-", body, |digits|);
  }

  /** The value for such a text, and its code: the digits, signed and clamped to 64 bits; 2 for a
      magnitude over 2^63, 3 for 2^63 without a minus, -1 without digits, 1 when anything but spaces
      follows, and 0 otherwise. */
  lemma AnswerFor(spaces: string, sign: string, digits: string, rest: string)
    requires AreParts(spaces, sign, digits, rest)
    ensures var split, n: int := SplitText(spaces + (sign + (digits + rest))), Value(digits);
      && Stored(split) as int
         == (if sign == "-" then (if n <= 9_223_372_036_854_775_808 then -n else -9_223_372_036_854_775_808)
             else if n <= 9_223_372_036_854_775_807 then n else 9_223_372_036_854_775_807)
      && Code(split)
         == if n > 9_223_372_036_854_775_808 then 2
            else if n == 9_223_372_036_854_775_808 && sign != "-" then 3
            else if digits == "" then -1
            else if exists c :: c in rest && !IsWhite(c) then 1
            else 0
  {
    hide Value, Run, SplitText, IsWhite;
    SplitOf(spaces, sign, digits, rest);
    AnyButSpaces(rest);
  }

  lemma AnyButSpaces(rest: string)
    ensures (exists c :: c in rest && !IsWhite(c)) <==> exists i :: 0 <= i < |rest| && !IsSpace(rest[i])
  {
    forall c ensures IsWhite(c) <==> IsSpace(c) {
    }
    if exists c :: c in rest && !IsWhite(c) {
      var c :| c in rest && !IsWhite(c);
      var i :| 0 <= i < |rest| && rest[i] == c;
    }
  }

  lemma RunMembers(s: string, p: char -> bool)
    ensures forall c :: c in s[..Run(s, p)] ==> p(c)
  {
    var n := Run(s, p);
    hide Run;
    forall c | c in s[..n] ensures p(c) {
      var i :| 0 <= i < n && s[..n][i] == c;
      assert s[i] == c;
    }
  }

  lemma RunStops(s: string, p: char -> bool)
    ensures var n := Run(s, p); n < |s| ==> s[n..][0] == s[n] && !p(s[n])
  {
    hide Run;
  }

  lemma CutAt(s: string, n: nat)
    requires n <= |s|
    ensures s == s[..n] + s[n..]
  {
  }

  lemma TakeDigits(body: string) returns (digits: string, rest: string)
    ensures body == digits + rest && AllDigits(digits) && (rest != "" ==> !IsDigit(rest[0]))
    ensures digits == "" ==> rest == body
  {
    hide Run, IsDigit;
    var m := Run(body, IsDigit);
    RunStops(body, IsDigit);
    CutAt(body, m);
    digits, rest := body[..m], body[m..];
  }

  lemma TakeSign(t: string) returns (sign: string, body: string)
    ensures t == sign + body && (sign == "" || sign == "-" || sign == "+")
    ensures sign == "" ==> body == t && (t != "" ==> t[0] != '-' && t[0] != '+')
  {
    if t != "" && (t[0] == '-' || t[0] == '+') {
      sign, body := [t[0]], t[1..];
    } else {
      sign, body := "", t;
    }
  }

  lemma TakeSpaces(s: string) returns (spaces: string, t: string)
    ensures s == spaces + t && (forall c :: c in spaces ==> IsWhite(c)) && (t != "" ==> !IsWhite(t[0]))
  {
    hide Run;
    var n := Run(s, IsSpace);
    RunMembers(s, IsSpace);
    RunStops(s, IsSpace);
    CutAt(s, n);
    spaces, t := s[..n], s[n..];
  }

  /** Every text is put together so. */
  lemma EveryTextSplits(s: string) returns (spaces: string, sign: string, digits: string, rest: string)
    ensures s == spaces + (sign + (digits + rest)) && AreParts(spaces, sign, digits, rest)
  {
    hide IsWhite, IsDigit, AllDigits;
    var t, body;
    spaces, t := TakeSpaces(s);
    sign, body := TakeSign(t);
    digits, rest := TakeDigits(body);
  }
}
