/** The variable-length integers of bench/fp_corpus/sqlite_excerpt.c, with C's 8, 32 and 64 bit
    words as bit-vectors: a shift left drops what leaves the word. */
module Varint {

  // ---- what a varint is ----

  /** The high bit of x is clear: the signed char is >= 0. */
  predicate ClearByte(x: bv8) { x & 0x80 == 0 }

  /** The first n bytes are one varint: the high bit is set on all of them but the last, and on
      the ninth it is a data bit. */
  predicate IsVarint(p: seq<bv8>, n: nat) {
    && 1 <= n <= 9
    && n <= |p|
    && (forall i :: 0 <= i < n - 1 ==> !ClearByte(p[i]))
    && (n < 9 ==> ClearByte(p[n - 1]))
  }

  function Group(g: bv64, x: bv8): bv64 {
    (g << 7) | (x & 0x7f) as bv64
  }

  /** The low seven bits of the first n bytes, most significant first. */
  function Groups(p: seq<bv8>, n: nat): bv64
    requires n <= |p|
  {
    if n == 0 then 0 else Group(Groups(p, n - 1), p[n - 1])
  }

  function Value(p: seq<bv8>, n: nat): bv64
    requires n <= |p|
  {
    if n == 9 then (Groups(p, 8) << 8) | p[8] as bv64 else Groups(p, n)
  }

  /** A buffer holds a varint in one way only. */
  lemma VarintIsUnique(p: seq<bv8>, m: nat, n: nat)
    requires IsVarint(p, m) && IsVarint(p, n)
    ensures m == n
  {
  }

  /** Nine bytes always hold a varint, and one only: with nine bytes to read, any buffer decodes. */
  lemma NineBytesHoldOne(p: seq<bv8>) returns (n: nat)
    requires |p| >= 9
    ensures IsVarint(p, n) && forall m :: IsVarint(p, m) ==> m == n
  {
    hide ClearByte;
    n := 1;
    while n < 9 && !ClearByte(p[n - 1])
      invariant 1 <= n <= 9 && forall i :: 0 <= i < n - 1 ==> !ClearByte(p[i])
    {
      n := n + 1;
    }
    forall m | IsVarint(p, m) ensures m == n {
      VarintIsUnique(p, m, n);
    }
  }

  // ---- the decoder ----

  // C's operators on 32 bit words, named so that a proof can leave their bits aside.

  function Shl(x: bv32, n: bv32): bv32 requires n < 32 { x << n }
  function Shr(x: bv32, n: bv32): bv32 requires n < 32 { x >> n }
  function Or(x: bv32, y: bv32): bv32 { x | y }
  function And(x: bv32, y: bv32): bv32 { x & y }
  function Word(x: bv8): bv32 { x as bv32 }
  /** ((u64)s)<<32 | a */
  function Wide(s: bv32, a: bv32): bv64 { ((s as bv64) << 32) | a as bv64 }
  /** !(x & 0x80) */
  predicate Clear(x: bv32) { x & 0x80 == 0 }

  // The masks 0x001fc07f and 0xf01fc07f below are SLOT_2_0 and SLOT_4_2_0.

  // The value left after k bytes, and what the decoder's words hold then: pure bit-vector facts.

  function G2(p0: bv8, p1: bv8): bv64 { Group(Group(0, p0), p1) }
  function G4(p0: bv8, p1: bv8, p2: bv8, p3: bv8): bv64 { Group(Group(G2(p0, p1), p2), p3) }
  function G6(p0: bv8, p1: bv8, p2: bv8, p3: bv8, p4: bv8, p5: bv8): bv64 {
    Group(Group(G4(p0, p1, p2, p3), p4), p5)
  }
  function G8(p0: bv8, p1: bv8, p2: bv8, p3: bv8, p4: bv8, p5: bv8, p6: bv8, p7: bv8): bv64 {
    Group(Group(G6(p0, p1, p2, p3, p4, p5), p6), p7)
  }

  // The decoder's words, named after the last byte they take in: `a` after bytes 2, 4 and 6, `b`
  // after bytes 3 and 5, and `s` after byte 3.

  function Next(a: bv32, x: bv8): bv32 { Or(Shl(a, 14), Word(x)) }
  function A2(p0: bv8, p2: bv8): bv32 { And(Next(Word(p0), p2), 0x001fc07f) }
  function B3(p1: bv8, p3: bv8): bv32 { And(Next(Word(p1), p3), 0x001fc07f) }
  function S3(p0: bv8, p1: bv8, p2: bv8, p3: bv8): bv32 { Or(Shl(A2(p0, p2), 7), B3(p1, p3)) }
  function A4(p0: bv8, p2: bv8, p4: bv8): bv32 { Next(A2(p0, p2), p4) }
  function B5(p1: bv8, p3: bv8, p5: bv8): bv32 { Next(B3(p1, p3), p5) }
  function A6(p0: bv8, p2: bv8, p4: bv8, p6: bv8): bv32 { And(Next(A4(p0, p2, p4), p6), 0x001fc07f) }

  lemma GroupsAre(p: seq<bv8>)
    ensures 1 <= |p| ==> Groups(p, 1) == Group(0, p[0])
    ensures 2 <= |p| ==> Groups(p, 2) == G2(p[0], p[1])
    ensures 3 <= |p| ==> Groups(p, 3) == Group(G2(p[0], p[1]), p[2])
    ensures 4 <= |p| ==> Groups(p, 4) == G4(p[0], p[1], p[2], p[3])
    ensures 5 <= |p| ==> Groups(p, 5) == Group(G4(p[0], p[1], p[2], p[3]), p[4])
    ensures 6 <= |p| ==> Groups(p, 6) == G6(p[0], p[1], p[2], p[3], p[4], p[5])
    ensures 7 <= |p| ==> Groups(p, 7) == Group(G6(p[0], p[1], p[2], p[3], p[4], p[5]), p[6])
    ensures 8 <= |p| ==> Groups(p, 8) == G8(p[0], p[1], p[2], p[3], p[4], p[5], p[6], p[7])
  {
    hide Group;
  }

  /** The value of a varint that ends where it does. */
  lemma ValueIs(p: seq<bv8>, n: nat)
    requires 1 <= n <= 9 && n <= |p|
    ensures n == 1 ==> Value(p, n) == Group(0, p[0])
    ensures n == 2 ==> Value(p, n) == G2(p[0], p[1])
    ensures n == 3 ==> Value(p, n) == Group(G2(p[0], p[1]), p[2])
    ensures n == 4 ==> Value(p, n) == G4(p[0], p[1], p[2], p[3])
    ensures n == 5 ==> Value(p, n) == Group(G4(p[0], p[1], p[2], p[3]), p[4])
    ensures n == 6 ==> Value(p, n) == G6(p[0], p[1], p[2], p[3], p[4], p[5])
    ensures n == 7 ==> Value(p, n) == Group(G6(p[0], p[1], p[2], p[3], p[4], p[5]), p[6])
    ensures n == 8 ==> Value(p, n) == G8(p[0], p[1], p[2], p[3], p[4], p[5], p[6], p[7])
    ensures n == 9 ==> Value(p, n) == (G8(p[0], p[1], p[2], p[3], p[4], p[5], p[6], p[7]) << 8) | p[8] as bv64
  {
    hide Groups, Group, G2, G4, G6, G8;
    GroupsAre(p);
  }

  /** Reading on: the varint ends at byte k exactly when that byte's high bit is clear. */
  lemma EndsAt(p: seq<bv8>, length: nat, k: nat)
    requires IsVarint(p, length) && 1 <= k <= length && k < 9
    ensures k <= |p| && (length == k <==> ClearByte(p[k - 1])) && (length > k ==> k < |p|)
  {
  }

  lemma LengthBounds(p: seq<bv8>, length: nat)
    requires IsVarint(p, length)
    ensures 1 <= length <= 9 && length <= |p|
  {
  }

  lemma Bytes1(p0: bv8)
    requires ClearByte(p0)
    ensures p0 as bv64 == Group(0, p0)
  {
  }

  lemma Bytes2(p0: bv8, p1: bv8)
    requires ClearByte(p1)
    ensures Wide(0, Or(Shl(And(Word(p0), 0x7f), 7), Word(p1))) == G2(p0, p1)
  {
  }

  lemma Bytes3(p0: bv8, p1: bv8, p2: bv8)
    requires ClearByte(p2)
    ensures Wide(0, Or(A2(p0, p2), Shl(And(Word(p1), 0x7f), 7))) == Group(G2(p0, p1), p2)
  {
  }

  lemma Bytes4(p0: bv8, p1: bv8, p2: bv8, p3: bv8)
    ensures Wide(0, Or(Shl(A2(p0, p2), 7), B3(p1, p3))) == G4(p0, p1, p2, p3)
  {
  }

  lemma Bytes5(p0: bv8, p1: bv8, p2: bv8, p3: bv8, p4: bv8)
    requires ClearByte(p4)
    ensures Wide(Shr(A2(p0, p2), 18), Or(A4(p0, p2, p4), Shl(B3(p1, p3), 7))) == Group(G4(p0, p1, p2, p3), p4)
  {
  }

  lemma Bytes6(p0: bv8, p1: bv8, p2: bv8, p3: bv8, p4: bv8, p5: bv8)
    requires ClearByte(p5)
    ensures Wide(Shr(S3(p0, p1, p2, p3), 18), Or(Shl(And(A4(p0, p2, p4), 0x001fc07f), 7), B5(p1, p3, p5)))
         == G6(p0, p1, p2, p3, p4, p5)
  {
  }

  lemma Bytes7(p0: bv8, p1: bv8, p2: bv8, p3: bv8, p4: bv8, p5: bv8, p6: bv8)
    requires ClearByte(p6)
    ensures Wide(Shr(S3(p0, p1, p2, p3), 11),
                 Or(And(Next(A4(p0, p2, p4), p6), 0xf01fc07f), Shl(And(B5(p1, p3, p5), 0x001fc07f), 7)))
         == Group(G6(p0, p1, p2, p3, p4, p5), p6)
  {
  }

  lemma Bytes8(p0: bv8, p1: bv8, p2: bv8, p3: bv8, p4: bv8, p5: bv8, p6: bv8, p7: bv8)
    requires ClearByte(p7)
    ensures Wide(Shr(S3(p0, p1, p2, p3), 4),
                 Or(Shl(A6(p0, p2, p4, p6), 7), And(Next(B5(p1, p3, p5), p7), 0xf01fc07f)))
         == G8(p0, p1, p2, p3, p4, p5, p6, p7)
  {
  }

  lemma Bytes9(p0: bv8, p1: bv8, p2: bv8, p3: bv8, p4: bv8, p5: bv8, p6: bv8, p7: bv8, p8: bv8)
    ensures Wide(Or(Shl(S3(p0, p1, p2, p3), 4), Shr(And(Word(p4), 0x7f), 3)),
                 Or(Or(Shl(A6(p0, p2, p4, p6), 15), Word(p8)), Shl(And(Next(B5(p1, p3, p5), p7), 0x001fc07f), 8)))
         == (G8(p0, p1, p2, p3, p4, p5, p6, p7) << 8) | p8 as bv64
  {
  }

  lemma NextIs(a: bv32, x: bv8)
    ensures Or(Shl(a, 14), Word(x)) == Next(a, x)
    ensures Clear(Next(a, x)) == ClearByte(x)
  {
  }

  /** The definitions of the decoder's words. */
  lemma WordsAre(p0: bv8, p1: bv8, p2: bv8, p3: bv8, p4: bv8, p5: bv8, p6: bv8)
    ensures And(Next(Word(p0), p2), 0x001fc07f) == A2(p0, p2)
    ensures And(Next(Word(p1), p3), 0x001fc07f) == B3(p1, p3)
    ensures Or(Shl(A2(p0, p2), 7), B3(p1, p3)) == S3(p0, p1, p2, p3)
    ensures Next(A2(p0, p2), p4) == A4(p0, p2, p4)
    ensures Next(B3(p1, p3), p5) == B5(p1, p3, p5)
    ensures And(Next(A4(p0, p2, p4), p6), 0x001fc07f) == A6(p0, p2, p4, p6)
  {
    hide Next, And, Or, Shl, Word;
  }

  /** `sqlite3GetVarint`: the groups of even bytes gather in `a`, those of odd bytes in `b`, and
      `s` saves the bits that leave the 32 bit words. It reads on from byte to byte; the method
      after this one takes over at the fifth byte. */
  method GetVarint(p: seq<bv8>, ghost length: nat) returns (n: nat, v: bv64)
    requires IsVarint(p, length)
    ensures n == length && v == Value(p, length)
  {
    hide *;
    LengthBounds(p, length);
    ValueIs(p, length);
    EndsAt(p, length, 1);
    if ClearByte(p[0]) {
      Bytes1(p[0]);
      return 1, p[0] as bv64;
    }
    EndsAt(p, length, 2);
    if ClearByte(p[1]) {
      Bytes2(p[0], p[1]);
      return 2, Wide(0, Or(Shl(And(Word(p[0]), 0x7f), 7), Word(p[1])));
    }
    EndsAt(p, length, 3);
    var a := Shl(Word(p[0]), 14);
    var b := Word(p[1]);
    a := Or(a, Word(p[2]));
    NextIs(Word(p[0]), p[2]);
    if Clear(a) {
      a := And(a, 0x001fc07f);
      b := And(b, 0x7f);
      b := Shl(b, 7);
      a := Or(a, b);
      WordsAre(p[0], 0, p[2], 0, 0, 0, 0);
      Bytes3(p[0], p[1], p[2]);
      return 3, Wide(0, a);
    }
    EndsAt(p, length, 4);
    a := And(a, 0x001fc07f);
    b := Shl(b, 14);
    b := Or(b, Word(p[3]));
    NextIs(Word(p[1]), p[3]);
    WordsAre(p[0], p[1], p[2], p[3], 0, 0, 0);
    if Clear(b) {
      b := And(b, 0x001fc07f);
      a := Shl(a, 7);
      a := Or(a, b);
      Bytes4(p[0], p[1], p[2], p[3]);
      return 4, Wide(0, a);
    }
    b := And(b, 0x001fc07f);
    n, v := FifthByteOn(p, a, b, length);
  }

  method FifthByteOn(p: seq<bv8>, a0: bv32, b0: bv32, ghost length: nat) returns (n: nat, v: bv64)
    requires IsVarint(p, length) && 5 <= length <= |p|
    requires a0 == A2(p[0], p[2]) && b0 == B3(p[1], p[3])
    ensures n == length && v == Value(p, length)
  {
    hide *;
    LengthBounds(p, length);
    ValueIs(p, length);
    EndsAt(p, length, 5);
    var a, b, s := a0, b0, a0;
    a := Shl(a, 14);
    a := Or(a, Word(p[4]));
    NextIs(a0, p[4]);
    WordsAre(p[0], p[1], p[2], p[3], p[4], 0, 0);
    if Clear(a) {
      b := Shl(b, 7);
      a := Or(a, b);
      s := Shr(s, 18);
      Bytes5(p[0], p[1], p[2], p[3], p[4]);
      return 5, Wide(s, a);
    }
    s := Shl(s, 7);
    s := Or(s, b);
    EndsAt(p, length, 6);
    b := Shl(b, 14);
    b := Or(b, Word(p[5]));
    NextIs(b0, p[5]);
    WordsAre(p[0], p[1], p[2], p[3], p[4], p[5], 0);
    if Clear(b) {
      a := And(a, 0x001fc07f);
      a := Shl(a, 7);
      a := Or(a, b);
      s := Shr(s, 18);
      Bytes6(p[0], p[1], p[2], p[3], p[4], p[5]);
      return 6, Wide(s, a);
    }
    EndsAt(p, length, 7);
    NextIs(a, p[6]);
    a := Shl(a, 14);
    a := Or(a, Word(p[6]));
    WordsAre(p[0], p[1], p[2], p[3], p[4], p[5], p[6]);
    if Clear(a) {
      a := And(a, 0xf01fc07f);
      b := And(b, 0x001fc07f);
      b := Shl(b, 7);
      a := Or(a, b);
      s := Shr(s, 11);
      Bytes7(p[0], p[1], p[2], p[3], p[4], p[5], p[6]);
      return 7, Wide(s, a);
    }
    EndsAt(p, length, 8);
    a := And(a, 0x001fc07f);
    NextIs(b, p[7]);
    b := Shl(b, 14);
    b := Or(b, Word(p[7]));
    if Clear(b) {
      b := And(b, 0xf01fc07f);
      a := Shl(a, 7);
      a := Or(a, b);
      s := Shr(s, 4);
      Bytes8(p[0], p[1], p[2], p[3], p[4], p[5], p[6], p[7]);
      return 8, Wide(s, a);
    }
    a := Shl(a, 15);
    a := Or(a, Word(p[8]));
    b := And(b, 0x001fc07f);
    b := Shl(b, 8);
    a := Or(a, b);
    s := Shl(s, 4);
    b := Word(p[4]);
    b := And(b, 0x7f);
    b := Shr(b, 3);
    s := Or(s, b);
    Bytes9(p[0], p[1], p[2], p[3], p[4], p[5], p[6], p[7], p[8]);
    return 9, Wide(s, a);
  }

  /** `sqlite3GetVarint32`: a value over 32 bits reads as the largest 32 bit one. */
  method GetVarint32(p: seq<bv8>, ghost length: nat) returns (n: nat, v: bv32)
    requires IsVarint(p, length) && !ClearByte(p[0])
    ensures n == length && v == Clamped(Value(p, length))
  {
    hide *;
    LengthBounds(p, length);
    ValueIs(p, length);
    EndsAt(p, length, 1);
    EndsAt(p, length, 2);
    if ClearByte(p[1]) {
      Short2(p[0], p[1]);
      return 2, Or(Shl(And(Word(p[0]), 0x7f), 7), Word(p[1]));
    }
    EndsAt(p, length, 3);
    if ClearByte(p[2]) {
      Short3(p[0], p[1], p[2]);
      return 3, Or(Or(Shl(And(Word(p[0]), 0x7f), 14), Shl(And(Word(p[1]), 0x7f), 7)), Word(p[2]));
    }
    var v64;
    n, v64 := GetVarint(p, length);
    v := Narrow(v64);
  }

  /** min(v, 2^32-1) */
  function Clamped(v: bv64): bv32 {
    if v > 0xffff_ffff then 0xffff_ffff else v as bv32
  }

  /** The end of `sqlite3GetVarint32`. */
  method Narrow(v64: bv64) returns (v: bv32)
    ensures v == Clamped(v64)
  {
    if v64 & 0xffff_ffff != v64 {
      v := 0xffff_ffff;
    } else {
      v := v64 as bv32;
    }
  }

  lemma Short2(p0: bv8, p1: bv8)
    requires ClearByte(p1)
    ensures Or(Shl(And(Word(p0), 0x7f), 7), Word(p1)) == Clamped(G2(p0, p1))
  {
  }

  lemma Short3(p0: bv8, p1: bv8, p2: bv8)
    requires ClearByte(p2)
    ensures Or(Or(Shl(And(Word(p0), 0x7f), 14), Shl(And(Word(p1), 0x7f), 7)), Word(p2))
      == Clamped(Group(G2(p0, p1), p2))
  {
  }

  // ---- the encoder ----

  /** v >> 7 */
  function Drop7(v: bv64): bv64 { v >> 7 }
  /** (u8)((v & 0x7f) | 0x80) */
  function More(v: bv64): bv8 { ((v & 0x7f) | 0x80) as bv8 }
  /** (u8)(v & 0x7f) */
  function Last(v: bv64): bv8 { (v & 0x7f) as bv8 }
  /** (u8)v */
  function LowByte(v: bv64): bv8 { (v & 0xff) as bv8 }
  /** v >> 8 */
  function Drop8(v: bv64): bv64 { v >> 8 }
  /** v & ((u64)0xff000000 << 32): the top byte is in use. */
  predicate IsLong(v: bv64) { v & 0xff00_0000_0000_0000 != 0 }

  lemma Drop7IsLess(v: bv64)
    ensures v != 0 ==> Drop7(v) < v
    ensures Drop7(0) == 0
  {
  }

  /** The seven bit groups of v from its first non-zero one on, each marked as having a successor. */
  function Continued(v: bv64): seq<bv8>
    decreases v
  {
    if v == 0 then [] else
      Drop7IsLess(v);
      Continued(Drop7(v)) + [More(v)]
  }

  /** The low k seven bit groups of v, leading zero groups included. */
  function Padded(v: bv64, k: nat): (s: seq<bv8>)
    ensures |s| == k
  {
    if k == 0 then [] else Padded(Drop7(v), k - 1) + [More(v)]
  }

  /** The bytes written for v. */
  function Encode(v: bv64): seq<bv8> {
    if IsLong(v) then Padded(Drop8(v), 8) + [LowByte(v)] else Continued(Drop7(v)) + [Last(v)]
  }

  predicate Marked(s: seq<bv8>) {
    forall i :: 0 <= i < |s| ==> !ClearByte(s[i])
  }

  /** v has at most k seven bit groups. */
  predicate FitsIn(v: bv64, k: nat) {
    if k == 0 then v == 0 else FitsIn(Drop7(v), k - 1)
  }

  lemma MoreIsMarked(v: bv64)
    ensures !ClearByte(More(v)) && Group(Drop7(v), More(v)) == v
  {
  }

  lemma LastIsClear(v: bv64)
    ensures ClearByte(Last(v)) && Group(Drop7(v), Last(v)) == v
  {
  }

  lemma LowByteRejoins(v: bv64)
    ensures (Drop8(v) << 8) | LowByte(v) as bv64 == v
  {
  }

  lemma {:induction false} GroupsOfPrefix(s: seq<bv8>, t: seq<bv8>, n: nat)
    requires n <= |s|
    ensures Groups(s + t, n) == Groups(s, n)
  {
    hide Group;
    if n > 0 {
      GroupsOfPrefix(s, t, n - 1);
    }
  }

  lemma GroupsOfSnoc(s: seq<bv8>, x: bv8)
    ensures Groups(s + [x], |s| + 1) == Group(Groups(s, |s|), x)
  {
    hide Group;
    GroupsOfPrefix(s, [x], |s|);
  }

  lemma {:induction false} ContinuedHolds(v: bv64, k: nat)
    requires FitsIn(v, k)
    ensures Marked(Continued(v)) && Groups(Continued(v), |Continued(v)|) == v
    decreases k
  {
    hide Group, More, Drop7, ClearByte;
    if v != 0 {
      ContinuedHolds(Drop7(v), k - 1);
      MoreIsMarked(v);
      GroupsOfSnoc(Continued(Drop7(v)), More(v));
    }
  }

  lemma {:induction false} PaddedHolds(v: bv64, k: nat)
    requires FitsIn(v, k)
    ensures Marked(Padded(v, k)) && Groups(Padded(v, k), k) == v
    decreases k
  {
    hide Group, More, Drop7, ClearByte;
    if k > 0 {
      PaddedHolds(Drop7(v), k - 1);
      MoreIsMarked(v);
      GroupsOfSnoc(Padded(Drop7(v), k - 1), More(v));
    }
  }

  lemma {:induction false} ContinuedLength(v: bv64, k: nat)
    ensures |Continued(v)| <= k <==> FitsIn(v, k)
    decreases k
  {
    hide More, Drop7;
    Drop7IsLess(v);
    if k > 0 {
      ContinuedLength(Drop7(v), k - 1);
    }
  }

  lemma FitsInFour(v: bv64, k: nat)
    ensures FitsIn(v, k + 4) <==> FitsIn(Drop7(Drop7(Drop7(Drop7(v)))), k)
  {
    hide Drop7;
    assert FitsIn(v, k + 4) <==> FitsIn(Drop7(v), k + 3);
    assert FitsIn(Drop7(v), k + 3) <==> FitsIn(Drop7(Drop7(v)), k + 2);
    assert FitsIn(Drop7(Drop7(v)), k + 2) <==> FitsIn(Drop7(Drop7(Drop7(v))), k + 1);
  }

  /** The bounds at which the number of groups changes. */
  lemma GroupBounds(v: bv64)
    ensures FitsIn(Drop7(v), 7) <==> !IsLong(v)
    ensures FitsIn(Drop7(v), 8) <==> v < 0x8000_0000_0000_0000
    ensures FitsIn(Drop8(v), 8)
  {
    hide *;
    var w := Drop7(Drop7(Drop7(Drop7(Drop7(v)))));
    FitsInFour(Drop7(v), 4);
    FitsInFour(w, 0);
    FitsInFour(Drop7(v), 3);
    FitsInThree(w);
    FitsInFour(Drop8(v), 4);
    FitsInFour(Drop7(Drop7(Drop7(Drop7(Drop8(v))))), 0);
    FitsInNone(Drop7(Drop7(Drop7(Drop7(w)))));
    FitsInNone(Drop7(Drop7(Drop7(w))));
    FitsInNone(Drop7(Drop7(Drop7(Drop7(Drop7(Drop7(Drop7(Drop7(Drop8(v))))))))));
    TopBits(v);
  }

  lemma FitsInNone(v: bv64)
    ensures FitsIn(v, 0) <==> v == 0
  {
  }

  lemma FitsInThree(v: bv64)
    ensures FitsIn(v, 3) <==> FitsIn(Drop7(Drop7(Drop7(v))), 0)
  {
    hide Drop7;
    assert FitsIn(v, 3) <==> FitsIn(Drop7(v), 2);
  }

  lemma TopBits(v: bv64)
    ensures var w := Drop7(Drop7(Drop7(Drop7(Drop7(v)))));
      && (Drop7(Drop7(Drop7(w))) == 0 <==> !IsLong(v))
      && (Drop7(Drop7(Drop7(Drop7(w)))) == 0 <==> v < 0x8000_0000_0000_0000)
      && Drop7(Drop7(Drop7(Drop7(Drop7(Drop7(Drop7(Drop7(Drop8(v))))))))) == 0
  {
  }

  lemma DecodeOfShort(v: bv64, rest: seq<bv8>)
    requires !IsLong(v)
    ensures var n := |Encode(v)|;
      1 <= n <= 8 && IsVarint(Encode(v) + rest, n) && Value(Encode(v) + rest, n) == v
  {
    hide Groups, FitsIn, Continued, Padded, Group, IsLong, Drop7, Drop8, Last, LowByte, ClearByte;
    GroupBounds(v);
    var s, last := Continued(Drop7(v)), Last(v);
    ContinuedHolds(Drop7(v), 7);
    ContinuedLength(Drop7(v), 7);
    GroupsOfSnoc(s, last);
    GroupsOfPrefix(s + [last], rest, |s| + 1);
    LastIsClear(v);
  }

  lemma DecodeOfLong(v: bv64, rest: seq<bv8>)
    requires IsLong(v)
    ensures |Encode(v)| == 9 && IsVarint(Encode(v) + rest, 9) && Value(Encode(v) + rest, 9) == v
  {
    hide Groups, FitsIn, Continued, Padded, Group, IsLong, Drop7, Drop8, Last, LowByte, ClearByte;
    GroupBounds(v);
    var s, last := Padded(Drop8(v), 8), LowByte(v);
    PaddedHolds(Drop8(v), 8);
    GroupsOfPrefix(s, [last] + rest, 8);
    assert Encode(v) + rest == s + ([last] + rest);
    LowByteRejoins(v);
  }

  /** What is written for v is one varint of value v, whatever bytes follow it. */
  lemma DecodeOfEncode(v: bv64, rest: seq<bv8>)
    ensures var n := |Encode(v)|;
      1 <= n <= 9 && IsVarint(Encode(v) + rest, n) && Value(Encode(v) + rest, n) == v
  {
    hide *;
    if IsLong(v) {
      DecodeOfLong(v, rest);
    } else {
      DecodeOfShort(v, rest);
    }
  }

  // ---- the encoder's methods ----

  /** `putVarint64` */
  method PutVarint64(p: array<bv8>, v0: bv64) returns (n: nat)
    requires |Encode(v0)| <= p.Length
    modifies p
    ensures n == |Encode(v0)|
    ensures p[..] == Encode(v0) + old(p[n..])
  {
    if IsLong(v0) {
      PutNine(p, v0);
      return 9;
    }
    n := PutFew(p, v0);
  }

  /** The nine byte branch of `putVarint64`, last byte first. */
  method PutNine(p: array<bv8>, v0: bv64)
    requires p.Length >= 9
    modifies p
    ensures p[..] == Padded(Drop8(v0), 8) + [LowByte(v0)] + old(p[9..])
  {
    hide Drop7, Drop8, More, LowByte;
    var v := v0;
    p[8] := LowByte(v);
    v := Drop8(v);
    var i := 7;
    assert p[8..] == [LowByte(v0)] + old(p[9..]);
    while i >= 0
      invariant -1 <= i <= 7
      invariant p[8..] == [LowByte(v0)] + old(p[9..])
      invariant Padded(Drop8(v0), 8) == Padded(v, i + 1) + p[i + 1..8]
    {
      p[i] := More(v);
      assert p[i..8] == [More(v)] + p[i + 1..8];
      v := Drop7(v);
      i := i - 1;
    }
    assert p[..] == p[0..8] + p[8..];
  }

  lemma ContinuedIs(v: bv64)
    ensures Continued(v) == if v == 0 then [] else Continued(Drop7(v)) + [More(v)]
  {
  }

  lemma FewIs(v: bv64)
    requires !IsLong(v)
    ensures Encode(v) == Continued(Drop7(v)) + [Last(v)] && |Continued(Drop7(v))| <= 7
  {
    hide Drop7, IsLong, FitsIn, Continued;
    GroupBounds(v);
    ContinuedLength(Drop7(v), 7);
  }

  /** The copy loop of `putVarint64`. */
  method CopyBack(p: array<bv8>, buf: array<bv8>, n: nat, ghost code: seq<bv8>)
    requires p != buf && n == |code| <= p.Length && n <= buf.Length
    requires forall k :: 0 <= k < n ==> buf[k] == code[n - 1 - k]
    modifies p
    ensures p[..] == code + old(p[n..])
  {
    var i, j := 0, n - 1;
    while j >= 0
      invariant -1 <= j < n && i == n - 1 - j
      invariant forall k :: 0 <= k < i ==> p[k] == code[k]
      invariant forall k :: n <= k < p.Length ==> p[k] == old(p[k])
    {
      p[i] := buf[j];
      j := j - 1;
      i := i + 1;
    }
  }

  /** The other branch of `putVarint64`: the groups gather in `buf`, last first, and are copied
      back in order. */
  method PutFew(p: array<bv8>, v0: bv64) returns (n: nat)
    requires !IsLong(v0) && |Encode(v0)| <= p.Length
    modifies p
    ensures n == |Encode(v0)|
    ensures p[..] == Encode(v0) + old(p[n..])
  {
    hide *;
    ghost var target := Continued(Drop7(v0)) + [More(v0)];
    FewIs(v0);
    var buf := new bv8[10];
    var v := v0;
    buf[0] := More(v);
    n := 1;
    v := Drop7(v);
    while v != 0
      invariant 1 <= n && n + |Continued(v)| == |target|
      invariant target[..|Continued(v)|] == Continued(v)
      invariant forall k :: 0 <= k < n ==> buf[k] == target[|target| - 1 - k]
      decreases |Continued(v)|
      modifies buf
    {
      FewStep(target, v);
      buf[n] := More(v);
      n := n + 1;
      v := Drop7(v);
    }
    ContinuedIs(v);
    buf[0] := Unmark(buf[0]);
    UnmarkMore(v0);
    CopyBack(p, buf, n, Encode(v0));
  }

  /** The group that the loop puts next is the last one of those still missing. */
  lemma FewStep(target: seq<bv8>, v: bv64)
    requires v != 0 && |Continued(v)| <= |target| && target[..|Continued(v)|] == Continued(v)
    ensures var left := |Continued(Drop7(v))|;
      left + 1 == |Continued(v)| && target[left] == More(v) && target[..left] == Continued(Drop7(v))
  {
    hide *;
    ContinuedIs(v);
    var left := |Continued(Drop7(v))|;
    assert target[left] == target[..left + 1][left] && target[..left] == target[..left + 1][..left];
  }

  /** x & 0x7f */
  function Unmark(x: bv8): bv8 { x & 0x7f }

  lemma UnmarkMore(v: bv64)
    ensures Unmark(More(v)) == Last(v)
  {
  }

  /** `sqlite3PutVarint`: what it writes, for every v, is the encoding; nothing past it changes. */
  method PutVarint(p: array<bv8>, v: bv64) returns (n: nat)
    requires |Encode(v)| <= p.Length
    modifies p
    ensures n == |Encode(v)|
    ensures p[..] == Encode(v) + old(p[n..])
  {
    ShortCuts(v);
    if v <= 0x7f {
      p[0] := Last(v);
      return 1;
    }
    if v <= 0x3fff {
      p[0] := More(Drop7(v));
      p[1] := Last(v);
      return 2;
    }
    n := PutVarint64(p, v);
  }

  lemma ShortCuts(v: bv64)
    ensures v <= 0x7f ==> Encode(v) == [Last(v)]
    ensures 0x7f < v <= 0x3fff ==> Encode(v) == [More(Drop7(v)), Last(v)]
  {
    hide Drop7, Drop8, More, Last, IsLong;
    ShortBits(v);
    assert Continued(0) == [];
  }

  lemma ShortBits(v: bv64)
    ensures v <= 0x3fff ==> !IsLong(v) && Drop7(Drop7(v)) == 0
    ensures v <= 0x3fff ==> (v <= 0x7f <==> Drop7(v) == 0)
  {
  }

  /** `sqlite3VarintLen` */
  method VarintLen(v0: bv64) returns (i: nat)
    ensures i == |Continued(Drop7(v0))| + 1
  {
    hide Drop7, More;
    var v := Drop7(v0);
    i := 1;
    while v != 0
      invariant i + |Continued(v)| == |Continued(Drop7(v0))| + 1
      decreases |Continued(v)|
    {
      i := i + 1;
      v := Drop7(v);
    }
  }

  /** `sqlite3VarintLen` gives the length `sqlite3PutVarint` writes exactly for v below 2^63. */
  lemma VarintLenIsRight(v: bv64)
    ensures |Continued(Drop7(v))| + 1 == |Encode(v)| <==> v < 0x8000_0000_0000_0000
  {
    hide Drop7, Drop8, IsLong, FitsIn, Continued, Padded;
    GroupBounds(v);
    ContinuedLength(Drop7(v), 7);
    ContinuedLength(Drop7(v), 8);
  }

  /** Any nine bytes decode, to the value of the one varint they begin with. */
  method GetAny(p: seq<bv8>) returns (n: nat, v: bv64)
    requires |p| >= 9
    ensures IsVarint(p, n) && v == Value(p, n)
  {
    ghost var length := NineBytesHoldOne(p);
    n, v := GetVarint(p, length);
  }

  /** Written and read again: as many bytes, and the value; clamped by the 32 bit reader, which is
      called only when the first byte says that more follow. */
  method PutThenGet(p: array<bv8>, v: bv64) returns (n: nat, read: nat, back: bv64, read32: nat, short: bv32)
    requires |Encode(v)| <= p.Length
    modifies p
    ensures n == read == |Encode(v)| && back == v
    ensures p[0] >= 0x80 ==> read32 == n && short == Clamped(v)
  {
    hide Encode, Value, Clamped, IsVarint;
    n := PutVarint(p, v);
    DecodeOfEncode(v, p[n..]);
    read, back := GetVarint(p[..], n);
    read32, short := 0, 0;
    if p[0] >= 0x80 {
      FirstGoesOn(p[0]);
      read32, short := GetVarint32(p[..], n);
    }
  }

  lemma FirstGoesOn(b: bv8)
    requires b >= 0x80
    ensures !ClearByte(b)
  {
  }
}
