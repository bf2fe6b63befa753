/** The wide multiplications of bench/fp_corpus/sqlite_excerpt.c. A C unsigned word is an integer
    below its power of two, and every C operation that could leave the word wraps explicitly. */
module Multiply {

  type U32 = x: int | 0 <= x < 0x1_0000_0000
  type U64 = x: int | 0 <= x < 0x1_0000_0000_0000_0000
  type U128 = x: int | 0 <= x < 0x1_0000_0000_0000_0000_0000_0000_0000_0000

  // ---- C's operators ----

  function Add64(x: U64, y: U64): U64 { (x + y) % 0x1_0000_0000_0000_0000 }
  function Mul64(x: U64, y: U64): U64 { (x as int * y as int) % 0x1_0000_0000_0000_0000 }
  function Low32(x: U64): U32 { x % 0x1_0000_0000 }
  function High32(x: U64): U32 { x / 0x1_0000_0000 }
  function Shl32(x: U64): U64 { (x as int * 0x1_0000_0000) % 0x1_0000_0000_0000_0000 }

  /** `lo | hi` for a word lo below 2^32 and a word hi whose low half is zero: no bit is in both. */
  function Or64(lo: U32, hi: U64): U64
    requires hi % 0x1_0000_0000 == 0
  {
    lo + hi
  }

  function Mul128(x: U128, y: U128): U128 {
    (x as int * y as int) % 0x1_0000_0000_0000_0000_0000_0000_0000_0000
  }
  function Add128(x: U128, y: U128): U128 { (x + y) % 0x1_0000_0000_0000_0000_0000_0000_0000_0000 }

  // ---- products of limbs ----

  lemma LimbProduct(x: U32, y: U32)
    ensures 0 <= x * y <= 0xffff_fffe_0000_0001
    ensures Mul64(x, y) == x * y
  {
    ProductBound(x, y, 0xffff_ffff, 0xffff_ffff);
  }

  lemma ProductBound(x: nat, y: nat, m: nat, n: nat)
    requires x <= m && y <= n
    ensures 0 <= x * y <= m * n
  {
    assert x * y <= m * y <= m * n;
  }

  lemma Halves(x: U64)
    ensures x == High32(x) * 0x1_0000_0000 + Low32(x)
  {
  }

  lemma Distribute(a1: int, a0: int, b1: int, b0: int)
    ensures (a1 * 0x1_0000_0000 + a0) * (b1 * 0x1_0000_0000 + b0)
         == (a1 * b1) * 0x1_0000_0000_0000_0000 + (a0 * b1 + a1 * b0) * 0x1_0000_0000 + a0 * b0
  {
  }

  // ---- sqlite3Multiply128 ----

  /** The branch for compilers with a 128 bit integer. */
  method Multiply128Wide(a: U64, b: U64) returns (hi: U64, lo: U64)
    ensures hi * 0x1_0000_0000_0000_0000 + lo == a * b
  {
    ProductBound(a, b, 0xffff_ffff_ffff_ffff, 0xffff_ffff_ffff_ffff);
    var r := Mul128(a, b);
    lo := r % 0x1_0000_0000_0000_0000;
    hi := r / 0x1_0000_0000_0000_0000;
  }

  lemma SmallSum(x: U64, y: U64)
    requires x + y < 0x1_0000_0000_0000_0000
    ensures Add64(x, y) == x + y
  {
  }

  /** Shifting left by 32 keeps the low half, as the high one. */
  lemma ShiftedUp(t: U64)
    ensures Shl32(t) == Low32(t) * 0x1_0000_0000
  {
    var h: int, l: int := High32(t), Low32(t);
    assert t * 0x1_0000_0000 == h * 0x1_0000_0000_0000_0000 + l * 0x1_0000_0000;
  }

  /** The portable branch: four products of 32 bit limbs. */
  method Multiply128Limbs(a: U64, b: U64) returns (hi: U64, lo: U64)
    ensures hi * 0x1_0000_0000_0000_0000 + lo == a * b
  {
    hide *;
    var a0 := Low32(a);
    var a1 := High32(a);
    var b0 := Low32(b);
    var b1 := High32(b);
    LimbProduct(a0, b0);
    LimbProduct(a1, b1);
    LimbProduct(a0, b1);
    LimbProduct(a1, b0);
    var a0b0 := Mul64(a0, b0);
    var a1b1 := Mul64(a1, b1);
    var a0b1 := Mul64(a0, b1);
    var a1b0 := Mul64(a1, b0);
    Halves(a0b0);
    Halves(a0b1);
    Halves(a1b0);
    var h0, h1, h2, l1, l2 := High32(a0b0), High32(a0b1), High32(a1b0), Low32(a0b1), Low32(a1b0);
    SmallSum(h0, l1);
    SmallSum(Add64(h0, l1), l2);
    var t := Add64(Add64(h0, l1), l2);
    Halves(t);
    ShiftedUp(t);
    OrIsSum(Low32(a0b0), Low32(t));
    lo := Or64(Low32(a0b0), Shl32(t));
    SmallSum(a1b1, h1);
    SmallSum(Add64(a1b1, h1), h2);
    SmallSum(Add64(Add64(a1b1, h1), h2), High32(t));
    hi := Add64(Add64(Add64(a1b1, h1), h2), High32(t));
    Halves(a);
    Halves(b);
    Distribute(a1, a0, b1, b0);
  }

  lemma OrIsSum(lo: U32, l: U32)
    ensures (l * 0x1_0000_0000) % 0x1_0000_0000 == 0
    ensures 0 <= l * 0x1_0000_0000 < 0x1_0000_0000_0000_0000
    ensures Or64(lo, l * 0x1_0000_0000) == lo + l * 0x1_0000_0000
  {
  }

  // ---- sqlite3Multiply160 ----

  /** What all three branches must return for A = a*2^32 + aLo: the upper 96 of the 160 bits of A*b. */
  predicate Upper96(a: U64, aLo: U32, b: U64, hi: U64, lo: U32) {
    hi * 0x1_0000_0000 + lo == ((a * 0x1_0000_0000 + aLo) * b) / 0x1_0000_0000_0000_0000
  }

  /** The branch for compilers with a 128 bit integer. */
  method Multiply160Wide(a: U64, aLo: U32, b: U64) returns (hi: U64, lo: U32)
    ensures Upper96(a, aLo, b, hi, lo)
  {
    hide *;
    WideProducts(a, aLo, b);
    var r := Mul128(a, b);
    r := Add128(r, Mul128(aLo, b) / 0x1_0000_0000);
    lo := (r / 0x1_0000_0000) % 0x1_0000_0000;
    hi := r / 0x1_0000_0000_0000_0000;
    UpperOf(a, aLo, b, hi, lo, r);
  }

  lemma WideProducts(a: U64, aLo: U32, b: U64)
    ensures 0 <= a * b && Mul128(a, b) == a * b
    ensures 0 <= aLo * b < 0x1_0000_0000_0000_0000_0000_0000 && Mul128(aLo, b) == aLo * b
    ensures a * b + (aLo * b) / 0x1_0000_0000 < 0x1_0000_0000_0000_0000_0000_0000_0000_0000
    ensures Add128(a * b, (aLo * b) / 0x1_0000_0000) == a * b + (aLo * b) / 0x1_0000_0000
  {
    ProductBound(a, b, 0xffff_ffff_ffff_ffff, 0xffff_ffff_ffff_ffff);
    ProductBound(aLo, b, 0xffff_ffff, 0xffff_ffff_ffff_ffff);
  }

  /** Floor division in two steps: r is A*b over 2^32. */
  lemma UpperOf(a: U64, aLo: U32, b: U64, hi: U64, lo: U32, r: int)
    requires 0 <= r == a * b + (aLo * b) / 0x1_0000_0000
    requires hi == r / 0x1_0000_0000_0000_0000
    requires (r / 0x1_0000_0000) % 0x1_0000_0000 == lo
    ensures Upper96(a, aLo, b, hi, lo)
  {
    hide *;
    var ab: int, cb: int := a * b, aLo * b;
    Distributes(a, aLo, b);
    FloorTwice(ab, cb);
    HiAndLo(r, hi, lo);
    IsUpper96(a, aLo, b, hi, lo);
  }

  lemma Distributes(a: int, c: int, b: int)
    ensures (a * 0x1_0000_0000 + c) * b == (a * b) * 0x1_0000_0000 + c * b
  {
  }

  lemma HiAndLo(r: int, hi: int, lo: int)
    requires 0 <= r && hi == r / 0x1_0000_0000_0000_0000 && (r / 0x1_0000_0000) % 0x1_0000_0000 == lo
    ensures hi * 0x1_0000_0000 + lo == r / 0x1_0000_0000
  {
    var q := r / 0x1_0000_0000;
    assert q / 0x1_0000_0000 == hi;
  }

  lemma IsUpper96(a: U64, aLo: U32, b: U64, hi: U64, lo: U32)
    requires hi * 0x1_0000_0000 + lo == ((a * 0x1_0000_0000 + aLo) * b) / 0x1_0000_0000_0000_0000
    ensures Upper96(a, aLo, b, hi, lo)
  {
  }

  lemma FloorTwice(x: int, y: int)
    ensures (x + y / 0x1_0000_0000) / 0x1_0000_0000 == (x * 0x1_0000_0000 + y) / 0x1_0000_0000_0000_0000
  {
    var q, m := (x + y / 0x1_0000_0000) / 0x1_0000_0000, (x + y / 0x1_0000_0000) % 0x1_0000_0000;
    assert x * 0x1_0000_0000 + y == q * 0x1_0000_0000_0000_0000 + m * 0x1_0000_0000 + y % 0x1_0000_0000;
  }

  /** The branch that detects the carry. `__umulh` is the upper half of a 128 bit product. */
  method Multiply160Carry(a: U64, aLo: U32, b: U64) returns (hi: U64, lo: U32)
    ensures Upper96(a, aLo, b, hi, lo)
  {
    hide *;
    var high, low := Umulh(a, b), Mul64(a, b);
    var r2 := Add64(Shl32(Umulh(aLo, b)), High32(Mul64(aLo, b)));
    var t := Add64(low, r2);
    Umulh128(a, b);
    Umulh96(aLo, b);
    Carry(low, r2);
    WideProducts(a, aLo, b);
    ghost var r := a * b + (aLo * b) / 0x1_0000_0000;
    if t < low {
      SmallSum(high, 1);
      high := Add64(high, 1);
    }
    lo := High32(t);
    hi := high;
    QuotientOf(r, hi, t);
    UpperOf(a, aLo, b, hi, lo, r);
  }

  function Umulh(x: U64, y: U64): U64 {
    ProductBound(x, y, 0xffff_ffff_ffff_ffff, 0xffff_ffff_ffff_ffff);
    (x as int * y as int) / 0x1_0000_0000_0000_0000
  }

  lemma Umulh128(x: U64, y: U64)
    ensures Umulh(x, y) * 0x1_0000_0000_0000_0000 + Mul64(x, y) == x * y
  {
    ProductBound(x, y, 0xffff_ffff_ffff_ffff, 0xffff_ffff_ffff_ffff);
  }

  /** The middle of a 32 by 64 bit product, put together without loss. */
  lemma Umulh96(x: U32, y: U64)
    ensures Add64(Shl32(Umulh(x, y)), High32(Mul64(x, y))) == (x * y) / 0x1_0000_0000
  {
    hide *;
    ProductBound(x, y, 0xffff_ffff, 0xffff_ffff_ffff_ffff);
    Umulh128(x, y);
    var high, low := Umulh(x, y), Mul64(x, y);
    ShiftedWord(high);
    Halves(low);
    SmallSum(Shl32(high), High32(low));
    assert x * y == (high * 0x1_0000_0000 + High32(low)) * 0x1_0000_0000 + Low32(low);
  }

  /** A sum wraps exactly when it comes out below either term. */
  lemma Carry(x: U64, y: U64)
    ensures Add64(x, y) < x <==> x + y >= 0x1_0000_0000_0000_0000
    ensures x + y == Add64(x, y) + (if Add64(x, y) < x then 0x1_0000_0000_0000_0000 else 0)
  {
  }

  lemma QuotientOf(r: int, hi: U64, t: U64)
    requires r == hi * 0x1_0000_0000_0000_0000 + t
    ensures r / 0x1_0000_0000_0000_0000 == hi && (r / 0x1_0000_0000) % 0x1_0000_0000 == High32(t)
  {
    assert r / 0x1_0000_0000 == hi * 0x1_0000_0000 + t / 0x1_0000_0000;
  }

  /** The portable branch: the six products of 32 bit limbs, added column by column. No column
      overflows its word, and none of the dropped low halves carries into the result. */
  method Multiply160Limbs(a: U64, aLo: U32, b: U64) returns (hi: U64, lo: U32)
    ensures Upper96(a, aLo, b, hi, lo)
  {
    hide *;
    var x2 := High32(a);
    var x1 := Low32(a);
    var x0 := aLo;
    var y1 := High32(b);
    var y0 := Low32(b);
    LimbProduct(x2, y1);
    LimbProduct(x2, y0);
    LimbProduct(x1, y1);
    LimbProduct(x1, y0);
    LimbProduct(x0, y1);
    LimbProduct(x0, y0);
    var x2y1 := Mul64(x2, y1);
    var r4 := High32(x2y1);
    var x2y0 := Mul64(x2, y0);
    var x1y1 := Mul64(x1, y1);
    SmallSum(Low32(x2y1), High32(x2y0));
    SmallSum(Add64(Low32(x2y1), High32(x2y0)), High32(x1y1));
    var r3 := Add64(Add64(Low32(x2y1), High32(x2y0)), High32(x1y1));
    var x1y0 := Mul64(x1, y0);
    var x0y1 := Mul64(x0, y1);
    SmallSum(Low32(x2y0), Low32(x1y1));
    SmallSum(Add64(Low32(x2y0), Low32(x1y1)), High32(x1y0));
    SmallSum(Add64(Add64(Low32(x2y0), Low32(x1y1)), High32(x1y0)), High32(x0y1));
    var r2 := Add64(Add64(Add64(Low32(x2y0), Low32(x1y1)), High32(x1y0)), High32(x0y1));
    var x0y0 := Mul64(x0, y0);
    SmallSum(Low32(x1y0), Low32(x0y1));
    SmallSum(Add64(Low32(x1y0), Low32(x0y1)), High32(x0y0));
    var r1 := Add64(Add64(Low32(x1y0), Low32(x0y1)), High32(x0y0));
    SmallSum(r2, High32(r1));
    r2 := Add64(r2, High32(r1));
    SmallSum(r3, High32(r2));
    r3 := Add64(r3, High32(r2));
    lo := Low32(r2);
    ghost var rest: int := Low32(r1) * 0x1_0000_0000 + Low32(x0y0);
    AllHalves(x2y1, x2y0, x1y1, x1y0, x0y1, x0y0);
    Halves(r1);
    Halves(r2);
    Distribute3(x2, x1, x0, y1, y0);
    Halves(a);
    Halves(b);
    WideProducts(a, aLo, b);
    TopOf(a, aLo, b, r4, r3, lo, rest);
    ShiftedWord(r4);
    SmallSum(Shl32(r4), r3);
    hi := Add64(Shl32(r4), r3);
  }

  lemma AllHalves(p: U64, q: U64, r: U64, s: U64, t: U64, u: U64)
    ensures p == High32(p) * 0x1_0000_0000 + Low32(p) && q == High32(q) * 0x1_0000_0000 + Low32(q)
    ensures r == High32(r) * 0x1_0000_0000 + Low32(r) && s == High32(s) * 0x1_0000_0000 + Low32(s)
    ensures t == High32(t) * 0x1_0000_0000 + Low32(t) && u == High32(u) * 0x1_0000_0000 + Low32(u)
  {
  }

  lemma Distribute3(x2: int, x1: int, x0: int, y1: int, y0: int)
    ensures ((x2 * 0x1_0000_0000 + x1) * 0x1_0000_0000 + x0) * (y1 * 0x1_0000_0000 + y0)
         == (x2 * y1) * 0x1_0000_0000_0000_0000_0000_0000
          + (x2 * y0 + x1 * y1) * 0x1_0000_0000_0000_0000
          + (x1 * y0 + x0 * y1) * 0x1_0000_0000 + x0 * y0
  {
  }

  lemma ShiftedWord(x: U32)
    ensures Shl32(x) == x * 0x1_0000_0000
  {
  }

  /** The columns above the 64th bit are the upper 96 bits, and they fit. */
  lemma TopOf(a: U64, aLo: U32, b: U64, r4: U32, r3: U64, lo: U32, rest: int)
    requires (a * 0x1_0000_0000 + aLo) * b
      == (r4 * 0x1_0000_0000 + r3) * 0x1_0000_0000_0000_0000_0000_0000 + lo * 0x1_0000_0000_0000_0000 + rest
    requires 0 <= rest < 0x1_0000_0000_0000_0000
    ensures r4 * 0x1_0000_0000 + r3 < 0x1_0000_0000_0000_0000
    ensures Upper96(a, aLo, b, r4 * 0x1_0000_0000 + r3, lo)
  {
    ProductBound(a * 0x1_0000_0000 + aLo, b, 0xffff_ffff_ffff_ffff_ffff_ffff, 0xffff_ffff_ffff_ffff);
    var whole: int := (a * 0x1_0000_0000 + aLo) * b;
    var top: int := r4 * 0x1_0000_0000 + r3;
    assert whole / 0x1_0000_0000_0000_0000 == top * 0x1_0000_0000 + lo;
  }

  /** The results are determined, so the branches of both multiplications agree word for word. */
  lemma BranchesAgree(a: U64, aLo: U32, b: U64, hi: U64, lo: U64, hi': U64, lo': U64)
    ensures hi * 0x1_0000_0000_0000_0000 + lo == a * b && hi' * 0x1_0000_0000_0000_0000 + lo' == a * b ==>
      hi == hi' && lo == lo'
    ensures lo < 0x1_0000_0000 && lo' < 0x1_0000_0000 && Upper96(a, aLo, b, hi, lo) && Upper96(a, aLo, b, hi', lo') ==>
      hi == hi' && lo == lo'
  {
    hide *;
    Upper96Is(a, aLo, b, hi, lo);
    Upper96Is(a, aLo, b, hi', lo');
  }

  lemma Upper96Is(a: U64, aLo: U32, b: U64, hi: U64, lo: U64)
    ensures lo < 0x1_0000_0000 && Upper96(a, aLo, b, hi, lo) ==>
      hi * 0x1_0000_0000 + lo == ((a * 0x1_0000_0000 + aLo) * b) / 0x1_0000_0000_0000_0000
  {
  }
}
