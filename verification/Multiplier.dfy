/** The simulated machine's multiplier (Mult, machine/mipssim.cc): shift and add over 32-bit words
    that wrap around. */
module Multiplier {
  import opened Bytes
  import opened BitMaps

  type int32 = i: int | -0x8000_0000 <= i < 0x8000_0000

  const DOUBLE_LIMIT := WORD_LIMIT * WORD_LIMIT

  /** `(unsigned int) i`. */
  function Unsigned(i: int32): (w: word) {
    i % WORD_LIMIT
  }

  /** `(int) w`. */
  function Signed(w: word): (i: int32) {
    if w < 0x8000_0000 then w else w - WORD_LIMIT
  }

  /** `-i` on a 32-bit int: the most negative one is its own negation. */
  function Negate(i: int32): (r: int32) {
    if i == -0x8000_0000 then i else -i
  }

  lemma CastRoundTrip(i: int32, w: word)
    ensures Signed(Unsigned(i)) == i && Unsigned(Signed(w)) == w
    ensures i < 0 ==> Unsigned(Negate(i)) as int == -(i as int)
  {
  }

  /** The double word made of two words. */
  function Double(hi: word, lo: word): (d: nat)
    ensures d < DOUBLE_LIMIT
  {
    WORD_LIMIT * hi + lo
  }

  // ---------- Arithmetic on double words ----------

  /** Adding with the carry found by comparing, as the loop does, adds double words. */
  lemma AddWithCarry(hi: word, lo: word, bHi: word, bLo: word)
    requires Double(hi, lo) + Double(bHi, bLo) < DOUBLE_LIMIT
    ensures var l := (lo + bLo) % WORD_LIMIT;
            var h := ((if l < bLo then hi + 1 else hi) % WORD_LIMIT + bHi) % WORD_LIMIT;
            Double(h, l) == Double(hi, lo) + Double(bHi, bLo)
  {
    var l := (lo + bLo) % WORD_LIMIT;
    assert l < bLo <==> lo + bLo >= WORD_LIMIT;
    assert l == lo + bLo - (if l < bLo then WORD_LIMIT else 0);
    var c := if l < bLo then 1 else 0;
    assert hi + c + bHi < WORD_LIMIT;
  }

  /** Shifting the two words left, with the top bit of the low one moved over, doubles. */
  lemma ShiftLeft(bHi: word, bLo: word)
    requires 2 * Double(bHi, bLo) < DOUBLE_LIMIT
    ensures Double(2 * bHi % WORD_LIMIT + (if bLo >= 0x8000_0000 then 1 else 0), 2 * bLo % WORD_LIMIT) == 2 * Double(bHi, bLo)
  {
  }

  /** Complementing both words and adding one negates a double word. */
  lemma ComplementAndAddOne(hi: word, lo: word)
    requires Double(hi, lo) > 0
    ensures var l := (Complement(lo) + 1) % WORD_LIMIT;
            var h := if l == 0 then (Complement(hi) + 1) % WORD_LIMIT else Complement(hi);
            Double(h, l) == DOUBLE_LIMIT - Double(hi, lo)
  {
  }

  /** One turn of the loop keeps what has been added plus what is left to add. */
  lemma TurnKeepsSum(acc: nat, u: nat, bb: nat)
    ensures acc + (if u % 2 == 1 then bb else 0) + u / 2 * (2 * bb) == acc + u * bb
  {
    assert u == 2 * (u / 2) + u % 2;
    assert u * bb == (2 * (u / 2)) * bb + (u % 2) * bb;
  }

  lemma PartBound(acc: nat, u: nat, bb: nat, total: nat)
    requires acc + u * bb == total && u >= 1
    ensures acc + bb <= total
  {
    assert u * bb == (u - 1) * bb + bb && (u - 1) * bb >= 0;
  }

  lemma AtMost(x: nat, y: nat, z: nat)
    requires y <= z
    ensures x * y <= x * z
  {
    assert x * z == x * y + x * (z - y);
  }

  lemma ProductBound(x: word, y: word)
    ensures (x as int) * (y as int) < DOUBLE_LIMIT
  {
    AtMost(x, y, WORD_LIMIT);
  }

  lemma ShiftedBound(b: word, i: nat)
    requires i < 32
    ensures 2 * ((b as int) * Pow2(i)) == (b as int) * Pow2(i + 1) < DOUBLE_LIMIT
  {
    WordWidth();
    if i + 1 < 32 {
      Pow2Grows(i + 1, 32);
    }
    AtMost(b, Pow2(i + 1), WORD_LIMIT);
  }

  // ---------- The loop ----------

  /** `a` is `u` read as an int whose top `i` bits have been filled with the sign. */
  predicate Remains(a: int, u: nat, i: nat, negative: bool)
    requires i <= 32
  {
    a == u - (if negative then Pow2(32 - i) else 0) && u < Pow2(32 - i)
  }

  lemma ShiftRight(a: int, u: nat, i: nat, negative: bool)
    requires i < 32 && Remains(a, u, i, negative)
    ensures a % 2 == u % 2 && Remains(a / 2, u / 2, i + 1, negative)
  {
    assert Pow2(32 - i) == 2 * Pow2(31 - i);
  }

  /** The words `hi`, `lo` and `bHi`, `bLo` after `i` turns of the loop. */
  ghost predicate Partial(a: int, negative: bool, u: nat, b: word, i: nat, hi: word, lo: word, bHi: word, bLo: word, total: nat)
    requires i <= 32
  {
    && Remains(a, u, i, negative)
    && Double(bHi, bLo) == (b as int) * Pow2(i)
    && Double(hi, lo) + u * Double(bHi, bLo) == total < DOUBLE_LIMIT
  }

  lemma PartialStart(a0: int32, b: word)
    ensures Partial(a0, a0 < 0, Unsigned(a0), b, 0, 0, 0, 0, b, (Unsigned(a0) as int) * (b as int))
  {
    WordWidth();
    ProductBound(Unsigned(a0), b);
  }

  lemma PartialEnd(a: int, negative: bool, u: nat, b: word, hi: word, lo: word, bHi: word, bLo: word, total: nat)
    requires Partial(a, negative, u, b, 32, hi, lo, bHi, bLo, total)
    ensures Double(hi, lo) == total
  {
  }

  /** What a turn needs: the bit to test, and that neither the sum nor the shift overflows. */
  lemma TurnFits(a: int, negative: bool, u: nat, b: word, i: nat, hi: word, lo: word, bHi: word, bLo: word, total: nat)
    requires i < 32 && Partial(a, negative, u, b, i, hi, lo, bHi, bLo, total)
    ensures a % 2 == u % 2 && 2 * Double(bHi, bLo) < DOUBLE_LIMIT
    ensures u % 2 == 1 ==> Double(hi, lo) + Double(bHi, bLo) < DOUBLE_LIMIT
  {
    ShiftRight(a, u, i, negative);
    ShiftedBound(b, i);
    if u % 2 == 1 {
      PartBound(Double(hi, lo), u, Double(bHi, bLo), total);
    }
  }

  lemma TurnKeeps(a: int, negative: bool, u: nat, b: word, i: nat, hi: word, lo: word, bHi: word, bLo: word, total: nat,
                  hi1: word, lo1: word, bHi1: word, bLo1: word)
    requires i < 32 && Partial(a, negative, u, b, i, hi, lo, bHi, bLo, total)
    requires Double(hi1, lo1) == Double(hi, lo) + (if a % 2 == 1 then Double(bHi, bLo) else 0)
    requires Double(bHi1, bLo1) == 2 * Double(bHi, bLo)
    ensures Partial(a / 2, negative, u / 2, b, i + 1, hi1, lo1, bHi1, bLo1, total)
  {
    ShiftRight(a, u, i, negative);
    ShiftedBound(b, i);
    TurnKeepsSum(Double(hi, lo), u, Double(bHi, bLo));
  }

  /** When no other bit of `a` is set, this turn's addition is the last. */
  lemma LastTurn(a: int32, negative: bool, u: nat, b: word, i: nat, hi: word, lo: word, bHi: word, bLo: word, total: nat)
    requires i < 32 && Partial(a, negative, u, b, i, hi, lo, bHi, bLo, total) && Unsigned(a) / 2 == 0 && a % 2 == 1
    ensures Double(hi, lo) + Double(bHi, bLo) == total
  {
  }

  /** The addition in one turn. */
  method AddPart(hi0: word, lo0: word, bHi: word, bLo: word) returns (hi: word, lo: word)
    requires Double(hi0, lo0) + Double(bHi, bLo) < DOUBLE_LIMIT
    ensures Double(hi, lo) == Double(hi0, lo0) + Double(bHi, bLo)
  {
    AddWithCarry(hi0, lo0, bHi, bLo);
    hi, lo := hi0, (lo0 + bLo) % WORD_LIMIT;
    if lo < bLo {
      hi := (hi + 1) % WORD_LIMIT;
    }
    hi := (hi + bHi) % WORD_LIMIT;
  }

  /** The shifts in one turn. */
  method ShiftPart(bHi0: word, bLo0: word) returns (bHi: word, bLo: word)
    requires 2 * Double(bHi0, bLo0) < DOUBLE_LIMIT
    ensures Double(bHi, bLo) == 2 * Double(bHi0, bLo0)
  {
    ShiftLeft(bHi0, bLo0);
    bHi, bLo := 2 * bHi0 % WORD_LIMIT, bLo0;
    if bLo >= 0x8000_0000 {
      bHi := bHi + 1;
    }
    bLo := 2 * bLo % WORD_LIMIT;
  }

  /** The loop: the product of `a0`'s word and `b`. */
  method ShiftAndAdd(a0: int32, b: word) returns (hi: word, lo: word)
    ensures Double(hi, lo) == (Unsigned(a0) as int) * (b as int)
  {
    hide Partial, Double, Pow2;
    ghost var u: nat := Unsigned(a0);
    ghost var total := u * b as int;
    var a: int32 := a0;
    var bLo: word, bHi: word := b, 0;
    lo, hi := 0, 0;
    PartialStart(a0, b);
    for i := 0 to 32
      invariant Partial(a, a0 < 0, u, b, i, hi, lo, bHi, bLo, total)
    {
      ghost var hi0, lo0, bHi0, bLo0 := hi, lo, bHi, bLo;
      TurnFits(a, a0 < 0, u, b, i, hi, lo, bHi, bLo, total);
      if a % 2 == 1 {
        hi, lo := AddPart(hi, lo, bHi, bLo);
        if Unsigned(a) / 2 == 0 {
          LastTurn(a, a0 < 0, u, b, i, hi0, lo0, bHi, bLo, total);
          return;
        }
      }
      bHi, bLo := ShiftPart(bHi, bLo);
      TurnKeeps(a, a0 < 0, u, b, i, hi0, lo0, bHi0, bLo0, total, hi, lo, bHi, bLo);
      a, u := a / 2, u / 2;
    }
    PartialEnd(a, a0 < 0, u, b, hi, lo, bHi, bLo, total);
  }

  // ---------- Signs ----------

  function Abs(i: int): nat {
    if i < 0 then -i else i
  }

  lemma SignOfProduct(a: int, b: int)
    requires a != 0 && b != 0 && Abs(a) <= 0x8000_0000 && Abs(b) <= 0x8000_0000
    ensures 0 < Abs(a) * Abs(b) <= 0x8000_0000 * 0x8000_0000
    ensures a * b == if (a < 0) != (b < 0) then -(Abs(a) * Abs(b)) else Abs(a) * Abs(b)
  {
    AtMost(Abs(a), 1, Abs(b));
    AtMost(Abs(a), Abs(b), 0x8000_0000);
    MinusTimes(Abs(a), Abs(b));
    MinusTimes(Abs(b), Abs(a));
    MinusTimes(Abs(a), -(Abs(b) as int));
    var x: int, y: int := Abs(a), Abs(b);
    assert (a == x || a == -x) && (b == y || b == -y);
  }

  lemma MinusTimes(x: int, y: int)
    ensures (-x) * y == -(x * y) == y * (-x)
  {
  }

  /** A double word in two's complement. */
  lemma SignedDouble(hi: word, lo: word, v: int)
    requires -0x8000_0000 * 0x8000_0000 <= v <= 0x8000_0000 * 0x8000_0000
    requires Double(hi, lo) == if v < 0 then DOUBLE_LIMIT + v else v
    ensures WORD_LIMIT * Signed(hi) as int + lo as int == v
  {
  }

  method NegateDouble(hi0: word, lo0: word) returns (hi: word, lo: word)
    requires Double(hi0, lo0) > 0
    ensures Double(hi, lo) == DOUBLE_LIMIT - Double(hi0, lo0)
  {
    ComplementAndAddOne(hi0, lo0);
    hi := Complement(hi0);
    lo := Complement(lo0);
    lo := (lo + 1) % WORD_LIMIT;
    if lo == 0 {
      hi := (hi + 1) % WORD_LIMIT;
    }
  }

  /** The sign of the result, and the operands made positive. */
  method Magnitudes(a: int32, b: int32) returns (x: int32, y: int32, negative: bool)
    ensures Unsigned(x) == Abs(a) && Unsigned(y) == Abs(b) && (negative <==> (a < 0) != (b < 0))
  {
    x, y, negative := a, b, false;
    if x < 0 {
      negative := !negative;
      x := Negate(x);
    }
    if y < 0 {
      negative := !negative;
      y := Negate(y);
    }
  }

  /** Mult leaves in hi and lo the exact product, as a signed or as an unsigned double word. */
  method Mult(a: int32, b: int32, signedArith: bool) returns (hiReg: int32, loReg: int32)
    ensures signedArith ==> WORD_LIMIT * hiReg as int + Unsigned(loReg) as int == a as int * b as int
    ensures !signedArith ==> Double(Unsigned(hiReg), Unsigned(loReg)) == Unsigned(a) as int * Unsigned(b) as int
  {
    if a == 0 || b == 0 {
      return 0, 0;
    }
    var negative := false;
    var x, y := a, b;
    if signedArith {
      x, y, negative := Magnitudes(a, b);
      SignOfProduct(a, b);
    }
    hide Double, Abs, Negate;
    var hi, lo := ShiftAndAdd(x, Unsigned(y));
    if negative {
      hi, lo := NegateDouble(hi, lo);
    }
    if signedArith {
      SignedDouble(hi, lo, a as int * b as int);
    }
    CastRoundTrip(0, hi);
    CastRoundTrip(0, lo);
    hiReg, loReg := Signed(hi), Signed(lo);
  }
}
