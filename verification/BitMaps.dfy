/** Bit maps over packed 32-bit words (userprog/bitmap.cc), and the sequence of Booleans
    that such a map stands for. Paging and the file system reason about the sequence. */
module BitMaps {
  import opened Bytes

  const BITS_IN_WORD := 32

  // ---------- Bitwise arithmetic on unsigned numbers ----------

  function Pow2(k: nat): (p: nat)
    ensures p > 0
  {
    if k == 0 then 1 else 2 * Pow2(k - 1)
  }

  predicate Bit(x: nat, k: nat)
    decreases k
  {
    if k == 0 then x % 2 == 1 else Bit(x / 2, k - 1)
  }

  function Or(x: nat, y: nat): nat {
    if x == 0 && y == 0 then 0
    else 2 * Or(x / 2, y / 2) + if x % 2 == 1 || y % 2 == 1 then 1 else 0
  }

  function And(x: nat, y: nat): nat {
    if x == 0 || y == 0 then 0
    else 2 * And(x / 2, y / 2) + if x % 2 == 1 && y % 2 == 1 then 1 else 0
  }

  /** `~x` on an unsigned word. */
  function Complement(x: word): word {
    WORD_LIMIT - 1 - x
  }

  lemma {:induction false} BitOfZero(k: nat)
    ensures !Bit(0, k)
  {
    if k > 0 {
      BitOfZero(k - 1);
    }
  }

  lemma {:induction false} BitOfOr(x: nat, y: nat, k: nat)
    ensures Bit(Or(x, y), k) <==> Bit(x, k) || Bit(y, k)
    decreases k
  {
    if x == 0 && y == 0 {
      BitOfZero(k);
    } else if k > 0 {
      assert Or(x, y) / 2 == Or(x / 2, y / 2);
      BitOfOr(x / 2, y / 2, k - 1);
    }
  }

  lemma {:induction false} BitOfAnd(x: nat, y: nat, k: nat)
    ensures Bit(And(x, y), k) <==> Bit(x, k) && Bit(y, k)
    decreases k
  {
    if x == 0 || y == 0 {
      BitOfZero(k);
    } else if k > 0 {
      assert And(x, y) / 2 == And(x / 2, y / 2);
      BitOfAnd(x / 2, y / 2, k - 1);
    }
  }

  lemma {:induction false} BitOfPow2(k: nat, j: nat)
    ensures Bit(Pow2(k), j) <==> j == k
  {
    if k == 0 {
      if j > 0 {
        BitOfZero(j - 1);
      }
    } else if j > 0 {
      assert Pow2(k) / 2 == Pow2(k - 1);
      BitOfPow2(k - 1, j - 1);
    }
  }

  /** The complement within `n` bits flips exactly the bits below `n`. */
  lemma {:induction false} BitOfFlip(x: nat, n: nat, k: nat)
    requires x < Pow2(n) && k < n
    ensures Bit(Pow2(n) - 1 - x, k) <==> !Bit(x, k)
  {
    if k > 0 {
      assert (Pow2(n) - 1 - x) / 2 == Pow2(n - 1) - 1 - x / 2;
      BitOfFlip(x / 2, n - 1, k - 1);
    }
  }

  lemma {:induction false} OrBound(x: nat, y: nat, n: nat)
    requires x < Pow2(n) && y < Pow2(n)
    ensures Or(x, y) < Pow2(n)
  {
    if n > 0 && (x != 0 || y != 0) {
      OrBound(x / 2, y / 2, n - 1);
    }
  }

  lemma {:induction false} AndBound(x: nat, y: nat)
    ensures And(x, y) <= x
  {
    if x != 0 && y != 0 {
      AndBound(x / 2, y / 2);
    }
  }

  /** A number is zero exactly when every one of its bits is. */
  lemma {:induction false} LowestSetBit(x: nat) returns (k: nat)
    requires x > 0
    ensures Bit(x, k)
  {
    if x % 2 == 1 {
      k := 0;
    } else {
      var j := LowestSetBit(x / 2);
      k := j + 1;
    }
  }

  lemma {:induction false} Pow2Grows(j: nat, k: nat)
    requires j < k
    ensures Pow2(j) < Pow2(k)
  {
    if j + 1 < k {
      Pow2Grows(j, k - 1);
    }
  }

  lemma WordWidth()
    ensures Pow2(32) == WORD_LIMIT
  {
    assert Pow2(8) == 256;
    assert Pow2(16) == 0x1_0000;
    assert Pow2(24) == 0x100_0000;
  }

  /** `1 << k` as a word. */
  function Mask(k: nat): (m: word)
    requires k < BITS_IN_WORD
    ensures m == Pow2(k)
  {
    WordWidth();
    Pow2Grows(k, 32);
    Pow2(k)
  }

  function OrMask(w: word, k: nat): (r: word)
    requires k < BITS_IN_WORD
  {
    WordWidth();
    OrBound(w, Mask(k), 32);
    Or(w, Mask(k))
  }

  function AndNotMask(w: word, k: nat): (r: word)
    requires k < BITS_IN_WORD
  {
    AndBound(w, Complement(Mask(k)));
    And(w, Complement(Mask(k)))
  }

  lemma OrMaskBits(w: word, k: nat, j: nat)
    requires k < BITS_IN_WORD && j < BITS_IN_WORD
    ensures Bit(OrMask(w, k), j) <==> j == k || Bit(w, j)
  {
    BitOfOr(w, Mask(k), j);
    BitOfPow2(k, j);
  }

  lemma AndNotMaskBits(w: word, k: nat, j: nat)
    requires k < BITS_IN_WORD && j < BITS_IN_WORD
    ensures Bit(AndNotMask(w, k), j) <==> j != k && Bit(w, j)
  {
    WordWidth();
    BitOfAnd(w, Complement(Mask(k)), j);
    BitOfFlip(Mask(k), 32, j);
    BitOfPow2(k, j);
  }

  /** Testing a word against a one-bit mask tests that bit. */
  lemma MaskTest(w: word, k: nat)
    requires k < BITS_IN_WORD
    ensures And(w, Mask(k)) != 0 <==> Bit(w, k)
  {
  }

  // ---------- Bit maps as sequences of Booleans ----------

  function Bits(words: seq<word>, n: nat): (bits: seq<bool>)
    requires n <= BITS_IN_WORD * |words|
    ensures |bits| == n
  {
    seq(n, i requires 0 <= i < n => Bit(words[i / BITS_IN_WORD], i % BITS_IN_WORD))
  }

  lemma {:induction false} BitIsDigit(x: nat, k: nat)
    ensures Bit(x, k) <==> x / Pow2(k) % 2 == 1
  {
    if k > 0 {
      BitIsDigit(x / 2, k - 1);
      DivideTwice(x, Pow2(k - 1));
    }
  }

  lemma DivideTwice(x: nat, p: nat)
    requires p > 0
    ensures x / 2 / p == x / (2 * p)
  {
    var q := x / 2 / p;
    assert x / 2 == p * q + x / 2 % p;
    assert x == 2 * p * q + (2 * (x / 2 % p) + x % 2);
    DivideIs(x, 2 * p, q, 2 * (x / 2 % p) + x % 2);
  }

  lemma DivideIs(x: nat, d: nat, q: nat, r: nat)
    requires d > 0 && x == d * q + r && r < d
    ensures x / d == q
  {
    AtLeastOnce(d, q - x / d);
    assert d * q - d * (x / d) == d * (q - x / d);
  }

  lemma AtLeastOnce(d: int, k: int)
    requires d >= 0
    ensures k >= 1 ==> d * k >= d
    ensures k <= -1 ==> d * k <= -d
  {
    assert d * k == d * (k - 1) + d && d * k == d * (k + 1) - d;
  }

  /** Bit `i` of a map is binary digit `i % 32` of word `i / 32`. */
  lemma BitsImage(words: seq<word>, n: nat, i: nat)
    requires i < n <= BITS_IN_WORD * |words|
    ensures Bits(words, n)[i] <==> words[i / 32] / Pow2(i % 32) % 2 == 1
  {
    BitIsDigit(words[i / 32], i % 32);
  }

  /** The first clear position at or after `i`, or -1. */
  function FirstClear(bits: seq<bool>, i: nat): (r: int)
    requires i <= |bits|
    ensures r == -1 || i <= r < |bits|
    decreases |bits| - i
  {
    if i == |bits| then -1 else if !bits[i] then i else FirstClear(bits, i + 1)
  }

  function CountClear(bits: seq<bool>): (n: nat)
    ensures n <= |bits|
  {
    if bits == [] then 0
    else CountClear(bits[..|bits| - 1]) + if bits[|bits| - 1] then 0 else 1
  }

  /** FirstClear finds the least clear position, and fails only when there is none. */
  lemma {:induction false} FirstClearIsLeast(bits: seq<bool>, i: nat)
    requires i <= |bits|
    ensures FirstClear(bits, i) != -1 ==> !bits[FirstClear(bits, i)]
    ensures forall j :: i <= j < |bits| && (FirstClear(bits, i) == -1 || j < FirstClear(bits, i)) ==> bits[j]
    decreases |bits| - i
  {
    if i < |bits| && bits[i] {
      FirstClearIsLeast(bits, i + 1);
    }
  }

  lemma {:induction false} CountClearZero(bits: seq<bool>)
    ensures CountClear(bits) == 0 <==> forall i :: 0 <= i < |bits| ==> bits[i]
  {
    if bits != [] {
      CountClearZero(bits[..|bits| - 1]);
    }
  }

  /** There is a bit to find exactly when the count of clear bits is positive. */
  lemma FindSucceedsIffClear(bits: seq<bool>)
    ensures FirstClear(bits, 0) == -1 <==> CountClear(bits) == 0
  {
    FirstClearIsLeast(bits, 0);
    CountClearZero(bits);
  }

  lemma {:induction false} CountClearUpdate(bits: seq<bool>, i: nat, b: bool)
    requires i < |bits|
    ensures CountClear(bits[i := b]) == CountClear(bits) - (if bits[i] then 0 else 1) + (if b then 0 else 1)
  {
    var n := |bits| - 1;
    if i == n {
      assert bits[i := b][..n] == bits[..n];
    } else {
      assert bits[i := b][..n] == bits[..n][i := b];
      CountClearUpdate(bits[..n], i, b);
    }
  }

  // ---------- The packed representation ----------

  class BitMap {
    const numBits: nat
    const numWords: nat
    const words: array<word>

    ghost predicate Valid()
      reads this
    {
      && numWords == DivRoundUp(numBits, BITS_IN_WORD)
      && words.Length == numWords
    }

    ghost function Contents(): (bits: seq<bool>)
      requires Valid()
      reads this, words
      ensures |bits| == numBits
    {
      Bits(words[..], numBits)
    }

    constructor (nitems: nat)
      ensures Valid() && fresh(words) && numBits == nitems
      ensures Contents() == seq(nitems, _ => false)
    {
      numBits := nitems;
      numWords := DivRoundUp(nitems, BITS_IN_WORD);
      words := new word[DivRoundUp(nitems, BITS_IN_WORD)];
      new;
      for i := 0 to nitems
        invariant Valid()
        invariant forall j :: 0 <= j < i ==> !Contents()[j]
      {
        Clear(i);
      }
    }

    method Mark(which: nat)
      requires Valid() && which < numBits
      modifies words
      ensures Valid() && Contents() == old(Contents())[which := true]
    {
      var w := which / BITS_IN_WORD;
      ghost var was := words[..];
      words[w] := OrMask(words[w], which % BITS_IN_WORD);
      assert words[..] == was[w := OrMask(was[w], which % BITS_IN_WORD)];
      forall i | 0 <= i < numBits
        ensures Contents()[i] == Bits(was, numBits)[which := true][i]
      {
        OrMaskBits(was[w], which % BITS_IN_WORD, i % BITS_IN_WORD);
      }
    }

    method Clear(which: nat)
      requires Valid() && which < numBits
      modifies words
      ensures Valid() && Contents() == old(Contents())[which := false]
    {
      var w := which / BITS_IN_WORD;
      ghost var was := words[..];
      words[w] := AndNotMask(words[w], which % BITS_IN_WORD);
      assert words[..] == was[w := AndNotMask(was[w], which % BITS_IN_WORD)];
      forall i | 0 <= i < numBits
        ensures Contents()[i] == Bits(was, numBits)[which := false][i]
      {
        AndNotMaskBits(was[w], which % BITS_IN_WORD, i % BITS_IN_WORD);
      }
    }

    method Test(which: nat) returns (b: bool)
      requires Valid() && which < numBits
      ensures b == Contents()[which]
    {
      MaskTest(words[which / BITS_IN_WORD], which % BITS_IN_WORD);
      b := And(words[which / BITS_IN_WORD], Mask(which % BITS_IN_WORD)) != 0;
    }

    /** Finds and allocates the first clear bit. */
    method Find() returns (r: int)
      requires Valid()
      modifies words
      ensures Valid() && r == FirstClear(old(Contents()), 0)
      ensures Contents() == if r == -1 then old(Contents()) else old(Contents())[r := true]
    {
      for i := 0 to numBits
        invariant Contents() == old(Contents())
        invariant FirstClear(Contents(), 0) == FirstClear(Contents(), i)
      {
        var b := Test(i);
        if !b {
          Mark(i);
          return i;
        }
      }
      return -1;
    }

    method NumClear() returns (count: nat)
      requires Valid()
      ensures count == CountClear(Contents())
    {
      count := 0;
      for i := 0 to numBits
        invariant count == CountClear(Contents()[..i])
      {
        assert Contents()[..i + 1][..i] == Contents()[..i];
        var b := Test(i);
        if !b {
          count := count + 1;
        }
      }
      assert Contents()[..numBits] == Contents();
    }
  }
}
