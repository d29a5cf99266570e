/** Numbers and words on a text stream: what `<<` prints and `>>` reads back. */
module TextStreams {
  import opened Options

  predicate IsBlank(c: char) {
    c as int in {9, 10, 11, 12, 13, 32}
  }

  predicate IsDigit(c: char) {
    '0' <= c <= '9'
  }

  const INT_MIN := -0x8000_0000
  const INT_MAX := 0x7fff_ffff

  predicate IsInt(i: int) {
    INT_MIN <= i <= INT_MAX
  }

  // ---------- Printing ----------

  function Digit(d: nat): char
    requires d < 10
  {
    ('0' as int + d) as char
  }

  function ShowNat(n: nat): (s: string)
    ensures s != [] && forall i :: 0 <= i < |s| ==> IsDigit(s[i])
  {
    if n < 10 then [Digit(n)] else ShowNat(n / 10) + [Digit(n % 10)]
  }

  function ShowInt(i: int): (s: string)
    ensures s != []
  {
    if i < 0 then "-" + ShowNat(-i) else ShowNat(i)
  }

  // ---------- Reading ----------

  function SkipBlanks(s: string): string {
    if s != [] && IsBlank(s[0]) then SkipBlanks(s[1..]) else s
  }

  /** The longest prefix of digits. */
  function DigitsOf(s: string): (ds: string)
    ensures |ds| <= |s|
  {
    if s != [] && IsDigit(s[0]) then [s[0]] + DigitsOf(s[1..]) else []
  }

  function DigitValue(c: char): nat
    requires IsDigit(c)
  {
    c as int - '0' as int
  }

  function NatOf(ds: string): nat
    requires forall i :: 0 <= i < |ds| ==> IsDigit(ds[i])
  {
    if ds == [] then 0 else 10 * NatOf(ds[..|ds| - 1]) + DigitValue(ds[|ds| - 1])
  }

  lemma {:induction false} DigitsAreDigits(s: string)
    ensures forall i :: 0 <= i < |DigitsOf(s)| ==> IsDigit(DigitsOf(s)[i])
  {
    if s != [] && IsDigit(s[0]) {
      DigitsAreDigits(s[1..]);
    }
  }

  /** The longest prefix without blanks. */
  function WordOf(s: string): (w: string)
    ensures |w| <= |s|
  {
    if s != [] && !IsBlank(s[0]) then [s[0]] + WordOf(s[1..]) else []
  }

  /** A stream: what is left to read, and whether every read so far succeeded. */
  datatype Stream = Stream(rest: string, good: bool)

  /** `ss >> c`. A read that fails leaves the variable as it `was`. */
  function ReadChar(ss: Stream, was: char): (r: (char, Stream)) {
    var s := SkipBlanks(ss.rest);
    if ss.good && s != [] then (s[0], Stream(s[1..], true)) else (was, Stream(s, false))
  }

  /** `ss >> name`. */
  function ReadWord(ss: Stream, was: string): (r: (string, Stream)) {
    var s := SkipBlanks(ss.rest);
    var w := WordOf(s);
    if ss.good && w != [] then (w, Stream(s[|w|..], true)) else (was, Stream(s, false))
  }

  /** The number at the front of a text, if there is one that an int can hold, and what follows. */
  function TakeInt(s: string): (r: (Option<int>, string)) {
    var signed := s != [] && (s[0] == '-' || s[0] == '+');
    var t := if signed then s[1..] else s;
    var ds := DigitsOf(t);
    DigitsAreDigits(t);
    var i: int := if signed && s[0] == '-' then -(NatOf(ds) as int) else NatOf(ds);
    (if ds != [] && IsInt(i) then Some(i) else None, t[|ds|..])
  }

  /** `ss >> i`. */
  function ReadInt(ss: Stream, was: int): (r: (int, Stream)) {
    var (i, rest) := TakeInt(SkipBlanks(ss.rest));
    if ss.good && i.Some? then (i.value, Stream(rest, true)) else (was, Stream(rest, false))
  }

  // ---------- Reading back what was printed ----------

  /** What follows ends a number and a word. */
  predicate EndsToken(s: string) {
    s == [] || IsBlank(s[0])
  }

  lemma {:induction false} NatRoundTrip(n: nat)
    ensures NatOf(ShowNat(n)) == n
  {
    if n >= 10 {
      NatRoundTrip(n / 10);
      var s := ShowNat(n);
      assert s[..|s| - 1] == ShowNat(n / 10);
    }
  }

  lemma {:induction false} DigitsBeforeBlank(ds: string, s: string)
    requires (forall i :: 0 <= i < |ds| ==> IsDigit(ds[i])) && EndsToken(s)
    ensures DigitsOf(ds + s) == ds
  {
    if ds != [] {
      assert (ds + s)[1..] == ds[1..] + s;
      DigitsBeforeBlank(ds[1..], s);
    } else {
      assert ds + s == s;
    }
  }

  lemma {:induction false} WordBeforeBlank(w: string, s: string)
    requires (forall i :: 0 <= i < |w| ==> !IsBlank(w[i])) && EndsToken(s)
    ensures WordOf(w + s) == w
  {
    if w != [] {
      assert (w + s)[1..] == w[1..] + s;
      WordBeforeBlank(w[1..], s);
    } else {
      assert w + s == s;
    }
  }

  lemma TakeShownNat(n: nat, s: string)
    requires EndsToken(s)
    ensures DigitsOf(ShowNat(n) + s) == ShowNat(n) && (ShowNat(n) + s)[|ShowNat(n)|..] == s
    ensures IsDigit((ShowNat(n) + s)[0])
  {
    DigitsBeforeBlank(ShowNat(n), s);
  }

  lemma TakePositive(n: nat, s: string)
    requires IsInt(n) && EndsToken(s)
    ensures TakeInt(ShowNat(n) + s) == (Some(n), s)
  {
    NatRoundTrip(n);
    TakeShownNat(n, s);
    hide ShowNat, DigitsOf, NatOf;
  }

  lemma TakeNegative(n: nat, s: string)
    requires IsInt(-(n as int)) && EndsToken(s)
    ensures TakeInt(['-'] + (ShowNat(n) + s)) == (Some(-(n as int)), s)
  {
    NatRoundTrip(n);
    TakeShownNat(n, s);
    hide ShowNat, DigitsOf, NatOf;
    assert (['-'] + (ShowNat(n) + s))[1..] == ShowNat(n) + s;
  }

  lemma TakeShownInt(i: int, s: string)
    requires IsInt(i) && EndsToken(s)
    ensures TakeInt(ShowInt(i) + s) == (Some(i), s)
    ensures !IsBlank((ShowInt(i) + s)[0])
  {
    hide ShowNat, TakeInt;
    if i < 0 {
      TakeNegative(-i, s);
      assert ShowInt(i) + s == ['-'] + (ShowNat(-i) + s);
    } else {
      TakePositive(i, s);
    }
  }

  lemma SkipOne(t: string, blank: bool)
    requires t != [] && !IsBlank(t[0])
    ensures SkipBlanks((if blank then " " else "") + t) == t
  {
    var text := (if blank then " " else "") + t;
    assert blank ==> text[1..] == t;
    assert !blank ==> text == t;
  }

  /** A printed number, after at most one blank and before a blank or the end, reads back. */
  lemma IntReadsBack(i: int, blank: bool, s: string, was: int)
    requires IsInt(i) && EndsToken(s)
    ensures ReadInt(Stream((if blank then " " else "") + ShowInt(i) + s, true), was) == (i, Stream(s, true))
  {
    hide ShowInt, TakeInt, SkipBlanks, IsBlank;
    TakeShownInt(i, s);
    SkipOne(ShowInt(i) + s, blank);
    assert (if blank then " " else "") + ShowInt(i) + s == (if blank then " " else "") + (ShowInt(i) + s);
  }

  lemma WordReadsBack(w: string, blank: bool, s: string, was: string)
    requires w != [] && (forall i :: 0 <= i < |w| ==> !IsBlank(w[i])) && EndsToken(s)
    ensures ReadWord(Stream((if blank then " " else "") + w + s, true), was) == (w, Stream(s, true))
  {
    hide SkipBlanks, WordOf;
    WordBeforeBlank(w, s);
    SkipOne(w + s, blank);
    assert (if blank then " " else "") + w + s == (if blank then " " else "") + (w + s);
    assert (w + s)[|w|..] == s;
  }

  lemma CharReadsBack(c: char, blank: bool, s: string, was: char)
    requires !IsBlank(c)
    ensures ReadChar(Stream((if blank then " " else "") + [c] + s, true), was) == (c, Stream(s, true))
  {
    SkipOne([c] + s, blank);
    assert (if blank then " " else "") + [c] + s == (if blank then " " else "") + ([c] + s);
    assert ([c] + s)[1..] == s;
    hide SkipBlanks;
  }
}
