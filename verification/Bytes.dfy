/** Bytes, 32-bit words and their little-endian images, as the simulated machine and
    the disk store them. */
module Bytes {
  type byte = b: int | 0 <= b < 256

  const WORD_LIMIT := 0x1_0000_0000

  type word = w: int | 0 <= w < WORD_LIMIT

  function DivRoundUp(n: nat, s: nat): nat
    requires s > 0
  {
    n / s + if n % s > 0 then 1 else 0
  }

  function WordBytes(w: word): (bs: seq<byte>)
    ensures |bs| == 4
  {
    [w % 256, w / 256 % 256, w / 0x1_0000 % 256, w / 0x100_0000]
  }

  function BytesWord(bs: seq<byte>): word
    requires |bs| == 4
  {
    bs[0] as int + 256 * bs[1] as int + 0x1_0000 * bs[2] as int + 0x100_0000 * bs[3] as int
  }

  lemma WordRoundTrip(w: word)
    ensures BytesWord(WordBytes(w)) == w
  {
    var q1 := w / 256;
    var q2 := w / 0x1_0000;
    assert q2 == q1 / 256;
    assert w / 0x100_0000 == q2 / 256;
  }

  /** The low byte comes first. */
  lemma WordImage(w: word)
    ensures var bs := WordBytes(w);
            w == bs[0] as int + 0x100 * bs[1] as int + 0x1_0000 * bs[2] as int + 0x100_0000 * bs[3] as int
  {
    WordRoundTrip(w);
  }

  /** Word `i` of an array is at four times `i`. */
  lemma {:induction false} WordsImage(ws: seq<word>, i: nat)
    requires i < |ws|
    ensures EncodeWords(ws)[4 * i..4 * i + 4] == WordBytes(ws[i])
  {
    if i > 0 {
      WordsImage(ws[1..], i - 1);
      assert EncodeWords(ws)[4 * i..4 * i + 4] == EncodeWords(ws[1..])[4 * (i - 1)..4 * (i - 1) + 4];
    }
  }

  /** The image of an array of words: `(char *) array`. */
  function EncodeWords(ws: seq<word>): (bs: seq<byte>)
    ensures |bs| == 4 * |ws|
  {
    if ws == [] then [] else WordBytes(ws[0]) + EncodeWords(ws[1..])
  }

  function DecodeWords(bs: seq<byte>): (ws: seq<word>)
    requires |bs| % 4 == 0
    ensures 4 * |ws| == |bs|
  {
    if bs == [] then [] else [BytesWord(bs[..4])] + DecodeWords(bs[4..])
  }

  lemma {:induction false} WordsRoundTrip(ws: seq<word>)
    ensures DecodeWords(EncodeWords(ws)) == ws
  {
    if ws != [] {
      var bs := EncodeWords(ws);
      assert bs[..4] == WordBytes(ws[0]) && bs[4..] == EncodeWords(ws[1..]);
      WordRoundTrip(ws[0]);
      WordsRoundTrip(ws[1..]);
    }
  }
}
