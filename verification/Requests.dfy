/** The text of requests to the server: what a client prints (sendToServer, userprog/lock_syscalls.cc)
    and how the server reads it (Server, network/nettest.cc). */
module Requests {
  import opened Options
  import opened TextStreams

  datatype Message = Message(code1: char, code2: char, name: string, entity1: int, entity2: int, entity3: int)

  // ---------- The client ----------

  /** The characters of the request; the code has a blank after each letter. */
  function Encode(m: Message): string {
    var code := [m.code1, ' ', m.code2, ' '];
    if m.code1 == 'M' && m.code2 == 'C' then code + m.name + " " + ShowInt(m.entity1)
    else if m.code2 == 'C' then code + m.name
    else code + ShowInt(m.entity1) + " " + ShowInt(m.entity2) + " " + ShowInt(m.entity3)
  }

  /** For instance, a wait on condition 3 with lock 12. */
  lemma WaitRequestText()
    ensures Encode(Message('C', 'W', "", 3, 12, -1)) == "C W 3 12 -1"
  {
    assert ShowNat(12) == ShowNat(1) + [Digit(2)];
    assert ShowInt(3) == "3" && ShowInt(12) == "12" && ShowInt(-1) == "-1";
    assert ['C', ' ', 'W', ' '] == "C W ";
  }

  /** Copies the text into the mail buffer, with a terminator. */
  method FillSendBuffer(str: string, sendBuffer: array<char>) returns (length: nat)
    requires |str| < sendBuffer.Length
    modifies sendBuffer
    ensures length == |str| + 1 && sendBuffer[..length] == str + ['\0']
  {
    for i := 0 to |str|
      invariant sendBuffer[..i] == str[..i]
    {
      sendBuffer[i] := str[i];
    }
    sendBuffer[|str|] := '\0';
    length := |str| + 1;
  }

  // ---------- The server ----------

  /** The text in a mail buffer: what is before its terminator. */
  function CString(buffer: string): string {
    if buffer == [] || buffer[0] == '\0' then [] else [buffer[0]] + CString(buffer[1..])
  }

  /** Whether a request's code makes the server read a second, and a third, number. */
  predicate ReadsSecond(code1: char, code2: char) {
    (code1 == 'M' && (code2 == 'G' || code2 == 'S')) || (code1 == 'C' && (code2 == 'W' || code2 == 'S' || code2 == 'B'))
  }

  predicate ReadsThird(code1: char, code2: char) {
    code1 == 'M' && (code2 == 'G' || code2 == 'S')
  }

  /** Reading a request; `last` holds the codes and the name left from the one before. */
  function Parse(text: string, last: Message): Message {
    var ss := Stream(text, true);
    var (c1, s1) := ReadChar(ss, last.code1);
    var (c2, s2) := ReadChar(s1, last.code2);
    if c2 == 'C' then
      var (name, s3) := ReadWord(s2, last.name);
      Message(c1, c2, name, if c1 == 'M' then ReadInt(s3, -1).0 else -1, -1, -1)
    else
      var (e1, s3) := ReadInt(s2, -1);
      var (e2, s4) := if ReadsSecond(c1, c2) then ReadInt(s3, -1) else (-1, s3);
      Message(c1, c2, last.name, e1, e2, if ReadsThird(c1, c2) then ReadInt(s4, -1).0 else -1)
  }

  // ---------- Round trip ----------

  /** A word that a C string can hold. */
  predicate IsWord(w: string) {
    w != [] && forall i :: 0 <= i < |w| ==> !IsBlank(w[i]) && w[i] != '\0'
  }

  predicate Sendable(m: Message) {
    && !IsBlank(m.code1) && !IsBlank(m.code2) && m.code1 != '\0' && m.code2 != '\0'
    && (m.code2 == 'C' ==> IsWord(m.name))
    && IsInt(m.entity1) && IsInt(m.entity2) && IsInt(m.entity3)
  }

  lemma {:induction false} CStringOfText(text: string, rest: string)
    requires forall i :: 0 <= i < |text| ==> text[i] != '\0'
    ensures CString(text + ['\0'] + rest) == text
  {
    var b := text + ['\0'] + rest;
    if text != [] {
      assert b[1..] == text[1..] + ['\0'] + rest;
      CStringOfText(text[1..], rest);
    }
  }

  lemma NoNulInText(m: Message)
    requires Sendable(m)
    ensures forall i :: 0 <= i < |Encode(m)| ==> Encode(m)[i] != '\0'
  {
  }

  /** The code letters, and the rest of the text after the code's second blank. */
  lemma CodeReadsBack(c1: char, c2: char, s: string, was1: char, was2: char)
    requires !IsBlank(c1) && !IsBlank(c2)
    ensures var text := [c1, ' ', c2, ' '] + s;
            var (a, s1) := ReadChar(Stream(text, true), was1);
            a == c1 && ReadChar(s1, was2) == (c2, Stream(" " + s, true))
  {
    var text := [c1, ' ', c2, ' '] + s;
    assert text == "" + [c1] + (" " + [c2] + (" " + s));
    CharReadsBack(c1, false, " " + [c2] + (" " + s), was1);
    CharReadsBack(c2, true, " " + s, was2);
  }

  /** For every code, name and integers, the server reads the code, the name if there is one, and
      every integer that the code makes it read. */
  lemma RequestRoundTrip(m: Message, last: Message, junk: string)
    requires Sendable(m)
    ensures var r := Parse(CString(Encode(m) + ['\0'] + junk), last);
            && r.code1 == m.code1 && r.code2 == m.code2
            && r.name == (if m.code2 == 'C' then m.name else last.name)
            && r.entity1 == (if m.code2 == 'C' && m.code1 != 'M' then -1 else m.entity1)
            && r.entity2 == (if [m.code1, m.code2] in ["MG", "MS", "CW", "CS", "CB"] then m.entity2 else -1)
            && r.entity3 == (if [m.code1, m.code2] in ["MG", "MS"] then m.entity3 else -1)
  {
    hide ShowInt, ReadInt, ReadWord, ReadChar, CString;
    var text := Encode(m);
    NoNulInText(m);
    CStringOfText(text, junk);
    var code := [m.code1, ' ', m.code2, ' '];
    var args := text[4..];
    assert text == code + args;
    CodeReadsBack(m.code1, m.code2, args, last.code1, last.code2);
    if m.code2 == 'C' {
      if m.code1 == 'M' {
        var tail := " " + ShowInt(m.entity1);
        assert " " + args == " " + m.name + tail;
        WordReadsBack(m.name, true, tail, last.name);
        assert tail == " " + ShowInt(m.entity1) + "";
        IntReadsBack(m.entity1, true, "", -1);
      } else {
        assert " " + args == " " + m.name + "";
        WordReadsBack(m.name, true, "", last.name);
      }
    } else {
      var tail3 := " " + ShowInt(m.entity3) + "";
      var tail2 := " " + ShowInt(m.entity2) + tail3;
      assert " " + args == " " + ShowInt(m.entity1) + tail2;
      IntReadsBack(m.entity1, true, tail2, -1);
      IntReadsBack(m.entity2, true, tail3, -1);
      IntReadsBack(m.entity3, true, "", -1);
    }
  }

  /** A request that ends after its code reads as one for entity -1, with the name left as it was. */
  lemma ShortRequest(c1: char, c2: char, last: Message, junk: string)
    requires !IsBlank(c1) && !IsBlank(c2) && c1 != '\0' && c2 != '\0'
    ensures Parse(CString([c1, ' ', c2, ' '] + ['\0'] + junk), last) == Message(c1, c2, last.name, -1, -1, -1)
  {
    hide ReadChar, CString;
    var text := [c1, ' ', c2, ' '];
    CStringOfText(text, junk);
    assert text == text + "";
    CodeReadsBack(c1, c2, "", last.code1, last.code2);
    assert " " + "" == " ";
    assert SkipBlanks(" ") == "" by {
      assert " "[1..] == "";
    }
    hide SkipBlanks;
  }

  /** A request that passes -1 for what its code does not use, as the system calls do, and no name but
      for a create, is read as it was. */
  lemma SystemCallRoundTrip(m: Message, last: Message, junk: string)
    requires Sendable(m)
    requires m.code2 != 'C' ==> m.name == last.name
    requires m.code2 == 'C' && m.code1 != 'M' ==> m.entity1 == -1
    requires [m.code1, m.code2] !in ["MG", "MS", "CW", "CS", "CB"] ==> m.entity2 == -1
    requires [m.code1, m.code2] !in ["MG", "MS"] ==> m.entity3 == -1
    ensures Parse(CString(Encode(m) + ['\0'] + junk), last) == m
  {
    RequestRoundTrip(m, last, junk);
  }
}
