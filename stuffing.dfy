/** Byte de-stuffing, the second half of `parser_hex_to_byte`.

    The sensor escapes payload bytes that would collide with framing: a
    payload 0x08 is sent as `07 55` and a payload 0x07 as `07 aa`. The parser
    undoes this pair by pair; an escape followed by any other byte loses both
    bytes, and an escape at the very end is lost. A telegram of fewer than two
    bytes is left as it is. */
module Stuffing {
  import opened Bits
  import Splitter

  const Escape: Byte := 0x07
  const EscapedDelimiter: Byte := 0x55
  const EscapedEscape: Byte := 0xaa

  /** What the byte after an escape stands for; nothing for a malformed pair. */
  function Unescaped(x: Byte): (r: seq<Byte>)
    ensures |r| <= 1
    ensures r == [Splitter.Delimiter] <==> x == EscapedDelimiter
    ensures r == [Escape] <==> x == EscapedEscape
    ensures x != EscapedDelimiter && x != EscapedEscape ==> r == []
  {
    if x == EscapedDelimiter then [Splitter.Delimiter]
    else if x == EscapedEscape then [Escape]
    else []
  }

  /** The escape rules applied pair by pair from the front. */
  function Unescape(s: seq<Byte>): (r: seq<Byte>)
    ensures |r| <= |s|
  {
    if s == [] then []
    else if s[0] != Escape then [s[0]] + Unescape(s[1..])
    else if |s| == 1 then []
    else Unescaped(s[1]) + Unescape(s[2..])
  }

  lemma ConcatAssoc(a: seq<Byte>, b: seq<Byte>, c: seq<Byte>)
    ensures (a + b) + c == a + (b + c)
  {
  }

  /** One step from the front: an escape and the byte after it. */
  lemma UnescapeEscaped(c: Byte, rest: seq<Byte>)
    ensures Unescape([Escape] + ([c] + rest)) == Unescaped(c) + Unescape(rest)
  {
    assert ([Escape] + ([c] + rest))[2..] == rest;
  }

  /** One step from the front: a byte that is not an escape is copied. */
  lemma UnescapeCopied(c: Byte, rest: seq<Byte>)
    requires c != Escape
    ensures Unescape([c] + rest) == [c] + Unescape(rest)
  {
    assert ([c] + rest)[1..] == rest;
  }

  /** The byte list `parser_hex_to_byte` leaves behind for a list of chunks. */
  function Destuff(chunks: seq<Byte>): (r: seq<Byte>)
    ensures |r| <= |chunks|
    ensures |chunks| < 2 ==> r == chunks
  {
    if |chunks| >= 2 then Unescape(chunks) else chunks
  }

  /** The sender's side: escapes every 0x08 and 0x07 of a payload. */
  function Stuff(payload: seq<Byte>): (s: seq<Byte>)
    ensures |s| >= |payload|
    ensures Splitter.Delimiter !in s
  {
    if payload == [] then []
    else if payload[0] == Splitter.Delimiter then [Escape, EscapedDelimiter] + Stuff(payload[1..])
    else if payload[0] == Escape then [Escape, EscapedEscape] + Stuff(payload[1..])
    else [payload[0]] + Stuff(payload[1..])
  }

  lemma {:induction false} UnescapeStuff(payload: seq<Byte>)
    ensures Unescape(Stuff(payload)) == payload
  {
    if payload != [] {
      var s := Stuff(payload);
      UnescapeStuff(payload[1..]);
      if payload[0] == Splitter.Delimiter || payload[0] == Escape {
        assert s[2..] == Stuff(payload[1..]);
      } else {
        assert s[1..] == Stuff(payload[1..]);
      }
      assert [payload[0]] + payload[1..] == payload;
    }
  }

  /** De-stuffing undoes stuffing, for every payload. */
  lemma DestuffStuff(payload: seq<Byte>)
    ensures Destuff(Stuff(payload)) == payload
  {
    UnescapeStuff(payload);
    if |Stuff(payload)| < 2 {
      assert |payload| <= 1;
      if payload != [] {
        assert payload[0] != Splitter.Delimiter && payload[0] != Escape;
        assert Stuff(payload) == [payload[0]] + Stuff([]);
      }
    }
  }

  /** Input without escape bytes is copied unchanged. */
  lemma {:induction false} UnescapePlain(s: seq<Byte>)
    requires Escape !in s
    ensures Unescape(s) == s
  {
    if s != [] {
      UnescapePlain(s[1..]);
      assert [s[0]] + s[1..] == s;
    }
  }

  /** Stuffing the payloads of a capture, framing them with 0x08 and splitting
      the result gives back each stuffed payload, which de-stuffs to the payload. */
  lemma FrameRoundTrip(payloads: seq<seq<Byte>>)
    ensures var stuffed := seq(|payloads|, i requires 0 <= i < |payloads| => Stuff(payloads[i]));
      && Splitter.Telegrams(Splitter.Framed(stuffed)) == stuffed
      && forall i :: 0 <= i < |payloads| ==> Destuff(Splitter.Telegrams(Splitter.Framed(stuffed))[i]) == payloads[i]
  {
    var stuffed := seq(|payloads|, i requires 0 <= i < |payloads| => Stuff(payloads[i]));
    Splitter.SplitUnique(stuffed, []);
    assert Splitter.Framed(stuffed) + [] == Splitter.Framed(stuffed);
    forall i | 0 <= i < |payloads|
      ensures Destuff(stuffed[i]) == payloads[i]
    {
      DestuffStuff(payloads[i]);
    }
  }
}
