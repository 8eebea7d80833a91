/** The frame splitter: the loop of `load_from_binary_file` that cuts captured
    bytes at every 0x08 delimiter and renders each segment as hex text.
    Reading the file itself is not part of this model; the loop works on the
    bytes the file holds. */
module Splitter {
  import opened Bits
  import opened Hex

  const Delimiter: Byte := 0x08

  function Count(s: seq<Byte>, x: Byte): (n: nat)
    ensures n <= |s|
  {
    if s == [] then 0 else Count(s[..|s| - 1], x) + (if s[|s| - 1] == x then 1 else 0)
  }

  /** The bytes after the last delimiter of s: what the loop holds in `tmp_str`
      when the input ends, and then drops. */
  function Pending(s: seq<Byte>): (p: seq<Byte>)
    ensures Delimiter !in p
    ensures |p| <= |s|
  {
    if s == [] then []
    else if s[|s| - 1] == Delimiter then []
    else Pending(s[..|s| - 1]) + [s[|s| - 1]]
  }

  /** The telegrams that the delimiters of s close, in order. */
  function Telegrams(s: seq<Byte>): (ts: seq<seq<Byte>>)
    ensures |ts| == Count(s, Delimiter)
    ensures forall i :: 0 <= i < |ts| ==> Delimiter !in ts[i]
  {
    if s == [] then []
    else if s[|s| - 1] == Delimiter then Telegrams(s[..|s| - 1]) + [Pending(s[..|s| - 1])]
    else Telegrams(s[..|s| - 1])
  }

  /** Each telegram followed by one delimiter. */
  function Framed(ts: seq<seq<Byte>>): seq<Byte>
  {
    if ts == [] then [] else Framed(ts[..|ts| - 1]) + ts[|ts| - 1] + [Delimiter]
  }

  /** A sequence is its front followed by its last element. */
  lemma LastSplit<T>(s: seq<T>)
    requires s != []
    ensures s[..|s| - 1] + [s[|s| - 1]] == s
  {
  }

  /** Dropping the element just appended. */
  lemma DropLast<T>(a: seq<T>, x: T)
    ensures (a + [x])[..|a|] == a && (a + [x])[|a|] == x
  {
  }

  /** The prefix of length n is the prefix of length n - 1 and element n - 1. */
  lemma PrefixLast<T>(xs: seq<T>, n: nat)
    requires 0 < n <= |xs|
    ensures xs[..n][..n - 1] == xs[..n - 1] && xs[..n][n - 1] == xs[n - 1]
    ensures xs[..n - 1] + [xs[n - 1]] == xs[..n]
  {
  }

  lemma SnocAssoc<T>(a: seq<T>, b: seq<T>, c: seq<T>)
    ensures (a + b) + c == a + (b + c)
  {
  }

  /** A last byte that is a delimiter closes the pending bytes as a telegram. */
  lemma UnfoldDelimiter(x: seq<Byte>)
    requires x != [] && x[|x| - 1] == Delimiter
    ensures Telegrams(x) == Telegrams(x[..|x| - 1]) + [Pending(x[..|x| - 1])]
    ensures Pending(x) == []
  {
  }

  /** A last byte that is not a delimiter closes no telegram and joins the tail. */
  lemma UnfoldLast(x: seq<Byte>)
    requires x != [] && x[|x| - 1] != Delimiter
    ensures Telegrams(x) == Telegrams(x[..|x| - 1])
    ensures Pending(x) == Pending(x[..|x| - 1]) + [x[|x| - 1]]
  {
  }

  /** Framing one more telegram appends it and its delimiter. */
  lemma FramedSnoc(ts: seq<seq<Byte>>, t: seq<Byte>)
    ensures Framed(ts + [t]) == Framed(ts) + t + [Delimiter]
  {
    assert (ts + [t])[..|ts|] == ts;
  }

  /** Re-joining the telegrams, each with its delimiter, and appending the
      dropped tail gives back the input. */
  lemma {:induction false} SplitRoundTrip(s: seq<Byte>)
    ensures Framed(Telegrams(s)) + Pending(s) == s
  {
    if s != [] {
      var front, last := s[..|s| - 1], s[|s| - 1];
      SplitRoundTrip(front);
      LastSplit(s);
      if last == Delimiter {
        UnfoldDelimiter(s);
        FramedSnoc(Telegrams(front), Pending(front));
        SnocAssoc(Framed(Telegrams(front)), Pending(front), [Delimiter]);
      } else {
        UnfoldLast(s);
        SnocAssoc(Framed(Telegrams(front)), Pending(front), [last]);
      }
    }
  }

  /** The splitting is the only one of its kind: any telegrams free of
      delimiters, framed and followed by a delimiter-free tail, are split back
      into exactly those telegrams and that tail. */
  lemma {:induction false} SplitUnique(ts: seq<seq<Byte>>, p: seq<Byte>)
    requires forall i :: 0 <= i < |ts| ==> Delimiter !in ts[i]
    requires Delimiter !in p
    ensures Telegrams(Framed(ts) + p) == ts
    ensures Pending(Framed(ts) + p) == p
    decreases |ts|, |p|
  {
    if p != [] {
      SplitUnique(ts, p[..|p| - 1]);
      SnocSplit(Framed(ts), p);
      UnfoldLast(Framed(ts) + p);
      LastSplit(p);
    } else if ts != [] {
      var ts', last := ts[..|ts| - 1], ts[|ts| - 1];
      SplitUnique(ts', last);
      LastSplit(ts);
      FramedSnoc(ts', last);
      DropLast(Framed(ts') + last, Delimiter);
      assert Framed(ts) + p == Framed(ts);
      UnfoldDelimiter(Framed(ts));
    }
  }

  /** Bytes after the last delimiter never make a telegram of their own. */
  lemma {:induction false} TailDiscarded(s: seq<Byte>, tail: seq<Byte>)
    requires Delimiter !in tail
    ensures Telegrams(s + tail) == Telegrams(s)
    ensures Pending(s + tail) == Pending(s) + tail
  {
    if tail == [] {
      assert s + tail == s;
    } else {
      TailDiscarded(s, tail[..|tail| - 1]);
      SnocSplit(s, tail);
      UnfoldLast(s + tail);
      SnocSplit(Pending(s), tail);
    }
  }

  /** Appending a non-empty tail is appending its front, then its last byte. */
  lemma SnocSplit(s: seq<Byte>, tail: seq<Byte>)
    requires tail != []
    ensures (s + tail)[..|s + tail| - 1] == s + tail[..|tail| - 1]
    ensures (s + tail)[|s + tail| - 1] == tail[|tail| - 1]
    ensures (s + tail[..|tail| - 1]) + [tail[|tail| - 1]] == s + tail
  {
    assert tail[..|tail| - 1] + [tail[|tail| - 1]] == tail;
  }

  /** Two adjacent delimiters yield an empty telegram. */
  lemma AdjacentDelimiters(s: seq<Byte>)
    ensures Telegrams(s + [Delimiter, Delimiter]) == Telegrams(s) + [Pending(s), []]
  {
    var u, t := s + [Delimiter], s + [Delimiter, Delimiter];
    assert t == u + [Delimiter] by {
      SnocAssoc(s, [Delimiter], [Delimiter]);
      assert [Delimiter] + [Delimiter] == [Delimiter, Delimiter];
    }
    DropLast(s, Delimiter);
    DropLast(u, Delimiter);
    UnfoldDelimiter(t);
    UnfoldDelimiter(u);
    SnocAssoc(Telegrams(s), [Pending(s)], [[]]);
    assert [Pending(s)] + [[]] == [Pending(s), []];
  }

  /** No aligned two-character chunk of a rendered telegram is "08". */
  lemma NoDelimiterChunk(s: seq<Byte>, j: nat, i: nat)
    requires j < |Telegrams(s)| && i < |Telegrams(s)[j]|
    ensures ToHex(Telegrams(s)[j])[2 * i..2 * i + 2] != "08"
  {
    var t := Telegrams(s)[j];
    ToHexChunk(t, i);
    assert ByteToHex(Delimiter) == "08";
    if ByteToHex(t[i]) == "08" {
      ByteToHexInjective(t[i], Delimiter);
    }
  }

  /** Hex-decodes every packet; None when one of them is not lowercase hex text. */
  function DecodePackets(packets: seq<string>): (r: Option<seq<seq<Byte>>>)
    ensures r.Some? ==> |r.value| == |packets|
  {
    if packets == [] then Some([])
    else match (FromHex(packets[|packets| - 1]), DecodePackets(packets[..|packets| - 1]))
      case (Some(t), Some(ts)) => Some(ts + [t])
      case _ => None
  }

  /** The splitter's packets decode back to its telegrams, and those, each
      followed by 0x08, rebuild the input up to and including its last 0x08. */
  lemma {:induction false} PacketsReframe(s: seq<Byte>, packets: seq<string>)
    requires |packets| == |Telegrams(s)|
    requires forall i :: 0 <= i < |packets| ==> packets[i] == ToHex(Telegrams(s)[i])
    ensures DecodePackets(packets) == Some(Telegrams(s))
    ensures Framed(Telegrams(s)) == s[..|s| - |Pending(s)|]
  {
    var ts := Telegrams(s);
    DecodedPrefix(packets, ts, |packets|);
    assert packets[..|packets|] == packets && ts[..|ts|] == ts;
    SplitRoundTrip(s);
    assert s[..|s| - |Pending(s)|] == Framed(ts);
  }

  lemma {:induction false} DecodedPrefix(packets: seq<string>, ts: seq<seq<Byte>>, n: nat)
    requires |packets| == |ts| && n <= |ts|
    requires forall i :: 0 <= i < |packets| ==> packets[i] == ToHex(ts[i])
    ensures DecodePackets(packets[..n]) == Some(ts[..n])
  {
    if n > 0 {
      DecodedPrefix(packets, ts, n - 1);
      HexRoundTrip(ts[n - 1]);
      PrefixLast(packets, n);
      PrefixLast(ts, n);
    }
  }

  /** The splitting loop of `load_from_binary_file` over the bytes of the file. */
  method LoadFromBinaryFile(fileContent: seq<Byte>) returns (packetList: seq<string>)
    ensures |packetList| == |Telegrams(fileContent)|
    ensures forall i :: 0 <= i < |packetList| ==> packetList[i] == ToHex(Telegrams(fileContent)[i])
  {
    packetList := [];
    var tmpStr := "";
    for k := 0 to |fileContent|
      invariant |packetList| == |Telegrams(fileContent[..k])|
      invariant forall i :: 0 <= i < |packetList| ==> packetList[i] == ToHex(Telegrams(fileContent[..k])[i])
      invariant tmpStr == ToHex(Pending(fileContent[..k]))
    {
      var byteData := fileContent[k];
      assert fileContent[..k + 1][..k] == fileContent[..k];
      if byteData == Delimiter {
        packetList := packetList + [tmpStr];
        tmpStr := "";
      } else {
        ToHexAppend(Pending(fileContent[..k]), byteData);
        tmpStr := tmpStr + ByteToHex(byteData);
      }
    }
    assert fileContent[..|fileContent|] == fileContent;
  }
}
