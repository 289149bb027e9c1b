/**
 Reassembly of length-delimited messages from a byte stream that arrives in
 arbitrary pieces.  The agent's input loop, the daemon's relay handlers and an
 RFB server's message reader all have this shape: look at the head of what has
 arrived, take one message off it if it is complete, look again.
 */
module Framing {
  import opened Bytes

  /** What a reader makes of the head of its buffer. */
  datatype Head<T> = More | Item(len: nat, item: T)

  type Decoder<T> = seq<byte> -> Head<T>

  datatype Parsed<T> = Parsed(items: seq<T>, rest: seq<byte>)

  /** A complete message takes at least one of the bytes present, and later bytes do not change it. */
  ghost predicate StableAt<T>(dec: Decoder<T>, s: seq<byte>, t: seq<byte>) {
    dec(s).Item? ==> 0 < dec(s).len <= |s| && dec(s + t) == dec(s)
  }

  ghost predicate Stable<T(!new)>(dec: Decoder<T>) {
    forall s, t :: StableAt(dec, s, t)
  }

  /** All complete messages at the front of `s`, and the bytes left over. */
  ghost function Parse<T>(dec: Decoder<T>, s: seq<byte>): Parsed<T>
    decreases |s|
  {
    match dec(s)
    case More => Parsed([], s)
    case Item(n, x) =>
      if 0 < n <= |s| then
        var p := Parse(dec, s[n..]);
        Parsed([x] + p.items, p.rest)
      else
        Parsed([], s)
  }

  /** One arrival: append to what is pending, take every complete message. */
  ghost function Feed<T>(dec: Decoder<T>, pending: seq<byte>, chunks: seq<seq<byte>>): Parsed<T>
    decreases |chunks|
  {
    if chunks == [] then
      Parsed([], pending)
    else
      var now := Parse(dec, pending + chunks[0]);
      var later := Feed(dec, now.rest, chunks[1..]);
      Parsed(now.items + later.items, later.rest)
  }

  lemma {:induction false} ParseLeavesSuffix<T(!new)>(dec: Decoder<T>, s: seq<byte>)
    requires Stable(dec)
    ensures var r := Parse(dec, s).rest;
            && dec(r).More?
            && |r| <= |s|
            && r == s[|s| - |r|..]
    decreases |s|
  {
    match dec(s)
    case More =>
    case Item(n, _) =>
      assert StableAt(dec, s, []);
      ParseLeavesSuffix(dec, s[n..]);
  }

  /** Parsing can stop anywhere and resume with the leftover in front. */
  lemma {:induction false} ParseAppend<T(!new)>(dec: Decoder<T>, s: seq<byte>, t: seq<byte>)
    requires Stable(dec)
    ensures var p := Parse(dec, s);
            var q := Parse(dec, p.rest + t);
            Parse(dec, s + t) == Parsed(p.items + q.items, q.rest)
    decreases |s|
  {
    match dec(s)
    case More =>
    case Item(n, x) =>
      assert StableAt(dec, s, t);
      assert (s + t)[n..] == s[n..] + t;
      ParseAppend(dec, s[n..], t);
      var p := Parse(dec, s[n..]);
      var q := Parse(dec, p.rest + t);
      assert [x] + (p.items + q.items) == ([x] + p.items) + q.items;
  }

  /** However a stream is cut into arrivals, the messages are those of the whole stream. */
  lemma {:induction false} FeedIsParse<T(!new)>(dec: Decoder<T>, pending: seq<byte>, chunks: seq<seq<byte>>)
    requires Stable(dec)
    requires dec(pending).More?
    ensures Feed(dec, pending, chunks) == Parse(dec, pending + Flatten(chunks))
    decreases |chunks|
  {
    if chunks == [] {
      assert pending + Flatten(chunks) == pending;
    } else {
      var first, tail := pending + chunks[0], Flatten(chunks[1..]);
      var now := Parse(dec, first);
      ParseLeavesSuffix(dec, first);
      FeedIsParse(dec, now.rest, chunks[1..]);
      ParseAppend(dec, first, tail);
      assert first + tail == pending + Flatten(chunks);
    }
  }

  /** A stream made of whole messages parses to those messages, with nothing left over. */
  lemma {:induction false} ParseWhole<T(!new)>(dec: Decoder<T>, units: seq<seq<byte>>, items: seq<T>)
    requires Stable(dec)
    requires |units| == |items|
    requires forall i :: 0 <= i < |units| ==> dec(units[i]) == Item(|units[i]|, items[i])
    ensures Parse(dec, Flatten(units)) == Parsed(items, [])
    decreases |units|
  {
    if units == [] {
      assert items == [];
    } else {
      var u, rest := units[0], Flatten(units[1..]);
      assert dec(u) == Item(|u|, items[0]);
      assert Flatten(units) == u + rest;
      assert StableAt(dec, u, rest);
      assert (u + rest)[|u|..] == rest;
      ParseWhole(dec, units[1..], items[1..]);
      assert items == [items[0]] + items[1..];
    }
  }

  /** Whole messages and part of one, cut anywhere: the messages are taken and the part waits. */
  lemma FeedWholeAndPart<T(!new)>(dec: Decoder<T>, units: seq<seq<byte>>, items: seq<T>, part: seq<byte>,
                                  chunks: seq<seq<byte>>)
    requires Stable(dec) && |units| == |items| && dec(part).More?
    requires forall i :: 0 <= i < |units| ==> dec(units[i]) == Item(|units[i]|, items[i])
    requires Flatten(chunks) == Flatten(units) + part
    ensures Feed(dec, [], chunks) == Parsed(items, part)
  {
    ParseWhole(dec, units, items);
    ParseAppend(dec, Flatten(units), part);
    assert [] + part == part && items + [] == items;
    assert StableAt(dec, [], []);
    assert [] + Flatten(chunks) == Flatten(chunks);
    FeedIsParse(dec, [], chunks);
  }
}
