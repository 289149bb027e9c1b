/**
 The frame encoder, and its round trip through the agent's input loop.  Beside the test harness's two frames it
 knows the viewer's other two: a character, and the wheel.
 */
module Harness {
  import opened Bytes
  import opened Framing
  import opened InputStream
  import opened IoLoops

  /** One call of the encoder's `mouse` or `key`, a character, or a turn of the wheel at a position. */
  datatype Input =
    | Mouse(x: int, y: int, button: byte)
    | Key(vk: byte, up: int)
    | Char(unicode: int, up: int)
    | Wheel(x: int, y: int, button: byte, delta: int)

  /** The cast of an `int` to `unsigned char`. */
  function Low(n: int): byte {
    n % 0x100
  }

  function Frame(c: Input): seq<byte> {
    match c
    case Mouse(x, y, button) => [0x00, 0x02, 0x00, 0x0A, 0x00, button, Low(x / 0x100), Low(x), Low(y / 0x100), Low(y)]
    case Key(vk, up) => [0x00, 0x01, 0x00, 0x06, Low(up), vk]
    case Char(unicode, up) => [0x00, 0x55, 0x00, 0x07, Low(up), Low(unicode / 0x100), Low(unicode)]
    case Wheel(x, y, button, delta) =>
      [0x00, 0x02, 0x00, 0x0C, 0x00, button, Low(x / 0x100), Low(x), Low(y / 0x100), Low(y),
       Low(delta / 0x100), Low(delta)]
  }

  method Send(c: Input, script: seq<Io>) returns (ok: bool, out: seq<byte>)
    ensures out == Frame(c)[..Through(script, |Frame(c)|, true)]
    ensures ok <==> out == Frame(c)
  {
    ok, out := SendAll(Frame(c), script);
  }

  function Frames(calls: seq<Input>): (f: seq<seq<byte>>)
    ensures |f| == |calls| && forall i :: 0 <= i < |f| ==> f[i] == Frame(calls[i])
  {
    if calls == [] then [] else [Frame(calls[0])] + Frames(calls[1..])
  }

  /** The `int` with these low bits that a signed type of `span` values holds. */
  function Wrapped(n: int, span: nat): int
    requires span > 0
  {
    (n + span / 2) % span - span / 2
  }

  /**
   What the agent should do with a call: 16-bit coordinates over the scale, an 8-bit signed `up`, a 16-bit signed
   turn of the wheel.
   */
  function Expected(c: Input, scale: Scale): Action {
    match c
    case Mouse(x, y, button) => Pointer(x % 0x1_0000 / scale, y % 0x1_0000 / scale, button, 0)
    case Key(vk, up) => KeyPress(vk, Wrapped(up, 0x100))
    case Char(unicode, up) => UnicodePress(unicode % 0x1_0000, Wrapped(up, 0x100))
    case Wheel(x, y, button, delta) =>
      Pointer(x % 0x1_0000 / scale, y % 0x1_0000 / scale, button, Wrapped(delta, 0x1_0000))
  }

  function FrameCall(c: Input): Call {
    var kind := match c case Key(_, _) => KEY case Char(_, _) => KEY_UNICODE case _ => MOUSE;
    Call(kind, |Frame(c)|, Frame(c))
  }

  lemma FrameDecodes(c: Input)
    ensures InputHead(Frame(c)) == Item(|Frame(c)|, FrameCall(c))
  {
    assert Frame(c)[..|Frame(c)|] == Frame(c);
  }

  lemma WordOfInt(n: int)
    ensures 0x100 * Low(n / 0x100) + Low(n) == n % 0x1_0000
  {
  }

  lemma SignedOfLow(n: int)
    ensures SignedByte(Low(n)) == Wrapped(n, 0x100)
  {
  }

  lemma SignedOfWord(n: int)
    ensures SignedWord(n % 0x1_0000) == Wrapped(n, 0x1_0000)
  {
  }

  /** Within its own range a value is what it was. */
  lemma WrappedInRange(n: int)
    ensures -0x80 <= n < 0x80 ==> Wrapped(n, 0x100) == n
    ensures -0x8000 <= n < 0x8000 ==> Wrapped(n, 0x1_0000) == n
  {
  }

  lemma PositionInterprets(c: Input)
    requires c.Mouse? || c.Wheel?
    ensures WordAt(Frame(c), 6) == c.x % 0x1_0000 && WordAt(Frame(c), 8) == c.y % 0x1_0000
  {
    WordOfInt(c.x);
    WordOfInt(c.y);
  }

  lemma CallInterprets(c: Input, scale: Scale)
    ensures Interpret(FrameCall(c), scale) == Expected(c, scale)
  {
    match c
    case Mouse(_, _, _) => PositionInterprets(c);
    case Key(_, up) => SignedOfLow(up);
    case Char(unicode, up) =>
      SignedOfLow(up);
      WordOfInt(unicode);
    case Wheel(_, _, _, delta) =>
      PositionInterprets(c);
      WordOfInt(delta);
      SignedOfWord(delta);
  }

  // ---- Which frames inject what -----------------------------------------------------------------------

  /** A key is injected for exactly one frame: its own. */
  lemma KeyFrameIff(s: seq<byte>, vk: byte, up: int, scale: Scale)
    requires InputHead(s).Item? && -128 <= up < 128
    ensures Interpret(InputHead(s).item, scale) == KeyPress(vk, up) <==>
            s[..InputHead(s).len] == [0, 1, 0, 6, Low(up), vk]
  {
    var f := s[..InputHead(s).len];
    SignedOfLow(up);
    if Interpret(InputHead(s).item, scale) == KeyPress(vk, up) {
      assert f == [f[0], f[1], f[2], f[3], f[4], f[5]];
    }
  }

  /** So is a character: direction first, then its 16 bits in network order. */
  lemma CharFrameIff(s: seq<byte>, unicode: word, up: int, scale: Scale)
    requires InputHead(s).Item? && -128 <= up < 128
    ensures Interpret(InputHead(s).item, scale) == UnicodePress(unicode, up) <==>
            s[..InputHead(s).len] == [0, 85, 0, 7, Low(up), unicode / 256, unicode % 256]
  {
    var f := s[..InputHead(s).len];
    SignedOfLow(up);
    if Interpret(InputHead(s).item, scale) == UnicodePress(unicode, up) {
      assert f == [f[0], f[1], f[2], f[3], f[4], f[5], f[6]];
    }
  }

  /** A frame whose first four bytes are these. */
  predicate HeadedBy(f: seq<byte>, kind: byte, size: byte) {
    |f| == size as nat && size >= 4 && f[..4] == [0, kind, 0, size]
  }

  lemma HeaderSays(s: seq<byte>)
    requires InputHead(s).Item?
    ensures var f, call := s[..InputHead(s).len], InputHead(s).item;
            && call.body == f && call.size == |f|
            && (|f| >= 4 ==> f[..4] == [f[0], f[1], f[2], f[3]])
            && (|f| >= 4 ==> call.kind == 256 * f[0] as int + f[1] as int && |f| == 256 * f[2] as int + f[3] as int)
  {
  }

  lemma PositionWords(f: seq<byte>)
    ensures |f| >= 10 ==> WordAt(f, 6) == 256 * f[6] as int + f[7] as int
    ensures |f| >= 10 ==> WordAt(f, 8) == 256 * f[8] as int + f[9] as int
    ensures |f| >= 12 ==> SignedWord(WordAt(f, 10)) == Wrapped(256 * f[10] as int + f[11] as int, 65536)
  {
    if |f| >= 12 {
      SignedOfWord(WordAt(f, 10));
    }
  }

  /** Where the pointer goes is said by bytes 6 to 9 of a 10 or 12-byte frame, the wheel by bytes 10 and 11. */
  lemma PointerFrameIff(s: seq<byte>, x: int, y: int, button: byte, wheel: int, scale: Scale)
    requires InputHead(s).Item?
    ensures var f := s[..InputHead(s).len];
            Interpret(InputHead(s).item, scale) == Pointer(x, y, button, wheel) <==>
            && (HeadedBy(f, 2, 10) || HeadedBy(f, 2, 12))
            && x == (256 * f[6] as int + f[7] as int) / scale
            && y == (256 * f[8] as int + f[9] as int) / scale && button == f[5]
            && wheel == if |f| == 10 then 0 else Wrapped(256 * f[10] as int + f[11] as int, 65536)
  {
    var f := s[..InputHead(s).len];
    HeaderSays(s);
    PositionWords(f);
    hide InputHead, Wrapped, WordAt, SignedWord;
  }

  /** Any other size of these kinds injects nothing; every other kind of message is handed on as it is. */
  lemma OtherFramesInjectNothing(s: seq<byte>, scale: Scale)
    requires InputHead(s).Item?
    ensures var f, a := s[..InputHead(s).len], Interpret(InputHead(s).item, scale);
            && (a.KeyPress? <==> HeadedBy(f, 1, 6))
            && (a.UnicodePress? <==> HeadedBy(f, 85, 7))
            && (a.Pointer? <==> HeadedBy(f, 2, 10) || HeadedBy(f, 2, 12))
            && (WordAt(s, 0) != 1 && WordAt(s, 0) != 2 && WordAt(s, 0) != 85 ==>
                  a == Other(Call(WordAt(s, 0), WordAt(s, 2), f)))
            && (a.Other? ==> WordAt(s, 0) != 1 && WordAt(s, 0) != 2 && WordAt(s, 0) != 85)
  {
    var f := s[..InputHead(s).len];
    HeaderSays(s);
  }

  // ---- The round trip ---------------------------------------------------------------------------------

  lemma WholePasses(chunks: seq<seq<byte>>, items: seq<Call>)
    requires Parse(InputHead, Flatten(chunks)) == Parsed(items, [])
    ensures Passes([], chunks) == Parsed(items, [])
  {
    assert [] + Flatten(chunks) == Flatten(chunks);
    PassesClosedForm([], chunks);
    assert items + [] == items;
  }

  function FrameCalls(calls: seq<Input>): seq<Call> {
    seq(|calls|, i requires 0 <= i < |calls| => FrameCall(calls[i]))
  }

  lemma FramesParse(calls: seq<Input>)
    ensures Parse(InputHead, Flatten(Frames(calls))) == Parsed(FrameCalls(calls), [])
  {
    forall i | 0 <= i < |calls| ensures InputHead(Frames(calls)[i]) == Item(|Frames(calls)[i]|, FrameCalls(calls)[i]) {
      FrameDecodes(calls[i]);
    }
    InputHeadStable();
    ParseWhole(InputHead, Frames(calls), FrameCalls(calls));
  }

  /** The handler was called once per call, in order, with its frame's size, and did what was expected at its scale. */
  ghost predicate Arrived(items: seq<Call>, calls: seq<Input>, scales: seq<Scale>)
    requires |scales| == |calls|
  {
    && |items| == |calls|
    && forall i :: 0 <= i < |calls| ==>
         items[i].size == |Frame(calls[i])| && Interpret(items[i], scales[i]) == Expected(calls[i], scales[i])
  }

  lemma FrameCallsArrive(calls: seq<Input>, scales: seq<Scale>)
    requires |scales| == |calls|
    ensures Arrived(FrameCalls(calls), calls, scales)
  {
    forall i | 0 <= i < |calls|
      ensures FrameCalls(calls)[i].size == |Frame(calls[i])|
      ensures Interpret(FrameCalls(calls)[i], scales[i]) == Expected(calls[i], scales[i])
    {
      CallInterprets(calls[i], scales[i]);
    }
  }

  /** Whatever the reads, every call arrives once, in order, with its values, and no byte is left over. */
  lemma EndToEnd(calls: seq<Input>, chunks: seq<seq<byte>>, scales: seq<Scale>)
    requires Flatten(chunks) == Flatten(Frames(calls))
    requires |scales| == |calls|
    ensures Passes([], chunks).rest == []
    ensures Arrived(Passes([], chunks).items, calls, scales)
  {
    FramesParse(calls);
    WholePasses(chunks, FrameCalls(calls));
    FrameCallsArrive(calls, scales);
  }

  /** One frame of the viewer's, in any reads, is one call that does this. */
  ghost predicate ArrivesAs(frame: seq<byte>, a: Action, scale: Scale) {
    forall chunks :: Flatten(chunks) == frame ==>
      && Passes([], chunks).rest == []
      && |Passes([], chunks).items| == 1 && Interpret(Passes([], chunks).items[0], scale) == a
  }

  lemma OneArrives(c: Input, scale: Scale)
    ensures ArrivesAs(Frame(c), Expected(c, scale), scale)
  {
    assert [c][1..] == [];
    assert Frames([c]) == [Frame(c)];
    FlattenOne(Frame(c));
    forall chunks | Flatten(chunks) == Frame(c)
      ensures Passes([], chunks).rest == [] && |Passes([], chunks).items| == 1
      ensures Interpret(Passes([], chunks).items[0], scale) == Expected(c, scale)
    {
      EndToEnd([c], chunks, [scale]);
    }
  }

  lemma WordInBytes(n: int)
    ensures Low(n / 0x100) == n % 65536 / 256 && Low(n) == n % 65536 % 256
  {
  }

  lemma ByteItself(b: byte)
    ensures Low(b) == b
  {
  }

  lemma WordItself(w: word)
    ensures Low(w / 0x100) == w / 256 && Low(w) == w % 256 && w % 0x1_0000 == w
  {
  }

  lemma CharFrame(u: word, up: int, scale: Scale)
    requires 0 <= up < 128
    ensures Frame(Char(u, up)) == [0, 85, 0, 7, up, u / 256, u % 256]
    ensures Expected(Char(u, up), scale) == UnicodePress(u, up)
  {
    hide Low, Wrapped;
    WordItself(u);
    WrappedInRange(up);
    ByteItself(up);
  }

  lemma WheelFrame(x: word, y: word, button: byte, delta: int, scale: Scale)
    requires -32768 <= delta <= 32767
    ensures var d: word := delta % 65536;
            Frame(Wheel(x, y, button, delta)) ==
            [0, 2, 0, 12, 0, button, x / 256, x % 256, y / 256, y % 256, d / 256, d % 256]
    ensures Expected(Wheel(x, y, button, delta), scale) == Pointer(x / scale, y / scale, button, delta)
  {
    hide Low, Wrapped;
    WordItself(x);
    WordItself(y);
    WordInBytes(delta);
    WrappedInRange(delta);
  }

  /** Every character, either way, arrives as that character and that way. */
  lemma CharacterArrives(u: word, up: int, scale: Scale)
    requires 0 <= up < 128
    ensures ArrivesAs([0, 85, 0, 7, up, u / 256, u % 256], UnicodePress(u, up), scale)
  {
    hide ArrivesAs;
    CharFrame(u, up, scale);
    OneArrives(Char(u, up), scale);
  }

  /** Every turn of the wheel, up or down, arrives with its sign and size. */
  lemma WheelArrives(x: word, y: word, button: byte, delta: int, scale: Scale)
    requires -32768 <= delta <= 32767
    ensures var d: word := delta % 65536;
            ArrivesAs([0, 2, 0, 12, 0, button, x / 256, x % 256, y / 256, y % 256, d / 256, d % 256],
                      Pointer(x / scale, y / scale, button, delta), scale)
  {
    hide ArrivesAs;
    WheelFrame(x, y, button, delta, scale);
    OneArrives(Wheel(x, y, button, delta), scale);
  }

  // ---- Short writes ------------------------------------------------------------------------------------

  /** What each call gets onto the wire; nobody looks at whether it was everything. */
  function Sent(calls: seq<Input>, scripts: seq<seq<Io>>): seq<seq<byte>>
    requires |scripts| == |calls|
  {
    if calls == [] then []
    else
      var f := Frame(calls[0]);
      [f[..Through(scripts[0], |f|, true)]] + Sent(calls[1..], scripts[1..])
  }

  /** No send stops partway. */
  ghost predicate AllSent(calls: seq<Input>, scripts: seq<seq<Io>>)
    requires |scripts| == |calls|
  {
    forall i :: 0 <= i < |calls| ==> Through(scripts[i], |Frame(calls[i])|, true) == |Frame(calls[i])|
  }

  lemma FlattenCons(f: seq<byte>, rest: seq<seq<byte>>)
    ensures Flatten([f] + rest) == f + Flatten(rest)
  {
    assert ([f] + rest)[1..] == rest;
  }

  lemma AllSentCons(calls: seq<Input>, scripts: seq<seq<Io>>)
    requires |scripts| == |calls| > 0
    ensures AllSent(calls, scripts) <==>
            Through(scripts[0], |Frame(calls[0])|, true) == |Frame(calls[0])| && AllSent(calls[1..], scripts[1..])
  {
    if AllSent(calls[1..], scripts[1..]) && Through(scripts[0], |Frame(calls[0])|, true) == |Frame(calls[0])| {
      forall i | 0 <= i < |calls| ensures Through(scripts[i], |Frame(calls[i])|, true) == |Frame(calls[i])| {
        assert i > 0 ==> scripts[i] == scripts[1..][i - 1] && calls[i] == calls[1..][i - 1];
      }
    }
    if AllSent(calls, scripts) {
      forall i | 0 <= i < |calls| - 1
        ensures Through(scripts[1..][i], |Frame(calls[1..][i])|, true) == |Frame(calls[1..][i])|
      {
        assert scripts[1..][i] == scripts[i + 1] && calls[1..][i] == calls[i + 1];
      }
    }
  }

  /** The bytes sent are never more than the frames', and as many only if they are the frames. */
  lemma {:induction false} SentLength(calls: seq<Input>, scripts: seq<seq<Io>>)
    requires |scripts| == |calls|
    ensures |Flatten(Sent(calls, scripts))| <= |Flatten(Frames(calls))|
    ensures |Flatten(Sent(calls, scripts))| == |Flatten(Frames(calls))| <==> AllSent(calls, scripts)
    ensures AllSent(calls, scripts) ==> Sent(calls, scripts) == Frames(calls)
    decreases |calls|
  {
    if calls != [] {
      var f := Frame(calls[0]);
      SentLength(calls[1..], scripts[1..]);
      AllSentCons(calls, scripts);
      var k := Through(scripts[0], |f|, true);
      assert Sent(calls, scripts) == [f[..k]] + Sent(calls[1..], scripts[1..]);
      assert Frames(calls) == [f] + Frames(calls[1..]);
      FlattenCons(f[..k], Sent(calls[1..], scripts[1..]));
      FlattenCons(f, Frames(calls[1..]));
      assert f[..|f|] == f;
    } else {
      assert AllSent(calls, scripts);
    }
  }

  function Sizes(items: seq<Call>): nat {
    if items == [] then 0 else items[0].size + Sizes(items[1..])
  }

  lemma {:induction false} SizesAppend(a: seq<Call>, b: seq<Call>)
    ensures Sizes(a + b) == Sizes(a) + Sizes(b)
  {
    if a == [] {
      assert a + b == b;
    } else {
      SizesAppend(a[1..], b);
      assert (a + b)[1..] == a[1..] + b && (a + b)[0] == a[0];
    }
  }

  lemma {:induction false} ParseSizes(s: seq<byte>)
    ensures Sizes(Parse(InputHead, s).items) <= |s|
    decreases |s|
  {
    match InputHead(s)
    case More =>
    case Item(n, call) =>
      ParseSizes(s[n..]);
      var items := Parse(InputHead, s[n..]).items;
      assert n == call.size && 0 < n <= |s|;
      assert Parse(InputHead, s).items == [call] + items;
      assert ([call] + items)[1..] == items;
  }

  lemma {:induction false} ProbeSizes(rest: seq<byte>, n: nat)
    ensures Sizes(Repeat(Probe(rest), n)) == 0
  {
    if n > 0 {
      ProbeSizes(rest, n - 1);
      SizesAppend(Probe(rest), Repeat(Probe(rest), n - 1));
    }
  }

  /** The calls of a stream declare no more bytes than it has. */
  lemma PassesSizes(chunks: seq<seq<byte>>)
    ensures Sizes(Passes([], chunks).items) <= |Flatten(chunks)|
  {
    assert [] + Flatten(chunks) == Flatten(chunks);
    PassesClosedForm([], chunks);
    var p := Parse(InputHead, Flatten(chunks));
    ParseSizes(Flatten(chunks));
    ProbeSizes(p.rest, Probes([], chunks));
    SizesAppend(p.items, Repeat(Probe(p.rest), Probes([], chunks)));
  }

  /** What a call injects says how long its frame is, but for the wheel: no turn is what a mouse frame says too. */
  lemma SizeOfAction(call: Call, c: Input, scale: Scale)
    requires Interpret(call, scale) == Expected(c, scale)
    ensures !c.Mouse? && !(c.Wheel? && Wrapped(c.delta, 0x1_0000) == 0) ==> call.size == |Frame(c)|
    ensures c.Mouse? || c.Wheel? ==> call.size == 10 || call.size == 12
  {
  }

  lemma {:induction false} ArrivedSizes(items: seq<Call>, calls: seq<Input>, scales: seq<Scale>)
    requires |scales| == |calls| && Arrived(items, calls, scales)
    ensures Sizes(items) == |Flatten(Frames(calls))|
    decreases |calls|
  {
    if calls != [] {
      assert items[0].size == |Frame(calls[0])|;
      ArrivedSizes(items[1..], calls[1..], scales[1..]);
      FlattenCons(Frame(calls[0]), Frames(calls[1..]));
    }
  }

  /**
   Whatever the writes and the reads: exactly the sequence of calls arrives if and only if no send stops partway.
   One that does leaves part of a frame in front of the next one, and what then arrives is never the sequence.
   */
  lemma EndToEndIff(calls: seq<Input>, scripts: seq<seq<Io>>, chunks: seq<seq<byte>>, scales: seq<Scale>)
    requires |scripts| == |scales| == |calls|
    requires Flatten(chunks) == Flatten(Sent(calls, scripts))
    ensures Arrived(Passes([], chunks).items, calls, scales) <==> AllSent(calls, scripts)
  {
    SentLength(calls, scripts);
    if AllSent(calls, scripts) {
      EndToEnd(calls, chunks, scales);
    } else if Arrived(Passes([], chunks).items, calls, scales) {
      PassesSizes(chunks);
      ArrivedSizes(Passes([], chunks).items, calls, scales);
    }
  }

  /** Such a stream never comes near the buffer's limit: fewer than 12 bytes are ever pending. */
  lemma {:induction false} FramesNeverFill(calls: seq<Input>, n: nat)
    requires n <= |Flatten(Frames(calls))|
    ensures |Parse(InputHead, Flatten(Frames(calls))[..n]).rest| < 12
    decreases |calls|
  {
    var s := Flatten(Frames(calls));
    if calls != [] {
      var f, tail := Frame(calls[0]), Flatten(Frames(calls[1..]));
      assert Frames(calls)[1..] == Frames(calls[1..]);
      assert s == f + tail;
      FrameDecodes(calls[0]);
      if n < |f| {
        assert s[..n] == f[..n];
        assert Parse(InputHead, f[..n]).rest == f[..n];
      } else {
        FramesNeverFill(calls[1..], n - |f|);
        InputHeadStable();
        assert s[..n] == f + tail[..n - |f|];
        assert StableAt(InputHead, f, tail[..n - |f|]);
        assert s[..n][|f|..] == tail[..n - |f|];
      }
    }
  }
}
