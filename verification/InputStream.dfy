/**
 The viewer's input stream: how the agent cuts the bytes it reads into calls of
 its message handler, and what each call injects.
 */
module InputStream {
  import opened Bytes
  import opened Framing
  import opened Sequences

  const CAPACITY := 30000

  /** Pixels per point of what is captured. */
  type Scale = s: int | s >= 1 witness 1

  const KEY: word := 1
  const MOUSE: word := 2
  const KEY_UNICODE: word := 85

  /** One call of the handler that got past its length checks. */
  datatype Call = Call(kind: word, size: word, body: seq<byte>)

  /** What a call injects.  Messages that are not input go to the rest of the agent. */
  datatype Action =
    | KeyPress(vk: byte, up: int)
    | UnicodePress(unicode: word, up: int)
    | Pointer(x: int, y: int, button: byte, wheel: int)
    | Other(call: Call)
    | Ignored

  function InputHead(s: seq<byte>): Head<Call> {
    if |s| < 4 then More
    else
      var size := WordAt(s, 2);
      if size == 0 || size > |s| then More else Item(size, Call(WordAt(s, 0), size, s[..size]))
  }

  /** A header that declares size 0 reaches the handler's switch too, and consumes nothing. */
  predicate ZeroHead(s: seq<byte>) {
    |s| >= 4 && WordAt(s, 2) == 0
  }

  function Probe(s: seq<byte>): seq<Call> {
    if ZeroHead(s) then [Call(WordAt(s, 0), 0, [])] else []
  }

  /** One read: the complete messages, then the call that returns 0 and stops the loop. */
  ghost function Pass(pending: seq<byte>, chunk: seq<byte>): Parsed<Call> {
    var p := Parse(InputHead, pending + chunk);
    Parsed(p.items + Probe(p.rest), p.rest)
  }

  ghost function Passes(pending: seq<byte>, chunks: seq<seq<byte>>): Parsed<Call>
    decreases |chunks|
  {
    if chunks == [] then
      Parsed([], pending)
    else
      var now := Pass(pending, chunks[0]);
      var later := Passes(now.rest, chunks[1..]);
      Parsed(now.items + later.items, later.rest)
  }

  /** The reads the loop can make: each is given the room left in the buffer and returns at least a byte. */
  ghost predicate Fits(pending: seq<byte>, chunks: seq<seq<byte>>)
    decreases |chunks|
  {
    chunks != [] ==>
      && 0 < |chunks[0]| <= CAPACITY - |pending|
      && Fits(Pass(pending, chunks[0]).rest, chunks[1..])
  }

  ghost predicate Chunking(chunks: seq<seq<byte>>, s: seq<byte>) {
    Fits([], chunks) && Flatten(chunks) == s
  }

  /** A head that no amount of input can complete within the buffer. */
  predicate BadHead(s: seq<byte>) {
    |s| >= 4 && (WordAt(s, 2) == 0 || WordAt(s, 2) > CAPACITY)
  }

  function Repeat<T>(x: seq<T>, n: nat): seq<T> {
    if n == 0 then [] else x + Repeat(x, n - 1)
  }

  // ---- Chunk independence ----------------------------------------------------

  lemma InputHeadStable()
    ensures Stable(InputHead)
  {
    forall s, t ensures StableAt(InputHead, s, t) {
      if InputHead(s).Item? {
        assert (s + t)[..WordAt(s, 2)] == s[..WordAt(s, 2)];
      }
    }
  }

  lemma ZeroHeadStays(s: seq<byte>, t: seq<byte>)
    requires ZeroHead(s)
    ensures Parse(InputHead, s + t) == Parsed([], s + t)
    ensures Probe(s + t) == Probe(s)
  {
  }

  /** How many reads end on a header of size 0. */
  ghost function Probes(pending: seq<byte>, chunks: seq<seq<byte>>): nat
    decreases |chunks|
  {
    if chunks == [] then 0
    else
      var r := Pass(pending, chunks[0]).rest;
      (if ZeroHead(r) then 1 else 0) + Probes(r, chunks[1..])
  }

  lemma {:induction false} StuckPasses(pending: seq<byte>, chunks: seq<seq<byte>>)
    requires ZeroHead(pending)
    ensures Passes(pending, chunks) == Parsed(Repeat(Probe(pending), |chunks|), pending + Flatten(chunks))
    ensures Probes(pending, chunks) == |chunks|
    decreases |chunks|
  {
    if chunks == [] {
      assert pending + Flatten(chunks) == pending;
    } else {
      var next := pending + chunks[0];
      ZeroHeadStays(pending, chunks[0]);
      StuckPasses(next, chunks[1..]);
      assert next + Flatten(chunks[1..]) == pending + Flatten(chunks);
    }
  }

  lemma InputResumes(s: seq<byte>, t: seq<byte>)
    ensures var now := Parse(InputHead, s);
            var later := Parse(InputHead, now.rest + t);
            && InputHead(now.rest).More? && |now.rest| <= |s|
            && Parse(InputHead, s + t) == Parsed(now.items + later.items, later.rest)
  {
    InputHeadStable();
    ParseLeavesSuffix(InputHead, s);
    ParseAppend(InputHead, s, t);
  }

  lemma FirstChunk(pending: seq<byte>, chunks: seq<seq<byte>>)
    requires chunks != []
    ensures pending + Flatten(chunks) == pending + chunks[0] + Flatten(chunks[1..])
  {
    assert Flatten(chunks) == chunks[0] + Flatten(chunks[1..]);
  }

  /** Parsing resumes after a read exactly where the whole stream's parse would be. */
  lemma PassResumes(pending: seq<byte>, chunks: seq<seq<byte>>)
    requires chunks != []
    ensures var now := Parse(InputHead, pending + chunks[0]);
            var later := Parse(InputHead, now.rest + Flatten(chunks[1..]));
            && InputHead(now.rest).More?
            && Parse(InputHead, pending + Flatten(chunks)) == Parsed(now.items + later.items, later.rest)
  {
    FirstChunk(pending, chunks);
    InputResumes(pending + chunks[0], Flatten(chunks[1..]));
  }

  /** The loop's log in closed form: the stream's messages, then one repeated call per read that met size 0. */
  ghost predicate ClosedForm(pending: seq<byte>, chunks: seq<seq<byte>>, p: Parsed<Call>) {
    && Passes(pending, chunks) == Parsed(p.items + Repeat(Probe(p.rest), Probes(pending, chunks)), p.rest)
    && (!ZeroHead(p.rest) ==> Probes(pending, chunks) == 0)
  }

  lemma ClosedFormStep(pending: seq<byte>, chunks: seq<seq<byte>>, now: Parsed<Call>, later: Parsed<Call>)
    requires chunks != [] && now == Parse(InputHead, pending + chunks[0])
    requires !ZeroHead(now.rest) && ClosedForm(now.rest, chunks[1..], later)
    ensures ClosedForm(pending, chunks, Parsed(now.items + later.items, later.rest))
  {
    var n := Probes(now.rest, chunks[1..]);
    assert now.items + Probe(now.rest) == now.items;
    assert now.items + (later.items + Repeat(Probe(later.rest), n))
        == now.items + later.items + Repeat(Probe(later.rest), n);
  }

  lemma ClosedFormStuck(pending: seq<byte>, chunks: seq<seq<byte>>, now: Parsed<Call>)
    requires chunks != [] && now == Parse(InputHead, pending + chunks[0])
    requires ZeroHead(now.rest)
    ensures ClosedForm(pending, chunks, Parsed(now.items, now.rest + Flatten(chunks[1..])))
  {
    StuckPasses(now.rest, chunks[1..]);
    var n := |chunks[1..]|;
    assert now.items + Probe(now.rest) + Repeat(Probe(now.rest), n) == now.items + Repeat(Probe(now.rest), n + 1);
  }

  lemma {:induction false} PassesClosedForm(pending: seq<byte>, chunks: seq<seq<byte>>)
    requires InputHead(pending).More?
    requires !ZeroHead(pending)
    ensures ClosedForm(pending, chunks, Parse(InputHead, pending + Flatten(chunks)))
    decreases |chunks|
  {
    if chunks == [] {
      assert pending + Flatten(chunks) == pending;
    } else {
      var now := Parse(InputHead, pending + chunks[0]);
      PassResumes(pending, chunks);
      if ZeroHead(now.rest) {
        ClosedFormStuck(pending, chunks, now);
        ZeroHeadStays(now.rest, Flatten(chunks[1..]));
        assert now.items + [] == now.items;
      } else {
        PassesClosedForm(now.rest, chunks[1..]);
        ClosedFormStep(pending, chunks, now, Parse(InputHead, now.rest + Flatten(chunks[1..])));
      }
    }
  }

  /** Two ways of splitting a stream inject the same key, character and pointer actions. */
  lemma InjectionsChunkIndependent(a: seq<seq<byte>>, b: seq<seq<byte>>, scale: Scale)
    requires Flatten(a) == Flatten(b)
    ensures Injected(Passes([], a).items, scale) == Injected(Passes([], b).items, scale)
    ensures Passes([], a).rest == Passes([], b).rest
  {
    PassesClosedForm([], a);
    PassesClosedForm([], b);
    var p := Parse(InputHead, Flatten(a));
    assert [] + Flatten(a) == Flatten(a) && [] + Flatten(b) == Flatten(b);
    ProbesInjectNothing(p.items, p.rest, Probes([], a), scale);
    ProbesInjectNothing(p.items, p.rest, Probes([], b), scale);
  }

  lemma {:induction false} InjectedAppend(a: seq<Call>, b: seq<Call>, scale: Scale)
    ensures Injected(a + b, scale) == Injected(a, scale) + Injected(b, scale)
  {
    hide Interpret;
    if a == [] {
      assert a + b == b;
    } else {
      assert (a + b)[1..] == a[1..] + b;
      InjectedAppend(a[1..], b, scale);
    }
  }

  lemma {:induction false} ProbesInjectNothing(items: seq<Call>, rest: seq<byte>, n: nat, scale: Scale)
    ensures Injected(items + Repeat(Probe(rest), n), scale) == Injected(items, scale)
    decreases n
  {
    if n == 0 || !ZeroHead(rest) {
      RepeatNothing<Call>(n);
      assert items + Repeat(Probe(rest), n) == items;
    } else {
      ProbesInjectNothing(items + Probe(rest), rest, n - 1, scale);
      assert items + Probe(rest) + Repeat(Probe(rest), n - 1) == items + Repeat(Probe(rest), n);
      InjectedAppend(items, Probe(rest), scale);
      assert Injected(Probe(rest), scale) == [] by {
        assert Probe(rest)[1..] == [];
      }
    }
  }

  lemma {:induction false} RepeatNothing<T>(n: nat)
    ensures Repeat<T>([], n) == []
  {
    if n > 0 {
      RepeatNothing<T>(n - 1);
    }
  }

  // ---- Exactly when the calls themselves do not depend on the reads ---------------

  ghost predicate CallsIndependentOfReads(s: seq<byte>) {
    forall a, b :: Chunking(a, s) && Chunking(b, s) ==> Passes([], a) == Passes([], b)
  }

  /** The stream ends in a header of size 0 that was complete before the last byte came. */
  ghost predicate StuckEarly(s: seq<byte>) {
    var r := Parse(InputHead, s).rest;
    ZeroHead(r) && |r| > 4
  }

  lemma {:induction false} PassesAppend(pending: seq<byte>, a: seq<seq<byte>>, b: seq<seq<byte>>)
    ensures var m := Passes(pending, a).rest;
            && Passes(pending, a + b).rest == Passes(m, b).rest
            && Probes(pending, a + b) == Probes(pending, a) + Probes(m, b)
            && (Fits(pending, a + b) <==> Fits(pending, a) && Fits(m, b))
    decreases |a|
  {
    if a == [] {
      assert a + b == b;
    } else {
      assert (a + b)[1..] == a[1..] + b;
      PassesAppend(Pass(pending, a[0]).rest, a[1..], b);
    }
  }

  function Singles(s: seq<byte>): seq<seq<byte>> {
    if s == [] then [] else [s[..1]] + Singles(s[1..])
  }

  lemma {:induction false} SinglesFlatten(s: seq<byte>)
    ensures Flatten(Singles(s)) == s
  {
    if s != [] {
      SinglesFlatten(s[1..]);
      assert Singles(s)[1..] == Singles(s[1..]);
    }
  }

  lemma {:induction false} SinglesAppend(s: seq<byte>, t: seq<byte>)
    ensures Singles(s + t) == Singles(s) + Singles(t)
  {
    if s == [] {
      assert s + t == t;
    } else {
      assert (s + t)[..1] == s[..1] && (s + t)[1..] == s[1..] + t;
      SinglesAppend(s[1..], t);
    }
  }

  /** A piece of input that fits in one read also fits byte by byte. */
  lemma {:induction false} PieceFitsByByte(pending: seq<byte>, s: seq<byte>)
    requires |pending| + |s| <= CAPACITY
    ensures Fits(pending, Singles(s))
    decreases |s|
  {
    if s != [] {
      InputHeadStable();
      ParseLeavesSuffix(InputHead, pending + s[..1]);
      assert Singles(s)[1..] == Singles(s[1..]);
      PieceFitsByByte(Pass(pending, s[..1]).rest, s[1..]);
    }
  }

  lemma {:induction false} PassesRest(pending: seq<byte>, chunks: seq<seq<byte>>)
    requires InputHead(pending).More?
    ensures Passes(pending, chunks).rest == Parse(InputHead, pending + Flatten(chunks)).rest
    ensures InputHead(Passes(pending, chunks).rest).More?
  {
    InputHeadStable();
    ParseLeavesSuffix(InputHead, pending + Flatten(chunks));
    if ZeroHead(pending) {
      StuckPasses(pending, chunks);
    } else {
      PassesClosedForm(pending, chunks);
    }
  }

  lemma {:induction false} FitsByByte(pending: seq<byte>, chunks: seq<seq<byte>>)
    requires InputHead(pending).More? && Fits(pending, chunks)
    ensures Fits(pending, Singles(Flatten(chunks)))
    decreases |chunks|
  {
    if chunks != [] {
      var first, tail := chunks[0], Flatten(chunks[1..]);
      var now := Pass(pending, first).rest;
      PassResumes(pending, chunks);
      FitsByByte(now, chunks[1..]);
      PieceFitsByByte(pending, first);
      SinglesFlatten(first);
      PassesRest(pending, Singles(first));
      PassesAppend(pending, Singles(first), Singles(tail));
      SinglesAppend(first, tail);
    }
  }

  lemma PrefixOfHead(s: seq<byte>, n: nat)
    requires InputHead(s).Item? && n + 4 <= |s| && n + InputHead(s).len <= |s|
    ensures InputHead(s[..|s| - n]) == InputHead(s)
    ensures s[..|s| - n][InputHead(s).len..] == s[InputHead(s).len..][..|s| - InputHead(s).len - n]
  {
    assert s[..|s| - n][..InputHead(s).len] == s[..InputHead(s).len];
  }

  /** A read that ends inside the unconsumed tail leaves the corresponding part of that tail. */
  lemma {:induction false} RestOfPrefix(s: seq<byte>, r: seq<byte>, n: nat)
    requires r == Parse(InputHead, s).rest && n + 3 <= |r| && ZeroHead(r)
    ensures n <= |s| && Parse(InputHead, s[..|s| - n]).rest == r[..|r| - n]
    decreases |s|
  {
    if InputHead(s).More? {
      assert InputHead(s[..|s| - n]).More?;
    } else {
      var k := InputHead(s).len;
      var tail := s[k..];
      assert n + 3 <= |tail| by {
        InputHeadStable();
        ParseLeavesSuffix(InputHead, tail);
      }
      RestOfPrefix(tail, r, n);
      PrefixOfHead(s, n);
    }
  }

  /** The two ways of reading a stuck stream: byte by byte, and with the last two bytes together. */
  lemma StuckReadings(s: seq<byte>, chunks: seq<seq<byte>>, front: seq<seq<byte>>, x: seq<byte>, y: seq<byte>)
    requires Chunking(chunks, s) && s == Flatten(front) + x + y && |x| == 1 && |y| == 1
    requires front == Singles(Flatten(front))
    ensures Chunking(front + [x, y], s)
    ensures Flatten(front + [x + y]) == s
  {
    assert Singles(x + y) == [x] + Singles(y) by {
      assert (x + y)[..1] == x && (x + y)[1..] == y;
    }
    assert Singles(y) == [y] + Singles([]) by {
      assert y[..1] == y && y[1..] == [];
    }
    assert s == Flatten(front) + (x + y);
    SinglesAppend(Flatten(front), x + y);
    assert Singles(s) == front + [x, y];
    SinglesFlatten(s);
    FitsByByte([], chunks);
    FlattenAppend(front, [x + y]);
    FlattenOne(x + y);
  }

  lemma LastTwo(s: seq<byte>)
    requires |s| >= 2
    ensures var n := |s| - 2; s == s[..n] + s[n..n + 1] + s[n + 1..] && s[n..] == s[n..n + 1] + s[n + 1..]
  {
  }

  lemma SuffixSplit(t: seq<byte>, x: seq<byte>, y: seq<byte>, r: seq<byte>)
    requires |x| == 1 && |y| == 1 && |r| > 4 && |r| <= |t| + 2
    requires r == (t + x + y)[|t| + 2 - |r|..]
    ensures (t + x + y)[..|t|] == t
    ensures r[..|r| - 2] + x + y == r
    ensures ZeroHead(r) ==> ZeroHead(r[..|r| - 2] + x)
  {
  }

  /** What is pending before the last two bytes of a stuck stream. */
  lemma StuckTail(t: seq<byte>, x: seq<byte>, y: seq<byte>, r: seq<byte>)
    requires |x| == 1 && |y| == 1
    requires r == Parse(InputHead, t + x + y).rest && ZeroHead(r) && |r| > 4
    ensures var m := Parse(InputHead, t).rest;
            m + x + y == r && |m| >= 3 && ZeroHead(m + x)
  {
    var s := t + x + y;
    RestOfPrefix(s, r, 2);
    InputHeadStable();
    ParseLeavesSuffix(InputHead, s);
    SuffixSplit(t, x, y, r);
  }

  /** Reading the last two bytes of a stuck stream apart meets its header of size 0 once more. */
  lemma StuckProbes(front: seq<seq<byte>>, x: seq<byte>, y: seq<byte>, r: seq<byte>)
    requires |x| == 1 && |y| == 1
    requires r == Parse(InputHead, Flatten(front) + x + y).rest && ZeroHead(r) && 4 < |r| <= CAPACITY
    requires Fits([], front)
    ensures Probes([], front + [x, y]) == Probes([], front + [x + y]) + 1
    ensures Fits([], front + [x + y])
  {
    StuckTail(Flatten(front), x, y, r);
    assert [] + Flatten(front) == Flatten(front);
    PassesRest([], front);
    LastProbes(Passes([], front).rest, x, y);
    PassesAppend([], front, [x, y]);
    PassesAppend([], front, [x + y]);
  }

  lemma LogsDiffer(a: seq<seq<byte>>, b: seq<seq<byte>>, s: seq<byte>)
    requires Chunking(a, s) && Chunking(b, s) && ZeroHead(Parse(InputHead, s).rest)
    requires Probes([], a) != Probes([], b)
    ensures !CallsIndependentOfReads(s)
  {
    LogLength(a);
    LogLength(b);
    assert Passes([], a) != Passes([], b);
  }

  /** Once a header of size 0 is complete, a stream read with its last two bytes together gives one call less. */
  lemma StuckEarlyDepends(s: seq<byte>, chunks: seq<seq<byte>>)
    requires Chunking(chunks, s) && StuckEarly(s)
    ensures !CallsIndependentOfReads(s)
  {
    FullOnlyWithBadHead(chunks, s);
    var r := Parse(InputHead, s).rest;
    assert |s| >= 2 by {
      InputHeadStable();
      ParseLeavesSuffix(InputHead, s);
    }
    LastTwo(s);
    var n := |s| - 2;
    var front, x, y := Singles(s[..n]), s[n..n + 1], s[n + 1..];
    SinglesFlatten(s[..n]);
    StuckReadings(s, chunks, front, x, y);
    PassesAppend([], front, [x, y]);
    StuckProbes(front, x, y, r);
    LogsDiffer(front + [x, y], front + [x + y], s);
  }

  /** Nothing is taken off behind a size-0 header. */
  lemma StuckPass(m: seq<byte>, t: seq<byte>)
    requires ZeroHead(m + t)
    ensures Pass(m, t).rest == m + t
  {
    assert InputHead(m + t).More?;
  }

  lemma ProbesCons(m: seq<byte>, chunks: seq<seq<byte>>, r: seq<byte>)
    requires chunks != [] && r == Pass(m, chunks[0]).rest
    ensures Probes(m, chunks) == (if ZeroHead(r) then 1 else 0) + Probes(r, chunks[1..])
  {
  }

  lemma LastPass(m: seq<byte>, last: seq<byte>)
    ensures Passes(m, [last]) == Parsed(Pass(m, last).items, Pass(m, last).rest)
    ensures Probes(m, [last]) == if ZeroHead(Pass(m, last).rest) then 1 else 0
  {
    assert [last][1..] == [];
    assert Pass(m, last).items + [] == Pass(m, last).items;
    ProbesCons(m, [last], Pass(m, last).rest);
  }

  lemma StillZeroHead(s: seq<byte>, t: seq<byte>)
    requires ZeroHead(s)
    ensures ZeroHead(s + t)
  {
    assert WordAt(s + t, 2) == WordAt(s, 2);
  }

  /** Reading `x` and `y` apart meets a size-0 header once more than reading them together. */
  lemma LastProbes(m: seq<byte>, x: seq<byte>, y: seq<byte>)
    requires |x| == 1 && |y| == 1 && |m| + 2 <= CAPACITY
    requires |m| >= 3 && ZeroHead(m + x) && InputHead(m).More?
    ensures Probes(m, [x, y]) == 2 && Probes(m, [x + y]) == 1
    ensures Fits(m, [x + y])
  {
    hide *;
    PlusIsAssociative(m, x, y);
    StillZeroHead(m + x, y);
    StuckPass(m, x);
    StuckPass(m + x, y);
    StuckPass(m, x + y);
    LastPass(m + x, y);
    LastPass(m, x + y);
    ProbesCons(m, [x, y], m + x);
    assert [x, y][1..] == [y];
    OneFits(m, x + y);
  }

  lemma OneFits(m: seq<byte>, c: seq<byte>)
    requires 0 < |c| <= CAPACITY - |m|
    ensures Fits(m, [c])
  {
    assert [c][1..] == [];
  }

  lemma LogLength(chunks: seq<seq<byte>>)
    ensures var p := Parse(InputHead, Flatten(chunks));
            ZeroHead(p.rest) ==> |Passes([], chunks).items| == |p.items| + Probes([], chunks)
  {
    PassesClosedForm([], chunks);
    assert [] + Flatten(chunks) == Flatten(chunks);
    var p := Parse(InputHead, Flatten(chunks));
    if ZeroHead(p.rest) {
      RepeatLength(Probe(p.rest), Probes([], chunks));
    }
  }

  lemma {:induction false} RepeatLength<T>(x: seq<T>, n: nat)
    requires |x| == 1
    ensures |Repeat(x, n)| == n
  {
    if n > 0 {
      RepeatLength(x, n - 1);
    }
  }

  lemma FitsRest(pending: seq<byte>, chunks: seq<seq<byte>>)
    requires chunks != [] && Fits(pending, chunks)
    ensures 0 < |chunks[0]| <= CAPACITY - |pending| && Fits(Pass(pending, chunks[0]).rest, chunks[1..])
  {
  }

  lemma NothingRead()
    ensures Parse(InputHead, []) == Parsed([], []) && Probes([], []) == 0 && Flatten([]) == []
  {
  }

  /** Unless the stream is stuck early, every way of reading it meets size 0 equally often. */
  lemma ProbesFixed(chunks: seq<seq<byte>>, s: seq<byte>)
    requires Chunking(chunks, s) && !StuckEarly(s)
    ensures Probes([], chunks) == if ZeroHead(Parse(InputHead, s).rest) then 1 else 0
  {
    hide Passes, Pass, Parse, Probes;
    PassesClosedForm([], chunks);
    assert [] + s == s;
    if chunks == [] {
      NothingRead();
    } else {
      var n := |chunks| - 1;
      var front, last := chunks[..n], chunks[n];
      assert chunks == front + [last];
      PassesAppend([], front, [last]);
      PassesClosedForm([], front);
      PassesRest([], front);
      PassesRest([], chunks);
      var m := Passes([], front).rest;
      LastPass(m, last);
      FitsRest(m, [last]);
      if ZeroHead(m) {
        StillZeroHead(m, last);
        StuckPass(m, last);
      }
    }
  }

  /** For a stream the buffer can take: its calls are the same for every way of reading it iff it is not stuck early. */
  lemma CallsIndependentIff(s: seq<byte>, some: seq<seq<byte>>)
    requires Chunking(some, s)
    ensures CallsIndependentOfReads(s) <==> !StuckEarly(s)
  {
    if StuckEarly(s) {
      StuckEarlyDepends(s, some);
    } else {
      forall a, b | Chunking(a, s) && Chunking(b, s) ensures Passes([], a) == Passes([], b) {
        PassesClosedForm([], a);
        PassesClosedForm([], b);
        ProbesFixed(a, s);
        ProbesFixed(b, s);
      }
    }
  }

  /** Such a stream: a key header of size 0, and a byte. */
  lemma StuckExample()
    ensures var s: seq<byte> := [0, 1, 0, 0, 5];
            StuckEarly(s) && Chunking([s], s) && !CallsIndependentOfReads(s)
  {
    var s: seq<byte> := [0, 1, 0, 0, 5];
    assert InputHead(s).More?;
    assert Parse(InputHead, s) == Parsed([], s);
    FlattenOne(s);
    assert [s][1..] == [];
    StuckEarlyDepends(s, [s]);
  }

  // ---- The buffer limit ----------------------------------------------------------

  /** However a stream was read, the buffer fills up only behind a head it can never complete. */
  lemma FullOnlyWithBadHead(chunks: seq<seq<byte>>, s: seq<byte>)
    requires Chunking(chunks, s)
    ensures var r := Parse(InputHead, s).rest;
            && Passes([], chunks).rest == r
            && |r| <= 30000
            && (|r| == 30000 ==> WordAt(r, 2) == 0 || WordAt(r, 2) > 30000)
  {
    assert [] + s == s;
    PassesRest([], chunks);
    FitsBounds([], chunks);
  }

  lemma {:induction false} FitsBounds(pending: seq<byte>, chunks: seq<seq<byte>>)
    requires Fits(pending, chunks) && |pending| <= CAPACITY
    ensures |Passes(pending, chunks).rest| <= CAPACITY
    decreases |chunks|
  {
    if chunks != [] {
      InputHeadStable();
      ParseLeavesSuffix(InputHead, pending + chunks[0]);
      FitsBounds(Pass(pending, chunks[0]).rest, chunks[1..]);
    }
  }

  /** `Passes` one read at a time, with the pass given. */
  lemma PassesCons(pending: seq<byte>, chunks: seq<seq<byte>>, now: Parsed<Call>)
    requires chunks != [] && now == Pass(pending, chunks[0])
    ensures var later := Passes(now.rest, chunks[1..]);
            Passes(pending, chunks) == Parsed(now.items + later.items, later.rest)
  {
  }

  /** A read behind a bad head. */
  lemma PassBehindBadHead(pending: seq<byte>, chunk: seq<byte>)
    requires BadHead(pending) && InputHead(pending).More? && |chunk| <= CAPACITY - |pending|
    ensures Pass(pending, chunk) == Parsed(Probe(pending), pending + chunk)
    ensures BadHead(pending + chunk) && InputHead(pending + chunk).More? && Probe(pending + chunk) == Probe(pending)
  {
    var next := pending + chunk;
    assert WordAt(next, 0) == WordAt(pending, 0) && WordAt(next, 2) == WordAt(pending, 2);
    assert InputHead(next).More?;
    assert [] + Probe(next) == Probe(next);
  }

  /** Behind a bad head the loop makes no further call except the one for its own size 0, and the room runs out. */
  lemma {:induction false} BadHeadIsForever(pending: seq<byte>, chunks: seq<seq<byte>>)
    requires BadHead(pending) && InputHead(pending).More? && |pending| <= CAPACITY && Fits(pending, chunks)
    ensures Passes(pending, chunks) == Parsed(Repeat(Probe(pending), |chunks|), pending + Flatten(chunks))
    ensures |chunks| <= |Flatten(chunks)| <= CAPACITY - |pending|
    decreases |chunks|
  {
    if chunks == [] {
      assert pending + Flatten(chunks) == pending;
    } else {
      hide Pass, Parse, Passes, Fits;
      PassBehindBadHead(pending, chunks[0]);
      FirstChunk(pending, chunks);
      PassesCons(pending, chunks, Parsed(Probe(pending), pending + chunks[0]));
      FitsRest(pending, chunks);
      BadHeadIsForever(pending + chunks[0], chunks[1..]);
    }
  }

  // ---- What a call means -----------------------------------------------------

  function Interpret(c: Call, scale: Scale): Action
  {
    if c.kind == KEY_UNICODE then
      if c.size == 7 && |c.body| == 7 then UnicodePress(WordAt(c.body, 5), SignedByte(c.body[4])) else Ignored
    else if c.kind == KEY then
      if c.size == 6 && |c.body| == 6 then KeyPress(c.body[5], SignedByte(c.body[4])) else Ignored
    else if c.kind == MOUSE then
      if (c.size == 10 || c.size == 12) && |c.body| == c.size then
        Pointer(WordAt(c.body, 6) / scale, WordAt(c.body, 8) / scale, c.body[5],
                if c.size == 12 then SignedWord(WordAt(c.body, 10)) else 0)
      else Ignored
    else Other(c)
  }

  /** The key, character and pointer actions among a log of calls. */
  function Injected(calls: seq<Call>, scale: Scale): seq<Action>
  {
    if calls == [] then []
    else
      var a := Interpret(calls[0], scale);
      (if a.Other? || a.Ignored? then [] else [a]) + Injected(calls[1..], scale)
  }
}
