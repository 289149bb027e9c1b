/**
 The daemon's relay of what a KVM agent sends: normal frames with a 16-bit size and jumbo
 frames with a 32-bit one.  The type that marks a jumbo frame is a parameter.
 */
module Relay {
  import opened Bytes
  import opened Framing

  /** A 32-bit length read into an `int`. */
  function SignedDword(d: dword): int {
    if d < 0x8000_0000 then d else d - 0x1_0000_0000
  }

  /** What a read handler did with its buffer: what it consumed, and what it wrote to the viewer, if it wrote. */
  datatype Handled = Handled(consumed: nat, wrote: bool, data: seq<byte>)

  /**
   How long the handler takes the frame at the head of a buffer to be, if it takes it to be complete:
   -1 if not.  A negative jumbo length compares as an enormous unsigned one.
   */
  function FrameLength(jumbo: word, s: seq<byte>): (n: int)
    ensures -1 <= n <= |s|
  {
    if |s| <= 4 then -1
    else if WordAt(s, 0) == jumbo then
      if |s| <= 8 then -1
      else
        var n := 8 + SignedDword(DwordAt(s, 4));
        if 0 <= n <= |s| then n else -1
    else if WordAt(s, 2) <= |s| then WordAt(s, 2)
    else -1
  }

  function Handle(jumbo: word, s: seq<byte>): Handled {
    var n := FrameLength(jumbo, s);
    if n < 0 then Handled(0, false, []) else Handled(n, true, s[..n])
  }

  /** The handler of a child process's standard output. */
  method StdOutHandler(jumbo: word, buffer: seq<byte>) returns (h: Handled)
    ensures h == Handle(jumbo, buffer)
  {
    if |buffer| > 4 {
      if WordAt(buffer, 0) == jumbo {
        if |buffer| > 8 {
          var total := 8 + SignedDword(DwordAt(buffer, 4));
          if total >= 0 && |buffer| >= total {
            return Handled(total, true, buffer[..total]);
          }
        }
      } else {
        var size := WordAt(buffer, 2);
        if size <= |buffer| {
          return Handled(size, true, buffer[..size]);
        }
      }
    }
    h := Handled(0, false, []);
  }

  /** The handler of an agent's socket: with no one to write to it throws everything away, otherwise it agrees. */
  method SocketReadHandler(jumbo: word, buffer: seq<byte>, hasWriter: bool) returns (h: Handled)
    ensures h == if hasWriter then Handle(jumbo, buffer) else Handled(|buffer|, false, [])
  {
    if !hasWriter {
      return Handled(|buffer|, false, []);
    }
    if |buffer| > 4 {
      if WordAt(buffer, 0) == jumbo {
        if |buffer| > 8 {
          var total := 8 + SignedDword(DwordAt(buffer, 4));
          if total >= 0 && |buffer| >= total {
            return Handled(total, true, buffer[..total]);
          }
        }
      } else {
        var size := WordAt(buffer, 2);
        if size <= |buffer| {
          return Handled(size, true, buffer[..size]);
        }
      }
    }
    h := Handled(0, false, []);
  }

  /**
   A jumbo length that is negative as an `int`: the last eight make a total of 0 to 7 bytes, which are taken off the
   header and forwarded; any other is never complete, however much arrives.
   */
  lemma NegativeJumbo(jumbo: word, s: seq<byte>)
    requires |s| > 8 && WordAt(s, 0) == jumbo && DwordAt(s, 4) >= 0x80000000
    ensures var d: int := DwordAt(s, 4);
            Handle(jumbo, s) ==
            if d >= 0xFFFFFFF8 then Handled(d - 0xFFFFFFF8, true, s[..d - 0xFFFFFFF8]) else Handled(0, false, [])
  {
  }

  /**
   Any other header's size is taken as it is, 0 included: then nothing is written, and nothing consumed, as often as
   the handler is called.
   */
  lemma DeclaredIsTaken(jumbo: word, s: seq<byte>)
    requires |s| > 4 && WordAt(s, 0) != jumbo
    ensures var size := 256 * s[2] as int + s[3] as int;
            Handle(jumbo, s) == if size <= |s| then Handled(size, true, s[..size]) else Handled(0, false, [])
  {
  }

  // ---- Repeated calls ---------------------------------------------------------------------------------

  /** The pipe calls its handler again on what is left as long as something is consumed. */
  function Reader(jumbo: word): Decoder<seq<byte>> {
    (s: seq<byte>) =>
      var h := Handle(jumbo, s);
      if h.consumed > 0 then Item(h.consumed, h.data) else More
  }

  /** Later bytes do not change what is read of a header. */
  lemma HeaderStays(s: seq<byte>, t: seq<byte>, i: nat)
    requires i + 1 < |s|
    ensures WordAt(s + t, i) == WordAt(s, i)
    ensures i + 3 < |s| ==> DwordAt(s + t, i) == DwordAt(s, i)
  {
    assert forall k :: 0 <= k < |s| ==> (s + t)[k] == s[k];
  }

  lemma NormalStays(jumbo: word, s: seq<byte>, t: seq<byte>)
    requires FrameLength(jumbo, s) > 0 && WordAt(s, 0) != jumbo
    ensures FrameLength(jumbo, s + t) == FrameLength(jumbo, s)
  {
    HeaderStays(s, t, 0);
    HeaderStays(s, t, 2);
  }

  lemma JumboStays(jumbo: word, s: seq<byte>, t: seq<byte>)
    requires FrameLength(jumbo, s) > 0 && WordAt(s, 0) == jumbo
    ensures FrameLength(jumbo, s + t) == FrameLength(jumbo, s)
  {
    HeaderStays(s, t, 0);
    HeaderStays(s, t, 4);
  }

  lemma ReaderStableAt(jumbo: word, s: seq<byte>, t: seq<byte>)
    ensures StableAt(Reader(jumbo), s, t)
  {
    var n := FrameLength(jumbo, s);
    if n > 0 {
      if WordAt(s, 0) == jumbo {
        JumboStays(jumbo, s, t);
      } else {
        NormalStays(jumbo, s, t);
      }
      assert (s + t)[..n] == s[..n];
    }
  }

  lemma ReaderStable(jumbo: word)
    ensures Stable(Reader(jumbo))
  {
    forall s, t ensures StableAt(Reader(jumbo), s, t) {
      ReaderStableAt(jumbo, s, t);
    }
  }

  /** A frame as an agent sends it: its size field says how long it is. */
  predicate IsFrame(jumbo: word, f: seq<byte>) {
    if |f| >= 8 && WordAt(f, 0) == jumbo then |f| == 8 + DwordAt(f, 4) && DwordAt(f, 4) < 0x8000_0000 - 8
    else |f| >= 4 && WordAt(f, 0) != jumbo && |f| == WordAt(f, 2)
  }

  /** Long enough for the handler to see that it is complete when its last byte arrives. */
  predicate Prompt(jumbo: word, f: seq<byte>) {
    |f| >= 5 && (WordAt(f, 0) == jumbo ==> |f| >= 9)
  }

  /**
   A frame is forwarded whole on arrival of its last byte iff it is prompt; one that is not waits for the byte
   after it.
   */
  lemma ForwardedOnArrivalIff(jumbo: word, f: seq<byte>, next: byte)
    requires IsFrame(jumbo, f)
    ensures Handle(jumbo, f) == Handled(|f|, true, f) <==> Prompt(jumbo, f)
    ensures !Prompt(jumbo, f) ==> Handle(jumbo, f) == Handled(0, false, [])
    ensures Handle(jumbo, f + [next]) == Handled(|f|, true, f)
  {
    assert f[..|f|] == f;
    assert (f + [next])[..|f|] == f;
  }

  lemma IncompleteConsumesNothing(jumbo: word, f: seq<byte>, n: nat)
    requires IsFrame(jumbo, f) && n < |f|
    ensures Handle(jumbo, f[..n]) == Handled(0, false, [])
  {
  }

  lemma ReaderTakes(jumbo: word, f: seq<byte>)
    requires IsFrame(jumbo, f) && Prompt(jumbo, f)
    ensures Reader(jumbo)(f) == Item(|f|, f)
  {
    ForwardedOnArrivalIff(jumbo, f, 0);
  }

  lemma ReaderWaits(jumbo: word, f: seq<byte>, n: nat)
    requires n <= |f| && (n == 0 || (IsFrame(jumbo, f) && n < |f|))
    ensures Reader(jumbo)(f[..n]).More?
  {
    if n > 0 {
      IncompleteConsumesNothing(jumbo, f, n);
    }
  }

  /**
   Any stream of prompt frames, followed by part of another, cut into any pieces: exactly the frames have been
   forwarded, in order, and the part is still there untouched.
   */
  lemma RelayForwardsFrames(jumbo: word, frames: seq<seq<byte>>, next: seq<byte>, n: nat, chunks: seq<seq<byte>>)
    requires forall i :: 0 <= i < |frames| ==> IsFrame(jumbo, frames[i]) && Prompt(jumbo, frames[i])
    requires n == 0 || (IsFrame(jumbo, next) && n < |next|)
    requires n <= |next|
    requires Flatten(chunks) == Flatten(frames) + next[..n]
    ensures Feed(Reader(jumbo), [], chunks) == Parsed(frames, next[..n])
  {
    ReaderStable(jumbo);
    forall i | 0 <= i < |frames| ensures Reader(jumbo)(frames[i]) == Item(|frames[i]|, frames[i]) {
      ReaderTakes(jumbo, frames[i]);
    }
    ReaderWaits(jumbo, next, n);
    FeedWholeAndPart(Reader(jumbo), frames, frames, next[..n], chunks);
  }
}
