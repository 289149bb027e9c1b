/** The agent's input thread: a fixed buffer, one read at a time, the handler called until it returns 0. */
module InputLoop {
  import opened Bytes
  import opened Framing
  import opened InputStream
  import opened Sequences

  datatype ReadResult = Failed | Ended | Got(data: seq<byte>)

  class Loop {
    const buf: array<byte>
    var len: nat
    /** Everything the handler was called with. */
    var log: seq<Call>
    /** The thread asked the main loop for a new connection and ended. */
    var resetipc: bool

    ghost predicate Valid()
      reads this, buf
    {
      && buf.Length == CAPACITY
      && len <= CAPACITY
      && InputHead(buf[..len]).More?
    }

    ghost function Pending(): seq<byte>
      reads this, buf
      requires Valid()
    {
      buf[..len]
    }

    constructor ()
      ensures Valid() && fresh(buf) && buf.Length == 30000 && Pending() == [] && log == [] && !resetipc
    {
      buf := new byte[CAPACITY](_ => 0);
      len, log, resetipc := 0, [], false;
    }

    /** The handler on the block at `ptr` of what has arrived: the size it consumed, 0 to wait for more. */
    method InputData(ptr: nat, ghost all: seq<byte>) returns (n: nat)
      requires buf.Length == CAPACITY && ptr <= len <= CAPACITY && all == buf[..len]
      modifies this`log
      ensures n == Taken(all, ptr) && ptr + n <= len
      ensures log == old(log) + Handled(all[ptr..])
    {
      var blocklen := len - ptr;
      if blocklen < 4 {
        return 0;
      }
      ghost var block := all[ptr..];
      var kind: word := 0x100 * buf[ptr] as int + buf[ptr + 1] as int;
      var size: word := 0x100 * buf[ptr + 2] as int + buf[ptr + 3] as int;
      assert kind == WordAt(block, 0) && size == WordAt(block, 2);
      if size > blocklen {
        return 0;
      }
      var frame := buf[ptr..ptr + size];
      assert frame == block[..size] by {
        SliceOfPrefix(buf[..], len, ptr, ptr + size);
        SliceOfSuffix(all, ptr, size);
      }
      log := log + [Call(kind, size, frame)];
      n := size;
    }

    /** Calls the handler until it returns 0; the bytes before `ptr` are consumed. */
    method Drain() returns (ptr: nat)
      requires buf.Length == CAPACITY && len <= CAPACITY
      modifies this`log
      ensures ptr <= len
      ensures Drained(buf[..len], ptr)
      ensures log == old(log) + (Parse(InputHead, buf[..len]).items + Probe(buf[..len][ptr..]))
    {
      hide *;
      ghost var all, logged := buf[..len], log;
      ghost var done: seq<Call> := [];
      ptr := 0;
      FirstBlock(all);
      var n: nat := InputData(ptr, all);
      while n != 0
        invariant ptr + n <= len && Standing(all, ptr, n, done)
        invariant log == logged + (done + Handled(all[ptr..]))
        decreases len - ptr
      {
        StandingStep(all, ptr, n, done);
        done := done + Handled(all[ptr..]);
        ptr := ptr + n;
        n := InputData(ptr, all);
        PlusIsAssociative(logged, done, Handled(all[ptr..]));
      }
      StandingEnd(all, ptr, done);
    }

    /** Moves what was not consumed to the front of the buffer. */
    method Compact(ptr: nat)
      requires buf.Length == CAPACITY && ptr <= len <= CAPACITY
      modifies this`len, buf
      ensures len <= CAPACITY && buf[..len] == old(buf[ptr..len])
    {
      if ptr == len {
        len := 0;
      } else {
        forall i | 0 <= i < len - ptr {
          buf[i] := buf[ptr + i];
        }
        len := len - ptr;
      }
    }

    /** One turn of the thread once a read has returned. */
    method OnRead(r: ReadResult)
      requires Valid() && !resetipc
      requires r.Got? ==> 0 < |r.data| <= CAPACITY - len
      modifies this`len, this`log, this`resetipc, buf
      ensures Valid()
      ensures resetipc <==> !r.Got?
      ensures !r.Got? ==> log == old(log) && Pending() == old(Pending())
      ensures r.Got? ==>
                var p := Pass(old(Pending()), r.data);
                log == old(log) + p.items && Pending() == p.rest
    {
      if !r.Got? {
        resetipc := true;
        return;
      }
      forall i | 0 <= i < |r.data| {
        buf[len + i] := r.data[i];
      }
      len := len + |r.data|;
      assert buf[..len] == old(buf[..len]) + r.data;
      hide Parse, InputHead, Probe;
      var ptr := Drain();
      Compact(ptr);
    }

    /** The `i`-th read of a run that began with `start` pending and `logged` called, and has since called `done`. */
    method Turn(chunks: seq<seq<byte>>, i: nat, ghost start: seq<byte>, ghost logged: seq<Call>, ghost done: seq<Call>)
      returns (ghost items: seq<Call>)
      requires Valid() && !resetipc && i < |chunks|
      requires log == logged + done && Reading(start, chunks, i, done, Pending())
      modifies this`len, this`log, this`resetipc, buf
      ensures Valid() && !resetipc && items == done + Pass(old(Pending()), chunks[i]).items
      ensures log == logged + items && Reading(start, chunks, i + 1, items, Pending())
    {
      hide Reading, Pass, Parse, InputHead;
      ghost var pending := Pending();
      ReadingStep(start, chunks, i, done, pending);
      OnRead(Got(chunks[i]));
      items := done + Pass(pending, chunks[i]).items;
    }

    /** The whole thread: reads that return data, then one that does not. */
    method Run(chunks: seq<seq<byte>>)
      requires Valid() && !resetipc && Fits(Pending(), chunks)
      modifies this`len, this`log, this`resetipc, buf
      ensures Valid() && resetipc
      ensures var p := Passes(old(Pending()), chunks);
              log == old(log) + p.items && Pending() == p.rest
    {
      ghost var done: seq<Call> := [];
      ghost var start, logged := Pending(), log;
      ReadingStart(start, chunks);
      var i := 0;
      while i < |chunks|
        invariant 0 <= i <= |chunks| && Valid() && !resetipc
        invariant log == logged + done && Reading(start, chunks, i, done, Pending())
      {
        done := Turn(chunks, i, start, logged, done);
        i := i + 1;
      }
      ReadingEnd(start, chunks, done, Pending());
      OnRead(Ended);
    }
  }

  /** After `i` reads `done` has been called and `pending` is in the buffer; the rest of the reads fit. */
  ghost predicate Reading(start: seq<byte>, chunks: seq<seq<byte>>, i: nat, done: seq<Call>, pending: seq<byte>) {
    && i <= |chunks| && Fits(pending, chunks[i..])
    && Passes(start, chunks) == Consumed(done, Passes(pending, chunks[i..]))
  }

  lemma ReadingStart(start: seq<byte>, chunks: seq<seq<byte>>)
    requires Fits(start, chunks)
    ensures Reading(start, chunks, 0, [], start)
  {
    assert chunks[0..] == chunks;
  }

  lemma ReadingStep(start: seq<byte>, chunks: seq<seq<byte>>, i: nat, done: seq<Call>, pending: seq<byte>)
    requires i < |chunks| && Reading(start, chunks, i, done, pending)
    ensures 0 < |chunks[i]| <= CAPACITY - |pending|
    ensures var now := Pass(pending, chunks[i]); Reading(start, chunks, i + 1, done + now.items, now.rest)
  {
    var now := Pass(pending, chunks[i]);
    var later := Passes(now.rest, chunks[i + 1..]);
    assert chunks[i..][0] == chunks[i] && chunks[i..][1..] == chunks[i + 1..];
    assert done + (now.items + later.items) == done + now.items + later.items;
  }

  lemma ReadingEnd(start: seq<byte>, chunks: seq<seq<byte>>, done: seq<Call>, pending: seq<byte>)
    requires Reading(start, chunks, |chunks|, done, pending)
    ensures Passes(start, chunks) == Parsed(done, pending)
  {
  }

  /** The bytes from `ptr` on are what parsing all of them leaves. */
  ghost predicate Drained(all: seq<byte>, ptr: nat) {
    ptr <= |all| && Parse(InputHead, all).rest == all[ptr..] && InputHead(all[ptr..]).More?
  }

  /** What the handler says of the block at `ptr`. */
  ghost function Taken(all: seq<byte>, ptr: nat): nat
    requires ptr <= |all|
  {
    match InputHead(all[ptr..])
    case More => 0
    case Item(k, _) => k
  }

  /** `done` have been taken off before `ptr`, and the handler has just said `n` of the block there. */
  ghost predicate Standing(all: seq<byte>, ptr: nat, n: nat, done: seq<Call>) {
    && ptr <= |all| && n == Taken(all, ptr) && ptr + n <= |all|
    && Parse(InputHead, all) == Consumed(done, Parse(InputHead, all[ptr..]))
  }

  /** What the handler acts on at the head of a block: a complete frame, or a header of size 0. */
  ghost function Handled(block: seq<byte>): seq<Call> {
    match InputHead(block)
    case More => Probe(block)
    case Item(_, call) => [call]
  }

  ghost function Consumed(done: seq<Call>, p: Parsed<Call>): Parsed<Call> {
    Parsed(done + p.items, p.rest)
  }

  lemma ConsumeOne(done: seq<Call>, block: seq<byte>)
    requires InputHead(block).Item?
    ensures var h := InputHead(block);
            Consumed(done, Parse(InputHead, block)) == Consumed(done + [h.item], Parse(InputHead, block[h.len..]))
  {
  }

  lemma FirstBlock(all: seq<byte>)
    ensures all[0..] == all && Standing(all, 0, Taken(all, 0), [])
  {
    assert all[0..] == all;
  }

  lemma StandingStep(all: seq<byte>, ptr: nat, n: nat, done: seq<Call>)
    requires Standing(all, ptr, n, done) && n != 0
    ensures Standing(all, ptr + n, Taken(all, ptr + n), done + Handled(all[ptr..]))
  {
    ConsumeOne(done, all[ptr..]);
    assert all[ptr..][n..] == all[ptr + n..];
  }

  lemma StandingEnd(all: seq<byte>, ptr: nat, done: seq<Call>)
    requires Standing(all, ptr, 0, done)
    ensures Drained(all, ptr) && done + Handled(all[ptr..]) == Parse(InputHead, all).items + Probe(all[ptr..])
  {
  }
}
