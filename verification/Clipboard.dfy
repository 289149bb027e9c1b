/**
 The clipboard socket: one operation per connection, served by the in-session agent, and the
 two clients in the daemon's script.
 */
module Clipboard {
  import opened Bytes
  import opened IoLoops
  import opened Utf8
  import opened Wrappers

  const OP_READ: byte := 0x52
  const OP_COUNT: byte := 0x43
  const OP_WRITE: byte := 0x57
  const ACK: byte := 0x4B
  const LIMIT := 32 * 1024 * 1024

  type Text = seq<Scalar>

  /** The pasteboard: a string or none, and how often it changed. */
  datatype Pasteboard = Pasteboard(text: Option<Text>, changes: nat)

  /** What the server writes, up to three write loops, and the pasteboard afterwards. */
  datatype Reply = Reply(p1: seq<byte>, p2: seq<byte>, p3: seq<byte>, board: Pasteboard)

  /** The cast of a count to 32 bits. */
  function Low32(n: nat): dword {
    n % 0x1_0000_0000
  }

  lemma Low32Is(n: nat)
    requires n < 0x1_0000_0000
    ensures Low32(n) == n
  {
  }

  function CountBytes(board: Pasteboard): seq<byte> {
    DwordBytes(Low32(board.changes))
  }

  /** The pasteboard's string as the server hands it out: a C string. */
  function Contents(board: Pasteboard): seq<byte> {
    if board.text.Some? then CString(Encode(board.text.value)) else []
  }

  /** Storing bytes that are not valid UTF-8 leaves the pasteboard alone. */
  function Stored(board: Pasteboard, data: seq<byte>): Pasteboard {
    match Decode(data)
    case None => board
    case Some(text) => Pasteboard(Some(text), board.changes + 1)
  }

  /** One connection on which the client sends `inbound` and every byte of it is read. */
  function Serve(inbound: seq<byte>, board: Pasteboard): Reply {
    if inbound == [] then Reply([], [], [], board)
    else if inbound[0] == OP_COUNT then Reply(CountBytes(board), [], [], board)
    else if inbound[0] == OP_READ then
      var data := Contents(board);
      Reply(CountBytes(board), DwordBytes(Low32(|data|)), data, board)
    else if inbound[0] == OP_WRITE && |inbound| >= 5 then
      var len := DwordAt(inbound, 1);
      if len > LIMIT || |inbound| < 5 + len then Reply([], [], [], board)
      else Reply([ACK], [], [], Stored(board, inbound[5..5 + len as int]))
    else Reply([], [], [], board)
  }

  /** How the reads and writes of a connection go, one script per loop. */
  datatype Scripts = Scripts(op: seq<Io>, len: seq<Io>, data: seq<Io>, writes: Writes)

  datatype Writes = Writes(w1: seq<Io>, w2: seq<Io>, w3: seq<Io>)

  /** What of the client's bytes the server gets to see before a read fails. */
  function Effective(inbound: seq<byte>, s: Scripts): seq<byte> {
    if inbound == [] || Through(s.op, 1, false) < 1 then []
    else if inbound[0] != OP_WRITE || |inbound| < 5 || Through(s.len, 4, false) < 4 then inbound[..1]
    else if Through(s.data, DwordAt(inbound, 1), false) < DwordAt(inbound, 1) then inbound[..5]
    else inbound
  }

  function Cut(part: seq<byte>, script: seq<Io>): seq<byte> {
    part[..Through(script, |part|, false)]
  }

  /** What reaches the client: each part up to the first failure of its own write loop, which nobody checks. */
  function Delivered(r: Reply, w: Writes): seq<byte> {
    Cut(r.p1, w.w1) + Cut(r.p2, w.w2) + Cut(r.p3, w.w3)
  }

  class Server {
    var board: Pasteboard

    constructor (board: Pasteboard)
      ensures this.board == board
    {
      this.board := board;
    }

    method HandleConn(inbound: seq<byte>, s: Scripts) returns (out: seq<byte>)
      modifies this
      ensures var r := Serve(Effective(inbound, s), old(board));
              board == r.board && out == Delivered(r, s.writes)
    {
      out := [];
      var op := new byte[1](_ => 0);
      var ok := ReadAll(inbound, op, 1, s.op);
      if !ok {
        return;
      }
      assert op[0] == op[..1][0] == inbound[..1][0];
      if op[0] == OP_COUNT {
        ok, out := WriteAll(CountBytes(board), s.writes.w1);
      } else if op[0] == OP_READ {
        out := SendContents(s.writes);
      } else if op[0] == OP_WRITE {
        out := ReceiveText(inbound, s);
      }
    }

    method SendContents(writes: Writes) returns (out: seq<byte>)
      ensures out == Delivered(Serve([OP_READ], board), writes)
    {
      var data := Contents(board);
      var ok, count := WriteAll(CountBytes(board), writes.w1);
      var ok2, len := WriteAll(DwordBytes(Low32(|data|)), writes.w2);
      var body: seq<byte> := [];
      if |data| > 0 {
        var ok3;
        ok3, body := WriteAll(data, writes.w3);
      }
      out := count + len + body;
    }

    method ReceiveText(inbound: seq<byte>, s: Scripts) returns (out: seq<byte>)
      requires inbound != [] && inbound[0] == OP_WRITE && Through(s.op, 1, false) == 1
      modifies this
      ensures var r := Serve(Effective(inbound, s), old(board));
              board == r.board && out == Delivered(r, s.writes)
    {
      out := [];
      var head := new byte[4](_ => 0);
      var ok := ReadAll(inbound[1..], head, 4, s.len);
      if !ok {
        return;
      }
      assert head[..4] == inbound[1..][..4];
      var len: int := DwordAt(head[..4], 0);
      assert len == DwordAt(inbound, 1);
      if len > LIMIT {
        return;
      }
      var data := new byte[len](_ => 0);
      ok := ReadAll(inbound[5..], data, len, s.data);
      if !ok {
        return;
      }
      assert data[..len] == inbound[5..][..len] == inbound[5..5 + len];
      board := Stored(board, data[..len]);
      ok, out := WriteAll([ACK], s.writes.w1);
    }
  }

  // ---- What each operation does ---------------------------------------------------------------------------

  /** `C` is answered with the change count in network order, and changes nothing. */
  lemma CountIsServed(rest: seq<byte>, board: Pasteboard)
    ensures var r := Serve([0x43] + rest, board);
            r.board == board && |r.p1| == 4 && r.p2 == r.p3 == [] && DwordAt(r.p1, 0) == board.changes % 0x100000000
  {
  }

  /** A set the server has read whole: acknowledged whatever the bytes are, but stored only if they are text. */
  lemma WriteIsServed(data: seq<byte>, rest: seq<byte>, board: Pasteboard)
    requires |data| < 0x100000000
    ensures var r := Serve([0x57] + DwordBytes(|data|) + data + rest, board);
            && r.p2 == r.p3 == []
            && (|data| > 33554432 ==> r.p1 == [] && r.board == board)
            && (|data| <= 33554432 ==> r.p1 == [0x4B])
            && (|data| <= 33554432 && Decode(data).None? ==> r.board == board)
            && (|data| <= 33554432 && Decode(data).Some? ==> r.board == Pasteboard(Decode(data), board.changes + 1))
  {
    WriteParts(data, rest);
    StoredIs(board, data);
    hide Decode, DwordAt, DwordBytes, Stored, Serve;
    ServeWrite([0x57] + DwordBytes(|data|) + data + rest, data, board);
  }

  lemma ServeWrite(inbound: seq<byte>, data: seq<byte>, board: Pasteboard)
    requires |inbound| >= 5 + |data| && inbound[0] == 0x57 && |data| < 0x100000000
    requires DwordAt(inbound, 1) == |data| && inbound[5..5 + |data|] == data
    ensures Serve(inbound, board) ==
            if |data| > 33554432 then Reply([], [], [], board) else Reply([0x4B], [], [], Stored(board, data))
  {
    hide Decode, DwordAt, Stored;
  }

  lemma StoredIs(board: Pasteboard, data: seq<byte>)
    ensures Stored(board, data) ==
            if Decode(data).None? then board else Pasteboard(Decode(data), board.changes + 1)
  {
  }

  lemma WriteParts(data: seq<byte>, rest: seq<byte>)
    requires |data| < 0x100000000
    ensures var r := [0x57] + DwordBytes(|data|) + data + rest;
            |r| >= 5 + |data| && r[0] == 0x57 && DwordAt(r, 1) == |data| && r[5..5 + |data|] == data
  {
    var w, r := DwordBytes(|data|), [0x57] + DwordBytes(|data|) + data + rest;
    assert r[1] == w[0] && r[2] == w[1] && r[3] == w[2] && r[4] == w[3];
  }

  /** So whoever watches the count sees each text stored, and nothing else, as one more, round 32 bits. */
  lemma CountFollowsStores(data: seq<byte>, board: Pasteboard)
    requires |data| <= 33554432
    ensures var before, after := Serve([0x43], board), Serve([0x57] + DwordBytes(|data|) + data, board).board;
            var count, now := DwordAt(before.p1, 0) as int, DwordAt(Serve([0x43], after).p1, 0) as int;
            now == if Decode(data).None? then count else if count == 0xFFFFFFFF then 0 else count + 1
  {
    hide Decode, DwordAt, DwordBytes, Serve;
    WriteIsServed(data, [], board);
    assert [0x57] + DwordBytes(|data|) + data + [] == [0x57] + DwordBytes(|data|) + data;
    var after := Serve([0x57] + DwordBytes(|data|) + data, board).board;
    assert [0x43] + [] == [0x43];
    CountIsServed([], board);
    CountIsServed([], after);
    NextLow32(board.changes);
  }

  lemma NextLow32(n: nat)
    ensures (n + 1) % 0x100000000 == if n % 0x100000000 == 0xFFFFFFFF then 0 else n % 0x100000000 + 1
  {
  }

  /** Nothing at all, or any other operation, is answered with nothing and changes nothing. */
  lemma OthersAreIgnored(inbound: seq<byte>, board: Pasteboard)
    requires inbound == [] || inbound[0] !in {0x43, 0x52, 0x57}
    ensures Serve(inbound, board) == Reply([], [], [], board)
  {
  }

  // ---- The clients --------------------------------------------------------------------------------------

  /** What `setClipboard` sends. */
  function SetRequest(text: Text): seq<byte>
    requires |Encode(text)| < 0x1_0000_0000
  {
    [OP_WRITE] + DwordBytes(|Encode(text)|) + Encode(text)
  }

  /** The reply of `getClipboard`, once enough of it has arrived. */
  function Answer(buf: seq<byte>): Option<seq<byte>> {
    if |buf| < 8 || |buf| < 8 + DwordAt(buf, 4) then None else Some(buf[8..8 + DwordAt(buf, 4) as int])
  }

  /** The reading client: collects chunks, settles its promise once. */
  class Getter {
    var buf: seq<byte>
    var resolved: Option<seq<byte>>

    constructor ()
      ensures buf == [] && resolved == None
    {
      buf, resolved := [], None;
    }

    method OnData(chunk: seq<byte>)
      modifies this
      ensures buf == old(buf) + chunk
      ensures resolved == if old(resolved).Some? then old(resolved) else Answer(buf)
    {
      buf := buf + chunk;
      if |buf| < 8 {
        return;
      }
      var len: int := DwordAt(buf, 4);
      if |buf| < 8 + len {
        return;
      }
      if resolved.None? {
        resolved := Some(buf[8..8 + len]);
      }
    }

    /** All data events of a connection, whatever their sizes: the promise gets what the whole reply says. */
    method OnAll(chunks: seq<seq<byte>>)
      requires buf == [] && resolved == None
      modifies this
      ensures resolved == Answer(Flatten(chunks))
    {
      var i := 0;
      while i < |chunks|
        invariant 0 <= i <= |chunks|
        invariant buf == Flatten(chunks[..i])
        invariant resolved == Answer(buf)
      {
        assert chunks[..i + 1] == chunks[..i] + [chunks[i]];
        FlattenAppend(chunks[..i], [chunks[i]]);
        FlattenOne(chunks[i]);
        AnswerStays(buf, chunks[i]);
        OnData(chunks[i]);
        i := i + 1;
      }
      assert chunks[..i] == chunks;
    }
  }

  lemma AnswerStays(buf: seq<byte>, more: seq<byte>)
    ensures Answer(buf).Some? ==> Answer(buf + more) == Answer(buf)
  {
    if Answer(buf).Some? {
      var n: int := DwordAt(buf, 4);
      assert (buf + more)[8..8 + n] == buf[8..8 + n];
    }
  }

  // ---- Set, then get --------------------------------------------------------------------------------------

  /** The length field and the text of a request, as the server finds them. */
  lemma RequestParts(text: Text)
    requires |Encode(text)| < 0x1_0000_0000
    ensures var r, n := SetRequest(text), |Encode(text)|;
            |r| == 5 + n && r[0] == 0x57 && DwordAt(r, 1) == n && r[5..5 + n] == Encode(text)
  {
    var w, r := DwordBytes(|Encode(text)|), SetRequest(text);
    assert r[1] == w[0] && r[2] == w[1] && r[3] == w[2] && r[4] == w[3];
  }

  lemma SetIsServed(text: Text, board: Pasteboard)
    requires |Encode(text)| < 0x1_0000_0000
    ensures Serve(SetRequest(text), board) ==
            if |Encode(text)| <= LIMIT then Reply([ACK], [], [], Pasteboard(Some(text), board.changes + 1))
            else Reply([], [], [], board)
  {
    RequestParts(text);
    DecodeOfEncode(text);
  }

  /** Every byte of a request gets read, in however many short reads. */
  predicate AllRead(inbound: seq<byte>, s: Scripts) {
    && inbound != [] && Through(s.op, 1, false) == 1
    && (inbound[0] == OP_WRITE ==>
          && |inbound| >= 5 && Through(s.len, 4, false) == 4
          && Through(s.data, DwordAt(inbound, 1), false) == DwordAt(inbound, 1))
  }

  /**
   However the reads and writes of a set go: the text is stored exactly when all of it is read and it is not too
   long, and otherwise the pasteboard is as it was and nothing is acknowledged.
   */
  lemma AckMeansStored(text: Text, board: Pasteboard, s: Scripts)
    requires |Encode(text)| < 0x1_0000_0000
    ensures var r, stored := Serve(Effective(SetRequest(text), s), board), Pasteboard(Some(text), board.changes + 1);
            && (r.board == stored <==> AllRead(SetRequest(text), s) && |Encode(text)| <= 33554432)
            && (r.board != stored ==> r.board == board && Delivered(r, s.writes) == [])
            && (r.board == stored && Through(s.writes.w1, 1, false) == 1 ==> Delivered(r, s.writes) == [0x4B])
  {
    var request, n := SetRequest(text), |Encode(text)|;
    SetIsServed(text, board);
    RequestParts(text);
    if !AllRead(request, s) {
      CutShort(text, board, s);
    }
  }

  /** A request that is not read to its end is not served. */
  lemma CutShort(text: Text, board: Pasteboard, s: Scripts)
    requires |Encode(text)| < 0x1_0000_0000 && DwordAt(SetRequest(text), 1) == |Encode(text)|
    requires !AllRead(SetRequest(text), s)
    ensures Serve(Effective(SetRequest(text), s), board) == Reply([], [], [], board)
  {
    var request, seen := SetRequest(text), Effective(SetRequest(text), s);
    if |seen| == 5 {
      assert seen == request[..5];
      assert DwordAt(seen, 1) == DwordAt(request, 1);
    }
  }

  lemma AnswerOfReply(count: seq<byte>, data: seq<byte>)
    requires |count| == 4 && |data| < 0x1_0000_0000
    ensures Answer(count + DwordBytes(|data|) + data) == Some(data)
  {
    var len := DwordBytes(|data|);
    var out := count + len + data;
    assert out[4] == len[0] && out[5] == len[1] && out[6] == len[2] && out[7] == len[3];
    assert out[8..8 + |data|] == data;
  }

  /** Every write loop gets its part through, in however many short writes. */
  predicate AllThrough(r: Reply, w: Writes) {
    && Through(w.w1, |r.p1|, false) == |r.p1|
    && Through(w.w2, |r.p2|, false) == |r.p2|
    && Through(w.w3, |r.p3|, false) == |r.p3|
  }

  lemma GetIsServed(board: Pasteboard, w: Writes)
    requires |Contents(board)| < 0x1_0000_0000
    requires AllThrough(Serve([OP_READ], board), w)
    ensures Answer(Delivered(Serve([OP_READ], board), w)) == Some(Contents(board))
  {
    DeliveredWhole(Serve([OP_READ], board), w);
    ReadIsServed(board);
    AnswerOfReply(CountBytes(board), Contents(board));
  }

  lemma DeliveredWhole(r: Reply, w: Writes)
    requires AllThrough(r, w)
    ensures Delivered(r, w) == r.p1 + r.p2 + r.p3
  {
    assert Cut(r.p1, w.w1) == r.p1 && Cut(r.p2, w.w2) == r.p2 && Cut(r.p3, w.w3) == r.p3;
  }

  lemma ReadIsServed(board: Pasteboard)
    requires |Contents(board)| < 0x1_0000_0000
    ensures Serve([OP_READ], board) == Reply(CountBytes(board), DwordBytes(|Contents(board)|), Contents(board), board)
  {
    Low32Is(|Contents(board)|);
  }

  /** An empty pasteboard reads as the empty text. */
  lemma EmptyIsServed(board: Pasteboard, w: Writes)
    requires board.text.None? && AllThrough(Serve([0x52], board), w)
    ensures Answer(Delivered(Serve([0x52], board), w)) == Some([])
  {
    GetIsServed(board, w);
  }

  /**
   A text that was set is got back up to its first NUL, whatever was on the pasteboard, however both requests are
   read, the reply is written and its pieces arrive: so it is the text itself iff the text has no NUL.
   */
  lemma SetThenGet(text: Text, board: Pasteboard, put: Scripts, get: Scripts, chunks: seq<seq<byte>>)
    requires |Encode(text)| <= 33554432
    requires AllRead(SetRequest(text), put) && AllRead([0x52], get)
    requires var after := Serve(Effective([0x52], get), Serve(Effective(SetRequest(text), put), board).board);
             AllThrough(after, get.writes) && Flatten(chunks) == Delivered(after, get.writes)
    ensures var got := Answer(Flatten(chunks));
            && got.Some?
            && Decode(got.value) == Some(UpToNul(text))
            && (Decode(got.value) == Some(text) <==> 0 !in text)
  {
    AckMeansStored(text, board, put);
    assert Effective([OP_READ], get) == [OP_READ];
    CStringOfEncode(text);
    CStringNoLonger(Encode(text));
    DecodeOfEncode(UpToNul(text));
    UpToNulIsAll(text);
    GetIsServed(Serve(Effective(SetRequest(text), put), board).board, get.writes);
  }
}
