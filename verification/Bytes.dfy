/** Bytes and the big-endian integers of the wire formats. */
module Bytes {

  type byte = b: int | 0 <= b < 0x100
  type word = w: int | 0 <= w < 0x1_0000
  type dword = d: int | 0 <= d < 0x1_0000_0000

  /** `ntohs` of the two bytes at `i`. */
  function WordAt(s: seq<byte>, i: nat): word
    requires i + 1 < |s|
  {
    0x100 * (s[i] as int) + s[i + 1] as int
  }

  /** `ntohl` of the four bytes at `i`. */
  function DwordAt(s: seq<byte>, i: nat): dword
    requires i + 3 < |s|
  {
    0x100_0000 * (s[i] as int) + 0x1_0000 * (s[i + 1] as int) + 0x100 * (s[i + 2] as int) + s[i + 3] as int
  }

  function WordBytes(w: word): (s: seq<byte>)
    ensures |s| == 2 && WordAt(s, 0) == w
  {
    [w / 0x100, w % 0x100]
  }

  function DwordBytes(d: dword): (s: seq<byte>)
    ensures |s| == 4 && DwordAt(s, 0) == d
  {
    var high, low := d / 0x1_0000, d % 0x1_0000;
    [high / 0x100, high % 0x100, low / 0x100, low % 0x100]
  }

  /** Network order: each byte counts 256 times as much as the next. */
  lemma NetworkOrder(a: byte, b: byte, c: byte, d: byte)
    ensures WordAt([a, b], 0) == a * 256 + b
    ensures DwordAt([a, b, c, d], 0) == ((a * 256 + b) * 256 + c) * 256 + d
  {
  }

  /** A `char` read back as an `int`: the platform's `char` is signed. */
  function SignedByte(b: byte): int {
    if b < 0x80 then b else b - 0x100
  }

  function SignedWord(w: word): int {
    if w < 0x8000 then w else w - 0x1_0000
  }

  /** The bytes of a list of chunks, in order. */
  function Flatten(chunks: seq<seq<byte>>): seq<byte> {
    if chunks == [] then [] else chunks[0] + Flatten(chunks[1..])
  }

  lemma {:induction false} FlattenAppend(a: seq<seq<byte>>, b: seq<seq<byte>>)
    ensures Flatten(a + b) == Flatten(a) + Flatten(b)
  {
    if a == [] {
      assert a + b == b;
    } else {
      assert (a + b)[1..] == a[1..] + b;
      FlattenAppend(a[1..], b);
    }
  }

  lemma FlattenOne(s: seq<byte>)
    ensures Flatten([s]) == s
  {
    assert [s][1..] == [];
    assert Flatten([s]) == s + Flatten([]);
  }
}
