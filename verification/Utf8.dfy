/** UTF-8, as the pasteboard and the script engine convert it. */
module Utf8 {
  import opened Bytes
  import opened Wrappers

  predicate IsScalar(c: int) {
    0 <= c < 0xD800 || 0xE000 <= c < 0x11_0000
  }

  /** A Unicode character. */
  type Scalar = c: int | 0 <= c < 0xD800 || 0xE000 <= c < 0x11_0000

  datatype First = Bad | Good(n: nat, c: Scalar)

  function EncodeOne(c: Scalar): (s: seq<byte>)
    ensures 1 <= |s| <= 4
  {
    if c < 0x80 then [c]
    else if c < 0x800 then [0xC0 + c / 0x40, 0x80 + c % 0x40]
    else if c < 0x1_0000 then [0xE0 + c / 0x1000, 0x80 + c / 0x40 % 0x40, 0x80 + c % 0x40]
    else [0xF0 + c / 0x4_0000, 0x80 + c / 0x1000 % 0x40, 0x80 + c / 0x40 % 0x40, 0x80 + c % 0x40]
  }

  function Encode(text: seq<Scalar>): seq<byte> {
    if text == [] then [] else EncodeOne(text[0]) + Encode(text[1..])
  }

  predicate Continues(b: byte) {
    0x80 <= b < 0xC0
  }

  /** The character at the front, if the shortest form of one is there. */
  function DecodeOne(s: seq<byte>): First {
    if s == [] then Bad
    else if s[0] < 0x80 then Good(1, s[0])
    else if s[0] < 0xC0 then Bad
    else if s[0] < 0xE0 then
      if |s| < 2 || !Continues(s[1]) then Bad
      else
        var c := 0x40 * (s[0] as int - 0xC0) + (s[1] as int - 0x80);
        if c >= 0x80 then Good(2, c) else Bad
    else if s[0] < 0xF0 then
      if |s| < 3 || !Continues(s[1]) || !Continues(s[2]) then Bad
      else
        var c := 0x1000 * (s[0] as int - 0xE0) + 0x40 * (s[1] as int - 0x80) + (s[2] as int - 0x80);
        if c >= 0x800 && IsScalar(c) then Good(3, c) else Bad
    else if s[0] < 0xF8 then
      if |s| < 4 || !Continues(s[1]) || !Continues(s[2]) || !Continues(s[3]) then Bad
      else
        var c := 0x4_0000 * (s[0] as int - 0xF0) + 0x1000 * (s[1] as int - 0x80) + 0x40 * (s[2] as int - 0x80) +
                 (s[3] as int - 0x80);
        if c >= 0x1_0000 && IsScalar(c) then Good(4, c) else Bad
    else Bad
  }

  function Decode(s: seq<byte>): Option<seq<Scalar>>
    decreases |s|
  {
    if s == [] then Some([])
    else
      match DecodeOne(s)
      case Bad => None
      case Good(n, c) =>
        if n == 0 || n > |s| then None
        else
          match Decode(s[n..])
          case None => None
          case Some(rest) => Some([c] + rest)
  }

  lemma ThreeDigits(c: nat)
    ensures c == 0x1000 * (c / 0x1000) + 0x40 * (c / 0x40 % 0x40) + c % 0x40
  {
  }

  lemma FourDigits(c: nat)
    ensures c == 0x4_0000 * (c / 0x4_0000) + 0x1000 * (c / 0x1000 % 0x40) + 0x40 * (c / 0x40 % 0x40) + c % 0x40
  {
    ThreeDigits(c);
    ThreeDigits(c / 0x40);
  }

  lemma DecodeOneOfThree(c: Scalar, t: seq<byte>)
    requires 0x800 <= c < 0x1_0000
    ensures DecodeOne(EncodeOne(c) + t) == Good(3, c)
  {
    var e := EncodeOne(c);
    var s := e + t;
    assert s[0] == e[0] && s[1] == e[1] && s[2] == e[2];
    ThreeDigits(c);
  }

  lemma DecodeOneOfFour(c: Scalar, t: seq<byte>)
    requires 0x1_0000 <= c
    ensures DecodeOne(EncodeOne(c) + t) == Good(4, c)
  {
    var e := EncodeOne(c);
    var s := e + t;
    assert s[0] == e[0] && s[1] == e[1] && s[2] == e[2] && s[3] == e[3];
    FourDigits(c);
  }

  /** The six bits of a byte after the first. */
  function Six(b: byte): int {
    b - 0x80
  }

  /** The forms of section 3 of RFC 3629: seven bits, or five, four or three and then six for each byte more. */
  predicate Spells(s: seq<byte>, c: int) {
    && (forall i :: 1 <= i < |s| ==> 0x80 <= s[i] <= 0xBF)
    && match |s|
       case 1 => s[0] == c
       case 2 => 0xC0 <= s[0] <= 0xDF && c == 64 * (s[0] as int - 0xC0) + Six(s[1])
       case 3 => 0xE0 <= s[0] <= 0xEF && c == 4096 * (s[0] as int - 0xE0) + 64 * Six(s[1]) + Six(s[2])
       case 4 =>
         0xF0 <= s[0] <= 0xF7 &&
         c == 262144 * (s[0] as int - 0xF0) + 4096 * Six(s[1]) + 64 * Six(s[2]) + Six(s[3])
       case _ => false
  }

  /** Every character is written in its form, the shortest there is. */
  lemma FormOf(c: Scalar)
    ensures Spells(EncodeOne(c), c)
    ensures |EncodeOne(c)| == if c < 0x80 then 1 else if c < 0x800 then 2 else if c < 0x10000 then 3 else 4
  {
    ThreeDigits(c);
    FourDigits(c);
  }

  lemma DecodeOneOfEncodeOne(c: Scalar, t: seq<byte>)
    ensures DecodeOne(EncodeOne(c) + t) == Good(|EncodeOne(c)|, c)
  {
    var e := EncodeOne(c);
    if c >= 0x1_0000 {
      DecodeOneOfFour(c, t);
    } else if c >= 0x800 {
      DecodeOneOfThree(c, t);
    } else if c >= 0x80 {
      assert (e + t)[0] == e[0] && (e + t)[1] == e[1];
    } else {
      assert (e + t)[0] == e[0];
    }
  }

  /** What was encoded is valid, and decodes to what it was. */
  lemma {:induction false} DecodeOfEncode(text: seq<Scalar>)
    ensures Decode(Encode(text)) == Some(text)
    decreases |text|
  {
    if text != [] {
      var e, rest := EncodeOne(text[0]), Encode(text[1..]);
      DecodeOneOfEncodeOne(text[0], rest);
      assert (e + rest)[|e|..] == rest;
      DecodeOfEncode(text[1..]);
      assert [text[0]] + text[1..] == text;
    }
  }

  lemma Digits(hi: nat, lo: nat)
    requires lo < 0x40
    ensures (0x40 * hi + lo) / 0x40 == hi && (0x40 * hi + lo) % 0x40 == lo
  {
  }

  /** Dividing by 64 twice, or three times, reaches the higher digits. */
  lemma HigherDigits(c: nat)
    ensures c / 0x1000 == c / 0x40 / 0x40 && c / 0x4_0000 == c / 0x40 / 0x40 / 0x40
  {
  }

  lemma EncodeOneOfThree(s: seq<byte>)
    requires DecodeOne(s).Good? && DecodeOne(s).n == 3
    ensures |s| >= 3 && EncodeOne(DecodeOne(s).c) == s[..3]
  {
    var c := DecodeOne(s).c;
    var top := 0x40 * (s[0] as int - 0xE0) + (s[1] as int - 0x80);
    HigherDigits(c);
    assert c == 0x40 * top + (s[2] as int - 0x80);
    Digits(top, s[2] as int - 0x80);
    Digits(s[0] as int - 0xE0, s[1] as int - 0x80);
  }

  lemma EncodeOneOfFour(s: seq<byte>)
    requires DecodeOne(s).Good? && DecodeOne(s).n == 4
    ensures |s| >= 4 && EncodeOne(DecodeOne(s).c) == s[..4]
  {
    var c := DecodeOne(s).c;
    var top := 0x40 * (s[0] as int - 0xF0) + (s[1] as int - 0x80);
    var mid := 0x40 * top + (s[2] as int - 0x80);
    HigherDigits(c);
    assert c == 0x40 * mid + (s[3] as int - 0x80);
    Digits(mid, s[3] as int - 0x80);
    Digits(top, s[2] as int - 0x80);
    Digits(s[0] as int - 0xF0, s[1] as int - 0x80);
  }

  lemma EncodeOneOfDecodeOne(s: seq<byte>)
    requires DecodeOne(s).Good?
    ensures var f := DecodeOne(s); 0 < f.n <= |s| && EncodeOne(f.c) == s[..f.n]
  {
    var f := DecodeOne(s);
    if f.n == 2 {
      Digits(s[0] as int - 0xC0, s[1] as int - 0x80);
    } else if f.n == 3 {
      EncodeOneOfThree(s);
    } else if f.n == 4 {
      EncodeOneOfFour(s);
    }
  }

  lemma EncodeCons(c: Scalar, rest: seq<Scalar>)
    ensures Encode([c] + rest) == EncodeOne(c) + Encode(rest)
  {
    assert ([c] + rest)[1..] == rest;
  }

  /** And bytes that decode are the encoding of what they decode to: there is no second form. */
  lemma {:induction false} EncodeOfDecode(s: seq<byte>, text: seq<Scalar>)
    requires Decode(s) == Some(text)
    ensures Encode(text) == s
    decreases |s|
  {
    if s != [] {
      EncodeOneOfDecodeOne(s);
      var f := DecodeOne(s);
      var rest := Decode(s[f.n..]).value;
      EncodeOfDecode(s[f.n..], rest);
      EncodeCons(f.c, rest);
      assert s == s[..f.n] + s[f.n..];
    }
  }

  /** The bytes before the first NUL, as `strlen` counts them. */
  function CString(s: seq<byte>): seq<byte> {
    if s == [] || s[0] == 0 then [] else [s[0]] + CString(s[1..])
  }

  function UpToNul(text: seq<Scalar>): seq<Scalar> {
    if text == [] || text[0] == 0 then [] else [text[0]] + UpToNul(text[1..])
  }

  lemma {:induction false} CStringAppend(a: seq<byte>, b: seq<byte>)
    requires 0 !in a
    ensures CString(a + b) == a + CString(b)
  {
    if a == [] {
      assert a + b == b;
    } else {
      assert (a + b)[1..] == a[1..] + b;
      CStringAppend(a[1..], b);
    }
  }

  /** A NUL byte appears only where a NUL character was. */
  lemma {:induction false} CStringOfEncode(text: seq<Scalar>)
    ensures CString(Encode(text)) == Encode(UpToNul(text))
    decreases |text|
  {
    if text != [] {
      var e, rest := EncodeOne(text[0]), Encode(text[1..]);
      if text[0] == 0 {
        assert (e + rest)[0] == 0;
      } else {
        assert 0 !in e;
        CStringAppend(e, rest);
        CStringOfEncode(text[1..]);
        assert UpToNul(text)[1..] == UpToNul(text[1..]);
      }
    }
  }

  lemma {:induction false} UpToNulIsAll(text: seq<Scalar>)
    ensures UpToNul(text) == text <==> 0 !in text
    ensures |UpToNul(text)| <= |text|
  {
    if text != [] {
      UpToNulIsAll(text[1..]);
      assert text == [text[0]] + text[1..];
    }
  }

  lemma {:induction false} CStringNoLonger(s: seq<byte>)
    ensures |CString(s)| <= |s|
  {
    if s != [] {
      CStringNoLonger(s[1..]);
    }
  }
}
