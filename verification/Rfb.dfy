/**
 The login-window client of the machine's own RFB server (RFC 6143): the state it keeps
 about Shift and the mouse buttons must be what the server has seen on this connection.
 */
module Rfb {
  import opened Bytes
  import opened Framing
  import opened IoLoops
  import opened Keysyms
  import opened MouseFlags

  const BACKOFF := 5

  datatype Buttons = Buttons(left: bool, right: bool)

  const NO_BUTTONS: Buttons := Buttons(false, false)

  /** The RFB button mask; wheel bits are only ever sent, never kept. */
  function Mask(b: Buttons): byte {
    (if b.left then 0x01 else 0) + (if b.right then 0x04 else 0)
  }

  /** `wire` is what the server has received on this connection since the handshake. */
  datatype Client = Client(open: bool, shift: bool, buttons: Buttons, lastAttempt: int, wire: seq<byte>)

  /** What can happen to the client; `Reset` is the modifier reset of an eviction. */
  datatype Op =
    | Reset
    | Key(adb: word, down: bool)
    | Unicode(u: word, down: bool)
    | Mouse(x: int, y: int, button: byte, wheel: int)

  /** The clock when the operation starts and when it connects, how connecting goes, and how each write goes. */
  datatype Env = Env(now: int, connectAt: int, handshake: bool, first: seq<Io>, second: seq<Io>)

  function Disconnected(c: Client): Client {
    c.(open := false, shift := false, buttons := NO_BUTTONS, wire := [])
  }

  predicate Attempts(c: Client, env: Env) {
    !c.open && env.now - c.lastAttempt >= BACKOFF
  }

  /** The start of every injection: connect if disconnected and the last attempt is old enough. */
  function Ready(c: Client, env: Env): Client {
    if Attempts(c, env) then Disconnected(c).(open := env.handshake, lastAttempt := env.connectAt) else c
  }

  /** A message goes out whole, or the connection is given up. */
  function Written(c: Client, msg: seq<byte>, script: seq<Io>): Client {
    if Through(script, |msg|, false) == |msg| then c.(wire := c.wire + msg) else Disconnected(c)
  }

  function KeyMessage(down: bool, sym: dword): seq<byte> {
    [4, if down then 1 else 0, 0, 0] + DwordBytes(sym)
  }

  function PointerMessage(mask: byte, x: word, y: word): seq<byte> {
    [5, mask] + WordBytes(x) + WordBytes(y)
  }

  /** The cast of a coordinate to 16 bits. */
  function Coordinate(x: int): word {
    if x < 0 then 0 else x % 0x1_0000
  }

  function Pressed(b: Buttons, button: byte): Buttons {
    if button == LEFTDOWN then b.(left := true)
    else if button == LEFTUP then b.(left := false)
    else if button == RIGHTDOWN then b.(right := true)
    else if button == RIGHTUP then b.(right := false)
    else b
  }

  /** A key whose symbol is `plain`, or `shifted` while Shift is held. */
  function InjectSymbol(c: Client, adb: word, plain: dword, shifted: dword, down: bool, env: Env): Client {
    var r := Ready(c, env);
    if !r.open then r
    else
      var t := if adb == SHIFT_L || adb == SHIFT_R then r.(shift := down) else r;
      var sym := if t.shift then shifted else plain;
      if sym == 0 then t else Written(t, KeyMessage(down, sym), env.first)
  }

  function InjectKey(c: Client, adb: word, down: bool, env: Env): Client {
    InjectSymbol(c, adb, Symbol(adb, false), Symbol(adb, true), down, env)
  }

  function InjectUnicode(c: Client, u: word, down: bool, env: Env): Client {
    var r := Ready(c, env);
    if !r.open then r else Written(r, KeyMessage(down, UnicodeSymbol(u)), env.first)
  }

  /** The messages of a pointer frame; a wheel step is a press and a release of its button. */
  function Pointed(c: Client, wheel: int, x: word, y: word, env: Env): Client {
    var m := Mask(c.buttons);
    if wheel != 0 then
      var pressed := Written(c, PointerMessage(WheelMask(m, wheel), x, y), env.first);
      if pressed.open then Written(pressed, PointerMessage(m, x, y), env.second) else pressed
    else Written(c, PointerMessage(m, x, y), env.first)
  }

  function WheelMask(m: byte, wheel: int): byte
    requires m < 0x08
  {
    if wheel > 0 then m + 0x08 else m + 0x10
  }

  function InjectMouse(c: Client, x: int, y: int, button: byte, wheel: int, env: Env): Client {
    var r := Ready(c, env);
    if !r.open then r
    else Pointed(r.(buttons := Pressed(r.buttons, button)), wheel, Coordinate(x), Coordinate(y), env)
  }

  function Step(c: Client, op: Op, env: Env): Client {
    match op
    case Reset => c
    case Key(adb, down) => InjectKey(c, adb, down, env)
    case Unicode(u, down) => InjectUnicode(c, u, down, env)
    case Mouse(x, y, button, wheel) => InjectMouse(c, x, y, button, wheel, env)
  }

  // ---- What the server has seen -------------------------------------------------------------------

  datatype Msg = KeyEvent(down: bool, sym: dword) | PointerEvent(mask: byte, x: word, y: word)

  /** How a server reads the messages of sections 7.5.4 and 7.5.5. */
  function ServerHead(s: seq<byte>): Head<Msg> {
    if |s| >= 8 && s[0] == 4 then Item(8, KeyEvent(s[1] != 0, DwordAt(s, 4)))
    else if |s| >= 6 && s[0] == 5 then Item(6, PointerEvent(s[1], WordAt(s, 2), WordAt(s, 4)))
    else More
  }

  /** The mask of the last PointerEvent, 0 if there was none. */
  function LastMask(seen: seq<Msg>): byte
    decreases |seen|
  {
    var n := |seen| - 1;
    if seen == [] then 0 else if seen[n].PointerEvent? then seen[n].mask else LastMask(seen[..n])
  }

  /** The direction of the last KeyEvent of a Shift key, up if there was none. */
  function LastShift(seen: seq<Msg>): bool
    decreases |seen|
  {
    var n := |seen| - 1;
    if seen == [] then false
    else if seen[n].KeyEvent? && IsShiftSymbol(seen[n].sym) then seen[n].down
    else LastShift(seen[..n])
  }

  /** The client's record is the server's: whole messages only, and nothing recorded while disconnected. */
  ghost predicate Mirror(c: Client) {
    if c.open then
      var p := Parse(ServerHead, c.wire);
      p.rest == [] && Mask(c.buttons) == LastMask(p.items) && c.shift == LastShift(p.items)
    else c == Disconnected(c)
  }

  lemma ServerHeadStable()
    ensures Stable(ServerHead)
  {
    forall s, t ensures StableAt(ServerHead, s, t) {
    }
  }

  /** One whole message more on the wire is one message more seen. */
  lemma SeenAppend(wire: seq<byte>, msg: seq<byte>, m: Msg)
    requires Parse(ServerHead, wire).rest == [] && ServerHead(msg) == Item(|msg|, m)
    ensures Parse(ServerHead, wire + msg) == Parsed(Parse(ServerHead, wire).items + [m], [])
  {
    ServerHeadStable();
    ParseAppend(ServerHead, wire, msg);
    assert [] + msg == msg;
    assert msg[|msg|..] == [];
    assert Parse(ServerHead, []) == Parsed([], []);
    assert [m] + [] == [m];
  }

  lemma KeyMessageReads(down: bool, sym: dword)
    ensures ServerHead(KeyMessage(down, sym)) == Item(8, KeyEvent(down, sym)) && |KeyMessage(down, sym)| == 8
  {
    var s, d := KeyMessage(down, sym), DwordBytes(sym);
    assert s[4] == d[0] && s[5] == d[1] && s[6] == d[2] && s[7] == d[3];
  }

  lemma PointerMessageReads(mask: byte, x: word, y: word)
    ensures ServerHead(PointerMessage(mask, x, y)) == Item(6, PointerEvent(mask, x, y))
    ensures |PointerMessage(mask, x, y)| == 6
  {
    var s, a, b := PointerMessage(mask, x, y), WordBytes(x), WordBytes(y);
    assert s[2] == a[0] && s[3] == a[1] && s[4] == b[0] && s[5] == b[1];
  }

  /** The server's view after one more message. */
  ghost predicate Sees(c: Client, mask: byte, shift: bool) {
    var p := Parse(ServerHead, c.wire);
    p.rest == [] && LastMask(p.items) == mask && LastShift(p.items) == shift
  }

  lemma SeesKey(c: Client, mask: byte, shift: bool, down: bool, sym: dword, script: seq<Io>)
    requires c.open && Sees(c, mask, shift)
    ensures var w := Written(c, KeyMessage(down, sym), script);
            w.open ==> Sees(w, mask, if IsShiftSymbol(sym) then down else shift)
  {
    var msg, m, seen := KeyMessage(down, sym), KeyEvent(down, sym), Parse(ServerHead, c.wire).items;
    KeyMessageReads(down, sym);
    SeenAppend(c.wire, msg, m);
    assert (seen + [m])[..|seen|] == seen;
  }

  lemma SeesPointer(c: Client, mask: byte, shift: bool, now: byte, x: word, y: word, script: seq<Io>)
    requires c.open && Sees(c, mask, shift)
    ensures var w := Written(c, PointerMessage(now, x, y), script);
            w.open ==> Sees(w, now, shift)
  {
    var msg, m, seen := PointerMessage(now, x, y), PointerEvent(now, x, y), Parse(ServerHead, c.wire).items;
    PointerMessageReads(now, x, y);
    SeenAppend(c.wire, msg, m);
    assert (seen + [m])[..|seen|] == seen;
  }

  /** The codes whose Shift symbol goes unrecorded: the table looks at the low byte, the record at all of it. */
  predicate HiddenShift(adb: word) {
    adb >= 0x100 && (adb % 0x100 == SHIFT_L || adb % 0x100 == SHIFT_R)
  }

  lemma SymbolKeepsMirror(c: Client, adb: word, plain: dword, shifted: dword, down: bool, env: Env)
    requires Mirror(c)
    requires IsShiftSymbol(plain) <==> adb == SHIFT_L || adb == SHIFT_R
    requires IsShiftSymbol(shifted) <==> adb == SHIFT_L || adb == SHIFT_R
    ensures Mirror(InjectSymbol(c, adb, plain, shifted, down, env))
  {
    var r := Ready(c, env);
    if r.open {
      assert Sees(r, Mask(r.buttons), r.shift);
      var t := if adb == SHIFT_L || adb == SHIFT_R then r.(shift := down) else r;
      assert Sees(t, Mask(t.buttons), r.shift);
      SeesKey(t, Mask(t.buttons), r.shift, down, if t.shift then shifted else plain, env.first);
    }
  }

  lemma KeyKeepsMirror(c: Client, adb: word, down: bool, env: Env)
    requires Mirror(c) && !HiddenShift(adb)
    ensures Mirror(InjectKey(c, adb, down, env))
  {
    OnlyShiftKeysShift(adb, false);
    OnlyShiftKeysShift(adb, true);
    SymbolKeepsMirror(c, adb, Symbol(adb, false), Symbol(adb, true), down, env);
  }

  lemma UnicodeKeepsMirror(c: Client, u: word, down: bool, env: Env)
    requires Mirror(c)
    ensures Mirror(InjectUnicode(c, u, down, env))
  {
    var r := Ready(c, env);
    if r.open {
      assert Sees(r, Mask(r.buttons), r.shift);
      CharactersAreNotShift(u);
      SeesKey(r, Mask(r.buttons), r.shift, down, UnicodeSymbol(u), env.first);
    }
  }

  /** After a pointer message with the client's own mask the records agree, whatever the server saw before. */
  lemma MirrorAfterPointer(t: Client, seen: byte, x: word, y: word, script: seq<Io>)
    requires t.open && Sees(t, seen, t.shift)
    ensures Mirror(Written(t, PointerMessage(Mask(t.buttons), x, y), script))
  {
    SeesPointer(t, seen, t.shift, Mask(t.buttons), x, y, script);
  }

  /** A wheel step is a press and a release: only after the release do the records agree again. */
  lemma MirrorAfterWheel(t: Client, seen: byte, wheel: byte, x: word, y: word, env: Env)
    requires t.open && Sees(t, seen, t.shift)
    ensures var pressed := Written(t, PointerMessage(wheel, x, y), env.first);
            Mirror(if pressed.open then Written(pressed, PointerMessage(Mask(t.buttons), x, y), env.second)
                   else pressed)
  {
    SeesPointer(t, seen, t.shift, wheel, x, y, env.first);
    var pressed := Written(t, PointerMessage(wheel, x, y), env.first);
    if pressed.open {
      MirrorAfterPointer(pressed, wheel, x, y, env.second);
    }
  }

  lemma MouseKeepsMirror(c: Client, x: int, y: int, button: byte, wheel: int, env: Env)
    requires Mirror(c)
    ensures Mirror(InjectMouse(c, x, y, button, wheel, env))
  {
    var r := Ready(c, env);
    if r.open {
      assert Sees(r, Mask(r.buttons), r.shift);
      var t := r.(buttons := Pressed(r.buttons, button));
      assert Sees(t, Mask(r.buttons), t.shift);
      if wheel != 0 {
        MirrorAfterWheel(t, Mask(r.buttons), WheelMask(Mask(t.buttons), wheel), Coordinate(x), Coordinate(y), env);
      } else {
        MirrorAfterPointer(t, Mask(r.buttons), Coordinate(x), Coordinate(y), env.first);
      }
    }
  }

  /** A code that hides a Shift key breaks the record on any open connection: the exception is exactly such codes. */
  lemma KeyKeepsMirrorIff(adb: word)
    ensures (forall c, down, env :: Mirror(c) ==> Mirror(InjectKey(c, adb, down, env))) <==> !HiddenShift(adb)
  {
    if HiddenShift(adb) {
      var c := Client(true, false, NO_BUTTONS, 0, []);
      var env := Env(0, 0, true, [Moved(8)], []);
      assert Mirror(c) by {
        assert Parse(ServerHead, []) == Parsed([], []);
      }
      OnlyShiftKeysShift(adb, false);
      SeesKey(c, 0, false, true, Symbol(adb, false), env.first);
      KeyMessageReads(true, Symbol(adb, false));
      assert Through([Moved(8)], 8, false) == 8;
      assert !Mirror(InjectKey(c, adb, true, env));
    } else {
      forall c, down, env | Mirror(c) ensures Mirror(InjectKey(c, adb, down, env)) {
        KeyKeepsMirror(c, adb, down, env);
      }
    }
  }

  // ---- What gets through ---------------------------------------------------------------------------------

  /** What the server has read on this connection. */
  ghost function Seen(c: Client): seq<Msg> {
    Parse(ServerHead, c.wire).items
  }

  /** The server has read whole messages only, and nothing while there is no connection. */
  ghost predicate Whole(c: Client) {
    Parse(ServerHead, c.wire).rest == [] && (!c.open ==> c.wire == [])
  }

  /** The injection finds a connection: an open one, or one it makes five seconds or more after the last attempt. */
  predicate Connects(c: Client, env: Env) {
    c.open || (env.now - c.lastAttempt >= 5 && env.handshake)
  }

  lemma ReadySees(c: Client, env: Env)
    requires Whole(c)
    ensures var r := Ready(c, env);
            && Whole(r) && Seen(r) == Seen(c) && (r.open <==> Connects(c, env))
            && (c.open ==> r == c)
            && (r.open && !c.open ==> r == Disconnected(c).(open := true, lastAttempt := env.connectAt))
  {
  }

  lemma WrittenIsSeen(c: Client, msg: seq<byte>, m: Msg, script: seq<Io>)
    requires c.open && Whole(c) && ServerHead(msg) == Item(|msg|, m)
    ensures var w := Written(c, msg, script);
            && Whole(w) && (w.open <==> Through(script, |msg|, false) == |msg|)
            && (w.open ==> Seen(w) == Seen(c) + [m] && w.buttons == c.buttons)
  {
    SeenAppend(c.wire, msg, m);
    assert Parse(ServerHead, []) == Parsed([], []);
  }

  lemma PointerWrittenIsSeen(c: Client, mask: byte, x: word, y: word, script: seq<Io>)
    requires c.open && Whole(c)
    ensures var w := Written(c, PointerMessage(mask, x, y), script);
            && Whole(w) && (w.open <==> Through(script, 6, false) == 6)
            && (w.open ==> Seen(w) == Seen(c) + [PointerEvent(mask, x, y)] && w.buttons == c.buttons)
  {
    PointerMessageReads(mask, x, y);
    WrittenIsSeen(c, PointerMessage(mask, x, y), PointerEvent(mask, x, y), script);
  }

  /** What a server should read of a pointer frame that leaves these buttons held. */
  function PointerEvents(held: byte, wheel: int, x: word, y: word): seq<Msg>
    requires held <= 5
  {
    if wheel == 0 then [PointerEvent(held, x, y)]
    else [PointerEvent(held + (if wheel > 0 then 8 else 16), x, y), PointerEvent(held, x, y)]
  }

  lemma PointedIsSeen(c: Client, wheel: int, x: word, y: word, env: Env)
    requires c.open && Whole(c)
    ensures var w := Pointed(c, wheel, x, y, env);
            && Whole(w)
            && (w.open <==> Through(env.first, 6, false) == 6 && (wheel != 0 ==> Through(env.second, 6, false) == 6))
            && (w.open ==> w.buttons == c.buttons && Seen(w) == Seen(c) + PointerEvents(Mask(c.buttons), wheel, x, y))
  {
    var m := Mask(c.buttons);
    hide Written, Seen, Whole, PointerMessage;
    if wheel == 0 {
      PointerWrittenIsSeen(c, m, x, y, env.first);
    } else {
      var b := if wheel > 0 then m + 8 else m + 16;
      PointerWrittenIsSeen(c, b, x, y, env.first);
      var w := Written(c, PointerMessage(b, x, y), env.first);
      if w.open {
        PointerWrittenIsSeen(w, m, x, y, env.second);
        assert Seen(c) + [PointerEvent(b, x, y)] + [PointerEvent(m, x, y)] ==
               Seen(c) + [PointerEvent(b, x, y), PointerEvent(m, x, y)];
      }
    }
  }

  lemma MouseSent(c: Client, x: int, y: int, button: byte, wheel: int, env: Env)
    requires Whole(c)
    ensures var r, w := Ready(c, env), InjectMouse(c, x, y, button, wheel, env);
            && Whole(w)
            && (w.open <==> Connects(c, env) && Through(env.first, 6, false) == 6
                            && (wheel != 0 ==> Through(env.second, 6, false) == 6))
            && (w.open ==> w.buttons == Pressed(r.buttons, button)
                           && Seen(w) == Seen(c) + PointerEvents(Mask(w.buttons), wheel, Coordinate(x), Coordinate(y)))
  {
    ReadySees(c, env);
    var r := Ready(c, env);
    if r.open {
      var t := r.(buttons := Pressed(r.buttons, button));
      assert Whole(t) && Seen(t) == Seen(r);
      hide Ready, Whole, Seen, Pointed, Pressed;
      PointedIsSeen(t, wheel, Coordinate(x), Coordinate(y), env);
    }
  }

  /** A key that gets through is seen with the symbol it has while the Shift keys the server saw are held. */
  lemma KeyIsSeen(c: Client, adb: word, down: bool, env: Env)
    requires Mirror(c)
    ensures var sym, w := Symbol(adb, LastShift(Seen(c))), InjectKey(c, adb, down, env);
            && Whole(c) && Whole(w)
            && (w.open <==> Connects(c, env) && (sym == 0 || Through(env.first, 8, false) == 8))
            && (w.open ==> Seen(w) == Seen(c) + if sym == 0 then [] else [KeyEvent(down, sym)])
  {
    MirrorIsWhole(c);
    ReadySees(c, env);
    var r := Ready(c, env);
    if r.open {
      var sym := Symbol(adb, r.shift);
      var t := if adb == SHIFT_L || adb == SHIFT_R then r.(shift := down) else r;
      assert Whole(t) && Seen(t) == Seen(r) && sym == Symbol(adb, t.shift);
      KeyMessageReads(down, sym);
      hide Whole, Seen, Symbol, Ready;
      if sym != 0 {
        WrittenIsSeen(t, KeyMessage(down, sym), KeyEvent(down, sym), env.first);
      } else {
        assert Seen(c) + [] == Seen(c);
      }
    }
  }

  lemma MirrorIsWhole(c: Client)
    requires Mirror(c)
    ensures Whole(c) && c.shift == LastShift(Seen(c))
  {
    assert Parse(ServerHead, []) == Parsed([], []);
  }

  /** So is a character, as itself in Latin-1 and otherwise 0x01000000 above. */
  lemma CharacterIsSeen(c: Client, u: word, down: bool, env: Env)
    requires Whole(c)
    ensures var w := InjectUnicode(c, u, down, env);
            var sym := if 0x20 <= u <= 0x7E || 0xA0 <= u <= 0xFF then u else 0x01000000 + u;
            && Whole(w) && (w.open <==> Connects(c, env) && Through(env.first, 8, false) == 8)
            && (w.open ==> Seen(w) == Seen(c) + [KeyEvent(down, sym)] && w.buttons == Ready(c, env).buttons)
  {
    ReadySees(c, env);
    var r := Ready(c, env);
    if r.open {
      KeyMessageReads(down, UnicodeSymbol(u));
      WrittenIsSeen(r, KeyMessage(down, UnicodeSymbol(u)), KeyEvent(down, UnicodeSymbol(u)), env.first);
    }
  }

  /** A key leaves the buttons, whatever is recorded of Shift. */
  lemma KeySent(c: Client, adb: word, down: bool, env: Env)
    requires Whole(c)
    ensures var w := InjectKey(c, adb, down, env);
            Whole(w) && (w.open ==> w.buttons == Ready(c, env).buttons)
  {
    ReadySees(c, env);
    var r := Ready(c, env);
    if r.open {
      var t := if adb == SHIFT_L || adb == SHIFT_R then r.(shift := down) else r;
      var sym := Symbol(adb, t.shift);
      assert Whole(t);
      KeyMessageReads(down, sym);
      hide Whole, Symbol, Ready;
      if sym != 0 {
        WrittenIsSeen(t, KeyMessage(down, sym), KeyEvent(down, sym), env.first);
      }
    }
  }

  /** What the server sees of a key the next viewer presses after the reset of an eviction. */
  ghost function SeenAfterReset(c: Client, adb: byte, reset: Env, env: Env): seq<Msg> {
    Seen(Step(Step(c, Reset, reset), Key(adb, true), env))
  }

  /** The key is seen as it is without Shift. */
  ghost predicate SeenPlain(c: Client, adb: byte, reset: Env, env: Env) {
    SeenAfterReset(c, adb, reset, env) == Seen(c) + [KeyEvent(true, Symbol(adb, false))]
  }

  /**
   After the reset of an eviction the next viewer's key is seen as it is without Shift if and only if the server last
   saw Shift released, or the key is the same with it.
   */
  lemma ResetLeavesPlainIff(c: Client, adb: byte, reset: Env, env: Env)
    requires c.open && Mirror(c) && Through(env.first, 8, false) == 8 && Symbol(adb, false) != 0
    ensures SeenPlain(c, adb, reset, env) <==> !LastShift(Seen(c)) || Symbol(adb, true) == Symbol(adb, false)
  {
    KeyIsSeen(c, adb, true, env);
    var sym := Symbol(adb, LastShift(Seen(c)));
    SameTail(Seen(c), KeyEvent(true, sym), KeyEvent(true, Symbol(adb, false)));
  }

  lemma SameTail<T>(s: seq<T>, a: T, b: T)
    ensures s + [a] == s + [b] <==> a == b
  {
    assert (s + [a])[|s|] == a && (s + [b])[|s|] == b;
  }

  /**
   So all of the next viewer's keys are plain if and only if the server last saw Shift released: a reset changes
   nothing.
   */
  lemma ResetClearsShiftIff(c: Client, reset: Env, env: Env)
    requires c.open && Mirror(c) && Through(env.first, 8, false) == 8
    ensures (forall adb: byte :: Symbol(adb, false) != 0 ==> SeenPlain(c, adb, reset, env)) <==> !LastShift(Seen(c))
  {
    forall adb: byte | Symbol(adb, false) != 0
      ensures SeenPlain(c, adb, reset, env) <==> !LastShift(Seen(c)) || Symbol(adb, true) == Symbol(adb, false)
    {
      ResetLeavesPlainIff(c, adb, reset, env);
    }
    LetterA();
  }

  lemma LetterA()
    ensures Symbol(0, false) == 0x61 && Symbol(0, true) == 0x41
  {
  }

  // ---- Over whole runs ---------------------------------------------------------------------------------

  const START: Client := Client(false, false, NO_BUTTONS, 0, [])

  /** The clock never runs backwards, within an operation or between operations. */
  ghost predicate Monotone(envs: seq<Env>) {
    && (forall i :: 0 <= i < |envs| ==> 0 <= envs[i].now <= envs[i].connectAt)
    && (forall i, j :: 0 <= i < j < |envs| ==> envs[i].connectAt <= envs[j].now)
  }

  function After(ops: seq<Op>, envs: seq<Env>): Client
    requires |ops| == |envs|
    decreases |ops|
  {
    var n := |ops| - 1;
    if ops == [] then START else Step(After(ops[..n], envs[..n]), ops[n], envs[n])
  }

  /** In every reachable state the client's record of Shift and buttons is what the server saw on this connection. */
  lemma {:induction false} MirrorAlways(ops: seq<Op>, envs: seq<Env>)
    requires |ops| == |envs|
    requires forall i :: 0 <= i < |ops| && ops[i].Key? ==> !HiddenShift(ops[i].adb)
    ensures Mirror(After(ops, envs))
    decreases |ops|
  {
    if ops != [] {
      var n := |ops| - 1;
      MirrorAlways(ops[..n], envs[..n]);
      var c := After(ops[..n], envs[..n]);
      match ops[n]
      case Reset =>
      case Key(adb, down) => KeyKeepsMirror(c, adb, down, envs[n]);
      case Unicode(u, down) => UnicodeKeepsMirror(c, u, down, envs[n]);
      case Mouse(x, y, button, wheel) => MouseKeepsMirror(c, x, y, button, wheel, envs[n]);
    }
  }

  /**
   The state it fails in is reachable: a viewer presses Shift at the login window and is evicted, the next one
   types a letter.
   */
  lemma ShiftOutlivesReset(reset: Env)
    ensures var env := Env(5, 5, true, [Moved(8)], []);
            var c := After([Key(SHIFT_L, true)], [env]);
            && c.open && Mirror(c) && LastShift(Seen(c))
            && SeenAfterReset(c, 0, reset, env) == Seen(c) + [KeyEvent(true, 0x41)]
  {
    var env := Env(5, 5, true, [Moved(8)], []);
    var ops, envs := [Key(SHIFT_L, true)], [env];
    MirrorAlways(ops, envs);
    var c := After(ops, envs);
    assert c == InjectKey(START, SHIFT_L, true, env) by {
      assert ops[..0] == [] && envs[..0] == [];
      assert After(ops[..0], envs[..0]) == START;
    }
    assert Through(env.first, 8, false) == 8 by {
      assert env.first[1..] == [];
    }
    ShiftConnects(env);
    LetterA();
    KeyIsSeen(c, 0, true, env);
  }

  lemma ShiftConnects(env: Env)
    requires env.now >= BACKOFF && env.handshake && Through(env.first, 8, false) == 8
    ensures var c := InjectKey(START, SHIFT_L, true, env); c.open && c.shift
  {
    KeyMessageReads(true, Symbol(SHIFT_L, true));
  }

  /** Does the `i`-th operation try to connect? */
  predicate Tries(ops: seq<Op>, envs: seq<Env>, i: nat)
    requires |ops| == |envs| && i < |ops|
  {
    !ops[i].Reset? && Attempts(After(ops[..i], envs[..i]), envs[i])
  }

  lemma WritingIsNoAttempt(c: Client, msg: seq<byte>, script: seq<Io>)
    ensures Written(c, msg, script).lastAttempt == c.lastAttempt
  {
  }

  lemma LastAttemptAfter(c: Client, op: Op, env: Env)
    ensures Step(c, op, env).lastAttempt == if !op.Reset? && Attempts(c, env) then env.connectAt else c.lastAttempt
  {
    var r := Ready(c, env);
    match op
    case Reset =>
    case Key(adb, down) =>
      var t := if adb == SHIFT_L || adb == SHIFT_R then r.(shift := down) else r;
      WritingIsNoAttempt(t, KeyMessage(down, Symbol(adb, t.shift)), env.first);
    case Unicode(u, down) =>
      WritingIsNoAttempt(r, KeyMessage(down, UnicodeSymbol(u)), env.first);
    case Mouse(_, _, _, _) =>
  }

  /** The time of the last attempt before each operation, and after all of them. */
  ghost function LastAttempts(ops: seq<Op>, envs: seq<Env>): seq<int>
    requires |ops| == |envs|
  {
    seq(|ops| + 1, j requires 0 <= j <= |ops| => After(ops[..j], envs[..j]).lastAttempt)
  }

  lemma AttemptsAreRecorded(ops: seq<Op>, envs: seq<Env>, n: nat)
    requires |ops| == |envs| && n < |ops|
    ensures LastAttempts(ops, envs)[n + 1] ==
            if Tries(ops, envs, n) then envs[n].connectAt else LastAttempts(ops, envs)[n]
  {
    assert ops[..n + 1][..n] == ops[..n] && envs[..n + 1][..n] == envs[..n];
    LastAttemptAfter(After(ops[..n], envs[..n]), ops[n], envs[n]);
  }

  /** A record that is overwritten only by later attempts never falls behind one of them. */
  lemma {:induction false} AttemptRemembered(last: seq<int>, tries: seq<bool>, envs: seq<Env>, i: nat, j: nat)
    requires |last| == |envs| + 1 && |tries| == |envs| && Monotone(envs) && i < j <= |envs| && tries[i]
    requires forall n :: 0 <= n < |envs| ==> last[n + 1] == if tries[n] then envs[n].connectAt else last[n]
    ensures last[j] >= envs[i].connectAt
    decreases j
  {
    var n := j - 1;
    assert last[n + 1] == if tries[n] then envs[n].connectAt else last[n];
    if i < n {
      AttemptRemembered(last, tries, envs, i, n);
    }
  }

  /** Two attempts to connect are at least five seconds apart. */
  lemma AttemptsApart(ops: seq<Op>, envs: seq<Env>, i: nat, j: nat)
    requires |ops| == |envs| && Monotone(envs) && i < j < |ops|
    requires Tries(ops, envs, i) && Tries(ops, envs, j)
    ensures envs[j].connectAt - envs[i].connectAt >= 5
  {
    var last := LastAttempts(ops, envs);
    var tries := seq(|ops|, n requires 0 <= n < |ops| => Tries(ops, envs, n));
    forall n | 0 <= n < |envs| ensures last[n + 1] == if tries[n] then envs[n].connectAt else last[n] {
      AttemptsAreRecorded(ops, envs, n);
    }
    AttemptRemembered(last, tries, envs, i, j);
    assert last[j] == After(ops[..j], envs[..j]).lastAttempt;
  }

  /** What is recorded is an attempt's time, or still the start's. */
  lemma {:induction false} AttemptIsSome(last: seq<int>, tries: seq<bool>, envs: seq<Env>, j: nat) returns (i: int)
    requires |last| == |envs| + 1 && |tries| == |envs| && j <= |envs|
    requires forall n :: 0 <= n < |envs| ==> last[n + 1] == if tries[n] then envs[n].connectAt else last[n]
    ensures -1 <= i < j && last[j] == (if i < 0 then last[0] else envs[i].connectAt) && (i >= 0 ==> tries[i])
  {
    if j == 0 {
      i := -1;
    } else {
      assert last[j - 1 + 1] == if tries[j - 1] then envs[j - 1].connectAt else last[j - 1];
      if tries[j - 1] {
        i := j - 1;
      } else {
        i := AttemptIsSome(last, tries, envs, j - 1);
      }
    }
  }

  /**
   An injection tries to connect exactly if there is no connection and no attempt was made in the last five seconds,
   the start of the clock counting as one.
   */
  lemma TriesIff(ops: seq<Op>, envs: seq<Env>, i: nat)
    requires |ops| == |envs| && Monotone(envs) && i < |ops|
    ensures Tries(ops, envs, i) <==>
            && !ops[i].Reset? && !After(ops[..i], envs[..i]).open && envs[i].now >= 5
            && forall j :: 0 <= j < i && Tries(ops, envs, j) ==> envs[i].now - envs[j].connectAt >= 5
  {
    var last := LastAttempts(ops, envs);
    var tries := seq(|ops|, n requires 0 <= n < |ops| => Tries(ops, envs, n));
    forall n | 0 <= n < |envs| ensures last[n + 1] == if tries[n] then envs[n].connectAt else last[n] {
      AttemptsAreRecorded(ops, envs, n);
    }
    forall j | 0 <= j < i && Tries(ops, envs, j) ensures last[i] >= envs[j].connectAt {
      AttemptRemembered(last, tries, envs, j, i);
    }
    var k := AttemptIsSome(last, tries, envs, i);
    assert last[0] == 0 by {
      assert ops[..0] == [] && envs[..0] == [];
    }
    assert last[i] == After(ops[..i], envs[..i]).lastAttempt;
  }

  // ---- The buttons the server sees, from the frames alone -------------------------------------------------------

  /** Was the last frame of this button a press? */
  function LastFramePresses(ops: seq<Op>, down: byte, up: byte): bool
    decreases |ops|
  {
    var n := |ops| - 1;
    if ops == [] then false
    else if ops[n].Mouse? && (ops[n].button == down || ops[n].button == up) then ops[n].button == down
    else LastFramePresses(ops[..n], down, up)
  }

  /** The mask of section 7.5.5: bit 0 for the left button, bit 2 for the right one. */
  function HeldBits(ops: seq<Op>): (m: byte)
    ensures m <= 5
  {
    (if LastFramePresses(ops, 0x02, 0x04) then 1 else 0) + (if LastFramePresses(ops, 0x08, 0x10) then 4 else 0)
  }

  /** The operations since the last attempt to connect, its own included: those of the connection, if it is open. */
  function OnConnection(ops: seq<Op>, envs: seq<Env>): seq<Op>
    requires |ops| == |envs|
    decreases |ops|
  {
    var n := |ops| - 1;
    if ops == [] then []
    else if Tries(ops, envs, n) then [ops[n]]
    else OnConnection(ops[..n], envs[..n]) + [ops[n]]
  }

  /** The record of the buttons says what the frames say. */
  predicate Records(b: Buttons, ops: seq<Op>) {
    && b.left == LastFramePresses(ops, 0x02, 0x04)
    && b.right == LastFramePresses(ops, 0x08, 0x10)
  }

  lemma RecordsMask(b: Buttons, ops: seq<Op>)
    requires Records(b, ops)
    ensures Mask(b) == HeldBits(ops)
  {
  }

  lemma RecordsNext(b: Buttons, ops: seq<Op>, op: Op)
    requires Records(b, ops)
    ensures Records(if op.Mouse? then Pressed(b, op.button) else b, ops + [op])
  {
    assert (ops + [op])[..|ops|] == ops;
  }

  /** What one operation makes of the buttons, if there is a connection after it. */
  lemma ButtonsAfter(c: Client, op: Op, env: Env)
    requires Whole(c)
    ensures var w := Step(c, op, env);
            var b := if c.open || op.Reset? then c.buttons else NO_BUTTONS;
            && Whole(w)
            && (w.open ==> w.buttons == if op.Mouse? then Pressed(b, op.button) else b)
            && (w.open && !c.open ==> !op.Reset? && Attempts(c, env))
  {
    ReadySees(c, env);
    hide Whole, Seen, Pressed, InjectKey, InjectMouse, InjectUnicode;
    match op
    case Reset =>
    case Key(adb, down) =>
      KeySent(c, adb, down, env);
      OpenNeedsReady(c, op, env);
    case Unicode(u, down) =>
      CharacterIsSeen(c, u, down, env);
      OpenNeedsReady(c, op, env);
    case Mouse(x, y, button, wheel) =>
      MouseSent(c, x, y, button, wheel, env);
      OpenNeedsReady(c, op, env);
  }

  lemma OpenNeedsReady(c: Client, op: Op, env: Env)
    requires !op.Reset?
    ensures Step(c, op, env).open ==> Ready(c, env).open
  {
  }

  lemma {:induction false} ButtonsAreRecorded(ops: seq<Op>, envs: seq<Env>)
    requires |ops| == |envs|
    ensures var c := After(ops, envs);
            Whole(c) && (c.open ==> Records(c.buttons, OnConnection(ops, envs)))
    decreases |ops|
  {
    if ops == [] {
      assert Parse(ServerHead, []) == Parsed([], []);
    } else {
      var n := |ops| - 1;
      var c, op := After(ops[..n], envs[..n]), ops[n];
      ButtonsAreRecorded(ops[..n], envs[..n]);
      ButtonsAfter(c, op, envs[n]);
      hide Whole, Step, Records, Pressed;
      if Tries(ops, envs, n) {
        NothingRecorded();
        RecordsNext(NO_BUTTONS, [], op);
        assert [] + [op] == [op];
      } else if c.open {
        RecordsNext(c.buttons, OnConnection(ops[..n], envs[..n]), op);
      }
    }
  }

  lemma NothingRecorded()
    ensures Records(NO_BUTTONS, [])
  {
  }

  /**
   The server reads a pointer frame that gets through with its place and the buttons the frames of this connection
   leave held; a step of the wheel as a press of button 4 if it goes up, 5 if it goes down, and its release.
   */
  lemma PointerIsSeen(ops: seq<Op>, envs: seq<Env>, x: int, y: int, button: byte, wheel: int, env: Env)
    requires |ops| == |envs|
    ensures var before, after := After(ops, envs), After(ops + [Mouse(x, y, button, wheel)], envs + [env]);
            var held := HeldBits(OnConnection(ops + [Mouse(x, y, button, wheel)], envs + [env]));
            var xi, yi: word := if x < 0 then 0 else x % 65536, if y < 0 then 0 else y % 65536;
            && (after.open <==> Connects(before, env) && Through(env.first, 6, false) == 6
                                && (wheel != 0 ==> Through(env.second, 6, false) == 6))
            && (after.open ==>
                  Seen(after) == Seen(before) +
                    if wheel == 0 then [PointerEvent(held, xi, yi)]
                    else if wheel > 0 then [PointerEvent(held + 8, xi, yi), PointerEvent(held, xi, yi)]
                    else [PointerEvent(held + 16, xi, yi), PointerEvent(held, xi, yi)])
  {
    var op := Mouse(x, y, button, wheel);
    var ops', envs' := ops + [op], envs + [env];
    assert After(ops', envs') == InjectMouse(After(ops, envs), x, y, button, wheel, env) by {
      assert ops'[..|ops|] == ops && envs'[..|ops|] == envs;
    }
    hide After;
    ButtonsAreRecorded(ops, envs);
    ButtonsAreRecorded(ops', envs');
    MouseSent(After(ops, envs), x, y, button, wheel, env);
    hide Whole, Seen, InjectMouse, Records, Connects, HeldBits, OnConnection, Mask;
    if After(ops', envs').open {
      RecordsMask(After(ops', envs').buttons, OnConnection(ops', envs'));
    }
  }

  // ---- The client's globals --------------------------------------------------------------------------------

  class VncClient {
    var connected: bool
    var lastAttempt: int
    var shiftDown: bool
    var left: bool
    var right: bool
    /** What reached the server on this connection. */
    var wire: seq<byte>

    ghost function Snapshot(): Client
      reads this
    {
      Client(connected, shiftDown, Buttons(left, right), lastAttempt, wire)
    }

    constructor ()
      ensures Snapshot() == START
    {
      connected, lastAttempt, shiftDown, left, right, wire := false, 0, false, false, false, [];
    }

    method Disconnect()
      modifies this
      ensures Snapshot() == Disconnected(old(Snapshot()))
    {
      connected := false;
      shiftDown, left, right := false, false, false;
      wire := [];
    }

    /** Connects if need be; false if there is nothing to inject into. */
    method Ensure(env: Env) returns (ok: bool)
      modifies this
      ensures Snapshot() == Ready(old(Snapshot()), env) && ok == connected
    {
      if !connected {
        if env.now - lastAttempt < BACKOFF {
          return false;
        }
        Disconnect();
        lastAttempt := env.connectAt;
        connected := env.handshake;
      }
      ok := connected;
    }

    method Send(msg: seq<byte>, script: seq<Io>) returns (ok: bool)
      modifies this
      ensures Snapshot() == Written(old(Snapshot()), msg, script)
      ensures ok <==> Through(script, |msg|, false) == |msg|
    {
      var out;
      ok, out := WriteAll(msg, script);
      wire := wire + out;
      if !ok {
        Disconnect();
      }
    }

    method SendKey(adb: word, down: bool, env: Env)
      modifies this
      ensures Snapshot() == InjectKey(old(Snapshot()), adb, down, env)
    {
      var ready := Ensure(env);
      if !ready {
        return;
      }
      if adb == SHIFT_L || adb == SHIFT_R {
        shiftDown := down;
      }
      var sym: dword := 0;
      if shiftDown && adb != SHIFT_L && adb != SHIFT_R {
        sym := Shifted(adb % 0x100);
        if sym == 0 {
          var base := Base(adb % 0x100);
          if 0x61 <= base <= 0x7A {
            sym := base - 0x20;
          }
        }
      }
      if sym == 0 {
        sym := Base(adb % 0x100);
      }
      if sym == 0 {
        return;
      }
      var _ := Send(KeyMessage(down, sym), env.first);
    }

    method SendUnicode(u: word, down: bool, env: Env)
      modifies this
      ensures Snapshot() == InjectUnicode(old(Snapshot()), u, down, env)
    {
      var ready := Ensure(env);
      if !ready {
        return;
      }
      var _ := Send(KeyMessage(down, UnicodeSymbol(u)), env.first);
    }

    method Press(button: byte)
      modifies this
      ensures Snapshot() == old(Snapshot()).(buttons := Pressed(old(Snapshot()).buttons, button))
    {
      if button == LEFTDOWN {
        left := true;
      } else if button == LEFTUP {
        left := false;
      } else if button == RIGHTDOWN {
        right := true;
      } else if button == RIGHTUP {
        right := false;
      }
    }

    method SendMouse(x: int, y: int, button: byte, wheel: int, env: Env)
      modifies this
      ensures Snapshot() == InjectMouse(old(Snapshot()), x, y, button, wheel, env)
    {
      var ready := Ensure(env);
      if !ready {
        return;
      }
      Press(button);
      var m, xi, yi := Mask(Buttons(left, right)), Coordinate(x), Coordinate(y);
      if wheel != 0 {
        var ok := Send(PointerMessage(m + (if wheel > 0 then 0x08 else 0x10), xi, yi), env.first);
        if ok {
          ok := Send(PointerMessage(m, xi, yi), env.second);
        }
        return;
      }
      var _ := Send(PointerMessage(m, xi, yi), env.first);
    }
  }
}
