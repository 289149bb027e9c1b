/**
 What the in-session injector makes of the viewer's input: modifier flags, buttons,
 drags and click counts, built from the history of frames.
 */
module Injection {
  import opened Bytes
  import opened InputStream
  import opened Modifiers
  import opened MouseFlags

  /** The moment a frame is handled: the session, the clock, the frame's origin, what a new event inherits. */
  datatype Env = Env(login: bool, now: real, originX: int, originY: int, inherited: set<Flag>, created: bool)

  /** A frame from the viewer, or the reset that an eviction performs. */
  datatype Input = Frame(action: Action, env: Env) | Reset

  datatype Drag = NoDrag | LeftDrag | RightDrag

  datatype Button = Left | Right

  datatype Event =
    | KeyEvent(code: nat, down: bool, flags: set<Flag>)
    | CharEvent(code: nat, unicode: word, down: bool, flags: set<Flag>)
    | ScrollEvent(px: int, flags: set<Flag>)
    | MoveEvent(x: int, y: int, drag: Drag, clickState: nat, flags: set<Flag>)
    | ButtonEvent(x: int, y: int, button: Button, down: bool, clickState: nat, flags: set<Flag>)
    | ReleaseEvent(modifier: nat)

  /** The key tables, whose contents matter here only for the modifier keys. */
  datatype Tables = Tables(keymap: map<byte, nat>, unicode: map<word, byte>)

  ghost predicate MapsModifiers(t: Tables) {
    forall vk: byte :: VkFlag(vk) != {} ==> vk in t.keymap
  }

  datatype State = State(mods: set<Flag>, left: bool, right: bool,
                         clicks: nat, lastTime: real, lastX: int, lastY: int)

  const START: State := State({}, false, false, 0, 0.0, 0, 0)

  /** The event's flags: the tracked modifiers, and Caps Lock if the event source has it. */
  function Flags(mods: set<Flag>, inherited: set<Flag>): set<Flag> {
    mods + inherited * {CapsLock}
  }

  predicate IsLockKey(vk: byte) {
    vk == 0x14 || vk == 0x90 || vk == 0x91
  }

  function KeyStep(t: Tables, st: State, vk: byte, up: int, env: Env): (State, seq<Event>) {
    if IsRelease(up) && IsLockKey(vk) then (st, [])
    else if vk !in t.keymap then (st, [])
    else
      var st' := st.(mods := Track(st.mods, vk, up));
      if env.login || !env.created then (st', [])
      else (st', [KeyEvent(t.keymap[vk], !IsRelease(up), Flags(st'.mods, env.inherited))])
  }

  function UnicodeStep(t: Tables, st: State, u: word, up: int, env: Env): (State, seq<Event>) {
    if env.login || u !in t.unicode || t.unicode[u] !in t.keymap || !env.created then (st, [])
    else (st, [CharEvent(t.keymap[t.unicode[u]], u, up == 0, Flags(st.mods, env.inherited))])
  }

  /** A wheel delta in pixels: a third of it, never 0, at most 160 either way. */
  function ScrollPixels(wheel: int): int
    requires wheel != 0
  {
    var third := if wheel >= 0 then wheel / 3 else -(-wheel / 3);
    if third == 0 then (if wheel > 0 then 1 else -1)
    else if third > 160 then 160
    else if third < -160 then -160
    else third
  }

  /** Is a press close enough, in time and place, to continue the previous one's sequence? */
  predicate Near(t0: real, x0: int, y0: int, t: real, x: int, y: int) {
    var dx, dy := x - x0, y - y0;
    t - t0 <= 0.5 && dx * dx + dy * dy <= 25
  }

  function Press(st: State, now: real, x: int, y: int): State {
    var clicks :=
      if st.clicks > 0 && Near(st.lastTime, st.lastX, st.lastY, now, x, y) then
        (if st.clicks + 1 > 3 then 1 else st.clicks + 1)
      else 1;
    st.(clicks := clicks, lastTime := now, lastX := x, lastY := y)
  }

  function ClickState(st: State): nat {
    if st.clicks > 0 then st.clicks else 1
  }

  function DragOf(st: State): Drag {
    if st.left then LeftDrag else if st.right then RightDrag else NoDrag
  }

  function ButtonState(st: State, button: byte, now: real, x: int, y: int): State {
    if button == LEFTDOWN then Press(st.(left := true), now, x, y)
    else if button == LEFTUP then st.(left := false)
    else if button == RIGHTDOWN then Press(st.(right := true), now, x, y)
    else if button == RIGHTUP then st.(right := false)
    else st
  }

  predicate IsButton(button: byte) {
    button == LEFTDOWN || button == LEFTUP || button == RIGHTDOWN || button == RIGHTUP
  }

  function PointerStep(st: State, px: int, py: int, button: byte, wheel: int, env: Env): (State, seq<Event>) {
    if env.login then (st, [])
    else
      var x, y := px + env.originX, py + env.originY;
      var flags := Flags(st.mods, env.inherited);
      if wheel != 0 then
        (st, if env.created then [ScrollEvent(ScrollPixels(wheel), flags)] else [])
      else if button == 0 then
        var drag := DragOf(st);
        var click := if drag == NoDrag then 0 else ClickState(st);
        (st, if env.created then [MoveEvent(x, y, drag, click, flags)] else [])
      else if !IsButton(button) then (st, [])
      else
        var st' := ButtonState(st, button, env.now, x, y);
        var e := ButtonEvent(x, y, if button == LEFTDOWN || button == LEFTUP then Left else Right,
                             button == LEFTDOWN || button == RIGHTDOWN, ClickState(st'), flags);
        (st', if env.created then [e] else [])
  }

  function Releases(n: nat): seq<Event> {
    if n == 0 then [] else Releases(n - 1) + [ReleaseEvent(n - 1)]
  }

  const MODIFIER_KEYS := 9

  function Step(t: Tables, st: State, i: Input): (State, seq<Event>) {
    match i
    case Reset => (st.(mods := {}), Releases(MODIFIER_KEYS))
    case Frame(KeyPress(vk, up), env) => KeyStep(t, st, vk, up, env)
    case Frame(UnicodePress(u, up), env) => UnicodeStep(t, st, u, up, env)
    case Frame(Pointer(x, y, button, wheel), env) => PointerStep(st, x, y, button, wheel, env)
    case Frame(_, _) => (st, [])
  }

  function After(t: Tables, h: seq<Input>): State
    decreases |h|
  {
    var n := |h| - 1;
    if h == [] then START else Step(t, After(t, h[..n]), h[n]).0
  }

  /** What the `i`-th input of a history posts. */
  function Posted(t: Tables, h: seq<Input>, i: nat): seq<Event>
    requires i < |h|
  {
    Step(t, After(t, h[..i]), h[i]).1
  }

  // ---- No modifier leaks ------------------------------------------------------------------------

  /** A key frame of a modifier's key. */
  predicate Sets(i: Input, m: Flag) {
    i.Frame? && i.action.KeyPress? && m in VkFlag(i.action.vk)
  }

  predicate Presses(i: Input, m: Flag) {
    Sets(i, m) && !IsRelease(i.action.up)
  }

  /** The `j`-th input is a press of `m`, and no key frame of `m` and no reset has come since. */
  ghost predicate LastPress(h: seq<Input>, m: Flag, j: nat) {
    j < |h| && Presses(h[j], m) && forall k :: j < k < |h| ==> !Sets(h[k], m) && !h[k].Reset?
  }

  /** The last key frame mapping to `m` since the start or the last reset was a press. */
  ghost predicate Held(h: seq<Input>, m: Flag) {
    exists j :: LastPress(h, m, j)
  }

  lemma LastPressSnoc(h: seq<Input>, i: Input, m: Flag, j: nat)
    requires j < |h|
    ensures LastPress(h + [i], m, j) <==> LastPress(h, m, j) && !Sets(i, m) && !i.Reset?
  {
    var g := h + [i];
    assert g[|h|] == i;
    assert forall k :: 0 <= k < |h| ==> g[k] == h[k];
  }

  lemma HeldStep(h: seq<Input>, i: Input, m: Flag)
    ensures Held(h + [i], m) <==> Presses(i, m) || (Held(h, m) && !Sets(i, m) && !i.Reset?)
  {
    assert Presses(i, m) <==> LastPress(h + [i], m, |h|);
    forall j: nat | j < |h| ensures LastPress(h + [i], m, j) <==> LastPress(h, m, j) && !Sets(i, m) && !i.Reset? {
      LastPressSnoc(h, i, m, j);
    }
    if Held(h, m) && !Sets(i, m) && !i.Reset? {
      var j :| LastPress(h, m, j);
      assert LastPress(h + [i], m, j);
    }
  }

  lemma StepMods(t: Tables, st: State, i: Input, m: Flag)
    requires MapsModifiers(t)
    ensures m in Step(t, st, i).0.mods <==> Presses(i, m) || (m in st.mods && !Sets(i, m) && !i.Reset?)
  {
  }

  lemma {:induction false} ModsAreHeld(t: Tables, h: seq<Input>, m: Flag)
    requires MapsModifiers(t)
    ensures m in After(t, h).mods <==> Held(h, m)
    decreases |h|
  {
    if h == [] {
      assert !exists j :: LastPress(h, m, j);
    } else {
      var n := |h| - 1;
      ModsAreHeld(t, h[..n], m);
      HeldStep(h[..n], h[n], m);
      StepMods(t, After(t, h[..n]), h[n], m);
      assert h == h[..n] + [h[n]];
    }
  }

  /** The flags of an event; the reset's own key-ups keep whatever they inherit. */
  predicate Carries(e: Event, flags: set<Flag>) {
    !e.ReleaseEvent? ==> e.flags == flags
  }

  lemma {:induction false} StepCarries(t: Tables, st: State, i: Input, k: nat)
    requires k < |Step(t, st, i).1|
    ensures i.Frame? ==> Carries(Step(t, st, i).1[k], Flags(Step(t, st, i).0.mods, i.env.inherited))
    ensures i.Reset? ==> Step(t, st, i).1[k].ReleaseEvent?
  {
    if i.Reset? {
      ReleasesAreReleases(MODIFIER_KEYS);
    }
  }

  lemma {:induction false} ReleasesAreReleases(n: nat)
    ensures |Releases(n)| == n && forall k :: 0 <= k < n ==> Releases(n)[k] == ReleaseEvent(k)
  {
    if n > 0 {
      ReleasesAreReleases(n - 1);
    }
  }

  /**
   Every key, character, click, move and scroll event posted carries exactly the modifiers held after its
   frame, and Caps Lock if the source has it: nothing else of what the event inherited.
   */
  lemma NoModifierLeak(t: Tables, h: seq<Input>, i: nat, k: nat)
    requires MapsModifiers(t)
    requires i < |h| && k < |Posted(t, h, i)| && h[i].Frame?
    ensures var e := Posted(t, h, i)[k];
            && !e.ReleaseEvent?
            && forall m :: m in e.flags <==> Held(h[..i + 1], m) || (m == CapsLock && CapsLock in h[i].env.inherited)
  {
    var e := Posted(t, h, i)[k];
    assert h[..i + 1][..i] == h[..i];
    StepCarries(t, After(t, h[..i]), h[i], k);
    forall m ensures m in e.flags <==> Held(h[..i + 1], m) || (m == CapsLock && CapsLock in h[i].env.inherited) {
      ModsAreHeld(t, h[..i + 1], m);
    }
  }

  // ---- What each frame posts ----------------------------------------------------------------------

  /** A release of Caps Lock, Num Lock or Scroll Lock, which is handled elsewhere. */
  predicate LockRelease(vk: byte, up: int) {
    up != 0 && up != 4 && (vk == 0x14 || vk == 0x90 || vk == 0x91)
  }

  /**
   A key frame posts one key event, with the table's code, down exactly if `up` is 0 or 4; unless the key is in no
   table, its release is a lock key's, the session is the login window, or no event could be created.
   */
  lemma KeysPosted(t: Tables, h: seq<Input>, i: nat)
    requires i < |h| && h[i].Frame? && h[i].action.KeyPress?
    ensures var vk, up, env, es := h[i].action.vk, h[i].action.up, h[i].env, Posted(t, h, i);
            if vk in t.keymap && !LockRelease(vk, up) && !env.login && env.created then
              && |es| == 1 && es[0].KeyEvent? && es[0].code == t.keymap[vk]
              && (es[0].down <==> up == 0 || up == 4)
            else es == []
  {
  }

  /** A character frame posts one event with that character, down exactly if `up` is 0. */
  lemma CharactersPosted(t: Tables, h: seq<Input>, i: nat)
    requires i < |h| && h[i].Frame? && h[i].action.UnicodePress?
    ensures var u, up, env, es := h[i].action.unicode, h[i].action.up, h[i].env, Posted(t, h, i);
            if u in t.unicode && t.unicode[u] in t.keymap && !env.login && env.created then
              && |es| == 1 && es[0].CharEvent? && es[0].unicode == u && es[0].code == t.keymap[t.unicode[u]]
              && (es[0].down <==> up == 0)
            else es == []
  {
  }

  /**
   A turn of the wheel scrolls its own way by a third of it, at least 1 and at most 160, and does nothing else;
   no turn and no button is a move; one of the four button codes is that button going that way; any other is nothing.
   */
  lemma PointersPosted(t: Tables, h: seq<Input>, i: nat)
    requires i < |h| && h[i].Frame? && h[i].action.Pointer?
    ensures var a, env, es := h[i].action, h[i].env, Posted(t, h, i);
            if env.login || !env.created then es == []
            else if a.wheel != 0 then |es| == 1 && es[0].ScrollEvent? && Scrolls(es[0].px, a.wheel)
            else if a.button == 0 then
              |es| == 1 && es[0].MoveEvent? && es[0].x == a.x + env.originX && es[0].y == a.y + env.originY
            else if a.button in {0x02, 0x04, 0x08, 0x10} then
              && |es| == 1 && es[0].ButtonEvent? && es[0].x == a.x + env.originX && es[0].y == a.y + env.originY
              && es[0].button == (if a.button in {0x02, 0x04} then Left else Right)
              && (es[0].down <==> a.button in {0x02, 0x08})
            else es == []
  {
  }

  /** Same direction; a whole third rounded towards 0, between 1 and 160. */
  predicate Scrolls(px: int, wheel: int) {
    && (px > 0 <==> wheel > 0) && (px < 0 <==> wheel < 0)
    && var size, n := (if px < 0 then -px else px), (if wheel < 0 then -wheel else wheel);
       && 1 <= size <= 160
       && (n < 3 ==> size == 1) && (n >= 480 ==> size == 160) && (3 <= n < 480 ==> 3 * size <= n < 3 * size + 3)
  }

  /** What is not a key, a character or a pointer frame posts nothing; a reset posts the nine key-ups, in order. */
  lemma RestPosted(t: Tables, h: seq<Input>, i: nat)
    requires i < |h|
    ensures h[i].Frame? && (h[i].action.Other? || h[i].action.Ignored?) ==> Posted(t, h, i) == []
    ensures h[i].Reset? ==>
              && |Posted(t, h, i)| == 9
              && forall k :: 0 <= k < 9 ==> Posted(t, h, i)[k] == ReleaseEvent(k)
  {
    ReleasesAreReleases(9);
  }

  // ---- One flag for two keys ------------------------------------------------------------------------

  /** A key frame of this key. */
  predicate OfKey(i: Input, vk: byte) {
    i.Frame? && i.action.KeyPress? && i.action.vk == vk
  }

  /** The last frame of this key since the start or the last reset was a press. */
  ghost predicate KeyHeld(h: seq<Input>, vk: byte) {
    exists j :: LastKeyPress(h, vk, j)
  }

  ghost predicate LastKeyPress(h: seq<Input>, vk: byte, j: nat) {
    && j < |h| && OfKey(h[j], vk) && (h[j].action.up == 0 || h[j].action.up == 4)
    && forall k :: j < k < |h| ==> !OfKey(h[k], vk) && !h[k].Reset?
  }

  /** The other three flags are their keys': the last frame of that key was a press.  No other flag is ever held. */
  lemma FlagsAreKeys(h: seq<Input>, m: Flag)
    ensures Held(h, Shift) <==> KeyHeld(h, 0x10)
    ensures Held(h, Control) <==> KeyHeld(h, 0x11)
    ensures Held(h, Option) <==> KeyHeld(h, 0x12)
    ensures Held(h, m) ==> m in {Shift, Control, Option, Command}
  {
    FlagIsKey(h, Shift, 0x10);
    FlagIsKey(h, Control, 0x11);
    FlagIsKey(h, Option, 0x12);
  }

  lemma FlagIsKey(h: seq<Input>, m: Flag, vk: byte)
    requires forall i :: Sets(i, m) <==> OfKey(i, vk)
    ensures Held(h, m) <==> KeyHeld(h, vk)
  {
    forall j: nat ensures LastPress(h, m, j) <==> LastKeyPress(h, vk, j) {
      if j < |h| {
        assert Sets(h[j], m) <==> OfKey(h[j], vk);
      }
    }
  }

  function OtherCommand(vk: byte): byte {
    if vk == VK_LWIN then VK_RWIN else VK_LWIN
  }

  /** The `j`-th input is the last Command frame, nothing is reset after it, and it releases the key `vk`. */
  ghost predicate LastIsRelease(h: seq<Input>, vk: byte, j: nat) {
    && j < |h| && OfKey(h[j], vk) && h[j].action.up != 0 && h[j].action.up != 4 && (vk == 0x5B || vk == 0x5C)
    && forall k :: j < k < |h| ==> !Sets(h[k], Command) && !h[k].Reset?
  }

  /** One Command key was released last, while the other one is held. */
  ghost predicate ReleasedUnderOther(h: seq<Input>) {
    exists j, vk :: LastIsRelease(h, vk, j) && KeyHeld(h, OtherCommand(vk))
  }

  lemma CommandKeys(i: Input)
    ensures Sets(i, Command) <==> OfKey(i, VK_LWIN) || OfKey(i, VK_RWIN)
  {
  }

  /** A flag that is set has a key behind it. */
  lemma HeldHasKey(h: seq<Input>)
    requires Held(h, Command)
    ensures KeyHeld(h, VK_LWIN) || KeyHeld(h, VK_RWIN)
  {
    var j: nat :| LastPress(h, Command, j);
    forall k | j < k < |h| ensures !OfKey(h[k], VK_LWIN) && !OfKey(h[k], VK_RWIN) {
      CommandKeys(h[k]);
    }
    assert LastKeyPress(h, h[j].action.vk, j);
  }

  /** The last Command frame from `from` on. */
  lemma LastCommandFrame(h: seq<Input>, from: nat) returns (k: nat)
    requires from < |h| && Sets(h[from], Command)
    ensures from <= k < |h| && Sets(h[k], Command) && forall i :: k < i < |h| ==> !Sets(h[i], Command)
  {
    k := from;
    var n := from + 1;
    while n < |h|
      invariant from <= k < n <= |h| && Sets(h[k], Command)
      invariant forall i :: k < i < n ==> !Sets(h[i], Command)
    {
      if Sets(h[n], Command) {
        k := n;
      }
      n := n + 1;
    }
  }

  /** A key held without the flag: the other one was released after it. */
  lemma KeyWithoutFlag(h: seq<Input>, vk: byte)
    requires (vk == VK_LWIN || vk == VK_RWIN) && KeyHeld(h, vk) && !Held(h, Command)
    ensures ReleasedUnderOther(h)
  {
    var j: nat :| LastKeyPress(h, vk, j);
    CommandKeys(h[j]);
    var k := LastCommandFrame(h, j);
    CommandKeys(h[k]);
    var other := h[k].action.vk;
    if !IsRelease(h[k].action.up) {
      assert LastPress(h, Command, k);
      assert false;
    }
    assert OtherCommand(other) == vk;
    assert LastIsRelease(h, other, k);
  }

  /** And a release under the other key clears the flag. */
  lemma ReleaseClears(h: seq<Input>)
    requires ReleasedUnderOther(h)
    ensures !Held(h, Command) && (KeyHeld(h, VK_LWIN) || KeyHeld(h, VK_RWIN))
  {
    var j: nat, vk :| LastIsRelease(h, vk, j) && KeyHeld(h, OtherCommand(vk));
    CommandKeys(h[j]);
    forall p: nat ensures !LastPress(h, Command, p) {
    }
  }

  /**
   The Command flag says that one of its two keys is held if and only if the last Command frame is not the release
   of one key while the last frame of the other was a press.
   */
  lemma CommandFlagIff(h: seq<Input>)
    ensures (Held(h, Command) <==> KeyHeld(h, 0x5B) || KeyHeld(h, 0x5C)) <==> !ReleasedUnderOther(h)
  {
    if ReleasedUnderOther(h) {
      ReleaseClears(h);
    } else if Held(h, Command) {
      HeldHasKey(h);
    } else if KeyHeld(h, VK_LWIN) {
      KeyWithoutFlag(h, VK_LWIN);
    } else if KeyHeld(h, VK_RWIN) {
      KeyWithoutFlag(h, VK_RWIN);
    }
  }

  /** The left Command key pressed, then the right one, and the right one released. */
  function CommandRoll(env: Env): seq<Input> {
    [Frame(KeyPress(VK_LWIN, 0), env), Frame(KeyPress(VK_RWIN, 0), env), Frame(KeyPress(VK_RWIN, 1), env)]
  }

  /** Both pressed, one released: the next event carries no Command though a Command key is held. */
  lemma CommandLost(env: Env)
    ensures var h := CommandRoll(env);
            KeyHeld(h, VK_LWIN) && !Held(h, Command)
  {
    var h := CommandRoll(env);
    assert LastKeyPress(h, VK_LWIN, 0);
    assert LastIsRelease(h, VK_RWIN, 2);
    assert OtherCommand(VK_RWIN) == VK_LWIN;
    ReleaseClears(h);
  }

  // ---- Clicks and drags ------------------------------------------------------------------------------

  datatype Spot = Spot(t: real, x: int, y: int)

  /** A button frame the in-session path acts on: a wheel delta hides the button. */
  predicate ButtonFrame(i: Input) {
    && i.Frame? && i.action.Pointer?
    && !i.env.login && i.action.wheel == 0 && IsButton(i.action.button)
  }

  predicate PressFrame(i: Input) {
    ButtonFrame(i) && (i.action.button == LEFTDOWN || i.action.button == RIGHTDOWN)
  }

  function SpotOf(i: Input): Spot
    requires PressFrame(i)
  {
    Spot(i.env.now, i.action.x + i.env.originX, i.action.y + i.env.originY)
  }

  /** The presses of a history, of either button, in order. */
  function PressesOf(h: seq<Input>): seq<Spot>
    decreases |h|
  {
    var n := |h| - 1;
    if h == [] then []
    else PressesOf(h[..n]) + (if PressFrame(h[n]) then [SpotOf(h[n])] else [])
  }

  /** How many presses the last one ends, each near the one before. */
  function RunLength(p: seq<Spot>): nat
    decreases |p|
  {
    var n := |p| - 1;
    if p == [] then 0
    else if n > 0 && Near(p[n - 1].t, p[n - 1].x, p[n - 1].y, p[n].t, p[n].x, p[n].y) then RunLength(p[..n]) + 1
    else 1
  }

  function ClickNumber(k: nat): nat {
    if k == 0 then 0 else (k - 1) % 3 + 1
  }

  /** Was the last frame of this button a press? */
  function ButtonHeld(h: seq<Input>, down: byte, up: byte): bool
    decreases |h|
  {
    var n := |h| - 1;
    if h == [] then false
    else if ButtonFrame(h[n]) && (h[n].action.button == down || h[n].action.button == up) then
      h[n].action.button == down
    else ButtonHeld(h[..n], down, up)
  }

  /** The count and the place of the last press, from the presses alone. */
  ghost predicate ClosedClicks(st: State, p: seq<Spot>) {
    && st.clicks == ClickNumber(RunLength(p))
    && (p != [] ==> RunLength(p) > 0 && Spot(st.lastTime, st.lastX, st.lastY) == p[|p| - 1])
  }

  /** A press continues or restarts the sequence. */
  predicate Pressed(st: State, st': State, p: Spot) {
    && st'.clicks == (if st.clicks > 0 && Near(st.lastTime, st.lastX, st.lastY, p.t, p.x, p.y) && st.clicks < 3
                      then st.clicks + 1 else 1)
    && Spot(st'.lastTime, st'.lastX, st'.lastY) == p
  }

  /** A press is the left or the right button going down, in session and without a turn of the wheel. */
  lemma PressCodes(i: Input)
    ensures PressFrame(i) <==>
            && i.Frame? && i.action.Pointer? && !i.env.login && i.action.wheel == 0
            && (i.action.button == 0x02 || i.action.button == 0x08)
  {
  }

  /** Within half a second and five pixels of the press before. */
  predicate Continues(before: Spot, now: Spot) {
    && now.t - before.t <= 0.5
    && (now.x - before.x) * (now.x - before.x) + (now.y - before.y) * (now.y - before.y) <= 25
  }

  lemma ContinuesIsNear(before: Spot, now: Spot)
    ensures Continues(before, now) <==> Near(before.t, before.x, before.y, now.t, now.x, now.y)
  {
  }

  lemma PressesSnoc(h: seq<Input>, i: Input)
    requires PressFrame(i)
    ensures PressesOf(h + [i]) ==
            PressesOf(h) + [Spot(i.env.now, i.action.x + i.env.originX, i.action.y + i.env.originY)]
  {
    assert (h + [i])[..|h|] == h;
  }

  /** A press that continues the run makes it longer, any other starts one. */
  lemma RunGrows(p: seq<Spot>, now: Spot)
    ensures RunLength(p + [now]) == if p != [] && Continues(p[|p| - 1], now) then RunLength(p) + 1 else 1
  {
    if p != [] {
      ContinuesIsNear(p[|p| - 1], now);
    }
    hide Near, Continues;
    RunLengthSnoc(p, now);
  }

  /** Only presses touch the click count. */
  lemma StepClicks(t: Tables, st: State, i: Input)
    ensures var st' := Step(t, st, i).0;
            if PressFrame(i) then Pressed(st, st', SpotOf(i))
            else (st'.clicks, st'.lastTime, st'.lastX, st'.lastY) == (st.clicks, st.lastTime, st.lastX, st.lastY)
  {
  }

  lemma RunLengthSnoc(q: seq<Spot>, p: Spot)
    ensures RunLength(q + [p]) ==
            if q != [] && Near(q[|q| - 1].t, q[|q| - 1].x, q[|q| - 1].y, p.t, p.x, p.y) then RunLength(q) + 1 else 1
  {
    assert (q + [p])[..|q|] == q;
  }

  lemma ClickNumberNext(k: nat)
    ensures k > 0 ==> ClickNumber(k) > 0
    ensures k > 0 ==> ClickNumber(k + 1) == if ClickNumber(k) < 3 then ClickNumber(k) + 1 else 1
    ensures ClickNumber(0) == 0 && ClickNumber(1) == 1
  {
  }

  /** One press after a state in closed form. */
  lemma PressClosedForm(st: State, st': State, q: seq<Spot>, p: Spot)
    requires ClosedClicks(st, q) && Pressed(st, st', p)
    ensures ClosedClicks(st', q + [p])
  {
    RunLengthSnoc(q, p);
    ClickNumberNext(RunLength(q));
  }

  /** The click count is the place in a cycle of three of the current run of presses. */
  lemma {:induction false} ClicksClosedForm(t: Tables, h: seq<Input>)
    ensures ClosedClicks(After(t, h), PressesOf(h))
    decreases |h|
  {
    if h != [] {
      var n := |h| - 1;
      ClicksClosedForm(t, h[..n]);
      StepClicks(t, After(t, h[..n]), h[n]);
      if PressFrame(h[n]) {
        PressClosedForm(After(t, h[..n]), After(t, h), PressesOf(h[..n]), SpotOf(h[n]));
      } else {
        assert PressesOf(h) == PressesOf(h[..n]);
      }
    }
  }

  lemma {:induction false} ButtonsClosedForm(t: Tables, h: seq<Input>)
    ensures After(t, h).left == ButtonHeld(h, 0x02, 0x04)
    ensures After(t, h).right == ButtonHeld(h, 0x08, 0x10)
    decreases |h|
  {
    if h != [] {
      ButtonsClosedForm(t, h[..|h| - 1]);
    }
  }

  /**
   Every button event carries the count of the latest press (1 if there was none), its own included; a move is
   posted as a drag exactly when the history says a button is held, the left one first, and then carries that count.
   */
  lemma ClicksAndDrags(t: Tables, h: seq<Input>, i: nat)
    requires i < |h| && |Posted(t, h, i)| > 0
    ensures var e := Posted(t, h, i)[0];
            var k := RunLength(PressesOf(h[..i + 1]));
            var count := if k == 0 then 1 else (k - 1) % 3 + 1;
            var left, right := ButtonHeld(h[..i], 0x02, 0x04), ButtonHeld(h[..i], 0x08, 0x10);
            && (e.ButtonEvent? ==> e.clickState == count)
            && (e.MoveEvent? ==> e.drag == if left then LeftDrag else if right then RightDrag else NoDrag)
            && (e.MoveEvent? ==> e.clickState == if left || right then count else 0)
  {
    assert h[..i + 1][..i] == h[..i];
    assert After(t, h[..i + 1]) == Step(t, After(t, h[..i]), h[i]).0;
    ClicksClosedForm(t, h[..i + 1]);
    ButtonsClosedForm(t, h[..i]);
    EventOfStep(t, After(t, h[..i]), h[i]);
  }

  /** What one input posts, from the states around it. */
  lemma EventOfStep(t: Tables, st: State, i: Input)
    ensures var (st', es) := Step(t, st, i);
            es != [] ==>
              && (es[0].ButtonEvent? ==> es[0].clickState == ClickState(st'))
              && (es[0].MoveEvent? ==> st' == st && es[0].drag == DragOf(st))
              && (es[0].MoveEvent? ==> es[0].clickState == if DragOf(st) == NoDrag then 0 else ClickState(st'))
  {
    if i.Reset? {
      ReleasesAreReleases(MODIFIER_KEYS);
    }
  }

  // ---- The globals -----------------------------------------------------------------------------------

  class Injector {
    const keymap: map<byte, nat>
    const unicode: map<word, byte>
    var modFlags: set<Flag>
    var btnLeftDown: bool
    var btnRightDown: bool
    var clickCount: nat
    var lastClickTime: real
    var lastClickX: int
    var lastClickY: int
    /** Events handed to the post queue, in order. */
    var posted: seq<Event>

    ghost function Snapshot(): State
      reads this
    {
      State(modFlags, btnLeftDown, btnRightDown, clickCount, lastClickTime, lastClickX, lastClickY)
    }

    ghost function KeyTables(): Tables
    {
      Tables(keymap, unicode)
    }

    constructor (keymap: map<byte, nat>, unicode: map<word, byte>)
      ensures Snapshot() == START && posted == [] && KeyTables() == Tables(keymap, unicode)
    {
      this.keymap, this.unicode := keymap, unicode;
      modFlags, btnLeftDown, btnRightDown := {}, false, false;
      clickCount, lastClickTime, lastClickX, lastClickY := 0, 0.0, 0, 0;
      posted := [];
    }

    method KeyAction(vk: byte, up: int, env: Env)
      modifies this
      ensures var r := KeyStep(KeyTables(), old(Snapshot()), vk, up, env);
              Snapshot() == r.0 && posted == old(posted) + r.1
    {
      var released := up;
      if released == 4 {
        released := 0;
      }
      if released != 0 && (vk == 0x14 || vk == 0x90 || vk == 0x91) {
        return;
      }
      if vk !in keymap {
        return;
      }
      var flag := VkFlag(vk);
      if released != 0 {
        modFlags := modFlags - flag;
      } else {
        modFlags := modFlags + flag;
      }
      if env.login || !env.created {
        return;
      }
      posted := posted + [KeyEvent(keymap[vk], released == 0, Flags(modFlags, env.inherited))];
    }

    method KeyActionUnicode(u: word, up: int, env: Env)
      modifies this`posted
      ensures var r := UnicodeStep(KeyTables(), old(Snapshot()), u, up, env);
              Snapshot() == r.0 && posted == old(posted) + r.1
    {
      if env.login || u !in unicode {
        return;
      }
      var vk := unicode[u];
      if vk !in keymap || !env.created {
        return;
      }
      posted := posted + [CharEvent(keymap[vk], u, if up != 0 then false else true, Flags(modFlags, env.inherited))];
    }

    /** A button frame: which button, whether down, and the click count its event carries. */
    method ButtonAction(x: int, y: int, button: byte, flags: set<Flag>, now: real) returns (e: Event)
      requires IsButton(button)
      modifies this
      ensures Snapshot() == ButtonState(old(Snapshot()), button, now, x, y) && posted == old(posted)
      ensures e == ButtonEvent(x, y, if button == LEFTDOWN || button == LEFTUP then Left else Right,
                               button == LEFTDOWN || button == RIGHTDOWN, ClickState(Snapshot()), flags)
    {
      var isDown := false;
      var which := Left;
      if button == LEFTDOWN {
        isDown, btnLeftDown := true, true;
      } else if button == LEFTUP {
        btnLeftDown := false;
      } else if button == RIGHTDOWN {
        which, isDown, btnRightDown := Right, true, true;
      } else {
        which, btnRightDown := Right, false;
      }
      if isDown {
        var dx, dy := x - lastClickX, y - lastClickY;
        if clickCount > 0 && now - lastClickTime <= 0.5 && dx * dx + dy * dy <= 25 {
          clickCount := clickCount + 1;
          if clickCount > 3 {
            clickCount := 1;
          }
        } else {
          clickCount := 1;
        }
        lastClickTime, lastClickX, lastClickY := now, x, y;
      }
      e := ButtonEvent(x, y, which, isDown, if clickCount > 0 then clickCount else 1, flags);
    }

    method MouseAction(px: int, py: int, button: byte, wheel: int, env: Env)
      modifies this
      ensures var r := PointerStep(old(Snapshot()), px, py, button, wheel, env);
              Snapshot() == r.0 && posted == old(posted) + r.1
    {
      if env.login {
        return;
      }
      var x, y := px + env.originX, py + env.originY;
      var flags := Flags(modFlags, env.inherited);
      var e;
      if wheel != 0 {
        e := ScrollEvent(ScrollPixels(wheel), flags);
      } else if button == 0 {
        var drag := if btnLeftDown then LeftDrag else if btnRightDown then RightDrag else NoDrag;
        var click := if drag == NoDrag then 0 else if clickCount > 0 then clickCount else 1;
        e := MoveEvent(x, y, drag, click, flags);
      } else if IsButton(button) {
        e := ButtonAction(x, y, button, flags, env.now);
      } else {
        return;
      }
      if env.created {
        posted := posted + [e];
      }
    }

    method ResetModifiers()
      modifies this`modFlags, this`posted
      ensures var r := Step(KeyTables(), old(Snapshot()), Reset);
              Snapshot() == r.0 && posted == old(posted) + r.1
    {
      modFlags := {};
      var i := 0;
      while i < MODIFIER_KEYS
        invariant 0 <= i <= MODIFIER_KEYS
        invariant posted == old(posted) + Releases(i) && modFlags == {}
      {
        posted := posted + [ReleaseEvent(i)];
        i := i + 1;
      }
    }
  }
}
