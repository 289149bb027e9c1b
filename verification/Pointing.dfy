/**
 A click, from the viewer's image to the desktop: the encoder, the input handler, the injector and the
 frame's geometry together.
 */
module Pointing {
  import opened Bytes
  import opened InputStream
  import Harness
  import opened Displays
  import opened Geometry
  import Injection

  /** A move or a button in session is one event, anything else none, and the event is at (x, y). */
  predicate LandsAt(es: seq<Injection.Event>, button: byte, env: Injection.Env, x: int, y: int) {
    && |es| == (if !env.login && env.created && (button == 0 || Injection.IsButton(button)) then 1 else 0)
    && forall k :: 0 <= k < |es| ==>
      && (es[k].MoveEvent? || es[k].ButtonEvent?)
      && (es[k].MoveEvent? ==> es[k].x == x && es[k].y == y)
      && (es[k].ButtonEvent? ==> es[k].x == x && es[k].y == y)
  }

  /** The mouse positions of an agent whose frame is `f`. */
  predicate FollowsFrame(env: Injection.Env, f: Frame) {
    env.originX == f.originX && env.originY == f.originY
  }

  /** The events of a pointer action; there is no other action a mouse frame could be. */
  function EventsOf(st: Injection.State, a: Action, env: Injection.Env): seq<Injection.Event> {
    if a.Pointer? then Injection.PointerStep(st, a.x, a.y, a.button, a.wheel, env).1 else []
  }

  /** What the agent injects for one mouse frame of the encoder, at the frame's scale. */
  function Injected(st: Injection.State, x: int, y: int, button: byte, f: Frame, env: Injection.Env)
    : seq<Injection.Event>
    requires f.scale >= 1
  {
    EventsOf(st, Interpret(Harness.FrameCall(Harness.Mouse(x, y, button)), f.scale), env)
  }

  lemma ActionAt(x: word, y: word, button: byte, scale: Scale)
    ensures Interpret(Harness.FrameCall(Harness.Mouse(x, y, button)), scale) == Pointer(x / scale, y / scale, button, 0)
  {
    Harness.CallInterprets(Harness.Mouse(x, y, button), scale);
  }

  lemma EventsLandAt(st: Injection.State, px: int, py: int, button: byte, env: Injection.Env)
    ensures LandsAt(EventsOf(st, Pointer(px, py, button, 0), env), button, env, px + env.originX, py + env.originY)
  {
  }

  /** The event is at the quotient plus the origin. */
  lemma InjectedAt(st: Injection.State, x: word, y: word, button: byte, f: Frame, env: Injection.Env)
    requires f.scale >= 1 && FollowsFrame(env, f)
    ensures LandsAt(Injected(st, x, y, button, f, env), button, env, x / f.scale + f.originX, y / f.scale + f.originY)
  {
    ActionAt(x, y, button, f.scale);
    EventsLandAt(st, x / f.scale, y / f.scale, button, env);
  }

  /**
   With all displays shown as one image: a move or click on any pixel that shows a point of the desktop is
   injected at exactly that point, whichever display it is on and whatever their scales, as long as the image
   is no larger than 16-bit coordinates can say.
   */
  lemma ClickLandsWhereShown(sc: Screens, main: Display, uid: nat, i: nat, column: int, row: int, px: int, py: int,
      st: Injection.State, button: byte, env: Injection.Env)
    requires Combined(sc, uid) && i < |sc.list|
    requires var f := Target(sc, main, uid); FollowsFrame(env, f) && f.width <= 0x1_0000 && f.height <= 0x1_0000
    requires var u, s := UnionOf(sc.list), MaxScale(sc.list);
             Shows(sc.list[i], u, s, column, FlipRow(row, u, s), px, py)
    ensures var f := Target(sc, main, uid);
            && 0 <= column < f.width && 0 <= row < f.height
            && LandsAt(Injected(st, column, row, button, f, env), button, env, px, py)
  {
    var u, s, d, f := UnionOf(sc.list), MaxScale(sc.list), sc.list[i], Target(sc, main, uid);
    var r := FlipRow(row, u, s);
    ShownInImage(sc.list, i, s, column, r, px, py);
    MouseUndoesComposite(d, u, s, column, r, px, py);
    InjectedAt(st, column, row, button, f, env);
  }

  /** A pixel that shows something is a pixel of the image. */
  lemma ShownInImage(list: seq<Display>, i: nat, s: Scale, c: int, r: int, px: int, py: int)
    requires i < |list| && Shows(list[i], UnionOf(list), s, c, r, px, py)
    ensures var u := UnionOf(list); 0 <= c < u.w * s && 0 <= r < u.h * s
  {
    var d, u := list[i], UnionOf(list);
    UnionCovers(list, i);
    CellOfPoint(d, u, s, c, r, px, py);
    ScaleOrder(0, px - u.x, s);
    ScaleOrder(px - u.x + 1, u.w, s);
    ScaleOrder(0, u.y + u.h - 1 - py, s);
    ScaleOrder(u.y + u.h - py, u.h, s);
  }

  /**
   With one display shown, each of its points is spread over `scale` columns and rows, and a click on any of them
   is injected there.
   */
  lemma ClickOnOneDisplay(sc: Screens, main: Display, uid: nat, column: int, row: int, px: int, py: int,
      st: Injection.State, button: byte, env: Injection.Env)
    requires !Combined(sc, uid)
    requires var f, d := Target(sc, main, uid), SelectedDisplay(sc, main);
             && FollowsFrame(env, f) && f.width <= 0x1_0000 && f.height <= 0x1_0000
             && Contains(Bounds(d), px, py)
             && (px - d.x) * f.scale <= column < (px - d.x + 1) * f.scale
             && (py - d.y) * f.scale <= row < (py - d.y + 1) * f.scale
    ensures var f := Target(sc, main, uid); LandsAt(Injected(st, column, row, button, f, env), button, env, px, py)
  {
    var f, d := Target(sc, main, uid), SelectedDisplay(sc, main);
    DivOfCell(column, px - d.x, f.scale);
    DivOfCell(row, py - d.y, f.scale);
    ScaleOrder(0, px - d.x, f.scale);
    ScaleOrder(px - d.x + 1, d.w, f.scale);
    ScaleOrder(0, py - d.y, f.scale);
    ScaleOrder(py - d.y + 1, d.h, f.scale);
    InjectedAt(st, column, row, button, f, env);
  }

  /**
   The one display shown was moved and the frame was not taken again: a click on a pixel is injected where the point it
   shows would have been before the move.
   */
  lemma ClickAfterMove(before: Screens, was: Display, after: Screens, main: Display, uid: nat,
      column: int, row: int, px: int, py: int, st: Injection.State, button: byte, env: Injection.Env)
    requires !Combined(before, uid) && !Combined(after, uid)
    requires Moved(SelectedDisplay(before, was), SelectedDisplay(after, main))
    requires var f, d := Target(before, was, uid), SelectedDisplay(after, main);
             && FollowsFrame(env, f) && f.width <= 0x1_0000 && f.height <= 0x1_0000
             && Contains(Bounds(d), px, py)
             && (px - d.x) * f.scale <= column < (px - d.x + 1) * f.scale
             && (py - d.y) * f.scale <= row < (py - d.y + 1) * f.scale
    ensures var f, a, b := Target(before, was, uid), SelectedDisplay(before, was), SelectedDisplay(after, main);
            && !ReinitFires(f, Target(after, main, uid))
            && LandsAt(Injected(st, column, row, button, f, env), button, env, px + (a.x - b.x), py + (a.y - b.y))
  {
    var a, b := SelectedDisplay(before, was), SelectedDisplay(after, main);
    MoveIsMissed(before, was, after, main, uid);
    var qx, qy := px + (a.x - b.x), py + (a.y - b.y);
    assert qx - a.x == px - b.x && qy - a.y == py - b.y;
    ClickOnOneDisplay(before, was, uid, column, row, qx, qy, st, button, env);
  }
}
