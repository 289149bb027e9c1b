/** What part of the desktop is captured, at which scale, and where a pixel of the image lies on it. */
module Geometry {
  import opened InputStream
  import opened Displays

  datatype Rect = Rect(x: int, y: int, w: int, h: int)

  function Bounds(d: Display): Rect {
    Rect(d.x, d.y, d.w, d.h)
  }

  function Min(a: int, b: int): int {
    if a < b then a else b
  }

  function Max(a: int, b: int): int {
    if a > b then a else b
  }

  predicate Inside(a: Rect, b: Rect) {
    b.x <= a.x && b.y <= a.y && a.x + a.w <= b.x + b.w && a.y + a.h <= b.y + b.h
  }

  predicate Disjoint(a: Rect, b: Rect) {
    a.x + a.w <= b.x || b.x + b.w <= a.x || a.y + a.h <= b.y || b.y + b.h <= a.y
  }

  predicate Contains(r: Rect, px: int, py: int) {
    r.x <= px < r.x + r.w && r.y <= py < r.y + r.h
  }

  function Union(a: Rect, b: Rect): Rect {
    var x, y := Min(a.x, b.x), Min(a.y, b.y);
    Rect(x, y, Max(a.x + a.w, b.x + b.w) - x, Max(a.y + a.h, b.y + b.h) - y)
  }

  /** The union of the displays' bounds, taken in list order. */
  function UnionOf(list: seq<Display>): Rect
    requires list != []
    decreases |list|
  {
    var n := |list| - 1;
    if n == 0 then Bounds(list[0]) else Union(UnionOf(list[..n]), Bounds(list[n]))
  }

  /** The ratio of a display's pixels to its points. */
  function DisplayScale(d: Display): Scale {
    if d.pointWidth > 0 && d.pixelWidth >= d.pointWidth then
      DivPositive(d.pixelWidth, d.pointWidth);
      d.pixelWidth / d.pointWidth
    else 1
  }

  lemma DivPositive(a: int, b: int)
    requires a >= b > 0
    ensures a / b >= 1
  {
  }

  function MaxScale(list: seq<Display>): Scale
    decreases |list|
  {
    var n := |list| - 1;
    if list == [] then 1 else Max(MaxScale(list[..n]), DisplayScale(list[n]))
  }

  function SelectedDisplay(sc: Screens, main: Display): Display {
    if 1 <= sc.sel <= |sc.list| then sc.list[sc.sel - 1] else main
  }

  /** All displays as one image: never at the login window, where the agent runs as root. */
  predicate Combined(sc: Screens, uid: nat) {
    sc.sel == 0 && uid != 0
  }

  function SelectedBounds(sc: Screens, main: Display, uid: nat): Rect {
    if !Combined(sc, uid) then Bounds(SelectedDisplay(sc, main))
    else if sc.list == [] then Bounds(main)
    else UnionOf(sc.list)
  }

  function SelectedScale(sc: Screens, main: Display, uid: nat): Scale {
    if !Combined(sc, uid) then DisplayScale(SelectedDisplay(sc, main)) else MaxScale(sc.list)
  }

  /** The frame the viewer sees: display, size in pixels, scale, and the origin mouse positions are relative to. */
  datatype Frame = Frame(num: nat, width: int, height: int, scale: int, originX: int, originY: int)

  function Target(sc: Screens, main: Display, uid: nat): Frame {
    var b, s := SelectedBounds(sc, main, uid), SelectedScale(sc, main, uid);
    Frame(SelectedDisplay(sc, main).id, b.w * s, b.h * s, s, b.x, b.y)
  }

  /** The main loop's test; it does not look at the scale or the origin. */
  predicate ReinitFires(f: Frame, target: Frame) {
    f.height != target.height || f.width != target.width || f.num != target.num
  }

  // ---- A change of selection is never missed ---------------------------------------------

  ghost predicate Layout(list: seq<Display>, main: Display) {
    && list != []
    && (forall i :: 0 <= i < |list| ==> list[i].w > 0 && list[i].h > 0)
    && (forall i, j :: 0 <= i < j < |list| ==> Disjoint(Bounds(list[i]), Bounds(list[j])) && list[i].id != list[j].id)
    && (forall i :: 0 <= i < |list| && list[i].id == main.id ==> list[i] == main)
  }

  lemma {:induction false} UnionCovers(list: seq<Display>, i: nat)
    requires i < |list|
    ensures Inside(Bounds(list[i]), UnionOf(list))
    decreases |list|
  {
    var n := |list| - 1;
    if i < n {
      UnionCovers(list[..n], i);
    }
  }

  lemma {:induction false} MaxScaleCovers(list: seq<Display>, i: nat)
    requires i < |list|
    ensures DisplayScale(list[i]) <= MaxScale(list)
    decreases |list|
  {
    var n := |list| - 1;
    if i < n {
      MaxScaleCovers(list[..n], i);
    }
  }

  /** The scale is the whole number of pixels that fit each point, 1 where the mode says nothing sensible. */
  lemma ScaleIsRatio(d: Display)
    ensures var s := DisplayScale(d);
            if 0 < d.pointWidth <= d.pixelWidth then s * d.pointWidth <= d.pixelWidth < (s + 1) * d.pointWidth
            else s == 1
  {
    if d.pointWidth > 0 {
      DivBounds(d.pixelWidth, d.pointWidth);
    }
  }

  lemma DivBounds(a: int, b: int)
    requires b > 0
    ensures a / b * b <= a < (a / b + 1) * b
  {
  }

  /** The largest scale is some display's, or the 1 it starts from. */
  lemma {:induction false} MaxScaleIsSome(list: seq<Display>)
    ensures MaxScale(list) == 1 || exists i :: 0 <= i < |list| && DisplayScale(list[i]) == MaxScale(list)
    decreases |list|
  {
    if list != [] {
      var n := |list| - 1;
      MaxScaleIsSome(list[..n]);
      if MaxScale(list) != 1 && MaxScale(list) != DisplayScale(list[n]) {
        var i :| 0 <= i < n && DisplayScale(list[..n][i]) == MaxScale(list[..n]);
        assert list[i] == list[..n][i];
      }
    }
  }

  /** The union is the least rectangle that covers every display. */
  lemma {:induction false} UnionIsLeast(list: seq<Display>, r: Rect)
    requires list != [] && forall i :: 0 <= i < |list| ==> Inside(Bounds(list[i]), r)
    ensures Inside(UnionOf(list), r)
    decreases |list|
  {
    var n := |list| - 1;
    if n > 0 {
      UnionIsLeast(list[..n], r);
    }
    assert Inside(Bounds(list[n]), r);
  }

  /**
   What each selection captures: a position of the list that display; all of them, outside the login window, their
   union at the largest scale; anything else the main one.
   */
  lemma FrameOfSelection(sc: Screens, main: Display, uid: nat)
    requires sc.list != []
    ensures var f := Target(sc, main, uid);
            var d := if 1 <= sc.sel <= |sc.list| then sc.list[sc.sel - 1] else main;
            && f.num == d.id
            && if sc.sel == 0 && uid != 0 then
                 var u, s := UnionOf(sc.list), MaxScale(sc.list);
                 f.originX == u.x && f.originY == u.y && f.scale == s && f.width == u.w * s && f.height == u.h * s
               else
                 var s := DisplayScale(d);
                 f.originX == d.x && f.originY == d.y && f.scale == s && f.width == d.w * s && f.height == d.h * s
  {
  }

  lemma SmallerProduct(a: int, b: int, s: int, t: int)
    requires 0 < a <= b && 1 <= s <= t && a * s == b * t
    ensures a == b && s == t
  {
    MulMonotone(a, s, t);
    MulMonotone(t, a, b);
    if a < b {
      MulStrict(a, b, t);
    } else if s < t {
      MulStrict(s, t, a);
    }
  }

  lemma MulMonotone(a: int, s: int, t: int)
    requires a >= 0 && s <= t
    ensures a * s <= a * t
  {
  }

  lemma MulStrict(a: int, b: int, t: int)
    requires a < b && t > 0
    ensures a * t < b * t
  {
  }

  /** With two or more displays, the frame of all of them is larger than that of any one of them. */
  lemma CombinedIsLarger(list: seq<Display>, main: Display, i: nat)
    requires Layout(list, main) && i < |list| && |list| >= 2
    ensures var u, s, d := UnionOf(list), MaxScale(list), list[i];
            u.w * s != d.w * DisplayScale(d) || u.h * s != d.h * DisplayScale(d)
  {
    var j := if i == 0 then 1 else 0;
    var u, s, d := UnionOf(list), MaxScale(list), list[i];
    UnionCovers(list, i);
    UnionCovers(list, j);
    MaxScaleCovers(list, i);
    assert Disjoint(Bounds(list[i]), Bounds(list[j]));
    if u.w * s == d.w * DisplayScale(d) && u.h * s == d.h * DisplayScale(d) {
      SmallerProduct(d.w, u.w, DisplayScale(d), s);
      SmallerProduct(d.h, u.h, DisplayScale(d), s);
    }
  }

  /** For any two selections of a layout, the test fires exactly when the frames differ, in any component. */
  lemma SelectionChangeNeverMissed(list: seq<Display>, main: Display, uid: nat, a: nat, b: nat)
    requires Layout(list, main) && a <= |list| && b <= |list|
    ensures var f, g := Target(Screens(list, a), main, uid), Target(Screens(list, b), main, uid);
            ReinitFires(f, g) <==> f != g
  {
    SilentMeansSame(list, main, uid, a, b);
  }

  lemma SilentMeansSame(list: seq<Display>, main: Display, uid: nat, a: nat, b: nat)
    requires Layout(list, main) && a <= |list| && b <= |list|
    ensures var f, g := Target(Screens(list, a), main, uid), Target(Screens(list, b), main, uid);
            !ReinitFires(f, g) ==> f == g
    decreases if a == 0 then 0 else 1
  {
    if a == b {
    } else if b == 0 {
      SilentMeansSame(list, main, uid, b, a);
    } else if a == 0 {
      var d := list[b - 1];
      if d.id == main.id && uid != 0 {
        if |list| >= 2 {
          CombinedIsLarger(list, main, b - 1);
        } else {
          assert list[..0] == [];
          assert MaxScale(list) == Max(MaxScale(list[..0]), DisplayScale(list[0]));
        }
      }
    } else {
      assert list[a - 1].id != list[b - 1].id;
    }
  }

  lemma {:induction false} UnionPositive(list: seq<Display>)
    requires list != [] && forall i :: 0 <= i < |list| ==> list[i].w > 0 && list[i].h > 0
    ensures UnionOf(list).w > 0 && UnionOf(list).h > 0
  {
    UnionCovers(list, 0);
  }

  /** A frame that was zeroed, as on every takeover, always fires the test; and no real frame is empty. */
  lemma ZeroedFrameFires(list: seq<Display>, main: Display, uid: nat, sel: nat, f: Frame)
    requires Layout(list, main) && sel <= |list| && main.w > 0 && main.h > 0
    requires f.width == 0 && f.height == 0
    ensures var g := Target(Screens(list, sel), main, uid);
            g.width > 0 && g.height > 0 && g.scale >= 1 && ReinitFires(f, g)
  {
    var sc := Screens(list, sel);
    UnionPositive(list);
    var b, s := SelectedBounds(sc, main, uid), SelectedScale(sc, main, uid);
    MulStrict(0, b.w, s);
    MulStrict(0, b.h, s);
  }

  // ---- A change of layout can be missed --------------------------------------------------------

  /** A silent test leaves the frame right if and only if neither the scale nor the origin has changed with it. */
  lemma SilentIsRightIff(f: Frame, target: Frame)
    requires !ReinitFires(f, target)
    ensures f == target <==> f.scale == target.scale && f.originX == target.originX && f.originY == target.originY
  {
  }

  /** The selected display was moved: same display, same size, same scale. */
  predicate Moved(a: Display, b: Display) {
    a.id == b.id && a.w == b.w && a.h == b.h && DisplayScale(a) == DisplayScale(b)
  }

  /** Moving the one display shown never fires the test, so the frame stays right only if it was not moved at all. */
  lemma MoveIsMissed(before: Screens, was: Display, after: Screens, main: Display, uid: nat)
    requires !Combined(before, uid) && !Combined(after, uid)
    requires Moved(SelectedDisplay(before, was), SelectedDisplay(after, main))
    ensures var f, g := Target(before, was, uid), Target(after, main, uid);
            var a, b := SelectedDisplay(before, was), SelectedDisplay(after, main);
            && !ReinitFires(f, g)
            && (f == g <==> a.x == b.x && a.y == b.y)
  {
  }

  // ---- The composite image and the mouse ------------------------------------------------------

  /** Where a display is drawn: a bitmap's rows count from the bottom. */
  function Destination(d: Display, u: Rect, s: Scale): Rect {
    Rect((d.x - u.x) * s, (u.y + u.h - (d.y + d.h)) * s, d.w * s, d.h * s)
  }

  /** The image the viewer gets: rows count from the top. */
  function ImageSize(u: Rect, s: Scale): Rect {
    Rect(0, 0, u.w * s, u.h * s)
  }

  /**
   The bitmap cell at column `c`, row `r` from the bottom, shows the global point (px, py): the display that
   has it was drawn there, each of its points spread over `s` columns and rows, its top row uppermost.
   */
  predicate Shows(d: Display, u: Rect, s: Scale, c: int, r: int, px: int, py: int) {
    var dst := Destination(d, u, s);
    && Contains(Bounds(d), px, py)
    && dst.x + (px - d.x) * s <= c < dst.x + (px - d.x + 1) * s
    && dst.y + (d.h - 1 - (py - d.y)) * s <= r < dst.y + (d.h - (py - d.y)) * s
  }

  /** What the agent makes of a click on image pixel (x, y), y from the top: divide, then add the origin. */
  function MapX(x: int, u: Rect, s: Scale): int {
    x / s + u.x
  }

  function MapY(y: int, u: Rect, s: Scale): int {
    y / s + u.y
  }

  lemma ScaleOrder(a: int, b: int, s: Scale)
    requires a <= b
    ensures a * s <= b * s
  {
  }

  lemma DivOfCell(x: int, k: int, s: Scale)
    requires k * s <= x < (k + 1) * s
    ensures x / s == k
  {
    var q, r := x / s, x % s;
    assert x == q * s + r && 0 <= r < s;
    if q < k {
      ScaleOrder(q + 1, k, s);
    } else if q > k {
      ScaleOrder(k + 1, q, s);
    }
  }

  /** Every display is drawn inside the image. */
  lemma DestinationInside(list: seq<Display>, i: nat, s: Scale)
    requires i < |list|
    ensures Inside(Destination(list[i], UnionOf(list), s), ImageSize(UnionOf(list), s))
  {
    var d, u := list[i], UnionOf(list);
    UnionCovers(list, i);
    ScaleOrder(0, d.x - u.x, s);
    ScaleOrder(0, u.y + u.h - (d.y + d.h), s);
    ScaleOrder(d.x - u.x + d.w, u.w, s);
    ScaleOrder(u.y + u.h - d.y, u.h, s);
    assert (d.x - u.x) * s + d.w * s == (d.x - u.x + d.w) * s;
    assert (u.y + u.h - (d.y + d.h)) * s + d.h * s == (u.y + u.h - d.y) * s;
  }

  /** Displays that do not overlap are drawn where they do not overlap. */
  lemma DestinationsDisjoint(a: Display, b: Display, u: Rect, s: Scale)
    requires Disjoint(Bounds(a), Bounds(b))
    ensures Disjoint(Destination(a, u, s), Destination(b, u, s))
  {
    if a.x + a.w <= b.x {
      ScaleOrder(a.x - u.x + a.w, b.x - u.x, s);
      assert (a.x - u.x) * s + a.w * s == (a.x - u.x + a.w) * s;
    } else if b.x + b.w <= a.x {
      ScaleOrder(b.x - u.x + b.w, a.x - u.x, s);
      assert (b.x - u.x) * s + b.w * s == (b.x - u.x + b.w) * s;
    } else if a.y + a.h <= b.y {
      DestinationAbove(a, b, u, s);
    } else {
      DestinationAbove(b, a, u, s);
    }
  }

  lemma DestinationAbove(a: Display, b: Display, u: Rect, s: Scale)
    requires a.y + a.h <= b.y
    ensures Destination(b, u, s).y + Destination(b, u, s).h <= Destination(a, u, s).y
  {
    ScaleOrder(u.y + u.h - b.y, u.y + u.h - (a.y + a.h), s);
    assert (u.y + u.h - (b.y + b.h)) * s + b.h * s == (u.y + u.h - b.y) * s;
  }

  /** The rows and columns of the cell that shows a point, counted from the union's corner. */
  lemma CellOfPoint(d: Display, u: Rect, s: Scale, c: int, r: int, px: int, py: int)
    requires Contains(Bounds(d), px, py)
    ensures Shows(d, u, s, c, r, px, py) <==>
            && (px - u.x) * s <= c < (px - u.x + 1) * s
            && (u.y + u.h - 1 - py) * s <= r < (u.y + u.h - py) * s
  {
    assert (d.x - u.x) * s + (px - d.x) * s == (px - u.x) * s;
    assert (d.x - u.x) * s + (px - d.x + 1) * s == (px - u.x + 1) * s;
    var base := u.y + u.h - (d.y + d.h);
    assert base * s + (d.h - 1 - (py - d.y)) * s == (u.y + u.h - 1 - py) * s;
    assert base * s + (d.h - (py - d.y)) * s == (u.y + u.h - py) * s;
  }

  /** The row from the top of a bitmap row. */
  function FlipRow(r: int, u: Rect, s: Scale): int {
    u.h * s - 1 - r
  }

  /** A click on any pixel that shows a point comes back as exactly that point. */
  lemma MouseUndoesComposite(d: Display, u: Rect, s: Scale, c: int, r: int, px: int, py: int)
    requires Shows(d, u, s, c, r, px, py)
    ensures MapX(c, u, s) == px && MapY(FlipRow(r, u, s), u, s) == py
  {
    CellOfPoint(d, u, s, c, r, px, py);
    DivOfCell(c, px - u.x, s);
    assert u.h * s - (u.y + u.h - py) * s == (py - u.y) * s;
    assert u.h * s - (u.y + u.h - 1 - py) * s == (py - u.y + 1) * s;
    DivOfCell(FlipRow(r, u, s), py - u.y, s);
  }

  lemma CellOfDiv(x: int, s: Scale)
    ensures x / s * s <= x < (x / s + 1) * s
  {
  }

  lemma ColumnOfDisplay(d: Display, u: Rect, s: Scale, c: int)
    requires Destination(d, u, s).x <= c < Destination(d, u, s).x + Destination(d, u, s).w
    ensures d.x <= MapX(c, u, s) < d.x + d.w
  {
    assert (d.x - u.x) * s + d.w * s == (d.x - u.x + d.w) * s;
    Bracket(c, d.x - u.x, d.x - u.x + d.w, s);
  }

  lemma RowOfDisplay(d: Display, u: Rect, s: Scale, r: int)
    requires Destination(d, u, s).y <= r < Destination(d, u, s).y + Destination(d, u, s).h
    ensures d.y <= MapY(FlipRow(r, u, s), u, s) < d.y + d.h
  {
    assert (u.y + u.h - (d.y + d.h)) * s + d.h * s == (u.y + u.h - d.y) * s;
    assert u.h * s - (u.y + u.h - d.y) * s == (d.y - u.y) * s;
    assert u.h * s - (u.y + u.h - (d.y + d.h)) * s == (d.y + d.h - u.y) * s;
    Bracket(FlipRow(r, u, s), d.y - u.y, d.y + d.h - u.y, s);
  }

  lemma RowOfPoint(u: Rect, s: Scale, r: int)
    ensures var py := MapY(FlipRow(r, u, s), u, s);
            (u.y + u.h - 1 - py) * s <= r < (u.y + u.h - py) * s
  {
    var y := FlipRow(r, u, s);
    var py := MapY(y, u, s);
    CellOfDiv(y, s);
    assert u.h * s - (py - u.y) * s == (u.y + u.h - py) * s;
    assert u.h * s - (py - u.y + 1) * s == (u.y + u.h - 1 - py) * s;
  }

  /** Conversely, a pixel of a display's rectangle shows the point of that display a click there comes back as. */
  lemma CompositeUndoesMouse(d: Display, u: Rect, s: Scale, c: int, r: int)
    requires Contains(Destination(d, u, s), c, r)
    ensures Shows(d, u, s, c, r, MapX(c, u, s), MapY(FlipRow(r, u, s), u, s))
  {
    ColumnOfDisplay(d, u, s, c);
    RowOfDisplay(d, u, s, r);
    RowOfPoint(u, s, r);
    CellOfDiv(c, s);
    CellOfPoint(d, u, s, c, r, MapX(c, u, s), MapY(FlipRow(r, u, s), u, s));
  }

  lemma Bracket(x: int, lo: int, hi: int, s: Scale)
    requires lo * s <= x < hi * s
    ensures lo <= x / s < hi
  {
    CellOfDiv(x, s);
    if x / s < lo {
      ScaleOrder(x / s + 1, lo, s);
    } else if x / s >= hi {
      ScaleOrder(hi, x / s, s);
    }
  }
}
