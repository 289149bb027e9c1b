/** The capture globals: frame size, scale and origin, kept in step with the selection. */
module Capture {
  import opened InputStream
  import opened Displays
  import opened Geometry
  import DisplayState

  // ---- The scale cache -------------------------------------------------------------------

  /** The last display asked about, and the answer; 0 is no display. */
  datatype Cache = Cache(id: nat, scale: Scale)

  const EMPTY: Cache := Cache(0, 1)

  function Lookup(c: Cache, d: Display): Cache {
    if d.id == c.id then c else Cache(d.id, DisplayScale(d))
  }

  /** The cache after a history of questions, each about a display as it was at that moment. */
  function LookupAll(c: Cache, history: seq<Display>): Cache
    decreases |history|
  {
    var n := |history| - 1;
    if history == [] then c else Lookup(LookupAll(c, history[..n]), history[n])
  }

  /** Where the current run of questions about one display began. */
  function RunStart(history: seq<Display>): nat
    requires history != []
    ensures RunStart(history) < |history|
    decreases |history|
  {
    var n := |history| - 1;
    if n > 0 && history[n - 1].id == history[n].id then RunStart(history[..n]) else n
  }

  /** The answer is the scale the display had when the current run of questions about it began. */
  lemma {:induction false} AnswerIsFromRunStart(history: seq<Display>)
    requires history != [] && forall d :: d in history ==> d.id != 0
    ensures var n := |history| - 1;
            LookupAll(EMPTY, history) == Cache(history[n].id, DisplayScale(history[RunStart(history)]))
    decreases |history|
  {
    var n := |history| - 1;
    if n > 0 {
      forall d | d in history[..n] ensures d in history {
      }
      AnswerIsFromRunStart(history[..n]);
    }
  }

  /** So the answer is right exactly when the display's scale is what it was then. */
  lemma AnswerIsRightIff(history: seq<Display>)
    requires history != [] && forall d :: d in history ==> d.id != 0
    ensures var n := |history| - 1;
            LookupAll(EMPTY, history).scale == DisplayScale(history[n]) <==>
            DisplayScale(history[RunStart(history)]) == DisplayScale(history[n])
  {
    AnswerIsFromRunStart(history);
  }

  /** A mode change between two questions about the only display in use goes unnoticed. */
  lemma StaleAnswer()
    ensures var before := Display(7, true, false, 0, 0, 1440, 900, 1440, 1440);
            var after := before.(pixelWidth := 2880);
            LookupAll(EMPTY, [before, after]).scale == 1 && DisplayScale(after) == 2
  {
    var before := Display(7, true, false, 0, 0, 1440, 900, 1440, 1440);
    var after := before.(pixelWidth := 2880);
    assert [before, after][..1] == [before] && [before][..0] == [];
    assert LookupAll(EMPTY, [before]) == Lookup(LookupAll(EMPTY, []), before);
    assert LookupAll(EMPTY, [before, after]) == Lookup(LookupAll(EMPTY, [before]), after);
  }

  // ---- What the capture code is told -------------------------------------------------------

  /** A display that has gone has empty bounds and no mode. */
  function Gone(id: nat): Display {
    Display(id, false, false, 0, 0, 0, 0, 0, 0)
  }

  function Find(list: seq<Display>, id: nat): Display {
    if list == [] then Gone(id) else if list[0].id == id then list[0] else Find(list[1..], id)
  }

  /** The displays there are. */
  function All(os: Os): seq<Display> {
    os.active + [os.main]
  }

  /** The list holds display ids: bounds and modes are those of the moment they are asked for. */
  function Now(sc: Screens, os: Os): Screens {
    Screens(seq(|sc.list|, i requires 0 <= i < |sc.list| => Find(All(os), sc.list[i].id)), sc.sel)
  }

  /** An answer, and the cache after it. */
  datatype Asked = Asked(scale: Scale, cache: Cache)

  function AskOne(c: Cache, d: Display): Asked {
    Asked(Lookup(c, d).scale, Lookup(c, d))
  }

  /** The largest of the answers about some displays, asked in turn. */
  function AskAll(c: Cache, list: seq<Display>): Asked
    decreases |list|
  {
    var n := |list| - 1;
    if list == [] then Asked(1, c)
    else
      var r := AskAll(c, list[..n]);
      var k := Lookup(r.cache, list[n]);
      Asked(Max(r.scale, k.scale), k)
  }

  function AskSelection(c: Cache, sc: Screens, main: Display, uid: nat): Asked {
    if Combined(sc, uid) then AskAll(c, sc.list) else AskOne(c, SelectedDisplay(sc, main))
  }

  /** The frame as the cache makes it out. */
  function Answered(c: Cache, sc: Screens, main: Display, uid: nat): Geometry.Frame {
    var b, s := SelectedBounds(sc, main, uid), AskSelection(c, sc, main, uid).scale;
    Geometry.Frame(SelectedDisplay(sc, main).id, b.w * s, b.h * s, s, b.x, b.y)
  }

  // ---- When it is the truth ------------------------------------------------------------------

  /** What is cached is true of every one of these displays, and ids name displays. */
  ghost predicate CacheTrue(c: Cache, all: seq<Display>) {
    && (forall d :: d in all ==> d.id != 0 && (d.id == c.id ==> DisplayScale(d) == c.scale))
    && (forall d, e :: d in all && e in all && d.id == e.id ==> d == e)
  }

  lemma OneTrueAnswer(c: Cache, all: seq<Display>, d: Display)
    requires CacheTrue(c, all) && d in all
    ensures AskOne(c, d).scale == DisplayScale(d) && CacheTrue(AskOne(c, d).cache, all)
  {
  }

  lemma {:induction false} TrueAnswers(c: Cache, all: seq<Display>, list: seq<Display>)
    requires CacheTrue(c, all) && forall d :: d in list ==> d in all
    ensures AskAll(c, list).scale == MaxScale(list) && CacheTrue(AskAll(c, list).cache, all)
    decreases |list|
  {
    if list != [] {
      var n := |list| - 1;
      assert list[n] in list && forall d :: d in list[..n] ==> d in list;
      TrueAnswers(c, all, list[..n]);
      OneTrueAnswer(AskAll(c, list[..n]).cache, all, list[n]);
    }
  }

  /** With a cache that is true of the displays asked about the frame is the selection's, and the cache stays true. */
  lemma TrueCacheTrueFrame(c: Cache, all: seq<Display>, sc: Screens, main: Display, uid: nat)
    requires CacheTrue(c, all) && main in all && forall d :: d in sc.list ==> d in all
    ensures Answered(c, sc, main, uid) == Target(sc, main, uid)
    ensures CacheTrue(AskSelection(c, sc, main, uid).cache, all)
  {
    if Combined(sc, uid) {
      TrueAnswers(c, all, sc.list);
    } else {
      OneTrueAnswer(c, all, SelectedDisplay(sc, main));
    }
  }

  /** No display is listed twice. */
  ghost predicate DistinctIds(list: seq<Display>) {
    forall i, j :: 0 <= i < j < |list| ==> list[i].id != list[j].id
  }

  lemma {:induction false} FirstAndOthers(list: seq<Display>)
    requires list != []
    ensures MaxScale(list) == Max(DisplayScale(list[0]), MaxScale(list[1..]))
    decreases |list|
  {
    var n := |list| - 1;
    if n == 0 {
      assert list[..0] == [] && list[1..] == [];
    } else {
      FirstAndOthers(list[..n]);
      assert list[..n][1..] == list[1..][..n - 1];
    }
  }

  /** Only the first question can be answered from an older round; the others are asked afresh. */
  lemma {:induction false} OneRound(c: Cache, list: seq<Display>)
    requires list != [] && DistinctIds(list)
    ensures var r := AskAll(c, list);
            && r.scale == Max(Lookup(c, list[0]).scale, MaxScale(list[1..]))
            && r.cache.id == list[|list| - 1].id
    decreases |list|
  {
    var n := |list| - 1;
    if n == 0 {
      assert list[..0] == [] && list[1..] == [];
    } else {
      OneRound(c, list[..n]);
      assert list[n - 1].id != list[n].id;
      assert list[..n][1..] == list[1..][..n - 1];
    }
  }

  /** The first display's cached scale makes no difference: it is another's, it is right, or a larger one hides it. */
  predicate Harmless(c: Cache, first: Display, others: int) {
    first.id != c.id || DisplayScale(first) == c.scale || (DisplayScale(first) <= others && c.scale <= others)
  }

  /** The frame is right exactly when its scale is. */
  lemma ScaleDecides(c: Cache, sc: Screens, main: Display, uid: nat)
    ensures Answered(c, sc, main, uid) == Target(sc, main, uid) <==>
            AskSelection(c, sc, main, uid).scale == SelectedScale(sc, main, uid)
  {
  }

  /**
   For any cache, any list and any selection: the frame made out is the selection's if and only if the display asked
   about first is not the cached one, or has the cached scale, or, with all shown, is outdone by the others either way.
   */
  lemma FrameIsRightIff(c: Cache, sc: Screens, main: Display, uid: nat)
    requires Combined(sc, uid) ==> DistinctIds(sc.list)
    ensures Answered(c, sc, main, uid) == Target(sc, main, uid) <==>
            if !Combined(sc, uid) then Harmless(c, SelectedDisplay(sc, main), 0)
            else sc.list == [] || Harmless(c, sc.list[0], MaxScale(sc.list[1..]))
  {
    ScaleDecides(c, sc, main, uid);
    if Combined(sc, uid) && sc.list != [] {
      OneRound(c, sc.list);
      FirstAndOthers(sc.list);
    }
  }

  /** The same displays are listed, whatever has become of them. */
  ghost predicate SameIds(a: seq<Display>, b: seq<Display>) {
    |a| == |b| && forall i :: 0 <= i < |a| ==> a[i].id == b[i].id
  }

  /**
   With two or more displays shown as one image a stale cache never lasts: whatever modes change between two rounds of
   questions, and whatever the cache was before the first, the second makes the frame out right.
   */
  lemma NextRoundIsRight(c: Cache, before: Screens, sc: Screens, main: Display, uid: nat)
    requires Combined(sc, uid) && |sc.list| >= 2 && DistinctIds(sc.list) && SameIds(before.list, sc.list)
    ensures Answered(AskAll(c, before.list).cache, sc, main, uid) == Target(sc, main, uid)
  {
    OneRound(c, before.list);
    FrameIsRightIff(AskAll(c, before.list).cache, sc, main, uid);
  }

  /** With one it can last for ever: if it was wrong, it stays so through any number of rounds. */
  lemma LoneDisplayStaysStale(c: Cache, d: Display)
    requires d.id == c.id && DisplayScale(d) != c.scale
    ensures AskAll(c, [d]) == Asked(c.scale, c)
  {
    assert [d][..0] == [];
  }

  lemma SortedAreFound(found: seq<Display>, d: Display)
    requires d in Sort(found)
    ensures d in found
  {
    SortOrdersAndPermutes(found);
    assert d in multiset(Sort(found));
  }

  lemma FoundAreActive(os: Os, d: Display)
    requires d in Unmirrored(Enumerated(os))
    ensures d in os.active
  {
    UnmirroredLength(Enumerated(os));
    assert d in Enumerated(os);
  }

  lemma MembersOfAll(os: Os, d: Display)
    ensures d in All(os) <==> d in os.active || d == os.main
  {
  }

  lemma ListedAreActive(os: Os)
    ensures forall d :: d in DisplayList(os) ==> d in All(os)
  {
    hide Sort, Unmirrored, Enumerated, All;
    var found := Unmirrored(Enumerated(os));
    forall d | d in DisplayList(os) ensures d in All(os) {
      MembersOfAll(os, d);
      if found != [] {
        SortedAreFound(found, d);
        FoundAreActive(os, d);
      }
    }
  }

  lemma {:induction false} FindKnown(list: seq<Display>, d: Display)
    requires d in list && forall e :: e in list && e.id == d.id ==> e == d
    ensures Find(list, d.id) == d
    decreases |list|
  {
    if list[0] != d {
      assert forall e :: e in list[1..] ==> e in list;
      FindKnown(list[1..], d);
    }
  }

  /** A list taken from the layout is what asking now would give. */
  lemma ListedAreNow(c: Cache, os: Os, sc: Screens)
    requires CacheTrue(c, All(os)) && sc.list == DisplayList(os)
    ensures Now(sc, os) == sc
  {
    ListedAreActive(os);
    forall i | 0 <= i < |sc.list| ensures Find(All(os), sc.list[i].id) == sc.list[i] {
      assert sc.list[i] in sc.list;
      FindKnown(All(os), sc.list[i]);
    }
  }

  // ---- One turn of the main loop --------------------------------------------------------------

  datatype Turned = Turned(fired: bool, frame: Geometry.Frame, screens: Screens, cache: Cache)

  /**
   The test against what is made out now; if it fires the displays are listed again and the frame is taken from
   them.
   */
  function AfterTurn(f: Geometry.Frame, c: Cache, sc: Screens, os: Os, uid: nat): Turned {
    var now := Now(sc, os);
    var k := AskSelection(c, now, os.main, uid).cache;
    if ReinitFires(f, Answered(c, now, os.main, uid)) then
      var next := Refreshed(sc, os);
      Turned(true, Answered(k, Now(next, os), os.main, uid), next, AskSelection(k, Now(next, os), os.main, uid).cache)
    else
      Turned(false, f, sc, k)
  }

  /** The frame is that of the list in use, as its displays are now. */
  predicate Right(r: Turned, os: Os, uid: nat) {
    r.frame == Target(Now(r.screens, os), os.main, uid)
  }

  /** A refreshed frame is right. */
  lemma RefreshedFrame(k: Cache, sc: Screens, os: Os, uid: nat)
    requires CacheTrue(k, All(os))
    ensures var next := Refreshed(sc, os);
            Now(next, os) == next && Answered(k, next, os.main, uid) == Target(next, os.main, uid)
  {
    ListedAreNow(k, os, Refreshed(sc, os));
    ListedAreActive(os);
    assert All(os)[|os.active|] == os.main;
    TrueCacheTrueFrame(k, All(os), Refreshed(sc, os), os.main, uid);
  }

  lemma TrueOfFewer(c: Cache, all: seq<Display>, more: seq<Display>)
    requires CacheTrue(c, all + more)
    ensures CacheTrue(c, all)
  {
    assert forall d :: d in all ==> d in all + more;
  }

  /**
   However the layout has changed since the frame was taken, listed displays gone included, with a cache true of what
   there is: one turn leaves the frame right if and only if its size or its display has changed too, or neither its
   scale nor its origin has.
   */
  lemma TurnIsRightIff(f: Geometry.Frame, c: Cache, sc: Screens, os: Os, uid: nat)
    requires CacheTrue(c, All(os) + Now(sc, os).list)
    ensures var g := Target(Now(sc, os), os.main, uid);
            Right(AfterTurn(f, c, sc, os, uid), os, uid) <==>
            ReinitFires(f, g) || (f.scale == g.scale && f.originX == g.originX && f.originY == g.originY)
  {
    var now := Now(sc, os);
    var all := All(os) + now.list;
    assert all[|os.active|] == os.main;
    TrueCacheTrueFrame(c, all, now, os.main, uid);
    if ReinitFires(f, Target(now, os.main, uid)) {
      var k := AskSelection(c, now, os.main, uid).cache;
      TrueOfFewer(k, All(os), now.list);
      RefreshedFrame(k, sc, os, uid);
    } else {
      SilentIsRightIff(f, Target(now, os.main, uid));
    }
  }

  lemma {:induction false} FindGone(list: seq<Display>, id: nat)
    requires forall d :: d in list ==> d.id != id
    ensures Find(list, id) == Gone(id)
    decreases |list|
  {
    if list != [] {
      assert list[0] in list && forall d :: d in list[1..] ==> d in list;
      FindGone(list[1..], id);
    }
  }

  /** The display shown has gone: the test fires on any frame that is not empty, and the frame is right again. */
  lemma GoneIsNoticed(f: Geometry.Frame, c: Cache, sc: Screens, os: Os, uid: nat)
    requires CacheTrue(c, All(os)) && !Combined(sc, uid) && 1 <= sc.sel <= |sc.list|
    requires forall d :: d in All(os) ==> d.id != sc.list[sc.sel - 1].id
    requires f.width != 0 || f.height != 0
    ensures var r := AfterTurn(f, c, sc, os, uid);
            r.fired && r.screens == Refreshed(sc, os) && r.frame == Target(r.screens, os.main, uid)
  {
    var id, now := sc.list[sc.sel - 1].id, Now(sc, os);
    FindGone(All(os), id);
    assert SelectedDisplay(now, os.main) == Gone(id);
    var k := AskSelection(c, now, os.main, uid).cache;
    assert k == Lookup(c, Gone(id));
    RefreshedFrame(k, sc, os, uid);
  }

  // ---- The globals -------------------------------------------------------------------------

  class State {
    const screens: DisplayState.State
    var num: nat
    var width: int
    var height: int
    var scale: int
    var originX: int
    var originY: int
    var cachedId: nat
    var cachedScale: Scale

    ghost predicate Valid()
      reads this, screens, screens.list
    {
      screens.Valid()
    }

    ghost function Frame(): Geometry.Frame
      reads this
    {
      Geometry.Frame(num, width, height, scale, originX, originY)
    }

    ghost function Cached(): Cache
      reads this
    {
      Cache(cachedId, cachedScale)
    }

    constructor (screens: DisplayState.State)
      requires screens.Valid()
      ensures Valid() && this.screens == screens && Cached() == EMPTY
      ensures Frame() == Geometry.Frame(0, 0, 0, 1, 0, 0)
    {
      this.screens := screens;
      num, width, height, scale, originX, originY := 0, 0, 0, 1, 0, 0;
      cachedId, cachedScale := 0, 1;
    }

    method AskScale(d: Display) returns (s: Scale)
      modifies this`cachedId, this`cachedScale
      ensures Cached() == Lookup(old(Cached()), d) && s == Cached().scale
    {
      if d.id == cachedId && cachedScale > 0 {
        return cachedScale;
      }
      s := 1;
      if d.pointWidth > 0 && d.pixelWidth >= d.pointWidth {
        DivPositive(d.pixelWidth, d.pointWidth);
        s := d.pixelWidth / d.pointWidth;
      }
      cachedId, cachedScale := d.id, s;
    }

    method Selected(os: Os) returns (d: Display)
      requires Valid()
      ensures d == SelectedDisplay(Now(screens.Screens(), os), os.main)
    {
      if 1 <= screens.sel <= screens.count {
        d := Find(All(os), screens.list[screens.sel - 1].id);
      } else {
        d := os.main;
      }
    }

    method AskBounds(os: Os, uid: nat) returns (b: Rect)
      requires Valid()
      ensures b == SelectedBounds(Now(screens.Screens(), os), os.main, uid)
    {
      var d := Selected(os);
      if screens.sel != 0 || uid == 0 {
        return Bounds(d);
      }
      if screens.count == 0 {
        return Bounds(os.main);
      }
      ghost var list := Now(screens.Screens(), os).list;
      b := Bounds(Find(All(os), screens.list[0].id));
      var i := 1;
      assert list[..1][0] == list[0];
      while i < screens.count
        invariant 1 <= i <= screens.count
        invariant b == UnionOf(list[..i])
      {
        assert list[..i + 1][..i] == list[..i];
        b := Union(b, Bounds(Find(All(os), screens.list[i].id)));
        i := i + 1;
      }
      assert list[..i] == list;
    }

    /** The loop over the listed displays. */
    method AskLargestScale(os: Os) returns (s: Scale)
      requires Valid()
      modifies this`cachedId, this`cachedScale
      ensures Asked(s, Cached()) == AskAll(old(Cached()), Now(screens.Screens(), os).list)
    {
      ghost var list, c := Now(screens.Screens(), os).list, Cached();
      s := 1;
      var i := 0;
      while i < screens.count
        invariant 0 <= i <= screens.count
        invariant Asked(s, Cached()) == AskAll(c, list[..i])
      {
        assert list[..i + 1][..i] == list[..i];
        var d := Find(All(os), screens.list[i].id);
        assert d == list[i];
        var t := AskScale(d);
        if t > s {
          s := t;
        }
        i := i + 1;
      }
      assert list[..i] == list;
    }

    method AskSelectedScale(os: Os, uid: nat) returns (s: Scale)
      requires Valid()
      modifies this`cachedId, this`cachedScale
      ensures Asked(s, Cached()) == AskSelection(old(Cached()), Now(screens.Screens(), os), os.main, uid)
    {
      if screens.sel != 0 || uid == 0 {
        var d := Selected(os);
        s := AskScale(d);
      } else {
        s := AskLargestScale(os);
      }
    }

    /** Takes the frame's geometry from the selection. */
    method TakeGeometry(os: Os, uid: nat)
      requires Valid()
      modifies this
      ensures Frame() == Answered(old(Cached()), Now(screens.Screens(), os), os.main, uid)
      ensures Cached() == AskSelection(old(Cached()), Now(screens.Screens(), os), os.main, uid).cache
    {
      var d := Selected(os);
      num := d.id;
      var b := AskBounds(os, uid);
      originX, originY := b.x, b.y;
      var s := AskSelectedScale(os, uid);
      scale := s;
      height, width := b.h * s, b.w * s;
    }

    /** Re-reads the displays and takes the frame's geometry from the selection. */
    method Init(os: Os, uid: nat)
      requires Valid()
      modifies this, screens, screens.list
      ensures Valid() && screens.Screens() == Refreshed(old(screens.Screens()), os)
      ensures Frame() == Answered(old(Cached()), Now(screens.Screens(), os), os.main, uid)
      ensures Cached() == AskSelection(old(Cached()), Now(screens.Screens(), os), os.main, uid).cache
    {
      screens.Refresh(os);
      TakeGeometry(os, uid);
    }

    /** One turn of the main loop, up to the capture: re-initialises if the frame is not what is made out now. */
    method Turn(os: Os, uid: nat) returns (fired: bool)
      requires Valid()
      modifies this, screens, screens.list
      ensures Valid()
      ensures Turned(fired, Frame(), screens.Screens(), Cached()) ==
              AfterTurn(old(Frame()), old(Cached()), old(screens.Screens()), os, uid)
    {
      var d := Selected(os);
      var b := AskBounds(os, uid);
      var s := AskSelectedScale(os, uid);
      fired := height != b.h * s || width != b.w * s || num != d.id;
      if fired {
        Init(os, uid);
      }
    }

    /**
     After one turn the frame is the selection's, whatever was selected when it was last taken, or if it was
     zeroed.
     */
    method TurnCatchesUp(os: Os, uid: nat, ghost last: nat)
      requires Valid() && CacheTrue(Cached(), All(os))
      requires screens.Screens().list == DisplayList(os) && screens.sel <= screens.count
      requires Layout(screens.Screens().list, os.main) && os.main.w > 0 && os.main.h > 0
      requires last <= screens.count
      requires Frame() == Target(Screens(screens.Screens().list, last), os.main, uid) || (width == 0 && height == 0)
      modifies this, screens, screens.list
      ensures Valid() && CacheTrue(Cached(), All(os)) && screens.Screens() == old(screens.Screens())
      ensures Frame() == Target(screens.Screens(), os.main, uid)
    {
      ghost var sc, c := screens.Screens(), Cached();
      SelectionChangeNeverMissed(sc.list, os.main, uid, last, sc.sel);
      if width == 0 && height == 0 {
        ZeroedFrameFires(sc.list, os.main, uid, sc.sel, Frame());
      }
      ListedAreNow(c, os, sc);
      ListedAreActive(os);
      assert All(os)[|os.active|] == os.main;
      TrueCacheTrueFrame(c, All(os), sc, os.main, uid);
      TrueCacheTrueFrame(AskSelection(c, sc, os.main, uid).cache, All(os), sc, os.main, uid);
      var fired := Turn(os, uid);
    }
  }
}
