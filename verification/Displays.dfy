/** The list of displays, its order, the viewer's selection, and the message that announces them. */
module Displays {
  import opened Bytes

  const MAX_DISPLAYS := 16

  /** A display as the OS reports it, in points of the global coordinate space. */
  datatype Display = Display(id: nat, main: bool, mirrors: bool, x: int, y: int, w: int, h: int,
                             pixelWidth: nat, pointWidth: nat)

  /** The list in use and the selection: 0 for all displays, otherwise a position counted from 1. */
  datatype Screens = Screens(list: seq<Display>, sel: nat)

  /** What the OS enumerates at some moment: the active displays in any order, and the main one. */
  datatype Os = Os(active: seq<Display>, main: Display)

  // ---- Order -------------------------------------------------------------------------

  /** Does `cur` sort after `key`? */
  predicate After(cur: Display, key: Display) {
    if cur.main != key.main then key.main
    else if cur.x != key.x then cur.x > key.x
    else cur.y > key.y
  }

  function Insert(s: seq<Display>, key: Display): seq<Display>
    decreases |s|
  {
    var n := |s| - 1;
    if s == [] then [key]
    else if After(s[n], key) then Insert(s[..n], key) + [s[n]]
    else s + [key]
  }

  function Sort(s: seq<Display>): seq<Display>
    decreases |s|
  {
    var n := |s| - 1;
    if s == [] then [] else Insert(Sort(s[..n]), s[n])
  }

  function Unmirrored(s: seq<Display>): seq<Display>
    decreases |s|
  {
    var n := |s| - 1;
    if s == [] then []
    else if s[n].mirrors then Unmirrored(s[..n])
    else Unmirrored(s[..n]) + [s[n]]
  }

  /** What the enumeration call hands over: its buffer has room for 16. */
  function Enumerated(os: Os): seq<Display> {
    if |os.active| <= MAX_DISPLAYS then os.active else os.active[..MAX_DISPLAYS]
  }

  function DisplayList(os: Os): seq<Display> {
    var found := Unmirrored(Enumerated(os));
    if found == [] then [os.main] else Sort(found)
  }

  function Refreshed(sc: Screens, os: Os): Screens {
    var list := DisplayList(os);
    Screens(list, if sc.sel > |list| then 1 else sc.sel)
  }

  ghost predicate Ordered(s: seq<Display>) {
    forall i, j :: 0 <= i < j < |s| ==> !After(s[i], s[j])
  }

  lemma {:induction false} UnmirroredLength(s: seq<Display>)
    ensures |Unmirrored(s)| <= |s|
    ensures forall d :: d in Unmirrored(s) <==> d in s && !d.mirrors
    decreases |s|
  {
    if s != [] {
      var n := |s| - 1;
      assert s == s[..n] + [s[n]];
      UnmirroredLength(s[..n]);
    }
  }

  lemma {:induction false} InsertPermutes(s: seq<Display>, key: Display)
    ensures multiset(Insert(s, key)) == multiset(s) + multiset{key}
    decreases |s|
  {
    if s != [] {
      var n := |s| - 1;
      assert s == s[..n] + [s[n]];
      InsertPermutes(s[..n], key);
    }
  }

  lemma {:induction false} InsertOrdered(s: seq<Display>, key: Display)
    requires Ordered(s)
    ensures Ordered(Insert(s, key))
    decreases |s|
  {
    if s != [] {
      var n := |s| - 1;
      if After(s[n], key) {
        InsertOrdered(s[..n], key);
        InsertPermutes(s[..n], key);
        var r := Insert(s[..n], key);
        forall i | 0 <= i < |r| ensures !After(r[i], s[n]) {
          assert r[i] in multiset(r);
          assert r[i] in multiset(s[..n]) + multiset{key};
        }
      }
    }
  }

  lemma {:induction false} SortOrdersAndPermutes(s: seq<Display>)
    ensures Ordered(Sort(s)) && multiset(Sort(s)) == multiset(s) && |Sort(s)| == |s|
    decreases |s|
  {
    if s != [] {
      var n := |s| - 1;
      assert s == s[..n] + [s[n]];
      SortOrdersAndPermutes(s[..n]);
      InsertOrdered(Sort(s[..n]), s[n]);
      InsertPermutes(Sort(s[..n]), s[n]);
      assert |multiset(Sort(s))| == |multiset(s)|;
    }
  }

  /**
   Every refresh lists exactly the unmirrored displays among the first 16 enumerated, or the main one if there is none:
   main first, then left to right, then top to bottom.  The selection stays if the list still has it.
   */
  lemma RefreshedIsOrdered(sc: Screens, os: Os)
    ensures var r := Refreshed(sc, os);
            && 1 <= |r.list| <= 16
            && r.sel == (if sc.sel <= |r.list| then sc.sel else 1)
            && (forall i, j :: 0 <= i < j < |r.list| ==>
                  var a, b := r.list[i], r.list[j];
                  (b.main ==> a.main) && (a.main == b.main ==> a.x < b.x || (a.x == b.x && a.y <= b.y)))
    ensures var seen := if |os.active| <= 16 then os.active else os.active[..16];
            if exists d: Display :: d in seen && !d.mirrors then
              forall d: Display :: multiset(Refreshed(sc, os).list)[d] == if d.mirrors then 0 else multiset(seen)[d]
            else Refreshed(sc, os).list == [os.main]
  {
    var found := Unmirrored(Enumerated(os));
    UnmirroredLength(Enumerated(os));
    forall d: Display ensures multiset(found)[d] == if d.mirrors then 0 else multiset(Enumerated(os))[d] {
      UnmirroredCounts(Enumerated(os), d);
    }
    assert found == [] <==> !exists e: Display :: e in Enumerated(os) && !e.mirrors by {
      assert found != [] ==> found[0] in found;
    }
    SortOrdersAndPermutes(found);
    var r := Refreshed(sc, os);
    assert Ordered(r.list);
    forall i, j | 0 <= i < j < |r.list|
      ensures var a, b := r.list[i], r.list[j];
              (b.main ==> a.main) && (a.main == b.main ==> a.x < b.x || (a.x == b.x && a.y <= b.y))
    {
      assert !After(r.list[i], r.list[j]);
    }
  }

  // ---- The order does not depend on the enumeration --------------------------------------

  /** The displays are at different places. */
  ghost predicate DistinctOrigins(s: seq<Display>) {
    forall a, b :: a in s && b in s && a.x == b.x && a.y == b.y ==> a == b
  }

  lemma SameLast(s: seq<Display>, t: seq<Display>)
    requires Ordered(s) && Ordered(t) && DistinctOrigins(s)
    requires |s| == |t| > 0 && (forall d :: d in s <==> d in t)
    ensures s[|s| - 1] == t[|t| - 1]
  {
    var n := |s| - 1;
    var a, b := s[n], t[n];
    assert a in s && b in t;
    var i :| 0 <= i <= n && s[i] == b;
    var j :| 0 <= j <= n && t[j] == a;
    assert i < n ==> !After(s[i], s[n]);
    assert j < n ==> !After(t[j], t[n]);
  }

  lemma WithoutLast(s: seq<Display>)
    requires s != []
    ensures var n := |s| - 1;
            multiset(s[..n]) == multiset(s) - multiset{s[n]} && s == s[..n] + [s[n]]
  {
    assert s == s[..|s| - 1] + [s[|s| - 1]];
  }

  lemma SameElements(s: seq<Display>, t: seq<Display>)
    requires multiset(s) == multiset(t)
    ensures |s| == |t| && forall d :: d in s <==> d in t
  {
    assert |multiset(s)| == |s| && |multiset(t)| == |t|;
    forall d ensures d in s <==> d in t {
      assert d in s <==> d in multiset(s);
    }
  }

  lemma FewerAreDistinct(s: seq<Display>)
    requires s != [] && DistinctOrigins(s)
    ensures DistinctOrigins(s[..|s| - 1])
  {
    assert forall d :: d in s[..|s| - 1] ==> d in s;
  }

  /** Without their last elements two lists ordered alike still are. */
  lemma ShorterAlike(s: seq<Display>, t: seq<Display>)
    requires s != [] && |s| == |t| && s[|s| - 1] == t[|t| - 1] && multiset(s) == multiset(t)
    requires Ordered(s) && Ordered(t) && DistinctOrigins(s)
    ensures var a, b := s[..|s| - 1], t[..|t| - 1];
            multiset(a) == multiset(b) && Ordered(a) && Ordered(b) && DistinctOrigins(a)
  {
    WithoutLast(s);
    WithoutLast(t);
    FewerAreDistinct(s);
  }

  lemma {:induction false} OrderedIsUnique(s: seq<Display>, t: seq<Display>)
    requires Ordered(s) && Ordered(t) && multiset(s) == multiset(t) && DistinctOrigins(s)
    ensures s == t
    decreases |s|
  {
    SameElements(s, t);
    if s != [] {
      var n := |s| - 1;
      SameLast(s, t);
      ShorterAlike(s, t);
      OrderedIsUnique(s[..n], t[..n]);
      assert s == s[..n] + [s[n]] == t[..n] + [t[n]] == t;
    }
  }

  lemma {:induction false} UnmirroredCounts(s: seq<Display>, d: Display)
    ensures multiset(Unmirrored(s))[d] == if d.mirrors then 0 else multiset(s)[d]
    decreases |s|
  {
    if s != [] {
      var n := |s| - 1;
      assert s == s[..n] + [s[n]];
      UnmirroredCounts(s[..n], d);
    }
  }

  lemma UnmirroredPermutes(s: seq<Display>, t: seq<Display>)
    requires multiset(s) == multiset(t)
    ensures multiset(Unmirrored(s)) == multiset(Unmirrored(t))
  {
    forall d ensures multiset(Unmirrored(s))[d] == multiset(Unmirrored(t))[d] {
      UnmirroredCounts(s, d);
      UnmirroredCounts(t, d);
    }
  }

  /** The same layout, enumerated in two orders. */
  ghost predicate SameLayout(a: Os, b: Os) {
    && a.main == b.main
    && multiset(a.active) == multiset(b.active)
    && |a.active| <= MAX_DISPLAYS
    && DistinctOrigins(Unmirrored(a.active))
  }

  /** A mirror at the place of the display it mirrors, as a system reports it, is no obstacle. */
  lemma MirrorsShareOrigins(d: Display, mirror: Display)
    requires !d.mirrors && mirror == d.(id := mirror.id, main := false, mirrors := true)
    ensures SameLayout(Os([d, mirror], d), Os([mirror, d], d))
    ensures !DistinctOrigins([d, mirror])
  {
    UnmirroredLength([d, mirror]);
    assert [d, mirror][1] == mirror && [d, mirror][0] == d && d != mirror;
    assert multiset([d, mirror]) == multiset{d, mirror} == multiset([mirror, d]);
  }

  lemma CanonicalOrder(a: Os, b: Os)
    requires SameLayout(a, b)
    ensures DisplayList(a) == DisplayList(b)
  {
    assert |multiset(a.active)| == |multiset(b.active)|;
    var u, v := Unmirrored(a.active), Unmirrored(b.active);
    UnmirroredPermutes(a.active, b.active);
    UnmirroredLength(a.active);
    SortOrdersAndPermutes(u);
    SortOrdersAndPermutes(v);
    assert |multiset(u)| == |multiset(v)|;
    forall d | d in Sort(u) ensures d in u {
      assert d in multiset(Sort(u));
    }
    OrderedIsUnique(Sort(u), Sort(v));
  }

  // ---- Selection and announcement --------------------------------------------------------

  const ALL: word := 65535

  /** A request to show display `v`. */
  function SetDisplay(sc: Screens, v: word, os: Os): Screens {
    var r := Refreshed(sc, os);
    var want := if v == ALL then 0 else v;
    if want > |r.list| then r else r.(sel := want)
  }

  /** The announcement of `n` displays with `sel` selected, as 16-bit words. */
  function Words(tag: word, n: nat, sel: nat): seq<word>
    requires n <= MAX_DISPLAYS
  {
    if n <= 1 then [tag, 8, 0, 0]
    else
      [tag, 10 + 2 * n, n + 1, ALL] + seq(n, i requires 0 <= i < n => (i + 1) as word) +
      [if sel == 0 then ALL else if sel <= n then sel as word else 1]
  }

  function Announcement(tag: word, sc: Screens): seq<word>
    requires |sc.list| <= MAX_DISPLAYS
  {
    Words(tag, |sc.list|, sc.sel)
  }

  datatype Menu = NoMenu | Menu(ids: seq<word>, selected: word)

  /** How a viewer reads the message: type, size in bytes, number of ids, the ids, the selected one. */
  function ReadAnnouncement(words: seq<word>): Menu {
    if |words| < 4 || words[1] != 2 * |words| || |words| != 4 + words[2] as int then NoMenu
    else Menu(words[3..3 + words[2] as int], words[3 + words[2] as int])
  }

  /** A viewer reads back "all", then 1 up to the number of displays, and the current selection. */
  lemma AnnouncementReadsBack(tag: word, sc: Screens)
    requires 1 <= |sc.list| <= MAX_DISPLAYS && sc.sel <= |sc.list|
    ensures var m := ReadAnnouncement(Announcement(tag, sc));
            && m.Menu? && Announcement(tag, sc)[0] == tag
            && (|sc.list| == 1 ==> m == Menu([], 0))
            && (|sc.list| >= 2 ==>
                  && |m.ids| == |sc.list| + 1
                  && m.ids[0] == 65535
                  && (forall i :: 1 <= i <= |sc.list| ==> m.ids[i] == i)
                  && m.selected == if sc.sel == 0 then 65535 else sc.sel)
  {
    var n := |sc.list|;
    var words := Announcement(tag, sc);
    if n >= 2 {
      assert words[2] == n + 1 && |words| == n + 5;
      var ids := words[3..4 + n];
      forall i | 1 <= i <= n ensures ids[i] == i {
        assert ids[i] == words[3 + i];
      }
    }
  }

  /** What a request for an id within the count leaves, refreshed before and after. */
  lemma RequestSettles(sc: Screens, told: Os, asked: Os, next: Os, id: word)
    requires SameLayout(told, asked) && SameLayout(told, next)
    requires id == ALL || id <= |CheckedRefresh(sc, told).list|
    ensures var before := CheckedRefresh(sc, told);
            CheckedRefresh(SetDisplay(before, id, asked), next) == Screens(before.list, if id == ALL then 0 else id)
  {
    CanonicalOrder(told, asked);
    CanonicalOrder(told, next);
  }

  /** The ids of a message are "all" and numbers up to the count. */
  lemma AdvertisedIds(tag: word, sc: Screens, id: word)
    requires 1 <= |sc.list| <= MAX_DISPLAYS && sc.sel <= |sc.list|
    requires var m := ReadAnnouncement(Announcement(tag, sc)); m.Menu? && id in m.ids
    ensures |sc.list| >= 2 && (id == ALL || id <= |sc.list|)
  {
    AnnouncementReadsBack(tag, sc);
    var m := ReadAnnouncement(Announcement(tag, sc));
    var i :| 0 <= i < |m.ids| && m.ids[i] == id;
    assert i > 0 ==> m.ids[i] == i;
  }

  /** The ids depend only on how many displays there are, the selection shown only on the selection. */
  lemma SameIds(tag: word, list: seq<Display>, a: nat, b: nat)
    requires 2 <= |list| <= MAX_DISPLAYS && a <= |list| && b <= |list|
    ensures var m := ReadAnnouncement(Announcement(tag, Screens(list, a)));
            var m' := ReadAnnouncement(Announcement(tag, Screens(list, b)));
            m.Menu? && m' == Menu(m.ids, if b == 0 then ALL else b)
  {
    AnnouncementReadsBack(tag, Screens(list, a));
    AnnouncementReadsBack(tag, Screens(list, b));
    var m := ReadAnnouncement(Announcement(tag, Screens(list, a)));
    var m' := ReadAnnouncement(Announcement(tag, Screens(list, b)));
    assert m.ids == m'.ids;
  }

  /**
   Asking for any id a viewer was told about makes the next announcement show that id selected,
   with the same ids, and what is selected is the display that stood at that position when it was told:
   the OS may have enumerated the layout in three different orders meanwhile.
   */
  lemma AdvertisedIdIsHonoured(tag: word, sc: Screens, told: Os, asked: Os, next: Os, id: word)
    requires SameLayout(told, asked) && SameLayout(told, next)
    requires var m := ReadAnnouncement(Announcement(tag, CheckedRefresh(sc, told)));
             m.Menu? && id in m.ids
    ensures var before := CheckedRefresh(sc, told);
            var after := CheckedRefresh(SetDisplay(before, id, asked), next);
            var m := ReadAnnouncement(Announcement(tag, before));
            && ReadAnnouncement(Announcement(tag, after)) == Menu(m.ids, id)
            && after.list == before.list
            && after.sel == if id == 65535 then 0 else id
  {
    var before := CheckedRefresh(sc, told);
    AdvertisedIds(tag, before, id);
    RequestSettles(sc, told, asked, next, id);
    SameIds(tag, before.list, before.sel, if id == ALL then 0 else id);
  }

  /** A refresh, with its bounds. */
  function CheckedRefresh(sc: Screens, os: Os): (r: Screens)
    ensures r == Refreshed(sc, os) && 1 <= |r.list| <= MAX_DISPLAYS && r.sel <= |r.list|
  {
    RefreshedIsOrdered(sc, os);
    Refreshed(sc, os)
  }

  /**
   A request lists the displays afresh and selects all for 65535, and for 0, which is never announced; the display at
   that position for a number up to the count; and for any other leaves the selection to the refresh.
   */
  lemma RequestSelects(sc: Screens, v: word, os: Os)
    ensures var r, now := SetDisplay(sc, v, os), Refreshed(sc, os);
            && r.list == now.list
            && r.sel == if v == 65535 || v == 0 then 0 else if v <= |now.list| then v as nat else now.sel
  {
  }
}
