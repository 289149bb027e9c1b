/** From the viewer's frames to what the post queue delivers: the injector and the queue together. */
module Delivery {
  import opened Modifiers
  import Injection
  import PostQueue
  import opened Sequences

  /** The events a history's frames hand to the queue, in order; a reset's key-ups do not go the same way. */
  function FrameEvents(t: Injection.Tables, h: seq<Injection.Input>): seq<Injection.Event>
    decreases |h|
  {
    var n := |h| - 1;
    if h == [] then []
    else FrameEvents(t, h[..n]) + (if h[n].Frame? then Injection.Posted(t, h, n) else [])
  }

  /** The `j`-th input of a history is a frame that made this event. */
  predicate Made(t: Injection.Tables, h: seq<Injection.Input>, j: nat, e: Injection.Event) {
    j < |h| && h[j].Frame? && e in Injection.Posted(t, h, j)
  }

  /** The event carries exactly the modifiers held after its frame, and an inherited Caps Lock. */
  ghost predicate CarriesHeld(h: seq<Injection.Input>, j: nat, e: Injection.Event) {
    && j < |h| && h[j].Frame? && !e.ReleaseEvent?
    && forall m :: m in e.flags <==>
         Injection.Held(h[..j + 1], m) || (m == CapsLock && CapsLock in h[j].env.inherited)
  }

  /** What an input posts does not depend on what comes later. */
  lemma PostedBefore(t: Injection.Tables, h: seq<Injection.Input>, n: nat, j: nat)
    requires j < n <= |h|
    ensures Injection.Posted(t, h[..n], j) == Injection.Posted(t, h, j)
  {
    assert h[..n][..j] == h[..j] && h[..n][j] == h[j];
  }

  lemma {:induction false} EventsAreMade(t: Injection.Tables, h: seq<Injection.Input>, e: Injection.Event)
    requires e in FrameEvents(t, h)
    ensures exists j :: Made(t, h, j, e)
    decreases |h|
  {
    var n := |h| - 1;
    if e in FrameEvents(t, h[..n]) {
      EventsAreMade(t, h[..n], e);
      var j :| Made(t, h[..n], j, e);
      PostedBefore(t, h, n, j);
      assert Made(t, h, j, e);
    } else {
      assert Made(t, h, n, e);
    }
  }

  lemma MadeCarriesHeld(t: Injection.Tables, h: seq<Injection.Input>, j: nat, e: Injection.Event)
    requires Injection.MapsModifiers(t) && Made(t, h, j, e)
    ensures CarriesHeld(h, j, e)
  {
    var es := Injection.Posted(t, h, j);
    var k :| 0 <= k < |es| && es[k] == e;
    Injection.NoModifierLeak(t, h, j, k);
  }

  /** A run of the queue whose callers post what the frames of a history make, as far as they have come. */
  ghost predicate Serves(acts: seq<PostQueue.Action>, t: Injection.Tables, h: seq<Injection.Input>) {
    PostQueue.PostsOf(acts) <= FrameEvents(t, h)
  }

  lemma {:induction false} EventIsUser(events: seq<PostQueue.Kind>, ids: seq<nat>, k: nat)
    requires k < |ids| && ids[k] < |events| && events[ids[k]].User?
    ensures events[ids[k]].e in PostQueue.UsersOf(events, ids)
    decreases |ids|
  {
    var n := |ids| - 1;
    if k < n {
      EventIsUser(events, ids[..n], k);
    }
  }

  /**
   However late the queue delivers it and whatever is lost on the way: every delivered event of a caller was made
   by a frame of the history, and carries a modifier exactly when the last key frame of it, up to that frame and
   since the start or the last reset, was a press, and Caps Lock also if it was inherited then.
   */
  lemma DeliveredCarries(tr: seq<PostQueue.State>, acts: seq<PostQueue.Action>, i: nat,
      t: Injection.Tables, h: seq<Injection.Input>, d: nat)
    requires PostQueue.Run(tr, acts) && i < |tr| && Injection.MapsModifiers(t) && Serves(acts[..i], t, h)
    requires d < |tr[i].delivered|
    ensures var id := tr[i].delivered[d];
            && id < |tr[i].events|
            && (tr[i].events[id].User? ==>
                  var e := tr[i].events[id].e; exists j :: Made(t, h, j, e) && CarriesHeld(h, j, e))
  {
    var s := tr[i];
    var id := s.delivered[d];
    PostQueue.DeliveredAreEvents(tr, acts, i, d);
    if s.events[id].User? {
      var e := s.events[id].e;
      EventIsUser(s.events, s.delivered, d);
      PostQueue.DeliveredInPostingOrder(tr, acts, i);
      SubsequenceMember(PostQueue.UsersOf(s.events, s.delivered), PostQueue.PostsOf(acts[..i]), e);
      EventsAreMade(t, h, e);
      var j :| Made(t, h, j, e);
      MadeCarriesHeld(t, h, j, e);
    }
  }

  /** And they are delivered in the order of their frames. */
  lemma DeliveredInFrameOrder(tr: seq<PostQueue.State>, acts: seq<PostQueue.Action>, i: nat,
      t: Injection.Tables, h: seq<Injection.Input>)
    requires PostQueue.Run(tr, acts) && i < |tr| && Serves(acts[..i], t, h)
    ensures IsSubsequence(PostQueue.UsersOf(tr[i].events, tr[i].delivered), FrameEvents(t, h))
  {
    PostQueue.DeliveredInPostingOrder(tr, acts, i);
    var posts, all := PostQueue.PostsOf(acts[..i]), FrameEvents(t, h);
    SubsequenceOfMore(PostQueue.UsersOf(tr[i].events, tr[i].delivered), posts, all[|posts|..]);
    assert posts + all[|posts|..] == all;
  }
}
