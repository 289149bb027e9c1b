/**
 The bounded post queue: one poster that waits for one of 512 slots, and a serial worker
 that delivers events and frees the slots.  One action is one step of either.
 */
module PostQueue {
  import Injection
  import opened Sequences

  const MAX_INFLIGHT := 512
  const MODIFIER_KEYS := Injection.MODIFIER_KEYS

  datatype Kind = KeyUp(k: nat) | User(e: Injection.Event)

  /**
   What the poster is doing.  `k` is the next modifier key-up to make, 9 if there is none left;
   `user` is the caller's event, still to be submitted after them, -1 if there is none.
   */
  datatype Poster =
    | Ready
    | Making(k: nat, user: int)
    | Waiting(id: nat, k: nat, user: int)
    | Slot(id: nat, k: nat, user: int)
    | Dropping(id: nat, k: nat, user: int)

  datatype Fate = Unsent | TimedOut | OutOfMemory | Sent

  datatype Worker = Idle | Took(id: nat) | Delivered(id: nat) | Freed

  /** Events are numbered as they are created; `held` and `freed` count references taken and released. */
  datatype State = State(
    free: nat,
    queue: seq<nat>,
    worker: Worker,
    poster: Poster,
    primed: bool,
    events: seq<Kind>,
    fates: seq<Fate>,
    held: seq<nat>,
    freed: seq<nat>,
    submitted: seq<nat>,
    delivered: seq<nat>,
    attempts: seq<Kind>)

  datatype Action =
    | Post(e: Injection.Event)
    | ReleaseModifiers
    | KeyUpMade
    | KeyUpFailed
    | Acquire
    | TimeOut
    | NoMemory
    | Enqueue
    | DropOwn
    | Take
    | Deliver
    | Free
    | Signal

  const START: State := State(MAX_INFLIGHT, [], Idle, Ready, false, [], [], [], [], [], [], [])

  predicate Known(s: State, id: int) {
    && 0 <= id < |s.events|
    && |s.fates| == |s.events| && |s.held| == |s.events| && |s.freed| == |s.events|
  }

  predicate Enabled(s: State, a: Action) {
    match a
    case Post(_) => s.poster.Ready?
    case ReleaseModifiers => s.poster.Ready?
    case KeyUpMade => s.poster.Making?
    case KeyUpFailed => s.poster.Making?
    case Acquire => s.poster.Waiting? && Known(s, s.poster.id) && s.free > 0
    case TimeOut => s.poster.Waiting? && Known(s, s.poster.id) && s.free == 0
    case NoMemory => s.poster.Slot? && Known(s, s.poster.id)
    case Enqueue => s.poster.Slot? && Known(s, s.poster.id)
    case DropOwn => s.poster.Dropping? && Known(s, s.poster.id)
    case Take => s.worker.Idle? && s.queue != []
    case Deliver => s.worker.Took? && Known(s, s.worker.id)
    case Free => s.worker.Delivered? && Known(s, s.worker.id)
    case Signal => s.worker.Freed?
  }

  /** What comes next: the remaining key-ups, then the caller's event, then nothing. */
  function Next(k: nat, user: int): Poster {
    if k < MODIFIER_KEYS then Making(k, user)
    else if user >= 0 then Waiting(user, k, -1)
    else Ready
  }

  /** A new event, referenced by whoever created it. */
  function Created(s: State, kind: Kind): State {
    s.(events := s.events + [kind], fates := s.fates + [Unsent], held := s.held + [1], freed := s.freed + [0])
  }

  function Resolved(s: State, id: nat, fate: Fate): State
    requires Known(s, id)
  {
    s.(fates := s.fates[id := fate])
  }

  /** A call of the posting function that waits for a slot; key-ups were noted when they were made. */
  function Submitted(s: State): State
    requires s.poster.Waiting? && s.poster.id < |s.events|
  {
    var kind := s.events[s.poster.id];
    s.(submitted := s.submitted + [s.poster.id],
       attempts := s.attempts + if kind.User? then [kind] else [])
  }

  function Apply(s: State, a: Action): State
    requires Enabled(s, a)
  {
    var p := s.poster;
    match a
    case Post(e) =>
      Created(s, User(e)).(primed := true, poster := Next(if s.primed then MODIFIER_KEYS else 0, |s.events|))
    case ReleaseModifiers => s.(poster := Next(0, -1))
    case KeyUpMade =>
      Created(s, KeyUp(p.k)).(poster := Waiting(|s.events|, p.k + 1, p.user), attempts := s.attempts + [KeyUp(p.k)])
    case KeyUpFailed => s.(poster := Next(p.k + 1, p.user), attempts := s.attempts + [KeyUp(p.k)])
    case Acquire => Submitted(s).(free := s.free - 1, poster := Slot(p.id, p.k, p.user))
    case TimeOut => Resolved(Submitted(s), p.id, TimedOut).(poster := Dropping(p.id, p.k, p.user))
    case NoMemory => Resolved(s, p.id, OutOfMemory).(free := s.free + 1, poster := Dropping(p.id, p.k, p.user))
    case Enqueue =>
      Resolved(s, p.id, Sent).(held := s.held[p.id := s.held[p.id] + 1], queue := s.queue + [p.id],
                               poster := Dropping(p.id, p.k, p.user))
    case DropOwn => s.(freed := s.freed[p.id := s.freed[p.id] + 1], poster := Next(p.k, p.user))
    case Take => s.(worker := Took(s.queue[0]), queue := s.queue[1..])
    case Deliver => s.(worker := Delivered(s.worker.id), delivered := s.delivered + [s.worker.id])
    case Free => s.(worker := Freed, freed := s.freed[s.worker.id := s.freed[s.worker.id] + 1])
    case Signal => s.(worker := Idle, free := s.free + 1)
  }

  /** The `i`-th action of a run is possible in the state before it and leads to the one after it. */
  ghost predicate Follows(tr: seq<State>, acts: seq<Action>, i: nat) {
    i < |acts| && i + 1 < |tr| && Enabled(tr[i], acts[i]) && tr[i + 1] == Apply(tr[i], acts[i])
  }

  ghost predicate Run(tr: seq<State>, acts: seq<Action>) {
    && |tr| == |acts| + 1
    && tr[0] == START
    && forall i :: 0 <= i < |acts| ==> Follows(tr, acts, i)
  }

  // ---- Slots -----------------------------------------------------------------------------------

  /** Posts that occupy a slot: the poster's, the queued ones, the worker's. */
  function InFlight(s: State): nat {
    (if s.poster.Slot? then 1 else 0) + |s.queue| + (if s.worker.Idle? then 0 else 1)
  }

  predicate SlotsConserved(s: State) {
    s.free + InFlight(s) == MAX_INFLIGHT
  }

  lemma SlotsKept(s: State, a: Action)
    requires SlotsConserved(s) && Enabled(s, a)
    ensures SlotsConserved(Apply(s, a))
  {
  }

  // ---- The poster's position ----------------------------------------------------------------------

  predicate Active(p: Poster) {
    p.Waiting? || p.Slot? || p.Dropping?
  }

  /** Whoever created `id` still holds its own reference to it. */
  predicate Owned(p: Poster, id: nat) {
    (Active(p) && p.id == id) || (!p.Ready? && p.user == id)
  }

  /** `id` is still to be submitted. */
  predicate Awaiting(p: Poster, id: nat) {
    (p.Waiting? && p.id == id) || (!p.Ready? && p.user == id)
  }

  predicate Placed(s: State) {
    && |s.fates| == |s.events| && |s.held| == |s.events| && |s.freed| == |s.events|
    && (Active(s.poster) ==> s.poster.id < |s.events| && s.poster.k <= MODIFIER_KEYS)
    && (s.poster.Making? ==> s.poster.k < MODIFIER_KEYS)
    && (!s.poster.Ready? ==> -1 <= s.poster.user < |s.events|)
    && (Active(s.poster) ==> s.poster.id != s.poster.user)
    && (!s.poster.Ready? && s.poster.user >= 0 ==> s.events[s.poster.user].User?)
  }

  predicate Creates(a: Action) {
    a.Post? || a.KeyUpMade?
  }

  lemma PlacedKeptByCreation(s: State, a: Action)
    requires Placed(s) && Enabled(s, a) && Creates(a)
    ensures Placed(Apply(s, a))
  {
  }

  lemma PlacedKeptByRest(s: State, a: Action)
    requires Placed(s) && Enabled(s, a) && !Creates(a)
    ensures Placed(Apply(s, a))
  {
    assert Apply(s, a).events == s.events;
  }

  lemma PlacedKept(s: State, a: Action)
    requires Placed(s) && Enabled(s, a)
    ensures Placed(Apply(s, a))
  {
    if Creates(a) {
      PlacedKeptByCreation(s, a);
    } else {
      PlacedKeptByRest(s, a);
    }
  }

  // ---- Order and loss ----------------------------------------------------------------------------

  /** The submitted events that were handed to the queue, in order of submission. */
  function SentOf(submitted: seq<nat>, fates: seq<Fate>): seq<nat>
    decreases |submitted|
  {
    var n := |submitted| - 1;
    if submitted == [] then []
    else SentOf(submitted[..n], fates) +
         (if submitted[n] < |fates| && fates[submitted[n]] == Sent then [submitted[n]] else [])
  }

  /** What has been delivered, then what is on its way, in that order. */
  function Sequence(s: State): seq<nat> {
    s.delivered + (if s.worker.Took? then [s.worker.id] else []) + s.queue
  }

  /** Each event is submitted at most once, and only the one in the poster's slot has no fate yet. */
  ghost predicate Settled(s: State) {
    && |s.fates| == |s.events|
    && (forall i, j :: 0 <= i < j < |s.submitted| ==> s.submitted[i] != s.submitted[j])
    && (forall i :: 0 <= i < |s.submitted| ==> s.submitted[i] < |s.events| && !Awaiting(s.poster, s.submitted[i]))
    && (s.poster.Slot? ==> s.submitted != [] && s.submitted[|s.submitted| - 1] == s.poster.id)
    && (forall id :: 0 <= id < |s.fates| ==>
          (s.fates[id] != Unsent <==> id in s.submitted && !(s.poster.Slot? && id == s.poster.id)))
  }

  lemma SettledKeptBySubmission(s: State, a: Action)
    requires Placed(s) && Settled(s) && Enabled(s, a) && (a.Acquire? || a.TimeOut?)
    ensures Settled(Apply(s, a))
  {
    assert Apply(s, a).submitted == s.submitted + [s.poster.id];
  }

  lemma SettledKeptByOutcome(s: State, a: Action)
    requires Placed(s) && Settled(s) && Enabled(s, a) && (a.NoMemory? || a.Enqueue?)
    ensures Settled(Apply(s, a))
  {
    assert Apply(s, a).submitted == s.submitted;
  }

  lemma SettledKeptByCreation(s: State, a: Action)
    requires Placed(s) && Settled(s) && Enabled(s, a) && Creates(a)
    ensures Settled(Apply(s, a))
  {
    assert Apply(s, a).submitted == s.submitted;
  }

  lemma SettledKeptByRest(s: State, a: Action)
    requires Placed(s) && Settled(s) && Enabled(s, a)
    requires !Creates(a) && !a.Acquire? && !a.TimeOut? && !a.NoMemory? && !a.Enqueue?
    ensures Settled(Apply(s, a))
  {
    assert Apply(s, a).submitted == s.submitted && Apply(s, a).fates == s.fates;
  }

  lemma SettledKept(s: State, a: Action)
    requires Placed(s) && Settled(s) && Enabled(s, a)
    ensures Settled(Apply(s, a))
  {
    if a.Acquire? || a.TimeOut? {
      SettledKeptBySubmission(s, a);
    } else if a.NoMemory? || a.Enqueue? {
      SettledKeptByOutcome(s, a);
    } else if Creates(a) {
      SettledKeptByCreation(s, a);
    } else {
      SettledKeptByRest(s, a);
    }
  }

  lemma {:induction false} SentOfSame(submitted: seq<nat>, f: seq<Fate>, g: seq<Fate>)
    requires forall i :: 0 <= i < |submitted| ==>
               (submitted[i] < |f| && f[submitted[i]] == Sent <==> submitted[i] < |g| && g[submitted[i]] == Sent)
    ensures SentOf(submitted, f) == SentOf(submitted, g)
    decreases |submitted|
  {
    if submitted != [] {
      SentOfSame(submitted[..|submitted| - 1], f, g);
    }
  }

  /** The last submitted one gets its fate. */
  lemma SentOfResolve(submitted: seq<nat>, f: seq<Fate>, fate: Fate)
    requires submitted != [] && var id := submitted[|submitted| - 1]; id < |f| && f[id] == Unsent
    requires forall i, j :: 0 <= i < j < |submitted| ==> submitted[i] != submitted[j]
    ensures var id := submitted[|submitted| - 1];
            SentOf(submitted, f[id := fate]) == SentOf(submitted, f) + if fate == Sent then [id] else []
  {
    var n := |submitted| - 1;
    SentOfSame(submitted[..n], f, f[submitted[n] := fate]);
  }

  ghost predicate InOrder(s: State) {
    && Sequence(s) == SentOf(s.submitted, s.fates)
    && (s.worker.Delivered? ==> s.delivered != [] && s.delivered[|s.delivered| - 1] == s.worker.id)
  }

  lemma InOrderKeptBySubmission(s: State, a: Action)
    requires Placed(s) && Settled(s) && InOrder(s) && Enabled(s, a)
    requires a.Acquire? || a.TimeOut?
    ensures InOrder(Apply(s, a))
  {
    var s' := Apply(s, a);
    assert s'.submitted[..|s.submitted|] == s.submitted;
    SentOfSame(s.submitted, s.fates, s'.fates);
    assert Sequence(s') == Sequence(s);
  }

  lemma InOrderKeptByOutcome(s: State, a: Action)
    requires Placed(s) && Settled(s) && InOrder(s) && Enabled(s, a)
    requires a.NoMemory? || a.Enqueue?
    ensures InOrder(Apply(s, a))
  {
    SentOfResolve(s.submitted, s.fates, if a.Enqueue? then Sent else OutOfMemory);
    if a.Enqueue? {
      assert Sequence(Apply(s, a)) == Sequence(s) + [s.poster.id];
    } else {
      assert Sequence(Apply(s, a)) == Sequence(s);
    }
  }

  lemma InOrderKeptByWorker(s: State, a: Action)
    requires InOrder(s) && Enabled(s, a) && (a.Take? || a.Deliver? || a.Free? || a.Signal?)
    ensures InOrder(Apply(s, a))
  {
    if a.Take? {
      assert s.queue == [s.queue[0]] + s.queue[1..];
    }
    assert Sequence(Apply(s, a)) == Sequence(s);
  }

  lemma InOrderKeptByPoster(s: State, a: Action)
    requires Placed(s) && Settled(s) && InOrder(s) && Enabled(s, a)
    requires Creates(a) || a.ReleaseModifiers? || a.KeyUpFailed? || a.DropOwn?
    ensures InOrder(Apply(s, a))
  {
    var s' := Apply(s, a);
    SentOfSame(s.submitted, s.fates, s'.fates);
    assert Sequence(s') == Sequence(s);
  }

  lemma InOrderKept(s: State, a: Action)
    requires Placed(s) && Settled(s) && InOrder(s) && Enabled(s, a)
    ensures InOrder(Apply(s, a))
  {
    if a.Acquire? || a.TimeOut? {
      InOrderKeptBySubmission(s, a);
    } else if a.NoMemory? || a.Enqueue? {
      InOrderKeptByOutcome(s, a);
    } else if a.Take? || a.Deliver? || a.Free? || a.Signal? {
      InOrderKeptByWorker(s, a);
    } else {
      InOrderKeptByPoster(s, a);
    }
  }

  // ---- References --------------------------------------------------------------------------------

  /** The queue's own reference to `id` is still held. */
  predicate Queued(s: State, id: nat) {
    id in s.queue || s.worker == Took(id) || s.worker == Delivered(id)
  }

  /**
   The references of one event: its creator's, released when the poster is done with it, and the queue's if it was
   sent, released when the worker is done with it.
   */
  ghost predicate CountedAt(s: State, id: nat)
    requires id < |s.fates| && id < |s.held| && id < |s.freed|
  {
    && s.held[id] == 1 + (if s.fates[id] == Sent then 1 else 0)
    && s.freed[id] == (if Owned(s.poster, id) then 0 else 1) +
                      (if s.fates[id] == Sent && !Queued(s, id) then 1 else 0)
    && (Queued(s, id) ==> s.fates[id] == Sent)
  }

  ghost predicate Counted(s: State) {
    && |s.fates| == |s.events| && |s.held| == |s.events| && |s.freed| == |s.events|
    && forall id :: 0 <= id < |s.events| ==> CountedAt(s, id)
  }

  lemma {:induction false} SentOfDistinct(submitted: seq<nat>, f: seq<Fate>)
    requires forall i, j :: 0 <= i < j < |submitted| ==> submitted[i] != submitted[j]
    ensures var q := SentOf(submitted, f);
            && (forall i, j :: 0 <= i < j < |q| ==> q[i] != q[j])
            && (forall id :: id in q <==> id in submitted && id < |f| && f[id] == Sent)
    decreases |submitted|
  {
    if submitted != [] {
      var n := |submitted| - 1;
      assert submitted == submitted[..n] + [submitted[n]];
      SentOfDistinct(submitted[..n], f);
    }
  }

  lemma SequenceDistinct(s: State)
    requires Settled(s) && InOrder(s)
    ensures var q := Sequence(s); forall i, j :: 0 <= i < j < |q| ==> q[i] != q[j]
    ensures forall id :: id in Sequence(s) <==> id in s.submitted && id < |s.fates| && s.fates[id] == Sent
  {
    SentOfDistinct(s.submitted, s.fates);
  }

  /** What is queued or with the worker has been submitted. */
  lemma QueuedAreEvents(s: State, id: nat)
    requires Settled(s) && InOrder(s) && Queued(s, id)
    ensures id < |s.events|
  {
    SequenceDistinct(s);
    assert s.worker == Delivered(id) ==> Sequence(s)[|s.delivered| - 1] == id;
    assert id in Sequence(s);
  }

  /** The one the worker is busy with is not queued again. */
  lemma WorkerAlone(s: State)
    requires Settled(s) && InOrder(s)
    ensures s.worker.Took? ==> s.worker.id !in s.queue
    ensures s.worker.Delivered? ==> s.worker.id !in s.queue
    ensures s.queue != [] ==> s.queue[0] !in s.queue[1..]
  {
    SequenceDistinct(s);
    var q, d := Sequence(s), |s.delivered|;
    var b := if s.worker.Took? then d + 1 else d;
    forall j | 0 <= j < |s.queue| ensures q[b + j] == s.queue[j] {
    }
    assert s.worker.Took? ==> q[d] == s.worker.id;
    assert s.worker.Delivered? ==> q[d - 1] == s.worker.id;
  }

  lemma QueuedAfter(s: State, a: Action, id: nat)
    requires Settled(s) && InOrder(s) && Enabled(s, a)
    ensures Queued(Apply(s, a), id) <==>
            (Queued(s, id) && !(a.Free? && id == s.worker.id)) || (a.Enqueue? && id == s.poster.id)
  {
    WorkerAlone(s);
    if a.Take? {
      assert s.queue == [s.queue[0]] + s.queue[1..];
    }
  }

  lemma OwnedAfter(s: State, a: Action, id: nat)
    requires Placed(s) && Enabled(s, a)
    ensures Owned(Apply(s, a).poster, id) <==>
            (Owned(s.poster, id) && !(a.DropOwn? && id == s.poster.id)) ||
            ((a.Post? || a.KeyUpMade?) && id == |s.events|)
  {
  }

  /** What an action does to the counters and the fate of an event there was before. */
  lemma CountersAfter(s: State, a: Action, id: nat)
    requires Placed(s) && Enabled(s, a) && id < |s.events|
    ensures var s' := Apply(s, a);
            && |s.events| <= |s'.events| == |s'.fates| == |s'.held| == |s'.freed|
            && s'.held[id] == s.held[id] + (if a.Enqueue? && id == s.poster.id then 1 else 0)
            && s'.freed[id] == s.freed[id] + (if a.DropOwn? && id == s.poster.id then 1 else 0)
                                           + (if a.Free? && id == s.worker.id then 1 else 0)
            && (s'.fates[id] == Sent <==>
                  if (a.TimeOut? || a.NoMemory? || a.Enqueue?) && id == s.poster.id then a.Enqueue?
                  else s.fates[id] == Sent)
  {
  }

  /** An event just created: one reference, its creator's. */
  lemma CountersOfNew(s: State, a: Action, id: nat)
    requires Placed(s) && Enabled(s, a)
    requires |s.events| <= id < |Apply(s, a).events|
    ensures var s' := Apply(s, a);
            && (a.Post? || a.KeyUpMade?) && id == |s.events|
            && |s'.fates| == |s'.held| == |s'.freed| == |s'.events| == |s.events| + 1
            && s'.held[id] == 1 && s'.freed[id] == 0 && s'.fates[id] == Unsent
  {
  }

  lemma CountedAtKept(s: State, a: Action, id: nat)
    requires Placed(s) && Settled(s) && InOrder(s) && Counted(s) && Enabled(s, a) && id < |s.events|
    ensures id < |Apply(s, a).fates| && id < |Apply(s, a).held| && id < |Apply(s, a).freed|
    ensures CountedAt(Apply(s, a), id)
  {
    assert CountedAt(s, id);
    CountersAfter(s, a, id);
    QueuedAfter(s, a, id);
    OwnedAfter(s, a, id);
    if a.Enqueue? && id == s.poster.id {
      assert s.fates[id] == Unsent;
    } else if a.Free? && id == s.worker.id {
      assert Queued(s, id);
    }
  }

  lemma CountedKept(s: State, a: Action)
    requires Placed(s) && Settled(s) && InOrder(s) && Counted(s) && Enabled(s, a)
    ensures Counted(Apply(s, a))
  {
    var s' := Apply(s, a);
    assert |s'.fates| == |s'.held| == |s'.freed| == |s'.events| by {
      PlacedKept(s, a);
    }
    forall id | 0 <= id < |s'.events| ensures CountedAt(s', id) {
      if id < |s.events| {
        CountedAtKept(s, a, id);
      } else {
        CountersOfNew(s, a, id);
        if Queued(s, id) {
          QueuedAreEvents(s, id);
        }
        QueuedAfter(s, a, id);
        OwnedAfter(s, a, id);
      }
    }
  }

  // ---- The modifiers are released first ------------------------------------------------------------

  function KeyUps(k: nat): seq<Kind>
    decreases MODIFIER_KEYS - k
  {
    if k >= MODIFIER_KEYS then [] else [KeyUp(k)] + KeyUps(k + 1)
  }

  function UserPart(events: seq<Kind>, user: int): seq<Kind> {
    if 0 <= user < |events| && events[user].User? then [events[user]] else []
  }

  /** The attempts still to come before the poster is ready again. */
  function Coming(events: seq<Kind>, p: Poster): seq<Kind> {
    match p
    case Ready => []
    case Making(k, user) => KeyUps(k) + UserPart(events, user)
    case Waiting(id, k, user) => UserPart(events, id) + KeyUps(k) + UserPart(events, user)
    case Slot(_, k, user) => KeyUps(k) + UserPart(events, user)
    case Dropping(_, k, user) => KeyUps(k) + UserPart(events, user)
  }

  ghost predicate HasUser(f: seq<Kind>) {
    exists i :: 0 <= i < |f| && f[i].User?
  }

  /** The first user event comes right after the nine key-ups, in order. */
  ghost predicate ReleasedFirst(f: seq<Kind>) {
    forall p: nat :: FirstUser(f, p) ==> p >= MODIFIER_KEYS && f[p - MODIFIER_KEYS..p] == KeyUps(0)
  }

  ghost predicate Primed(s: State) {
    var f := s.attempts + Coming(s.events, s.poster);
    ReleasedFirst(f) && (s.primed <==> HasUser(f))
  }

  lemma NextComing(events: seq<Kind>, k: nat, user: int)
    ensures Coming(events, Next(k, user)) == KeyUps(k) + UserPart(events, user)
  {
  }

  lemma {:induction false} KeyUpsAre(k: nat)
    requires k <= MODIFIER_KEYS
    ensures |KeyUps(k)| == MODIFIER_KEYS - k
    ensures forall i :: 0 <= i < |KeyUps(k)| ==> KeyUps(k)[i] == KeyUp(k + i)
    decreases MODIFIER_KEYS - k
  {
    if k < MODIFIER_KEYS {
      KeyUpsAre(k + 1);
    }
  }

  /** What is to come once key-up `k` is out of the way. */
  lemma ComingAfterKeyUp(s: State, a: Action)
    requires Placed(s) && Enabled(s, a) && (a.KeyUpMade? || a.KeyUpFailed?)
    ensures var s', p := Apply(s, a), s.poster;
            Coming(s'.events, s'.poster) == KeyUps(p.k + 1) + UserPart(s.events, p.user)
  {
    var s', p := Apply(s, a), s.poster;
    NextComing(s'.events, p.k + 1, p.user);
    assert UserPart(s'.events, p.user) == UserPart(s.events, p.user);
    if a.KeyUpMade? {
      assert UserPart(s'.events, |s.events|) == [];
      assert [] + KeyUps(p.k + 1) == KeyUps(p.k + 1);
    }
  }

  lemma FutureSameAfterKeyUp(s: State, a: Action)
    requires Placed(s) && Enabled(s, a) && (a.KeyUpMade? || a.KeyUpFailed?)
    ensures var s' := Apply(s, a);
            s'.attempts + Coming(s'.events, s'.poster) == s.attempts + Coming(s.events, s.poster)
  {
    var p := s.poster;
    ComingAfterKeyUp(s, a);
    assert Apply(s, a).attempts == s.attempts + [KeyUp(p.k)];
    assert KeyUps(p.k) == [KeyUp(p.k)] + KeyUps(p.k + 1);
    Regroup(s.attempts, [KeyUp(p.k)], KeyUps(p.k + 1), UserPart(s.events, p.user));
  }

  lemma Regroup<T>(a: seq<T>, b: seq<T>, c: seq<T>, d: seq<T>)
    ensures a + b + (c + d) == a + (b + c + d)
  {
  }

  lemma FutureSameAfterSubmission(s: State, a: Action)
    requires Placed(s) && Enabled(s, a) && (a.Acquire? || a.TimeOut?)
    ensures var s' := Apply(s, a);
            s'.attempts + Coming(s'.events, s'.poster) == s.attempts + Coming(s.events, s.poster)
  {
    var p := s.poster;
    var mine := UserPart(s.events, p.id);
    assert Apply(s, a).attempts == s.attempts + mine && Apply(s, a).events == s.events;
    Regroup(s.attempts, mine, KeyUps(p.k), UserPart(s.events, p.user));
  }

  lemma FutureSameElsewhere(s: State, a: Action)
    requires Placed(s) && Enabled(s, a)
    requires !a.Post? && !a.ReleaseModifiers? && !a.KeyUpMade? && !a.KeyUpFailed? && !a.Acquire? && !a.TimeOut?
    ensures var s' := Apply(s, a);
            s'.attempts == s.attempts && Coming(s'.events, s'.poster) == Coming(s.events, s.poster)
  {
    if a.DropOwn? {
      NextComing(s.events, s.poster.k, s.poster.user);
    }
  }

  /** Nothing the poster or the worker does on the way changes what is attempted altogether. */
  lemma FutureSame(s: State, a: Action)
    requires Placed(s) && Enabled(s, a) && !a.Post? && !a.ReleaseModifiers?
    ensures var s' := Apply(s, a);
            s'.attempts + Coming(s'.events, s'.poster) == s.attempts + Coming(s.events, s.poster)
  {
    if a.KeyUpMade? || a.KeyUpFailed? {
      FutureSameAfterKeyUp(s, a);
    } else if a.Acquire? || a.TimeOut? {
      FutureSameAfterSubmission(s, a);
    } else {
      FutureSameElsewhere(s, a);
    }
  }

  lemma HasUserAppend(f: seq<Kind>, g: seq<Kind>)
    ensures HasUser(f + g) <==> HasUser(f) || HasUser(g)
  {
    var h := f + g;
    if HasUser(f) {
      var i :| 0 <= i < |f| && f[i].User?;
      assert h[i].User?;
    }
    if HasUser(g) {
      var i :| 0 <= i < |g| && g[i].User?;
      assert h[|f| + i].User?;
    }
    if HasUser(h) {
      var i :| 0 <= i < |h| && h[i].User?;
      assert i < |f| ==> f[i].User?;
      assert i >= |f| ==> g[i - |f|].User?;
    }
  }

  /** Is `p` where the first user event stands? */
  ghost predicate FirstUser(f: seq<Kind>, p: nat) {
    p < |f| && f[p].User? && forall i :: 0 <= i < p ==> f[i].KeyUp?
  }

  lemma FirstUserAppend(f: seq<Kind>, g: seq<Kind>, p: nat)
    requires FirstUser(f + g, p)
    ensures p < |f| ==> FirstUser(f, p)
    ensures p >= |f| ==> !HasUser(f) && FirstUser(g, p - |f|)
  {
    var h := f + g;
    assert forall i :: 0 <= i < |f| ==> f[i] == h[i];
    assert forall i :: 0 <= i < |g| ==> g[i] == h[|f| + i];
  }

  lemma ReleasedFirstAppend(f: seq<Kind>, g: seq<Kind>)
    requires ReleasedFirst(f)
    requires HasUser(f) || !HasUser(g) || (|g| == MODIFIER_KEYS + 1 && g[..MODIFIER_KEYS] == KeyUps(0))
    ensures ReleasedFirst(f + g)
  {
    KeyUpsAre(0);
    var h := f + g;
    forall p: nat | FirstUser(h, p) ensures p >= MODIFIER_KEYS && h[p - MODIFIER_KEYS..p] == KeyUps(0) {
      FirstUserAppend(f, g, p);
      if p < |f| {
        assert h[p - MODIFIER_KEYS..p] == f[p - MODIFIER_KEYS..p];
      } else {
        UpsThenUser(g, p - |f|);
        assert h[p - MODIFIER_KEYS..p] == g[..MODIFIER_KEYS];
      }
    }
  }

  lemma UpsThenUser(g: seq<Kind>, q: nat)
    requires |g| == MODIFIER_KEYS + 1 && g[..MODIFIER_KEYS] == KeyUps(0) && FirstUser(g, q)
    ensures q == MODIFIER_KEYS
  {
    KeyUpsAre(0);
    assert forall i :: 0 <= i < MODIFIER_KEYS ==> g[i] == g[..MODIFIER_KEYS][i];
  }

  lemma PrimedKept(s: State, a: Action)
    requires Placed(s) && Primed(s) && Enabled(s, a)
    ensures Primed(Apply(s, a))
  {
    var s' := Apply(s, a);
    KeyUpsAre(0);
    if a.Post? || a.ReleaseModifiers? {
      var g := Coming(s'.events, s'.poster);
      assert s.attempts + Coming(s.events, s.poster) == s.attempts;
      if a.Post? {
        NextComing(s'.events, if s.primed then MODIFIER_KEYS else 0, |s.events|);
        assert g[|g| - 1].User?;
      } else {
        NextComing(s'.events, 0, -1);
      }
      ReleasedFirstAppend(s.attempts, g);
      HasUserAppend(s.attempts, g);
    } else {
      FutureSame(s, a);
    }
  }

  // ---- What the callers asked for ----------------------------------------------------------------------

  predicate AnyPost(acts: seq<Action>)
    decreases |acts|
  {
    var n := |acts| - 1;
    acts != [] && (acts[n].Post? || AnyPost(acts[..n]))
  }

  /** What one call asks to be attempted: the first post brings the nine key-ups with it. */
  function Request(a: Action, primed: bool): seq<Kind> {
    match a
    case Post(e) => (if primed then [] else KeyUps(0)) + [User(e)]
    case ReleaseModifiers => KeyUps(0)
    case _ => []
  }

  function Requested(acts: seq<Action>): seq<Kind>
    decreases |acts|
  {
    var n := |acts| - 1;
    if acts == [] then [] else Requested(acts[..n]) + Request(acts[n], AnyPost(acts[..n]))
  }

  /** The events the callers posted, in order. */
  function PostsOf(acts: seq<Action>): seq<Injection.Event>
    decreases |acts|
  {
    var n := |acts| - 1;
    if acts == [] then [] else PostsOf(acts[..n]) + (if acts[n].Post? then [acts[n].e] else [])
  }

  function EventOf(events: seq<Kind>, id: int): seq<Injection.Event> {
    if 0 <= id < |events| && events[id].User? then [events[id].e] else []
  }

  /** The callers' events among some ids. */
  function UsersOf(events: seq<Kind>, ids: seq<nat>): seq<Injection.Event>
    decreases |ids|
  {
    var n := |ids| - 1;
    if ids == [] then [] else UsersOf(events, ids[..n]) + EventOf(events, ids[n])
  }

  /** The caller's event that is not submitted yet. */
  function Still(s: State): seq<Injection.Event> {
    match s.poster
    case Ready => []
    case Waiting(id, _, user) => EventOf(s.events, id) + EventOf(s.events, user)
    case Making(_, user) => EventOf(s.events, user)
    case Slot(_, _, user) => EventOf(s.events, user)
    case Dropping(_, _, user) => EventOf(s.events, user)
  }

  function Users(f: seq<Kind>): seq<Injection.Event>
    decreases |f|
  {
    var n := |f| - 1;
    if f == [] then [] else Users(f[..n]) + (if f[n].User? then [f[n].e] else [])
  }

  lemma {:induction false} UsersAppend(f: seq<Kind>, g: seq<Kind>)
    ensures Users(f + g) == Users(f) + Users(g)
    decreases |g|
  {
    if g == [] {
      assert f + g == f;
    } else {
      var n := |g| - 1;
      assert (f + g)[..|f| + n] == f + g[..n];
      UsersAppend(f, g[..n]);
    }
  }

  lemma OneUser(k: Kind)
    ensures Users([k]) == if k.User? then [k.e] else []
  {
    assert [k][..0] == [];
  }

  lemma {:induction false} NoUsers(f: seq<Kind>)
    requires forall i :: 0 <= i < |f| ==> f[i].KeyUp?
    ensures Users(f) == []
    decreases |f|
  {
    if f != [] {
      NoUsers(f[..|f| - 1]);
    }
  }

  lemma NoUsersInKeyUps(k: nat)
    requires k <= MODIFIER_KEYS
    ensures Users(KeyUps(k)) == []
  {
    KeyUpsAre(k);
    NoUsers(KeyUps(k));
  }

  lemma UsersOfRequest(a: Action, primed: bool)
    ensures Users(Request(a, primed)) == if a.Post? then [a.e] else []
  {
    NoUsersInKeyUps(0);
    if a.Post? {
      OneUser(User(a.e));
      UsersAppend(if primed then [] else KeyUps(0), [User(a.e)]);
    }
  }

  lemma {:induction false} UsersOfRequested(acts: seq<Action>)
    ensures Users(Requested(acts)) == PostsOf(acts)
    decreases |acts|
  {
    if acts != [] {
      var n := |acts| - 1;
      UsersOfRequested(acts[..n]);
      UsersOfRequest(acts[n], AnyPost(acts[..n]));
      UsersAppend(Requested(acts[..n]), Request(acts[n], AnyPost(acts[..n])));
    }
  }

  lemma UsersOfPart(events: seq<Kind>, id: int)
    ensures Users(UserPart(events, id)) == EventOf(events, id)
  {
    if UserPart(events, id) != [] {
      OneUser(events[id]);
    }
  }

  lemma UsersOfUpsAndPart(events: seq<Kind>, k: nat, user: int)
    requires k <= MODIFIER_KEYS
    ensures Users(KeyUps(k) + UserPart(events, user)) == EventOf(events, user)
  {
    NoUsersInKeyUps(k);
    UsersOfPart(events, user);
    UsersAppend(KeyUps(k), UserPart(events, user));
  }

  /** Of what is to come, the callers' part is the event not submitted yet. */
  lemma UsersToCome(s: State)
    requires Placed(s)
    ensures Users(Coming(s.events, s.poster)) == Still(s)
  {
    match s.poster
    case Ready =>
    case Waiting(id, k, user) =>
      UsersOfUpsAndPart(s.events, k, user);
      UsersOfPart(s.events, id);
      UsersAppend(UserPart(s.events, id), KeyUps(k) + UserPart(s.events, user));
      PlusIsAssociative(UserPart(s.events, id), KeyUps(k), UserPart(s.events, user));
    case Making(k, user) => UsersOfUpsAndPart(s.events, k, user);
    case Slot(_, k, user) => UsersOfUpsAndPart(s.events, k, user);
    case Dropping(_, k, user) => UsersOfUpsAndPart(s.events, k, user);
  }

  lemma ComingOfPost(s: State, a: Action)
    requires Enabled(s, a) && a.Post?
    ensures var s' := Apply(s, a); Coming(s'.events, s'.poster) == Request(a, s.primed)
  {
    var s' := Apply(s, a);
    NextComing(s'.events, if s.primed then MODIFIER_KEYS else 0, |s.events|);
    assert UserPart(s'.events, |s.events|) == [User(a.e)];
  }

  lemma ComingOfRelease(s: State, a: Action)
    requires Enabled(s, a) && a.ReleaseModifiers?
    ensures var s' := Apply(s, a); Coming(s'.events, s'.poster) == Request(a, s.primed)
  {
    NextComing(s.events, 0, -1);
    assert KeyUps(0) + [] == KeyUps(0);
  }

  /** A call finds nothing to come, and leaves what has been attempted. */
  lemma CallsStartReady(s: State, a: Action)
    requires Enabled(s, a) && (a.Post? || a.ReleaseModifiers?)
    ensures Apply(s, a).attempts == s.attempts && s.attempts + Coming(s.events, s.poster) == s.attempts
  {
  }

  lemma PrimedAfter(s: State, a: Action)
    requires Enabled(s, a)
    ensures Apply(s, a).primed <==> s.primed || a.Post?
  {
  }

  /** A call adds what it asks for to what will have been attempted; no other step changes that. */
  lemma RequestAdds(s: State, a: Action)
    requires Placed(s) && Enabled(s, a)
    ensures var s' := Apply(s, a);
            s'.attempts + Coming(s'.events, s'.poster) ==
            s.attempts + Coming(s.events, s.poster) + Request(a, s.primed)
    ensures Apply(s, a).primed <==> s.primed || a.Post?
  {
    PrimedAfter(s, a);
    hide Apply, Coming;
    if a.Post? {
      CallsStartReady(s, a);
      ComingOfPost(s, a);
    } else if a.ReleaseModifiers? {
      CallsStartReady(s, a);
      ComingOfRelease(s, a);
    } else {
      FutureSame(s, a);
    }
  }

  lemma {:induction false} UsersOfGrow(events: seq<Kind>, more: seq<Kind>, ids: seq<nat>)
    requires events <= more && forall i :: 0 <= i < |ids| ==> ids[i] < |events|
    ensures UsersOf(more, ids) == UsersOf(events, ids)
    decreases |ids|
  {
    if ids != [] {
      UsersOfGrow(events, more, ids[..|ids| - 1]);
    }
  }

  lemma EventsOnlyGrow(s: State, a: Action)
    requires Enabled(s, a)
    ensures s.events <= Apply(s, a).events
  {
  }

  lemma UsersOfSnoc(events: seq<Kind>, ids: seq<nat>, id: nat)
    ensures UsersOf(events, ids + [id]) == UsersOf(events, ids) + EventOf(events, id)
  {
    assert (ids + [id])[..|ids|] == ids;
  }

  /** The callers' attempts are the callers' submissions. */
  ghost predicate Noted(s: State) {
    Users(s.attempts) == UsersOf(s.events, s.submitted)
  }

  lemma NotedKeptBySubmission(s: State, a: Action)
    requires Placed(s) && Noted(s) && Enabled(s, a) && (a.Acquire? || a.TimeOut?)
    ensures Noted(Apply(s, a))
  {
    var s' := Apply(s, a);
    var mine := UserPart(s.events, s.poster.id);
    assert s'.attempts == s.attempts + mine && s'.events == s.events;
    assert s'.submitted == s.submitted + [s.poster.id];
    hide UsersOf, Users, UserPart, EventOf;
    UsersOfSnoc(s.events, s.submitted, s.poster.id);
    UsersOfPart(s.events, s.poster.id);
    UsersAppend(s.attempts, mine);
  }

  lemma NotedKeptByRest(s: State, a: Action)
    requires Settled(s) && Noted(s) && Enabled(s, a) && !a.Acquire? && !a.TimeOut?
    ensures Noted(Apply(s, a))
  {
    var s' := Apply(s, a);
    EventsOnlyGrow(s, a);
    UsersOfGrow(s.events, s'.events, s.submitted);
    assert s'.submitted == s.submitted;
    if a.KeyUpMade? || a.KeyUpFailed? {
      OneUser(KeyUp(s.poster.k));
      UsersAppend(s.attempts, [KeyUp(s.poster.k)]);
    }
  }

  lemma NotedKept(s: State, a: Action)
    requires Placed(s) && Settled(s) && Noted(s) && Enabled(s, a)
    ensures Noted(Apply(s, a))
  {
    if a.Acquire? || a.TimeOut? {
      NotedKeptBySubmission(s, a);
    } else {
      NotedKeptByRest(s, a);
    }
  }

  /** Once a caller's event is in the poster's hands there is no other. */
  predicate Single(s: State) {
    Active(s.poster) && EventOf(s.events, s.poster.id) != [] ==> s.poster.user == -1
  }

  lemma SingleKept(s: State, a: Action)
    requires Placed(s) && Single(s) && Enabled(s, a)
    ensures Single(Apply(s, a))
  {
    EventsOnlyGrow(s, a);
  }

  // ---- Over whole runs ---------------------------------------------------------------------------------

  ghost predicate Inv(s: State) {
    && SlotsConserved(s) && Placed(s) && Settled(s) && InOrder(s) && Counted(s) && Primed(s)
    && Noted(s) && Single(s)
  }

  lemma InvKept(s: State, a: Action)
    requires Inv(s) && Enabled(s, a)
    ensures Inv(Apply(s, a))
  {
    SlotsKept(s, a);
    PlacedKept(s, a);
    SettledKept(s, a);
    InOrderKept(s, a);
    CountedKept(s, a);
    PrimedKept(s, a);
    NotedKept(s, a);
    SingleKept(s, a);
  }

  lemma InvAtStart()
    ensures Inv(START)
  {
    assert Coming(START.events, START.poster) == [];
  }

  lemma {:induction false} RunKeepsInv(tr: seq<State>, acts: seq<Action>, i: nat)
    requires Run(tr, acts) && i < |tr|
    ensures Inv(tr[i])
  {
    hide Inv, Enabled, Apply;
    if i == 0 {
      InvAtStart();
    } else {
      RunKeepsInv(tr, acts, i - 1);
      assert Follows(tr, acts, i - 1);
      InvKept(tr[i - 1], acts[i - 1]);
    }
  }

  /** Everything the callers asked for has been attempted or is still to come, in order, and nothing else. */
  lemma {:induction false} AllAttempted(tr: seq<State>, acts: seq<Action>, i: nat)
    requires Run(tr, acts) && i < |tr|
    ensures tr[i].attempts + Coming(tr[i].events, tr[i].poster) == Requested(acts[..i])
    ensures tr[i].primed <==> AnyPost(acts[..i])
  {
    hide Enabled, Apply, Inv;
    if i == 0 {
      AttemptsAtStart();
      assert acts[..0] == [];
    } else {
      AllAttempted(tr, acts, i - 1);
      RunKeepsInv(tr, acts, i - 1);
      assert Follows(tr, acts, i - 1);
      PlacedByInv(tr[i - 1]);
      RequestAdds(tr[i - 1], acts[i - 1]);
      assert acts[..i][..i - 1] == acts[..i - 1];
    }
  }

  lemma AttemptsAtStart()
    ensures START.attempts + Coming(START.events, START.poster) == [] && !START.primed
  {
  }

  lemma PlacedByInv(s: State)
    requires Inv(s)
    ensures Placed(s) && Noted(s) && Single(s)
  {
  }

  /** The callers' events that were submitted, and the one that is still to be, are those they posted, in order. */
  lemma PostsAreSubmitted(tr: seq<State>, acts: seq<Action>, i: nat)
    requires Run(tr, acts) && i < |tr|
    ensures UsersOf(tr[i].events, tr[i].submitted) + Still(tr[i]) == PostsOf(acts[..i])
    ensures |Still(tr[i])| <= 1
  {
    hide Inv;
    var s := tr[i];
    RunKeepsInv(tr, acts, i);
    PlacedByInv(s);
    AllAttempted(tr, acts, i);
    UsersToCome(s);
    UsersAppend(s.attempts, Coming(s.events, s.poster));
    UsersOfRequested(acts[..i]);
  }

  /**
   The slots always add up; what was delivered and what is on its way is what was submitted, less what was lost;
   and what was submitted is what callers posted, but for the one event the poster still has in hand.
   */
  lemma QueueConserves(tr: seq<State>, acts: seq<Action>, i: nat)
    requires Run(tr, acts) && i < |tr|
    ensures var s := tr[i];
            && s.free + InFlight(s) == 512
            && s.delivered + (if s.worker.Took? then [s.worker.id] else []) + s.queue == SentOf(s.submitted, s.fates)
            && (forall k :: 0 <= k < |s.submitted| ==>
                  && s.submitted[k] < |s.fates|
                  && (s.fates[s.submitted[k]] == Unsent <==> s.poster.Slot? && s.poster.id == s.submitted[k]))
            && UsersOf(s.events, s.submitted) + Still(s) == PostsOf(acts[..i])
            && |Still(s)| <= 1
  {
    RunKeepsInv(tr, acts, i);
    PostsAreSubmitted(tr, acts, i);
  }

  // ---- Delivery in posting order ---------------------------------------------------------------------------

  lemma {:induction false} UsersOfAppend(events: seq<Kind>, a: seq<nat>, b: seq<nat>)
    ensures UsersOf(events, a + b) == UsersOf(events, a) + UsersOf(events, b)
    decreases |b|
  {
    if b == [] {
      assert a + b == a;
    } else {
      hide EventOf, UsersOf;
      var n := |b| - 1;
      FrontOfSum(a, b);
      UsersOfAppend(events, a, b[..n]);
      UsersOfLast(events, a + b);
      UsersOfLast(events, b);
      PlusIsAssociative(UsersOf(events, a), UsersOf(events, b[..n]), EventOf(events, b[n]));
    }
  }

  lemma UsersOfLast(events: seq<Kind>, ids: seq<nat>)
    requires ids != []
    ensures var n := |ids| - 1; UsersOf(events, ids) == UsersOf(events, ids[..n]) + EventOf(events, ids[n])
  {
  }

  /** No caller's event among these was lost. */
  ghost predicate NoneLost(events: seq<Kind>, ids: seq<nat>, fates: seq<Fate>) {
    forall k :: 0 <= k < |ids| && EventOf(events, ids[k]) != [] ==> ids[k] < |fates| && fates[ids[k]] == Sent
  }

  lemma NoneLostSnoc(events: seq<Kind>, ids: seq<nat>, fates: seq<Fate>)
    requires ids != []
    ensures var n := |ids| - 1;
            NoneLost(events, ids, fates) <==>
            && NoneLost(events, ids[..n], fates)
            && (EventOf(events, ids[n]) != [] ==> ids[n] < |fates| && fates[ids[n]] == Sent)
  {
    var n := |ids| - 1;
    assert forall k :: 0 <= k < n ==> ids[..n][k] == ids[k];
  }

  /** What is left of some, next to all of them; and whether that is all. */
  ghost predicate LeftOf<T>(some: seq<T>, all: seq<T>, whole: bool) {
    && IsSubsequence(some, all) && |some| <= |all|
    && (|some| == |all| <==> whole) && (some == all <==> whole)
  }

  lemma LeftOfMore<T>(some: seq<T>, all: seq<T>, whole: bool, x: seq<T>, kept: bool)
    requires LeftOf(some, all, whole) && |x| <= 1
    ensures LeftOf(some + if kept then x else [], all + x, whole && (x != [] ==> kept))
  {
    if x == [] {
      assert some + [] == some && all + [] == all;
    } else {
      assert x == [x[0]];
      SubsequenceSnoc(some, all, x[0]);
      assert some + [] == some;
    }
  }

  /** Losing some leaves a subsequence, and all of them exactly if no caller's event is lost. */
  lemma {:induction false} SentUsers(events: seq<Kind>, ids: seq<nat>, fates: seq<Fate>)
    ensures LeftOf(UsersOf(events, SentOf(ids, fates)), UsersOf(events, ids), NoneLost(events, ids, fates))
    decreases |ids|
  {
    hide IsSubsequence, NoneLost;
    if ids == [] {
      NothingSent(events, fates);
    } else {
      var n := |ids| - 1;
      SentUsers(events, ids[..n], fates);
      NoneLostSnoc(events, ids, fates);
      UsersOfSent(events, ids, fates);
      LeftOfMore(UsersOf(events, SentOf(ids[..n], fates)), UsersOf(events, ids[..n]), NoneLost(events, ids[..n], fates),
                 EventOf(events, ids[n]), IsSent(fates, ids[n]));
    }
  }

  predicate IsSent(fates: seq<Fate>, id: nat) {
    id < |fates| && fates[id] == Sent
  }

  lemma NothingSent(events: seq<Kind>, fates: seq<Fate>)
    ensures LeftOf(UsersOf(events, SentOf([], fates)), UsersOf(events, []), NoneLost(events, [], fates))
  {
  }

  lemma UsersOfSent(events: seq<Kind>, ids: seq<nat>, fates: seq<Fate>)
    requires ids != []
    ensures var n := |ids| - 1;
            UsersOf(events, SentOf(ids, fates)) ==
            UsersOf(events, SentOf(ids[..n], fates)) + if IsSent(fates, ids[n]) then EventOf(events, ids[n]) else []
  {
    var n := |ids| - 1;
    var front := SentOf(ids[..n], fates);
    if IsSent(fates, ids[n]) {
      UsersOfSnoc(events, front, ids[n]);
    } else {
      assert front + [] == front;
      assert UsersOf(events, front) + [] == UsersOf(events, front);
    }
  }

  /** What callers posted is delivered in the order they posted it, whatever is lost between. */
  lemma DeliveredInPostingOrder(tr: seq<State>, acts: seq<Action>, i: nat)
    requires Run(tr, acts) && i < |tr|
    ensures IsSubsequence(UsersOf(tr[i].events, tr[i].delivered), PostsOf(acts[..i]))
  {
    hide IsSubsequence, UsersOf, PostsOf;
    var s := tr[i];
    QueueConserves(tr, acts, i);
    SentUsers(s.events, s.submitted, s.fates);
    var rest := (if s.worker.Took? then [s.worker.id] else []) + s.queue;
    assert s.delivered + rest == SentOf(s.submitted, s.fates);
    UsersOfAppend(s.events, s.delivered, rest);
    PrefixOfSubsequence(UsersOf(s.events, s.delivered), UsersOf(s.events, rest), UsersOf(s.events, s.submitted));
    SubsequenceOfMore(UsersOf(s.events, s.delivered), UsersOf(s.events, s.submitted), Still(s));
  }

  lemma DeliveredAreEvents(tr: seq<State>, acts: seq<Action>, i: nat, d: nat)
    requires Run(tr, acts) && i < |tr| && d < |tr[i].delivered|
    ensures tr[i].delivered[d] < |tr[i].events|
  {
    RunKeepsInv(tr, acts, i);
    SequenceDistinct(tr[i]);
    assert Sequence(tr[i])[d] == tr[i].delivered[d];
    assert tr[i].delivered[d] in Sequence(tr[i]);
  }

  /** Nothing is on its way. */
  predicate AtRest(s: State) {
    s.poster.Ready? && s.queue == [] && !s.worker.Took?
  }

  /**
   Once everything has come to rest, what was delivered is all that was posted if and only if no wait for a slot
   or memory failed.
   */
  lemma AllDeliveredIff(tr: seq<State>, acts: seq<Action>, i: nat)
    requires Run(tr, acts) && i < |tr| && AtRest(tr[i])
    ensures var s := tr[i];
            UsersOf(s.events, s.delivered) == PostsOf(acts[..i]) <==>
            forall k :: 0 <= k < |s.submitted| && EventOf(s.events, s.submitted[k]) != [] ==>
              && s.submitted[k] < |s.fates|
              && s.fates[s.submitted[k]] != TimedOut && s.fates[s.submitted[k]] != OutOfMemory
  {
    var s := tr[i];
    QueueConserves(tr, acts, i);
    SentUsers(s.events, s.submitted, s.fates);
    assert s.delivered + [] + s.queue == s.delivered;
    assert UsersOf(s.events, s.submitted) + [] == UsersOf(s.events, s.submitted);
  }

  // ---- When an event can be lost ------------------------------------------------------------------------------

  /** The poster gets a slot exactly while one of the 512 is free, and gives up exactly while all are taken. */
  lemma SlotIffRoom(tr: seq<State>, acts: seq<Action>, i: nat)
    requires Run(tr, acts) && i < |tr| && tr[i].poster.Waiting?
    ensures InFlight(tr[i]) <= 512
    ensures Enabled(tr[i], Acquire) <==> InFlight(tr[i]) < 512
    ensures Enabled(tr[i], TimeOut) <==> InFlight(tr[i]) == 512
  {
    RunKeepsInv(tr, acts, i);
  }

  /** A post only ever times out while 512 others are queued or with the worker. */
  lemma TimesOutOnlyWhenFull(tr: seq<State>, acts: seq<Action>, i: nat)
    requires Run(tr, acts) && i < |acts| && acts[i].TimeOut?
    ensures InFlight(tr[i]) == 512
    ensures |tr[i].queue| + (if tr[i].worker.Idle? then 0 else 1) == 512
  {
    assert Follows(tr, acts, i);
    RunKeepsInv(tr, acts, i);
  }

  /** There is room at every moment up to the `i`-th, and memory at every step. */
  ghost predicate NeverShort(tr: seq<State>, acts: seq<Action>, i: nat)
    requires |tr| == |acts| + 1 && i < |tr|
  {
    && (forall j :: 0 <= j < i ==> InFlight(tr[j]) < 512)
    && (forall j :: 0 <= j < i ==> !acts[j].NoMemory?)
  }

  ghost predicate NoFateLost(fates: seq<Fate>) {
    forall id :: 0 <= id < |fates| ==> fates[id] != TimedOut && fates[id] != OutOfMemory
  }

  lemma NoFateLostKept(s: State, a: Action)
    requires NoFateLost(s.fates) && Enabled(s, a) && !a.TimeOut? && !a.NoMemory?
    ensures NoFateLost(Apply(s, a).fates)
  {
  }

  lemma {:induction false} NeverShortLosesNothing(tr: seq<State>, acts: seq<Action>, i: nat)
    requires Run(tr, acts) && i < |tr| && NeverShort(tr, acts, i)
    ensures NoFateLost(tr[i].fates)
  {
    if i > 0 {
      NeverShortLosesNothing(tr, acts, i - 1);
      assert Follows(tr, acts, i - 1);
      if acts[i - 1].TimeOut? {
        TimesOutOnlyWhenFull(tr, acts, i - 1);
      }
      NoFateLostKept(tr[i - 1], acts[i - 1]);
    }
  }

  /** A run that never has all 512 slots taken, and never lacks memory, delivers every event its callers posted. */
  lemma NeverShortDeliversAll(tr: seq<State>, acts: seq<Action>, i: nat)
    requires Run(tr, acts) && i < |tr| && AtRest(tr[i]) && NeverShort(tr, acts, i)
    ensures UsersOf(tr[i].events, tr[i].delivered) == PostsOf(acts[..i])
  {
    NeverShortLosesNothing(tr, acts, i);
    AllDeliveredIff(tr, acts, i);
    QueueConserves(tr, acts, i);
  }

  // ---- Everything comes to rest -------------------------------------------------------------------------------

  predicate IsCall(a: Action) {
    a.Post? || a.ReleaseModifiers?
  }

  /** Steps left for the key-ups from `k` on and the caller's event, counting the worker's for each. */
  function CallWork(k: nat, user: int): nat
    requires k <= MODIFIER_KEYS
  {
    8 * (MODIFIER_KEYS - k) + if user >= 0 then 7 else 0
  }

  function PosterWork(p: Poster): nat
    requires !p.Ready? ==> p.k <= MODIFIER_KEYS
  {
    match p
    case Ready => 0
    case Making(k, user) => CallWork(k, user)
    case Waiting(_, k, user) => 7 + CallWork(k, user)
    case Slot(_, k, user) => 6 + CallWork(k, user)
    case Dropping(_, k, user) => 1 + CallWork(k, user)
  }

  function WorkerWork(w: Worker): nat {
    match w
    case Idle => 0
    case Took(_) => 3
    case Delivered(_) => 2
    case Freed => 1
  }

  /** An upper bound on the steps before poster and worker have nothing left to do. */
  function Work(s: State): nat
    requires Placed(s)
  {
    PosterWork(s.poster) + 4 * |s.queue| + WorkerWork(s.worker)
  }

  /** Every step but a caller's brings the rest nearer. */
  lemma WorkFalls(s: State, a: Action)
    requires Placed(s) && Enabled(s, a) && !IsCall(a)
    ensures Placed(Apply(s, a)) && Work(Apply(s, a)) < Work(s)
  {
    PlacedKept(s, a);
  }

  /** Nothing is left to do: the poster is ready and the worker idle, with an empty queue. */
  predicate Finished(s: State) {
    s.poster.Ready? && s.queue == [] && s.worker.Idle?
  }

  /** As long as something is left to do, a step that is not a caller's is possible, without losing anything. */
  lemma NeverStuck(s: State) returns (a: Action)
    requires Inv(s) && !Finished(s)
    ensures Enabled(s, a) && !IsCall(a) && !a.TimeOut? && !a.NoMemory? && !a.KeyUpFailed?
  {
    var p, w := s.poster, s.worker;
    if w.Took? || w.Delivered? {
      a := if w.Took? then Deliver else Free;
      QueuedIsKnown(s, w.id);
    } else if w.Freed? {
      a := Signal;
    } else if s.queue != [] {
      a := Take;
    } else {
      a := if p.Making? then KeyUpMade else if p.Waiting? then Acquire else if p.Slot? then Enqueue else DropOwn;
    }
  }

  lemma QueuedIsKnown(s: State, id: nat)
    requires Inv(s) && Queued(s, id)
    ensures Known(s, id)
  {
    QueuedAreEvents(s, id);
  }

  /** One more action at the end of a run. */
  lemma Extend(tr: seq<State>, acts: seq<Action>, a: Action) returns (tr': seq<State>, acts': seq<Action>)
    requires Run(tr, acts) && Enabled(tr[|acts|], a)
    ensures Run(tr', acts') && acts' == acts + [a]
    ensures tr'[|acts'|] == Apply(tr[|acts|], a)
  {
    tr', acts' := tr + [Apply(tr[|acts|], a)], acts + [a];
    forall i: nat | i < |acts'| ensures Follows(tr', acts', i) {
      if i < |acts| {
        assert Follows(tr, acts, i);
        assert tr'[i] == tr[i] && acts'[i] == acts[i] && tr'[i + 1] == tr[i + 1];
      }
    }
  }

  /**
   Every run can be finished without losing another event and without a further call: then all 512 slots are free
   again.
   */
  lemma {:induction false} ComesToRest(tr: seq<State>, acts: seq<Action>)
      returns (tr': seq<State>, acts': seq<Action>)
    requires Run(tr, acts)
    ensures Run(tr', acts') && acts <= acts'
    ensures forall j :: |acts| <= j < |acts'| ==> !IsCall(acts'[j]) && !acts'[j].TimeOut? && !acts'[j].NoMemory?
    ensures Finished(tr'[|acts'|]) && tr'[|acts'|].free == 512
    decreases (RunKeepsInv(tr, acts, |acts|); Work(tr[|acts|]))
  {
    var s := tr[|acts|];
    RunKeepsInv(tr, acts, |acts|);
    if Finished(s) {
      tr', acts' := tr, acts;
    } else {
      var a := NeverStuck(s);
      WorkFalls(s, a);
      var tr1, acts1 := Extend(tr, acts, a);
      tr', acts' := ComesToRest(tr1, acts1);
    }
  }

  /** And no run goes on for ever without a call: what is left to do bounds the steps. */
  lemma {:induction false} RestIsReached(tr: seq<State>, acts: seq<Action>, i: nat, n: nat)
    requires Run(tr, acts) && i + n < |tr| && forall j :: i <= j < i + n ==> !IsCall(acts[j])
    ensures Placed(tr[i]) && Placed(tr[i + n]) && Work(tr[i + n]) + n <= Work(tr[i])
  {
    RunKeepsInv(tr, acts, i);
    if n > 0 {
      RestIsReached(tr, acts, i, n - 1);
      assert Follows(tr, acts, i + n - 1);
      WorkFalls(tr[i + n - 1], acts[i + n - 1]);
    }
  }

  /**
   No reference is released twice or leaked: at rest each holder has released its own, and before that the event
   lives.
   */
  lemma ReferencesReleasedOnce(tr: seq<State>, acts: seq<Action>, i: nat, id: nat)
    requires Run(tr, acts) && i < |tr| && id < |tr[i].events|
    ensures var s := tr[i];
            && Known(s, id)
            && s.held[id] == (if s.fates[id] == Sent then 2 else 1)
            && s.freed[id] <= s.held[id]
            && (Owned(s.poster, id) || Queued(s, id) ==> s.freed[id] < s.held[id])
            && (!Owned(s.poster, id) && !Queued(s, id) ==> s.freed[id] == s.held[id])
  {
    RunKeepsInv(tr, acts, i);
    assert CountedAt(tr[i], id);
  }

  /** The nine modifier key-ups are attempted, in order, right before the first event anyone posts. */
  lemma ModifiersReleasedFirst(tr: seq<State>, acts: seq<Action>, i: nat, p: nat)
    requires Run(tr, acts) && i < |tr| && p < |tr[i].attempts|
    requires tr[i].attempts[p].User? && forall k :: 0 <= k < p ==> tr[i].attempts[k].KeyUp?
    ensures p >= 9
    ensures forall k :: 0 <= k < 9 ==> tr[i].attempts[p - 9 + k] == KeyUp(k)
  {
    RunKeepsInv(tr, acts, i);
    KeyUpsBefore(tr[i].attempts, Coming(tr[i].events, tr[i].poster), p);
  }

  /** Attempts still to come after the first user event say nothing about what came before it. */
  lemma KeyUpsBefore(f: seq<Kind>, g: seq<Kind>, p: nat)
    requires FirstUser(f, p) && ReleasedFirst(f + g)
    ensures p >= MODIFIER_KEYS
    ensures forall k :: 0 <= k < MODIFIER_KEYS ==> f[p - MODIFIER_KEYS + k] == KeyUp(k)
  {
    var h := f + g;
    assert forall k :: 0 <= k < |f| ==> h[k] == f[k];
    assert FirstUser(h, p);
    KeyUpsAre(0);
    forall k | 0 <= k < MODIFIER_KEYS ensures f[p - MODIFIER_KEYS + k] == KeyUp(k) {
      assert h[p - MODIFIER_KEYS..p][k] == KeyUps(0)[k];
    }
  }
}
