/**
 Session takeover.  The input thread and the main loop share the current
 connection, the reset flag and the listener; viewers connect, send and hang up
 at any time.  One event is one step of one of them.
 */
module Session {
  import opened Bytes
  import opened Framing
  import Injection
  import opened InputStream
  import opened Modifiers
  import opened Sequences

  /** A viewer's connection, numbered in the order the listener hands them out. */
  datatype Conn = Conn(sent: seq<byte>, chunks: seq<seq<byte>>, hungUp: bool, closes: nat)

  /** Where the main loop is. */
  datatype MainPc = Boot | Serving | Accepting | Done

  /** An input thread; its buffer is its own. */
  datatype Thread = Thread(pending: seq<byte>)

  datatype Entry = Entry(conn: nat, call: Call)

  /** `current` is the connection the shared descriptor denotes, -1 for none. */
  datatype State = State(
    conns: seq<Conn>,
    accepted: nat,
    current: int,
    threads: seq<Thread>,
    resetipc: bool,
    shutdown: bool,
    main: MainPc,
    frameZeroed: bool,
    log: seq<Entry>,
    held: set<Flag>,
    evictedAt: nat)

  datatype Event =
    | Connect
    | Send(c: nat, data: seq<byte>)
    | HangUp(c: nat)
    | BootAccept
    | BootFail
    | Evict(t: nat)
    | Read(t: nat, n: nat)
    | Eof(t: nat)
    | ThreadStop(t: nat)
    | ResetClose
    | Reaccept
    | ReacceptFail
    | Shutdown
    | Reinit

  const START: State := State([], 0, -1, [], false, false, Boot, false, [], {}, 0)

  ghost function Unread(c: Conn): seq<byte> {
    var n := |Flatten(c.chunks)|;
    if n <= |c.sent| then c.sent[n..] else []
  }

  predicate HasThread(s: State, t: nat) {
    t < |s.threads| && 0 <= s.current < |s.conns|
  }

  ghost predicate Enabled(s: State, e: Event) {
    match e
    case Connect => true
    case Send(c, _) => c < |s.conns| && !s.conns[c].hungUp
    case HangUp(c) => c < |s.conns|
    case BootAccept => s.main == Boot && s.accepted < |s.conns|
    case BootFail => s.main == Boot
    case Evict(t) => HasThread(s, t) && s.accepted < |s.conns|
    case Read(t, n) =>
      && HasThread(s, t)
      && 0 < n <= |Unread(s.conns[s.current])|
      && n <= CAPACITY - |s.threads[t].pending|
    case Eof(t) => HasThread(s, t)
    case ThreadStop(t) => HasThread(s, t) && s.shutdown
    case ResetClose => s.main == Serving && s.resetipc && !s.shutdown && 0 <= s.current < |s.conns|
    case Reaccept => s.main == Accepting && s.accepted < |s.conns|
    case ReacceptFail => s.main == Accepting
    case Shutdown => s.main == Serving
    case Reinit => s.main == Serving && !s.shutdown
  }

  function CloseConn(conns: seq<Conn>, c: nat): seq<Conn>
    requires c < |conns|
  {
    conns[c := conns[c].(closes := conns[c].closes + 1)]
  }

  function Without<T>(ts: seq<T>, t: nat): seq<T>
    requires t < |ts|
  {
    ts[..t] + ts[t + 1..]
  }

  function Entries(c: nat, calls: seq<Call>): seq<Entry> {
    if calls == [] then [] else [Entry(c, calls[0])] + Entries(c, calls[1..])
  }

  /** What a call does to the tracked modifiers. */
  function HeldAfter(held: set<Flag>, call: Call): set<Flag> {
    var a := Interpret(call, 1);
    if a.KeyPress? then Track(held, a.vk, a.up) else held
  }

  function Replay(held: set<Flag>, log: seq<Entry>): set<Flag>
    decreases |log|
  {
    if log == [] then held else HeldAfter(Replay(held, log[..|log| - 1]), log[|log| - 1].call)
  }

  ghost function Apply(s: State, e: Event): State
    requires Enabled(s, e)
  {
    match e
    case Connect => s.(conns := s.conns + [Conn([], [], false, 0)])
    case Send(c, data) => s.(conns := s.conns[c := s.conns[c].(sent := s.conns[c].sent + data)])
    case HangUp(c) => s.(conns := s.conns[c := s.conns[c].(hungUp := true)])
    case BootAccept =>
      s.(current := s.accepted, accepted := s.accepted + 1, threads := s.threads + [Thread([])], main := Serving)
    case BootFail => s.(main := Done)
    case Evict(t) =>
      s.(held := {}, evictedAt := |s.log|,
         conns := CloseConn(s.conns, s.current),
         current := s.accepted, accepted := s.accepted + 1,
         frameZeroed := true,
         threads := s.threads[t := Thread([])])
    case Read(t, n) =>
      var c := s.current;
      var chunk := Unread(s.conns[c])[..n];
      var p := Pass(s.threads[t].pending, chunk);
      var entries := Entries(c, p.items);
      s.(conns := s.conns[c := s.conns[c].(chunks := s.conns[c].chunks + [chunk])],
         threads := s.threads[t := Thread(p.rest)],
         log := s.log + entries,
         held := Replay(s.held, entries))
    case Eof(t) => s.(resetipc := true, threads := Without(s.threads, t))
    case ThreadStop(t) => s.(threads := Without(s.threads, t))
    case ResetClose =>
      s.(resetipc := false, conns := CloseConn(s.conns, s.current), frameZeroed := true, main := Accepting)
    case Reaccept =>
      s.(current := s.accepted, accepted := s.accepted + 1, threads := s.threads + [Thread([])], main := Serving)
    case ReacceptFail => s.(current := -1, shutdown := true, main := Done)
    case Shutdown => s.(shutdown := true, main := Done)
    case Reinit => s.(frameZeroed := false)
  }

  /** The `i`-th event of a run is possible in the state before it and leads to the one after it. */
  ghost predicate Follows(tr: seq<State>, es: seq<Event>, i: nat) {
    i < |es| && i + 1 < |tr| && Enabled(tr[i], es[i]) && tr[i + 1] == Apply(tr[i], es[i])
  }

  /** A run: the states passed through, and the events between them. */
  ghost predicate Run(tr: seq<State>, es: seq<Event>) {
    && |tr| == |es| + 1
    && tr[0] == START
    && forall i :: 0 <= i < |es| ==> Follows(tr, es, i)
  }

  // ---- Threads, the reset flag and the descriptor ------------------------------------

  ghost predicate Control(s: State) {
    && |s.threads| <= 1
    && (s.resetipc ==> s.threads == [])
    && (s.main == Accepting ==> s.threads == [] && !s.resetipc && s.frameZeroed)
    && (s.main == Serving && !s.resetipc && !s.shutdown ==> |s.threads| == 1)
    && (s.main == Boot ==> s.threads == [] && !s.resetipc && s.accepted == 0)
    && s.accepted <= |s.conns|
    && (s.current == -1 || s.current == s.accepted - 1)
    && (s.main == Serving || s.main == Accepting || s.threads != [] ==> 0 <= s.current)
  }

  /** Steps of the viewers and of the input thread. */
  predicate OfThread(e: Event) {
    e.Connect? || e.Send? || e.HangUp? || e.Evict? || e.Read? || e.Eof? || e.ThreadStop?
  }

  lemma ControlKeptByThread(s: State, e: Event)
    requires Control(s) && Enabled(s, e) && OfThread(e)
    ensures Control(Apply(s, e))
  {
  }

  lemma ControlKeptByMain(s: State, e: Event)
    requires Control(s) && Enabled(s, e) && !OfThread(e)
    ensures Control(Apply(s, e))
  {
  }

  lemma ControlKept(s: State, e: Event)
    requires Control(s) && Enabled(s, e)
    ensures Control(Apply(s, e))
  {
    if OfThread(e) {
      ControlKeptByThread(s, e);
    } else {
      ControlKeptByMain(s, e);
    }
  }

  /** How often the agent has closed each connection. */
  ghost predicate Closed(s: State) {
    && (forall c :: s.accepted <= c < |s.conns| ==> s.conns[c].closes == 0)
    && (forall c :: 0 <= c < s.accepted && c < |s.conns| ==>
                      s.conns[c].closes == if c == s.current && s.main != Accepting then 0 else 1)
  }

  predicate Closes(e: Event) {
    e.Evict? || e.ResetClose?
  }

  predicate Accepts(e: Event) {
    e.BootAccept? || e.Reaccept? || e.Evict?
  }

  /** What an event does to the counts: the current connection is closed, or none. */
  lemma ClosesAfter(s: State, e: Event)
    requires Control(s) && Enabled(s, e)
    ensures var s' := Apply(s, e);
            && |s.conns| <= |s'.conns|
            && (forall c :: 0 <= c < |s.conns| ==>
                  s'.conns[c].closes == s.conns[c].closes + if Closes(e) && c == s.current then 1 else 0)
            && (forall c :: |s.conns| <= c < |s'.conns| ==> s'.conns[c].closes == 0)
  {
  }

  /** What an event does to the place of the current connection among them. */
  lemma CurrentAfter(s: State, e: Event)
    requires Control(s) && Enabled(s, e)
    ensures var s' := Apply(s, e);
            && s'.accepted == s.accepted + (if Accepts(e) then 1 else 0) && s'.accepted <= |s.conns| + 1
            && s'.current == (if Accepts(e) then s.accepted else if e.ReacceptFail? then -1 else s.current)
            && (e.ResetClose? ==> s'.main == Accepting && 0 <= s.current < |s.conns|)
            && (e.Evict? ==> 0 <= s.current < |s.conns| && s.main != Accepting && s'.main != Accepting)
            && (e.ReacceptFail? ==> s.main == Accepting)
            && (!e.ResetClose? && !Accepts(e) && !e.ReacceptFail? && s.main != Accepting ==> s'.main != Accepting)
            && (s'.main == Accepting ==> e.ResetClose? || s.main == Accepting)
            && (s.main == Accepting && s'.main != Accepting ==> e.Reaccept? || e.ReacceptFail?)
  {
  }

  lemma ClosedKept(s: State, e: Event)
    requires Control(s) && Closed(s) && Enabled(s, e)
    ensures Closed(Apply(s, e))
  {
    ClosesAfter(s, e);
    CurrentAfter(s, e);
  }

  // ---- The bytes and the calls of each connection -------------------------------------

  /** The calls logged for one connection. */
  function CallsOf(log: seq<Entry>, c: nat): seq<Call>
    decreases |log|
  {
    if log == [] then []
    else
      var last := log[|log| - 1];
      CallsOf(log[..|log| - 1], c) + (if last.conn == c then [last.call] else [])
  }

  ghost predicate Streams(s: State) {
    && (forall c :: 0 <= c < |s.conns| ==> Flatten(s.conns[c].chunks) <= s.conns[c].sent)
    && (forall c :: 0 <= c < |s.conns| && s.accepted <= c ==> s.conns[c].chunks == [])
    && (forall t :: 0 <= t < |s.threads| && 0 <= s.current < |s.conns| ==>
                      s.threads[t].pending == Passes([], s.conns[s.current].chunks).rest)
  }

  lemma {:induction false} PassesSnoc(pending: seq<byte>, chunks: seq<seq<byte>>, chunk: seq<byte>)
    ensures var p := Passes(pending, chunks);
            var q := Pass(p.rest, chunk);
            Passes(pending, chunks + [chunk]) == Parsed(p.items + q.items, q.rest)
    decreases |chunks|
  {
    var all := chunks + [chunk];
    if chunks == [] {
      assert all[0] == chunk && all[1..] == [];
      PassesCons(pending, all, Pass(pending, chunk));
    } else {
      assert all[0] == chunks[0] && all[1..] == chunks[1..] + [chunk];
      var now := Pass(pending, chunks[0]);
      PassesCons(pending, chunks, now);
      PassesCons(pending, all, now);
      PassesSnoc(now.rest, chunks[1..], chunk);
      var last := Pass(Passes(pending, chunks).rest, chunk);
      PlusIsAssociative(now.items, Passes(now.rest, chunks[1..]).items, last.items);
    }
  }

  lemma ReadIsPrefix(c: Conn, n: nat)
    requires Flatten(c.chunks) <= c.sent && n <= |Unread(c)|
    ensures Flatten(c.chunks + [Unread(c)[..n]]) <= c.sent
  {
    FlattenAppend(c.chunks, [Unread(c)[..n]]);
    FlattenOne(Unread(c)[..n]);
  }

  lemma StreamsKeptByRead(s: State, t: nat, n: nat)
    requires Control(s) && Streams(s) && Enabled(s, Read(t, n))
    ensures Streams(Apply(s, Read(t, n)))
  {
    var c := s.conns[s.current];
    var s' := Apply(s, Read(t, n));
    PassesSnoc([], c.chunks, Unread(c)[..n]);
    ReadIsPrefix(c, n);
    assert s'.conns[s.current].chunks == c.chunks + [Unread(c)[..n]];
    assert forall d :: 0 <= d < |s.conns| && d != s.current ==> s'.conns[d] == s.conns[d];
  }

  /** What every event but a read keeps of the connections: bytes may be added to what was sent. */
  ghost predicate ReadsNothing(s: State, s': State) {
    && |s.conns| <= |s'.conns|
    && (forall d :: 0 <= d < |s.conns| ==>
          s'.conns[d].chunks == s.conns[d].chunks && s.conns[d].sent <= s'.conns[d].sent)
    && (forall d :: |s.conns| <= d < |s'.conns| ==> s'.conns[d].chunks == [])
  }

  lemma ConnsByRest(s: State, e: Event)
    requires Control(s) && Enabled(s, e) && !e.Read?
    ensures ReadsNothing(s, Apply(s, e))
  {
    if e.Connect? || e.Send? || e.HangUp? {
      ConnsByViewer(s, e);
    } else {
      ConnsByAgent(s, e);
    }
  }

  lemma ConnsByViewer(s: State, e: Event)
    requires Enabled(s, e) && (e.Connect? || e.Send? || e.HangUp?)
    ensures ReadsNothing(s, Apply(s, e))
  {
  }

  lemma ConnsByAgent(s: State, e: Event)
    requires Control(s) && Enabled(s, e) && !e.Read? && !e.Connect? && !e.Send? && !e.HangUp?
    ensures ReadsNothing(s, Apply(s, e))
  {
  }

  /** The pending bytes stay those of the current connection; a new connection has none of either. */
  lemma PendingKeptByRest(s: State, e: Event, t: nat)
    requires Control(s) && Streams(s) && Enabled(s, e) && !e.Read?
    requires var s' := Apply(s, e); t < |s'.threads| && 0 <= s'.current < |s'.conns|
    ensures var s' := Apply(s, e); s'.threads[t].pending == Passes([], s'.conns[s'.current].chunks).rest
  {
    ConnsByRest(s, e);
    CurrentAfter(s, e);
    if Accepts(e) {
      assert Apply(s, e).conns[s.accepted].chunks == [];
    }
  }

  lemma StreamsKeptByRest(s: State, e: Event)
    requires Control(s) && Streams(s) && Enabled(s, e) && !e.Read?
    ensures Streams(Apply(s, e))
  {
    var s' := Apply(s, e);
    ConnsByRest(s, e);
    CurrentAfter(s, e);
    forall t: nat | t < |s'.threads| && 0 <= s'.current < |s'.conns|
      ensures s'.threads[t].pending == Passes([], s'.conns[s'.current].chunks).rest
    {
      PendingKeptByRest(s, e, t);
    }
  }

  lemma StreamsKept(s: State, e: Event)
    requires Control(s) && Streams(s) && Enabled(s, e)
    ensures Streams(Apply(s, e))
  {
    if e.Read? {
      StreamsKeptByRead(s, e.t, e.n);
    } else {
      StreamsKeptByRest(s, e);
    }
  }

  /** Each connection's calls are those of its own reads, and connections do not interleave. */
  ghost predicate Logged(s: State) {
    && (forall c :: 0 <= c < |s.conns| ==> CallsOf(s.log, c) == Passes([], s.conns[c].chunks).items)
    && Successive(s.log, s.accepted)
  }

  /** The entries are of the first `n` connections, one connection after another. */
  ghost predicate Successive(log: seq<Entry>, n: nat) {
    && (forall i :: 0 <= i < |log| ==> log[i].conn < n)
    && (forall i, j :: 0 <= i < j < |log| ==> log[i].conn <= log[j].conn)
  }

  lemma SuccessiveAppend(log: seq<Entry>, c: nat, calls: seq<Call>)
    requires Successive(log, c + 1)
    ensures Successive(log + Entries(c, calls), c + 1)
  {
    EntriesOf(c, calls);
  }

  lemma {:induction false} EntriesOf(c: nat, calls: seq<Call>)
    ensures |Entries(c, calls)| == |calls|
    ensures forall i :: 0 <= i < |calls| ==> Entries(c, calls)[i] == Entry(c, calls[i])
  {
    if calls != [] {
      EntriesOf(c, calls[1..]);
    }
  }

  lemma {:induction false} CallsOfAppend(log: seq<Entry>, c: nat, d: nat, calls: seq<Call>)
    ensures CallsOf(log + Entries(c, calls), d) == CallsOf(log, d) + (if c == d then calls else [])
    decreases |calls|
  {
    EntriesOf(c, calls);
    if calls == [] {
      assert log + Entries(c, calls) == log;
    } else {
      var n := |calls| - 1;
      EntriesOf(c, calls[..n]);
      var longer, shorter := log + Entries(c, calls), log + Entries(c, calls[..n]);
      assert longer[..|longer| - 1] == shorter;
      CallsOfAppend(log, c, d, calls[..n]);
      assert calls[..n] + [calls[n]] == calls;
    }
  }

  lemma NobodyRead(log: seq<Entry>, c: nat)
    requires forall i :: 0 <= i < |log| ==> log[i].conn < c
    ensures CallsOf(log, c) == []
  {
  }

  /** The calls of the read connection grow by those of the pass. */
  lemma CallsByRead(s: State, t: nat, n: nat, d: nat)
    requires Control(s) && Streams(s) && Logged(s) && Enabled(s, Read(t, n)) && d < |s.conns|
    ensures var s' := Apply(s, Read(t, n)); CallsOf(s'.log, d) == Passes([], s'.conns[d].chunks).items
  {
    var c := s.current;
    var conn := s.conns[c];
    var chunk := Unread(conn)[..n];
    PassesSnoc([], conn.chunks, chunk);
    CallsOfAppend(s.log, c, d, Pass(s.threads[t].pending, chunk).items);
  }

  lemma LoggedKeptByRead(s: State, t: nat, n: nat)
    requires Control(s) && Streams(s) && Logged(s) && Enabled(s, Read(t, n))
    ensures Logged(Apply(s, Read(t, n)))
  {
    var c, s' := s.current, Apply(s, Read(t, n));
    var p := Pass(s.threads[t].pending, Unread(s.conns[c])[..n]);
    forall d | 0 <= d < |s'.conns| ensures CallsOf(s'.log, d) == Passes([], s'.conns[d].chunks).items {
      CallsByRead(s, t, n, d);
    }
    SuccessiveAppend(s.log, c, p.items);
  }

  lemma LogByRest(s: State, e: Event)
    requires Enabled(s, e) && !e.Read?
    ensures Apply(s, e).log == s.log && s.accepted <= Apply(s, e).accepted
  {
  }

  lemma LoggedKeptByRest(s: State, s': State)
    requires Control(s) && Logged(s) && ReadsNothing(s, s') && s'.log == s.log && s.accepted <= s'.accepted
    ensures Logged(s')
  {
    forall d | 0 <= d < |s'.conns| ensures CallsOf(s'.log, d) == Passes([], s'.conns[d].chunks).items {
      if d >= |s.conns| {
        NobodyRead(s.log, d);
      }
    }
  }

  lemma LoggedKept(s: State, e: Event)
    requires Control(s) && Streams(s) && Logged(s) && Enabled(s, e)
    ensures Logged(Apply(s, e))
  {
    if e.Read? {
      LoggedKeptByRead(s, e.t, e.n);
    } else {
      ConnsByRest(s, e);
      LogByRest(s, e);
      LoggedKeptByRest(s, Apply(s, e));
    }
  }

  // ---- Over whole runs ----------------------------------------------------------------

  ghost predicate Inv(s: State) {
    Control(s) && Closed(s) && Streams(s) && Logged(s) && Holding(s)
  }

  lemma InvAtStart()
    ensures Inv(START)
  {
  }

  lemma InvKept(s: State, e: Event)
    requires Inv(s) && Enabled(s, e)
    ensures Inv(Apply(s, e))
  {
    ControlKept(s, e);
    ClosedKept(s, e);
    StreamsKept(s, e);
    LoggedKept(s, e);
    HoldingKept(s, e);
  }

  lemma InvKeptAt(tr: seq<State>, es: seq<Event>, i: nat)
    requires Follows(tr, es, i) && Inv(tr[i])
    ensures Inv(tr[i + 1])
  {
    InvKept(tr[i], es[i]);
  }

  lemma {:induction false} RunKeepsInv(tr: seq<State>, es: seq<Event>, i: nat)
    requires Run(tr, es) && i < |tr|
    ensures Inv(tr[i])
  {
    hide Inv, Enabled, Apply;
    if i == 0 {
      InvAtStart();
    } else {
      RunKeepsInv(tr, es, i - 1);
      assert Follows(tr, es, i - 1);
      InvKeptAt(tr, es, i - 1);
    }
  }

  /**
   In every state of every run: one input thread at most, none while a reset is pending, no connection closed
   twice.
   */
  lemma TakeoverSafe(tr: seq<State>, es: seq<Event>, i: nat)
    requires Run(tr, es) && i < |tr|
    ensures |tr[i].threads| <= 1
    ensures tr[i].resetipc ==> tr[i].threads == []
    ensures forall c :: 0 <= c < |tr[i].conns| ==> tr[i].conns[c].closes <= 1
    ensures tr[i].accepted <= |tr[i].conns|
    ensures forall c :: 0 <= c < tr[i].accepted && c != tr[i].current ==> tr[i].conns[c].closes == 1
    ensures tr[i].main == Serving && !tr[i].resetipc && !tr[i].shutdown ==>
              |tr[i].threads| == 1 && 0 <= tr[i].current < |tr[i].conns| && tr[i].conns[tr[i].current].closes == 0
  {
    RunKeepsInv(tr, es, i);
  }

  /**
   In every state of every run the calls made for a connection are exactly those of the
   bytes read from that connection alone, from its first byte, and a later connection's calls
   come after all of an earlier one's.
   */
  lemma SessionIsolation(tr: seq<State>, es: seq<Event>, i: nat, c: nat)
    requires Run(tr, es) && i < |tr| && c < |tr[i].conns|
    ensures var conn := tr[i].conns[c];
            var got := Flatten(conn.chunks);
            var p := Parse(InputHead, got);
            && got <= conn.sent
            && CallsOf(tr[i].log, c) == p.items + Repeat(Probe(p.rest), Probes([], conn.chunks))
    ensures forall j, k :: 0 <= j < k < |tr[i].log| ==> tr[i].log[j].conn <= tr[i].log[k].conn
  {
    RunKeepsInv(tr, es, i);
    var conn := tr[i].conns[c];
    PassesClosedForm([], conn.chunks);
    assert [] + Flatten(conn.chunks) == Flatten(conn.chunks);
  }

  /** One more event at the end of a run. */
  lemma Extend(tr: seq<State>, es: seq<Event>, e: Event) returns (tr': seq<State>, es': seq<Event>)
    requires Run(tr, es) && Enabled(tr[|es|], e)
    ensures Run(tr', es') && es' == es + [e]
    ensures tr'[|es'|] == Apply(tr[|es|], e)
  {
    tr', es' := tr + [Apply(tr[|es|], e)], es + [e];
    forall i: nat | i < |es'| ensures Follows(tr', es', i) {
      if i < |es| {
        assert Follows(tr, es, i);
        assert tr'[i] == tr[i] && es'[i] == es[i] && tr'[i + 1] == tr[i + 1];
      }
    }
  }

  // ---- The viewer who gets in is served ---------------------------------------------------

  /** One input thread, with nothing pending, reads this connection, which is open. */
  ghost predicate Serves(s: State, c: nat) {
    && |s.threads| == 1 && s.threads[0].pending == []
    && s.current == c < |s.conns| && s.conns[c].closes == 0
  }

  /** All of what its viewer sends can be read, in any pieces. */
  ghost predicate Readable(s: State, c: nat)
    requires c < |s.conns|
  {
    forall n :: 0 < n <= |Unread(s.conns[c])| && n <= 30000 ==> Enabled(s, Read(0, n))
  }

  lemma ServedIsReadable(s: State, c: nat)
    requires Serves(s, c)
    ensures Readable(s, c)
  {
  }

  lemma EvictServes(s: State, t: nat)
    requires Inv(s) && Enabled(s, Evict(t))
    ensures var s' := Apply(s, Evict(t));
            && s'.main == s.main && s'.resetipc == s.resetipc && s'.shutdown == s.shutdown
            && Serves(s', s.accepted) && s'.conns[s.current].closes == 1
  {
    ControlKept(s, Evict(t));
    ClosedKept(s, Evict(t));
  }

  lemma AcceptServes(s: State, e: Event)
    requires Inv(s) && Enabled(s, e) && (e.BootAccept? || e.Reaccept?)
    ensures var s' := Apply(s, e);
            && s'.main == Serving && !s'.resetipc && s'.shutdown == s.shutdown
            && Serves(s', s.accepted)
  {
    ControlKept(s, e);
    ClosedKept(s, e);
  }

  /**
   The viewer who takes over by eviction is served: the thread goes on with the new connection and an empty buffer,
   nobody asks for a reset, and the new connection stays open.  So is one accepted at the start or after a reset.  The
   frame is zeroed for it, so that its size is sent again.
   */
  lemma NewViewerIsServed(tr: seq<State>, es: seq<Event>, i: nat)
    requires Run(tr, es) && i < |es|
    ensures es[i].Evict? ==>
              && tr[i + 1].main == tr[i].main && tr[i + 1].resetipc == tr[i].resetipc
              && tr[i + 1].shutdown == tr[i].shutdown
    ensures es[i].BootAccept? || es[i].Reaccept? ==>
              tr[i + 1].main == Serving && !tr[i + 1].resetipc && tr[i + 1].shutdown == tr[i].shutdown
    ensures es[i].Evict? || es[i].Reaccept? ==> tr[i + 1].frameZeroed
    ensures es[i].Evict? || es[i].BootAccept? || es[i].Reaccept? ==>
              Serves(tr[i + 1], tr[i].accepted) && Readable(tr[i + 1], tr[i].accepted)
  {
    RunKeepsInv(tr, es, i);
    assert Follows(tr, es, i);
    if es[i].Evict? {
      EvictServes(tr[i], es[i].t);
      ServedIsReadable(tr[i + 1], tr[i].accepted);
    } else if es[i].BootAccept? || es[i].Reaccept? {
      AcceptServes(tr[i], es[i]);
      ServedIsReadable(tr[i + 1], tr[i].accepted);
    }
  }

  /** What a thread has not consumed fits its buffer and starts no complete message. */
  ghost predicate Bounded(s: State) {
    forall t :: 0 <= t < |s.threads| ==> |s.threads[t].pending| <= 30000 && InputHead(s.threads[t].pending).More?
  }

  lemma BoundedKept(s: State, e: Event)
    requires Bounded(s) && Enabled(s, e)
    ensures Bounded(Apply(s, e))
  {
    hide Parse;
    if e.Read? {
      var pending := s.threads[e.t].pending + Unread(s.conns[s.current])[..e.n];
      InputHeadStable();
      ParseLeavesSuffix(InputHead, pending);
    }
  }

  lemma {:induction false} RunIsBounded(tr: seq<State>, es: seq<Event>, i: nat)
    requires Run(tr, es) && i < |tr|
    ensures Bounded(tr[i])
  {
    if i > 0 {
      RunIsBounded(tr, es, i - 1);
      assert Follows(tr, es, i - 1);
      BoundedKept(tr[i - 1], es[i - 1]);
    }
  }

  /** Behind a header of size 0, or of more than the buffer holds, the buffer can fill up. */
  predicate Stuffed(t: Thread) {
    |t.pending| == 30000 && (WordAt(t.pending, 2) == 0 || WordAt(t.pending, 2) > 30000)
  }

  /** The next byte of whoever is served can be read. */
  lemma NextByteIsReadable(tr: seq<State>, es: seq<Event>)
    requires Run(tr, es) && tr[|es|].threads != []
    ensures var s := tr[|es|];
            && |s.threads| == 1 && 0 <= s.current < |s.conns|
            && (Unread(s.conns[s.current]) == [] || Stuffed(s.threads[0]) || Enabled(s, Read(0, 1)))
  {
    RunKeepsInv(tr, es, |es|);
    RunIsBounded(tr, es, |es|);
  }

  lemma ReadLeavesLess(s: State, n: nat)
    requires Streams(s) && Enabled(s, Read(0, n))
    ensures var s' := Apply(s, Read(0, n));
            && s'.current == s.current && |s'.threads| == |s.threads| && s.current < |s'.conns|
            && s'.accepted == s.accepted && |s'.conns| == |s.conns|
            && s'.conns[s.current].sent == s.conns[s.current].sent
            && |Unread(s'.conns[s.current])| < |Unread(s.conns[s.current])|
  {
    var c := s.conns[s.current];
    FlattenAppend(c.chunks, [Unread(c)[..n]]);
    FlattenOne(Unread(c)[..n]);
  }

  /**
   Wherever a run stands with a thread alive, and nobody waiting to take over, reads alone get it through all its
   viewer has sent, unless that holds a header no buffer could complete.
   */
  lemma {:induction false} ReadToTheEnd(tr: seq<State>, es: seq<Event>) returns (tr': seq<State>, es': seq<Event>)
    requires Run(tr, es) && tr[|es|].threads != [] && tr[|es|].accepted == |tr[|es|].conns|
    ensures Run(tr', es') && es <= es' && forall k :: |es| <= k < |es'| ==> es'[k].Read?
    ensures var s, s' := tr[|es|], tr'[|es'|];
            && s'.current == s.current && 0 <= s.current < |s.conns| && s.current < |s'.conns|
            && s'.conns[s.current].sent == s.conns[s.current].sent && |s'.threads| == 1
            && (Unread(s'.conns[s.current]) == [] || Stuffed(s'.threads[0]))
    decreases (NextByteIsReadable(tr, es); |Unread(tr[|es|].conns[tr[|es|].current])|)
  {
    var s := tr[|es|];
    NextByteIsReadable(tr, es);
    if Unread(s.conns[s.current]) == [] || Stuffed(s.threads[0]) {
      tr', es' := tr, es;
    } else {
      RunKeepsInv(tr, es, |es|);
      ReadLeavesLess(s, 1);
      hide Apply, Enabled, Inv, Unread, Stuffed, Run;
      var tr1, es1 := Extend(tr, es, Read(0, 1));
      tr', es' := ReadToTheEnd(tr1, es1);
    }
  }

  /** The reset flag comes from a read that failed or ended, on the connection that is still current. */
  lemma {:induction false} ResetHasCause(tr: seq<State>, es: seq<Event>, i: nat) returns (j: nat)
    requires Run(tr, es) && i < |tr| && tr[i].resetipc
    ensures j < i && es[j].Eof? && tr[j].current == tr[i].current
  {
    assert i > 0;
    j := i - 1;
    RunKeepsInv(tr, es, j);
    assert Follows(tr, es, j);
    if !es[j].Eof? {
      ResetIsOld(tr[j], es[j]);
      j := ResetHasCause(tr, es, j);
    }
  }

  lemma ResetIsOld(s: State, e: Event)
    requires Control(s) && Enabled(s, e) && !e.Eof? && Apply(s, e).resetipc
    ensures s.resetipc && Apply(s, e).current == s.current
  {
  }

  /** The main loop only ever closes a connection on which a read failed or ended. */
  lemma ResetClosesTheEnded(tr: seq<State>, es: seq<Event>, i: nat)
    requires Run(tr, es) && i < |es| && es[i].ResetClose?
    ensures 0 <= tr[i].current < |tr[i + 1].conns| && tr[i + 1].conns[tr[i].current].closes == 1
    ensures exists j :: 0 <= j < i && es[j].Eof? && tr[j].current == tr[i].current
  {
    assert Follows(tr, es, i);
    RunKeepsInv(tr, es, i);
    RunKeepsInv(tr, es, i + 1);
    var j := ResetHasCause(tr, es, i);
  }

  /** Is this a step of the agent, not of a viewer? */
  predicate OfAgent(e: Event) {
    !e.Connect? && !e.Send? && !e.HangUp?
  }

  /** Wherever a run stands, short of shutting down, two steps of the agent are enough to serve a viewer who waits. */
  lemma WaitingViewerGetsIn(tr: seq<State>, es: seq<Event>) returns (tr': seq<State>, es': seq<Event>)
    requires Run(tr, es)
    requires var s := tr[|es|]; s.accepted < |s.conns| && s.main != Done && !s.shutdown
    ensures Run(tr', es') && es <= es' && |es'| <= |es| + 2
    ensures forall k :: |es| <= k < |es'| ==> OfAgent(es'[k])
    ensures Serves(tr'[|es'|], tr[|es|].accepted) && tr'[|es'|].main == Serving && !tr'[|es'|].resetipc
  {
    RunKeepsInv(tr, es, |es|);
    var s := tr[|es|];
    if s.main == Boot {
      tr', es' := Extend(tr, es, BootAccept);
      AcceptServes(s, BootAccept);
    } else if s.main == Accepting {
      tr', es' := Extend(tr, es, Reaccept);
      AcceptServes(s, Reaccept);
    } else if s.resetipc {
      var tr1, es1 := Extend(tr, es, ResetClose);
      RunKeepsInv(tr1, es1, |es1|);
      tr', es' := Extend(tr1, es1, Reaccept);
      AcceptServes(tr1[|es1|], Reaccept);
    } else {
      tr', es' := Extend(tr, es, Evict(0));
      EvictServes(s, 0);
    }
  }

  // ---- Modifiers across sessions --------------------------------------------------------

  /** What is held is what the calls since the last eviction pressed and did not release. */
  ghost predicate Holding(s: State) {
    && s.evictedAt <= |s.log|
    && s.held == Replay({}, s.log[s.evictedAt..])
  }

  lemma {:induction false} ReplayAppend(held: set<Flag>, a: seq<Entry>, b: seq<Entry>)
    ensures Replay(held, a + b) == Replay(Replay(held, a), b)
    decreases |b|
  {
    if b == [] {
      assert a + b == a;
    } else {
      var n := |b| - 1;
      assert (a + b)[..|a| + n] == a + b[..n];
      ReplayAppend(held, a, b[..n]);
    }
  }

  lemma HoldingKept(s: State, e: Event)
    requires Holding(s) && Enabled(s, e)
    ensures Holding(Apply(s, e))
  {
    hide Pass, Parse, HeldAfter, Interpret, Flatten, InputHead;
    var s' := Apply(s, e);
    if e.Read? {
      var entries := s'.log[|s.log|..];
      assert s'.log == s.log + entries;
      assert s'.log[s.evictedAt..] == s.log[s.evictedAt..] + entries;
      ReplayAppend({}, s.log[s.evictedAt..], entries);
    } else if e.Evict? {
      assert s'.log[s'.evictedAt..] == [];
    } else {
      assert s'.log[s'.evictedAt..] == s.log[s.evictedAt..];
    }
  }

  /** When a call is handled: the frame's scale, and what the injector finds. */
  datatype Moment = Moment(scale: Scale, env: Injection.Env)

  /** The injector's inputs for a log of calls. */
  function Frames(log: seq<Entry>, at: seq<Moment>): seq<Injection.Input>
    requires |at| == |log|
  {
    seq(|log|, i requires 0 <= i < |log| => Injection.Frame(Interpret(log[i].call, at[i].scale), at[i].env))
  }

  lemma KeysAtAnyScale(call: Call, scale: Scale)
    ensures var a, b := Interpret(call, 1), Interpret(call, scale); a.KeyPress? || b.KeyPress? ==> a == b
  {
  }

  lemma FrameTracks(t: Injection.Tables, st: Injection.State, a: Action, env: Injection.Env)
    requires Injection.MapsModifiers(t)
    ensures Injection.Step(t, st, Injection.Frame(a, env)).0.mods ==
            if a.KeyPress? then Track(st.mods, a.vk, a.up) else st.mods
  {
  }

  /** What the session keeps as held is what the injector tracks, for the same frames. */
  lemma {:induction false} ReplayIsMods(t: Injection.Tables, log: seq<Entry>, at: seq<Moment>)
    requires Injection.MapsModifiers(t) && |at| == |log|
    ensures Replay({}, log) == Injection.After(t, Frames(log, at)).mods
    decreases |log|
  {
    if log != [] {
      var n := |log| - 1;
      var h := Frames(log, at);
      ReplayIsMods(t, log[..n], at[..n]);
      assert h[..n] == Frames(log[..n], at[..n]);
      KeysAtAnyScale(log[n].call, at[n].scale);
      FrameTracks(t, Injection.After(t, h[..n]), Interpret(log[n].call, at[n].scale), at[n].env);
    }
  }

  /** So the log alone says what is held. */
  lemma ReplayIsHeld(log: seq<Entry>, at: seq<Moment>, m: Flag)
    requires |at| == |log|
    ensures m in Replay({}, log) <==> Injection.Held(Frames(log, at), m)
  {
    var t := Injection.Tables(map[VK_SHIFT := 0, VK_CONTROL := 0, VK_MENU := 0, VK_LWIN := 0, VK_RWIN := 0], map[]);
    ReplayIsMods(t, log, at);
    Injection.ModsAreHeld(t, Frames(log, at), m);
  }

  /** The `k`-th state is the start or follows an eviction, and none comes between it and the `i`-th. */
  ghost predicate LastEviction(es: seq<Event>, k: nat, i: nat) {
    k <= i <= |es| && (k > 0 ==> es[k - 1].Evict?) && forall j :: k <= j < i ==> !es[j].Evict?
  }

  lemma {:induction false} EvictedThen(tr: seq<State>, es: seq<Event>, k: nat, i: nat)
    requires Run(tr, es) && LastEviction(es, k, i)
    ensures tr[i].evictedAt == |tr[k].log|
    decreases i
  {
    if k == i {
      if k > 0 {
        assert Follows(tr, es, k - 1);
      }
    } else {
      EvictedThen(tr, es, k, i - 1);
      assert Follows(tr, es, i - 1);
    }
  }

  /** The calls since the `k`-th state. */
  function Since(tr: seq<State>, k: nat, i: nat): seq<Entry>
    requires k < |tr| && i < |tr| && |tr[k].log| <= |tr[i].log|
  {
    tr[i].log[|tr[k].log|..]
  }

  lemma LogSinceEviction(tr: seq<State>, es: seq<Event>, k: nat, i: nat)
    requires Run(tr, es) && LastEviction(es, k, i)
    ensures k < |tr| && i < |tr| && |tr[k].log| <= |tr[i].log| && tr[i].held == Replay({}, Since(tr, k, i))
  {
    RunKeepsInv(tr, es, i);
    EvictedThen(tr, es, k, i);
  }

  /** In every state of every run the session's record is the injector's after the frames since the last eviction. */
  lemma HeldIsMods(tr: seq<State>, es: seq<Event>, k: nat, i: nat, t: Injection.Tables, at: seq<Moment>)
    requires Run(tr, es) && LastEviction(es, k, i) && Injection.MapsModifiers(t)
    ensures k < |tr| && i < |tr| && |tr[k].log| <= |tr[i].log|
    ensures |at| == |Since(tr, k, i)| ==> tr[i].held == Injection.After(t, Frames(Since(tr, k, i), at)).mods
  {
    LogSinceEviction(tr, es, k, i);
    if |at| == |Since(tr, k, i)| {
      ReplayIsMods(t, Since(tr, k, i), at);
    }
  }

  /**
   A viewer that takes over by eviction starts with nothing held.  One accepted after an end of file starts with `m`
   held if and only if, among the calls since the last eviction, the last key frame of `m` was a press.
   */
  lemma HeldAtTakeover(tr: seq<State>, es: seq<Event>, k: nat, i: nat, at: seq<Moment>)
    requires Run(tr, es) && i < |es| && LastEviction(es, k, i)
    ensures es[i].Evict? ==> tr[i + 1].held == {}
    ensures es[i].Evict? || es[i].Reaccept? ==> tr[i + 1].frameZeroed
    ensures |tr[k].log| <= |tr[i].log|
    ensures es[i].Reaccept? && |at| == |Since(tr, k, i)| ==>
              forall m :: m in tr[i + 1].held <==> Injection.Held(Frames(Since(tr, k, i), at), m)
  {
    RunKeepsInv(tr, es, i);
    LogSinceEviction(tr, es, k, i);
    assert Follows(tr, es, i);
    if |at| == |Since(tr, k, i)| {
      forall m ensures m in tr[i].held <==> Injection.Held(Frames(Since(tr, k, i), at), m) {
        ReplayIsHeld(Since(tr, k, i), at, m);
      }
    }
  }

  const SHIFT_PRESS: seq<byte> := [0x00, 0x01, 0x00, 0x06, 0x00, VK_SHIFT]

  lemma ShiftPressReads()
    ensures Pass([], SHIFT_PRESS) == Parsed([Call(KEY, 6, SHIFT_PRESS)], [])
    ensures HeldAfter({}, Call(KEY, 6, SHIFT_PRESS)) == {Shift}
  {
    assert [] + SHIFT_PRESS == SHIFT_PRESS;
    assert SHIFT_PRESS[..6] == SHIFT_PRESS && SHIFT_PRESS[6..] == [];
    assert InputHead(SHIFT_PRESS) == Item(6, Call(KEY, 6, SHIFT_PRESS));
    assert Parse(InputHead, []) == Parsed([], []);
    hide Parse;
    assert Interpret(Call(KEY, 6, SHIFT_PRESS), 1) == KeyPress(VK_SHIFT, 0);
  }

  lemma ReadShift(s: State)
    requires s.threads == [Thread([])] && s.current == 0 && s.conns == [Conn(SHIFT_PRESS, [], false, 0)]
    requires s.held == {} && s.log == []
    ensures Enabled(s, Read(0, 6))
    ensures var s' := Apply(s, Read(0, 6));
            s'.held == {Shift} && s' == s.(conns := s'.conns, log := s'.log, held := s'.held) && |s'.conns| == 1
  {
    ShiftPressReads();
    assert Unread(s.conns[0]) == SHIFT_PRESS && SHIFT_PRESS[..6] == SHIFT_PRESS;
    var entry := Entry(0, Call(KEY, 6, SHIFT_PRESS));
    assert Entries(0, [entry.call]) == [entry];
    assert Replay({}, [entry]) == HeldAfter(Replay({}, [entry][..0]), entry.call);
    assert Replay({}, [entry][..0]) == {};
    assert Apply(s, Read(0, 6)).threads == [Thread([])];
  }

  /** A viewer connects and presses Shift. */
  lemma ShiftPressed() returns (tr: seq<State>, es: seq<Event>)
    ensures Run(tr, es)
    ensures var s := tr[|es|];
            && |s.threads| == 1 && s.current == 0 && |s.conns| == 1 && s.accepted == 1
            && s.main == Serving && !s.shutdown && s.held == {Shift}
  {
    tr, es := [START], [];
    tr, es := Extend(tr, es, Connect);
    tr, es := Extend(tr, es, BootAccept);
    tr, es := Extend(tr, es, Send(0, SHIFT_PRESS));
    var s := tr[|es|];
    assert s.conns[0] == Conn(SHIFT_PRESS, [], false, 0) by {
      assert [] + SHIFT_PRESS == SHIFT_PRESS;
    }
    ReadShift(s);
    tr, es := Extend(tr, es, Read(0, 6));
  }

  /** A viewer presses Shift and goes away: the next viewer starts with Shift held. */
  lemma ShiftSurvivesReaccept() returns (tr: seq<State>, es: seq<Event>)
    ensures Run(tr, es) && es != [] && es[|es| - 1] == Reaccept
    ensures tr[|es|].held == {Shift}
  {
    tr, es := ShiftPressed();
    tr, es := Extend(tr, es, Eof(0));
    tr, es := Extend(tr, es, ResetClose);
    tr, es := Extend(tr, es, Connect);
    tr, es := Extend(tr, es, Reaccept);
  }
}
