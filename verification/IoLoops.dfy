/** The loops that push or pull an exact number of bytes through short reads and writes. */
module IoLoops {
  import opened Bytes

  type Positive = n: int | n >= 1 witness 1

  /** What one system call does: move up to `n` of the bytes asked for, ask to be retried, or fail. */
  datatype Io = Moved(n: Positive) | Again | Broken

  /** How many of `n` bytes get through before the first failure; running out of results is a failure. */
  function Through(script: seq<Io>, n: nat, patient: bool): (k: nat)
    ensures k <= n
    decreases |script|
  {
    if n == 0 || script == [] then 0
    else match script[0]
      case Moved(m) =>
        var now := if m < n then m else n;
        now + Through(script[1..], n - now, patient)
      case Again => if patient then Through(script[1..], n, patient) else 0
      case Broken => 0
  }

  /** Does the loop give up on this result? */
  predicate Stops(r: Io, patient: bool) {
    r.Broken? || (r.Again? && !patient)
  }

  function Total(script: seq<Io>): nat {
    if script == [] then 0 else (if script[0].Moved? then script[0].n else 0) + Total(script[1..])
  }

  /** The first `k` results are all acceptable and together move at least `n` bytes. */
  ghost predicate Suffices(script: seq<Io>, n: nat, patient: bool, k: nat) {
    k <= |script| && Total(script[..k]) >= n && forall i :: 0 <= i < k ==> !Stops(script[i], patient)
  }

  lemma SufficesCons(script: seq<Io>, n: nat, patient: bool, k: nat)
    requires script != [] && 0 < k <= |script|
    ensures var m := if script[0].Moved? then script[0].n else 0;
            Suffices(script, n, patient, k) <==>
            !Stops(script[0], patient) && Suffices(script[1..], if m < n then n - m else 0, patient, k - 1)
  {
    var rest := script[1..];
    assert script[..k][1..] == rest[..k - 1];
    assert forall i :: 0 <= i < k - 1 ==> rest[i] == script[i + 1];
    if !Stops(script[0], patient) && forall i :: 0 <= i < k - 1 ==> !Stops(rest[i], patient) {
      forall i | 0 <= i < k ensures !Stops(script[i], patient) {
        assert i > 0 ==> script[i] == rest[i - 1];
      }
    }
  }

  /** Everything gets through if and only if, before any result to give up on, the results move as many bytes. */
  lemma {:induction false} ThroughIff(script: seq<Io>, n: nat, patient: bool)
    ensures Through(script, n, patient) == n <==> exists k :: Suffices(script, n, patient, k)
    decreases |script|
  {
    if n == 0 {
      assert Suffices(script, 0, patient, 0);
    } else if script == [] {
      forall k: nat ensures !Suffices(script, n, patient, k) {
      }
    } else {
      var m := if script[0].Moved? then script[0].n else 0;
      var left := if m < n then n - m else 0;
      ThroughIff(script[1..], left, patient);
      assert !Suffices(script, n, patient, 0);
      forall k: nat | 0 < k <= |script|
        ensures Suffices(script, n, patient, k) <==>
                !Stops(script[0], patient) && Suffices(script[1..], left, patient, k - 1)
      {
        SufficesCons(script, n, patient, k);
      }
      if !Stops(script[0], patient) && exists k :: Suffices(script[1..], left, patient, k) {
        var k: nat :| Suffices(script[1..], left, patient, k);
        assert Suffices(script, n, patient, k + 1);
      }
    }
  }

  /** `sendall`: retries on `EAGAIN`, gives up on any other failure. */
  method SendAll(b: seq<byte>, script: seq<Io>) returns (ok: bool, out: seq<byte>)
    ensures out == b[..Through(script, |b|, true)]
    ensures ok <==> out == b
  {
    ok, out := WriteLoop(b, script, true);
  }

  /** `vnc_write_all` and `dwclip_write_all`: give up on any failure. */
  method WriteAll(b: seq<byte>, script: seq<Io>) returns (ok: bool, out: seq<byte>)
    ensures out == b[..Through(script, |b|, false)]
    ensures ok <==> out == b
  {
    ok, out := WriteLoop(b, script, false);
  }

  method WriteLoop(b: seq<byte>, script: seq<Io>, patient: bool) returns (ok: bool, out: seq<byte>)
    ensures out == b[..Through(script, |b|, patient)]
    ensures ok <==> out == b
  {
    var sent: nat := 0;
    var i := 0;
    out := [];
    while sent < |b|
      invariant sent <= |b| && i <= |script|
      invariant out == b[..sent]
      invariant Through(script, |b|, patient) == sent + Through(script[i..], |b| - sent, patient)
      decreases |script| - i
    {
      if i == |script| {
        return false, out;
      }
      var r := script[i];
      assert script[i..][1..] == script[i + 1..];
      i := i + 1;
      match r {
        case Moved(m) =>
          var now := if m < |b| - sent then m else |b| - sent;
          out := out + b[sent..sent + now];
          sent := sent + now;
        case Again =>
          if !patient {
            return false, out;
          }
        case Broken =>
          return false, out;
      }
    }
    ok := true;
  }

  /** One read puts its bytes where the last one ended. */
  method Store(buf: array<byte>, at: nat, data: seq<byte>)
    requires at + |data| <= buf.Length
    modifies buf
    ensures buf[..at + |data|] == old(buf[..at]) + data
    ensures buf[at + |data|..] == old(buf[at + |data|..])
  {
    forall k | 0 <= k < |data| {
      buf[at + k] := data[k];
    }
  }

  lemma NothingLeft(patient: bool)
    ensures forall script: seq<Io> :: Through(script, 0, patient) == 0
    ensures forall n: nat :: Through([], n, patient) == 0
  {
  }

  /** One result of a script, taken apart from the rest. */
  lemma ThroughStep(script: seq<Io>, i: nat, n: nat, patient: bool)
    requires i < |script| && n > 0
    ensures var r, rest := script[i], script[i + 1..];
            Through(script[i..], n, patient) ==
            if r.Moved? then (if r.n < n then r.n + Through(rest, n - r.n, patient) else n)
            else if r.Again? && patient then Through(rest, n, patient) else 0
  {
    assert script[i..][1..] == script[i + 1..];
  }

  lemma TailOfTail(s: seq<byte>, t: seq<byte>, m: nat, n: nat)
    requires m <= n <= |s| == |t| && s[m..] == t[m..]
    ensures s[n..] == t[n..]
  {
    assert s[n..] == s[m..][n - m..] && t[n..] == t[m..][n - m..];
  }

  /** `vnc_read_all` and `dwclip_read_all`: the next `n` bytes of what the peer sent, or failure. */
  method ReadAll(inbound: seq<byte>, buf: array<byte>, n: nat, script: seq<Io>) returns (ok: bool)
    requires n <= buf.Length
    modifies buf
    ensures ok <==> n <= |inbound| && Through(script, n, false) == n
    ensures ok ==> buf[..n] == inbound[..n]
    ensures buf[n..] == old(buf[n..])
  {
    NothingLeft(false);
    assert script[|script|..] == [];
    hide Through;
    var got: nat := 0;
    var i := 0;
    while got < n
      invariant got <= n && i <= |script| && got <= |inbound|
      invariant buf[..got] == inbound[..got]
      invariant buf[n..] == old(buf[n..])
      invariant Through(script, n, false) == got + Through(script[i..], n - got, false)
      decreases |script| - i
    {
      if i == |script| {
        return false;
      }
      var r := script[i];
      ThroughStep(script, i, n - got, false);
      i := i + 1;
      if !r.Moved? {
        return false;
      }
      var now := if r.n < n - got then r.n else n - got;
      if |inbound| - got < now {
        // End of stream: what is left comes first, then a read returns 0.
        return false;
      }
      ghost var was := buf[..];
      Store(buf, got, inbound[got..got + now]);
      TailOfTail(buf[..], was, got + now, n);
      assert buf[n..] == buf[..][n..] && was[n..] == old(buf[n..]);
      assert inbound[..got] + inbound[got..got + now] == inbound[..got + now];
      got := got + now;
    }
    assert got == n;
    ok := true;
  }
}
