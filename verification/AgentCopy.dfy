/**
 Keeping the login-time copy of the agent, `<dir>/kvm/<name>`, in step with the daemon
 `<dir>/<name>`, and finding the daemon from the copy.
 */
module AgentCopy {
  import opened Bytes
  import opened Sequences
  import opened Wrappers

  // ---- Where the copy is --------------------------------------------------------------------------------

  predicate NoSlash(s: string, from: nat) {
    forall j :: from <= j < |s| ==> s[j] != '/'
  }

  /** `strrchr(s, '/')`. */
  function LastSlash(s: string): (k: Option<nat>)
    ensures k.Some? ==> k.value < |s| && s[k.value] == '/' && NoSlash(s, k.value + 1)
    ensures k.None? ==> NoSlash(s, 0)
  {
    if s == [] then None
    else if s[|s| - 1] == '/' then Some(|s| - 1)
    else
      var t := s[..|s| - 1];
      assert forall j :: 0 <= j < |t| ==> s[j] == t[j];
      LastSlash(t)
  }

  /** Is the last component of this directory `kvm`?  A directory without a slash is taken not to be. */
  predicate InKvm(dir: string) {
    var k := LastSlash(dir);
    k.Some? && dir[k.value + 1..] == "kvm"
  }

  /** The copy belonging to the daemon at `self`; none if `self` is itself a copy. */
  function CopyPath(self: string): Option<string> {
    var k := LastSlash(self);
    if k.None? || InKvm(self[..k.value]) then None
    else Some(self[..k.value] + "/" + "kvm" + "/" + self[k.value + 1..])
  }

  /** `perm_daemon_path` for a program at `exe`. */
  function DaemonPath(exe: string): string {
    var k := LastSlash(exe);
    if k.None? || !InKvm(exe[..k.value]) then exe
    else exe[..LastSlash(exe[..k.value]).value] + "/" + exe[k.value + 1..]
  }

  lemma LastSlashIs(s: string, k: nat)
    requires k < |s| && s[k] == '/' && NoSlash(s, k + 1)
    ensures LastSlash(s) == Some(k)
  {
  }

  lemma NoSlashAfter(head: string, base: string)
    requires NoSlash(base, 0)
    ensures NoSlash(head + base, |head|)
  {
    assert forall j :: |head| <= j < |head + base| ==> (head + base)[j] == base[j - |head|];
  }

  /** Taking apart a path made of a directory and a name without slashes. */
  lemma Joined(dir: string, base: string)
    requires NoSlash(base, 0)
    ensures LastSlash(dir + "/" + base) == Some(|dir|)
    ensures (dir + "/" + base)[..|dir|] == dir && (dir + "/" + base)[|dir| + 1..] == base
  {
    var head := dir + "/";
    NoSlashAfter(head, base);
    LastSlashIs(head + base, |dir|);
    assert (head + base)[|head|..] == base;
  }

  lemma Parted(path: string)
    requires LastSlash(path).Some?
    ensures var k := LastSlash(path).value; path == path[..k] + "/" + path[k + 1..]
  {
  }

  /** A path in a directory called `kvm`, taken apart. */
  lemma PathsIn(path: string, k: nat, dir: string, base: string)
    requires LastSlash(path) == Some(k) && path[..k] == dir && path[k + 1..] == base && InKvm(dir)
    ensures CopyPath(path) == None
    ensures DaemonPath(path) == dir[..LastSlash(dir).value] + "/" + base
  {
    hide LastSlash;
  }

  /** A copy is never copied itself, and belongs to the daemon beside its directory. */
  lemma PathsOfACopy(dir: string, base: string)
    requires NoSlash(base, 0)
    ensures CopyPath(dir + "/" + "kvm" + "/" + base) == None
    ensures DaemonPath(dir + "/" + "kvm" + "/" + base) == dir + "/" + base
  {
    Joined(dir, "kvm");
    var kvm := dir + "/" + "kvm";
    assert InKvm(kvm);
    Joined(kvm, base);
    PathsIn(kvm + "/" + base, |kvm|, kvm, base);
  }

  /** A directory is one called `kvm` exactly if it is some other directory's. */
  lemma InKvmIff(dir: string)
    ensures InKvm(dir) <==> exists d :: dir == d + "/kvm"
  {
    hide LastSlash;
    if InKvm(dir) {
      Parted(dir);
      var d := dir[..LastSlash(dir).value];
      assert dir == d + "/" + "kvm" == d + "/kvm";
    }
    if exists d :: dir == d + "/kvm" {
      var d :| dir == d + "/kvm";
      Joined(d, "kvm");
      assert d + "/" + "kvm" == d + "/kvm";
    }
  }

  /** The daemon's copy stands in the directory `kvm` beside it, under the same name. */
  lemma CopyIsBesideDaemon(dir: string, base: string)
    requires NoSlash(base, 0) && !exists d :: dir == d + "/kvm"
    ensures CopyPath(dir + "/" + base) == Some(dir + "/kvm/" + base)
    ensures DaemonPath(dir + "/kvm/" + base) == dir + "/" + base
    ensures DaemonPath(dir + "/" + base) == dir + "/" + base
  {
    InKvmIff(dir);
    Joined(dir, base);
    PathsOfACopy(dir, base);
    assert dir + "/" + "kvm" + "/" + base == dir + "/kvm/" + base;
  }

  /** The copy finds the daemon that made it, and never tries to make a copy of its own. */
  lemma CopyFindsItsDaemon(self: string)
    requires CopyPath(self).Some?
    ensures DaemonPath(CopyPath(self).value) == self
    ensures CopyPath(CopyPath(self).value) == None
  {
    Parted(self);
    var k := LastSlash(self).value;
    PathsOfACopy(self[..k], self[k + 1..]);
  }

  /**
   The other way round: what a copy takes for its daemon keeps the copy it was asked about exactly when that
   daemon is not itself in a directory called `kvm`.
   */
  lemma DaemonKeepsThisCopyIff(exe: string)
    requires LastSlash(exe).Some? && InKvm(exe[..LastSlash(exe).value])
    ensures var daemon := DaemonPath(exe);
            && LastSlash(daemon).Some?
            && (CopyPath(daemon) == Some(exe) <==> !InKvm(daemon[..LastSlash(daemon).value]))
  {
    Parted(exe);
    var k := LastSlash(exe).value;
    var kvm, base := exe[..k], exe[k + 1..];
    Parted(kvm);
    var dir := kvm[..LastSlash(kvm).value];
    assert kvm == dir + "/" + "kvm";
    assert dir == exe[..|dir|];
    Joined(dir, base);
  }

  // ---- Reading and comparing ----------------------------------------------------------------------------

  const CHUNK := 65536

  /** One `fread` or `fwrite`: all it could move, or at most `n` bytes before an error. */
  datatype Transfer = Clean | Fault(n: nat)

  /** What the next transfer moves when `n` bytes are left; a run of transfers that has ended stays clean. */
  function Moved(n: nat, script: seq<Transfer>): (r: nat)
    ensures r <= n && r <= CHUNK
  {
    var most := if n < CHUNK then n else CHUNK;
    if script == [] || script[0].Clean? || most < script[0].n then most else script[0].n
  }

  function Rest(script: seq<Transfer>): seq<Transfer> {
    if script == [] then [] else script[1..]
  }

  /** The sizes a loop reading until `fread` returns 0 gets for a file of `n` bytes. */
  function Pieces(n: nat, inputs: seq<Transfer>): seq<nat> {
    var r := Moved(n, inputs);
    if r == 0 then [] else [r] + Pieces(n - r, Rest(inputs))
  }

  /** How much of the file that loop sees. */
  function Readable(n: nat, inputs: seq<Transfer>): (k: nat)
    ensures k <= n
  {
    var r := Moved(n, inputs);
    if r == 0 then 0 else r + Readable(n - r, Rest(inputs))
  }

  predicate AllClean(script: seq<Transfer>) {
    forall i :: 0 <= i < |script| ==> script[i].Clean?
  }

  lemma {:induction false} CleanReadsAll(n: nat, inputs: seq<Transfer>)
    requires AllClean(inputs)
    ensures Readable(n, inputs) == n
  {
    if Moved(n, inputs) != 0 {
      CleanReadsAll(n - Moved(n, inputs), Rest(inputs));
    }
  }

  lemma {:induction false} CleanPieces(n: nat, inputs: seq<Transfer>)
    requires AllClean(inputs)
    ensures Pieces(n, inputs) == Pieces(n, [])
  {
    if Moved(n, inputs) != 0 {
      CleanPieces(n - Moved(n, inputs), Rest(inputs));
    }
  }

  /** Without read errors a file is read in pieces of 65536 bytes, the last one shorter. */
  lemma {:induction false} PiecesAreChunks(n: nat)
    ensures n == 0 ==> Pieces(n, []) == []
    ensures n > 0 ==> Pieces(n, []) == if n <= 65536 then [n] else [65536] + Pieces(n - 65536, [])
  {
    assert Pieces(0, []) == [];
  }

  /** Two comparisons of files of one size see the same: the same sizes, and the same bytes as far as they get. */
  predicate SeenEqual(a: seq<byte>, b: seq<byte>, ra: seq<Transfer>, rb: seq<Transfer>) {
    && |a| == |b|
    && Pieces(|a|, ra) == Pieces(|b|, rb)
    && a[..Readable(|a|, ra)] == b[..Readable(|a|, ra)]
  }

  /** Without read errors, what is seen to be equal is equal. */
  lemma CleanComparisonIsEquality(a: seq<byte>, b: seq<byte>, ra: seq<Transfer>, rb: seq<Transfer>)
    requires AllClean(ra) && AllClean(rb)
    ensures SeenEqual(a, b, ra, rb) <==> a == b
  {
    CleanReadsAll(|a|, ra);
    CleanPieces(|a|, ra);
    CleanPieces(|b|, rb);
    assert a[..|a|] == a && b[..|b|] == b;
  }

  /** What a transfer can move at most. */
  function Capacity(t: Transfer): nat {
    if t.Clean? || CHUNK < t.n then CHUNK else t.n
  }

  function Capacities(script: seq<Transfer>): nat {
    if script == [] then 0 else Capacity(script[0]) + Capacities(script[1..])
  }

  /** No read that brings nothing comes before `n` bytes could have been read. */
  ghost predicate NoErrorBefore(n: nat, inputs: seq<Transfer>) {
    forall i :: 0 <= i < |inputs| && inputs[i] == Fault(0) ==> Capacities(inputs[..i]) >= n
  }

  lemma NoErrorInRest(n: nat, inputs: seq<Transfer>)
    requires inputs != [] && inputs[0] != Fault(0)
    ensures NoErrorBefore(n, inputs) <==> NoErrorBefore(n - Moved(n, inputs), inputs[1..])
  {
    var rest, r := inputs[1..], Moved(n, inputs);
    forall i | 0 <= i < |rest|
      ensures rest[i] == inputs[i + 1]
      ensures Capacities(inputs[..i + 1]) == Capacity(inputs[0]) + Capacities(rest[..i])
    {
      assert inputs[..i + 1][1..] == rest[..i];
    }
    if NoErrorBefore(n - r, rest) {
      forall i | 0 <= i < |inputs| && inputs[i] == Fault(0) ensures Capacities(inputs[..i]) >= n {
        assert rest[i - 1] == inputs[i];
      }
    }
  }

  /**
   A reading loop sees all of a file if and only if no empty-handed error comes before its end could have been
   reached.
   */
  lemma {:induction false} ReadableIff(n: nat, inputs: seq<Transfer>)
    ensures Readable(n, inputs) == n <==> NoErrorBefore(n, inputs)
    decreases |inputs|
  {
    if inputs == [] {
      CleanReadsAll(n, inputs);
    } else if inputs[0] == Fault(0) {
      assert inputs[..0] == [];
    } else {
      NoErrorInRest(n, inputs);
      ReadableIff(n - Moved(n, inputs), inputs[1..]);
    }
  }

  /** Two files alike as far as a comparison sees, and different beyond. */
  lemma DifferBeyond(n: nat, ra: seq<Transfer>, rb: seq<Transfer>) returns (a: seq<byte>, b: seq<byte>)
    requires Pieces(n, ra) == Pieces(n, rb) && Readable(n, ra) < n
    ensures |a| == |b| == n && SeenEqual(a, b, ra, rb) && a != b
  {
    var k := Readable(n, ra);
    a := seq(n, i requires 0 <= i < n => 0);
    b := a[k := 1];
    assert a[..k] == b[..k] && a[k] != b[k];
  }

  /**
   Whatever read errors there are: files of `n` bytes reported identical always are if and only if the errors make the
   two loops see different pieces, or hide nothing of the file.
   */
  lemma ReportIsRightIff(n: nat, ra: seq<Transfer>, rb: seq<Transfer>)
    ensures (forall a, b :: |a| == |b| == n && SeenEqual(a, b, ra, rb) ==> a == b)
            <==> Pieces(n, ra) != Pieces(n, rb) || NoErrorBefore(n, ra)
  {
    ReadableIff(n, ra);
    if Pieces(n, ra) == Pieces(n, rb) && Readable(n, ra) < n {
      var a, b := DifferBeyond(n, ra, rb);
    } else {
      forall a, b | |a| == |b| == n && SeenEqual(a, b, ra, rb) ensures a == b {
        assert a[..n] == a && b[..n] == b;
      }
    }
  }

  /** A read error in both files at one place is taken for their end: files that differ are reported identical. */
  lemma ErrorsLookLikeEquality()
    ensures SeenEqual([1], [2], [Fault(0)], [Fault(0)])
  {
    assert Pieces(1, [Fault(0)]) == [];
  }

  /** `fread` into a buffer. */
  method Fread(file: seq<byte>, at: nat, buf: array<byte>, script: seq<Transfer>) returns (r: nat, rest: seq<Transfer>)
    requires at <= |file| && buf.Length == CHUNK
    modifies buf
    ensures r == Moved(|file| - at, script) && rest == Rest(script)
    ensures buf[..r] == file[at..at + r]
  {
    r, rest := Moved(|file| - at, script), Rest(script);
    forall k | 0 <= k < r {
      buf[k] := file[at + k];
    }
  }

  /** `memcmp(a, b, n) == 0`. */
  method SameBytes(a: array<byte>, b: array<byte>, n: nat) returns (same: bool)
    requires n <= a.Length && n <= b.Length
    ensures same <==> a[..n] == b[..n]
  {
    var i := 0;
    while i < n
      invariant i <= n && a[..i] == b[..i]
    {
      if a[i] != b[i] {
        assert a[..n][i] != b[..n][i];
        return false;
      }
      i := i + 1;
    }
    same := true;
  }

  /**
   Where a comparison stands when `at` bytes have been seen equal in pieces `done`, and what is left of the two
   scripts is `sa` and `sb`.
   */
  ghost predicate SoFar(a: seq<byte>, b: seq<byte>, ra: seq<Transfer>, rb: seq<Transfer>,
      at: nat, done: seq<nat>, sa: seq<Transfer>, sb: seq<Transfer>) {
    && |a| == |b| && at <= |a| && a[..at] == b[..at]
    && Pieces(|a|, ra) == done + Pieces(|a| - at, sa)
    && Pieces(|b|, rb) == done + Pieces(|b| - at, sb)
    && Readable(|a|, ra) == at + Readable(|a| - at, sa)
  }

  lemma SamePieces(done: seq<nat>, x: seq<nat>, y: seq<nat>)
    ensures done + x == done + y <==> x == y
  {
    assert (done + x)[|done|..] == x;
    assert (done + y)[|done|..] == y;
  }

  /** Pieces of different size settle it. */
  lemma SizesDiffer(a: seq<byte>, b: seq<byte>, ra: seq<Transfer>, rb: seq<Transfer>,
      at: nat, done: seq<nat>, sa: seq<Transfer>, sb: seq<Transfer>)
    requires SoFar(a, b, ra, rb, at, done, sa, sb) && Moved(|a| - at, sa) != Moved(|b| - at, sb)
    ensures !SeenEqual(a, b, ra, rb)
  {
    var x, y := Pieces(|a| - at, sa), Pieces(|b| - at, sb);
    SamePieces(done, x, y);
    var na, nb := Moved(|a| - at, sa), Moved(|b| - at, sb);
    assert na > 0 ==> x[0] == na;
    assert nb > 0 ==> y[0] == nb;
  }

  /** So do different bytes. */
  lemma BytesDiffer(a: seq<byte>, b: seq<byte>, ra: seq<Transfer>, rb: seq<Transfer>,
      at: nat, done: seq<nat>, sa: seq<Transfer>, sb: seq<Transfer>)
    requires SoFar(a, b, ra, rb, at, done, sa, sb)
    requires var n := Moved(|a| - at, sa); a[at..at + n] != b[at..at + n]
    ensures !SeenEqual(a, b, ra, rb)
  {
    var n, k := Moved(|a| - at, sa), Readable(|a|, ra);
    assert at + n <= k;
    SliceOfPrefix(a, k, at, at + n);
    SliceOfPrefix(b, k, at, at + n);
  }

  /** Two empty reads in the same place end it. */
  lemma BothEnd(a: seq<byte>, b: seq<byte>, ra: seq<Transfer>, rb: seq<Transfer>,
      at: nat, done: seq<nat>, sa: seq<Transfer>, sb: seq<Transfer>)
    requires SoFar(a, b, ra, rb, at, done, sa, sb)
    requires Moved(|a| - at, sa) == 0 && Moved(|b| - at, sb) == 0
    ensures SeenEqual(a, b, ra, rb)
  {
  }

  lemma MorePieces(size: nat, at: nat, done: seq<nat>, script: seq<Transfer>, left: seq<Transfer>, n: nat)
    requires at <= size && n == Moved(size - at, left) && n > 0
    requires Pieces(size, script) == done + Pieces(size - at, left)
    ensures Pieces(size, script) == done + [n] + Pieces(size - (at + n), Rest(left))
  {
  }

  lemma MoreReadable(size: nat, at: nat, script: seq<Transfer>, left: seq<Transfer>, n: nat)
    requires at <= size && n == Moved(size - at, left) && n > 0
    requires Readable(size, script) == at + Readable(size - at, left)
    ensures Readable(size, script) == at + n + Readable(size - (at + n), Rest(left))
  {
  }

  lemma LongerSame(a: seq<byte>, b: seq<byte>, at: nat, n: nat)
    requires at + n <= |a| == |b| && a[..at] == b[..at] && a[at..at + n] == b[at..at + n]
    ensures a[..at + n] == b[..at + n]
  {
    assert a[..at + n] == a[..at] + a[at..at + n];
    assert b[..at + n] == b[..at] + b[at..at + n];
  }

  lemma OneMore(a: seq<byte>, b: seq<byte>, ra: seq<Transfer>, rb: seq<Transfer>,
      at: nat, done: seq<nat>, sa: seq<Transfer>, sb: seq<Transfer>, n: nat)
    requires SoFar(a, b, ra, rb, at, done, sa, sb)
    requires n == Moved(|a| - at, sa) == Moved(|b| - at, sb) && n > 0 && a[at..at + n] == b[at..at + n]
    ensures SoFar(a, b, ra, rb, at + n, done + [n], Rest(sa), Rest(sb))
  {
    hide Pieces, Readable, Rest;
    LongerSame(a, b, at, n);
    MorePieces(|a|, at, done, ra, sa, n);
    MorePieces(|b|, at, done, rb, sb, n);
    MoreReadable(|a|, at, ra, sa, n);
  }

  /** `kvm_files_identical` once both files are known to be of one size and are open. */
  method CompareContents(a: seq<byte>, b: seq<byte>, ra: seq<Transfer>, rb: seq<Transfer>) returns (same: bool)
    requires |a| == |b|
    ensures same <==> SeenEqual(a, b, ra, rb)
  {
    hide SeenEqual, Pieces, Readable;
    var ba, bb := new byte[CHUNK](_ => 0), new byte[CHUNK](_ => 0);
    var at: nat, sa, sb := 0, ra, rb;
    ghost var done: seq<nat> := [];
    while true
      invariant SoFar(a, b, ra, rb, at, done, sa, sb)
      decreases |a| - at
    {
      var na, ta := Fread(a, at, ba, sa);
      var nb, tb := Fread(b, at, bb, sb);
      if na != nb {
        SizesDiffer(a, b, ra, rb, at, done, sa, sb);
        return false;
      }
      var equal := SameBytes(ba, bb, na);
      if !equal {
        BytesDiffer(a, b, ra, rb, at, done, sa, sb);
        return false;
      }
      if na == 0 {
        BothEnd(a, b, ra, rb, at, done, sa, sb);
        return true;
      }
      OneMore(a, b, ra, rb, at, done, sa, sb, na);
      at, done, sa, sb := at + na, done + [na], ta, tb;
    }
  }

  // ---- Refreshing ---------------------------------------------------------------------------------------

  datatype File = File(bytes: seq<byte>, executable: bool)

  type Files = map<string, File>

  /** How everything that can fail goes in one run. */
  datatype Conditions = Conditions(
    root: bool,
    self: Option<string>,
    compareOpens: bool, compareSelf: seq<Transfer>, compareCopy: seq<Transfer>,
    opensSelf: bool, opensTemporary: bool,
    inputs: seq<Transfer>, outputs: seq<Transfer>, closes: bool,
    changesMode: bool, polls: seq<bool>, renames: bool)

  datatype Outcome = NotNeeded | Failed | Refreshed

  /** Does the comparison find the copy in step? */
  predicate FoundInStep(files: Files, self: string, copy: string, c: Conditions)
    requires copy in files
  {
    self in files && c.compareOpens && SeenEqual(files[self].bytes, files[copy].bytes, c.compareSelf, c.compareCopy)
  }

  /** Is every write of the copying loop complete? */
  predicate AllWritten(n: nat, inputs: seq<Transfer>, outputs: seq<Transfer>)
    decreases n
  {
    var r := Moved(n, inputs);
    r == 0 || (Moved(r, outputs) == r && AllWritten(n - r, Rest(inputs), Rest(outputs)))
  }

  /** Is there a copy to refresh? */
  predicate HasCopy(files: Files, c: Conditions) {
    c.root && c.self.Some? && CopyPath(c.self.value).Some? && CopyPath(c.self.value).value in files
  }

  /** Does nothing that is checked fail? */
  predicate Works(files: Files, self: string, c: Conditions) {
    && self in files && c.opensSelf && c.opensTemporary
    && AllWritten(|files[self].bytes|, c.inputs, c.outputs) && c.closes && c.renames
  }

  /** What a refresh puts in place. */
  function Installed(files: Files, self: string, c: Conditions): File
    requires self in files
  {
    var bytes := files[self].bytes;
    File(bytes[..Readable(|bytes|, c.inputs)], c.changesMode)
  }

  /** The files after a run. */
  function Synced(files: Files, c: Conditions): Files {
    if !HasCopy(files, c) then files
    else
      var self, copy := c.self.value, CopyPath(c.self.value).value;
      if FoundInStep(files, self, copy, c) then files
      else if Works(files, self, c) then (files - {copy + ".new"})[copy := Installed(files, self, c)]
      else files - {copy + ".new"}
  }

  /** No file but `p` differs. */
  ghost predicate OnlyAt(now: Files, was: Files, p: string) {
    forall q :: q != p ==> (q in now <==> q in was) && (q in now && q in was ==> now[q] == was[q])
  }

  /** The copy is there, as it was or as it is going to be, and no other file has been touched but the temporary one. */
  ghost predicate Intact(now: Files, was: Files, c: Conditions) {
    && HasCopy(was, c)
    && var self, copy := c.self.value, CopyPath(c.self.value).value;
    && copy in now
    && (now[copy] == was[copy] || (self in was && now[copy] == Installed(was, self, c)))
    && forall p :: p != copy && p != copy + ".new" ==>
         (p in now <==> p in was) && (p in now && p in was ==> now[p] == was[p])
  }

  /** So in every state from the `n`-th on. */
  ghost predicate IntactSince(trail: seq<Files>, n: nat, was: Files, c: Conditions) {
    forall i :: n <= i < |trail| ==> Intact(trail[i], was, c)
  }

  /** The copy, its temporary neighbour and the daemon are three paths. */
  lemma ThreePaths(self: string)
    requires CopyPath(self).Some?
    ensures var copy := CopyPath(self).value; copy != self && copy + ".new" != self && copy + ".new" != copy
  {
    var copy := CopyPath(self).value;
    assert |copy| == |self| + 4;
  }

  /** What a finished run leaves is one of the states it may be stopped in. */
  lemma FinishedIsIntact(files: Files, c: Conditions)
    requires HasCopy(files, c)
    ensures Intact(Synced(files, c), files, c)
  {
    ThreePaths(c.self.value);
  }

  /**
   What is left behind: nothing has changed if the run is not root's or there is no copy or it is in step; otherwise no
   temporary file, and the copy is the new one, executable if its mode could be changed, or as it was.
   */
  lemma WhatIsLeft(files: Files, c: Conditions)
    ensures !c.root || c.self.None? || CopyPath(c.self.value).None? || CopyPath(c.self.value).value !in files ==>
              Synced(files, c) == files
    ensures HasCopy(files, c) ==>
              var self, copy, now := c.self.value, CopyPath(c.self.value).value, Synced(files, c);
              && copy in now && (self in now <==> self in files)
              && (copy + ".new" in now ==> now == files && FoundInStep(files, self, copy, c))
              && (now[copy] != files[copy] ==> self in files && now[copy].executable == c.changesMode)
  {
    if HasCopy(files, c) {
      ThreePaths(c.self.value);
    }
  }

  lemma IntactMore(trail: seq<Files>, n: nat, was: Files, c: Conditions, now: Files)
    requires IntactSince(trail, n, was, c) && Intact(now, was, c)
    ensures IntactSince(trail + [now], n, was, c)
  {
    hide Intact;
  }

  /** How a run that finds the copy out of step ends. */
  lemma SyncedIs(files: Files, c: Conditions)
    requires HasCopy(files, c) && !FoundInStep(files, c.self.value, CopyPath(c.self.value).value, c)
    ensures var self, copy := c.self.value, CopyPath(c.self.value).value;
            && (Works(files, self, c) <==> Works(files, self, c.(renames := true)) && c.renames)
            && (Works(files, self, c.(renames := true)) ==> self in files)
            && (Works(files, self, c) ==>
                  Synced(files, c) == (files - {copy + ".new"})[copy := Installed(files, self, c)])
            && (!Works(files, self, c) ==> Synced(files, c) == files - {copy + ".new"})
  {
  }

  lemma Replaced(was: Files, tmp: string, copy: string, f: File)
    requires tmp != copy
    ensures (was[tmp := f] - {tmp})[copy := f] == (was - {tmp})[copy := f]
  {
  }

  /** Is a new copy put in place? */
  predicate Refreshes(files: Files, c: Conditions) {
    && HasCopy(files, c)
    && !FoundInStep(files, c.self.value, CopyPath(c.self.value).value, c) && Works(files, c.self.value, c)
  }

  const POLLS := 40

  /** One of the forty looks finds no agent running. */
  predicate AgentsExit(polls: seq<bool>) {
    exists i :: 0 <= i < |polls| && i < 40 && polls[i]
  }

  method WaitForAgents(polls: seq<bool>) returns (quiet: bool)
    ensures quiet <==> AgentsExit(polls)
  {
    for i := 0 to POLLS
      invariant forall k :: 0 <= k < |polls| && k < i ==> !polls[k]
    {
      if i < |polls| && polls[i] {
        return true;
      }
    }
    quiet := false;
  }

  class Disk {
    var files: Files
    /** The contents after every operation so far: where a run can be stopped. */
    ghost var trail: seq<Files>

    constructor (files: Files)
      ensures this.files == files && trail == [files]
    {
      this.files := files;
      trail := [files];
    }

    method Unlink(p: string)
      modifies this
      ensures files == old(files) - {p} && trail == old(trail) + [files]
    {
      files := files - {p};
      trail := trail + [files];
    }

    method Create(p: string)
      modifies this
      ensures files == old(files)[p := File([], false)] && trail == old(trail) + [files]
    {
      files := files[p := File([], false)];
      trail := trail + [files];
    }

    method Append(p: string, buf: array<byte>, n: nat)
      requires p in files && n <= buf.Length
      modifies this
      ensures files == old(files)[p := old(files)[p].(bytes := old(files)[p].bytes + buf[..n])]
      ensures trail == old(trail) + [files]
    {
      files := files[p := files[p].(bytes := files[p].bytes + buf[..n])];
      trail := trail + [files];
    }

    method MakeExecutable(p: string)
      requires p in files
      modifies this
      ensures files == old(files)[p := old(files)[p].(executable := true)] && trail == old(trail) + [files]
    {
      files := files[p := files[p].(executable := true)];
      trail := trail + [files];
    }

    method Rename(from: string, to: string)
      requires from in files
      modifies this
      ensures files == (old(files) - {from})[to := old(files)[from]] && trail == old(trail) + [files]
    {
      files := (files - {from})[to := files[from]];
      trail := trail + [files];
    }

    /** Since its `n`-th state nothing but `p` has been other than in `was`. */
    ghost predicate OnlySince(n: nat, was: Files, p: string)
      reads this
    {
      && n <= |trail| && OnlyAt(files, was, p)
      && forall i :: n <= i < |trail| ==> OnlyAt(trail[i], was, p)
    }

    /** `kvm_files_identical` of the daemon and its copy. */
    method FilesIdentical(self: string, copy: string, c: Conditions) returns (same: bool)
      requires copy in files
      ensures same <==> FoundInStep(files, self, copy, c)
    {
      if self !in files || |files[self].bytes| != |files[copy].bytes| || !c.compareOpens {
        return false;
      }
      same := CompareContents(files[self].bytes, files[copy].bytes, c.compareSelf, c.compareCopy);
    }

    /** One turn of the copying loop: `r` bytes read, `w` of them written. */
    method CopyChunk(bytes: seq<byte>, at: nat, tmp: string, buf: array<byte>, inputs: seq<Transfer>,
        outputs: seq<Transfer>, ghost n: nat, ghost was: Files) returns (r: nat, w: nat)
      requires at <= |bytes| && buf.Length == CHUNK
      requires tmp in files && files[tmp] == File(bytes[..at], false) && OnlySince(n, was, tmp)
      modifies this, buf
      ensures r == Moved(|bytes| - at, inputs) && w == Moved(r, outputs)
      ensures tmp in files && files[tmp] == File(bytes[..at + w], false) && OnlySince(n, was, tmp)
      ensures old(trail) <= trail
    {
      var rest;
      r, rest := Fread(bytes, at, buf, inputs);
      w := Moved(r, outputs);
      if r > 0 {
        assert bytes[..at + w] == bytes[..at] + buf[..w] by {
          assert buf[..w] == buf[..r][..w] == bytes[at..at + w];
        }
        Append(tmp, buf, w);
      }
    }

    /** The copying loop: it cannot tell a read error from the end of the file. */
    method CopyOut(bytes: seq<byte>, tmp: string, c: Conditions, ghost n: nat, ghost was: Files) returns (ok: bool)
      requires tmp in files && files[tmp] == File([], false) && OnlySince(n, was, tmp)
      modifies this
      ensures OnlySince(n, was, tmp) && old(trail) <= trail && tmp in files
      ensures ok <==> AllWritten(|bytes|, c.inputs, c.outputs)
      ensures ok ==> files[tmp] == File(bytes[..Readable(|bytes|, c.inputs)], false)
    {
      var buf := new byte[CHUNK](_ => 0);
      var at: nat, inputs, outputs := 0, c.inputs, c.outputs;
      while true
        invariant at <= |bytes| && tmp in files && files[tmp] == File(bytes[..at], false)
        invariant OnlySince(n, was, tmp) && old(trail) <= trail
        invariant AllWritten(|bytes|, c.inputs, c.outputs) <==> AllWritten(|bytes| - at, inputs, outputs)
        invariant Readable(|bytes|, c.inputs) == at + Readable(|bytes| - at, inputs)
        decreases |bytes| - at
      {
        var r, w := CopyChunk(bytes, at, tmp, buf, inputs, outputs, n, was);
        if r == 0 {
          return true;
        }
        if w != r {
          return false;
        }
        at, inputs, outputs := at + r, Rest(inputs), Rest(outputs);
      }
    }

    /** Closing the new copy, and then its mode or its removal. */
    method Finish(written: bool, tmp: string, c: Conditions, ghost n: nat, ghost was: Files) returns (ok: bool)
      requires tmp in files && OnlySince(n, was, tmp)
      modifies this
      ensures OnlySince(n, was, tmp) && old(trail) <= trail
      ensures ok <==> written && c.closes
      ensures ok ==>
                var f := old(files)[tmp];
                files == old(files)[tmp := f.(executable := c.changesMode || f.executable)]
      ensures !ok ==> files == old(files) - {tmp}
    {
      ok := written && c.closes;
      if !ok {
        Unlink(tmp);
      } else if c.changesMode {
        MakeExecutable(tmp);
      }
    }

    /** A new temporary file, filled and finished. */
    method WriteOut(bytes: seq<byte>, tmp: string, c: Conditions, ghost n: nat, ghost was: Files) returns (ok: bool)
      requires OnlySince(n, was, tmp)
      modifies this
      ensures OnlySince(n, was, tmp) && old(trail) <= trail
      ensures ok <==> AllWritten(|bytes|, c.inputs, c.outputs) && c.closes
      ensures ok ==> tmp in files && files[tmp] == File(bytes[..Readable(|bytes|, c.inputs)], c.changesMode)
      ensures !ok ==> tmp !in files
    {
      Create(tmp);
      ok := CopyOut(bytes, tmp, c, n, was);
      ok := Finish(ok, tmp, c, n, was);
    }

    /** The new copy written out beside the old one; if that fails it is taken away again. */
    method Prepare(self: string, tmp: string, c: Conditions, ghost was: Files) returns (ok: bool)
      requires files == was && self != tmp
      modifies this
      ensures OnlySince(old(|trail|), was, tmp) && old(trail) <= trail
      ensures ok <==> Works(was, self, c.(renames := true))
      ensures ok ==> files == was[tmp := Installed(was, self, c)]
      ensures !ok ==> files == was - {tmp}
    {
      Unlink(tmp);
      if self !in files || !c.opensSelf || !c.opensTemporary {
        return false;
      }
      ok := WriteOut(files[self].bytes, tmp, c, old(|trail|), was);
    }

    /** A copy that is not in step: write a new one beside it, wait for the agents, rename. */
    method Refresh(self: string, copy: string, c: Conditions) returns (o: Outcome, quiet: bool)
      requires HasCopy(files, c) && self == c.self.value && copy == CopyPath(self).value
      requires !FoundInStep(files, self, copy, c)
      modifies this
      ensures files == Synced(old(files), c) && old(trail) <= trail
      ensures IntactSince(trail, |old(trail)|, old(files), c)
      ensures o == if Works(old(files), self, c) then Refreshed else Failed
      ensures o.Refreshed? ==> (quiet <==> AgentsExit(c.polls))
    {
      ghost var was, n := files, |trail|;
      ThreePaths(self);
      SyncedIs(was, c);
      hide Intact, Synced, Works, Installed, HasCopy, FoundInStep, CopyPath;
      var tmp := copy + ".new";
      quiet := false;
      var ok := Prepare(self, tmp, c, was);
      IntactWhile(trail, n, was, c);
      if !ok {
        return Failed, quiet;
      }
      quiet := WaitForAgents(c.polls);
      ghost var before := trail;
      if c.renames {
        Rename(tmp, copy);
        Replaced(was, tmp, copy, Installed(was, self, c));
        o := Refreshed;
      } else {
        Unlink(tmp);
        assert files == was - {tmp};
        o := Failed;
      }
      FinishedIsIntact(was, c);
      IntactMore(before, n, was, c, files);
    }

    /**
     `kvm_sync_agent_copy`.  Wherever it is stopped the copy is complete, and nothing but the copy and its
     temporary neighbour has changed.  The rename goes ahead whether or not the agents were seen to exit.
     */
    method Sync(c: Conditions) returns (o: Outcome, quiet: bool)
      modifies this
      ensures files == Synced(old(files), c)
      ensures old(trail) <= trail && IntactSince(trail, |old(trail)|, old(files), c)
      ensures o.Refreshed? <==> Refreshes(old(files), c)
      ensures o.Refreshed? ==> (quiet <==> AgentsExit(c.polls))
    {
      if !c.root || c.self.None? || CopyPath(c.self.value).None? {
        return NotNeeded, false;
      }
      var self, copy := c.self.value, CopyPath(c.self.value).value;
      if copy !in files {
        return NotNeeded, false;
      }
      var same := FilesIdentical(self, copy, c);
      if same {
        return NotNeeded, false;
      }
      o, quiet := Refresh(self, copy, c);
    }
  }

  lemma IntactWhile(trail: seq<Files>, n: nat, was: Files, c: Conditions)
    requires HasCopy(was, c)
    requires forall i :: n <= i < |trail| ==> OnlyAt(trail[i], was, CopyPath(c.self.value).value + ".new")
    ensures IntactSince(trail, n, was, c)
  {
    ThreePaths(c.self.value);
  }

  // ---- Over several runs --------------------------------------------------------------------------------

  /** No read error while comparing or copying. */
  predicate ReadsCleanly(c: Conditions) {
    AllClean(c.compareSelf) && AllClean(c.compareCopy) && AllClean(c.inputs)
  }

  /** Runs of one daemon, as root, that can open what they compare. */
  predicate RunOf(self: string, c: Conditions) {
    c.root && c.self == Some(self) && c.compareOpens
  }

  /** A run leaves the daemon alone, and never loses the copy. */
  lemma DaemonUntouched(files: Files, self: string, c: Conditions)
    requires RunOf(self, c) && HasCopy(files, c) && self in files
    ensures self in Synced(files, c) && Synced(files, c)[self] == files[self]
    ensures HasCopy(Synced(files, c), c)
  {
    ThreePaths(self);
  }

  /** What a run leaves as the copy. */
  function CopyAfter(files: Files, self: string, c: Conditions): seq<byte>
    requires RunOf(self, c) && HasCopy(files, c) && self in files
  {
    DaemonUntouched(files, self, c);
    Synced(files, c)[CopyPath(self).value].bytes
  }

  /**
   Without read errors a run leaves the copy as it was or makes it the daemon, and makes it the daemon exactly
   when it was that already or nothing that is checked fails; and then the next run changes nothing.
   */
  lemma CleanRun(files: Files, self: string, c: Conditions, next: Conditions)
    requires RunOf(self, c) && HasCopy(files, c) && self in files && ReadsCleanly(c)
    requires RunOf(self, next) && ReadsCleanly(next)
    ensures var copy, daemon := CopyPath(self).value, files[self].bytes;
            && (CopyAfter(files, self, c) == daemon <==> files[copy].bytes == daemon || Works(files, self, c))
            && (CopyAfter(files, self, c) != daemon ==> CopyAfter(files, self, c) == files[copy].bytes)
            && (CopyAfter(files, self, c) == daemon ==> Synced(Synced(files, c), next) == Synced(files, c))
  {
    var copy, daemon := CopyPath(self).value, files[self].bytes;
    ThreePaths(self);
    DaemonUntouched(files, self, c);
    CleanComparisonIsEquality(daemon, files[copy].bytes, c.compareSelf, c.compareCopy);
    CleanReadsAll(|daemon|, c.inputs);
    assert daemon[..|daemon|] == daemon;
    CleanComparisonIsEquality(daemon, CopyAfter(files, self, c), next.compareSelf, next.compareCopy);
  }

  /**
   A refresh installs all of the daemon if and only if no empty-handed read error comes before its end could have
   been reached.
   */
  lemma InstalledWholeIff(files: Files, self: string, c: Conditions)
    requires RunOf(self, c) && self in files && Refreshes(files, c)
    ensures CopyAfter(files, self, c) == files[self].bytes <==> NoErrorBefore(|files[self].bytes|, c.inputs)
  {
    var daemon := files[self].bytes;
    ThreePaths(self);
    ReadableIff(|daemon|, c.inputs);
    assert daemon[..|daemon|] == daemon;
  }

  /** The wait for the agents decides nothing: the copy is put in place though every look finds one running. */
  lemma RenamesUnderRunningAgents(files: Files, c: Conditions, polls: seq<bool>)
    requires Refreshes(files, c) && forall i :: 0 <= i < |c.polls| && i < 40 ==> !c.polls[i]
    ensures var copy := CopyPath(c.self.value).value;
            copy in Synced(files, c) && Synced(files, c)[copy] == Installed(files, c.self.value, c)
    ensures Synced(files, c.(polls := polls)) == Synced(files, c)
  {
  }

  /** Stopped anywhere, a run without read errors leaves the copy's old bytes or the daemon's. */
  lemma CleanStatesAreWhole(now: Files, files: Files, self: string, c: Conditions)
    requires c.self == Some(self) && self in files && ReadsCleanly(c) && Intact(now, files, c)
    ensures var copy := CopyPath(self).value;
            copy in now && (now[copy].bytes == files[copy].bytes || now[copy].bytes == files[self].bytes)
  {
    var daemon := files[self].bytes;
    CleanReadsAll(|daemon|, c.inputs);
    assert daemon[..|daemon|] == daemon;
  }

  /** Whatever a run did and wherever it was stopped, one without read errors in which nothing fails puts it right. */
  lemma RepairedByACleanRun(now: Files, files: Files, self: string, c: Conditions, next: Conditions)
    requires c.self == Some(self) && self in files && Intact(now, files, c)
    requires RunOf(self, next) && ReadsCleanly(next) && Works(now, self, next)
    ensures HasCopy(now, next) && self in now
    ensures CopyAfter(now, self, next) == files[self].bytes
  {
    ThreePaths(self);
    CleanRun(now, self, next, next);
  }

  /** An error on the first read installs an empty copy, with no failure reported. */
  lemma EmptiedByAReadError(files: Files, self: string, c: Conditions)
    requires RunOf(self, c) && self in files && Refreshes(files, c) && c.inputs == [Fault(0)]
    ensures CopyAfter(files, self, c) == []
  {
    ThreePaths(self);
  }
}
