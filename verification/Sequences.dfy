/** Facts about sequences that the verifier does not look for on its own. */
module Sequences {

  lemma PlusIsAssociative<T>(a: seq<T>, b: seq<T>, c: seq<T>)
    ensures a + (b + c) == a + b + c
  {
  }

  lemma FrontOfSum<T>(a: seq<T>, b: seq<T>)
    requires b != []
    ensures (a + b)[..|a + b| - 1] == a + b[..|b| - 1] && (a + b)[|a + b| - 1] == b[|b| - 1]
  {
  }

  lemma SliceOfPrefix<T>(s: seq<T>, k: nat, i: nat, j: nat)
    requires i <= j <= k <= |s|
    ensures s[..k][i..j] == s[i..j]
  {
  }

  lemma SliceOfSuffix<T>(s: seq<T>, i: nat, n: nat)
    requires i + n <= |s|
    ensures s[i..][..n] == s[i..i + n]
  {
  }

  /** Some of the elements, in their order. */
  ghost predicate IsSubsequence<T>(a: seq<T>, b: seq<T>)
    decreases |b|
  {
    var n := |b| - 1;
    a == [] || (b != [] && (IsSubsequence(a, b[..n]) || (a[|a| - 1] == b[n] && IsSubsequence(a[..|a| - 1], b[..n]))))
  }

  lemma SubsequenceSnoc<T>(a: seq<T>, b: seq<T>, x: T)
    requires IsSubsequence(a, b)
    ensures IsSubsequence(a, b + [x]) && IsSubsequence(a + [x], b + [x])
  {
    assert (b + [x])[..|b|] == b && (a + [x])[..|a|] == a;
  }

  lemma {:induction false} SubsequenceOfMore<T>(a: seq<T>, b: seq<T>, c: seq<T>)
    requires IsSubsequence(a, b)
    ensures IsSubsequence(a, b + c)
    decreases |c|
  {
    if c == [] {
      assert b + c == b;
    } else {
      var n := |c| - 1;
      SubsequenceOfMore(a, b, c[..n]);
      SubsequenceSnoc(a, b + c[..n], c[n]);
      assert b + c == b + c[..n] + [c[n]];
    }
  }

  lemma {:induction false} FrontOfSubsequence<T>(a: seq<T>, b: seq<T>)
    requires a != [] && IsSubsequence(a, b)
    ensures IsSubsequence(a[..|a| - 1], b)
    decreases |b|
  {
    var n := |b| - 1;
    if IsSubsequence(a, b[..n]) {
      FrontOfSubsequence(a, b[..n]);
    }
    assert b == b[..n] + [b[n]];
    SubsequenceSnoc(a[..|a| - 1], b[..n], b[n]);
  }

  lemma {:induction false} PrefixOfSubsequence<T>(a: seq<T>, c: seq<T>, b: seq<T>)
    requires IsSubsequence(a + c, b)
    ensures IsSubsequence(a, b)
    decreases |c|
  {
    if c == [] {
      assert a + c == a;
    } else {
      var n := |c| - 1;
      FrontOfSubsequence(a + c, b);
      assert (a + c)[..|a| + n] == a + c[..n];
      PrefixOfSubsequence(a, c[..n], b);
    }
  }

  lemma {:induction false} SubsequenceMember<T>(a: seq<T>, b: seq<T>, x: T)
    requires IsSubsequence(a, b) && x in a
    ensures x in b
    decreases |b|
  {
    var n := |b| - 1;
    if IsSubsequence(a, b[..n]) {
      SubsequenceMember(a, b[..n], x);
    } else if x != b[n] {
      var i :| 0 <= i < |a| && a[i] == x;
      assert a[..|a| - 1][i] == x;
      SubsequenceMember(a[..|a| - 1], b[..n], x);
    }
  }
}
