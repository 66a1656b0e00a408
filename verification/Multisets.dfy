/** Sequences with the same contents are permutations of each other. */
module Multisets {
  ghost predicate Permutes(f: seq<nat>, n: nat) {
    && |f| == n
    && (forall i :: 0 <= i < n ==> f[i] < n)
    && (forall i, j :: 0 <= i < j < n ==> f[i] != f[j])
  }

  function Without<T>(s: seq<T>, p: nat): (r: seq<T>)
    requires p < |s|
    ensures |r| == |s| - 1
    ensures forall i :: 0 <= i < |r| ==> r[i] == s[if i < p then i else i + 1]
  {
    s[..p] + s[p + 1..]
  }

  lemma WithoutContents<T>(s: seq<T>, p: nat)
    requires p < |s|
    ensures multiset(Without(s, p)) + multiset{s[p]} == multiset(s)
  {
    assert s == s[..p] + ([s[p]] + s[p + 1..]);
  }

  lemma Cancel<T>(a: multiset<T>, b: multiset<T>, x: T)
    requires a + multiset{x} == b + multiset{x}
    ensures a == b
  {
    assert a == a + multiset{x} - multiset{x};
    assert b == b + multiset{x} - multiset{x};
  }

  /** Puts `p` in front of a permutation of the other indices. */
  function Prepend(p: nat, g: seq<nat>): (f: seq<nat>)
    ensures |f| == |g| + 1 && f[0] == p
    ensures forall i :: 0 <= i < |g| ==> f[i + 1] == if g[i] < p then g[i] else g[i] + 1
  {
    [p] + seq(|g|, i requires 0 <= i < |g| => if g[i] < p then g[i] else g[i] + 1)
  }

  lemma PrependPermutes(p: nat, g: seq<nat>)
    requires Permutes(g, |g|) && p <= |g|
    ensures Permutes(Prepend(p, g), |g| + 1)
  {
    var f := Prepend(p, g);
    forall i | 0 <= i < |f|
      ensures f[i] < |f| && (i > 0 ==> f[i] != p)
    {
      if i > 0 { assert f[i] == if g[i - 1] < p then g[i - 1] else g[i - 1] + 1; }
    }
    forall i, j | 0 <= i < j < |f|
      ensures f[i] != f[j]
    {
      if i > 0 { assert g[i - 1] != g[j - 1]; }
    }
  }

  /** Drops the first index of a permutation and closes the gap. */
  function Behead(f: seq<nat>): (g: seq<nat>)
    requires |f| > 0 && Permutes(f, |f|)
    ensures |g| == |f| - 1
    ensures forall i :: 0 <= i < |g| ==> f[i + 1] != f[0] && g[i] == if f[i + 1] < f[0] then f[i + 1] else f[i + 1] - 1
  {
    seq(|f| - 1, i requires 0 <= i < |f| - 1 => if f[i + 1] <= f[0] then f[i + 1] else f[i + 1] - 1)
  }

  lemma BeheadPermutes(f: seq<nat>)
    requires |f| > 0 && Permutes(f, |f|)
    ensures Permutes(Behead(f), |f| - 1)
  {
    var g := Behead(f);
    forall i, j | 0 <= i < j < |g|
      ensures g[i] != g[j]
    {
      assert f[i + 1] != f[j + 1];
    }
  }

  lemma {:induction false} SameContentsPermute<T>(x: seq<T>, y: seq<T>) returns (f: seq<nat>)
    requires multiset(x) == multiset(y)
    ensures |x| == |y| && Permutes(f, |x|)
    ensures forall i :: 0 <= i < |x| ==> y[f[i]] == x[i]
    decreases |x|
  {
    assert |x| == |multiset(x)| && |y| == |multiset(y)|;
    if x == [] {
      f := [];
    } else {
      assert x[0] in multiset(y);
      var p :| 0 <= p < |y| && y[p] == x[0];
      WithoutContents(y, p);
      assert x == [x[0]] + x[1..];
      var rest := Without(y, p);
      Cancel(multiset(x[1..]), multiset(rest), x[0]);
      var g := SameContentsPermute(x[1..], rest);
      f := Prepend(p, g);
      PrependPermutes(p, g);
      forall i | 0 < i < |x|
        ensures y[f[i]] == x[i]
      {
        assert x[1..][i - 1] == rest[g[i - 1]];
        assert f[i] == if g[i - 1] < p then g[i - 1] else g[i - 1] + 1;
      }
    }
  }

  lemma {:induction false} PermutedContents<T>(y: seq<T>, f: seq<nat>, x: seq<T>)
    requires |x| == |y| && Permutes(f, |y|)
    requires forall i :: 0 <= i < |x| ==> x[i] == y[f[i]]
    ensures multiset(x) == multiset(y)
    decreases |y|
  {
    if y != [] {
      WithoutContents(y, f[0]);
      BeheadPermutes(f);
      var rest, g := Without(y, f[0]), Behead(f);
      assert x == [x[0]] + x[1..];
      forall i | 0 <= i < |rest|
        ensures x[1..][i] == rest[g[i]]
      {
        assert x[1..][i] == x[i + 1] == y[f[i + 1]];
        assert f[i + 1] != f[0];
      }
      PermutedContents(rest, g, x[1..]);
    }
  }
}
