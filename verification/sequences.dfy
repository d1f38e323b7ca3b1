/** Generic facts about sequences: distinctness, first occurrences, and the
    order-preserving de-duplication that `[...new Set(xs)]` performs. */
module Sequences {

  /** No element occurs twice. */
  predicate NoDup<T(==)>(s: seq<T>) {
    forall i, j :: 0 <= i < j < |s| ==> s[i] != s[j]
  }

  /** Index of the first occurrence of `x` in `s`. */
  function FirstIndex<T(==)>(s: seq<T>, x: T): (k: nat)
    requires x in s
    ensures k < |s| && s[k] == x
    ensures x !in s[..k]
  {
    if s[0] == x then 0
    else
      var k' := FirstIndex(s[1..], x);
      assert s[..1 + k'] == [s[0]] + s[1..][..k'];
      1 + k'
  }

  /** The first occurrence is the only index holding `x` with no earlier `x`. */
  lemma FirstIndexUnique<T>(s: seq<T>, x: T, k: nat)
    requires k < |s| && s[k] == x && x !in s[..k]
    ensures FirstIndex(s, x) == k
  {
  }

  /** Appending an element does not move the first occurrence of anything
      already present, and a new element first occurs at the end. */
  lemma FirstIndexSnoc<T>(init: seq<T>, x: T)
    ensures forall y :: y in init ==> FirstIndex(init + [x], y) == FirstIndex(init, y)
    ensures x !in init ==> FirstIndex(init + [x], x) == |init|
  {
    var s := init + [x];
    forall y | y in init
      ensures FirstIndex(s, y) == FirstIndex(init, y)
    {
      var k := FirstIndex(init, y);
      assert s[..k] == init[..k];
      FirstIndexUnique(s, y, k);
    }
    if x !in init {
      assert s[..|init|] == init;
      FirstIndexUnique(s, x, |init|);
    }
  }

  /** `xs` lists members of `ref` in the order of their first occurrence in `ref`. */
  predicate InOrderOf<T(==)>(xs: seq<T>, ref: seq<T>) {
    && (forall i :: 0 <= i < |xs| ==> xs[i] in ref)
    && (forall i, j :: 0 <= i < j < |xs| && xs[i] in ref && xs[j] in ref ==>
          FirstIndex(ref, xs[i]) < FirstIndex(ref, xs[j]))
  }

  /** First-occurrence de-duplication: keeps each element the first time it
      is seen and drops every later copy. It is a left fold, as inserting the
      elements one by one into an insertion-ordered set is. */
  function Dedup<T(==)>(s: seq<T>): (r: seq<T>)
    ensures NoDup(r)
    ensures InOrderOf(r, s)
    ensures forall i :: 0 <= i < |s| ==> s[i] in r
    ensures |r| <= |s|
  {
    if |s| == 0 then []
    else
      var init, x := s[..|s| - 1], s[|s| - 1];
      assert s == init + [x];
      var prev := Dedup(init);
      FirstIndexSnoc(init, x);
      if x in init then prev else prev + [x]
  }

  /** De-duplicating a duplicate-free sequence changes nothing. */
  lemma {:induction false} DedupOfNoDup<T>(s: seq<T>)
    requires NoDup(s)
    ensures Dedup(s) == s
  {
    if |s| > 0 {
      var init := s[..|s| - 1];
      DedupOfNoDup(init);
      assert s[|s| - 1] !in init;
    }
  }

  /** De-duplication is idempotent. */
  lemma DedupIdempotent<T>(s: seq<T>)
    ensures Dedup(Dedup(s)) == Dedup(s)
  {
    DedupOfNoDup(Dedup(s));
  }

  /** A duplicate-free prefix survives de-duplication unchanged, at the front. */
  lemma {:induction false} DedupKeepsPrefix<T>(a: seq<T>, b: seq<T>)
    requires NoDup(a)
    ensures |a| <= |Dedup(a + b)| && Dedup(a + b)[..|a|] == a
  {
    if |b| == 0 {
      assert a + b == a;
      DedupOfNoDup(a);
    } else {
      var b' := b[..|b| - 1];
      DedupKeepsPrefix(a, b');
      assert (a + b)[..|a + b| - 1] == a + b';
    }
  }

  /** A strictly increasing run of `n` indices below `n` is the identity. */
  lemma {:induction false} IncreasingIndicesAreIdentity(f: seq<nat>, n: nat)
    requires |f| == n
    requires forall i :: 0 <= i < n ==> f[i] < n
    requires forall i, j :: 0 <= i < j < n ==> f[i] < f[j]
    ensures forall i :: 0 <= i < n ==> f[i] == i
  {
    if n > 0 {
      var g := f[..n - 1];
      forall i | 0 <= i < n - 1
        ensures g[i] < n - 1
      {
        assert f[i] < f[n - 1];
      }
      IncreasingIndicesAreIdentity(g, n - 1);
      if n >= 2 {
        assert f[n - 2] == g[n - 2] == n - 2;
        assert f[n - 2] < f[n - 1];
      }
    }
  }

  /** A list of members of a duplicate-free `ref`, in `ref`'s order and as
      long as `ref`, is `ref` itself. */
  lemma InOrderOfAll<T>(xs: seq<T>, ref: seq<T>)
    requires InOrderOf(xs, ref) && NoDup(ref) && |xs| == |ref|
    ensures xs == ref
  {
    var f := seq(|xs|, i requires 0 <= i < |xs| => FirstIndex(ref, xs[i]));
    IncreasingIndicesAreIdentity(f, |ref|);
    forall i | 0 <= i < |xs|
      ensures xs[i] == ref[i]
    {
      assert f[i] == i;
    }
  }

  /** The sequences of `xss`, one after the other. */
  function Concat<T>(xss: seq<seq<T>>): (xs: seq<T>)
  {
    if |xss| == 0 then [] else Concat(xss[..|xss| - 1]) + xss[|xss| - 1]
  }

  /** Empty sequences after index `k` add nothing to the concatenation. */
  lemma {:induction false} ConcatOfEmpties<T>(xss: seq<seq<T>>, k: nat)
    requires k <= |xss|
    requires forall i :: k <= i < |xss| ==> xss[i] == []
    ensures Concat(xss) == Concat(xss[..k])
  {
    if |xss| > k {
      var n := |xss| - 1;
      assert xss[..n][..k] == xss[..k];
      ConcatOfEmpties(xss[..n], k);
    } else {
      assert xss[..k] == xss;
    }
  }
}
