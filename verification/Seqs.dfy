/** Facts about sequences and multisets that several components share. */
module Seqs {

  datatype Option<+T> = None | Some(value: T)

  /** Concatenation of a sequence of sequences, in order. */
  function Flatten<T>(ss: seq<seq<T>>): seq<T> {
    if ss == [] then [] else Flatten(ss[..|ss| - 1]) + ss[|ss| - 1]
  }

  lemma FlattenSnoc<T>(ss: seq<seq<T>>, last: seq<T>)
    ensures Flatten(ss + [last]) == Flatten(ss) + last
  {
    assert (ss + [last])[..|ss|] == ss;
  }

  lemma {:induction false} FlattenConcat<T>(a: seq<seq<T>>, b: seq<seq<T>>)
    ensures Flatten(a + b) == Flatten(a) + Flatten(b)
  {
    if b == [] {
      NilRight(a);
      NilRight(Flatten(a));
    } else {
      var n := |b| - 1;
      assert (a + b)[..|a + b| - 1] == a + b[..n];
      FlattenConcat(a, b[..n]);
      Assoc(Flatten(a), Flatten(b[..n]), b[n]);
    }
  }

  lemma FlattenHead<T>(ss: seq<seq<T>>)
    requires ss != []
    ensures Flatten(ss) == ss[0] + Flatten(ss[1..])
  {
    var none: seq<seq<T>> := [];
    assert ss == [ss[0]] + ss[1..];
    FlattenConcat([ss[0]], ss[1..]);
    FlattenSnoc(none, ss[0]);
    assert none + [ss[0]] == [ss[0]];
  }

  /** The last `k` elements, or everything when there are fewer. */
  function LastK<T>(k: nat, s: seq<T>): (r: seq<T>)
    ensures |r| == if |s| <= k then |s| else k
  {
    if |s| <= k then s else s[|s| - k..]
  }

  predicate NoDuplicates<T(==)>(s: seq<T>) {
    forall i, j :: 0 <= i < j < |s| ==> s[i] != s[j]
  }

  function Elements<T>(s: seq<T>): set<T> {
    set x | x in s
  }

  /** Removing one occurrence at position `i`. */
  function Without<T>(s: seq<T>, i: nat): seq<T>
    requires i < |s|
  {
    s[..i] + s[i + 1..]
  }

  lemma Assoc<T>(a: seq<T>, b: seq<T>, c: seq<T>)
    ensures (a + b) + c == a + (b + c)
  {
  }

  lemma NilRight<T>(a: seq<T>)
    ensures a + [] == a
  {
  }

  lemma HeadTail<T>(s: seq<T>)
    requires s != []
    ensures [s[0]] + s[1..] == s
  {
  }

  lemma MultisetConcat<T>(a: seq<T>, b: seq<T>)
    ensures multiset(a + b) == multiset(a) + multiset(b)
  {
  }

  lemma MultisetSnoc<T>(s: seq<T>, x: T)
    ensures multiset(s + [x]) == multiset(s) + multiset{x}
  {
  }

  /** A duplicate-free sequence of numbers below `n` has at most `n` elements. */
  lemma {:induction false} Pigeonhole(s: seq<nat>, n: nat)
    requires NoDuplicates(s)
    requires forall i :: 0 <= i < |s| ==> s[i] < n
    ensures |s| <= n
  {
    if s != [] {
      assert 0 <= s[0] < n;
      if i :| 0 <= i < |s| && s[i] == n - 1 {
        Pigeonhole(Without(s, i), n - 1);
      } else {
        Pigeonhole(s, n - 1);
      }
    }
  }

  function Map<T, U>(f: T -> U, s: seq<T>): (r: seq<U>)
    ensures |r| == |s| && forall i :: 0 <= i < |s| ==> r[i] == f(s[i])
  {
    if s == [] then [] else Map(f, s[..|s| - 1]) + [f(s[|s| - 1])]
  }

  lemma MapSnoc<T, U>(f: T -> U, s: seq<T>, x: T)
    ensures Map(f, s + [x]) == Map(f, s) + [f(x)]
  {
    assert (s + [x])[..|s|] == s;
  }

  /** How many elements satisfy `p`. */
  function Count<T>(s: seq<T>, p: T -> bool): nat {
    if s == [] then 0 else Count(s[..|s| - 1], p) + if p(s[|s| - 1]) then 1 else 0
  }

  lemma {:induction false} CountUpdate<T>(s: seq<T>, p: T -> bool, i: nat, x: T)
    requires i < |s|
    ensures Count(s[i := x], p) == Count(s, p) - (if p(s[i]) then 1 else 0) + (if p(x) then 1 else 0)
  {
    var n := |s| - 1;
    if i < n {
      assert s[i := x][..n] == s[..n][i := x];
      CountUpdate(s[..n], p, i, x);
    } else {
      assert s[i := x][..n] == s[..n];
    }
  }

  lemma {:induction false} CountZero<T>(s: seq<T>, p: T -> bool)
    ensures Count(s, p) == 0 <==> forall i :: 0 <= i < |s| ==> !p(s[i])
  {
    if s != [] {
      CountZero(s[..|s| - 1], p);
      assert forall i :: 0 <= i < |s| - 1 ==> s[..|s| - 1][i] == s[i];
    }
  }

  /** A sequence that contains every number below `n` has at least `n` elements. */
  lemma {:induction false} Covers(s: seq<nat>, n: nat)
    requires forall k :: 0 <= k < n ==> k in s
    ensures |s| >= n
  {
    if n > 0 {
      assert n - 1 in s;
      var i :| 0 <= i < |s| && s[i] == n - 1;
      var rest := Without(s, i);
      forall k | 0 <= k < n - 1
        ensures k in rest
      {
        assert k in s;
        var j :| 0 <= j < |s| && s[j] == k;
        assert rest[if j < i then j else j - 1] == k;
      }
      Covers(rest, n - 1);
    }
  }

  lemma CountSnoc<T>(s: seq<T>, p: T -> bool, x: T)
    ensures Count(s + [x], p) == Count(s, p) + if p(x) then 1 else 0
  {
    assert (s + [x])[..|s|] == s;
  }

  lemma MultisetMiddle<T>(a: seq<T>, x: T, b: seq<T>)
    ensures multiset(a + [x] + b) == multiset(a + b) + multiset{x}
  {
  }

  lemma Cancel<T>(a: multiset<T>, b: multiset<T>, same: multiset<T>)
    requires a + same == b + same
    ensures a == b
  {
    forall m
      ensures a[m] == b[m]
    {
      assert (a + same)[m] == (b + same)[m];
    }
  }

  /** Counting does not depend on the order. */
  lemma {:induction false} CountPermuted<T>(s: seq<T>, t: seq<T>, p: T -> bool)
    requires multiset(s) == multiset(t)
    ensures Count(s, p) == Count(t, p)
  {
    if s == [] {
      assert |multiset(t)| == 0;
    } else {
      var n := |s| - 1;
      var x := s[n];
      assert s == s[..n] + [x];
      assert x in multiset(t);
      var i :| 0 <= i < |t| && t[i] == x;
      var a, b := t[..i], t[i + 1..];
      assert t == a + [x] + b;
      MultisetSnoc(s[..n], x);
      MultisetMiddle(a, x, b);
      Cancel(multiset(s[..n]), multiset(a + b), multiset{x});
      CountPermuted(s[..n], a + b, p);
      CountMiddle(a, x, b, p);
    }
  }

  lemma {:induction false} CountConcat<T>(a: seq<T>, b: seq<T>, p: T -> bool)
    ensures Count(a + b, p) == Count(a, p) + Count(b, p)
  {
    if b == [] {
      NilRight(a);
    } else {
      assert (a + b)[..|a + b| - 1] == a + b[..|b| - 1];
      CountConcat(a, b[..|b| - 1], p);
    }
  }

  lemma CountMiddle<T>(a: seq<T>, x: T, b: seq<T>, p: T -> bool)
    ensures Count(a + [x] + b, p) == Count(a + b, p) + if p(x) then 1 else 0
  {
    CountConcat(a + [x], b, p);
    CountSnoc(a, p, x);
    CountConcat(a, b, p);
  }

  // ---------- picking elements ----------

  /** `picked` are the elements of `s` at `at`, which are in order the positions where `p` holds. */
  ghost predicate PickedAt<T>(s: seq<T>, p: T -> bool, picked: seq<T>, at: seq<nat>) {
    && |at| == |picked|
    && (forall k :: 0 <= k < |at| ==> at[k] < |s| && picked[k] == s[at[k]])
    && (forall k, l :: 0 <= k < l < |at| ==> at[k] < at[l])
    && forall i :: 0 <= i < |s| ==> (i in at <==> p(s[i]))
  }

  lemma PickNext<T>(s: seq<T>, p: T -> bool, picked: seq<T>, at: seq<nat>)
    requires s != [] && PickedAt(s[..|s| - 1], p, picked, at)
    ensures var n := |s| - 1;
            if p(s[n]) then PickedAt(s, p, picked + [s[n]], at + [n]) else PickedAt(s, p, picked, at)
  {
    var n := |s| - 1;
    assert n !in at;
    forall i | 0 <= i < n
      ensures i in at <==> p(s[i])
    {
      assert s[..n][i] == s[i];
    }
    assert (at + [n])[|at|] == n;
    assert forall i :: i in at + [n] <==> i in at || i == n;
  }
}
