/** The first and the last position of a character in a string. */
module Strings {
  import opened Seqs

  /** The first position of `c`, or the length when there is none. */
  function IndexOf(s: string, c: char): (i: nat)
    ensures i <= |s| && (i < |s| ==> s[i] == c) && c !in s[..i]
  {
    if s == "" || s[0] == c then 0 else
      assert s[..IndexOf(s[1..], c) + 1] == [s[0]] + s[1..][..IndexOf(s[1..], c)];
      IndexOf(s[1..], c) + 1
  }

  lemma {:induction false} IndexOfConcat(a: string, c: char, b: string)
    requires c !in a && (b == "" || b[0] == c)
    ensures IndexOf(a + b, c) == |a|
  {
    if a == "" {
      assert a + b == b;
    } else {
      assert (a + b)[1..] == a[1..] + b;
      IndexOfConcat(a[1..], c, b);
    }
  }

  lemma {:induction false} IndexOfPrefix(x: string, y: string, c: char)
    requires x <= y && IndexOf(x, c) < |x|
    ensures IndexOf(y, c) == IndexOf(x, c)
  {
    if x[0] != c {
      IndexOfPrefix(x[1..], y[1..], c);
    }
  }

  /** The last position of `c`, or -1 when there is none. */
  function LastIndex(s: string, c: char): (i: int)
    ensures -1 <= i < |s|
    ensures i == -1 <==> c !in s
    ensures i >= 0 ==> s[i] == c && c !in s[i + 1..]
  {
    if s == "" then -1
    else if s[|s| - 1] == c then |s| - 1
    else
      var i := LastIndex(s[..|s| - 1], c);
      assert s == s[..|s| - 1] + [s[|s| - 1]];
      assert i >= 0 ==> s[i + 1..] == s[..|s| - 1][i + 1..] + [s[|s| - 1]];
      i
  }

  lemma {:induction false} LastIndexOf(a: string, c: char, b: string)
    requires c !in b
    ensures LastIndex(a + [c] + b, c) == |a|
  {
    var s := a + [c] + b;
    if b == "" {
      assert s == a + [c];
    } else {
      assert s[..|s| - 1] == a + [c] + b[..|b| - 1];
      LastIndexOf(a, c, b[..|b| - 1]);
    }
  }
}
