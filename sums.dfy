/** Finite sums of reals over sequences, and the element-wise sequence
    operations that numpy performs on rating and score vectors. */
module Sums {

  /** Sum of a sequence, peeling off the last element (numpy `sum`). */
  function Sum(s: seq<real>): real
  {
    if s == [] then 0.0 else Sum(s[..|s| - 1]) + s[|s| - 1]
  }

  lemma SumSingleton(s: seq<real>)
    ensures |s| == 1 ==> Sum(s) == s[0]
  {
    if |s| == 1 {
      assert s[..0] == [];
    }
  }

  /** Element-wise sum of two vectors of the same length. */
  function Add(a: seq<real>, b: seq<real>): seq<real>
    requires |a| == |b|
  {
    seq(|a|, i requires 0 <= i < |a| => a[i] + b[i])
  }

  /** Element-wise division by a scalar. */
  function DivideBy(s: seq<real>, d: real): seq<real>
    requires d != 0.0
  {
    seq(|s|, i requires 0 <= i < |s| => s[i] / d)
  }

  /** The vector of length `n` whose entries are all `c`. */
  function Constant(n: nat, c: real): seq<real>
  {
    seq(n, _ => c)
  }

  /** The same elements in the opposite order (Python's `s[::-1]`). */
  function Reverse<T>(s: seq<T>): seq<T>
  {
    seq(|s|, i requires 0 <= i < |s| => s[|s| - 1 - i])
  }

  lemma {:induction false} SumAppend(s: seq<real>, t: seq<real>)
    ensures Sum(s + t) == Sum(s) + Sum(t)
  {
    if t != [] {
      var t' := t[..|t| - 1];
      assert (s + t)[..|s + t| - 1] == s + t';
      SumAppend(s, t');
    } else {
      assert s + t == s;
    }
  }

  lemma {:induction false} SumAdd(a: seq<real>, b: seq<real>)
    requires |a| == |b|
    ensures Sum(Add(a, b)) == Sum(a) + Sum(b)
  {
    if a != [] {
      var n := |a| - 1;
      assert Add(a, b)[..n] == Add(a[..n], b[..n]);
      SumAdd(a[..n], b[..n]);
    }
  }

  lemma {:induction false} SumDivideBy(s: seq<real>, d: real)
    requires d != 0.0
    ensures Sum(DivideBy(s, d)) == Sum(s) / d
  {
    if s != [] {
      var n := |s| - 1;
      assert DivideBy(s, d)[..n] == DivideBy(s[..n], d);
      SumDivideBy(s[..n], d);
      assert Sum(s[..n]) / d + s[n] / d == (Sum(s[..n]) + s[n]) / d;
    }
  }

  lemma {:induction false} SumConstant(n: nat, c: real)
    ensures Sum(Constant(n, c)) == (n as real) * c
  {
    if n > 0 {
      assert Constant(n, c)[..n - 1] == Constant(n - 1, c);
      SumConstant(n - 1, c);
    }
  }

  /** Overwriting one entry changes the sum by the difference. */
  lemma {:induction false} SumUpdate(s: seq<real>, i: nat, v: real)
    requires i < |s|
    ensures Sum(s[i := v]) == Sum(s) - s[i] + v
  {
    var n := |s| - 1;
    if i == n {
      assert s[i := v][..n] == s[..n];
    } else {
      assert s[i := v][..n] == s[..n][i := v];
      SumUpdate(s[..n], i, v);
    }
  }

  lemma {:induction false} SumReverse(s: seq<real>)
    ensures Sum(Reverse(s)) == Sum(s)
  {
    if s != [] {
      var n := |s| - 1;
      assert Reverse(s) == [s[n]] + Reverse(s[..n]);
      SumAppend([s[n]], Reverse(s[..n]));
      assert Sum([s[n]]) == s[n] by {
        assert [s[n]][..0] == [];
      }
      SumReverse(s[..n]);
    }
  }
}
