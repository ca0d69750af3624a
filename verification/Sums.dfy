/** Finite sums of reals over sequences and sets, with the few laws the accounting proofs use. */
module Sums {

  /** Sum of f over a list, left to right. */
  function Sum<T>(s: seq<T>, f: T -> real): real {
    if |s| == 0 then 0.0 else Sum(s[..|s|-1], f) + f(s[|s|-1])
  }

  lemma SumAppend<T>(s: seq<T>, x: T, f: T -> real)
    ensures Sum(s + [x], f) == Sum(s, f) + f(x)
  {
    assert (s + [x])[..|s|] == s;
  }

  /** Replacing one element changes the sum by exactly the difference. */
  lemma {:induction false} SumUpdate<T>(s: seq<T>, j: nat, x: T, f: T -> real)
    requires j < |s|
    ensures Sum(s[j := x], f) == Sum(s, f) - f(s[j]) + f(x)
  {
    var n := |s| - 1;
    if j == n {
      assert s[j := x][..n] == s[..n];
    } else {
      SumUpdate(s[..n], j, x, f);
      assert s[j := x][..n] == s[..n][j := x];
    }
  }

  /** A pointwise bound is a bound on the sums. */
  lemma {:induction false} SumLe<T>(s: seq<T>, f: T -> real, g: T -> real)
    requires forall x :: x in s ==> f(x) <= g(x)
    ensures Sum(s, f) <= Sum(s, g)
  {
    if |s| > 0 {
      SumLe(s[..|s|-1], f, g);
    }
  }

  /** Lists that agree term by term have the same sum. */
  lemma {:induction false} SumPointwise<T>(s: seq<T>, f: T -> real, t: seq<T>, g: T -> real)
    requires |s| == |t| && forall i :: 0 <= i < |s| ==> f(s[i]) == g(t[i])
    ensures Sum(s, f) == Sum(t, g)
  {
    if |s| > 0 {
      SumPointwise(s[..|s|-1], f, t[..|t|-1], g);
    }
  }

  /** Two functions that agree on every term but one. */
  lemma {:induction false} SumTerm<T>(s: seq<T>, j: nat, f: T -> real, g: T -> real)
    requires j < |s| && forall i :: 0 <= i < |s| && i != j ==> f(s[i]) == g(s[i])
    ensures Sum(s, g) == Sum(s, f) - f(s[j]) + g(s[j])
  {
    var n := |s| - 1;
    if j == n {
      SumPointwise(s[..n], f, s[..n], g);
    } else {
      SumTerm(s[..n], j, f, g);
    }
  }

  lemma SumNonNegative<T>(s: seq<T>, f: T -> real)
    requires forall x :: x in s ==> 0.0 <= f(x)
    ensures 0.0 <= Sum(s, f)
  {
    SumLe(s, _ => 0.0, f);
    SumZero<T>(s);
  }

  lemma {:induction false} SumZero<T>(s: seq<T>)
    ensures Sum(s, _ => 0.0) == 0.0
  {
    if |s| > 0 {
      SumZero(s[..|s|-1]);
    }
  }

  /** Sum of f over a finite set, in no particular order. */
  ghost function SumSet<K(!new)>(s: set<K>, f: K -> real): real {
    if s == {} then 0.0 else var k :| k in s; f(k) + SumSet(s - {k}, f)
  }

  /** The order in which a set is summed does not matter. */
  lemma {:induction false} SumSetPick<K(!new)>(s: set<K>, k: K, f: K -> real)
    requires k in s
    ensures SumSet(s, f) == f(k) + SumSet(s - {k}, f)
    decreases s
  {
    var k0 :| k0 in s && SumSet(s, f) == f(k0) + SumSet(s - {k0}, f);
    if k0 != k {
      SumSetPick(s - {k0}, k, f);
      SumSetPick(s - {k}, k0, f);
      assert s - {k0} - {k} == s - {k} - {k0};
    }
  }

  lemma {:induction false} SumSetLe<K(!new)>(s: set<K>, f: K -> real, g: K -> real)
    requires forall k :: k in s ==> f(k) <= g(k)
    ensures SumSet(s, f) <= SumSet(s, g)
    decreases s
  {
    if s != {} {
      var k :| k in s;
      SumSetPick(s, k, f);
      SumSetPick(s, k, g);
      SumSetLe(s - {k}, f, g);
    }
  }

  lemma SumSetSame<K(!new)>(s: set<K>, f: K -> real, g: K -> real)
    requires forall k :: k in s ==> f(k) == g(k)
    ensures SumSet(s, f) == SumSet(s, g)
  {
    SumSetLe(s, f, g);
    SumSetLe(s, g, f);
  }

  /** Two functions that agree off one key: the sums differ by that key's terms. */
  lemma SumSetChange<K(!new)>(s: set<K>, k: K, f: K -> real, g: K -> real)
    requires k in s
    requires forall x :: x in s && x != k ==> f(x) == g(x)
    ensures SumSet(s, g) == SumSet(s, f) - f(k) + g(k)
  {
    SumSetPick(s, k, f);
    SumSetPick(s, k, g);
    SumSetSame(s - {k}, f, g);
  }

  lemma SumSetGrow<K(!new)>(s: set<K>, k: K, f: K -> real, g: K -> real)
    requires k !in s
    requires forall x :: x in s ==> f(x) == g(x)
    ensures SumSet(s + {k}, g) == SumSet(s, f) + g(k)
  {
    SumSetPick(s + {k}, k, g);
    assert s + {k} - {k} == s;
    SumSetSame(s, f, g);
  }

  lemma {:induction false} SumSetZero<K(!new)>(s: set<K>, f: K -> real)
    requires forall k :: k in s ==> f(k) == 0.0
    ensures SumSet(s, f) == 0.0
    decreases s
  {
    if s != {} {
      var k :| k in s;
      SumSetPick(s, k, f);
      SumSetZero(s - {k}, f);
    }
  }

  lemma SumSetNonNegative<K(!new)>(s: set<K>, f: K -> real)
    requires forall k :: k in s ==> 0.0 <= f(k)
    ensures 0.0 <= SumSet(s, f)
  {
    SumSetZero(s, _ => 0.0);
    SumSetLe(s, _ => 0.0, f);
  }

  /** A set's sum splits into two pointwise parts. */
  lemma {:induction false} SumSetSplit<K(!new)>(s: set<K>, f: K -> real, g: K -> real, h: K -> real)
    requires forall k :: k in s ==> f(k) == g(k) + h(k)
    ensures SumSet(s, f) == SumSet(s, g) + SumSet(s, h)
    decreases s
  {
    if s != {} {
      var k :| k in s;
      SumSetPick(s, k, f);
      SumSetPick(s, k, g);
      SumSetPick(s, k, h);
      SumSetSplit(s - {k}, f, g, h);
    }
  }
}
