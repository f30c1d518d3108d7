/** Order-preserving selection from sequences: the `Array.prototype.filter`
    the views use, a mask-driven variant for filters whose callback keeps
    state, and the subsequence relation both produce. */
module Seqs {

  /** Keeps the elements that satisfy `p`, in their original order. */
  function Filter<T(!new)>(s: seq<T>, p: T -> bool): (r: seq<T>)
    ensures |r| <= |s|
    ensures forall x :: x in r <==> x in s && p(x)
  {
    if s == [] then []
    else if p(s[0]) then [s[0]] + Filter(s[1..], p)
    else Filter(s[1..], p)
  }

  /** Number of `true` entries of a mask. */
  function CountTrue(m: seq<bool>): (n: nat)
    ensures n <= |m|
  {
    if m == [] then 0 else (if m[0] then 1 else 0) + CountTrue(m[1..])
  }

  /** Keeps `s[i]` exactly when `mask[i]` holds, in their original order. */
  function Select<T(!new)>(s: seq<T>, mask: seq<bool>): (r: seq<T>)
    requires |mask| == |s|
    ensures |r| == CountTrue(mask)
    ensures forall x :: x in r ==> x in s
  {
    if s == [] then []
    else (if mask[0] then [s[0]] else []) + Select(s[1..], mask[1..])
  }

  /** The mask that `p` induces on `s`. */
  function MaskOf<T>(s: seq<T>, p: T -> bool): (m: seq<bool>)
    ensures |m| == |s|
    ensures forall i :: 0 <= i < |s| ==> m[i] == p(s[i])
  {
    if s == [] then [] else [p(s[0])] + MaskOf(s[1..], p)
  }

  /** `a` is obtained from `b` by dropping some elements and keeping the
      order of the others. */
  ghost predicate IsSubsequence<T(!new)>(a: seq<T>, b: seq<T>) {
    exists m: seq<bool> :: |m| == |b| && a == Select(b, m)
  }

  /** The mask that selects, among all of `b`, what selecting by `m2` from
      the selection by `m1` keeps. */
  function Compose(m1: seq<bool>, m2: seq<bool>): (m: seq<bool>)
    requires |m2| == CountTrue(m1)
    ensures |m| == |m1|
  {
    if m1 == [] then []
    else if m1[0] then [m2[0]] + Compose(m1[1..], m2[1..])
    else [false] + Compose(m1[1..], m2)
  }

  lemma {:induction false} FilterIsSelect<T(!new)>(s: seq<T>, p: T -> bool)
    ensures Filter(s, p) == Select(s, MaskOf(s, p))
  {
    if s != [] {
      FilterIsSelect(s[1..], p);
      assert MaskOf(s, p)[1..] == MaskOf(s[1..], p);
    }
  }

  lemma {:induction false} SelectAll<T(!new)>(s: seq<T>, m: seq<bool>)
    requires |m| == |s|
    requires forall i :: 0 <= i < |m| ==> m[i]
    ensures Select(s, m) == s
  {
    if s != [] {
      SelectAll(s[1..], m[1..]);
    }
  }

  lemma {:induction false} SelectSelect<T(!new)>(b: seq<T>, m1: seq<bool>, m2: seq<bool>)
    requires |m1| == |b|
    requires |m2| == CountTrue(m1)
    ensures Select(Select(b, m1), m2) == Select(b, Compose(m1, m2))
  {
    if b != [] {
      var c := Compose(m1, m2);
      if m1[0] {
        var rest := Select(b[1..], m1[1..]);
        assert Select(b, m1) == [b[0]] + rest;
        assert ([b[0]] + rest)[1..] == rest;
        SelectSelect(b[1..], m1[1..], m2[1..]);
        assert c[0] == m2[0] && c[1..] == Compose(m1[1..], m2[1..]);
      } else {
        assert Select(b, m1) == Select(b[1..], m1[1..]);
        SelectSelect(b[1..], m1[1..], m2);
        assert !c[0] && c[1..] == Compose(m1[1..], m2);
      }
    }
  }

  lemma SubsequenceReflexive<T(!new)>(s: seq<T>)
    ensures IsSubsequence(s, s)
  {
    var m := seq(|s|, i => true);
    SelectAll(s, m);
  }

  lemma SelectIsSubsequence<T(!new)>(s: seq<T>, m: seq<bool>)
    requires |m| == |s|
    ensures IsSubsequence(Select(s, m), s)
  {
  }

  lemma FilterIsSubsequence<T(!new)>(s: seq<T>, p: T -> bool)
    ensures IsSubsequence(Filter(s, p), s)
  {
    FilterIsSelect(s, p);
    SelectIsSubsequence(s, MaskOf(s, p));
  }

  lemma SubsequenceTransitive<T(!new)>(a: seq<T>, b: seq<T>, c: seq<T>)
    requires IsSubsequence(a, b) && IsSubsequence(b, c)
    ensures IsSubsequence(a, c)
  {
    var mb :| |mb| == |b| && a == Select(b, mb);
    var mc :| |mc| == |c| && b == Select(c, mc);
    SelectSelect(c, mc, mb);
    assert a == Select(c, Compose(mc, mb));
  }

  lemma {:induction false} FilterAppend<T(!new)>(a: seq<T>, b: seq<T>, p: T -> bool)
    ensures Filter(a + b, p) == Filter(a, p) + Filter(b, p)
  {
    if a == [] {
      assert a + b == b;
    } else {
      assert (a + b)[1..] == a[1..] + b;
      FilterAppend(a[1..], b, p);
    }
  }
}
