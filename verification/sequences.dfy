/** Boolean-mask filtering (`df[mask]`) and Python's ordering of `str`. */
module Sequences {

  /**
   * The elements of `s` that pass `keep`, in their order (a boolean mask).
   * The last ensures is the whole story; the first three follow from it and
   * are stated for callers' convenience.
   */
  function Filter<T(==,!new)>(s: seq<T>, keep: T -> bool): (r: seq<T>)
    ensures |r| <= |s|
    ensures forall x :: x in r <==> x in s && keep(x)
    ensures multiset(r) <= multiset(s)
    ensures forall x :: multiset(r)[x] == if keep(x) then multiset(s)[x] else 0
  {
    if s == [] then []
    else
      assert s == [s[0]] + s[1..];
      if keep(s[0]) then [s[0]] + Filter(s[1..], keep) else Filter(s[1..], keep)
  }

  /** Cutting a sequence and putting the parts back together gives it back. */
  lemma SplitAt<T>(s: seq<T>, m: nat)
    requires m <= |s|
    ensures s[..m] + s[m..] == s
  {
  }

  /** The positions, from `from` on, of the elements of `s` that pass `keep`, ascending. */
  function PositionsFrom<T>(s: seq<T>, keep: T -> bool, from: nat): (idx: seq<nat>)
    requires from <= |s|
    ensures forall a :: 0 <= a < |idx| ==> from <= idx[a] < |s| && keep(s[idx[a]])
    ensures forall a, b :: 0 <= a < b < |idx| ==> idx[a] < idx[b]
    decreases |s| - from
  {
    if from == |s| then []
    else
      var rest := PositionsFrom(s, keep, from + 1);
      if keep(s[from]) then [from] + rest else rest
  }

  lemma {:induction false} PositionsFromComplete<T>(s: seq<T>, keep: T -> bool, from: nat)
    requires from <= |s|
    ensures forall i :: from <= i < |s| && keep(s[i]) ==> i in PositionsFrom(s, keep, from)
    decreases |s| - from
  {
    if from < |s| {
      PositionsFromComplete(s, keep, from + 1);
    }
  }

  /** The positions of the elements of `s` that pass `keep`, ascending. */
  function Positions<T>(s: seq<T>, keep: T -> bool): (idx: seq<nat>)
    ensures forall a :: 0 <= a < |idx| ==> idx[a] < |s| && keep(s[idx[a]])
    ensures forall a, b :: 0 <= a < b < |idx| ==> idx[a] < idx[b]
  {
    PositionsFrom(s, keep, 0)
  }

  /** Every passing position is among the positions. */
  lemma PositionsComplete<T>(s: seq<T>, keep: T -> bool)
    ensures forall i :: 0 <= i < |s| && keep(s[i]) ==> i in Positions(s, keep)
  {
    PositionsFromComplete(s, keep, 0);
  }

  lemma {:induction false} FilterFromLength<T(!new)>(s: seq<T>, keep: T -> bool, from: nat)
    requires from <= |s|
    ensures |Filter(s[from..], keep)| == |PositionsFrom(s, keep, from)|
    decreases |s| - from
  {
    if from < |s| {
      FilterFromLength(s, keep, from + 1);
      assert s[from..][0] == s[from] && s[from..][1..] == s[from + 1..];
    }
  }

  lemma {:induction false} FilterFromIndex<T(!new)>(s: seq<T>, keep: T -> bool, from: nat, a: nat)
    requires from <= |s| && a < |PositionsFrom(s, keep, from)|
    ensures a < |Filter(s[from..], keep)|
    ensures Filter(s[from..], keep)[a] == s[PositionsFrom(s, keep, from)[a]]
    decreases |s| - from
  {
    FilterFromLength(s, keep, from);
    var f := Filter(s[from + 1..], keep);
    assert s[from..][0] == s[from] && s[from..][1..] == s[from + 1..];
    if keep(s[from]) {
      assert Filter(s[from..], keep) == [s[from]] + f;
      if a > 0 {
        FilterFromIndex(s, keep, from + 1, a - 1);
      }
    } else {
      assert Filter(s[from..], keep) == f;
      FilterFromIndex(s, keep, from + 1, a);
    }
  }

  /**
   * A mask keeps the elements at the passing positions, in their order:
   * element a of the result is element `Positions(s, keep)[a]` of `s`.
   */
  lemma FilterAt<T(!new)>(s: seq<T>, keep: T -> bool)
    ensures |Filter(s, keep)| == |Positions(s, keep)|
    ensures forall a :: 0 <= a < |Positions(s, keep)| ==> Filter(s, keep)[a] == s[Positions(s, keep)[a]]
  {
    assert s[0..] == s;
    FilterFromLength(s, keep, 0);
    forall a | 0 <= a < |Positions(s, keep)|
      ensures Filter(s, keep)[a] == s[Positions(s, keep)[a]]
    {
      FilterFromIndex(s, keep, 0, a);
    }
  }

  /** Filtering twice is filtering once by both conditions. */
  lemma {:induction false} FilterFilter<T(!new)>(s: seq<T>, p: T -> bool, q: T -> bool)
    ensures Filter(Filter(s, p), q) == Filter(s, x => p(x) && q(x))
  {
    if s != [] {
      FilterFilter(s[1..], p, q);
    }
  }

  function Min(a: nat, b: nat): (m: nat)
    ensures m <= a && m <= b && (m == a || m == b)
  {
    if a <= b then a else b
  }

  /** Python's `<` on `str`: lexicographic order of code points. */
  predicate Less(a: string, b: string)
    decreases |a|
  {
    |b| > 0 && (|a| == 0 || a[0] < b[0] || (a[0] == b[0] && Less(a[1..], b[1..])))
  }

  lemma {:induction false} LessIrreflexive(a: string)
    ensures !Less(a, a)
    decreases |a|
  {
    if |a| > 0 {
      LessIrreflexive(a[1..]);
    }
  }

  lemma {:induction false} LessTransitive(a: string, b: string, c: string)
    requires Less(a, b) && Less(b, c)
    ensures Less(a, c)
    decreases |a|
  {
    if |a| > 0 && a[0] == b[0] && b[0] == c[0] {
      LessTransitive(a[1..], b[1..], c[1..]);
    }
  }

  /** Any two different strings are ordered one way or the other. */
  lemma {:induction false} LessTotal(a: string, b: string)
    requires a != b
    ensures Less(a, b) || Less(b, a)
    decreases |a|
  {
    if |a| > 0 && |b| > 0 && a[0] == b[0] {
      assert a == [a[0]] + a[1..] && b == [b[0]] + b[1..];
      LessTotal(a[1..], b[1..]);
    }
  }

  predicate StrictlyAscending(s: seq<string>) {
    forall i, j :: 0 <= i < j < |s| ==> Less(s[i], s[j])
  }

  /** `x` put into its place in the ascending `s`, unless it is already there. */
  function InsertUnique(x: string, s: seq<string>): (r: seq<string>)
    requires StrictlyAscending(s)
    ensures StrictlyAscending(r)
    ensures forall y :: y in r <==> y == x || y in s
  {
    if s == [] then [x]
    else if x == s[0] then s
    else if Less(x, s[0]) then
      assert forall j :: 0 < j < |s| ==> Less(x, s[j]) by {
        forall j | 0 < j < |s| ensures Less(x, s[j]) { LessTransitive(x, s[0], s[j]); }
      }
      [x] + s
    else
      LessTotal(x, s[0]);
      var rest := InsertUnique(x, s[1..]);
      assert forall j :: 0 <= j < |rest| ==> Less(s[0], rest[j]) by {
        forall j | 0 <= j < |rest| ensures Less(s[0], rest[j]) {
          assert rest[j] in rest;
        }
      }
      [s[0]] + rest
  }

  /** `sorted(set(xs))`: the distinct strings of `xs` in ascending order. */
  function SortedUnique(xs: seq<string>): (r: seq<string>)
    ensures StrictlyAscending(r)
    ensures forall y :: y in r <==> y in xs
  {
    if xs == [] then [] else InsertUnique(xs[0], SortedUnique(xs[1..]))
  }

  /** The head of a strictly ascending sequence is below every other element. */
  lemma HeadIsLeast(s: seq<string>, y: string)
    requires StrictlyAscending(s) && y in s
    ensures y == s[0] || Less(s[0], y)
  {
  }

  /** Two strictly ascending sequences with the same elements are equal. */
  lemma {:induction false} AscendingUnique(a: seq<string>, b: seq<string>)
    requires StrictlyAscending(a) && StrictlyAscending(b)
    requires forall y :: y in a <==> y in b
    ensures a == b
    decreases |a|
  {
    if a != [] { assert a[0] in b; }
    if b != [] { assert b[0] in a; }
    if a != [] && b != [] {
      assert a[0] == b[0] by {
        HeadIsLeast(a, b[0]);
        HeadIsLeast(b, a[0]);
        if a[0] != b[0] {
          LessTransitive(a[0], b[0], a[0]);
          LessIrreflexive(a[0]);
        }
      }
      forall y
        ensures y in a[1..] <==> y in b[1..]
      {
        LessIrreflexive(y);
        if y in a[1..] {
          var j :| 1 <= j < |a| && a[j] == y;
          assert Less(a[0], y);
          assert y in b;
          var k :| 0 <= k < |b| && b[k] == y;
          assert b[1..][k - 1] == y;
        }
        if y in b[1..] {
          var j :| 1 <= j < |b| && b[j] == y;
          assert Less(b[0], y);
          assert y in a;
          var k :| 0 <= k < |a| && a[k] == y;
          assert a[1..][k - 1] == y;
        }
      }
      AscendingUnique(a[1..], b[1..]);
    }
  }
}
