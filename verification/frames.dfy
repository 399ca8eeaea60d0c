/**
 Order- and multiplicity-aware operations on table columns: selecting the rows
 a boolean mask keeps (`df[mask]` in pandas) and listing the distinct values of
 a column in order of first appearance (`Series.unique()`).
 */
module Frames {

  /** `a` is obtained from `b` by deleting elements and keeping the rest in order. */
  predicate IsSubsequence<T(==)>(a: seq<T>, b: seq<T>)
    decreases |b|
  {
    if |b| == 0 then |a| == 0
    else (|a| > 0 && a[0] == b[0] && IsSubsequence(a[1..], b[1..])) || IsSubsequence(a, b[1..])
  }

  predicate NoDuplicates<T(==)>(s: seq<T>) {
    forall i, j :: 0 <= i < j < |s| ==> s[i] != s[j]
  }

  lemma {:induction false} SubsequenceTransitive<T>(a: seq<T>, b: seq<T>, c: seq<T>)
    requires IsSubsequence(a, b) && IsSubsequence(b, c)
    ensures IsSubsequence(a, c)
    decreases |c|
  {
    if |c| == 0 {
    } else if |b| > 0 && b[0] == c[0] && IsSubsequence(b[1..], c[1..]) {
      if |a| > 0 && a[0] == b[0] && IsSubsequence(a[1..], b[1..]) {
        SubsequenceTransitive(a[1..], b[1..], c[1..]);
      } else {
        SubsequenceTransitive(a, b[1..], c[1..]);
      }
    } else {
      SubsequenceTransitive(a, b, c[1..]);
    }
  }

  /** A sub-list is never longer than the list it is taken from. */
  lemma {:induction false} SubsequenceLength<T>(a: seq<T>, b: seq<T>)
    requires IsSubsequence(a, b)
    ensures |a| <= |b|
    decreases |b|
  {
    if |b| > 0 {
      if |a| > 0 && a[0] == b[0] && IsSubsequence(a[1..], b[1..]) {
        SubsequenceLength(a[1..], b[1..]);
      } else {
        SubsequenceLength(a, b[1..]);
      }
    }
  }

  /**
   The rows of `v` that the mask `p` keeps: exactly the rows `p` accepts, none
   altered, in table order.
   */
  function Where<T(==,!new)>(v: seq<T>, p: T -> bool): (w: seq<T>)
    ensures forall x :: x in w <==> x in v && p(x)
    ensures IsSubsequence(w, v)
  {
    if |v| == 0 then []
    else
      var rest := Where(v[1..], p);
      assert forall x :: x in v <==> x == v[0] || x in v[1..];
      if p(v[0]) then
        assert ([v[0]] + rest)[1..] == rest;
        [v[0]] + rest
      else
        rest
  }

  /** The mask keeps every accepted row as often as the table holds it, and drops the others. */
  lemma {:induction false} WhereMultiplicity<T(!new)>(v: seq<T>, p: T -> bool)
    ensures forall x :: multiset(Where(v, p))[x] == if p(x) then multiset(v)[x] else 0
  {
    if |v| > 0 {
      WhereMultiplicity(v[1..], p);
      assert v == [v[0]] + v[1..];
    }
  }

  /** The mask keeps every row exactly when it accepts every row, and then the table is unchanged. */
  lemma {:induction false} WhereKeepsAll<T(!new)>(v: seq<T>, p: T -> bool)
    ensures |Where(v, p)| <= |v|
    ensures |Where(v, p)| == |v| <==> forall i :: 0 <= i < |v| ==> p(v[i])
    ensures (forall i :: 0 <= i < |v| ==> p(v[i])) ==> Where(v, p) == v
  {
    if |v| > 0 {
      WhereKeepsAll(v[1..], p);
      assert forall i :: 1 <= i < |v| ==> v[1..][i - 1] == v[i];
      if p(v[0]) {
        assert v == [v[0]] + v[1..];
      }
    }
  }

  /** The mask keeps nothing exactly when it accepts no row. */
  lemma WhereKeepsNone<T(!new)>(v: seq<T>, p: T -> bool)
    ensures |Where(v, p)| == 0 <==> forall i :: 0 <= i < |v| ==> !p(v[i])
  {
  }

  /** Applying a second mask to the rows a first mask kept is one mask testing both. */
  lemma {:induction false} WhereOfWhere<T(!new)>(v: seq<T>, p: T -> bool, q: T -> bool, both: T -> bool)
    requires forall x :: both(x) == (p(x) && q(x))
    ensures Where(Where(v, p), q) == Where(v, both)
  {
    if |v| > 0 {
      WhereOfWhere(v[1..], p, q, both);
      if p(v[0]) {
        var rest := Where(v[1..], p);
        assert ([v[0]] + rest)[0] == v[0] && ([v[0]] + rest)[1..] == rest;
      }
    }
  }

  /** The position of the first occurrence of `x` in `s`. */
  function IndexOf<T(==)>(s: seq<T>, x: T): (i: nat)
    requires x in s
    ensures i < |s| && s[i] == x
    ensures forall j :: 0 <= j < i ==> s[j] != x
  {
    if s[0] == x then 0 else 1 + IndexOf(s[1..], x)
  }

  /** Appending to a sequence does not move the first occurrence of a value already in it. */
  lemma {:induction false} IndexOfSnoc<T>(s: seq<T>, y: T, x: T)
    requires x in s
    ensures x in s + [y] && IndexOf(s + [y], x) == IndexOf(s, x)
  {
    var i := IndexOf(s, x);
    var k := IndexOf(s + [y], x);
    assert (s + [y])[i] == x;
    assert s[k] == x;
  }

  /**
   Appending a value not seen before to the distinct values of `init` gives
   the distinct values of `init + [last]`, still in order of first appearance.
   */
  lemma DistinctSnocNew<T>(init: seq<T>, last: T, d: seq<T>)
    requires forall x :: x in d <==> x in init
    requires NoDuplicates(d)
    requires forall i, j :: 0 <= i < j < |d| ==> IndexOf(init, d[i]) < IndexOf(init, d[j])
    requires last !in d
    ensures forall x :: x in d + [last] <==> x in init + [last]
    ensures NoDuplicates(d + [last])
    ensures forall i, j :: 0 <= i < j < |d + [last]| ==>
      IndexOf(init + [last], (d + [last])[i]) < IndexOf(init + [last], (d + [last])[j])
  {
    var s := init + [last];
    var r := d + [last];
    assert forall i :: 0 <= i < |d| ==> IndexOf(s, d[i]) == IndexOf(init, d[i]) < |init| by {
      forall i | 0 <= i < |d| { IndexOfSnoc(init, last, d[i]); }
    }
    assert IndexOf(s, last) == |init| by {
      assert s[|init|] == last;
      assert forall j :: 0 <= j < |init| ==> s[j] == init[j];
    }
    assert forall i :: 0 <= i < |d| ==> r[i] == d[i];
  }

  /**
   The distinct values of `s`, each once, in order of first appearance
   (what `Series.unique()` returns).
   */
  function Distinct<T(==,!new)>(s: seq<T>): (r: seq<T>)
    ensures forall x :: x in r <==> x in s
    ensures NoDuplicates(r)
    ensures forall i, j :: 0 <= i < j < |r| ==> IndexOf(s, r[i]) < IndexOf(s, r[j])
  {
    if |s| == 0 then []
    else
      var init := s[..|s| - 1];
      var last := s[|s| - 1];
      assert s == init + [last];
      var d := Distinct(init);
      if last in d then
        assert forall i :: 0 <= i < |d| ==> IndexOf(s, d[i]) == IndexOf(init, d[i]) by {
          forall i | 0 <= i < |d| { IndexOfSnoc(init, last, d[i]); }
        }
        d
      else
        DistinctSnocNew(init, last, d);
        d + [last]
  }
}
