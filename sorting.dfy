/** A stable insertion sort under a total preorder, standing for
    `Array.prototype.sort` with a comparator (stable since ES2019) and for an
    SQL `ORDER BY`. */
module Sorting {

  /** `le(a, b)`: `a` may come before `b`. */
  ghost predicate TotalPreorder<T(!new)>(le: (T, T) -> bool)
  {
    && (forall a, b :: le(a, b) || le(b, a))
    && (forall a, b, c :: le(a, b) && le(b, c) ==> le(a, c))
  }

  ghost predicate Sorted<T>(s: seq<T>, le: (T, T) -> bool)
  {
    forall i, j :: 0 <= i < j < |s| ==> le(s[i], s[j])
  }

  /** Puts `x` after the elements that must precede it and before the first
      one it may precede. */
  function Insert<T(!new)>(x: T, s: seq<T>, le: (T, T) -> bool): (r: seq<T>)
    ensures multiset(r) == multiset(s) + multiset{x}
    ensures forall e :: e in r <==> e == x || e in s
    ensures TotalPreorder(le) && Sorted(s, le) ==> Sorted(r, le)
  {
    if |s| == 0 then [x]
    else if le(x, s[0]) then
      assert TotalPreorder(le) && Sorted(s, le) ==> forall j :: 0 <= j < |s| ==> le(x, s[j]);
      [x] + s
    else
      var rest := Insert(x, s[1..], le);
      assert s == [s[0]] + s[1..];
      assert TotalPreorder(le) && Sorted(s, le) ==> Sorted([s[0]] + rest, le) by {
        if TotalPreorder(le) && Sorted(s, le) {
          assert Sorted(s[1..], le);
          HeadStaysFirst(x, s, rest, le);
        }
      }
      [s[0]] + rest
  }

  /** When `x` goes behind the head of a sorted `s`, that head still precedes
      everything in the tail with `x` in it. */
  lemma HeadStaysFirst<T(!new)>(x: T, s: seq<T>, rest: seq<T>, le: (T, T) -> bool)
    requires TotalPreorder(le)
    requires |s| > 0 && !le(x, s[0]) && Sorted(s, le) && Sorted(rest, le)
    requires forall e :: e in rest <==> e == x || e in s[1..]
    ensures Sorted([s[0]] + rest, le)
  {
    forall e | e in rest ensures le(s[0], e) {
      if e != x {
        var j :| 0 <= j < |s[1..]| && s[1..][j] == e;
        assert s[j + 1] == e;
      }
    }
    forall i, j | 0 <= i < j < |[s[0]] + rest| ensures le(([s[0]] + rest)[i], ([s[0]] + rest)[j]) {
      assert ([s[0]] + rest)[j] == rest[j - 1];
      assert rest[j - 1] in rest;
      if i > 0 {
        assert ([s[0]] + rest)[i] == rest[i - 1];
      }
    }
  }

  /** The sorted permutation of `s`; elements that compare equal keep their
      relative order. */
  function SortBy<T(!new)>(s: seq<T>, le: (T, T) -> bool): (r: seq<T>)
    requires TotalPreorder(le)
    ensures |r| == |s|
    ensures multiset(r) == multiset(s)
    ensures forall e :: e in r <==> e in s
    ensures Sorted(r, le)
  {
    if |s| == 0 then []
    else
      assert s == [s[0]] + s[1..];
      var r := Insert(s[0], SortBy(s[1..], le), le);
      assert |r| == |multiset(r)| == |multiset(s)| == |s|;
      r
  }

  /** Sorting what is already sorted changes nothing. */
  lemma {:induction false} SortBySorted<T(!new)>(s: seq<T>, le: (T, T) -> bool)
    requires TotalPreorder(le) && Sorted(s, le)
    ensures SortBy(s, le) == s
    decreases |s|
  {
    if |s| > 0 {
      assert Sorted(s[1..], le);
      SortBySorted(s[1..], le);
      if |s| > 1 {
        assert le(s[0], s[1..][0]);
      }
      assert [s[0]] + s[1..] == s;
    }
  }

  /** Where `Insert` puts `x`: after a prefix of elements that `x` may not
      precede, with the rest of `s` unchanged behind it. */
  function InsertPosition<T(!new)>(x: T, s: seq<T>, le: (T, T) -> bool): (k: nat)
    ensures k <= |s| && |Insert(x, s, le)| == |s| + 1
    ensures Insert(x, s, le)[k] == x
    ensures forall m :: 0 <= m < k ==> Insert(x, s, le)[m] == s[m] && !le(x, s[m])
    ensures forall m :: k <= m < |s| ==> Insert(x, s, le)[m + 1] == s[m]
    decreases |s|
  {
    if |s| == 0 || le(x, s[0]) then 0
    else
      var k := InsertPosition(x, s[1..], le);
      var rest := Insert(x, s[1..], le);
      var r := Insert(x, s, le);
      assert r == [s[0]] + rest;
      assert forall m :: 1 <= m <= |s| ==> r[m] == rest[m - 1];
      assert forall m :: 1 <= m < |s| ==> s[m] == s[1..][m - 1];
      k + 1
  }

  /** `a` occurs somewhere before `b` in `s`. */
  ghost predicate OccursBefore<T>(s: seq<T>, a: T, b: T)
  {
    exists p, q :: 0 <= p < q < |s| && s[p] == a && s[q] == b
  }

  /** `x` goes before every element it may precede. */
  lemma InsertedBefore<T(!new)>(x: T, t: seq<T>, le: (T, T) -> bool, y: T)
    requires y in t && le(x, y)
    ensures OccursBefore(Insert(x, t, le), x, y)
  {
    var k := InsertPosition(x, t, le);
    var q :| 0 <= q < |t| && t[q] == y;
    assert Insert(x, t, le)[k] == x && Insert(x, t, le)[q + 1] == y;
  }

  /** Inserting keeps the order of what was there. */
  lemma InsertKeepsOrder<T(!new)>(x: T, t: seq<T>, le: (T, T) -> bool, a: T, b: T)
    requires OccursBefore(t, a, b)
    ensures OccursBefore(Insert(x, t, le), a, b)
  {
    var k := InsertPosition(x, t, le);
    var p, q :| 0 <= p < q < |t| && t[p] == a && t[q] == b;
    var p' := if p < k then p else p + 1;
    var q' := if q < k then q else q + 1;
    assert Insert(x, t, le)[p'] == a && Insert(x, t, le)[q'] == b;
  }

  /** The sort is stable: of two elements that compare equal, the earlier
      one in the input comes first in the output. */
  lemma {:induction false} SortByStable<T(!new)>(s: seq<T>, le: (T, T) -> bool, i: nat, j: nat)
    requires TotalPreorder(le)
    requires i < j < |s|
    requires le(s[i], s[j]) && le(s[j], s[i])
    ensures OccursBefore(SortBy(s, le), s[i], s[j])
    decreases |s|
  {
    var t := SortBy(s[1..], le);
    assert SortBy(s, le) == Insert(s[0], t, le);
    assert s[j] == s[1..][j - 1];
    if i == 0 {
      InsertedBefore(s[0], t, le, s[j]);
    } else {
      var a, b := s[1..][i - 1], s[1..][j - 1];
      assert a == s[i] && b == s[j];
      SortByStable(s[1..], le, i - 1, j - 1);
      InsertKeepsOrder(s[0], t, le, a, b);
    }
  }

  /** No value occurs twice. */
  ghost predicate Distinct<T>(s: seq<T>)
  {
    forall i, j :: 0 <= i < j < |s| ==> s[i] != s[j]
  }

  lemma {:induction false} DistinctMultiplicity<T>(s: seq<T>)
    ensures Distinct(s) <==> forall x :: multiset(s)[x] <= 1
    decreases |s|
  {
    if |s| > 0 {
      var t := s[1..];
      assert s == [s[0]] + t;
      DistinctMultiplicity(t);
      if Distinct(s) {
        assert Distinct(t);
        assert s[0] !in t;
        assert multiset(s) == multiset{s[0]} + multiset(t);
        assert multiset(t)[s[0]] == 0;
      } else {
        var i, j :| 0 <= i < j < |s| && s[i] == s[j];
        assert multiset(s) == multiset{s[0]} + multiset(t);
        if i == 0 {
          assert s[j] == t[j - 1];
          assert t[j - 1] in t;
          assert multiset(t)[s[0]] >= 1;
          assert multiset(s)[s[0]] >= 2;
        } else {
          assert t[i - 1] == t[j - 1];
          assert !Distinct(t);
          var x :| multiset(t)[x] > 1;
          assert multiset(s)[x] > 1;
        }
      }
    }
  }

  /** Reordering keeps distinctness. */
  lemma DistinctPermutation<T>(a: seq<T>, b: seq<T>)
    requires multiset(a) == multiset(b)
    requires Distinct(a)
    ensures Distinct(b)
  {
    DistinctMultiplicity(a);
    DistinctMultiplicity(b);
  }
}
