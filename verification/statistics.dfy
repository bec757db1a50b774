/** The median the reconciliation reader fills gaps with: the middle value of the
    sorted present values, or the mean of the two middle values when their number
    is even. */
module Statistics {

  predicate Sorted(s: seq<real>) {
    forall i, j :: 0 <= i < j < |s| ==> s[i] <= s[j]
  }

  /** Inserts x into a sorted sequence, keeping it sorted. */
  function Insert(x: real, s: seq<real>): (r: seq<real>)
    requires Sorted(s)
    ensures Sorted(r)
    ensures |r| == |s| + 1
    ensures r[0] == x || (|s| > 0 && r[0] == s[0])
  {
    if |s| == 0 || x <= s[0] then [x] + s
    else
      var rest := Insert(x, s[1..]);
      assert s == [s[0]] + s[1..];
      assert rest[0] >= s[0];
      [s[0]] + rest
  }

  /** Insertion sort; `SortPermutes` shows the result is a permutation of the input. */
  function Sort(s: seq<real>): (r: seq<real>)
    ensures Sorted(r)
    ensures |r| == |s|
  {
    if |s| == 0 then []
    else
      assert s == [s[0]] + s[1..];
      Insert(s[0], Sort(s[1..]))
  }

  /** Insertion adds exactly the inserted value. */
  lemma {:induction false} InsertPermutes(x: real, s: seq<real>)
    requires Sorted(s)
    ensures multiset(Insert(x, s)) == multiset(s) + multiset{x}
  {
    if |s| > 0 && x > s[0] {
      InsertPermutes(x, s[1..]);
      assert s == [s[0]] + s[1..];
    }
  }

  /** The sort is a permutation of its input. */
  lemma {:induction false} SortPermutes(s: seq<real>)
    ensures multiset(Sort(s)) == multiset(s)
  {
    if |s| > 0 {
      var rest := Sort(s[1..]);
      assert multiset(rest) == multiset(s[1..]) by {
        SortPermutes(s[1..]);
      }
      assert multiset(Sort(s)) == multiset(rest) + multiset{s[0]} by {
        InsertPermutes(s[0], rest);
      }
      assert multiset(s) == multiset{s[0]} + multiset(s[1..]) by {
        assert s == [s[0]] + s[1..];
      }
    }
  }

  /** Sorting a sorted sequence returns it unchanged. */
  lemma {:induction false} SortOfSorted(s: seq<real>)
    requires Sorted(s)
    ensures Sort(s) == s
  {
    if |s| > 0 {
      SortOfSorted(s[1..]);
      assert s == [s[0]] + s[1..];
    }
  }

  /** Which side of a pivot an element must lie on to be counted. */
  datatype Side = AtMost | AtLeast

  predicate OnSide(x: real, side: Side, m: real) {
    match side
    case AtMost => x <= m
    case AtLeast => x >= m
  }

  /** The number of elements of s on the given side of m. */
  function Count(s: seq<real>, side: Side, m: real): nat {
    if |s| == 0 then 0 else (if OnSide(s[0], side, m) then 1 else 0) + Count(s[1..], side, m)
  }

  lemma {:induction false} InsertCount(x: real, s: seq<real>, side: Side, m: real)
    requires Sorted(s)
    ensures Count(Insert(x, s), side, m) == Count(s, side, m) + (if OnSide(x, side, m) then 1 else 0)
  {
    if |s| > 0 && x > s[0] {
      InsertCount(x, s[1..], side, m);
      assert ([s[0]] + Insert(x, s[1..]))[1..] == Insert(x, s[1..]);
    }
  }

  /** Sorting does not change how many elements lie on either side of a pivot. */
  lemma {:induction false} SortCount(s: seq<real>, side: Side, m: real)
    ensures Count(Sort(s), side, m) == Count(s, side, m)
  {
    if |s| > 0 {
      SortCount(s[1..], side, m);
      InsertCount(s[0], Sort(s[1..]), side, m);
    }
  }

  /** At least `hi - lo` elements are counted when positions lo..hi-1 all are. */
  lemma {:induction false} CountRange(s: seq<real>, side: Side, m: real, lo: nat, hi: nat)
    requires lo <= hi <= |s|
    requires forall k :: lo <= k < hi ==> OnSide(s[k], side, m)
    ensures Count(s, side, m) >= hi - lo
  {
    if lo < hi {
      if lo == 0 {
        CountRange(s[1..], side, m, 0, hi - 1);
      } else {
        CountRange(s[1..], side, m, lo - 1, hi - 1);
      }
    }
  }

  /** The median of a non-empty sequence. */
  function Median(s: seq<real>): real
    requires |s| > 0
  {
    Middle(Sort(s))
  }

  /** The middle value of a sorted sequence, or the mean of its two middle values
      when their number is even. */
  function Middle(t: seq<real>): real
    requires |t| > 0
  {
    var n := |t|;
    if n % 2 == 1 then t[n / 2] else (t[n / 2 - 1] + t[n / 2]) / 2.0
  }

  /** The middle of an odd-length sorted sequence has at least half of it on
      either side. */
  lemma MiddleSplitsOdd(t: seq<real>)
    requires Sorted(t) && |t| % 2 == 1
    ensures 2 * Count(t, AtMost, Middle(t)) >= |t|
    ensures 2 * Count(t, AtLeast, Middle(t)) >= |t|
  {
    var n, h := |t|, |t| / 2;
    var m := Middle(t);
    assert m == t[h];
    forall k | 0 <= k < h + 1
      ensures OnSide(t[k], AtMost, m)
    {
      assert k == h || t[k] <= t[h];
    }
    forall k | h <= k < n
      ensures OnSide(t[k], AtLeast, m)
    {
      assert k == h || t[h] <= t[k];
    }
    CountRange(t, AtMost, m, 0, h + 1);
    CountRange(t, AtLeast, m, h, n);
  }

  /** The mean of the two middle values of an even-length sorted sequence has at
      least half of it on either side. */
  lemma MiddleSplitsEven(t: seq<real>)
    requires Sorted(t) && |t| > 0 && |t| % 2 == 0
    ensures 2 * Count(t, AtMost, Middle(t)) >= |t|
    ensures 2 * Count(t, AtLeast, Middle(t)) >= |t|
  {
    var n, h := |t|, |t| / 2;
    var m := Middle(t);
    assert m == (t[h - 1] + t[h]) / 2.0;
    assert t[h - 1] <= t[h];
    forall k | 0 <= k < h
      ensures OnSide(t[k], AtMost, m)
    {
      assert k == h - 1 || t[k] <= t[h - 1];
    }
    forall k | h <= k < n
      ensures OnSide(t[k], AtLeast, m)
    {
      assert k == h || t[h] <= t[k];
    }
    CountRange(t, AtMost, m, 0, h);
    CountRange(t, AtLeast, m, h, n);
  }

  /** The median splits the values in halves: at least half of them are at most
      the median and at least half are at least the median. */
  lemma MedianSplits(s: seq<real>)
    requires |s| > 0
    ensures 2 * Count(s, AtMost, Median(s)) >= |s|
    ensures 2 * Count(s, AtLeast, Median(s)) >= |s|
  {
    var t := Sort(s);
    var m := Median(s);
    assert m == Middle(t);
    SortCount(s, AtMost, m);
    SortCount(s, AtLeast, m);
    if |t| % 2 == 1 {
      MiddleSplitsOdd(t);
    } else {
      MiddleSplitsEven(t);
    }
  }

  /** The median of three ordered values is the middle one. */
  lemma MedianOfThree(a: real, b: real, c: real)
    requires a <= b <= c
    ensures Median([a, b, c]) == b
  {
    var s := [a, b, c];
    assert Sort(s) == s by {
      assert forall i :: 0 <= i < 3 ==> s[i] <= c && a <= s[i];
      SortOfSorted(s);
    }
    assert Median(s) == Middle(s);
  }

  /** The median of two values is their mean, whatever their order. */
  lemma MedianOfTwo(a: real, b: real)
    ensures Median([a, b]) == (a + b) / 2.0
  {
    var s := [a, b];
    assert s[1..] == [b];
    assert Sort([b]) == [b] by {
      SortOfSorted([b]);
    }
    if a <= b {
      assert Sort(s) == [a, b];
    } else {
      assert [b][1..] == [];
      assert Sort(s) == [b, a];
    }
  }
}
