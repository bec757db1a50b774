/** The reconciliation reader's two-tier missing-value policy for the numeric
    column: zero-fill when fewer than a tenth of the rows are missing, otherwise
    fill with the median of the values present. */
module Imputation {
  import opened Base
  import opened Statistics

  /** A numeric column; None is a missing cell. */
  type Column = seq<Option<real>>

  /** The number of missing cells. */
  function MissingCount(col: Column): (n: nat)
    ensures n <= |col|
  {
    if |col| == 0 then 0 else (if col[0].None? then 1 else 0) + MissingCount(col[1..])
  }

  /** The values present, in column order. */
  function Present(col: Column): (vs: seq<real>)
    ensures |vs| + MissingCount(col) == |col|
  {
    if |col| == 0 then []
    else if col[0].Some? then [col[0].value] + Present(col[1..])
    else Present(col[1..])
  }

  /** The missing count is the number of None cells. */
  lemma {:induction false} MissingCountIsNoneCount(col: Column)
    ensures MissingCount(col) == multiset(col)[None]
  {
    if |col| > 0 {
      assert col == [col[0]] + col[1..];
      assert multiset(col) == multiset([col[0]]) + multiset(col[1..]);
      MissingCountIsNoneCount(col[1..]);
    }
  }

  /** Each value occurs among the present values as often as the column holds it. */
  lemma {:induction false} PresentIsSomeCount(col: Column, x: real)
    ensures multiset(Present(col))[x] == multiset(col)[Some(x)]
  {
    if |col| > 0 {
      assert col == [col[0]] + col[1..];
      assert multiset(col) == multiset([col[0]]) + multiset(col[1..]);
      PresentIsSomeCount(col[1..], x);
      if col[0].Some? {
        assert multiset(Present(col)) == multiset([col[0].value]) + multiset(Present(col[1..]));
      }
    }
  }

  /** No cell is missing exactly when the missing count is zero. */
  lemma {:induction false} MissingCountZeroIff(col: Column)
    ensures MissingCount(col) == 0 <==> forall i :: 0 <= i < |col| ==> col[i].Some?
  {
    if |col| > 0 {
      MissingCountZeroIff(col[1..]);
      assert forall i :: 1 <= i < |col| ==> col[i] == col[1..][i - 1];
    }
  }

  /** Some value is present exactly when the present values are not empty. */
  lemma {:induction false} PresentNonEmptyIff(col: Column)
    ensures |Present(col)| > 0 <==> exists i :: 0 <= i < |col| && col[i].Some?
  {
    if |col| > 0 {
      PresentNonEmptyIff(col[1..]);
      if col[0].None? {
        assert forall i :: 1 <= i < |col| ==> col[i] == col[1..][i - 1];
        if exists i :: 0 <= i < |col| && col[i].Some? {
          var i :| 0 <= i < |col| && col[i].Some?;
          assert col[1..][i - 1].Some?;
        }
      }
    }
  }

  /** The policy's threshold: strictly fewer than a tenth of the rows are missing. */
  predicate FewMissing(col: Column) {
    10 * MissingCount(col) < |col|
  }

  /** `fillna(v)`: every missing cell becomes v; present cells are kept. The
      result has no gap, so all of its cells are present values. */
  function FillWith(col: Column, v: real): (r: Column)
    ensures |r| == |col|
    ensures forall i :: 0 <= i < |col| ==> r[i] == if col[i].Some? then col[i] else Some(v)
    ensures MissingCount(r) == 0 && |Present(r)| == |col|
  {
    var r := seq(|col|, i requires 0 <= i < |col| => if col[i].Some? then col[i] else Some(v));
    MissingCountZeroIff(r);
    r
  }

  /** Filling adds one v to the present values per gap and nothing else: every
      value occurs as often as before, v as many more times as cells were missing. */
  lemma {:induction false} FillWithPresent(col: Column, v: real, x: real)
    ensures multiset(Present(FillWith(col, v)))[x]
         == multiset(Present(col))[x] + if x == v then MissingCount(col) else 0
  {
    if |col| > 0 {
      var r := FillWith(col, v);
      assert r[1..] == FillWith(col[1..], v);
      FillWithPresent(col[1..], v, x);
      assert multiset(Present(r)) == multiset([r[0].value]) + multiset(Present(r[1..]));
      if col[0].Some? {
        assert multiset(Present(col)) == multiset([col[0].value]) + multiset(Present(col[1..]));
      }
    }
  }

  /** The two-tier policy. With no value present the median is undefined and the
      median fill leaves the column as it is. */
  function Impute(col: Column): (r: Column)
    ensures |r| == |col|
    ensures forall i :: 0 <= i < |col| && col[i].Some? ==> r[i] == col[i]
    ensures FewMissing(col) ==> forall i :: 0 <= i < |col| && col[i].None? ==> r[i] == Some(0.0)
    ensures !FewMissing(col) && |Present(col)| > 0 ==>
      forall i :: 0 <= i < |col| && col[i].None? ==> r[i] == Some(Median(Present(col)))
    ensures !FewMissing(col) && |Present(col)| == 0 ==> r == col
  {
    if FewMissing(col) then FillWith(col, 0.0)
    else if |Present(col)| == 0 then col
    else FillWith(col, Median(Present(col)))
  }

  /** A column with no missing cell is returned unchanged. */
  lemma ImputeCompleteUnchanged(col: Column)
    requires forall i :: 0 <= i < |col| ==> col[i].Some?
    ensures Impute(col) == col
  {
    MissingCountZeroIff(col);
  }

  /** When at least one value is present, no cell is left missing. */
  lemma ImputeFillsEveryGap(col: Column)
    requires exists i :: 0 <= i < |col| && col[i].Some?
    ensures forall i :: 0 <= i < |col| ==> Impute(col)[i].Some?
  {
    PresentNonEmptyIff(col);
  }

  /** Imputing an imputed column changes nothing. */
  lemma ImputeIdempotent(col: Column)
    ensures Impute(Impute(col)) == Impute(col)
  {
    var r := Impute(col);
    if exists i :: 0 <= i < |col| && col[i].Some? {
      ImputeFillsEveryGap(col);
      ImputeCompleteUnchanged(r);
    } else {
      PresentNonEmptyIff(col);
      if FewMissing(col) {
        ImputeCompleteUnchanged(r);
      }
    }
  }

  lemma PresentOfExample()
    ensures Present([Some(10.0), Some(20.0), None, Some(40.0)]) == [10.0, 20.0, 40.0]
  {
    var col: Column := [Some(10.0), Some(20.0), None, Some(40.0)];
    assert col[1..] == [Some(20.0), None, Some(40.0)];
    assert col[1..][1..] == [None, Some(40.0)];
    assert col[1..][1..][1..] == [Some(40.0)];
    assert |col[1..][1..][1..][1..]| == 0;
  }

  /** A quarter of the cells missing selects the median fill: [10, 20, -, 40]
      becomes [10, 20, 20, 40]. */
  lemma MedianFillExample()
    ensures Impute([Some(10.0), Some(20.0), None, Some(40.0)])
         == [Some(10.0), Some(20.0), Some(20.0), Some(40.0)]
  {
    var col: Column := [Some(10.0), Some(20.0), None, Some(40.0)];
    assert |Present(col)| == 3 && !FewMissing(col) by {
      PresentOfExample();
    }
    assert Median(Present(col)) == 20.0 by {
      PresentOfExample();
      MedianOfThree(10.0, 20.0, 40.0);
    }
    var r := Impute(col);
    assert r[0] == Some(10.0) && r[1] == Some(20.0) && r[2] == Some(20.0) && r[3] == Some(40.0);
  }
}
