/** Numeric extraction of the reconciliation reader: the first match of the
    pattern `\d+\.?\d*` in a stored value string, read as a decimal number. */
module Extraction {
  import opened Base
  import opened Text

  /** A string the pattern matches in full: one or more digits, an optional point,
      then zero or more digits. Equivalently: a digit first, then only digits and
      points, with at most one point. */
  predicate NumberToken(t: string) {
    && |t| > 0 && IsDigit(t[0])
    && (forall k :: 0 <= k < |t| ==> IsDigit(t[k]) || t[k] == '.')
    && (forall k, l :: 0 <= k < l < |t| && t[k] == '.' ==> t[l] != '.')
  }

  /** The position of the first digit at or after i, or |s| when there is none. */
  function FirstDigit(s: string, i: nat): (k: nat)
    requires i <= |s|
    ensures i <= k <= |s|
    ensures forall q :: i <= q < k ==> !IsDigit(s[q])
    ensures k < |s| ==> IsDigit(s[k])
    decreases |s| - i
  {
    if i == |s| || IsDigit(s[i]) then i else FirstDigit(s, i + 1)
  }

  /** The end of the longest run of digits that starts at i. */
  function DigitRun(s: string, i: nat): (k: nat)
    requires i <= |s|
    ensures i <= k <= |s|
    ensures forall q :: i <= q < k ==> IsDigit(s[q])
    ensures k < |s| ==> !IsDigit(s[k])
    decreases |s| - i
  {
    if i == |s| || !IsDigit(s[i]) then i else DigitRun(s, i + 1)
  }

  /** The span [start, end) of the pattern's first match, found the way a
      backtracking matcher finds it: the leftmost start, and from there the
      greedy digits, the optional point and the greedy fraction digits. */
  function Match(s: string): (r: Option<(nat, nat)>)
    ensures r.None? <==> forall k :: 0 <= k < |s| ==> !IsDigit(s[k])
    ensures r.Some? ==> r.value.0 < r.value.1 <= |s| && NumberToken(s[r.value.0..r.value.1])
  {
    var i := FirstDigit(s, 0);
    if i == |s| then None
    else
      var j := DigitRun(s, i);
      var e := if j < |s| && s[j] == '.' then DigitRun(s, j + 1) else j;
      MatchIsToken(s, i, j, e);
      Some((i, e))
  }

  /** The span found is the pattern's first match: no match starts earlier, and
      none starting at the same place is longer. */
  lemma MatchIsLeftmostLongest(s: string)
    requires Match(s).Some?
    ensures forall k, e :: 0 <= k < Match(s).value.0 && k < e <= |s| ==> !NumberToken(s[k..e])
    ensures forall e :: Match(s).value.1 < e <= |s| ==> !NumberToken(s[Match(s).value.0..e])
  {
    var i := FirstDigit(s, 0);
    var j := DigitRun(s, i);
    var e := if j < |s| && s[j] == '.' then DigitRun(s, j + 1) else j;
    assert Match(s) == Some((i, e));
    forall k, e' | 0 <= k < i && k < e' <= |s|
      ensures !NumberToken(s[k..e'])
    {
      assert s[k..e'][0] == s[k];
    }
    MatchIsLongest(s, i, j, e);
  }

  lemma MatchIsToken(s: string, i: nat, j: nat, e: nat)
    requires i < j <= e <= |s|
    requires forall q :: i <= q < j ==> IsDigit(s[q])
    requires e == j || (s[j] == '.' && forall q :: j < q < e ==> IsDigit(s[q]))
    ensures NumberToken(s[i..e])
  {
  }

  lemma MatchIsLongest(s: string, i: nat, j: nat, e: nat)
    requires i < j <= e <= |s|
    requires forall q :: i <= q < j ==> IsDigit(s[q])
    requires j < |s| ==> !IsDigit(s[j])
    requires j < |s| && s[j] == '.' ==> j < e && forall q :: j < q < e ==> IsDigit(s[q])
    requires j < |s| && s[j] == '.' ==> e < |s| ==> !IsDigit(s[e])
    requires !(j < |s| && s[j] == '.') ==> e == j
    ensures forall e' :: e < e' <= |s| ==> !NumberToken(s[i..e'])
  {
    forall e' | e < e' <= |s|
      ensures !NumberToken(s[i..e'])
    {
      var t := s[i..e'];
      assert t[e - i] == s[e];
      if e > j {
        assert t[j - i] == '.';
      }
    }
  }

  /** The position of the first point in t, or |t| when there is none. */
  function PointIndex(t: string): (p: nat)
    ensures p <= |t|
    ensures forall q :: 0 <= q < p ==> t[q] != '.'
    ensures p < |t| ==> t[p] == '.'
  {
    if |t| == 0 || t[0] == '.' then 0 else 1 + PointIndex(t[1..])
  }

  /** The decimal number a matched token denotes. */
  function TokenValue(t: string): real
    requires NumberToken(t)
  {
    var p := PointIndex(t);
    var whole := t[..p];
    var frac := if p < |t| then t[p + 1..] else [];
    assert AllDigits(whole);
    assert AllDigits(frac);
    Decimal(DigitsValue(whole), DigitsValue(frac), |frac|)
  }

  /** whole + frac / 10^places. */
  function Decimal(whole: nat, frac: nat, places: nat): real {
    whole as real + frac as real / Pow10(places) as real
  }

  /** A token made of a whole part, a point and a fraction part denotes the whole
      part plus the fraction part scaled by its number of digits. */
  lemma TokenValueOfParts(w: string, f: string)
    requires |w| > 0 && AllDigits(w) && AllDigits(f)
    ensures NumberToken(w + "." + f)
    ensures TokenValue(w + "." + f) == Decimal(DigitsValue(w), DigitsValue(f), |f|)
  {
    var t := w + "." + f;
    assert forall q :: 0 <= q < |w| ==> t[q] == w[q];
    assert forall q :: |w| < q < |t| ==> t[q] == f[q - |w| - 1];
    assert t[|w|] == '.';
    assert forall k, l :: 0 <= k < l < |t| && t[k] == '.' ==> k == |w| && t[l] != '.';
    assert PointIndex(t) == |w|;
    assert t[..|w|] == w && t[|w| + 1..] == f;
  }

  /** `str.extract(r'(\d+\.?\d*)').astype(float)` on one value: the number the first
      match denotes, or missing when there is no match. */
  function ExtractNumber(s: string): (r: Option<real>)
    ensures r.None? <==> !HasDigit(s)
    ensures r.Some? ==> r.value >= 0.0
  {
    match Match(s)
    case None => None
    case Some((i, e)) => Some(TokenValue(s[i..e]))
  }

  /** The first digit at or after i is the one its ensures pin down. */
  lemma FirstDigitIs(s: string, i: nat, k: nat)
    requires i <= k < |s| && IsDigit(s[k])
    requires forall q :: i <= q < k ==> !IsDigit(s[q])
    ensures FirstDigit(s, i) == k
  {
  }

  /** The digit run from i ends at the first non-digit. */
  lemma DigitRunIs(s: string, i: nat, k: nat)
    requires i <= k <= |s|
    requires forall q :: i <= q < k ==> IsDigit(s[q])
    requires k < |s| ==> !IsDigit(s[k])
    ensures DigitRun(s, i) == k
  {
  }

  /** Digit-free text, a run of digits, then a character the pattern cannot
      take (neither a digit nor a point) or the end: the match is the run. */
  lemma MatchWhole(s: string, i: nat, j: nat)
    requires i < j <= |s|
    requires forall q :: 0 <= q < i ==> !IsDigit(s[q])
    requires forall q :: i <= q < j ==> IsDigit(s[q])
    requires j < |s| ==> !IsDigit(s[j]) && s[j] != '.'
    ensures Match(s) == Some((i, j))
  {
    FirstDigitIs(s, 0, i);
    DigitRunIs(s, i, j);
  }

  /** Digit-free text, a run of digits, a point, a second run, then a non-digit
      or the end: the match runs from the first digit to the end of the second run. */
  lemma MatchFraction(s: string, i: nat, j: nat, e: nat)
    requires i < j < e <= |s| && s[j] == '.'
    requires forall q :: 0 <= q < i ==> !IsDigit(s[q])
    requires forall q :: i <= q < j ==> IsDigit(s[q])
    requires forall q :: j < q < e ==> IsDigit(s[q])
    requires e < |s| ==> !IsDigit(s[e])
    ensures Match(s) == Some((i, e))
  {
    FirstDigitIs(s, 0, i);
    DigitRunIs(s, i, j);
    DigitRunIs(s, j + 1, e);
  }

  /** A token without a point denotes the number its digits denote. */
  lemma TokenValueWhole(w: string)
    requires |w| > 0 && AllDigits(w)
    ensures NumberToken(w)
    ensures TokenValue(w) == DigitsValue(w) as real
  {
    assert forall k :: 0 <= k < |w| ==> w[k] != '.';
    var p := PointIndex(w);
    assert p == |w|;
    assert w[..p] == w;
    assert DigitsValue([]) == 0 && Pow10(0) == 1;
    assert TokenValue(w) == Decimal(DigitsValue(w), 0, 0);
  }

  lemma SliceMiddle(a: string, b: string, c: string)
    ensures (a + b + c)[|a|..|a| + |b|] == b
  {
  }

  /** Where the digits of digit-free text, digits and a tail sit. */
  lemma WholeLayout(pre: string, w: string, post: string)
    requires !HasDigit(pre)
    requires AllDigits(w)
    requires |post| > 0 ==> !IsDigit(post[0]) && post[0] != '.'
    ensures var s, j := pre + w + post, |pre| + |w|;
      && j <= |s|
      && (forall q :: 0 <= q < |pre| ==> !IsDigit(s[q]))
      && (forall q :: |pre| <= q < j ==> IsDigit(s[q]))
      && (j < |s| ==> !IsDigit(s[j]) && s[j] != '.')
  {
    var s := pre + w + post;
    var i, j := |pre|, |pre| + |w|;
    assert forall q :: 0 <= q < i ==> s[q] == pre[q];
    assert forall q :: i <= q < j ==> s[q] == w[q - i];
    assert j < |s| ==> s[j] == post[0];
  }

  /** A value made of digit-free text, digits, and then nothing or text that
      starts with neither a digit nor a point, reads back as the number the
      digits denote. */
  lemma ExtractWhole(pre: string, w: string, post: string)
    requires !HasDigit(pre)
    requires |w| > 0 && AllDigits(w)
    requires |post| > 0 ==> !IsDigit(post[0]) && post[0] != '.'
    ensures ExtractNumber(pre + w + post) == Some(DigitsValue(w) as real)
  {
    var s := pre + w + post;
    WholeLayout(pre, w, post);
    MatchWhole(s, |pre|, |pre| + |w|);
    assert ExtractNumber(s) == Some(TokenValue(s[|pre|..|pre| + |w|]));
    SliceMiddle(pre, w, post);
    TokenValueWhole(w);
  }

  /** Where the digits and the point of digit-free text, digits, a point,
      digits and a tail sit. */
  lemma PointedLayout(pre: string, w: string, f: string, post: string)
    requires !HasDigit(pre)
    requires AllDigits(w) && AllDigits(f)
    requires |post| > 0 ==> !IsDigit(post[0])
    ensures var s, j, e := pre + (w + "." + f) + post, |pre| + |w|, |pre| + |w| + 1 + |f|;
      && e <= |s| && s[j] == '.'
      && (forall q :: 0 <= q < |pre| ==> !IsDigit(s[q]))
      && (forall q :: |pre| <= q < j ==> IsDigit(s[q]))
      && (forall q :: j < q < e ==> IsDigit(s[q]))
      && (e < |s| ==> !IsDigit(s[e]))
  {
    var t := w + "." + f;
    var s := pre + t + post;
    var i, j, e := |pre|, |pre| + |w|, |pre| + |t|;
    assert forall q :: 0 <= q < |w| ==> t[q] == w[q];
    assert forall q :: |w| < q < |t| ==> t[q] == f[q - |w| - 1];
    assert forall q :: 0 <= q < i ==> s[q] == pre[q];
    assert forall q :: i <= q < e ==> s[q] == t[q - i];
    assert e < |s| ==> s[e] == post[0];
  }

  /** Digit-free text, digits, a point, digits, then nothing or a non-digit:
      the match spans the digits, the point and the second digits. */
  lemma MatchFractionAfter(pre: string, w: string, f: string, post: string)
    requires !HasDigit(pre)
    requires |w| > 0 && AllDigits(w) && AllDigits(f)
    requires |post| > 0 ==> !IsDigit(post[0])
    ensures Match(pre + (w + "." + f) + post) == Some((|pre|, |pre| + |w| + 1 + |f|))
  {
    PointedLayout(pre, w, f, post);
    MatchFraction(pre + (w + "." + f) + post, |pre|, |pre| + |w|, |pre| + |w| + 1 + |f|);
  }

  /** A value made of digit-free text, digits, a point, digits, and then nothing
      or text that does not start with a digit, reads back as the decimal number
      those digits denote. */
  lemma ExtractFraction(pre: string, w: string, f: string, post: string)
    requires !HasDigit(pre)
    requires |w| > 0 && AllDigits(w) && AllDigits(f)
    requires |post| > 0 ==> !IsDigit(post[0])
    ensures ExtractNumber(pre + (w + "." + f) + post) == Some(Decimal(DigitsValue(w), DigitsValue(f), |f|))
  {
    var t := w + "." + f;
    var s := pre + t + post;
    MatchFractionAfter(pre, w, f, post);
    assert |t| == |w| + 1 + |f|;
    assert ExtractNumber(s) == Some(TokenValue(s[|pre|..|pre| + |t|]));
    SliceMiddle(pre, t, post);
    TokenValueOfParts(w, f);
  }

  /** Characters before the first digit are skipped and the match ends at the
      first character the pattern cannot take. */
  lemma ExtractWithUnit()
    ensures ExtractNumber("12 ppm") == Some(12.0)
  {
    var s := "" + "12" + " ppm";
    ExtractWhole("", "12", " ppm");
    assert DigitsValue("12") == 12 by {
      assert "12"[..1] == "1" && "1"[..0] == "";
    }
    assert s == "12 ppm";
  }

  /** A value without digits is missing. */
  lemma ExtractNoDigit()
    ensures ExtractNumber("n/a") == None
  {
    assert !HasDigit("n/a");
  }
}
