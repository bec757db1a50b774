/** `format_value` of the per-parameter driver, over readings already held as
    fixed-point hundredths. */
module FormatValue {
  import opened Base
  import opened Text

  /** The part of a rendering after an optional leading minus sign. */
  function Unsigned(r: string): string {
    if |r| > 0 && r[0] == '-' then r[1..] else r
  }

  /** A fixed-point rendering with exactly two fractional digits: an optional minus
      sign, one or more digits, a point, and two more digits. */
  predicate TwoDecimals(r: string) {
    var u := Unsigned(r);
    && |u| >= 4
    && u[|u| - 3] == '.'
    && AllDigits(u[..|u| - 3])
    && AllDigits(u[|u| - 2..])
  }

  /** The value, in hundredths, of a rendering with two fractional digits. */
  function ParseFixed(r: string): Option<int> {
    if !TwoDecimals(r) then None
    else
      var u := Unsigned(r);
      var v := DigitsValue(u[..|u| - 3]) * 100 + DigitsValue(u[|u| - 2..]);
      Some(if |r| > 0 && r[0] == '-' then -v else v)
  }

  /** The reading h/100 rendered with two fractional digits, as `f"{x:.2f}"` does. */
  function FormatHundredths(h: int): (r: string)
    ensures TwoDecimals(r)
    ensures r[0] == '-' <==> h < 0
  {
    var a := if h < 0 then -h else h;
    var body := NatDigits(a / 100) + "." + [DigitChar(a % 100 / 10), DigitChar(a % 10)];
    assert Unsigned(body) == body;
    assert body[..|body| - 3] == NatDigits(a / 100);
    if h < 0 then
      assert Unsigned("-" + body) == body;
      "-" + body
    else body
  }

  /** Reading the rendering back yields the reading: no precision is lost and the
      sign survives. */
  lemma FormatRoundTrip(h: int)
    ensures ParseFixed(FormatHundredths(h)) == Some(h)
  {
    var a := if h < 0 then -h else h;
    var r := FormatHundredths(h);
    var u := Unsigned(r);
    var f := [DigitChar(a % 100 / 10), DigitChar(a % 10)];
    assert u == NatDigits(a / 100) + "." + f;
    assert DigitsValue(u[..|u| - 3]) == a / 100 by {
      assert u[..|u| - 3] == NatDigits(a / 100);
      NatDigitsRoundTrip(a / 100);
    }
    assert DigitsValue(u[|u| - 2..]) == a % 100 by {
      assert u[|u| - 2..] == f;
      assert f[..1] == [DigitChar(a % 100 / 10)] && f[..1][..0] == [];
      assert DigitsValue(f[..1]) == a % 100 / 10;
    }
    assert (a / 100) * 100 + a % 100 == a;
  }

  lemma Format400()
    ensures FormatHundredths(40000) == "400.00"
  {
    assert NatDigits(4) == "4";
    assert NatDigits(40) == NatDigits(4) + "0" == "40";
    assert NatDigits(400) == NatDigits(40) + "0" == "400";
  }

  lemma Format2246()
    ensures FormatHundredths(2246) == "22.46"
  {
    assert NatDigits(2) == "2";
    assert NatDigits(22) == NatDigits(2) + "2" == "22";
  }

  lemma Format710()
    ensures FormatHundredths(710) == "7.10"
  {
    assert NatDigits(7) == "7";
  }

  lemma FormatNegative()
    ensures FormatHundredths(-350) == "-3.50"
  {
    assert NatDigits(3) == "3";
  }
}
