/**
 * Loading the finance table: after the CSV is read, each money column that
 * the file has is replaced, in place, by its numeric coercion, in which a
 * cell that is not a number becomes NaN (`Missing`) instead of an error.
 */
module Normalize {
  import opened Wrappers
  import opened Records

  /** A cell as the CSV reader leaves it: text, an already parsed number, or empty. */
  datatype Cell = Text(text: string) | Number(value: int) | Missing

  /** The money columns coerced by the loader, in the order it visits them. */
  const MoneyColumns: seq<string> := ["Raised", "Spent", "Loans", "CashOnHand"]

  predicate IsDigit(c: char) { '0' <= c <= '9' }

  predicate AllDigits(s: string) { forall i :: 0 <= i < |s| ==> IsDigit(s[i]) }

  function DigitValue(c: char): nat
    requires IsDigit(c)
  {
    (c as int) - ('0' as int)
  }

  /** The value of a string of decimal digits, most significant first. */
  function DigitsValue(s: string): nat
    requires AllDigits(s)
  {
    if s == [] then 0 else DigitsValue(s[..|s| - 1]) * 10 + DigitValue(s[|s| - 1])
  }

  /**
   * The text-to-number step of the coercion: an optional sign followed by
   * one or more decimal digits is a number; anything else is missing.
   */
  function ParseNumber(s: string): Option<int>
  {
    if |s| > 0 && (s[0] == '-' || s[0] == '+') then
      var digits := s[1..];
      if digits != [] && AllDigits(digits) then
        var magnitude: int := DigitsValue(digits);
        Some(if s[0] == '-' then -magnitude else magnitude)
      else None
    else if s != [] && AllDigits(s) then Some(DigitsValue(s))
    else None
  }

  function DigitChar(d: nat): (c: char)
    requires d < 10
    ensures IsDigit(c) && DigitValue(c) == d
  {
    ('0' as int + d) as char
  }

  /** The decimal representation of a natural number. */
  function ShowNat(n: nat): (s: string)
    ensures s != [] && AllDigits(s)
  {
    if n < 10 then [DigitChar(n)] else ShowNat(n / 10) + [DigitChar(n % 10)]
  }

  /** The decimal representation of an integer, with a leading '-' when negative. */
  function ShowInt(n: int): string
  {
    if n < 0 then "-" + ShowNat(-n) else ShowNat(n)
  }

  lemma {:induction false} ShowNatValue(n: nat)
    ensures DigitsValue(ShowNat(n)) == n
  {
    if n >= 10 {
      ShowNatValue(n / 10);
      var s := ShowNat(n);
      assert s[..|s| - 1] == ShowNat(n / 10);
    }
  }

  /** Every integer written in decimal coerces back to itself. */
  lemma ParseShowRoundTrip(n: int)
    ensures ParseNumber(ShowInt(n)) == Some(n)
  {
    if n < 0 {
      ShowNatValue(-n);
      assert ShowInt(n)[1..] == ShowNat(-n);
    } else {
      ShowNatValue(n);
    }
  }

  /** The absolute value. */
  function Magnitude(n: int): nat
  {
    if n < 0 then -n else n
  }

  /** `k` zeros. */
  function Zeros(k: nat): (z: string)
    ensures |z| == k && AllDigits(z)
  {
    seq(k, _ => '0')
  }

  /** A digit string of value 0 is all zeros. */
  lemma {:induction false} ZeroValueIsZeros(d: string)
    requires AllDigits(d) && DigitsValue(d) == 0
    ensures d == Zeros(|d|)
  {
    if d != [] {
      var init, last := d[..|d| - 1], d[|d| - 1];
      assert DigitsValue(d) == DigitsValue(init) * 10 + DigitValue(last);
      assert DigitsValue(init) == 0 && DigitValue(last) == 0;
      ZeroValueIsZeros(init);
      forall i | 0 <= i < |d| ensures d[i] == Zeros(|d|)[i] {
        if i < |init| {
          assert d[i] == init[i];
        }
      }
    }
  }

  /** A non-empty digit string is the decimal form of its value, after some leading zeros. */
  lemma {:induction false} DigitsAreShown(d: string)
    requires d != [] && AllDigits(d)
    ensures exists k: nat :: d == Zeros(k) + ShowNat(DigitsValue(d))
  {
    var init, last := d[..|d| - 1], d[|d| - 1];
    assert d == init + [last];
    if DigitsValue(init) == 0 {
      ZeroValueIsZeros(init);
      assert ShowNat(DigitsValue(d)) == [last];
      assert d == Zeros(|init|) + ShowNat(DigitsValue(d));
    } else {
      DigitsAreShown(init);
      var k: nat :| init == Zeros(k) + ShowNat(DigitsValue(init));
      var n := DigitsValue(d);
      assert n / 10 == DigitsValue(init) && n % 10 == DigitValue(last);
      assert ShowNat(n) == ShowNat(DigitsValue(init)) + [last];
      assert d == Zeros(k) + ShowNat(n);
    }
  }

  /**
   * `s` is the decimal form of `n` after `sign` and `k` leading zeros, where
   * a '-' sign means `n` is not positive and a negative `n` needs the '-'.
   */
  ghost predicate IsSignedDecimal(s: string, n: int, sign: string, k: nat)
  {
    (sign == "" || sign == "+" || sign == "-") &&
    (sign == "-" ==> n <= 0) && (n < 0 ==> sign == "-") &&
    s == sign + Zeros(k) + ShowNat(Magnitude(n))
  }

  /** The converse of `ParseShowRoundTrip`: text that coerces to `n` is a signed decimal form of `n`. */
  lemma {:induction false} ParseNumberCanonical(s: string, n: int)
    requires ParseNumber(s) == Some(n)
    ensures exists sign: string, k: nat :: IsSignedDecimal(s, n, sign, k)
  {
    if |s| > 0 && (s[0] == '-' || s[0] == '+') {
      var digits := s[1..];
      DigitsAreShown(digits);
      var k: nat :| digits == Zeros(k) + ShowNat(DigitsValue(digits));
      assert Magnitude(n) == DigitsValue(digits);
      assert s == [s[0]] + digits;
      assert IsSignedDecimal(s, n, [s[0]], k);
    } else {
      DigitsAreShown(s);
      var k: nat :| s == Zeros(k) + ShowNat(DigitsValue(s));
      assert Magnitude(n) == DigitsValue(s);
      assert s == "" + s;
      assert IsSignedDecimal(s, n, "", k);
    }
  }

  /** A string of zeros has value 0. */
  lemma {:induction false} ZerosValue(k: nat)
    ensures DigitsValue(Zeros(k)) == 0
  {
    if k > 0 {
      assert Zeros(k)[..k - 1] == Zeros(k - 1);
      ZerosValue(k - 1);
    }
  }

  /** Leading zeros do not change the value of a digit string. */
  lemma {:induction false} LeadingZerosValue(k: nat, d: string)
    requires AllDigits(d)
    ensures DigitsValue(Zeros(k) + d) == DigitsValue(d)
  {
    if d == [] {
      assert Zeros(k) + d == Zeros(k);
      ZerosValue(k);
    } else {
      var s := Zeros(k) + d;
      assert s[..|s| - 1] == Zeros(k) + d[..|d| - 1];
      assert s[|s| - 1] == d[|d| - 1];
      LeadingZerosValue(k, d[..|d| - 1]);
    }
  }

  /** The accepting half: every signed decimal form of `n` coerces to `n`. */
  lemma ParseSignedDecimal(s: string, n: int, sign: string, k: nat)
    requires IsSignedDecimal(s, n, sign, k)
    ensures ParseNumber(s) == Some(n)
  {
    var digits := Zeros(k) + ShowNat(Magnitude(n));
    ShowNatValue(Magnitude(n));
    LeadingZerosValue(k, ShowNat(Magnitude(n)));
    assert DigitsValue(digits) == Magnitude(n);
    if sign != "" {
      assert s[0] == sign[0];
      assert s[1..] == digits;
    } else {
      assert s == digits;
      assert digits[|digits| - 1] == ShowNat(Magnitude(n))[|ShowNat(Magnitude(n))| - 1];
      assert IsDigit(s[0]);
    }
  }

  /** Text coerces to `n` exactly when it is a signed decimal form of `n`. */
  lemma ParseNumberExactly(s: string, n: int)
    ensures ParseNumber(s) == Some(n) <==> exists sign: string, k: nat :: IsSignedDecimal(s, n, sign, k)
  {
    if ParseNumber(s) == Some(n) {
      ParseNumberCanonical(s, n);
    }
    if exists sign: string, k: nat :: IsSignedDecimal(s, n, sign, k) {
      var sign: string, k: nat :| IsSignedDecimal(s, n, sign, k);
      ParseSignedDecimal(s, n, sign, k);
    }
  }

  predicate IsNumericCell(c: Cell) { c.Number? || c.Missing? }

  predicate IsNumericColumn(col: seq<Cell>) { forall i :: 0 <= i < |col| ==> IsNumericCell(col[i]) }

  /**
   * The numeric coercion of one cell. It never fails: text that is not a
   * number becomes missing, and cells that are already numeric are kept.
   */
  function ToNumeric(c: Cell): (r: Cell)
    ensures IsNumericCell(r)
    ensures IsNumericCell(c) ==> r == c
  {
    match c
    case Text(s) => (match ParseNumber(s) case Some(n) => Number(n) case None => Missing)
    case _ => c
  }

  /** The coercion of a whole column, cell by cell. */
  function CoerceColumn(col: seq<Cell>): seq<Cell>
  {
    seq(|col|, i requires 0 <= i < |col| => ToNumeric(col[i]))
  }

  /** A coerced column has the same length, only numbers and missing values, and coercing it again changes nothing. */
  lemma CoerceColumnNumeric(col: seq<Cell>)
    ensures |CoerceColumn(col)| == |col|
    ensures IsNumericColumn(CoerceColumn(col))
    ensures CoerceColumn(CoerceColumn(col)) == CoerceColumn(col)
    ensures forall i :: 0 <= i < |col| && col[i].Text? ==>
      CoerceColumn(col)[i] == (match ParseNumber(col[i].text) case Some(n) => Number(n) case None => Missing)
  {
  }

  /** The value a numeric cell holds, `None` for missing. */
  function Amount(c: Cell): Option<int>
    requires IsNumericCell(c)
  {
    if c.Number? then Some(c.value) else None
  }

  /** The identifying columns of a finance row. */
  datatype RowKey = RowKey(name: string, position: string, reportPeriod: string, year: int)

  /** The finance table: its identifying columns and the money columns the file has, by name. */
  class FinanceFrame {
    var keys: seq<RowKey>
    var money: map<string, seq<Cell>>

    ghost predicate Valid()
      reads this
    {
      forall c :: c in money ==> |money[c]| == |keys|
    }

    constructor (keys: seq<RowKey>, money: map<string, seq<Cell>>)
      requires forall c :: c in money ==> |money[c]| == |keys|
      ensures Valid() && this.keys == keys && this.money == money
    {
      this.keys := keys;
      this.money := money;
    }

    /** Every money column the table has holds only numbers and missing values. */
    predicate Coerced()
      reads this
    {
      forall c :: c in money && c in MoneyColumns ==> IsNumericColumn(money[c])
    }

    predicate HasMoneyColumns()
      reads this
    {
      forall c :: c in MoneyColumns ==> c in money
    }

    /** Replaces each money column present in the table by its coercion; nothing else changes. */
    method CoerceMoneyColumns()
      requires Valid()
      modifies this
      ensures Valid() && Coerced()
      ensures keys == old(keys) && money.Keys == old(money).Keys
      ensures forall c :: c in money ==>
        money[c] == if c in MoneyColumns then CoerceColumn(old(money)[c]) else old(money)[c]
    {
      for i := 0 to |MoneyColumns|
        invariant Valid()
        invariant keys == old(keys) && money.Keys == old(money).Keys
        invariant forall c :: c in money ==>
          money[c] == if c in MoneyColumns[..i] then CoerceColumn(old(money)[c]) else old(money)[c]
      {
        var col := MoneyColumns[i];
        assert MoneyColumns[..i + 1] == MoneyColumns[..i] + [col];
        if col in money {
          CoerceColumnNumeric(money[col]);
          CoerceColumnNumeric(old(money)[col]);
          money := money[col := CoerceColumn(money[col])];
        }
      }
      assert MoneyColumns[..|MoneyColumns|] == MoneyColumns;
      forall c | c in money && c in MoneyColumns ensures IsNumericColumn(money[c]) {
        CoerceColumnNumeric(old(money)[c]);
      }
    }

    /**
     * The finance rows the rest of the dashboard works on, once every money
     * column is present and coerced: each row keeps its identifying columns,
     * and each money field is the number its cell holds, or missing.
     */
    function Records(): (rows: seq<FinanceRecord>)
      reads this
      requires Valid() && Coerced() && HasMoneyColumns()
      ensures |rows| == |keys|
      ensures forall i :: 0 <= i < |rows| ==>
        rows[i].name == keys[i].name && rows[i].position == keys[i].position &&
        rows[i].reportPeriod == keys[i].reportPeriod && rows[i].year == keys[i].year &&
        rows[i].raised == Amount(money["Raised"][i]) &&
        rows[i].spent == Amount(money["Spent"][i]) &&
        rows[i].loans == Amount(money["Loans"][i]) &&
        rows[i].cashOnHand == Amount(money["CashOnHand"][i])
    {
      assert "Raised" in MoneyColumns && "Spent" in MoneyColumns;
      assert "Loans" in MoneyColumns && "CashOnHand" in MoneyColumns;
      var ks, raised, spent, loans, cash :=
        keys, money["Raised"], money["Spent"], money["Loans"], money["CashOnHand"];
      seq(|ks|, i requires 0 <= i < |ks| =>
        FinanceRecord(
          ks[i].name, ks[i].position, ks[i].reportPeriod, ks[i].year,
          Amount(raised[i]), Amount(spent[i]), Amount(loans[i]), Amount(cash[i])))
    }
  }
}
