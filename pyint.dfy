/** Python's `int(s)` and `str(n)` on ASCII text, used for the `year`
    parameter of the bookshelf search. */
module PyInt {
  import opened Wrappers
  import opened Text

  predicate IsDigit(c: char) {
    '0' <= c <= '9'
  }

  predicate AllDigits(s: string) {
    forall i :: 0 <= i < |s| ==> IsDigit(s[i])
  }

  function DigitValue(c: char): (d: nat)
    requires IsDigit(c)
    ensures d < 10
  {
    c as int - '0' as int
  }

  function DigitChar(d: nat): (c: char)
    requires d < 10
    ensures IsDigit(c) && DigitValue(c) == d
  {
    ('0' as int + d) as char
  }

  /** The value of a decimal numeral, most significant digit first. */
  function DigitsValue(ds: string): nat
    requires AllDigits(ds)
  {
    if ds == [] then 0 else 10 * DigitsValue(ds[..|ds| - 1]) + DigitValue(ds[|ds| - 1])
  }

  /** `str(n)` for a natural number. */
  function ShowNat(n: nat): (s: string)
    ensures s != [] && AllDigits(s)
  {
    if n < 10 then [DigitChar(n)] else ShowNat(n / 10) + [DigitChar(n % 10)]
  }

  /** `str(n)`. */
  function ShowInt(n: int): (s: string)
    ensures s != []
  {
    if n < 0 then "-" + ShowNat(-n) else ShowNat(n)
  }

  /** `int(s)`: surrounding whitespace, an optional sign, then one or more
      digits; anything else raises `ValueError`, here `None`. */
  function ParseInt(s: string): Option<int> {
    var t := Strip(s);
    if t == [] then None
    else if t[0] == '-' || t[0] == '+' then
      if |t| > 1 && AllDigits(t[1..]) then
        Some(if t[0] == '-' then 0 - DigitsValue(t[1..]) as int else DigitsValue(t[1..]))
      else None
    else if AllDigits(t) then Some(DigitsValue(t))
    else None
  }

  /** Text `int()` accepts once stripped: one or more ASCII digits, with
      at most one leading sign. */
  predicate IntegerText(t: string) {
    exists k :: 0 <= k < |t| && k <= 1 && (k == 1 ==> t[0] in "+-") && AllDigits(t[k..])
  }

  /** `int(s)` raises exactly when the stripped text is not integer text. */
  lemma ParseIntAcceptsIntegerText(s: string)
    ensures ParseInt(s).Some? <==> IntegerText(Strip(s))
  {
    var t := Strip(s);
    if t != [] && (t[0] == '-' || t[0] == '+') {
      if |t| > 1 && AllDigits(t[1..]) {
        assert 1 < |t| && AllDigits(t[1..]);
      }
      if IntegerText(t) {
        var k :| 0 <= k < |t| && k <= 1 && (k == 1 ==> t[0] in "+-") && AllDigits(t[k..]);
        assert t[k..][0] == t[k];
      }
    } else if t != [] && AllDigits(t) {
      assert t[0..] == t;
    }
  }

  lemma {:induction false} ValueOfShowNat(n: nat)
    ensures DigitsValue(ShowNat(n)) == n
  {
    if n >= 10 {
      ValueOfShowNat(n / 10);
      var s := ShowNat(n);
      assert s[..|s| - 1] == ShowNat(n / 10);
    }
  }

  /** `int(str(n)) == n`. */
  lemma ParseShowInt(n: int)
    ensures ParseInt(ShowInt(n)) == Some(n)
  {
    var s := ShowInt(n);
    if n < 0 {
      var d := ShowNat(-n);
      assert s == "-" + d;
      assert s[0] == '-' && s[|s| - 1] == d[|d| - 1] && IsDigit(d[|d| - 1]);
      StripUnchanged(s);
      assert s[1..] == d;
      ValueOfShowNat(-n);
    } else {
      assert IsDigit(s[0]) && IsDigit(s[|s| - 1]);
      StripUnchanged(s);
      ValueOfShowNat(n);
    }
  }
}
