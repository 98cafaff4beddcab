/** The lenient integer coercion of the database builder: a stripped cell
    goes through `int(float(x))`, and any exception gives 0. Only plain
    decimals are modelled: an optional sign, digits, an optional fraction. */
module Coerce {
  import opened Wrappers

  predicate IsDigit(c: char) { '0' <= c <= '9' }

  predicate AllDigits(s: string) { forall i :: 0 <= i < |s| ==> IsDigit(s[i]) }

  /** A parsed decimal literal: sign, digits before the point, digits after. */
  datatype Decimal = Decimal(negative: bool, whole: string, frac: string)

  /** The longest prefix of `s` made of digits. */
  function DigitPrefix(s: string): (r: string)
    ensures |r| <= |s| && r == s[..|r|] && AllDigits(r)
    ensures |r| < |s| ==> !IsDigit(s[|r|])
  {
    if s != [] && IsDigit(s[0]) then [s[0]] + DigitPrefix(s[1..]) else []
  }

  /** The literals `float()` accepts within the modelled grammar:
      `[+-]? (digits ('.' digits?)? | '.' digits)`. */
  function ParseDecimal(s: string): (r: Option<Decimal>)
    ensures r.Some? ==> AllDigits(r.value.whole) && AllDigits(r.value.frac)
    ensures r.Some? ==> r.value.whole != [] || r.value.frac != []
  {
    var negative := |s| > 0 && s[0] == '-';
    var body := if |s| > 0 && (s[0] == '-' || s[0] == '+') then s[1..] else s;
    var whole := DigitPrefix(body);
    var rest := body[|whole|..];
    if rest == [] then
      if whole != [] then Some(Decimal(negative, whole, [])) else None
    else if rest[0] == '.' && AllDigits(rest[1..]) && (whole != [] || |rest| > 1) then
      Some(Decimal(negative, whole, rest[1..]))
    else None
  }

  function DigitValue(c: char): nat
    requires IsDigit(c)
  {
    c as int - '0' as int
  }

  /** The number a string of decimal digits denotes (0 for no digits). */
  function DigitsValue(ds: string): nat
    requires AllDigits(ds)
  {
    if ds == [] then 0 else DigitsValue(ds[..|ds| - 1]) * 10 + DigitValue(ds[|ds| - 1])
  }

  /** `int(float(x))` on a parsed literal: the fraction is truncated away,
      toward zero, so only the sign and the whole part matter. */
  function Truncate(d: Decimal): int
    requires AllDigits(d.whole)
  {
    var v: int := DigitsValue(d.whole);
    if d.negative then -v else v
  }

  /** `try: int(float(x)) except: 0` on an already stripped cell. */
  function CoerceInt(s: string): int {
    match ParseDecimal(s)
    case Some(d) => Truncate(d)
    case None => 0
  }

  // ---------------------------------------------------------------------
  // A reference rendering of integers, and the round trips through it
  // ---------------------------------------------------------------------

  function DigitChar(d: nat): (c: char)
    requires d < 10
    ensures IsDigit(c) && DigitValue(c) == d
  {
    ('0' as int + d) as char
  }

  /** `str(n)` for a natural number. */
  function NatDigits(n: nat): (r: string)
    ensures r != [] && AllDigits(r)
    decreases n
  {
    if n < 10 then [DigitChar(n)] else NatDigits(n / 10) + [DigitChar(n % 10)]
  }

  /** `str(n)` for an integer. */
  function Render(n: int): string {
    if n < 0 then "-" + NatDigits(-n) else NatDigits(n)
  }

  lemma {:induction false} NatDigitsValue(n: nat)
    ensures DigitsValue(NatDigits(n)) == n
    decreases n
  {
    if n >= 10 {
      NatDigitsValue(n / 10);
      var ds := NatDigits(n);
      assert ds[..|ds| - 1] == NatDigits(n / 10);
    }
  }

  lemma {:induction false} DigitPrefixAll(ds: string, tail: string)
    requires AllDigits(ds)
    requires tail == [] || !IsDigit(tail[0])
    ensures DigitPrefix(ds + tail) == ds
  {
    if ds == [] {
      assert ds + tail == tail;
    } else {
      assert (ds + tail)[1..] == ds[1..] + tail;
      DigitPrefixAll(ds[1..], tail);
    }
  }

  /** The parse of a sign, a non-empty run of digits and an optional
      fraction. */
  lemma ParseSigned(negative: bool, ds: string, rest: string)
    requires AllDigits(ds) && ds != []
    requires rest == [] || (rest[0] == '.' && AllDigits(rest[1..]))
    ensures ParseDecimal((if negative then "-" else "") + ds + rest)
         == Some(Decimal(negative, ds, if rest == [] then [] else rest[1..]))
  {
    var s := (if negative then "-" else "") + ds + rest;
    var body := ds + rest;
    if negative {
      assert s[0] == '-' && s[1..] == body;
    } else {
      assert s == body;
    }
    DigitPrefixAll(ds, rest);
    assert body[|ds|..] == rest;
  }

  /** Coercing the decimal rendering of any integer gives it back. */
  lemma CoerceRender(n: int)
    ensures CoerceInt(Render(n)) == n
  {
    var m: nat := if n < 0 then -n else n;
    ParseSigned(n < 0, NatDigits(m), []);
    assert Render(n) == (if n < 0 then "-" else "") + NatDigits(m) + [];
    NatDigitsValue(m);
  }

  /** Any fraction after the point is truncated toward zero: "12.0" gives
      12 and "-3.9" gives -3, whatever the digits after the point. */
  lemma CoerceTruncates(n: int, frac: string)
    requires AllDigits(frac)
    ensures CoerceInt(Render(n) + "." + frac) == n
  {
    var m: nat := if n < 0 then -n else n;
    var ds := NatDigits(m);
    var sign: string := if n < 0 then "-" else "";
    var tail := "." + frac;
    assert tail[0] == '.' && tail[1..] == frac;
    assert Render(n) + "." + frac == sign + ds + tail by {
      assert Render(n) == sign + ds;
    }
    assert ParseDecimal(sign + ds + tail) == Some(Decimal(n < 0, ds, frac)) by {
      ParseSigned(n < 0, ds, tail);
    }
    assert Truncate(Decimal(n < 0, ds, frac)) == n by {
      NatDigitsValue(m);
    }
  }

  /** The examples of the coercion: a blank cell and a non-number give 0,
      and so does a comma used as the decimal separator. */
  lemma CoerceRejects()
    ensures CoerceInt("") == 0
    ensures CoerceInt("abc") == 0
    ensures CoerceInt("12,5") == 0
    ensures CoerceInt("-") == 0 && CoerceInt(".") == 0
  {
    assert DigitPrefix("abc") == [];
    assert DigitPrefix("12,5") == "12";
    assert "12,5"[2..] == ",5";
    assert DigitPrefix(".") == [];
  }

  /** "12.0" gives 12: the fraction is dropped. */
  lemma CoerceWholeFraction()
    ensures CoerceInt("12.0") == 12
  {
    ParseSigned(false, "12", ".0");
    assert "" + "12" + ".0" == "12.0";
    assert "12"[..1] == "1";
    assert DigitsValue("1") == 1;
    assert DigitsValue("12") == 12;
  }

  /** "-3.9" gives -3: truncation is toward zero, not downward. */
  lemma CoerceNegativeFraction()
    ensures CoerceInt("-3.9") == -3
  {
    ParseSigned(true, "3", ".9");
    assert "-" + "3" + ".9" == "-3.9";
    assert "3"[..0] == "";
  }
}
