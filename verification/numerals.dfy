/**
 * Integer text conversions used by the protocol: Int32.TryParse and
 * Int64.TryParse with NumberStyles.Integer, and the decimal rendering of
 * integers that the response lines use.
 */
module Numerals {
  import opened Wrappers
  import opened Text

  const Int32Min: int := -0x8000_0000
  const Int32Max: int := 0x7FFF_FFFF
  const Int64Min: int := -0x8000_0000_0000_0000
  const Int64Max: int := 0x7FFF_FFFF_FFFF_FFFF

  /** C# int and long. */
  type Int32 = x: int | -0x8000_0000 <= x <= 0x7FFF_FFFF
  type Int64 = x: int | -0x8000_0000_0000_0000 <= x <= 0x7FFF_FFFF_FFFF_FFFF

  predicate IsDigit(c: char) {
    '0' <= c <= '9'
  }

  predicate AllDigits(s: string) {
    forall i | 0 <= i < |s| :: IsDigit(s[i])
  }

  /** The value of a string of decimal digits, most significant first. */
  function DigitsValue(ds: string): nat
    requires AllDigits(ds)
  {
    if ds == [] then 0
    else DigitsValue(ds[..|ds| - 1]) * 10 + (ds[|ds| - 1] as int - '0' as int)
  }

  /** TryParse with NumberStyles.Integer and the invariant culture: optional
      leading and trailing white space, an optional '+' or '-', then at least
      one ASCII digit; the value must lie in [lo, hi]. */
  function TryParseInteger(s: string, lo: int, hi: int): (r: Option<int>)
    ensures r.Some? ==> lo <= r.value <= hi
  {
    ReadNumeral(DropWhileEnd(DropWhile(s, NumberWhiteSpace), NumberWhiteSpace), lo, hi)
  }

  /** The numeral left once the surrounding white space is gone. */
  function ReadNumeral(t: string, lo: int, hi: int): (r: Option<int>)
    ensures r.Some? ==> lo <= r.value <= hi
  {
    if t == [] then None
    else
      var digits := if t[0] == '-' || t[0] == '+' then t[1..] else t;
      if digits == [] || !AllDigits(digits) then None
      else
        var v: int := if t[0] == '-' then 0 - DigitsValue(digits) as int else DigitsValue(digits);
        if lo <= v <= hi then Some(v) else None
  }

  /** int.TryParse(s, out n). */
  function TryParseInt32(s: string): (r: Option<Int32>)
    ensures r.Some? <==> TryParseInteger(s, Int32Min, Int32Max).Some?
    ensures r.Some? ==> r.value == TryParseInteger(s, Int32Min, Int32Max).value
  {
    match TryParseInteger(s, Int32Min, Int32Max)
    case None => None
    case Some(v) => Some(v)
  }

  /** long.TryParse(s, NumberStyles.Integer, CultureInfo.InvariantCulture, out n). */
  function TryParseInt64(s: string): (r: Option<Int64>)
    ensures r.Some? <==> TryParseInteger(s, Int64Min, Int64Max).Some?
    ensures r.Some? ==> r.value == TryParseInteger(s, Int64Min, Int64Max).value
  {
    match TryParseInteger(s, Int64Min, Int64Max)
    case None => None
    case Some(v) => Some(v)
  }

  /** Characters NumberStyles.Integer skips around a numeral. */
  predicate NumberPadding(w: string) {
    forall i | 0 <= i < |w| :: IsNumberWhite(w[i])
  }

  /** The value a sign and a digit string denote. */
  function SignedValue(sign: string, ds: string): int
    requires AllDigits(ds)
  {
    if sign == "-" then 0 - DigitsValue(ds) else DigitsValue(ds)
  }

  /** Padding, an optional sign and at least one digit are read as their value,
      exactly when that value lies in [lo, hi]. */
  lemma ParseSignedDigits(ws1: string, sign: string, ds: string, ws2: string, lo: int, hi: int)
    requires NumberPadding(ws1) && NumberPadding(ws2)
    requires sign == "" || sign == "+" || sign == "-"
    requires ds != [] && AllDigits(ds)
    ensures TryParseInteger(ws1 + sign + ds + ws2, lo, hi)
         == if lo <= SignedValue(sign, ds) <= hi then Some(SignedValue(sign, ds)) else None
  {
    var body := sign + ds;
    assert body[|body| - 1] == ds[|ds| - 1];
    assert body[0] == if sign == "" then ds[0] else sign[0];
    assert ws1 + sign + ds + ws2 == ws1 + body + ws2;
    StripPadded(ws1, body, ws2, NumberWhiteSpace);
    ReadSignedDigits(sign, ds, lo, hi);
  }

  /** Without padding: a sign and digits read as their value when it fits. */
  lemma ReadSignedDigits(sign: string, ds: string, lo: int, hi: int)
    requires sign == "" || sign == "+" || sign == "-"
    requires ds != [] && AllDigits(ds)
    ensures ReadNumeral(sign + ds, lo, hi)
         == if lo <= SignedValue(sign, ds) <= hi then Some(SignedValue(sign, ds)) else None
  {
    if sign == "" {
      assert sign + ds == ds;
      ReadUnsigned(ds, lo, hi);
    } else {
      assert sign == [sign[0]];
      ReadWithSign(sign[0], ds, lo, hi);
    }
  }

  lemma ReadUnsigned(ds: string, lo: int, hi: int)
    requires ds != [] && AllDigits(ds)
    ensures ReadNumeral(ds, lo, hi)
         == if lo <= DigitsValue(ds) <= hi then Some(DigitsValue(ds) as int) else None
  {
    assert IsDigit(ds[0]);
  }

  lemma ReadWithSign(c: char, ds: string, lo: int, hi: int)
    requires c == '+' || c == '-'
    requires ds != [] && AllDigits(ds)
    ensures ReadNumeral([c] + ds, lo, hi)
         == var v := if c == '-' then 0 - DigitsValue(ds) else DigitsValue(ds);
            if lo <= v <= hi then Some(v) else None
  {
    var t := [c] + ds;
    assert t[0] == c && t[1..] == ds;
  }

  /** Every accepted text is padding, an optional sign and at least one digit,
      and the value read is the one they denote. */
  lemma AcceptedShape(s: string, lo: int, hi: int) returns (ws1: string, sign: string, ds: string, ws2: string)
    requires TryParseInteger(s, lo, hi).Some?
    ensures s == ws1 + sign + ds + ws2
    ensures NumberPadding(ws1) && NumberPadding(ws2)
    ensures sign == "" || sign == "+" || sign == "-"
    ensures ds != [] && AllDigits(ds)
    ensures TryParseInteger(s, lo, hi).value == SignedValue(sign, ds)
  {
    var t, wsa, wsb := PaddingAround(s);
    ws1, ws2 := wsa, wsb;
    sign, ds := NumeralShape(t, lo, hi);
    Associative(ws1, sign + ds, ws2);
    Associative(ws1, sign, ds);
  }

  /** Trimming number white space splits a text into padding, the rest, padding. */
  lemma PaddingAround(s: string) returns (t: string, ws1: string, ws2: string)
    ensures t == DropWhileEnd(DropWhile(s, NumberWhiteSpace), NumberWhiteSpace)
    ensures s == ws1 + (t + ws2)
    ensures NumberPadding(ws1) && NumberPadding(ws2)
  {
    var front := DropWhile(s, NumberWhiteSpace);
    t := DropWhileEnd(front, NumberWhiteSpace);
    ws1 := DropWhileSplit(s, NumberWhiteSpace);
    ws2 := DropWhileEndSplit(front, NumberWhiteSpace);
  }

  /** The numeral an accepted text leaves after trimming. */
  lemma NumeralShape(t: string, lo: int, hi: int) returns (sign: string, ds: string)
    requires ReadNumeral(t, lo, hi).Some?
    ensures t == sign + ds
    ensures sign == "" || sign == "+" || sign == "-"
    ensures ds != [] && AllDigits(ds)
    ensures ReadNumeral(t, lo, hi).value == SignedValue(sign, ds)
  {
    sign := if t[0] == '-' || t[0] == '+' then t[..1] else [];
    ds := t[|sign|..];
    assert t == sign + ds;
  }

  /** Every character of an accepted text is a digit, number white space or a sign. */
  lemma AcceptedChars(s: string, lo: int, hi: int, i: nat)
    requires TryParseInteger(s, lo, hi).Some? && i < |s|
    ensures IsDigit(s[i]) || IsNumberWhite(s[i]) || s[i] == '+' || s[i] == '-'
  {
    var ws1, sign, ds, ws2 := AcceptedShape(s, lo, hi);
    var a, b, c := |ws1|, |ws1| + |sign|, |ws1| + |sign| + |ds|;
    if i < a {
      assert s[i] == ws1[i];
    } else if i < b {
      assert s[i] == sign[i - a];
    } else if i < c {
      assert s[i] == ds[i - b];
    } else {
      assert s[i] == ws2[i - c];
    }
  }

  /** A character that is neither a digit, number white space nor a sign makes
      the whole text unreadable. */
  lemma ForeignCharRefused(s: string, lo: int, hi: int, i: nat)
    requires i < |s| && !IsDigit(s[i]) && !IsNumberWhite(s[i]) && s[i] != '+' && s[i] != '-'
    ensures TryParseInteger(s, lo, hi).None?
  {
    if TryParseInteger(s, lo, hi).Some? {
      AcceptedChars(s, lo, hi, i);
    }
  }

  /** Leading zeros do not change a digit string's value. */
  lemma {:induction false} LeadingZeros(k: nat, ds: string)
    requires AllDigits(ds)
    ensures AllDigits(Repeat('0', k) + ds)
    ensures DigitsValue(Repeat('0', k) + ds) == DigitsValue(ds)
  {
    var z := Repeat('0', k);
    var s := z + ds;
    assert AllDigits(s) by {
      forall i | 0 <= i < |s| ensures IsDigit(s[i]) {
        if i < k { assert s[i] == z[i]; } else { assert s[i] == ds[i - k]; }
      }
    }
    if ds == [] {
      ZerosValue(k);
      assert s == z;
    } else {
      var init := ds[..|ds| - 1];
      LeadingZeros(k, init);
      assert s[..|s| - 1] == z + init;
      assert s[|s| - 1] == ds[|ds| - 1];
    }
  }

  /** A run of zeros is worth 0. */
  lemma {:induction false} ZerosValue(k: nat)
    ensures AllDigits(Repeat('0', k))
    ensures DigitsValue(Repeat('0', k)) == 0
  {
    if k > 0 {
      ZerosValue(k - 1);
      var z := Repeat('0', k);
      assert z[..k - 1] == Repeat('0', k - 1);
    }
  }

  /** The rendering of n, padded with white space and leading zeros and given an
      explicit sign, still reads back as n. */
  lemma PaddedDecimalString(n: int, lo: int, hi: int, ws1: string, k: nat, ws2: string)
    requires lo <= n <= hi
    requires NumberPadding(ws1) && NumberPadding(ws2)
    ensures TryParseInteger(ws1 + (if n < 0 then "-" else "+") + (Repeat('0', k) + Digits(if n < 0 then -n else n)) + ws2, lo, hi)
         == Some(n)
  {
    var m := if n < 0 then -n else n;
    LeadingZeros(k, Digits(m));
    var ds := Repeat('0', k) + Digits(m);
    ParseSignedDigits(ws1, if n < 0 then "-" else "+", ds, ws2, lo, hi);
  }

  /** The shortest decimal digits of n. */
  function Digits(n: nat): (r: string)
    ensures r != [] && AllDigits(r)
    ensures DigitsValue(r) == n
    ensures r[0] == '0' ==> n == 0
  {
    if n < 10 then ['0' + n as char]
    else
      var r := Digits(n / 10) + ['0' + (n % 10) as char];
      assert r[..|r| - 1] == Digits(n / 10);
      assert r[0] == Digits(n / 10)[0];
      r
  }

  /** A digit string without a leading zero ("0" itself aside). */
  predicate Canonical(ds: string) {
    ds != [] && AllDigits(ds) && (ds[0] == '0' ==> |ds| == 1)
  }

  /** A digit string that starts with a non-zero digit is worth at least 1. */
  lemma {:induction false} LeadingDigitPositive(ds: string)
    requires ds != [] && AllDigits(ds) && ds[0] != '0'
    ensures DigitsValue(ds) >= 1
  {
    if |ds| > 1 {
      var init := ds[..|ds| - 1];
      assert init[0] == ds[0];
      LeadingDigitPositive(init);
    }
  }

  /** The rendering of a value is the only canonical digit string worth it. */
  lemma {:induction false} CanonicalDigits(ds: string)
    requires Canonical(ds)
    ensures Digits(DigitsValue(ds)) == ds
  {
    var v := DigitsValue(ds);
    var last := ds[|ds| - 1];
    if |ds| == 1 {
      assert ds[..0] == [];
      assert ds == [last];
    } else {
      var init := ds[..|ds| - 1];
      assert init[0] == ds[0] && ds[0] != '0';
      LeadingDigitPositive(init);
      CanonicalDigits(init);
      assert v / 10 == DigitsValue(init) && v % 10 == last as int - '0' as int;
      assert ds == init + [last];
    }
  }

  /** n.ToString(CultureInfo.InvariantCulture). */
  function DecimalString(n: int): (r: string)
    ensures r != [] && (r[0] == '-' || IsDigit(r[0]))
    ensures forall i | 0 < i < |r| :: IsDigit(r[i])
    ensures r[0] == '-' <==> n < 0
    ensures r[0] == '-' ==> |r| > 1 && r[1] != '0'
    ensures r[0] == '0' ==> r == "0"
  {
    if n < 0 then "-" + Digits(-n) else Digits(n)
  }

  /** A '-' followed by a canonical digit string other than "0", or a canonical
      digit string, is the rendering of the value it reads as: the text of
      ToString is the one canonical numeral for each value. */
  lemma CanonicalDecimalString(sign: string, ds: string)
    requires sign == "" || (sign == "-" && ds != "0")
    requires Canonical(ds)
    ensures DecimalString(SignedValue(sign, ds)) == sign + ds
  {
    CanonicalDigits(ds);
    if sign == "-" {
      if ds[0] != '0' {
        LeadingDigitPositive(ds);
      }
    } else {
      assert sign + ds == ds;
    }
  }

  /** TryParse reads back every rendered value that is in range. */
  lemma ParseDecimalString(n: int, lo: int, hi: int)
    requires lo <= n <= hi
    ensures TryParseInteger(DecimalString(n), lo, hi) == Some(n)
  {
    var s := DecimalString(n);
    NumberTrimIdentity(s);
    if n < 0 {
      assert s[1..] == Digits(-n);
    }
  }

  /** A string with no number white space at either end is read as it stands. */
  lemma NumberTrimIdentity(s: string)
    requires s != [] && (s[0] == '-' || IsDigit(s[0]))
    requires forall i | 0 < i < |s| :: IsDigit(s[i])
    ensures DropWhileEnd(DropWhile(s, NumberWhiteSpace), NumberWhiteSpace) == s
  {
    assert LeadingCount(s, NumberWhiteSpace) == 0;
    assert DropWhile(s, NumberWhiteSpace) == s;
    assert !InClass(s[|s| - 1], NumberWhiteSpace);
    assert DropWhileEnd(s, NumberWhiteSpace) == s;
  }

  /** Rendered integers hold no white space, '/' or ' '. */
  lemma DecimalStringPlain(n: int)
    ensures forall i | 0 <= i < |DecimalString(n)| ::
      !IsWhiteSpace(DecimalString(n)[i]) && DecimalString(n)[i] != '/'
  {
  }

  /** long.TryParse reads back n.ToString() for every 64-bit n. */
  lemma ParseInt64DecimalString(n: Int64)
    ensures TryParseInt64(DecimalString(n)) == Some(n)
  {
    ParseDecimalString(n, Int64Min, Int64Max);
  }

  /** int.TryParse reads back n.ToString() for every 32-bit n. */
  lemma ParseInt32DecimalString(n: Int32)
    ensures TryParseInt32(DecimalString(n)) == Some(n)
  {
    ParseDecimalString(n, Int32Min, Int32Max);
  }
}
