/**
 * The Amount rules of the valid-sales cleaner: strip the currency tags, read the number,
 * convert euros at the fixed rate and round to cents. Amounts are exact decimals here.
 */
module Amounts {
  import opened Common
  import opened Text
  import opened Numerals

  /** An amount rounded to two decimals, counted in hundredths. */
  type Cents = int

  /** The fixed EUR to USD factor the cleaner multiplies euro amounts by. */
  const EuroRate: real := 0.85

  /**
   * What `float(text)` gives: a number, NaN, or the `ValueError` that makes the cleaner raise.
   * NaN stays in the column as a missing amount.
   */
  datatype Reading = Number(value: real) | NotANumber | Unreadable

  /** Position of the first `c` in `s`, or `|s|` when there is none. */
  function IndexOf(s: string, c: char): (i: nat)
    ensures i <= |s| && (i < |s| ==> s[i] == c)
    ensures forall j :: 0 <= j < i ==> s[j] != c
  {
    if s == [] then 0
    else if s[0] == c then 0
    else 1 + IndexOf(s[1..], c)
  }

  predicate IsExponentMark(c: char)
  {
    c == 'e' || c == 'E'
  }

  /** Position of the first `e` or `E` in `s`, or `|s|` when there is none. */
  function IndexOfExponent(s: string): (i: nat)
    ensures i <= |s| && (i < |s| ==> IsExponentMark(s[i]))
    ensures forall j :: 0 <= j < i ==> !IsExponentMark(s[j])
  {
    if s == [] then 0
    else if IsExponentMark(s[0]) then 0
    else 1 + IndexOfExponent(s[1..])
  }

  /** A run of digits in which single underscores may separate two digits (`1_000`). */
  predicate DigitPart(s: string)
  {
    && s != [] && IsDigit(s[0]) && IsDigit(s[|s| - 1])
    && (forall i :: 0 <= i < |s| ==> IsDigit(s[i]) || s[i] == '_')
    && (forall i :: 0 <= i < |s| - 1 ==> s[i] == '_' ==> IsDigit(s[i + 1]))
  }

  /** The digits of `s` in order, its underscores dropped. */
  function DigitsIn(s: string): (ds: string)
    ensures AllDigits(ds) && |ds| <= |s|
    decreases |s|
  {
    if s == [] then []
    else
      var ds := DigitsIn(s[..|s| - 1]);
      if IsDigit(s[|s| - 1]) then ds + [s[|s| - 1]] else ds
  }

  /** The number a digit part denotes. */
  function DigitPartValue(s: string): nat
  {
    DigitsValue(DigitsIn(s))
  }

  /** The two sides of a mantissa's decimal point: each empty or a digit part, not both empty. */
  predicate MantissaShape(whole: string, frac: string)
  {
    (whole == [] || DigitPart(whole)) && (frac == [] || DigitPart(frac)) && |whole| + |frac| >= 1
  }

  /** The value of a mantissa from the two sides of its point. */
  function DecimalParts(whole: string, frac: string): Option<real>
  {
    if MantissaShape(whole, frac) then
      var fd := DigitsIn(frac);
      Some(DigitPartValue(whole) as real + DigitsValue(fd) as real / Pow10(|fd|) as real)
    else None
  }

  /** A mantissa: digit parts around at most one decimal point. */
  function ParseMantissa(m: string): Option<real>
  {
    var dot := IndexOf(m, '.');
    DecimalParts(m[..dot], if dot < |m| then m[dot + 1..] else [])
  }

  /** An exponent: an optional `+` or `-`, then a digit part. */
  function ParseExponent(e: string): Option<int>
  {
    if e != [] && (e[0] == '+' || e[0] == '-') then
      if DigitPart(e[1..]) then
        Some(if e[0] == '-' then -(DigitPartValue(e[1..]) as int) else DigitPartValue(e[1..]))
      else None
    else if DigitPart(e) then Some(DigitPartValue(e))
    else None
  }

  /** `m` times ten to the power `x`, exactly. */
  function Scale(m: real, x: int): real
  {
    if x >= 0 then m * Pow10(x) as real else m / Pow10(-x) as real
  }

  /** A finite unsigned numeral: a mantissa, optionally followed by `e` or `E` and an exponent. */
  function ParseUnsigned(body: string): Option<real>
  {
    var e := IndexOfExponent(body);
    var m := ParseMantissa(body[..e]);
    if e == |body| then m
    else
      match ParseExponent(body[e + 1..])
      case None => None
      case Some(x) => MapOption(m, (v: real) => Scale(v, x))
  }

  /** `nan` in any mix of upper and lower case. */
  predicate SpellsNan(s: string)
  {
    |s| == 3 && UpperChar(s[0]) == 'N' && UpperChar(s[1]) == 'A' && UpperChar(s[2]) == 'N'
  }

  /** The unsigned part of `float()`'s input: `nan` in any case (NaN) or a finite numeral. */
  function ParseBody(body: string): Reading
  {
    if SpellsNan(body) then NotANumber
    else
      match ParseUnsigned(body)
      case None => Unreadable
      case Some(m) => Number(m)
  }

  /** A reading with its sign flipped (NaN stays NaN). */
  function Negated(r: Reading): Reading
  {
    if r.Number? then Number(-r.value) else r
  }

  /**
   * `float()` on stripped text: an optional sign, then the body. `inf` and `infinity` are not
   * read: an infinite amount has no value in cents.
   */
  function ParseSigned(t: string): Reading
  {
    if t != [] && t[0] == '-' then Negated(ParseBody(t[1..]))
    else if t != [] && t[0] == '+' then ParseBody(t[1..])
    else ParseBody(t)
  }

  /** `float(text)`: surrounding whitespace is ignored. */
  function ParseDecimal(s: string): Reading
  {
    ParseSigned(Strip(s))
  }

  /** A digit string is its own digits. */
  lemma {:induction false} DigitsInAllDigits(ds: string)
    requires AllDigits(ds)
    ensures DigitsIn(ds) == ds
    decreases |ds|
  {
    if ds != [] {
      DigitsInAllDigits(ds[..|ds| - 1]);
      assert ds == ds[..|ds| - 1] + [ds[|ds| - 1]];
    }
  }

  /** A digit part has neither a decimal point nor an exponent mark. */
  lemma DigitPartMarks(ds: string)
    requires DigitPart(ds)
    ensures IndexOf(ds, '.') == |ds| && IndexOfExponent(ds) == |ds|
  {
  }

  /** A digit part is a mantissa denoting its value. */
  lemma MantissaOfDigitPart(ds: string)
    requires DigitPart(ds)
    ensures ParseMantissa(ds) == Some(DigitPartValue(ds) as real)
  {
    DigitPartMarks(ds);
    assert ds[..|ds|] == ds;
  }

  /** A digit part reads as its value, underscores and all. */
  lemma ParseUnsignedInteger(ds: string)
    requires DigitPart(ds)
    ensures ParseUnsigned(ds) == Some(DigitPartValue(ds) as real)
  {
    DigitPartMarks(ds);
    assert ds[..|ds|] == ds;
    MantissaOfDigitPart(ds);
  }

  /** A mantissa is digits, underscores and at most one point, and starts with a digit or the point. */
  lemma MantissaChars(m: string)
    requires ParseMantissa(m).Some?
    ensures m != [] && (IsDigit(m[0]) || m[0] == '.')
    ensures forall ch :: ch in m ==> IsDigit(ch) || ch == '_' || ch == '.'
  {
    var dot := IndexOf(m, '.');
    var whole, frac := m[..dot], if dot < |m| then m[dot + 1..] else [];
    assert DecimalParts(whole, frac).Some?;
    SidesChars(m, dot);
  }

  lemma SidesChars(m: string, dot: nat)
    requires dot <= |m| && (dot < |m| ==> m[dot] == '.')
    requires MantissaShape(m[..dot], if dot < |m| then m[dot + 1..] else [])
    ensures m != [] && (IsDigit(m[0]) || m[0] == '.')
    ensures forall ch :: ch in m ==> IsDigit(ch) || ch == '_' || ch == '.'
  {
    var whole := m[..dot];
    DigitPartChars(whole);
    if dot < |m| {
      var frac := m[dot + 1..];
      DigitPartChars(frac);
      assert m == whole + ['.'] + frac;
    } else {
      assert m == whole;
    }
    if dot > 0 {
      assert m[0] == whole[0];
    }
  }

  /** In text whose first part has no `e` or `E`, the exponent mark after it is the first one. */
  lemma ExponentAt(m: string, c: char, x: string)
    requires IsExponentMark(c) && forall ch :: ch in m ==> IsDigit(ch) || ch == '_' || ch == '.'
    ensures IndexOfExponent(m + [c] + x) == |m|
  {
    var body := m + [c] + x;
    forall j | 0 <= j < |m|
      ensures !IsExponentMark(body[j])
    {
      assert body[j] == m[j] && m[j] in m;
    }
    assert IsExponentMark(body[|m|]);
  }

  /** The characters of a digit part (or of the empty text) are digits and underscores. */
  lemma DigitPartChars(d: string)
    requires d == [] || DigitPart(d)
    ensures forall ch :: ch in d ==> IsDigit(ch) || ch == '_'
  {
  }

  /** An exponent is a sign, digits and underscores, and ends with a digit. */
  lemma ExponentChars(x: string)
    requires ParseExponent(x).Some?
    ensures x != [] && IsDigit(x[|x| - 1])
    ensures forall ch :: ch in x ==> IsDigit(ch) || ch == '_' || ch == '+' || ch == '-'
  {
    if x != [] && (x[0] == '+' || x[0] == '-') {
      var d := x[1..];
      DigitPartChars(d);
      assert x == [x[0]] + d;
      assert x[|x| - 1] == d[|d| - 1];
    } else {
      DigitPartChars(x);
    }
  }

  /**
   * A mantissa `m`, an `e` or `E`, and an exponent `x` read as `m` times ten to the `x`,
   * exactly: `1.5e2`, `1E2` and `1e-2` alike.
   */
  lemma ExponentScales(m: string, c: char, x: string, v: real, k: int)
    requires IsExponentMark(c) && ParseMantissa(m) == Some(v) && ParseExponent(x) == Some(k)
    ensures ParseUnsigned(m + [c] + x) == Some(Scale(v, k))
  {
    var body := m + [c] + x;
    MantissaChars(m);
    ExponentAt(m, c, x);
    assert body[..|m|] == m;
    assert body[|m| + 1..] == x;
  }

  /** The integer nearest to `x`, ties going to the even neighbour (numpy's rounding rule). */
  function RoundHalfEven(x: real): (n: int)
    ensures -0.5 <= x - n as real <= 0.5
    ensures (x - n as real == 0.5 || n as real - x == 0.5) ==> n % 2 == 0
  {
    var f := x.Floor;
    var d := x - f as real;
    if d < 0.5 then f
    else if d > 0.5 then f + 1
    else if f % 2 == 0 then f
    else f + 1
  }

  /** `round(2)`: the amount in whole cents. */
  function ToCents(x: real): Cents
  {
    RoundHalfEven(x * 100.0)
  }

  /** An amount that is already a whole number of cents is left as it is by rounding. */
  lemma ToCentsExact(c: Cents)
    ensures ToCents(c as real / 100.0) == c
  {
    assert (c as real / 100.0) * 100.0 == c as real;
  }

  /** `.str.replace('USD', '').str.replace('EUR', '')`. */
  function StripCurrencyTags(text: string): string
  {
    RemoveAll(RemoveAll(text, "USD"), "EUR")
  }

  /** The euro mask: the raw text ends with `EUR` (case-sensitive). */
  predicate IsEuro(text: string)
  {
    EndsWith(text, "EUR")
  }

  /** `.astype(float)` on the tag-stripped text (line 79). */
  function ParseAmount(text: string): Reading
  {
    ParseDecimal(StripCurrencyTags(text))
  }

  /**
   * The cents a reading gives through `f`. NaN gives none: the amount stays missing and line 85
   * drops the row. An unreadable text never gets here, because line 79 raises first.
   */
  function ReadingCents(r: Reading, f: real -> Cents): Option<Cents>
  {
    if r.Number? then Some(f(r.value)) else None
  }

  /** The whole Amount rule for one present value: parse, convert euros, round to cents. */
  function ConvertAmount(text: string): Option<Cents>
  {
    var r := ParseAmount(text);
    if IsEuro(text) then ReadingCents(r, EurosToCents) else ReadingCents(r, ToCents)
  }

  /** `convert` is the Amount rule built on the reader `read`. */
  ghost predicate ConvertsBy(convert: string -> Option<Cents>, read: string -> Reading)
  {
    forall text :: convert(text) ==
      if IsEuro(text) then ReadingCents(read(text), EurosToCents) else ReadingCents(read(text), ToCents)
  }

  lemma ConvertAmountReads()
    ensures ConvertsBy(ConvertAmount, ParseAmount)
  {
  }

  /** Text that contains neither tag is untagged. */
  predicate Untagged(num: string)
  {
    !Contains(num, "USD") && !Contains(num, "EUR")
  }

  /** Untagged text has nothing to strip. */
  lemma UntaggedStripped(num: string)
    requires Untagged(num)
    ensures StripCurrencyTags(num) == num
  {
    RemoveAllChangesIffContains(num, "USD");
    RemoveAllChangesIffContains(num, "EUR");
  }

  /** Removing either tag from untagged text followed by a tag removes nothing before the tag. */
  lemma TagJoin(num: string, tag: string, p: string)
    requires tag == "USD" || tag == "EUR"
    requires p == "USD" || p == "EUR"
    requires !Contains(num, p)
    ensures RemoveAll(num + tag, p) == num + RemoveAll(tag, p)
  {
    assert tag[..2] != p[1..] && tag[..1] != p[2..] by {
      assert tag[..2][1] != p[1..][1] || tag[..2][0] != p[1..][0];
      assert tag[..1][0] != p[2..][0];
    }
    NoMatchAcrossJoin(num, tag, p);
    RemoveAllKeepsPrefix(num, tag, p);
  }

  /** A `USD` tag after untagged text is stripped. */
  lemma DollarStripped(num: string)
    requires Untagged(num)
    ensures StripCurrencyTags(num + "USD") == num
  {
    TagJoin(num, "USD", "USD");
    assert RemoveAll("USD", "USD") == "";
    assert num + "" == num;
    RemoveAllChangesIffContains(num, "EUR");
  }

  /** An `EUR` tag after untagged text is stripped. */
  lemma EuroStripped(num: string)
    requires Untagged(num)
    ensures StripCurrencyTags(num + "EUR") == num
  {
    TagJoin(num, "EUR", "USD");
    MissingLetter("EUR", "USD", 1);
    RemoveAllChangesIffContains("EUR", "USD");
    TagJoin(num, "EUR", "EUR");
    assert RemoveAll("EUR", "EUR") == "";
    assert num + "" == num;
  }

  /** A euro amount in cents of dollars: multiply by the rate, then round. */
  function EurosToCents(x: real): Cents
  {
    ToCents(x * EuroRate)
  }

  /** Lines 77-83 on an untagged number: read as it is and rounded, no conversion. */
  lemma ConvertUntagged(num: string)
    requires Untagged(num)
    ensures ConvertAmount(num) == ReadingCents(ParseDecimal(num), ToCents)
  {
    UntaggedStripped(num);
    UntaggedNotEuro(num);
  }

  /** Lines 77-83 on a `USD` amount: the tag is dropped and the number rounded, no conversion. */
  lemma ConvertDollar(num: string)
    requires Untagged(num)
    ensures ConvertAmount(num + "USD") == ReadingCents(ParseDecimal(num), ToCents)
  {
    DollarStripped(num);
    assert (num + "USD")[|num|..] == "USD";
  }

  /** Lines 77-83 on an `EUR` amount: the tag is dropped, the number multiplied by the rate and rounded. */
  lemma ConvertEuro(num: string)
    requires Untagged(num)
    ensures ConvertAmount(num + "EUR") == ReadingCents(ParseDecimal(num), EurosToCents)
  {
    EuroStripped(num);
    EuroTagged(num);
  }

  /** Text ending in `EUR` is a euro amount. */
  lemma EuroTagged(num: string)
    ensures IsEuro(num + "EUR")
  {
    assert (num + "EUR")[|num|..] == "EUR";
  }

  /** Text that does not contain `EUR` does not end with it. */
  lemma UntaggedNotEuro(text: string)
    requires !Contains(text, "EUR")
    ensures !IsEuro(text)
  {
    if |text| >= 3 {
      ContainsIffOccurs(text, "EUR");
      assert !OccursAt(text, "EUR", |text| - 3);
      assert text[|text| - 3..] == text[|text| - 3..|text| - 3 + 3];
    }
  }

  /** Text that starts with a digit or a point has no sign and is not `nan`: it reads as its numeral. */
  lemma SignedNumeral(t: string, v: real)
    requires t != [] && (IsDigit(t[0]) || t[0] == '.') && ParseUnsigned(t) == Some(v)
    ensures ParseSigned(t) == Number(v)
  {
    UnsignedStart(t);
    BodyNumeral(t, v);
  }

  lemma UnsignedStart(t: string)
    requires t != [] && (IsDigit(t[0]) || t[0] == '.')
    ensures ParseSigned(t) == ParseBody(t) && !SpellsNan(t)
  {
    assert t[0] != '-' && t[0] != '+';
    assert UpperChar(t[0]) == t[0];
  }

  lemma BodyNumeral(t: string, v: real)
    requires !SpellsNan(t) && ParseUnsigned(t) == Some(v)
    ensures ParseBody(t) == Number(v)
  {
  }

  /** Text that starts with a digit or a point and reads as a finite numeral, on its own, is that number. */
  lemma NumeralRead(t: string, v: real)
    requires t != [] && (IsDigit(t[0]) || t[0] == '.') && !IsSpace(t[|t| - 1]) && ParseUnsigned(t) == Some(v)
    ensures ParseDecimal(t) == Number(v)
  {
    SignedNumeral(t, v);
    StripTrimmed(t);
  }

  /** A digit part on its own reads as its value. */
  lemma DecimalOfDigitPart(ds: string)
    requires DigitPart(ds)
    ensures ParseDecimal(ds) == Number(DigitPartValue(ds) as real)
  {
    ParseUnsignedInteger(ds);
    NumeralRead(ds, DigitPartValue(ds) as real);
  }

  /** A mantissa, `e` or `E`, and an exponent, on their own, read as the scaled mantissa. */
  lemma DecimalWithExponent(m: string, c: char, x: string, v: real, k: int)
    requires IsExponentMark(c) && ParseMantissa(m) == Some(v) && ParseExponent(x) == Some(k)
    ensures ParseDecimal(m + [c] + x) == Number(Scale(v, k))
  {
    var t := m + [c] + x;
    MantissaChars(m);
    ExponentChars(x);
    assert t[0] == m[0] && t[|t| - 1] == x[|x| - 1];
    ExponentScales(m, c, x, v, k);
    NumeralRead(t, Scale(v, k));
  }

  /** A numeral written with an exponent contains no `U`, so neither tag. */
  lemma ExponentFormUntagged(m: string, c: char, x: string)
    requires IsExponentMark(c) && ParseMantissa(m).Some? && ParseExponent(x).Some?
    ensures Untagged(m + [c] + x)
  {
    var t := m + [c] + x;
    MantissaChars(m);
    ExponentChars(x);
    assert 'U' !in m && 'U' !in x;
    assert 'U' !in t;
    MissingLetter(t, "USD", 0);
    MissingLetter(t, "EUR", 1);
  }

  /** Two digit parts joined by an underscore, or run together, form a digit part. */
  lemma JoinedDigitParts(a: string, b: string)
    requires DigitPart(a) && DigitPart(b)
    ensures DigitPart(a + "_" + b) && DigitPart(a + b)
  {
    var joined, glued := a + "_" + b, a + b;
    forall i | 0 <= i < |joined|
      ensures IsDigit(joined[i]) || joined[i] == '_'
      ensures i < |joined| - 1 && joined[i] == '_' ==> IsDigit(joined[i + 1])
    {
      if i < |a| - 1 {
        assert joined[i] == a[i] && joined[i + 1] == a[i + 1];
      } else if i == |a| - 1 {
        assert joined[i] == a[i];
      } else if i == |a| {
        assert joined[i + 1] == b[0];
      } else {
        assert joined[i] == b[i - |a| - 1];
        if i < |joined| - 1 {
          assert joined[i + 1] == b[i - |a|];
        }
      }
    }
    forall i | 0 <= i < |glued|
      ensures IsDigit(glued[i]) || glued[i] == '_'
      ensures i < |glued| - 1 && glued[i] == '_' ==> IsDigit(glued[i + 1])
    {
      if i < |a| - 1 {
        assert glued[i] == a[i] && glued[i + 1] == a[i + 1];
      } else if i == |a| - 1 {
        assert glued[i] == a[i] && glued[i + 1] == b[0];
      } else {
        assert glued[i] == b[i - |a|];
        if i < |glued| - 1 {
          assert glued[i + 1] == b[i - |a| + 1];
        }
      }
    }
  }

  /** Dropping the underscore between two texts leaves the same digits. */
  lemma JoinedDigits(a: string, b: string)
    ensures DigitsIn(a + "_" + b) == DigitsIn(a + b)
  {
    DigitsInAppend(a + "_", b);
    DigitsInAppend(a, "_");
    DigitsInAppend(a, b);
    assert "_"[..0] == [];
  }

  /** An underscore between two digit parts changes nothing: `1_000` reads as `1000`. */
  lemma UnderscoreIgnored(a: string, b: string)
    requires DigitPart(a) && DigitPart(b)
    ensures ParseDecimal(a + "_" + b) == ParseDecimal(a + b)
  {
    JoinedDigitParts(a, b);
    JoinedDigits(a, b);
    DecimalOfDigitPart(a + "_" + b);
    DecimalOfDigitPart(a + b);
  }

  /** A whole number of dollars, untagged or tagged, converts through its value. */
  lemma TaggedDigitPart(ds: string)
    requires DigitPart(ds)
    ensures var v := DigitPartValue(ds) as real;
      && ConvertAmount(ds) == Some(ToCents(v))
      && ConvertAmount(ds + "USD") == Some(ToCents(v))
      && ConvertAmount(ds + "EUR") == Some(EurosToCents(v))
  {
    assert 'U' !in ds;
    MissingLetter(ds, "USD", 0);
    MissingLetter(ds, "EUR", 1);
    DecimalOfDigitPart(ds);
    ConvertUntagged(ds);
    ConvertDollar(ds);
    ConvertEuro(ds);
  }

  /** The text `100` is a digit part denoting 100. */
  lemma Hundred(hundred: string)
    requires hundred == "100"
    ensures DigitPart(hundred) && DigitPartValue(hundred) == 100
  {
    var one, ten := hundred[..1], hundred[..2];
    assert one[..0] == [] && ten[..1] == one && hundred[..2] == ten;
    assert DigitsValue(one) == 1;
    assert DigitsValue(ten) == 10;
    assert AllDigits(hundred) && DigitsValue(hundred) == 100;
    DigitsInAllDigits(hundred);
  }

  /** The amounts the cleaner's rules are documented with: `100EUR` is 85.00, `100USD` and `100` are 100.00. */
  lemma ConversionExamples(hundred: string)
    requires hundred == "100"
    ensures ConvertAmount(hundred + "EUR") == Some(8500)
    ensures ConvertAmount(hundred + "USD") == Some(10000)
    ensures ConvertAmount(hundred) == Some(10000)
  {
    Hundred(hundred);
    TaggedDigitPart(hundred);
    ToCentsExact(10000);
    ToCentsExact(8500);
    assert 100.0 * EuroRate == 8500 as real / 100.0;
  }

  /** Dropping underscores distributes over concatenation. */
  lemma {:induction false} DigitsInAppend(a: string, b: string)
    ensures DigitsIn(a + b) == DigitsIn(a) + DigitsIn(b)
    decreases |b|
  {
    if b == [] {
      assert a + b == a;
    } else {
      var b', c := b[..|b| - 1], b[|b| - 1];
      var tail := if IsDigit(c) then [c] else [];
      DigitsInAppend(a, b');
      assert (a + b)[..|a + b| - 1] == a + b' && (a + b)[|a + b| - 1] == c;
      assert DigitsIn(a + b) == DigitsIn(a + b') + tail;
      assert DigitsIn(b) == DigitsIn(b') + tail;
      assert DigitsIn(a) + DigitsIn(b') + tail == DigitsIn(a) + (DigitsIn(b') + tail);
    }
  }

  /** A single digit is a digit part denoting itself. */
  lemma OneDigit(d: string)
    requires |d| == 1 && IsDigit(d[0])
    ensures DigitPart(d) && DigitPartValue(d) == d[0] as int - '0' as int
  {
    DigitsInAllDigits(d);
    assert d[..0] == [];
  }

  /**
   * An amount written with an exponent, such as `1.5e2USD` or `2.5E1EUR`, converts through the
   * value of its exponent form, euros at the rate.
   */
  lemma TaggedExponent(m: string, c: char, x: string, v: real, k: int)
    requires IsExponentMark(c) && ParseMantissa(m) == Some(v) && ParseExponent(x) == Some(k)
    ensures ConvertAmount(m + [c] + x) == Some(ToCents(Scale(v, k)))
    ensures ConvertAmount(m + [c] + x + "USD") == Some(ToCents(Scale(v, k)))
    ensures ConvertAmount(m + [c] + x + "EUR") == Some(EurosToCents(Scale(v, k)))
  {
    var num := m + [c] + x;
    ExponentFormUntagged(m, c, x);
    DecimalWithExponent(m, c, x, v, k);
    ConvertUntagged(num);
    ConvertDollar(num);
    ConvertEuro(num);
  }

  /** `1e2USD` is 100 dollars. */
  lemma ExponentExample(one: string, two: string)
    requires one == "1" && two == "2"
    ensures ConvertAmount(one + "e" + two + "USD") == Some(10000)
  {
    assert one + "e" + two + "USD" == one + ['e'] + two + "USD";
    assert ConvertAmount(one + ['e'] + two + "USD") == Some(ToCents(Scale(1.0, 2))) by {
      OneDigit(one);
      OneDigit(two);
      MantissaOfDigitPart(one);
      assert ParseExponent(two) == Some(2);
      TaggedExponent(one, 'e', two, 1.0, 2);
    }
    HundredDollars();
  }

  lemma HundredDollars()
    ensures ToCents(Scale(1.0, 2)) == 10000
  {
    assert Pow10(2) == 100;
    assert Scale(1.0, 2) == 10000 as real / 100.0;
    ToCentsExact(10000);
  }

  /** A `-` before a digit part is a negative exponent. */
  lemma NegativeExponent(d: string)
    requires DigitPart(d)
    ensures ParseExponent("-" + d) == Some(-(DigitPartValue(d) as int))
  {
    assert ("-" + d)[0] == '-' && ("-" + d)[1..] == d;
  }

  /** `1E-2USD` is one cent. */
  lemma NegativeExponentExample(one: string, two: string)
    requires one == "1" && two == "2"
    ensures ConvertAmount(one + "E-" + two + "USD") == Some(1)
  {
    assert one + "E-" + two + "USD" == one + ['E'] + ("-" + two) + "USD";
    assert ConvertAmount(one + ['E'] + ("-" + two) + "USD") == Some(ToCents(Scale(1.0, -2))) by {
      OneDigit(one);
      OneDigit(two);
      MantissaOfDigitPart(one);
      NegativeExponent(two);
      TaggedExponent(one, 'E', "-" + two, 1.0, -2);
    }
    OneCent();
  }

  lemma OneCent()
    ensures ToCents(Scale(1.0, -2)) == 1
  {
    assert Pow10(2) == 100;
    assert Scale(1.0, -2) == 1 as real / 100.0;
    ToCentsExact(1);
  }

  /** `nan` with a `USD` tag, in any case, is NaN: the amount is missing, so line 85 drops the row. */
  lemma NanDollar(n: string)
    requires SpellsNan(n)
    ensures ParseAmount(n + "USD") == NotANumber && ConvertAmount(n + "USD") == None
  {
    assert 'U' !in n;
    MissingLetter(n, "USD", 0);
    MissingLetter(n, "EUR", 1);
    DollarStripped(n);
    StripTrimmed(n);
  }
}
