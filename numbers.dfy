/**
 * The locale step and the numeric parse the receipt parser applies to every
 * number: `s.replace(',', ".").parse::<f64>()`, and `f64::abs`.
 *
 * Numbers are exact decimals (`real`); the grammar is the one Rust's `f64`
 * parser accepts for finite decimals: an optional sign, digits with at most
 * one '.', at least one digit, and an optional exponent `e`/`E` with an
 * optional sign and at least one digit.
 */
module Numbers {
  import opened Wrappers

  /** `s.replace(',', ".")`: every comma becomes a period, nothing else changes. */
  function ReplaceComma(s: string): (r: string)
    ensures |r| == |s|
    ensures forall i :: 0 <= i < |s| ==> r[i] == (if s[i] == ',' then '.' else s[i])
  {
    seq(|s|, i requires 0 <= i < |s| => if s[i] == ',' then '.' else s[i])
  }

  predicate IsDigit(c: char)
  {
    '0' <= c <= '9'
  }

  predicate AllDigits(s: string)
  {
    forall i :: 0 <= i < |s| ==> IsDigit(s[i])
  }

  /** The characters that can occur in a number the parser accepts. */
  predicate IsNumberChar(c: char)
  {
    IsDigit(c) || c == '+' || c == '-' || c == '.' || c == 'e' || c == 'E'
  }

  function DigitValue(c: char): nat
    requires IsDigit(c)
  {
    (c as int) - ('0' as int)
  }

  /** The value of a string of decimal digits, most significant first; the empty string is 0. */
  function DigitsValue(s: string): nat
    requires AllDigits(s)
  {
    if s == [] then 0 else DigitsValue(s[..|s| - 1]) * 10 + DigitValue(s[|s| - 1])
  }

  function Pow10(n: nat): (r: nat)
    ensures r >= 1
  {
    if n == 0 then 1 else 10 * Pow10(n - 1)
  }

  /** The index of the first character of `s` in `stops`, or `|s|` when there is none. */
  function FirstIn(s: string, stops: set<char>): (k: nat)
    ensures k <= |s|
    ensures forall i :: 0 <= i < k ==> s[i] !in stops
    ensures k < |s| ==> s[k] in stops
  {
    if s == [] || s[0] in stops then 0 else 1 + FirstIn(s[1..], stops)
  }

  /** A leading '-' or '+' is consumed; the flag says whether it was '-'. */
  function SplitSign(s: string): (bool, string)
  {
    if |s| > 0 && (s[0] == '-' || s[0] == '+') then (s[0] == '-', s[1..]) else (false, s)
  }

  /** The value of `intPart.fracPart` for digit strings. */
  function Decimal(intPart: string, fracPart: string): (r: real)
    requires AllDigits(intPart) && AllDigits(fracPart)
    ensures r >= 0.0
  {
    DigitsValue(intPart) as real + DigitsValue(fracPart) as real / Pow10(|fracPart|) as real
  }

  predicate AllNumberChars(s: string)
  {
    forall i :: 0 <= i < |s| ==> IsNumberChar(s[i])
  }

  lemma AllNumberCharsJoin(a: string, b: string, c: string)
    requires AllNumberChars(a) && AllNumberChars(b) && AllNumberChars(c)
    ensures AllNumberChars(a + b + c)
  {
    var s := a + b + c;
    forall i | 0 <= i < |s| ensures IsNumberChar(s[i]) {
      if i < |a| { assert s[i] == a[i]; }
      else if i < |a| + |b| { assert s[i] == b[i - |a|]; }
      else { assert s[i] == c[i - |a| - |b|]; }
    }
  }

  /** Digits with at most one '.', and at least one digit. */
  function ParseMantissa(m: string): (r: Option<real>)
    ensures r.Some? ==> |m| > 0 && AllNumberChars(m)
  {
    var d := FirstIn(m, {'.'});
    var intPart := m[..d];
    var fracPart := if d < |m| then m[d + 1..] else "";
    if AllDigits(intPart) && AllDigits(fracPart) && |intPart| + |fracPart| > 0 then
      assert m == intPart + (if d < |m| then "." else "") + fracPart;
      AllNumberCharsJoin(intPart, if d < |m| then "." else "", fracPart);
      Some(Decimal(intPart, fracPart))
    else
      None
  }

  /** An optional sign followed by at least one digit. */
  function ParseExponent(e: string): (r: Option<int>)
    ensures r.Some? ==> AllNumberChars(e)
  {
    var (neg, digits) := SplitSign(e);
    if |digits| > 0 && AllDigits(digits) then
      assert e == e[..|e| - |digits|] + "" + digits;
      AllNumberCharsJoin(e[..|e| - |digits|], "", digits);
      var v: int := DigitsValue(digits);
      Some(if neg then -v else v)
    else
      None
  }

  function Scale(m: real, e: int): real
  {
    if e >= 0 then m * Pow10(e) as real else m / Pow10(-e) as real
  }

  /** A number without its sign: a mantissa and an optional exponent. */
  function ParseUnsigned(body: string): (r: Option<real>)
    ensures r.Some? ==> |body| > 0 && AllNumberChars(body)
  {
    var k := FirstIn(body, {'e', 'E'});
    match ParseMantissa(body[..k])
    case None => None
    case Some(m) =>
      if k == |body| then
        assert body[..k] == body;
        Some(m)
      else
        match ParseExponent(body[k + 1..])
        case None => None
        case Some(e) =>
          assert body == body[..k] + [body[k]] + body[k + 1..];
          AllNumberCharsJoin(body[..k], [body[k]], body[k + 1..]);
          Some(Scale(m, e))
  }

  /** `str::parse::<f64>` restricted to finite decimals, without rounding. */
  function ParseF64(s: string): (r: Option<real>)
    ensures r.Some? ==> |s| > 0 && AllNumberChars(s)
  {
    var (neg, body) := SplitSign(s);
    match ParseUnsigned(body)
    case None => None
    case Some(v) =>
      assert s == s[..|s| - |body|] + "" + body;
      AllNumberCharsJoin(s[..|s| - |body|], "", body);
      Some(if neg then -v else v)
  }

  /** The locale step and the parse together: `s.replace(',', ".").parse::<f64>()`. */
  function ParseLocale(s: string): (r: Option<real>)
    ensures r.Some? ==> |s| > 0 && forall i :: 0 <= i < |s| ==> IsNumberChar(s[i]) || s[i] == ','
  {
    var t := ReplaceComma(s);
    assert forall i :: 0 <= i < |s| && s[i] != ',' ==> t[i] == s[i];
    ParseF64(t)
  }

  /** `f64::abs`. */
  function Abs(x: real): (r: real)
    ensures r >= 0.0
    ensures r == x || r == -x
  {
    if x < 0.0 then -x else x
  }

  /** Decimal digits of `n` without leading zeros (a single "0" for zero). */
  function NatToString(n: nat): (s: string)
    ensures |s| > 0 && AllDigits(s)
  {
    var d := ['0' + (n % 10) as char];
    if n < 10 then d else NatToString(n / 10) + d
  }

  lemma {:induction false} NatToStringValue(n: nat)
    ensures DigitsValue(NatToString(n)) == n
  {
    var s := NatToString(n);
    assert s[..|s| - 1] == (if n < 10 then [] else NatToString(n / 10));
    if n >= 10 {
      NatToStringValue(n / 10);
    }
  }

  lemma FirstInNone(s: string, stops: set<char>)
    requires forall i :: 0 <= i < |s| ==> s[i] !in stops
    ensures FirstIn(s, stops) == |s|
  {
  }

  lemma {:induction false} ParseUnsignedDecimal(intPart: string, fracPart: string)
    requires AllDigits(intPart) && AllDigits(fracPart) && |intPart| + |fracPart| > 0
    ensures ParseUnsigned(intPart + "." + fracPart) == Some(Decimal(intPart, fracPart))
    ensures |intPart| > 0 ==> ParseUnsigned(intPart) == Some(DigitsValue(intPart) as real)
  {
    var body := intPart + "." + fracPart;
    FirstInNone(body, {'e', 'E'});
    assert body[..|body|] == body;
    FirstInNone(intPart, {'.'});
    assert FirstIn(body, {'.'}) == |intPart| by {
      assert body[|intPart|] == '.';
    }
    assert body[..|intPart|] == intPart;
    assert body[|intPart| + 1..] == fracPart;
    if |intPart| > 0 {
      FirstInNone(intPart, {'e', 'E'});
      assert intPart[..|intPart|] == intPart;
      assert Decimal(intPart, "") == DigitsValue(intPart) as real;
    }
  }

  /** Without a leading sign, `parse::<f64>` is the unsigned parse. */
  lemma ParseF64Unsigned(body: string)
    requires |body| > 0 && body[0] != '-' && body[0] != '+'
    ensures ParseF64(body) == ParseUnsigned(body)
  {
    assert SplitSign(body) == (false, body);
  }

  /** A leading '-' negates the unsigned parse of the rest. */
  lemma ParseF64Negative(body: string)
    requires ParseUnsigned(body).Some?
    ensures ParseF64("-" + body) == Some(-ParseUnsigned(body).value)
  {
    assert ("-" + body)[1..] == body;
    assert SplitSign("-" + body) == (true, body);
  }

  lemma SignedBody(intPart: string, fracPart: string)
    ensures "-" + intPart + "." + fracPart == "-" + (intPart + "." + fracPart)
  {
  }

  lemma DecimalParses(intPart: string, fracPart: string)
    requires AllDigits(intPart) && AllDigits(fracPart) && |intPart| + |fracPart| > 0
    ensures ParseF64(intPart + "." + fracPart) == Some(Decimal(intPart, fracPart))
  {
    ParseUnsignedDecimal(intPart, fracPart);
    var body := intPart + "." + fracPart;
    assert body[0] == (if |intPart| > 0 then intPart[0] else '.');
    ParseF64Unsigned(body);
  }

  lemma NegativeDecimalParses(intPart: string, fracPart: string)
    requires AllDigits(intPart) && AllDigits(fracPart) && |intPart| + |fracPart| > 0
    ensures ParseF64("-" + intPart + "." + fracPart) == Some(-Decimal(intPart, fracPart))
  {
    ParseUnsignedDecimal(intPart, fracPart);
    var body := intPart + "." + fracPart;
    ParseF64Negative(body);
    SignedBody(intPart, fracPart);
  }

  lemma IntegerParses(intPart: string)
    requires AllDigits(intPart) && |intPart| > 0
    ensures ParseF64(intPart) == Some(DigitsValue(intPart) as real)
  {
    ParseUnsignedDecimal(intPart, "");
    ParseF64Unsigned(intPart);
  }

  /** A digit string with an optional fraction parses to its decimal value, and with a leading '-' to its negation. */
  lemma ParseF64Decimal(intPart: string, fracPart: string)
    requires AllDigits(intPart) && AllDigits(fracPart) && |intPart| + |fracPart| > 0
    ensures ParseF64(intPart + "." + fracPart) == Some(Decimal(intPart, fracPart))
    ensures ParseF64("-" + intPart + "." + fracPart) == Some(-Decimal(intPart, fracPart))
    ensures |intPart| > 0 ==> ParseF64(intPart) == Some(DigitsValue(intPart) as real)
  {
    DecimalParses(intPart, fracPart);
    NegativeDecimalParses(intPart, fracPart);
    if |intPart| > 0 {
      IntegerParses(intPart);
    }
  }

  lemma DigitsHaveNoComma(s: string)
    requires AllDigits(s)
    ensures ReplaceComma(s) == s
  {
  }

  lemma ReplaceCommaDecimal(intPart: string, fracPart: string)
    requires AllDigits(intPart) && AllDigits(fracPart)
    ensures ReplaceComma(intPart + "," + fracPart) == intPart + "." + fracPart
    ensures ReplaceComma("-" + intPart + "," + fracPart) == "-" + intPart + "." + fracPart
  {
    var s, t := intPart + "," + fracPart, intPart + "." + fracPart;
    forall i | 0 <= i < |s| ensures ReplaceComma(s)[i] == t[i] {
      if i < |intPart| {
        assert s[i] == intPart[i] == t[i];
      } else if i > |intPart| {
        assert s[i] == fracPart[i - |intPart| - 1] == t[i];
      }
    }
    var ms, mt := "-" + s, "-" + t;
    forall i | 0 <= i < |ms| ensures ReplaceComma(ms)[i] == mt[i] {
      if i > 0 {
        assert ms[i] == s[i - 1] && mt[i] == t[i - 1];
        assert ReplaceComma(s)[i - 1] == t[i - 1];
      }
    }
    assert ms == "-" + intPart + "," + fracPart;
    assert mt == "-" + intPart + "." + fracPart;
  }

  /**
   * The locale property: a comma-decimal string parses to the value of the
   * same string with the comma read as the decimal point.
   */
  lemma ParseLocaleDecimal(intPart: string, fracPart: string)
    requires AllDigits(intPart) && AllDigits(fracPart) && |intPart| + |fracPart| > 0
    ensures ParseLocale(intPart + "," + fracPart) == Some(Decimal(intPart, fracPart))
    ensures ParseLocale("-" + intPart + "," + fracPart) == Some(-Decimal(intPart, fracPart))
    ensures |intPart| > 0 ==> ParseLocale(intPart) == Some(DigitsValue(intPart) as real)
  {
    ParseF64Decimal(intPart, fracPart);
    DigitsHaveNoComma(intPart);
    ReplaceCommaDecimal(intPart, fracPart);
  }

  // ---------------------------------------------------------------------
  // Which strings are numbers: the accepted grammar, stated on its own
  // ---------------------------------------------------------------------

  /** Digits and at most one decimal point (any character of `points`), with at least one digit. */
  predicate IsMantissa(m: string, points: set<char>)
  {
    (forall i :: 0 <= i < |m| ==> IsDigit(m[i]) || m[i] in points)
    && (forall i, j :: 0 <= i < j < |m| && m[i] in points ==> m[j] !in points)
    && (exists i :: 0 <= i < |m| && IsDigit(m[i]))
  }

  /** 'e' or 'E', an optional sign, and at least one digit. */
  predicate IsExponent(x: string)
  {
    |x| >= 2 && (x[0] == 'e' || x[0] == 'E')
    && var d := if x[1] == '+' || x[1] == '-' then x[2..] else x[1..];
       |d| > 0 && AllDigits(d)
  }

  /** A mantissa, optionally followed by an exponent. */
  predicate IsUnsignedNumber(b: string, points: set<char>)
  {
    IsMantissa(b, points) || exists k :: 0 <= k < |b| && IsMantissa(b[..k], points) && IsExponent(b[k..])
  }

  /** An unsigned number with an optional leading '+' or '-'. */
  predicate IsNumber(s: string, points: set<char>)
  {
    IsUnsignedNumber(s, points) || (|s| > 0 && (s[0] == '+' || s[0] == '-') && IsUnsignedNumber(s[1..], points))
  }

  lemma FirstInAt(s: string, stops: set<char>, k: nat)
    requires k <= |s|
    requires forall i :: 0 <= i < k ==> s[i] !in stops
    requires k < |s| ==> s[k] in stops
    ensures FirstIn(s, stops) == k
  {
  }

  lemma ParseMantissaShape(m: string)
    ensures ParseMantissa(m).Some? <==> IsMantissa(m, {'.'})
  {
    var d := FirstIn(m, {'.'});
    var intPart := m[..d];
    var fracPart := if d < |m| then m[d + 1..] else "";
    if ParseMantissa(m).Some? {
      forall i | 0 <= i < |m| ensures IsDigit(m[i]) || m[i] in {'.'} {
        if i < d { assert m[i] == intPart[i]; }
        else if i > d { assert m[i] == fracPart[i - d - 1]; }
      }
      forall i, j | 0 <= i < j < |m| && m[i] in {'.'} ensures m[j] !in {'.'} {
        if i == d {
          assert m[j] == fracPart[j - d - 1];
        }
      }
      if |intPart| > 0 {
        assert IsDigit(m[0]) by { assert m[0] == intPart[0]; }
      } else {
        assert IsDigit(m[d + 1]) by { assert m[d + 1] == fracPart[0]; }
      }
    }
    if IsMantissa(m, {'.'}) {
      assert AllDigits(intPart);
      assert AllDigits(fracPart) by {
        forall i | 0 <= i < |fracPart| ensures IsDigit(fracPart[i]) {
          assert fracPart[i] == m[d + 1 + i];
        }
      }
      var w :| 0 <= w < |m| && IsDigit(m[w]);
      if w < d {
        assert intPart[w] == m[w];
      } else if w > d {
        assert fracPart[w - d - 1] == m[w];
      }
    }
  }

  lemma ParseExponentShape(x: string)
    requires |x| > 0 && (x[0] == 'e' || x[0] == 'E')
    ensures ParseExponent(x[1..]).Some? <==> IsExponent(x)
  {
    var e := x[1..];
    if |e| > 0 {
      assert e[0] == x[1];
      if x[1] == '+' || x[1] == '-' {
        assert e[1..] == x[2..];
      }
    }
  }

  lemma MantissaHasNoE(m: string)
    requires IsMantissa(m, {'.'})
    ensures FirstIn(m, {'e', 'E'}) == |m|
  {
    FirstInAt(m, {'e', 'E'}, |m|);
  }

  lemma ExponentMarksSplit(b: string, k: nat)
    requires k < |b| && IsMantissa(b[..k], {'.'}) && IsExponent(b[k..])
    ensures FirstIn(b, {'e', 'E'}) == k
  {
    assert b[k] == b[k..][0];
    forall i | 0 <= i < k ensures b[i] !in {'e', 'E'} {
      assert b[i] == b[..k][i];
    }
    FirstInAt(b, {'e', 'E'}, k);
  }

  /** A number splits at its first 'e' or 'E' into a mantissa and, when there is one, an exponent. */
  lemma UnsignedSplit(b: string)
    requires IsUnsignedNumber(b, {'.'})
    ensures var k := FirstIn(b, {'e', 'E'});
            IsMantissa(b[..k], {'.'}) && (k == |b| || IsExponent(b[k..]))
  {
    if IsMantissa(b, {'.'}) {
      MantissaHasNoE(b);
      assert b[..|b|] == b;
    } else {
      var k :| 0 <= k < |b| && IsMantissa(b[..k], {'.'}) && IsExponent(b[k..]);
      ExponentMarksSplit(b, k);
    }
  }

  lemma ParseUnsignedShape(b: string)
    ensures ParseUnsigned(b).Some? <==> IsUnsignedNumber(b, {'.'})
  {
    var k := FirstIn(b, {'e', 'E'});
    ParseMantissaShape(b[..k]);
    if k < |b| {
      assert b[k..][1..] == b[k + 1..];
      ParseExponentShape(b[k..]);
    } else {
      assert b[..k] == b;
    }
    if IsUnsignedNumber(b, {'.'}) {
      UnsignedSplit(b);
    }
  }

  /** A number starts with a digit or a point, never with a sign. */
  lemma UnsignedStartsPlain(b: string, points: set<char>)
    requires IsUnsignedNumber(b, points) && '+' !in points && '-' !in points
    ensures |b| > 0 && b[0] != '+' && b[0] != '-'
  {
    if !IsMantissa(b, points) {
      var k :| 0 <= k < |b| && IsMantissa(b[..k], points) && IsExponent(b[k..]);
      assert b[..k][0] == b[0];
    }
  }

  /**
   * `parse::<f64>` accepts a string exactly when it is a number: an optional
   * sign, digits with at most one '.' and at least one digit, then an
   * optional exponent. Everything else, "1.2.3", "." or "1e" among it, is
   * rejected.
   */
  lemma ParseF64Accepts(s: string)
    ensures ParseF64(s).Some? <==> IsNumber(s, {'.'})
  {
    if |s| > 0 && (s[0] == '+' || s[0] == '-') {
      assert SplitSign(s) == (s[0] == '-', s[1..]);
      ParseUnsignedShape(s[1..]);
      if IsUnsignedNumber(s, {'.'}) {
        UnsignedStartsPlain(s, {'.'});
      }
    } else {
      assert SplitSign(s) == (false, s);
      ParseUnsignedShape(s);
    }
  }

  // The comma of the locale step, carried through the grammar

  /** `t` is `s` with every comma read as a period. */
  predicate Recomma(s: string, t: string)
  {
    |s| == |t| && forall i :: 0 <= i < |s| ==> t[i] == (if s[i] == ',' then '.' else s[i])
  }

  lemma RecommaSlice(s: string, t: string, a: nat, b: nat)
    requires Recomma(s, t) && a <= b <= |s|
    ensures Recomma(s[a..b], t[a..b])
  {
    forall i | 0 <= i < b - a ensures t[a..b][i] == (if s[a..b][i] == ',' then '.' else s[a..b][i]) {
      assert s[a..b][i] == s[a + i] && t[a..b][i] == t[a + i];
    }
  }

  lemma MantissaRecomma(s: string, t: string)
    requires Recomma(s, t)
    ensures IsMantissa(t, {'.'}) <==> IsMantissa(s, {'.', ','})
  {
    assert forall i :: 0 <= i < |s| ==> (IsDigit(t[i]) <==> IsDigit(s[i]));
    assert forall i :: 0 <= i < |s| ==> (t[i] in {'.'} <==> s[i] in {'.', ','});
  }

  lemma ExponentHasNoPoint(x: string)
    requires IsExponent(x)
    ensures forall i :: 0 <= i < |x| ==> x[i] != '.' && x[i] != ','
  {
    var d := if x[1] == '+' || x[1] == '-' then 2 else 1;
    assert x[d..] == (if x[1] == '+' || x[1] == '-' then x[2..] else x[1..]);
    forall i | d <= i < |x| ensures IsDigit(x[i]) {
      assert x[i] == x[d..][i - d];
    }
  }

  lemma ExponentRecomma(s: string, t: string)
    requires Recomma(s, t)
    ensures IsExponent(t) <==> IsExponent(s)
  {
    if IsExponent(s) {
      ExponentHasNoPoint(s);
      assert t == s;
    }
    if IsExponent(t) {
      ExponentHasNoPoint(t);
      assert forall i :: 0 <= i < |s| ==> s[i] != ',';
      assert t == s;
    }
  }

  lemma SplitRecomma(s: string, t: string, k: nat)
    requires Recomma(s, t) && k < |s|
    ensures IsMantissa(t[..k], {'.'}) <==> IsMantissa(s[..k], {'.', ','})
    ensures IsExponent(t[k..]) <==> IsExponent(s[k..])
  {
    RecommaSlice(s, t, 0, k);
    RecommaSlice(s, t, k, |s|);
    assert s[..k] == s[0..k] && t[..k] == t[0..k] && s[k..] == s[k..|s|] && t[k..] == t[k..|t|];
    MantissaRecomma(s[..k], t[..k]);
    ExponentRecomma(s[k..], t[k..]);
  }

  lemma UnsignedRecomma(s: string, t: string)
    requires Recomma(s, t)
    ensures IsUnsignedNumber(t, {'.'}) <==> IsUnsignedNumber(s, {'.', ','})
  {
    MantissaRecomma(s, t);
    if IsUnsignedNumber(t, {'.'}) && !IsMantissa(t, {'.'}) {
      var k :| 0 <= k < |t| && IsMantissa(t[..k], {'.'}) && IsExponent(t[k..]);
      SplitRecomma(s, t, k);
    }
    if IsUnsignedNumber(s, {'.', ','}) && !IsMantissa(s, {'.', ','}) {
      var k :| 0 <= k < |s| && IsMantissa(s[..k], {'.', ','}) && IsExponent(s[k..]);
      SplitRecomma(s, t, k);
    }
  }

  /**
   * The locale step and the parse together accept a string exactly when it
   * is a number whose one decimal point may be written ',' or '.': an
   * optional sign, digits with at most one ',' or '.' and at least one
   * digit, then an optional exponent. "1,2,3", ",", "-" and "1e" are
   * rejected.
   */
  lemma ParseLocaleAccepts(s: string)
    ensures ParseLocale(s).Some? <==> IsNumber(s, {'.', ','})
  {
    var t := ReplaceComma(s);
    ParseF64Accepts(t);
    UnsignedRecomma(s, t);
    if |s| > 0 {
      RecommaSlice(s, t, 1, |s|);
      assert s[1..] == s[1..|s|] && t[1..] == t[1..|t|];
      UnsignedRecomma(s[1..], t[1..]);
    }
  }

  /** Two decimal points: "1,2,3" is no number. */
  lemma TwoPointsRejected()
    ensures ParseLocale("1,2,3").None?
  {
    var a := "1,2,3";
    ParseLocaleAccepts(a);
    assert !IsMantissa(a, {'.', ','}) by { assert a[1] == ',' && a[3] == ','; }
    forall k | 0 <= k < |a| ensures !IsExponent(a[k..]) {
      assert a[k..][0] == a[k];
    }
  }

  /** A point without a digit: "," is no number. */
  lemma LonePointRejected()
    ensures ParseLocale(",").None?
  {
    var a := ",";
    ParseLocaleAccepts(a);
    assert !IsMantissa(a, {'.', ','}) by {
      assert forall i :: 0 <= i < |a| ==> a[i] == ',';
    }
    assert a[..0] == [];
  }

  /** A sign without digits: "-" is no number. */
  lemma LoneSignRejected()
    ensures ParseLocale("-").None?
  {
    var a := "-";
    ParseLocaleAccepts(a);
    assert !IsMantissa(a, {'.', ','}) by { assert a[0] == '-'; }
    assert a[..0] == [] && a[1..] == [];
  }

  /** An exponent marker without digits: "1e" is no number. */
  lemma EmptyExponentRejected()
    ensures ParseLocale("1e").None?
  {
    var a := "1e";
    ParseLocaleAccepts(a);
    assert !IsMantissa(a, {'.', ','}) by { assert a[1] == 'e'; }
    assert |a[1..]| == 1 && |a[0..]| == 2 && a[0..][0] == '1';
  }

  /** Round trip: the decimal rendering of a natural number parses back to it. */
  lemma NatToStringParses(n: nat)
    ensures ParseF64(NatToString(n)) == Some(n as real)
  {
    NatToStringValue(n);
    ParseF64Decimal(NatToString(n), "");
  }
}
