/**
 * Concrete lines and receipts whose expected values are those of the
 * source's two tests (lidl/src/html_receipt.rs:133-389): the Swedish
 * receipt and the German receipt whose lines are wrapped in several spans.
 *
 * The tests read HTML pages that are not part of this model, so every span
 * below is a reconstruction: its attributes and texts are chosen to carry
 * the values the tests expect (prices, quantities, names, article ids,
 * discounts, currency), and the lines are a few of the tests' lines, not
 * whole pages.
 */
module HtmlReceiptFixtures {
  import opened Wrappers
  import opened Ir
  import opened LidlError
  import opened Numbers
  import opened Text
  import opened HtmlReceipt

  const Date := NaiveDateTime(1704067200)
  const ExampleStore := Store("STORE123", "Example Store")

  // ---------------------------------------------------------------------
  // Literal numbers and barcodes, one small fact each
  // ---------------------------------------------------------------------

  lemma Spell79Comma9() ensures "79" + "," + "9" == "79,9" {}
  lemma Spell67Comma9() ensures "67" + "," + "9" == "67,9" {}
  lemma Spell44Comma9() ensures "44" + "," + "9" == "44,9" {}
  lemma Spell29Comma9() ensures "29" + "," + "9" == "29,9" {}
  lemma Spell2Comma99() ensures "2" + "," + "99" == "2,99" {}
  lemma Spell0Comma957() ensures "0" + "," + "957" == "0,957" {}
  lemma Spell0Comma472() ensures "0" + "," + "472" == "0,472" {}
  lemma SpellMinus7Comma92() ensures "-" + "7" + "," + "92" == "-7,92" {}
  lemma SpellMinus3Comma22() ensures "-" + "3" + "," + "22" == "-3,22" {}
  lemma SpellMinus2Comma83() ensures "-" + "2" + "," + "83" == "-2,83" {}
  lemma SpellMinus0Comma56() ensures "-" + "0" + "," + "56" == "-0,56" {}
  lemma SpellMinus1Comma00() ensures "-" + "1" + "," + "00" == "-1,00" {}

  lemma Decimal799()
    ensures Decimal("79", "9") == 79.9
  {
    assert DigitsValue("79") == 79 by { assert "79"[..1] == "7"; assert "7"[..0] == []; }
    assert DigitsValue("9") == 9 by { assert "9"[..0] == []; }
    assert Pow10(1) == 10;
  }

  lemma Decimal679()
    ensures Decimal("67", "9") == 67.9
  {
    assert DigitsValue("67") == 67 by { assert "67"[..1] == "6"; assert "6"[..0] == []; }
    assert DigitsValue("9") == 9 by { assert "9"[..0] == []; }
    assert Pow10(1) == 10;
  }

  lemma Decimal449()
    ensures Decimal("44", "9") == 44.9
  {
    assert DigitsValue("44") == 44 by { assert "44"[..1] == "4"; assert "4"[..0] == []; }
    assert DigitsValue("9") == 9 by { assert "9"[..0] == []; }
    assert Pow10(1) == 10;
  }

  lemma Decimal299()
    ensures Decimal("29", "9") == 29.9
  {
    assert DigitsValue("29") == 29 by { assert "29"[..1] == "2"; assert "2"[..0] == []; }
    assert DigitsValue("9") == 9 by { assert "9"[..0] == []; }
    assert Pow10(1) == 10;
  }

  lemma Decimal2point99()
    ensures Decimal("2", "99") == 2.99
  {
    assert DigitsValue("2") == 2 by { assert "2"[..0] == []; }
    assert DigitsValue("99") == 99 by { assert "99"[..1] == "9"; assert "9"[..0] == []; }
    assert Pow10(2) == 100;
  }

  lemma Decimal0957()
    ensures Decimal("0", "957") == 0.957
  {
    assert DigitsValue("0") == 0 by { assert "0"[..0] == []; }
    assert DigitsValue("957") == 957 by { assert "957"[..2] == "95"; assert "95"[..1] == "9"; assert "9"[..0] == []; }
    assert Pow10(3) == 1000;
  }

  lemma Decimal0472()
    ensures Decimal("0", "472") == 0.472
  {
    assert DigitsValue("0") == 0 by { assert "0"[..0] == []; }
    assert DigitsValue("472") == 472 by { assert "472"[..2] == "47"; assert "47"[..1] == "4"; assert "4"[..0] == []; }
    assert Pow10(3) == 1000;
  }

  lemma Decimal792()
    ensures Decimal("7", "92") == 7.92
  {
    assert DigitsValue("7") == 7 by { assert "7"[..0] == []; }
    assert DigitsValue("92") == 92 by { assert "92"[..1] == "9"; assert "9"[..0] == []; }
    assert Pow10(2) == 100;
  }

  lemma Decimal322()
    ensures Decimal("3", "22") == 3.22
  {
    assert DigitsValue("3") == 3 by { assert "3"[..0] == []; }
    assert DigitsValue("22") == 22 by { assert "22"[..1] == "2"; assert "2"[..0] == []; }
    assert Pow10(2) == 100;
  }

  lemma Decimal283()
    ensures Decimal("2", "83") == 2.83
  {
    assert DigitsValue("2") == 2 by { assert "2"[..0] == []; }
    assert DigitsValue("83") == 83 by { assert "83"[..1] == "8"; assert "8"[..0] == []; }
    assert Pow10(2) == 100;
  }

  lemma Decimal056()
    ensures Decimal("0", "56") == 0.56
  {
    assert DigitsValue("0") == 0 by { assert "0"[..0] == []; }
    assert DigitsValue("56") == 56 by { assert "56"[..1] == "5"; assert "5"[..0] == []; }
    assert Pow10(2) == 100;
  }

  lemma Decimal100()
    ensures Decimal("1", "00") == 1.0
  {
    assert DigitsValue("1") == 1 by { assert "1"[..0] == []; }
    assert DigitsValue("00") == 0 by { assert "00"[..1] == "0"; assert "0"[..0] == []; }
  }

  lemma Parse79Comma9()
    ensures ParseLocale("79,9") == Some(79.9)
  {
    Decimal799();
    ParseLocaleDecimal("79", "9");
    Spell79Comma9();
  }

  lemma Parse67Comma9()
    ensures ParseLocale("67,9") == Some(67.9)
  {
    Decimal679();
    ParseLocaleDecimal("67", "9");
    Spell67Comma9();
  }

  lemma Parse44Comma9()
    ensures ParseLocale("44,9") == Some(44.9)
  {
    Decimal449();
    ParseLocaleDecimal("44", "9");
    Spell44Comma9();
  }

  lemma Parse29Comma9()
    ensures ParseLocale("29,9") == Some(29.9)
  {
    Decimal299();
    ParseLocaleDecimal("29", "9");
    Spell29Comma9();
  }

  lemma Parse2Comma99()
    ensures ParseLocale("2,99") == Some(2.99)
  {
    Decimal2point99();
    ParseLocaleDecimal("2", "99");
    Spell2Comma99();
  }

  lemma Parse0Comma957()
    ensures ParseLocale("0,957") == Some(0.957)
  {
    Decimal0957();
    ParseLocaleDecimal("0", "957");
    Spell0Comma957();
  }

  lemma Parse0Comma472()
    ensures ParseLocale("0,472") == Some(0.472)
  {
    Decimal0472();
    ParseLocaleDecimal("0", "472");
    Spell0Comma472();
  }

  lemma Parse2()
    ensures ParseLocale("2") == Some(2.0)
  {
    ParseLocaleDecimal("2", "");
    assert DigitsValue("2") == 2 by { assert "2"[..0] == []; }
  }

  lemma Barcode0051496() ensures BarcodePrefix + "0051496" == "lidl-0051496" {}
  lemma Barcode7006839() ensures BarcodePrefix + "7006839" == "lidl-7006839" {}
  lemma Barcode6000753() ensures BarcodePrefix + "6000753" == "lidl-6000753" {}
  lemma Barcode0080755() ensures BarcodePrefix + "0080755" == "lidl-0080755" {}
  lemma Barcode0082388() ensures BarcodePrefix + "0082388" == "lidl-0082388" {}

  // ---------------------------------------------------------------------
  // Lines of the Swedish receipt
  // ---------------------------------------------------------------------

  const Sek := Currency("SEK", "kr")

  const CurrencyLine := Span("purchase_list_line_0", ["currency"], map[CurrencyAttr := "kr"], ["SEK"])

  const Grytbitar := Span("purchase_list_line_1", ["article"],
    map[ArticleIdAttr := "0051496", UnitPriceAttr := "79,9", DescriptionAttr := "Grytbitar", QuantityAttr := "2"],
    ["Grytbitar"])

  const Flaskfars := Span("purchase_list_line_3", ["article"],
    map[ArticleIdAttr := "7006839", UnitPriceAttr := "67,9", DescriptionAttr := "Fläskfärs 20%", QuantityAttr := "0,957"],
    ["Fläskfärs 20%"])

  /** The weight line under Fläskfärs: an `article` span whose text starts with white space. */
  const FlaskfarsWeight := Span("purchase_list_line_4", ["article"], map[], ["    0,957 kg x 67,90 kr/kg"])

  const Skinka := Span("purchase_list_line_6", ["article"],
    map[ArticleIdAttr := "6000753", UnitPriceAttr := "44,9", DescriptionAttr := "Lufttorkad skinka"],
    ["Lufttorkad skinka"])

  const Sotpotatis := Span("purchase_list_line_7", ["article"],
    map[ArticleIdAttr := "0080755", UnitPriceAttr := "29,9", DescriptionAttr := "Sötpotatis, lösvikt", QuantityAttr := "0,472"],
    ["Sötpotatis, lösvikt"])

  /** A discount line: a caption, then the amount as the last word. */
  function RabattLine(id: string, amount: string): Span
  {
    Span(id, ["discount"], map[], ["Lidl Plus rabatt ", amount])
  }

  const GrytbitarRabatt := RabattLine("purchase_list_line_2", "-7,92")
  const FlaskfarsRabatt := RabattLine("purchase_list_line_5", "-3,22")
  const SotpotatisRabatt := RabattLine("purchase_list_line_8", "-2,83")
  const SotpotatisExtraRabatt := RabattLine("purchase_list_line_9", "-0,56")

  const GrytbitarItem := ReceiptItem(79.9, 2.0, false, "Grytbitar", "lidl-0051496", [])
  const FlaskfarsItem := ReceiptItem(67.9, 0.957, true, "Fläskfärs 20%", "lidl-7006839", [])
  const SkinkaItem := ReceiptItem(44.9, 1.0, false, "Lufttorkad skinka", "lidl-6000753", [])
  const SotpotatisItem := ReceiptItem(29.9, 0.472, true, "Sötpotatis, lösvikt", "lidl-0080755", [])

  /** A counted article: quantity "2" has no comma, so it is 2 units, not weighed. */
  lemma GrytbitarArticle()
    ensures ArticleItem(Grytbitar) == Ok(GrytbitarItem)
  {
    var attrs := Grytbitar.attrs;
    assert attrs[ArticleIdAttr] == "0051496";
    assert attrs[UnitPriceAttr] == "79,9";
    assert attrs[DescriptionAttr] == "Grytbitar";
    assert attrs[QuantityAttr] == "2";
    Parse79Comma9();
    Parse2();
    assert ',' !in "2";
    Barcode0051496();
  }

  lemma FlaskfarsQuantity()
    ensures ArticleQuantity(Flaskfars) == Ok((0.957, true))
  {
    var raw := Flaskfars.attrs[QuantityAttr];
    assert raw == "0,957";
    assert ',' in raw by { assert raw[1] == ','; }
    Parse0Comma957();
  }

  /** A weighed article: the quantity "0,957" has a comma, so it is a weight of 0.957. */
  lemma FlaskfarsArticle()
    ensures ArticleItem(Flaskfars) == Ok(FlaskfarsItem)
  {
    Barcode7006839();
    assert GetAttr(Flaskfars, ArticleIdAttr) == Ok("7006839");
    assert GetAttr(Flaskfars, UnitPriceAttr) == Ok("67,9");
    assert GetAttr(Flaskfars, DescriptionAttr) == Ok("Fläskfärs 20%");
    Parse67Comma9();
    FlaskfarsQuantity();
  }

  /** Without `data-art-quantity` an article is one unit, not weighed. */
  lemma MissingQuantityIsOneUnit()
    ensures ArticleItem(Skinka) == Ok(SkinkaItem)
  {
    var attrs := Skinka.attrs;
    assert attrs[ArticleIdAttr] == "6000753";
    assert attrs[UnitPriceAttr] == "44,9";
    assert attrs[DescriptionAttr] == "Lufttorkad skinka";
    assert QuantityAttr !in attrs;
    Parse44Comma9();
    Barcode6000753();
  }

  lemma SotpotatisQuantity()
    ensures ArticleQuantity(Sotpotatis) == Ok((0.472, true))
  {
    var raw := Sotpotatis.attrs[QuantityAttr];
    assert raw == "0,472";
    assert ',' in raw by { assert raw[1] == ','; }
    Parse0Comma472();
  }

  lemma SotpotatisArticle()
    ensures ArticleItem(Sotpotatis) == Ok(SotpotatisItem)
  {
    Barcode0080755();
    assert GetAttr(Sotpotatis, ArticleIdAttr) == Ok("0080755");
    assert GetAttr(Sotpotatis, UnitPriceAttr) == Ok("29,9");
    assert GetAttr(Sotpotatis, DescriptionAttr) == Ok("Sötpotatis, lösvikt");
    Parse29Comma9();
    SotpotatisQuantity();
  }

  lemma AmountHasNoWhitespace(amount: string, intPart: string, fracPart: string)
    requires AllDigits(intPart) && AllDigits(fracPart)
    requires amount == "-" + intPart + "," + fracPart
    ensures NoWhitespace(amount)
  {
    forall i | 0 <= i < |amount| ensures !IsWhitespace(amount[i]) {
      if 0 < i <= |intPart| {
        assert amount[i] == intPart[i - 1];
      } else if i > |intPart| + 1 {
        assert amount[i] == fracPart[i - |intPart| - 2];
      }
    }
  }

  lemma ConcatPair(a: string, b: string)
    ensures Concat([a, b]) == a + b
  {
    assert [a, b][1..] == [b];
    assert [b][1..] == [];
    assert b + [] == b;
  }

  /** The amount is the last word of a discount line. */
  lemma RabattWord(id: string, amount: string, intPart: string, fracPart: string)
    requires AllDigits(intPart) && AllDigits(fracPart)
    requires amount == "-" + intPart + "," + fracPart
    ensures LastToken(Concat(RabattLine(id, amount).texts)) == Some(amount)
  {
    var caption := "Lidl Plus rabatt ";
    assert RabattLine(id, amount).texts == [caption, amount];
    ConcatPair(caption, amount);
    AmountHasNoWhitespace(amount, intPart, fracPart);
    assert IsWhitespace(caption[|caption| - 1]);
    LastTokenOfWord(caption, amount);
  }

  /** A negative comma amount as the last word of a discount line is read and made positive. */
  lemma RabattAmount(id: string, amount: string, intPart: string, fracPart: string)
    requires AllDigits(intPart) && AllDigits(fracPart) && |intPart| + |fracPart| > 0
    requires amount == "-" + intPart + "," + fracPart
    ensures DiscountAmount(RabattLine(id, amount)) == Ok(Decimal(intPart, fracPart))
  {
    RabattWord(id, amount, intPart, fracPart);
    ParseLocaleDecimal(intPart, fracPart);
    assert ParseLocale(amount) == Some(-Decimal(intPart, fracPart));
    assert Abs(-Decimal(intPart, fracPart)) == Decimal(intPart, fracPart);
  }

  lemma GrytbitarRabattAmount()
    ensures DiscountAmount(GrytbitarRabatt) == Ok(7.92)
  {
    SpellMinus7Comma92();
    RabattAmount("purchase_list_line_2", "-7,92", "7", "92");
    Decimal792();
  }

  lemma FlaskfarsRabattAmount()
    ensures DiscountAmount(FlaskfarsRabatt) == Ok(3.22)
  {
    SpellMinus3Comma22();
    RabattAmount("purchase_list_line_5", "-3,22", "3", "22");
    Decimal322();
  }

  lemma SotpotatisRabattAmount()
    ensures DiscountAmount(SotpotatisRabatt) == Ok(2.83)
  {
    SpellMinus2Comma83();
    RabattAmount("purchase_list_line_8", "-2,83", "2", "83");
    Decimal283();
  }

  lemma SotpotatisExtraRabattAmount()
    ensures DiscountAmount(SotpotatisExtraRabatt) == Ok(0.56)
  {
    SpellMinus0Comma56();
    RabattAmount("purchase_list_line_9", "-0,56", "0", "56");
    Decimal056();
  }

  // ---------------------------------------------------------------------
  // Runs of lines, for any spans in the given roles
  // ---------------------------------------------------------------------
  // The runs are stated for any spans that play the given roles, so that the
  // verifier never evaluates a whole receipt at once; the lines of the
  // Swedish and German receipts are plugged in afterwards.

  predicate CurrencySpan(span: Span, c: Currency)
  {
    span.classes == ["currency"] && CurrencyAttr in span.attrs && CurrencyFrom(span) == c
  }

  predicate ArticleSpan(span: Span, item: ReceiptItem)
  {
    span.classes == ["article"] && !IsSubline(span) && ArticleItem(span) == Ok(item)
  }

  predicate SublineSpan(span: Span)
  {
    span.classes == ["article"] && IsSubline(span)
  }

  predicate DiscountSpan(span: Span, amount: real)
  {
    span.classes == ["discount"] && DiscountAmount(span) == Ok(amount)
  }

  /** The spans up to `n + 1` run to what the spans up to `n` run to, with span `n` applied. */
  lemma RunStep(ps: seq<Span>, n: nat, st: Scan, st': Scan)
    requires n < |ps| && Run(ps[..n]) == Ok(st) && ApplyClasses(st, ps[n], ps[n].classes) == Ok(st')
    ensures Run(ps[..n + 1]) == Ok(st')
  {
    assert ps[..n + 1][..n] == ps[..n];
  }

  lemma RunCurrencyLine(ps: seq<Span>, n: nat, st: Scan, c: Currency)
    requires n < |ps| && Run(ps[..n]) == Ok(st) && CurrencySpan(ps[n], c)
    ensures Run(ps[..n + 1]) == Ok(st.(currency := Some(c)))
  {
    assert ps[n].classes[..0] == [];
    RunStep(ps, n, st, st.(currency := Some(c)));
  }

  lemma RunArticle(ps: seq<Span>, n: nat, st: Scan, item: ReceiptItem)
    requires n < |ps| && Run(ps[..n]) == Ok(st) && ArticleSpan(ps[n], item)
    ensures Run(ps[..n + 1]) == Ok(st.(items := st.items + [item]))
  {
    assert ps[n].classes[..0] == [];
    RunStep(ps, n, st, st.(items := st.items + [item]));
  }

  /** A sub-line adds no item, whatever attributes it lacks. */
  lemma RunSubline(ps: seq<Span>, n: nat, st: Scan)
    requires n < |ps| && Run(ps[..n]) == Ok(st) && SublineSpan(ps[n])
    ensures Run(ps[..n + 1]) == Ok(st)
  {
    assert ps[n].classes[..0] == [];
    RunStep(ps, n, st, st);
  }

  lemma RunDiscount(ps: seq<Span>, n: nat, st: Scan, amount: real)
    requires n < |ps| && Run(ps[..n]) == Ok(st) && st.items != [] && DiscountSpan(ps[n], amount)
    ensures Run(ps[..n + 1]) == Ok(st.(items := AddDiscount(st.items, amount)))
  {
    assert ps[n].classes[..0] == [];
    RunStep(ps, n, st, st.(items := AddDiscount(st.items, amount)));
  }

  lemma DiscountOnOnly(a: ReceiptItem, y: real)
    ensures AddDiscount([a], y) == [a.(discounts := a.discounts + [Discount(y)])]
  {
    assert [a][..0] == [];
  }

  lemma DiscountOnSecond(a: ReceiptItem, b: ReceiptItem, y: real)
    ensures AddDiscount([a, b], y) == [a, b.(discounts := b.discounts + [Discount(y)])]
  {
    var r := AddDiscount([a, b], y);
    assert [a, b][..1] == [a];
    assert r[0] == r[..1][0] == a;
  }

  lemma DiscountsInOrder(a: ReceiptItem, x: real, y: real)
    ensures var a' := a.(discounts := a.discounts + [Discount(x)]);
            a'.(discounts := a'.discounts + [Discount(y)]) == a.(discounts := a.discounts + [Discount(x), Discount(y)])
  {
    assert a.discounts + [Discount(x)] + [Discount(y)] == a.discounts + [Discount(x), Discount(y)];
  }

  lemma Pair(a: ReceiptItem, b: ReceiptItem)
    ensures [a] + [b] == [a, b]
  {
  }

  lemma FirstDiscount(a: ReceiptItem, ds: seq<Discount>)
    requires a.discounts == []
    ensures a.(discounts := a.discounts + ds) == a.(discounts := ds)
  {
    assert [] + ds == ds;
  }

  /** An article on its own, with no currency line. */
  lemma LoneArticle(ps: seq<Span>, a: ReceiptItem)
    requires |ps| == 1 && ArticleSpan(ps[0], a)
    ensures Run(ps) == Ok(Scan(None, [a]))
  {
    assert ps[..0] == [];
    RunArticle(ps, 0, Start, a);
    assert [] + [a] == [a];
    WholeRun(ps);
  }

  lemma WholeRun(ps: seq<Span>)
    ensures Run(ps[..|ps|]) == Run(ps)
  {
    assert ps[..|ps|] == ps;
  }

  // Each lemma below adds one line to the one before it.

  lemma CurrencyThenArticle(ps: seq<Span>, c: Currency, a: ReceiptItem)
    requires |ps| >= 2 && CurrencySpan(ps[0], c) && ArticleSpan(ps[1], a)
    ensures Run(ps[..2]) == Ok(Scan(Some(c), [a]))
  {
    assert ps[..0] == [];
    RunCurrencyLine(ps, 0, Start, c);
    RunArticle(ps, 1, Scan(Some(c), []), a);
    assert [] + [a] == [a];
  }

  /** A currency line, an article and its discount line. */
  lemma ArticleThenDiscount(ps: seq<Span>, c: Currency, a: ReceiptItem, x: real)
    requires |ps| >= 3 && CurrencySpan(ps[0], c) && ArticleSpan(ps[1], a) && DiscountSpan(ps[2], x)
    ensures Run(ps[..3]) == Ok(Scan(Some(c), [a.(discounts := a.discounts + [Discount(x)])]))
  {
    CurrencyThenArticle(ps, c, a);
    RunDiscount(ps, 2, Scan(Some(c), [a]), x);
    assert [a][..0] == [];
  }

  lemma DiscountThenArticle(ps: seq<Span>, c: Currency, a: ReceiptItem, x: real, b: ReceiptItem)
    requires |ps| >= 4 && CurrencySpan(ps[0], c) && ArticleSpan(ps[1], a) && DiscountSpan(ps[2], x)
    requires ArticleSpan(ps[3], b)
    ensures var a' := a.(discounts := a.discounts + [Discount(x)]);
            Run(ps[..4]) == Ok(Scan(Some(c), [a', b]))
  {
    ArticleThenDiscount(ps, c, a, x);
    var a' := a.(discounts := a.discounts + [Discount(x)]);
    RunArticle(ps, 3, Scan(Some(c), [a']), b);
    Pair(a', b);
  }

  lemma ArticleThenSubline(ps: seq<Span>, c: Currency, a: ReceiptItem, x: real, b: ReceiptItem)
    requires |ps| >= 5 && CurrencySpan(ps[0], c) && ArticleSpan(ps[1], a) && DiscountSpan(ps[2], x)
    requires ArticleSpan(ps[3], b) && SublineSpan(ps[4])
    ensures var a' := a.(discounts := a.discounts + [Discount(x)]);
            Run(ps[..5]) == Ok(Scan(Some(c), [a', b]))
  {
    DiscountThenArticle(ps, c, a, x, b);
    var a' := a.(discounts := a.discounts + [Discount(x)]);
    RunSubline(ps, 4, Scan(Some(c), [a', b]));
  }

  /**
   * An article and its discount line, then a second article, its sub-line
   * and its discount line: each discount stays on the article just above it.
   */
  lemma TwoArticlesWithDiscounts(ps: seq<Span>, c: Currency, a: ReceiptItem, x: real, b: ReceiptItem, y: real)
    requires |ps| == 6 && CurrencySpan(ps[0], c) && ArticleSpan(ps[1], a) && DiscountSpan(ps[2], x)
    requires ArticleSpan(ps[3], b) && SublineSpan(ps[4]) && DiscountSpan(ps[5], y)
    ensures Run(ps) == Ok(Scan(Some(c), [a.(discounts := a.discounts + [Discount(x)]),
                                         b.(discounts := b.discounts + [Discount(y)])]))
  {
    ArticleThenSubline(ps, c, a, x, b);
    var a' := a.(discounts := a.discounts + [Discount(x)]);
    var b' := b.(discounts := b.discounts + [Discount(y)]);
    RunDiscount(ps, 5, Scan(Some(c), [a', b]), y);
    DiscountOnSecond(a', b, y);
    WholeRun(ps);
  }

  /** An article followed by two discount lines: both go to it, in order. */
  lemma ArticleThenTwoDiscounts(ps: seq<Span>, c: Currency, a: ReceiptItem, x: real, y: real)
    requires |ps| == 4 && CurrencySpan(ps[0], c) && ArticleSpan(ps[1], a) && DiscountSpan(ps[2], x)
    requires DiscountSpan(ps[3], y)
    ensures Run(ps) == Ok(Scan(Some(c), [a.(discounts := a.discounts + [Discount(x), Discount(y)])]))
  {
    ArticleThenDiscount(ps, c, a, x);
    var a' := a.(discounts := a.discounts + [Discount(x)]);
    var a'' := a.(discounts := a.discounts + [Discount(x), Discount(y)]);
    RunDiscount(ps, 3, Scan(Some(c), [a']), y);
    DiscountOnOnly(a', y);
    DiscountsInOrder(a, x, y);
    WholeRun(ps);
  }

  // ---------------------------------------------------------------------
  // The Swedish lines in their roles
  // ---------------------------------------------------------------------

  /** A currency line whose one text is already trimmed names that text as its code. */
  lemma TrimmedCurrencyLine(span: Span, code: string, symbol: string)
    requires span.classes == ["currency"] && span.texts == [code] && span.attrs == map[CurrencyAttr := symbol]
    requires code != [] && !IsWhitespace(code[0]) && !IsWhitespace(code[|code| - 1])
    ensures CurrencySpan(span, Currency(code, symbol))
  {
    assert Concat(span.texts) == code by { assert span.texts[1..] == [] && code + [] == code; }
    TrimKeepsTrimmed(code);
  }

  lemma SekLine()
    ensures CurrencySpan(CurrencyLine, Sek)
  {
    assert !IsWhitespace('S') && !IsWhitespace('K');
    TrimmedCurrencyLine(CurrencyLine, "SEK", "kr");
  }

  lemma GrytbitarLine()
    ensures ArticleSpan(Grytbitar, GrytbitarItem)
  {
    GrytbitarArticle();
    assert Grytbitar.texts[0][0] == 'G';
  }

  lemma FlaskfarsLine()
    ensures ArticleSpan(Flaskfars, FlaskfarsItem)
  {
    FlaskfarsArticle();
    assert Flaskfars.texts[0][0] == 'F';
  }

  lemma FlaskfarsWeightLine()
    ensures SublineSpan(FlaskfarsWeight)
  {
    assert FlaskfarsWeight.texts[0][0] == ' ';
  }

  lemma SotpotatisLine()
    ensures ArticleSpan(Sotpotatis, SotpotatisItem)
  {
    SotpotatisArticle();
    assert Sotpotatis.texts[0][0] == 'S';
  }

  /** Spans with no two neighbours sharing an id are all kept, so their run is the receipt. */
  lemma DistinctSpansReceipt(ps: seq<Span>, id: string, date: NaiveDateTime, store: Store,
                             c: Currency, items: seq<ReceiptItem>)
    requires NoAdjacentRepeats(ps) && Run(ps) == Ok(Scan(Some(c), items))
    ensures ReceiptOf(id, date, store, ps) == Ok(ReceiptDetailed(id, items, date, c, store))
  {
    ProcessedUpToIdentity(ps, |ps|);
    assert ps[..|ps|] == ps;
  }

  /** The first lines of the Swedish receipt: Grytbitar with its discount, then Fläskfärs with its weight line and discount. */
  const SwedishLines := [CurrencyLine, Grytbitar, GrytbitarRabatt, Flaskfars, FlaskfarsWeight, FlaskfarsRabatt]

  const GrytbitarDiscounted := GrytbitarItem.(discounts := [Discount(7.92)])
  const FlaskfarsDiscounted := FlaskfarsItem.(discounts := [Discount(3.22)])

  /**
   * The discount after Fläskfärs's weight line goes to Fläskfärs, and the
   * one before it stays on Grytbitar: a receipt in SEK whose items are
   * Grytbitar discounted 7.92 and Fläskfärs discounted 3.22, as the Swedish
   * test expects.
   */
  lemma SwedishReceiptStart()
    ensures ReceiptOf("test-id", Date, ExampleStore, SwedishLines)
            == Ok(ReceiptDetailed("test-id", [GrytbitarDiscounted, FlaskfarsDiscounted], Date, Sek, ExampleStore))
  {
    SwedishLinesReceipt(SwedishLines);
  }

  lemma SwedishLinesReceipt(ps: seq<Span>)
    requires |ps| == 6 && ps[0] == CurrencyLine && ps[1] == Grytbitar && ps[2] == GrytbitarRabatt
    requires ps[3] == Flaskfars && ps[4] == FlaskfarsWeight && ps[5] == FlaskfarsRabatt
    ensures ReceiptOf("test-id", Date, ExampleStore, ps)
            == Ok(ReceiptDetailed("test-id", [GrytbitarDiscounted, FlaskfarsDiscounted], Date, Sek, ExampleStore))
  {
    assert ps[0].id[19] == '0' && ps[1].id[19] == '1' && ps[2].id[19] == '2';
    assert ps[3].id[19] == '3' && ps[4].id[19] == '4' && ps[5].id[19] == '5';
    assert NoAdjacentRepeats(ps);
    SwedishLinesRun(ps);
    DistinctSpansReceipt(ps, "test-id", Date, ExampleStore, Sek, [GrytbitarDiscounted, FlaskfarsDiscounted]);
  }

  lemma SwedishLinesRun(ps: seq<Span>)
    requires |ps| == 6 && ps[0] == CurrencyLine && ps[1] == Grytbitar && ps[2] == GrytbitarRabatt
    requires ps[3] == Flaskfars && ps[4] == FlaskfarsWeight && ps[5] == FlaskfarsRabatt
    ensures Run(ps) == Ok(Scan(Some(Sek), [GrytbitarDiscounted, FlaskfarsDiscounted]))
  {
    SekLine();
    GrytbitarLine();
    GrytbitarRabattAmount();
    FlaskfarsLine();
    FlaskfarsWeightLine();
    FlaskfarsRabattAmount();
    TwoArticlesWithDiscounts(ps, Sek, GrytbitarItem, 7.92, FlaskfarsItem, 3.22);
    FirstDiscount(GrytbitarItem, [Discount(7.92)]);
    FirstDiscount(FlaskfarsItem, [Discount(3.22)]);
  }

  /** Sötpotatis and its two discount lines. */
  const SotpotatisLines := [CurrencyLine, Sotpotatis, SotpotatisRabatt, SotpotatisExtraRabatt]

  const SotpotatisDiscounted := SotpotatisItem.(discounts := [Discount(2.83), Discount(0.56)])

  /**
   * Two discount lines in a row both go to the one article before them, in
   * order: a receipt in SEK whose one item is Sötpotatis discounted 2.83
   * then 0.56.
   */
  lemma TwoDiscountsOneItem()
    ensures ReceiptOf("test-id", Date, ExampleStore, SotpotatisLines)
            == Ok(ReceiptDetailed("test-id", [SotpotatisDiscounted], Date, Sek, ExampleStore))
  {
    SotpotatisLinesReceipt(SotpotatisLines);
  }

  lemma SotpotatisLinesReceipt(ps: seq<Span>)
    requires |ps| == 4 && ps[0] == CurrencyLine && ps[1] == Sotpotatis && ps[2] == SotpotatisRabatt
    requires ps[3] == SotpotatisExtraRabatt
    ensures ReceiptOf("test-id", Date, ExampleStore, ps)
            == Ok(ReceiptDetailed("test-id", [SotpotatisDiscounted], Date, Sek, ExampleStore))
  {
    assert ps[0].id[19] == '0' && ps[1].id[19] == '7' && ps[2].id[19] == '8' && ps[3].id[19] == '9';
    assert NoAdjacentRepeats(ps);
    SotpotatisLinesRun(ps);
    DistinctSpansReceipt(ps, "test-id", Date, ExampleStore, Sek, [SotpotatisDiscounted]);
  }

  lemma SotpotatisLinesRun(ps: seq<Span>)
    requires |ps| == 4 && ps[0] == CurrencyLine && ps[1] == Sotpotatis && ps[2] == SotpotatisRabatt
    requires ps[3] == SotpotatisExtraRabatt
    ensures Run(ps) == Ok(Scan(Some(Sek), [SotpotatisDiscounted]))
  {
    SekLine();
    SotpotatisLine();
    SotpotatisRabattAmount();
    SotpotatisExtraRabattAmount();
    ArticleThenTwoDiscounts(ps, Sek, SotpotatisItem, 2.83, 0.56);
    FirstDiscount(SotpotatisItem, [Discount(2.83), Discount(0.56)]);
  }

  lemma LoneGrytbitarRun()
    ensures Run([Grytbitar]) == Ok(Scan(None, [GrytbitarItem]))
  {
    GrytbitarLine();
    LoneArticle([Grytbitar], GrytbitarItem);
  }

  /** A well-formed article line without a currency line is no receipt. */
  lemma MissingCurrencyReceipt()
    ensures ReceiptOf("test-id", Date, ExampleStore, [Grytbitar]) == Err(HtmlReceiptParse(NoCurrencyMsg))
  {
    assert Processed([Grytbitar]) == [Grytbitar] by {
      assert ProcessedUpTo([Grytbitar], 0) == [];
    }
    LoneGrytbitarRun();
  }

  // ---------------------------------------------------------------------
  // The German receipt: one line wrapped in two spans with one id
  // ---------------------------------------------------------------------

  const Eur := Currency("EUR", "€")

  const EuroLine := Span("purchase_list_line_0", ["currency"], map[CurrencyAttr := "€"], ["EUR"])

  /** The first of two spans wrapping the Cherrystrauchtomaten line: it lacks the article attributes. */
  const TomatenWrapper := Span("purchase_list_line_1", ["article"], map[], ["Cherry"])

  const Tomaten := Span("purchase_list_line_1", ["article"],
    map[ArticleIdAttr := "0082388", UnitPriceAttr := "2,99", DescriptionAttr := "Cherrystrauchtomaten"],
    ["Cherrystrauchtomaten"])

  const TomatenRabatt := RabattLine("purchase_list_line_2", "-1,00")

  const GermanSpans := [EuroLine, TomatenWrapper, Tomaten, TomatenRabatt]

  const TomatenItem := ReceiptItem(2.99, 1.0, false, "Cherrystrauchtomaten", "lidl-0082388", [])

  lemma TomatenArticle()
    ensures ArticleItem(Tomaten) == Ok(TomatenItem)
  {
    var attrs := Tomaten.attrs;
    assert attrs[ArticleIdAttr] == "0082388";
    assert attrs[UnitPriceAttr] == "2,99";
    assert attrs[DescriptionAttr] == "Cherrystrauchtomaten";
    assert QuantityAttr !in attrs;
    Parse2Comma99();
    Barcode0082388();
  }

  lemma TomatenRabattAmount()
    ensures DiscountAmount(TomatenRabatt) == Ok(1.0)
  {
    SpellMinus1Comma00();
    RabattAmount("purchase_list_line_2", "-1,00", "1", "00");
    Decimal100();
  }

  /** The wrapper span before the real Cherrystrauchtomaten span is skipped, so its missing attributes do no harm. */
  lemma DuplicateSpanSkipped()
    ensures Processed(GermanSpans) == [EuroLine, Tomaten, TomatenRabatt]
  {
    var spans := GermanSpans;
    assert EuroLine.id[19] == '0' && TomatenWrapper.id[19] == '1' && TomatenRabatt.id[19] == '2';
    assert Kept(spans, 0) && !Kept(spans, 1) && Kept(spans, 2) && Kept(spans, 3);
    assert ProcessedUpTo(spans, 1) == [EuroLine];
    assert ProcessedUpTo(spans, 2) == [EuroLine];
    assert ProcessedUpTo(spans, 3) == [EuroLine, Tomaten];
  }

  lemma EuroLineCurrency()
    ensures CurrencySpan(EuroLine, Eur)
  {
    assert !IsWhitespace('E') && !IsWhitespace('R');
    TrimmedCurrencyLine(EuroLine, "EUR", "€");
  }

  lemma GermanRun()
    ensures Run([EuroLine, Tomaten, TomatenRabatt]) == Ok(Scan(Some(Eur), [TomatenItem.(discounts := [Discount(1.0)])]))
  {
    GermanLinesRun([EuroLine, Tomaten, TomatenRabatt]);
  }

  lemma TomatenLine()
    ensures ArticleSpan(Tomaten, TomatenItem)
  {
    TomatenArticle();
    assert Tomaten.texts[0][0] == 'C';
  }

  lemma GermanLinesRun(ps: seq<Span>)
    requires |ps| == 3 && ps[0] == EuroLine && ps[1] == Tomaten && ps[2] == TomatenRabatt
    ensures Run(ps) == Ok(Scan(Some(Eur), [TomatenItem.(discounts := [Discount(1.0)])]))
  {
    EuroLineCurrency();
    TomatenLine();
    TomatenRabattAmount();
    ArticleThenDiscount(ps, Eur, TomatenItem, 1.0);
    WholeRun(ps);
    FirstDiscount(TomatenItem, [Discount(1.0)]);
  }

  /**
   * A currency line, the Cherrystrauchtomaten line wrapped in two spans and
   * its discount line: one receipt in euros ("EUR", "€") whose item is
   * Cherrystrauchtomaten at 2.99, one unit, with a discount of 1.00, as the
   * German test expects of its first line.
   */
  lemma DuplicateSpansReceipt()
    ensures ReceiptOf("test-id", Date, ExampleStore, GermanSpans)
            == Ok(ReceiptDetailed("test-id", [TomatenItem.(discounts := [Discount(1.0)])], Date, Eur, ExampleStore))
  {
    DuplicateSpanSkipped();
    GermanRun();
  }
}
