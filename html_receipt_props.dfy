/**
 * What the HTML receipt extractor promises, stated over its specification
 * `HtmlReceipt.ReceiptOf` and the processed spans.
 */
module HtmlReceiptProperties {
  import opened Wrappers
  import opened Ir
  import opened LidlError
  import opened HtmlReceipt

  // ---------------------------------------------------------------------
  // Currency: required, and the last currency line wins
  // ---------------------------------------------------------------------

  /** The last span carrying the class `currency`, if any. */
  function LastCurrencyLine(ps: seq<Span>): Option<Span>
  {
    if ps == [] then None
    else if "currency" in ps[|ps| - 1].classes then Some(ps[|ps| - 1])
    else LastCurrencyLine(ps[..|ps| - 1])
  }

  lemma MemberSnoc(cs: seq<string>, x: string)
    requires cs != []
    ensures x in cs <==> x in cs[..|cs| - 1] || x == cs[|cs| - 1]
  {
    assert cs == cs[..|cs| - 1] + [cs[|cs| - 1]];
  }

  /** One class's effect on the currency: only `currency` changes it. */
  lemma StepClassCurrency(st: Scan, span: Span, cls: string)
    requires StepClass(st, span, cls).Ok?
    ensures cls == "currency" ==>
              CurrencyAttr in span.attrs && StepClass(st, span, cls).value.currency == Some(CurrencyFrom(span))
    ensures cls != "currency" ==> StepClass(st, span, cls).value.currency == st.currency
  {
  }

  lemma {:induction false} ApplyClassesCurrency(st: Scan, span: Span, cs: seq<string>)
    requires ApplyClasses(st, span, cs).Ok?
    ensures "currency" in cs ==>
              CurrencyAttr in span.attrs && ApplyClasses(st, span, cs).value.currency == Some(CurrencyFrom(span))
    ensures "currency" !in cs ==> ApplyClasses(st, span, cs).value.currency == st.currency
  {
    if cs != [] {
      var init, last := cs[..|cs| - 1], cs[|cs| - 1];
      var mid := ApplyClasses(st, span, init);
      assert mid.Ok?;
      assert ApplyClasses(st, span, cs) == StepClass(mid.value, span, last);
      ApplyClassesCurrency(st, span, init);
      StepClassCurrency(mid.value, span, last);
      MemberSnoc(cs, "currency");
    }
  }

  lemma {:induction false} RunCurrency(ps: seq<Span>)
    requires Run(ps).Ok?
    ensures LastCurrencyLine(ps).None? ==> Run(ps).value.currency == None
    ensures LastCurrencyLine(ps).Some? ==>
              CurrencyAttr in LastCurrencyLine(ps).value.attrs
              && Run(ps).value.currency == Some(CurrencyFrom(LastCurrencyLine(ps).value))
  {
    if ps != [] {
      var init, last := ps[..|ps| - 1], ps[|ps| - 1];
      RunCurrency(init);
      ApplyClassesCurrency(Run(init).value, last, last.classes);
    }
  }

  /**
   * A receipt has a currency exactly when some processed span has the class
   * `currency`; the last such span gives it (its trimmed text as the code,
   * its `data-currency` as the symbol). Without one, a scan that met no
   * other error fails with "could not find currency in receipt".
   */
  lemma CurrencyLastWins(id: string, date: NaiveDateTime, store: Store, spans: seq<Span>)
    ensures var r := ReceiptOf(id, date, store, spans);
            var line := LastCurrencyLine(Processed(spans));
            r.Ok? ==> line.Some? && CurrencyAttr in line.value.attrs && r.value.currency == CurrencyFrom(line.value)
    ensures var r := ReceiptOf(id, date, store, spans);
            var line := LastCurrencyLine(Processed(spans));
            Run(Processed(spans)).Ok? ==>
              (r.Ok? <==> line.Some?) && (line.None? ==> r == Err(HtmlReceiptParse(NoCurrencyMsg)))
  {
    if Run(Processed(spans)).Ok? {
      RunCurrency(Processed(spans));
    }
  }

  // ---------------------------------------------------------------------
  // Items: one per processed article line, in document order
  // ---------------------------------------------------------------------

  /** The items with their discounts taken off: what the article lines themselves say. */
  function Undiscounted(items: seq<ReceiptItem>): (r: seq<ReceiptItem>)
    ensures |r| == |items|
  {
    if items == [] then []
    else Undiscounted(items[..|items| - 1]) + [items[|items| - 1].(discounts := [])]
  }

  /** The item one class of a span contributes: one for an `article` class, none for a sub-line or another class. */
  function ClassItems(span: Span, cls: string): seq<ReceiptItem>
  {
    if cls == "article" && !IsSubline(span) && ArticleItem(span).Ok? then [ArticleItem(span).value] else []
  }

  /** The items the classes `cs` of one span contribute, in order. */
  function SpanItems(span: Span, cs: seq<string>): seq<ReceiptItem>
  {
    if cs == [] then [] else SpanItems(span, cs[..|cs| - 1]) + ClassItems(span, cs[|cs| - 1])
  }

  /** The items of the article lines among the spans `ps`, in document order. */
  function LineItems(ps: seq<Span>): seq<ReceiptItem>
  {
    if ps == [] then [] else LineItems(ps[..|ps| - 1]) + SpanItems(ps[|ps| - 1], ps[|ps| - 1].classes)
  }

  lemma UndiscountedSnoc(items: seq<ReceiptItem>, item: ReceiptItem)
    ensures Undiscounted(items + [item]) == Undiscounted(items) + [item.(discounts := [])]
  {
    assert (items + [item])[..|items|] == items;
  }

  lemma UndiscountedAddDiscount(items: seq<ReceiptItem>, amount: real)
    requires items != []
    ensures Undiscounted(AddDiscount(items, amount)) == Undiscounted(items)
  {
    var init := items[..|items| - 1];
    var last := items[|items| - 1];
    var last' := last.(discounts := last.discounts + [Discount(amount)]);
    UndiscountedSnoc(init, last');
    assert AddDiscount(items, amount) == init + [last'];
    assert last'.(discounts := []) == last.(discounts := []);
  }

  lemma StepClassItems(st: Scan, span: Span, cls: string)
    requires StepClass(st, span, cls).Ok?
    ensures Undiscounted(StepClass(st, span, cls).value.items) == Undiscounted(st.items) + ClassItems(span, cls)
  {
    if cls == "article" && !IsSubline(span) {
      var item := ArticleItem(span).value;
      UndiscountedSnoc(st.items, item);
      assert item.(discounts := []) == item;
    } else if cls == "discount" {
      UndiscountedAddDiscount(st.items, DiscountAmount(span).value);
    }
  }

  lemma {:induction false} ApplyClassesItems(st: Scan, span: Span, cs: seq<string>)
    requires ApplyClasses(st, span, cs).Ok?
    ensures Undiscounted(ApplyClasses(st, span, cs).value.items) == Undiscounted(st.items) + SpanItems(span, cs)
  {
    if cs != [] {
      var init, cls := cs[..|cs| - 1], cs[|cs| - 1];
      ApplyClassesItems(st, span, init);
      var mid := ApplyClasses(st, span, init).value;
      assert ApplyClasses(st, span, cs) == StepClass(mid, span, cls);
      StepClassItems(mid, span, cls);
      var a, b, c := Undiscounted(st.items), SpanItems(span, init), ClassItems(span, cls);
      assert SpanItems(span, cs) == b + c;
      assert (a + b) + c == a + (b + c);
    }
  }

  lemma {:induction false} RunItems(ps: seq<Span>)
    requires Run(ps).Ok?
    ensures Undiscounted(Run(ps).value.items) == LineItems(ps)
  {
    if ps != [] {
      var init, last := ps[..|ps| - 1], ps[|ps| - 1];
      RunItems(init);
      ApplyClassesItems(Run(init).value, last, last.classes);
    }
  }

  /**
   * On success the items are exactly the items of the processed article
   * lines, in document order: one per `article` class of a processed span
   * that is not a sub-line, with the price, quantity, weight flag, name and
   * barcode `ArticleItem` reads from that span. Only the discounts differ.
   */
  lemma ItemsFollowArticleLines(id: string, date: NaiveDateTime, store: Store, spans: seq<Span>)
    ensures var r := ReceiptOf(id, date, store, spans);
            r.Ok? ==> Undiscounted(r.value.items) == LineItems(Processed(spans))
                      && |r.value.items| == |LineItems(Processed(spans))|
  {
    if ReceiptOf(id, date, store, spans).Ok? {
      RunItems(Processed(spans));
    }
  }

  // ---------------------------------------------------------------------
  // Discounts: never negative, and none lost
  // ---------------------------------------------------------------------

  predicate NonNegativeDiscounts(items: seq<ReceiptItem>)
  {
    forall i, k :: 0 <= i < |items| && 0 <= k < |items[i].discounts| ==> items[i].discounts[k].amount >= 0.0
  }

  /** How many discounts the items carry in all. */
  function DiscountCount(items: seq<ReceiptItem>): nat
  {
    if items == [] then 0 else DiscountCount(items[..|items| - 1]) + |items[|items| - 1].discounts|
  }

  function CountClass(cs: seq<string>, cls: string): nat
  {
    if cs == [] then 0 else CountClass(cs[..|cs| - 1], cls) + (if cs[|cs| - 1] == cls then 1 else 0)
  }

  /** How many `discount` classes the spans `ps` carry in all. */
  function DiscountLines(ps: seq<Span>): nat
  {
    if ps == [] then 0 else DiscountLines(ps[..|ps| - 1]) + CountClass(ps[|ps| - 1].classes, "discount")
  }

  lemma DiscountCountSnoc(items: seq<ReceiptItem>, item: ReceiptItem)
    ensures DiscountCount(items + [item]) == DiscountCount(items) + |item.discounts|
  {
    assert (items + [item])[..|items|] == items;
  }

  /** Adding a non-negative discount to the last item keeps every discount non-negative and adds one to the count. */
  lemma AddDiscountCounts(items: seq<ReceiptItem>, amount: real)
    requires items != [] && NonNegativeDiscounts(items) && amount >= 0.0
    ensures NonNegativeDiscounts(AddDiscount(items, amount))
    ensures DiscountCount(AddDiscount(items, amount)) == DiscountCount(items) + 1
  {
    var r := AddDiscount(items, amount);
    var init, last := items[..|items| - 1], items[|items| - 1];
    var last' := last.(discounts := last.discounts + [Discount(amount)]);
    assert r == init + [last'];
    assert items == init + [last];
    DiscountCountSnoc(init, last');
    DiscountCountSnoc(init, last);
    forall i, k | 0 <= i < |r| && 0 <= k < |r[i].discounts|
      ensures r[i].discounts[k].amount >= 0.0
    {
      if i < |r| - 1 {
        assert r[i] == items[i];
      } else if k < |last.discounts| {
        assert r[i].discounts[k] == last.discounts[k];
      }
    }
  }

  lemma StepClassDiscounts(st: Scan, span: Span, cls: string)
    requires NonNegativeDiscounts(st.items)
    requires StepClass(st, span, cls).Ok?
    ensures NonNegativeDiscounts(StepClass(st, span, cls).value.items)
    ensures DiscountCount(StepClass(st, span, cls).value.items)
            == DiscountCount(st.items) + (if cls == "discount" then 1 else 0)
  {
    if cls == "article" && !IsSubline(span) {
      var item := ArticleItem(span).value;
      DiscountCountSnoc(st.items, item);
      assert StepClass(st, span, cls).value.items == st.items + [item];
    } else if cls == "discount" {
      AddDiscountCounts(st.items, DiscountAmount(span).value);
    }
  }

  lemma {:induction false} ApplyClassesDiscounts(st: Scan, span: Span, cs: seq<string>)
    requires NonNegativeDiscounts(st.items)
    requires ApplyClasses(st, span, cs).Ok?
    ensures NonNegativeDiscounts(ApplyClasses(st, span, cs).value.items)
    ensures DiscountCount(ApplyClasses(st, span, cs).value.items) == DiscountCount(st.items) + CountClass(cs, "discount")
  {
    if cs != [] {
      var init := cs[..|cs| - 1];
      ApplyClassesDiscounts(st, span, init);
      StepClassDiscounts(ApplyClasses(st, span, init).value, span, cs[|cs| - 1]);
    }
  }

  lemma {:induction false} RunDiscounts(ps: seq<Span>)
    requires Run(ps).Ok?
    ensures NonNegativeDiscounts(Run(ps).value.items)
    ensures DiscountCount(Run(ps).value.items) == DiscountLines(ps)
  {
    if ps != [] {
      var init, last := ps[..|ps| - 1], ps[|ps| - 1];
      RunDiscounts(init);
      ApplyClassesDiscounts(Run(init).value, last, last.classes);
    }
  }

  /**
   * On success every discount amount is non-negative, and the receipt holds
   * exactly one discount per `discount` class of the processed spans.
   */
  lemma DiscountsAccounted(id: string, date: NaiveDateTime, store: Store, spans: seq<Span>)
    ensures var r := ReceiptOf(id, date, store, spans);
            r.Ok? ==> NonNegativeDiscounts(r.value.items)
                      && DiscountCount(r.value.items) == DiscountLines(Processed(spans))
  {
    if ReceiptOf(id, date, store, spans).Ok? {
      RunDiscounts(Processed(spans));
    }
  }

  // ---------------------------------------------------------------------
  // A discount needs an item before it
  // ---------------------------------------------------------------------

  /** Every `article` class among `cs` belongs to a sub-line, so none of them adds an item. */
  predicate NoArticleItem(span: Span, cs: seq<string>)
  {
    "article" in cs ==> IsSubline(span)
  }

  lemma {:induction false} ApplyClassesWithoutItems(st: Scan, span: Span, cs: seq<string>)
    requires st.items == [] && NoArticleItem(span, cs)
    requires ApplyClasses(st, span, cs).Ok?
    ensures ApplyClasses(st, span, cs).value.items == []
  {
    if cs != [] {
      var init := cs[..|cs| - 1];
      assert cs == init + [cs[|cs| - 1]];
      ApplyClassesWithoutItems(st, span, init);
    }
  }

  lemma {:induction false} RunWithoutArticles(ps: seq<Span>)
    requires forall m :: 0 <= m < |ps| ==> NoArticleItem(ps[m], ps[m].classes)
    requires Run(ps).Ok?
    ensures Run(ps).value.items == []
  {
    if ps != [] {
      var init, last := ps[..|ps| - 1], ps[|ps| - 1];
      RunWithoutArticles(init);
      ApplyClassesWithoutItems(Run(init).value, last, last.classes);
    }
  }

  lemma {:induction false} RunPrefixErr(ps: seq<Span>, n: nat, e: Error)
    requires n <= |ps| && Run(ps[..n]) == Err(e)
    ensures Run(ps) == Err(e)
  {
    if n < |ps| {
      assert ps[..|ps| - 1][..n] == ps[..n];
      RunPrefixErr(ps[..|ps| - 1], n, e);
    } else {
      assert ps[..n] == ps;
    }
  }

  /** An error in the classes of span `k`, met after the spans before it went through, is the result of the whole parse. */
  lemma SpanErrorIsResult(id: string, date: NaiveDateTime, store: Store, spans: seq<Span>, k: nat, j: nat, e: Error)
    requires k < |Processed(spans)| && Run(Processed(spans)[..k]).Ok?
    requires var span := Processed(spans)[k];
             j <= |span.classes| && ApplyClasses(Run(Processed(spans)[..k]).value, span, span.classes[..j]) == Err(e)
    ensures ReceiptOf(id, date, store, spans) == Err(e)
  {
    var ps := Processed(spans);
    ApplyClassesErrPersists(Run(ps[..k]).value, ps[k], ps[k].classes, j, e);
    assert ps[..k + 1][..k] == ps[..k];
    RunPrefixErr(ps, k + 1, e);
  }

  /**
   * A processed `discount` class met before any item exists makes the whole
   * parse fail. When nothing before it failed, the error is the discount's
   * own: "cannot parse discount amount as float" when its amount does not
   * parse, and otherwise "found discount but there are no products before
   * it". Spans before it may carry `article` classes as long as they are
   * sub-lines, which add no item.
   */
  lemma DiscountBeforeAnyArticleFails(id: string, date: NaiveDateTime, store: Store, spans: seq<Span>, k: nat, j: nat)
    requires k < |Processed(spans)|
    requires forall m :: 0 <= m < k ==> NoArticleItem(Processed(spans)[m], Processed(spans)[m].classes)
    requires var span := Processed(spans)[k];
             j < |span.classes| && span.classes[j] == "discount" && NoArticleItem(span, span.classes[..j])
    ensures ReceiptOf(id, date, store, spans).Err?
    ensures var ps := Processed(spans);
            Run(ps[..k]).Ok? && ApplyClasses(Run(ps[..k]).value, ps[k], ps[k].classes[..j]).Ok? ==>
              ReceiptOf(id, date, store, spans)
              == Err(if DiscountAmount(ps[k]).Err? then DiscountAmount(ps[k]).error else HtmlReceiptParse(OrphanDiscountMsg))
  {
    var ps := Processed(spans);
    var pre := ps[..k];
    if Run(pre).Err? {
      RunPrefixErr(ps, k, Run(pre).error);
    } else {
      var span := ps[k];
      var st := Run(pre).value;
      var before := ApplyClasses(st, span, span.classes[..j]);
      if before.Err? {
        SpanErrorIsResult(id, date, store, spans, k, j, before.error);
      } else {
        forall m | 0 <= m < |pre| ensures NoArticleItem(pre[m], pre[m].classes) {
          assert pre[m] == ps[m];
        }
        RunWithoutArticles(pre);
        ApplyClassesWithoutItems(st, span, span.classes[..j]);
        ApplyClassesSnoc(st, span, span.classes, j);
        var e := if DiscountAmount(span).Err? then DiscountAmount(span).error else HtmlReceiptParse(OrphanDiscountMsg);
        assert StepClass(before.value, span, "discount") == Err(e);
        SpanErrorIsResult(id, date, store, spans, k, j + 1, e);
      }
    }
  }
}
