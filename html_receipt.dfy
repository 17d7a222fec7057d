/**
 * The HTML receipt extractor of the Lidl client (lidl/src/html_receipt.rs).
 *
 * The HTML document is not parsed here: the input is the sequence of `span`
 * elements whose id starts with `purchase_list_line_`, in document order,
 * as the HTML library's selector yields them. The extractor walks them once,
 * skips a span whose successor carries the same id, dispatches on each
 * class of a span, and either returns a whole receipt or fails.
 *
 * `ReceiptOf` is the specification: a fold over the processed spans, each
 * span a fold over its classes. `ParseHtmlReceipt` is the loop of the
 * source, proved equal to it; the lemmas state what the specification
 * promises.
 */
module HtmlReceipt {
  import opened Wrappers
  import opened Ir
  import opened LidlError
  import opened Text
  import opened Numbers

  /**
   * One selected `span`: its id, its classes in the order the HTML library
   * lists them, its attributes, and its descendant text nodes in document order.
   */
  datatype Span = Span(id: string, classes: seq<string>, attrs: map<string, string>, texts: seq<string>)

  const CurrencyAttr := "data-currency"
  const ArticleIdAttr := "data-art-id"
  const UnitPriceAttr := "data-unit-price"
  const DescriptionAttr := "data-art-description"
  const QuantityAttr := "data-art-quantity"

  /** Every HTML barcode is the article id behind this prefix. */
  const BarcodePrefix := "lidl-"

  const UnitPriceMsg := "cannot parse unit price as float"
  const QuantityMsg := "cannot parse quantity as float"
  const DiscountMsg := "cannot parse discount amount as float"
  const OrphanDiscountMsg := "found discount but there are no products before it"
  const NoCurrencyMsg := "could not find currency in receipt"

  /** `get_attr`: the attribute's value, or the missing-attribute error naming it. */
  function GetAttr(span: Span, name: string): (r: Result<string, Error>)
    ensures r.Ok? <==> name in span.attrs
    ensures r.Ok? ==> r.value == span.attrs[name]
    ensures r.Err? ==> r.error == HtmlReceiptParseMissingAttr(name)
  {
    if name in span.attrs then Ok(span.attrs[name]) else Err(HtmlReceiptParseMissingAttr(name))
  }

  // ---------------------------------------------------------------------
  // Duplicate spans
  // ---------------------------------------------------------------------

  /** The span at index `i` is processed unless the span right after it has the same id. */
  predicate Kept(spans: seq<Span>, i: nat)
    requires i < |spans|
  {
    i + 1 == |spans| || spans[i + 1].id != spans[i].id
  }

  /** The processed spans among the first `n`, in document order. */
  function ProcessedUpTo(spans: seq<Span>, n: nat): seq<Span>
    requires n <= |spans|
  {
    if n == 0 then []
    else ProcessedUpTo(spans, n - 1) + (if Kept(spans, n - 1) then [spans[n - 1]] else [])
  }

  /**
   * The spans the loop gets to dispatch on: each span unless the next one
   * has the same id. The last span is always processed, every processed
   * span is one of the input's, and no two neighbours share an id.
   */
  function Processed(spans: seq<Span>): (ps: seq<Span>)
    ensures |ps| <= |spans|
    ensures forall k :: 0 <= k < |ps| ==> ps[k] in spans
    ensures spans != [] ==> ps != [] && ps[|ps| - 1] == spans[|spans| - 1]
    ensures NoAdjacentRepeats(ps)
  {
    ProcessedUpToNoRepeats(spans, |spans|);
    ProcessedUpToFromInput(spans, |spans|);
    ProcessedUpTo(spans, |spans|)
  }

  lemma {:induction false} ProcessedUpToFromInput(spans: seq<Span>, n: nat)
    requires n <= |spans|
    ensures |ProcessedUpTo(spans, n)| <= n
    ensures forall k :: 0 <= k < |ProcessedUpTo(spans, n)| ==> ProcessedUpTo(spans, n)[k] in spans[..n]
  {
    if n > 0 {
      ProcessedUpToFromInput(spans, n - 1);
      var prev := ProcessedUpTo(spans, n - 1);
      var ps := ProcessedUpTo(spans, n);
      forall k | 0 <= k < |ps| ensures ps[k] in spans[..n] {
        if k < |prev| {
          assert ps[k] == prev[k] && prev[k] in spans[..n - 1];
          assert spans[..n - 1] == spans[..n][..n - 1];
        } else {
          assert ps[k] == spans[n - 1] == spans[..n][n - 1];
        }
      }
    }
  }

  predicate NoAdjacentRepeats(ps: seq<Span>)
  {
    forall j :: 0 < j < |ps| ==> ps[j - 1].id != ps[j].id
  }

  lemma {:induction false} ProcessedUpToNoRepeats(spans: seq<Span>, n: nat)
    requires n <= |spans|
    ensures NoAdjacentRepeats(ProcessedUpTo(spans, n))
    ensures var ps := ProcessedUpTo(spans, n);
            ps != [] && n < |spans| ==> ps[|ps| - 1].id != spans[n].id
  {
    if n > 0 {
      ProcessedUpToNoRepeats(spans, n - 1);
      var prev := ProcessedUpTo(spans, n - 1);
      if Kept(spans, n - 1) {
        var ps := prev + [spans[n - 1]];
        assert ProcessedUpTo(spans, n) == ps;
        forall j | 0 < j < |ps| ensures ps[j - 1].id != ps[j].id {
          if j < |prev| {
            assert ps[j - 1] == prev[j - 1] && ps[j] == prev[j];
          } else {
            assert ps[j - 1] == prev[|prev| - 1] && ps[j] == spans[n - 1];
          }
        }
      } else {
        assert ProcessedUpTo(spans, n) == prev;
      }
    }
  }

  lemma {:induction false} ProcessedUpToIdentity(spans: seq<Span>, n: nat)
    requires n <= |spans| && NoAdjacentRepeats(spans)
    ensures ProcessedUpTo(spans, n) == spans[..n]
  {
    if n > 0 {
      ProcessedUpToIdentity(spans, n - 1);
      assert spans[..n] == spans[..n - 1] + [spans[n - 1]];
    }
  }

  /** Skipping duplicates is idempotent: a second pass skips nothing. */
  lemma ProcessedIdempotent(spans: seq<Span>)
    ensures Processed(Processed(spans)) == Processed(spans)
  {
    var ps := Processed(spans);
    ProcessedUpToIdentity(ps, |ps|);
    assert ps[..|ps|] == ps;
  }

  lemma {:induction false} KeptIsProcessed(spans: seq<Span>, i: nat, n: nat)
    requires i < n <= |spans| && Kept(spans, i)
    ensures spans[i] in ProcessedUpTo(spans, n)
  {
    if i < n - 1 {
      KeptIsProcessed(spans, i, n - 1);
    }
  }

  /** The index of the last span of the run of equal ids that contains span `i`. */
  function RunEnd(spans: seq<Span>, i: nat): (k: nat)
    requires i < |spans|
    ensures i <= k < |spans| && Kept(spans, k) && spans[k].id == spans[i].id
    ensures forall m :: i <= m < k ==> spans[m].id == spans[i].id && !Kept(spans, m)
    decreases |spans| - i
  {
    if Kept(spans, i) then i else RunEnd(spans, i + 1)
  }

  /**
   * Every receipt line survives: for each span, the last span of the run of
   * equal ids it starts (the authoritative one) is processed, and every span
   * of the run before it is skipped.
   */
  lemma LastOfRunIsProcessed(spans: seq<Span>, i: nat)
    requires i < |spans|
    ensures exists k :: i <= k < |spans| && Kept(spans, k) && spans[k].id == spans[i].id
                        && spans[k] in Processed(spans)
                        && forall m :: i <= m < k ==> spans[m].id == spans[i].id && !Kept(spans, m)
  {
    var k := RunEnd(spans, i);
    KeptIsProcessed(spans, k, |spans|);
  }

  // ---------------------------------------------------------------------
  // One class of one span
  // ---------------------------------------------------------------------

  /** What the scan has gathered so far: the `currency` and `items` locals of the source. */
  datatype Scan = Scan(currency: Option<Currency>, items: seq<ReceiptItem>)

  const Start := Scan(None, [])

  /** A continuation line of the previous article: its first text node starts with white space. */
  predicate IsSubline(span: Span)
    ensures IsSubline(span) ==> |Concat(span.texts)| > 0 && IsWhitespace(Concat(span.texts)[0])
  {
    |span.texts| > 0 && |span.texts[0]| > 0 && IsWhitespace(span.texts[0][0])
  }

  /** The currency a `currency` span stands for, once its symbol attribute is known to be present. */
  function CurrencyFrom(span: Span): (c: Currency)
    requires CurrencyAttr in span.attrs
    ensures c.symbol == span.attrs[CurrencyAttr]
    ensures exists a, b :: 0 <= a <= b <= |Concat(span.texts)| && c.id == Concat(span.texts)[a..b]
                           && AllWhitespace(Concat(span.texts)[..a]) && AllWhitespace(Concat(span.texts)[b..])
    ensures c.id == [] || (!IsWhitespace(c.id[0]) && !IsWhitespace(c.id[|c.id| - 1]))
  {
    Currency(Trim(Concat(span.texts)), span.attrs[CurrencyAttr])
  }

  /** Quantity and weight flag of an article: 1 and not weighed without the attribute. */
  function ArticleQuantity(span: Span): (r: Result<(real, bool), Error>)
    ensures QuantityAttr !in span.attrs ==> r == Ok((1.0, false))
    ensures QuantityAttr in span.attrs ==>
              (r.Ok? <==> ParseLocale(span.attrs[QuantityAttr]).Some?)
              && (r.Ok? ==> Some(r.value.0) == ParseLocale(span.attrs[QuantityAttr])
                            && (r.value.1 <==> ',' in span.attrs[QuantityAttr]))
              && (r.Err? ==> r.error == HtmlReceiptParse(QuantityMsg))
  {
    if QuantityAttr !in span.attrs then Ok((1.0, false))
    else
      var raw := span.attrs[QuantityAttr];
      match ParseLocale(raw)
      case None => Err(HtmlReceiptParse(QuantityMsg))
      case Some(q) => Ok((q, ',' in raw))
  }

  /** The item an `article` span describes, or the first error met in the order the source looks. */
  function ArticleItem(span: Span): (r: Result<ReceiptItem, Error>)
    ensures r.Ok? <==> ArticleIdAttr in span.attrs && UnitPriceAttr in span.attrs
                       && ParseLocale(span.attrs[UnitPriceAttr]).Some? && DescriptionAttr in span.attrs
                       && ArticleQuantity(span).Ok?
    ensures ArticleIdAttr !in span.attrs ==> r == Err(HtmlReceiptParseMissingAttr(ArticleIdAttr))
    ensures ArticleIdAttr in span.attrs && UnitPriceAttr !in span.attrs ==>
              r == Err(HtmlReceiptParseMissingAttr(UnitPriceAttr))
    ensures ArticleIdAttr in span.attrs && UnitPriceAttr in span.attrs
            && ParseLocale(span.attrs[UnitPriceAttr]).None? ==>
              r == Err(HtmlReceiptParse(UnitPriceMsg))
    ensures ArticleIdAttr in span.attrs && UnitPriceAttr in span.attrs
            && ParseLocale(span.attrs[UnitPriceAttr]).Some? && DescriptionAttr !in span.attrs ==>
              r == Err(HtmlReceiptParseMissingAttr(DescriptionAttr))
    ensures ArticleIdAttr in span.attrs && UnitPriceAttr in span.attrs
            && ParseLocale(span.attrs[UnitPriceAttr]).Some? && DescriptionAttr in span.attrs
            && QuantityAttr in span.attrs && ParseLocale(span.attrs[QuantityAttr]).None? ==>
              r == Err(HtmlReceiptParse(QuantityMsg))
    ensures r.Ok? ==>
              ArticleIdAttr in span.attrs && UnitPriceAttr in span.attrs && DescriptionAttr in span.attrs
              && r.value.barcode == BarcodePrefix + span.attrs[ArticleIdAttr]
              && r.value.name == span.attrs[DescriptionAttr]
              && r.value.discounts == []
              && ParseLocale(span.attrs[UnitPriceAttr]) == Some(r.value.unitPrice)
              && (QuantityAttr !in span.attrs ==> r.value.quantity == 1.0 && !r.value.isWeight)
              && (QuantityAttr in span.attrs ==>
                    ParseLocale(span.attrs[QuantityAttr]) == Some(r.value.quantity)
                    && (r.value.isWeight <==> ',' in span.attrs[QuantityAttr]))
  {
    match GetAttr(span, ArticleIdAttr)
    case Err(e) => Err(e)
    case Ok(id) =>
      match GetAttr(span, UnitPriceAttr)
      case Err(e) => Err(e)
      case Ok(price) =>
        match ParseLocale(price)
        case None => Err(HtmlReceiptParse(UnitPriceMsg))
        case Some(unitPrice) =>
          match GetAttr(span, DescriptionAttr)
          case Err(e) => Err(e)
          case Ok(name) =>
            match ArticleQuantity(span)
            case Err(e) => Err(e)
            case Ok((quantity, isWeight)) =>
              Ok(ReceiptItem(unitPrice, quantity, isWeight, name, BarcodePrefix + id, []))
  }

  /** The amount of a `discount` span: the last word of its text, read as a number, made non-negative. */
  function DiscountAmount(span: Span): (r: Result<real, Error>)
    ensures r.Ok? <==> LastToken(Concat(span.texts)).Some? && ParseLocale(LastToken(Concat(span.texts)).value).Some?
    ensures r.Ok? ==> r.value >= 0.0
    ensures r.Ok? ==> var v := ParseLocale(LastToken(Concat(span.texts)).value).value;
                      r.value == v || r.value == -v
    ensures r.Err? ==> r.error == HtmlReceiptParse(DiscountMsg)
  {
    match LastToken(Concat(span.texts))
    case None => Err(HtmlReceiptParse(DiscountMsg))
    case Some(word) =>
      match ParseLocale(word)
      case None => Err(HtmlReceiptParse(DiscountMsg))
      case Some(v) => Ok(Abs(v))
  }

  /** `items.last_mut()` gets one more discount; nothing else changes. */
  function AddDiscount(items: seq<ReceiptItem>, amount: real): (r: seq<ReceiptItem>)
    requires items != []
    ensures |r| == |items|
    ensures r[..|r| - 1] == items[..|items| - 1]
    ensures var last := items[|items| - 1];
            r[|r| - 1] == last.(discounts := last.discounts + [Discount(amount)])
  {
    var last := items[|items| - 1];
    items[..|items| - 1] + [last.(discounts := last.discounts + [Discount(amount)])]
  }

  /** One arm of the `match class` in the source, applied to the scan so far. */
  function StepClass(st: Scan, span: Span, cls: string): (r: Result<Scan, Error>)
    ensures cls !in {"currency", "article", "discount"} ==> r == Ok(st)
    ensures cls == "currency" ==>
              (r.Ok? <==> CurrencyAttr in span.attrs)
              && (r.Ok? ==> r.value == st.(currency := Some(CurrencyFrom(span))))
              && (r.Err? ==> r.error == HtmlReceiptParseMissingAttr(CurrencyAttr))
    ensures cls == "article" && IsSubline(span) ==> r == Ok(st)
    ensures cls == "article" && !IsSubline(span) ==>
              (r.Ok? <==> ArticleItem(span).Ok?)
              && (r.Ok? ==> r.value == st.(items := st.items + [ArticleItem(span).value]))
              && (r.Err? ==> r.error == ArticleItem(span).error)
    ensures cls == "discount" ==>
              (r.Ok? <==> DiscountAmount(span).Ok? && st.items != [])
              && (r.Ok? ==> r.value.currency == st.currency
                            && r.value.items == AddDiscount(st.items, DiscountAmount(span).value))
    ensures cls == "discount" && DiscountAmount(span).Err? ==> r == Err(DiscountAmount(span).error)
    ensures cls == "discount" && DiscountAmount(span).Ok? && st.items == [] ==>
              r == Err(HtmlReceiptParse(OrphanDiscountMsg))
  {
    if cls == "currency" then
      match GetAttr(span, CurrencyAttr)
      case Err(e) => Err(e)
      case Ok(_) => Ok(st.(currency := Some(CurrencyFrom(span))))
    else if cls == "article" then
      if IsSubline(span) then Ok(st)
      else
        match ArticleItem(span)
        case Err(e) => Err(e)
        case Ok(item) => Ok(st.(items := st.items + [item]))
    else if cls == "discount" then
      match DiscountAmount(span)
      case Err(e) => Err(e)
      case Ok(amount) =>
        if st.items == [] then Err(HtmlReceiptParse(OrphanDiscountMsg))
        else Ok(st.(items := AddDiscount(st.items, amount)))
    else
      Ok(st)
  }

  // ---------------------------------------------------------------------
  // The specification: folds over classes and over spans
  // ---------------------------------------------------------------------

  /** The classes `cs` of one span, applied in order; the first error ends the span. */
  function ApplyClasses(st: Scan, span: Span, cs: seq<string>): Result<Scan, Error>
  {
    if cs == [] then Ok(st)
    else
      match ApplyClasses(st, span, cs[..|cs| - 1])
      case Err(e) => Err(e)
      case Ok(s) => StepClass(s, span, cs[|cs| - 1])
  }

  /** The processed spans `ps`, in order, starting with no currency and no items. */
  function Run(ps: seq<Span>): Result<Scan, Error>
  {
    if ps == [] then Ok(Start)
    else
      match Run(ps[..|ps| - 1])
      case Err(e) => Err(e)
      case Ok(s) => ApplyClasses(s, ps[|ps| - 1], ps[|ps| - 1].classes)
  }

  /** The final check: without a currency there is no receipt. */
  function Finish(id: string, date: NaiveDateTime, store: Store, scan: Result<Scan, Error>): (r: Result<ReceiptDetailed, Error>)
    ensures r.Ok? <==> scan.Ok? && scan.value.currency.Some?
    ensures r.Ok? ==> r.value.id == id && r.value.date == date && r.value.store == store
    ensures r.Ok? ==> scan == Ok(Scan(Some(r.value.currency), r.value.items))
    ensures scan.Err? ==> r == Err(scan.error)
    ensures scan.Ok? && scan.value.currency.None? ==> r == Err(HtmlReceiptParse(NoCurrencyMsg))
  {
    match scan
    case Err(e) => Err(e)
    case Ok(Scan(None, _)) => Err(HtmlReceiptParse(NoCurrencyMsg))
    case Ok(Scan(Some(currency), items)) => Ok(ReceiptDetailed(id, items, date, currency, store))
  }

  /** What `parse_html_receipt` returns for these inputs. */
  function ReceiptOf(id: string, date: NaiveDateTime, store: Store, spans: seq<Span>): (r: Result<ReceiptDetailed, Error>)
    ensures r.Ok? ==> r.value.id == id && r.value.date == date && r.value.store == store
    ensures r.Ok? ==> Run(Processed(spans)) == Ok(Scan(Some(r.value.currency), r.value.items))
    ensures Run(Processed(spans)).Err? ==> r == Err(Run(Processed(spans)).error)
  {
    Finish(id, date, store, Run(Processed(spans)))
  }

  // ---------------------------------------------------------------------
  // The loop of the source
  // ---------------------------------------------------------------------

  lemma {:induction false} ApplyClassesErrPersists(st: Scan, span: Span, cs: seq<string>, k: nat, e: Error)
    requires k <= |cs| && ApplyClasses(st, span, cs[..k]) == Err(e)
    ensures ApplyClasses(st, span, cs) == Err(e)
  {
    if k < |cs| {
      assert cs[..|cs| - 1][..k] == cs[..k];
      ApplyClassesErrPersists(st, span, cs[..|cs| - 1], k, e);
    } else {
      assert cs[..k] == cs;
    }
  }

  lemma RunSnoc(ps: seq<Span>, span: Span)
    ensures Run(ps + [span]) == match Run(ps)
                                case Err(e) => Err(e)
                                case Ok(s) => ApplyClasses(s, span, span.classes)
  {
    assert (ps + [span])[..|ps|] == ps;
  }

  lemma ApplyClassesSnoc(st: Scan, span: Span, cs: seq<string>, j: nat)
    requires j < |cs|
    ensures ApplyClasses(st, span, cs[..j + 1]) == match ApplyClasses(st, span, cs[..j])
                                                   case Err(e) => Err(e)
                                                   case Ok(s) => StepClass(s, span, cs[j])
  {
    assert cs[..j + 1][..j] == cs[..j];
  }

  /** A class that succeeds extends the fold by one step. */
  lemma ApplyClassesOk(st0: Scan, span: Span, cs: seq<string>, j: nat, st: Scan, st': Scan)
    requires j < |cs| && ApplyClasses(st0, span, cs[..j]) == Ok(st) && StepClass(st, span, cs[j]) == Ok(st')
    ensures ApplyClasses(st0, span, cs[..j + 1]) == Ok(st')
  {
    ApplyClassesSnoc(st0, span, cs, j);
  }

  /** A class that fails makes the whole fold fail with its error. */
  lemma ApplyClassesFails(st0: Scan, span: Span, cs: seq<string>, j: nat, st: Scan, e: Error)
    requires j < |cs| && ApplyClasses(st0, span, cs[..j]) == Ok(st) && StepClass(st, span, cs[j]) == Err(e)
    ensures ApplyClasses(st0, span, cs) == Err(e)
  {
    ApplyClassesSnoc(st0, span, cs, j);
    ApplyClassesErrPersists(st0, span, cs, j + 1, e);
  }

  lemma ProcessedUpToSkip(spans: seq<Span>, n: nat)
    requires n < |spans| && !Kept(spans, n)
    ensures ProcessedUpTo(spans, n + 1) == ProcessedUpTo(spans, n)
  {
    assert ProcessedUpTo(spans, n) + [] == ProcessedUpTo(spans, n);
  }

  lemma {:induction false} RunErrPersists(spans: seq<Span>, n: nat, m: nat, e: Error)
    requires n <= m <= |spans| && Run(ProcessedUpTo(spans, n)) == Err(e)
    ensures Run(ProcessedUpTo(spans, m)) == Err(e)
    decreases m
  {
    if n < m {
      RunErrPersists(spans, n, m - 1, e);
      if Kept(spans, m - 1) {
        RunSnoc(ProcessedUpTo(spans, m - 1), spans[m - 1]);
      } else {
        ProcessedUpToSkip(spans, m - 1);
      }
    }
  }

  /** An error inside a kept span is the result of the whole parse. */
  lemma AbortsReceipt(id: string, date: NaiveDateTime, store: Store, spans: seq<Span>, i: nat, e: Error)
    requires i < |spans| && Kept(spans, i)
    requires Run(ProcessedUpTo(spans, i)).Ok?
    requires ApplyClasses(Run(ProcessedUpTo(spans, i)).value, spans[i], spans[i].classes) == Err(e)
    ensures ReceiptOf(id, date, store, spans) == Err(e)
  {
    RunSnoc(ProcessedUpTo(spans, i), spans[i]);
    RunErrPersists(spans, i + 1, |spans|, e);
  }

  // The arms of `StepClass` that succeed, one at a time

  lemma StepCurrency(st: Scan, span: Span)
    requires CurrencyAttr in span.attrs
    ensures StepClass(st, span, "currency") == Ok(st.(currency := Some(CurrencyFrom(span))))
  {
  }

  lemma StepArticle(st: Scan, span: Span, item: ReceiptItem)
    requires !IsSubline(span) && ArticleItem(span) == Ok(item)
    ensures StepClass(st, span, "article") == Ok(st.(items := st.items + [item]))
  {
  }

  lemma StepSubline(st: Scan, span: Span)
    requires IsSubline(span)
    ensures StepClass(st, span, "article") == Ok(st)
  {
  }

  lemma StepOther(st: Scan, span: Span, cls: string)
    requires cls != "currency" && cls != "article" && cls != "discount"
    ensures StepClass(st, span, cls) == Ok(st)
  {
  }

  lemma StepDiscount(st: Scan, span: Span, amount: real)
    requires DiscountAmount(span) == Ok(amount) && st.items != []
    ensures StepClass(st, span, "discount") == Ok(st.(items := AddDiscount(st.items, amount)))
  {
  }

  /**
   * One arm of the `match` on a class name in the span loop of
   * `parse_html_receipt`: the new currency and item list, or the error the
   * loop returns early with.
   */
  method ProcessClass(span: Span, cls: string, currency0: Option<Currency>, items0: seq<ReceiptItem>)
    returns (r: Result<Scan, Error>)
    ensures r == StepClass(Scan(currency0, items0), span, cls)
  {
    var currency, items := currency0, items0;
    if cls == "currency" {
      var symbol := GetAttr(span, CurrencyAttr);
      if symbol.Err? {
        return Err(symbol.error);
      }
      StepCurrency(Scan(currency0, items0), span);
      currency := Some(Currency(Trim(Concat(span.texts)), symbol.value));
      assert currency == Some(CurrencyFrom(span));
    } else if cls == "article" {
      if !IsSubline(span) {
        var item := ArticleItem(span);
        if item.Err? {
          return Err(item.error);
        }
        StepArticle(Scan(currency0, items0), span, item.value);
        items := items + [item.value];
      } else {
        StepSubline(Scan(currency0, items0), span);
      }
    } else if cls == "discount" {
      var amount := DiscountAmount(span);
      if amount.Err? {
        return Err(amount.error);
      }
      if items == [] {
        return Err(HtmlReceiptParse(OrphanDiscountMsg));
      }
      StepDiscount(Scan(currency0, items0), span, amount.value);
      var last := items[|items| - 1];
      var discounted := items[..|items| - 1] + [last.(discounts := last.discounts + [Discount(amount.value)])];
      assert discounted == AddDiscount(items, amount.value);
      items := discounted;
    } else {
      StepOther(Scan(currency0, items0), span, cls);
    }
    r := Ok(Scan(currency, items));
  }

  /**
   * The body of the span loop of `parse_html_receipt`: every class of the
   * span in turn, updating the currency and the item list in place, with an
   * early return on the first error.
   */
  method ProcessSpan(span: Span, currency0: Option<Currency>, items0: seq<ReceiptItem>)
    returns (r: Result<Scan, Error>)
    ensures r == ApplyClasses(Scan(currency0, items0), span, span.classes)
  {
    var currency, items := currency0, items0;
    var j := 0;
    while j < |span.classes|
      invariant 0 <= j <= |span.classes|
      invariant ApplyClasses(Scan(currency0, items0), span, span.classes[..j]) == Ok(Scan(currency, items))
    {
      var step := ProcessClass(span, span.classes[j], currency, items);
      if step.Err? {
        r := Err(step.error);
        ApplyClassesFails(Scan(currency0, items0), span, span.classes, j, Scan(currency, items), r.error);
        return;
      }
      ApplyClassesOk(Scan(currency0, items0), span, span.classes, j, Scan(currency, items), step.value);
      currency, items := step.value.currency, step.value.items;
      j := j + 1;
    }
    assert span.classes[..|span.classes|] == span.classes;
    r := Ok(Scan(currency, items));
  }

  /**
   * `parse_html_receipt`: one pass over the spans with a one-span lookahead
   * that skips a span followed by one with the same id, then the final
   * currency check.
   */
  method ParseHtmlReceipt(id: string, date: NaiveDateTime, store: Store, spans: seq<Span>)
    returns (r: Result<ReceiptDetailed, Error>)
    ensures r == ReceiptOf(id, date, store, spans)
  {
    var currency: Option<Currency> := None;
    var items: seq<ReceiptItem> := [];
    var i := 0;
    while i < |spans|
      invariant 0 <= i <= |spans|
      invariant Run(ProcessedUpTo(spans, i)) == Ok(Scan(currency, items))
    {
      var span := spans[i];
      if i + 1 < |spans| && spans[i + 1].id == span.id {
        // another span with the same id follows: it wraps the same line, skip this one
        ProcessedUpToSkip(spans, i);
        i := i + 1;
        continue;
      }
      var next := ProcessSpan(span, currency, items);
      if next.Err? {
        r := Err(next.error);
        AbortsReceipt(id, date, store, spans, i, next.error);
        return;
      }
      RunSnoc(ProcessedUpTo(spans, i), span);
      currency, items := next.value.currency, next.value.items;
      i := i + 1;
    }
    if currency.Some? {
      r := Ok(ReceiptDetailed(id, items, date, currency.value, store));
    } else {
      r := Err(HtmlReceiptParse(NoCurrencyMsg));
    }
  }
}
