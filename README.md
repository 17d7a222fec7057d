# Lidl HTML receipt extraction, in Dafny

This project models the part of `lidl-to-grocy` that turns a Lidl digital
receipt page into a `ReceiptDetailed`: `parse_html_receipt` and `get_attr`
in `lidl/src/html_receipt.rs`. It also models the two pieces of logic on the
Lidl country list in `lidl/src/structs.rs`: `Country::get_default_language`
and `Display for Country`. Every model is proved against a specification.

The receipt page reaches the model as the spans the source's selector
`span[id^="purchase_list_line_"]` yields, in document order. Each `Span`
keeps four things:
- its `id`;
- its classes, in the order the HTML library yields them;
- its attributes, as a `map<string, string>`;
- its text nodes, in order.

`HtmlReceipt.ParseHtmlReceipt` is the source's loop, written as an
imperative method. It keeps `currency` and `items` locals. It skips a span
when the next span has the same id, because Lidl Germany wraps one line in
several spans. `HtmlReceipt.ProcessSpan` is the body of that loop, with its
own loop over the classes, and `HtmlReceipt.ProcessClass` is the body of
that inner loop. The methods return early on the first error.
Each is proved equal to a specification function:
- `HtmlReceipt.ReceiptOf` is a fold over the processed spans.
- `HtmlReceipt.ApplyClasses` folds over one span's classes.
- `HtmlReceipt.StepClass` is one arm of the source's `match class`.

The properties the parser promises are lemmas about `ReceiptOf`, in module
`HtmlReceiptProperties`:
- the last currency line wins;
- a missing currency is an error;
- there is one item per article line, in order;
- every discount is non-negative and none is lost;
- a discount line before any article aborts the parse.

Module `HtmlReceiptFixtures` checks the model against the source's two tests
(`lidl/src/html_receipt.rs:133-389`). The tests read HTML pages that are not
part of this model, so its spans are reconstructions that carry the values
the tests expect, and it covers a few lines of each test: the first two
Swedish items with their discounts, the Swedish item with two discounts, and
the first German item, whose line is wrapped in two spans.

Numbers are handled in module `Numbers`. The source writes
`s.replace(',', ".").parse::<f64>()`. The model reads numbers as exact
decimals (`real`) over the grammar Rust accepts for finite decimals: an
optional sign, digits with at most one '.', and an optional exponent. Module
`Text` holds the `str` operations the parser relies on:
- `char::is_whitespace`, over Unicode White_Space;
- `trim`;
- `split_whitespace().last()`;
- concatenation of text nodes.

Notes on what the source does:
- **Sub-line skip.** A sub-line skips only its own `article` class: the
  `continue` at `lidl/src/html_receipt.rs:44-46` continues the class loop.
  Other classes of the same span are still applied.
- **Quantity sign.** The quantity is not checked to be positive. Any number
  the parser accepts is kept, zero and negative numbers included.
- **Discount text.** The discount text is not trimmed before its last word
  is taken. `split_whitespace` makes that the same thing.
- **Error order in the discount branch.** A discount amount that does not
  parse is reported before a missing preceding article.

## Model

| member | source | states |
|---|---|---|
| HtmlReceipt.ParseHtmlReceipt | lidl/src/html_receipt.rs:7-117 | The loop over spans yields exactly the specification `ReceiptOf`. This covers the duplicate-id skip, the first error aborting, and the final currency check. |
| HtmlReceipt.ProcessSpan | lidl/src/html_receipt.rs:29-101 | The loop over one span's classes, which updates the currency and the item list in place, equals the class fold `ApplyClasses` from the state before the span. |
| HtmlReceipt.ProcessClass | lidl/src/html_receipt.rs:30-100 | One arm of the `match` on a class name: the new currency and item list, or the error the loop returns with, are exactly `StepClass` of the state before the class. |
| HtmlReceipt.GetAttr | lidl/src/html_receipt.rs:119-123 | Ok exactly when the attribute is present, holding its value. Otherwise the error is `HtmlReceiptParseMissingAttr` naming the attribute. |
| HtmlReceipt.ArticleQuantity | lidl/src/html_receipt.rs:56-67 | Without `data-art-quantity` the quantity is 1 and not a weight. With it, the result is Ok exactly when the value parses. The item is a weight exactly when the raw value contains a comma, whatever the number is. A parse failure gives "cannot parse quantity as float". |
| HtmlReceipt.ArticleItem | lidl/src/html_receipt.rs:48-77 | Ok exactly when the id, price and description attributes are present, the price parses and the quantity is acceptable. Errors come in the source's order: a missing id, a missing price, an unparsable price, a missing description, an unparsable quantity. On success the barcode is "lidl-" + id and the name is the description. Discounts are empty. Price and quantity are the parsed attribute values. |
| HtmlReceipt.DiscountAmount | lidl/src/html_receipt.rs:79-89 | Ok exactly when the concatenated text has a last word and that word parses. The amount is that number or its negation, and never negative. Otherwise the error is "cannot parse discount amount as float". |
| HtmlReceipt.AddDiscount | lidl/src/html_receipt.rs:91-92 | Only the last item changes, and it gains exactly one discount at the end of its list. |
| HtmlReceipt.StepClass | lidl/src/html_receipt.rs:30-100 | `currency` needs `data-currency` and sets the currency to the trimmed text with that symbol. A non-sub-line `article` appends exactly `ArticleItem`'s item or fails with its error. `discount` fails on a bad amount first, then on an empty item list ("found discount but there are no products before it"), and otherwise adds the amount to the last item. Other classes change nothing. |
| HtmlReceipt.ReceiptOf | lidl/src/html_receipt.rs:104-116 | A receipt carries the given id, date and store, with the currency and items the scan ended with. An error in the scan is the result. |
| HtmlReceipt.Finish | lidl/src/html_receipt.rs:104-116 | There is a receipt exactly when the scan succeeded with a currency. It carries the given id, date and store and the scan's currency and items. A failed scan passes its error through; a scan without a currency gives "could not find currency in receipt". |
| HtmlReceipt.Processed | lidl/src/html_receipt.rs:21-28 | The duplicate skip keeps spans of the input and adds none. The last span is always kept. No two neighbouring processed spans share an id. |
| HtmlReceipt.IsSubline | lidl/src/html_receipt.rs:37-43 | A sub-line's concatenated text starts with a white-space character. |
| HtmlReceipt.CurrencyFrom | lidl/src/html_receipt.rs:32-34 | The symbol is the `data-currency` value. The code is the span's concatenated text with exactly its leading and trailing white space removed: a slice that neither starts nor ends with white space, with only white space before and after it. |
| HtmlReceipt.ProcessedIdempotent | lidl/src/html_receipt.rs:21-28 | Skipping duplicates a second time changes nothing. |
| HtmlReceipt.ProcessedUpToIdentity | lidl/src/html_receipt.rs:21-28 | A span list with no adjacent repeated ids is processed unchanged. |
| HtmlReceipt.RunEnd | lidl/src/html_receipt.rs:21-28 | For each span, gives the last span of its run of equal ids. That span is kept, and every span before it in the run is skipped. |
| HtmlReceipt.LastOfRunIsProcessed | lidl/src/html_receipt.rs:21-28 | Every receipt line survives the skip. Of each run of spans with one id, the last one is processed and every earlier one is skipped. |
| HtmlReceipt.AbortsReceipt | lidl/src/html_receipt.rs:29-101 | An error inside a processed span is the result of the whole parse: a receipt is all or nothing. |
| HtmlReceiptProperties.CurrencyLastWins | lidl/src/html_receipt.rs:29-116 | Every receipt's currency comes from the last processed span with the class `currency`. When no span failed first, a receipt exists exactly when such a span exists, and without one the parse fails with "could not find currency in receipt". |
| HtmlReceiptProperties.ItemsFollowArticleLines | lidl/src/html_receipt.rs:36-77 | On success, the items with their discounts set aside are exactly the `ArticleItem` items of the processed non-sub-line `article` classes, in document order. Price, quantity, weight flag, name and barcode all match. |
| HtmlReceiptProperties.DiscountsAccounted | lidl/src/html_receipt.rs:79-97 | On success every discount is non-negative, and the receipt holds exactly one discount per `discount` class of the processed spans. |
| HtmlReceiptProperties.DiscountBeforeAnyArticleFails | lidl/src/html_receipt.rs:79-97 | A `discount` class met before any item exists makes the parse fail. Only sub-lines may carry `article` before it. If nothing failed before it, the error is the amount's parse error, or else "found discount but there are no products before it". |
| Numbers.ReplaceComma | lidl/src/html_receipt.rs:50 | Same length. Every comma becomes a period and nothing else changes. |
| Numbers.ParseF64Accepts | lidl/src/html_receipt.rs:50 | `parse::<f64>` on finite decimals succeeds exactly on an optional sign, digits with at most one '.' and at least one digit, and an optional exponent with digits. |
| Numbers.ParseLocaleAccepts | lidl/src/html_receipt.rs:49-53 | After the comma replacement, a string is accepted exactly when it has that shape with ',' or '.' as its one decimal point. |
| Numbers.TwoPointsRejected | lidl/src/html_receipt.rs:50 | "1,2,3" is rejected. |
| Numbers.LonePointRejected | lidl/src/html_receipt.rs:50 | "," is rejected. |
| Numbers.LoneSignRejected | lidl/src/html_receipt.rs:50 | "-" is rejected. |
| Numbers.EmptyExponentRejected | lidl/src/html_receipt.rs:50 | "1e" is rejected. |
| Numbers.ParseLocaleDecimal | lidl/src/html_receipt.rs:61-64 | "int,frac" parses to the value int.frac, "-int,frac" to its negation, and "int" to its integer value. |
| Numbers.NatToStringParses | lidl/src/html_receipt.rs:50 | Round trip: the decimal digits of a natural number parse back to that number. |
| Numbers.Abs | lidl/src/html_receipt.rs:89 | The result is non-negative and is the input or its negation. |
| Text.Trim | lidl/src/html_receipt.rs:33 | The result is a slice of the input, with only white space cut at each end. It is empty or starts and ends with a character that is not white space. |
| Text.LastToken | lidl/src/html_receipt.rs:83-84 | None exactly when the text is all white space. Otherwise it is the last maximal run of non-white-space characters: preceded by white space or the start, followed only by white space. |
| Text.LastTokenOfWord | lidl/src/html_receipt.rs:83-84 | A word without white space, after white space or at the start, is the last word of the text. |
| Text.TrimIdempotent | lidl/src/html_receipt.rs:33 | Trimming twice is trimming once. |
| Text.Concat | lidl/src/html_receipt.rs:80-82 | The text of a span is its first text node followed by the text of the rest. |
| Structs.FindActive | lidl/src/structs.rs:16-19 | Some exactly when a language is active. The value is an element of the list that is active, and no element before it is active. |
| Structs.GetDefaultLanguage | lidl/src/structs.rs:15-20 | The country's default language is its first active language, and there is none when no language is active. |
| Structs.ChoiceDependsOnlyOnActiveFlags | lidl/src/structs.rs:15-20 | Two language lists with the same active flags pick a language at the same position. Other fields, the `default` flag among them, play no part. |
| Structs.Display | lidl/src/structs.rs:23-27 | The text is the id, then " - ", then the default name. |
| Structs.DisplayDeterminesIdAndName | lidl/src/structs.rs:23-27 | For ids without blanks, equal display texts mean equal ids and equal names. |
| HtmlReceiptFixtures.RunSubline | lidl/src/html_receipt.rs:37-46 | A sub-line span in the middle of a run leaves the scan unchanged, whatever attributes it lacks. |
| HtmlReceiptFixtures.ArticleThenDiscount | lidl/src/html_receipt.rs:91-92 | A currency line, an article line and a discount line give that currency and the article with the discount appended. |
| HtmlReceiptFixtures.TwoArticlesWithDiscounts | lidl/src/html_receipt.rs:36-97 | With two articles, each followed by a discount line and the second also by a sub-line, each discount stays on the article just above it. |
| HtmlReceiptFixtures.ArticleThenTwoDiscounts | lidl/src/html_receipt.rs:91-92 | Two discount lines after one article both attach to it, in order. |
| HtmlReceiptFixtures.GrytbitarArticle | lidl/src/html_receipt.rs:156-163 | The article "Grytbitar" with price "79,9" and quantity "2" is 2 units at 79.9, not weighed, with barcode "lidl-0051496". |
| HtmlReceiptFixtures.FlaskfarsArticle | lidl/src/html_receipt.rs:164-171 | "Fläskfärs 20%" with quantity "0,957" is a weight of 0.957 at 67.9, with barcode "lidl-7006839". |
| HtmlReceiptFixtures.MissingQuantityIsOneUnit | lidl/src/html_receipt.rs:172-179 | "Lufttorkad skinka" has no quantity attribute, so it is one unit at 44.9, not weighed. |
| HtmlReceiptFixtures.SotpotatisArticle | lidl/src/html_receipt.rs:244-249 | "Sötpotatis, lösvikt" with quantity "0,472" is a weight of 0.472 at 29.9. |
| HtmlReceiptFixtures.GrytbitarRabattAmount | lidl/src/html_receipt.rs:162 | The discount line "Lidl Plus rabatt -7,92" gives the amount 7.92. |
| HtmlReceiptFixtures.SwedishReceiptStart | lidl/src/html_receipt.rs:156-171 | Currency, Grytbitar, its discount, Fläskfärs, its weight sub-line and its discount give a receipt in SEK whose items are Grytbitar discounted 7.92 and Fläskfärs discounted 3.22. |
| HtmlReceiptFixtures.TwoDiscountsOneItem | lidl/src/html_receipt.rs:244-251 | A currency line, Sötpotatis and the discount lines "-2,83" and "-0,56" give a receipt in SEK whose one item is Sötpotatis with the discounts 2.83 and 0.56, in that order. |
| HtmlReceiptFixtures.DuplicateSpanSkipped | lidl/src/html_receipt.rs:21-28 | A wrapper span lacks the article attributes and is followed by a span with its id. That wrapper is dropped. |
| HtmlReceiptFixtures.DuplicateSpansReceipt | lidl/src/html_receipt.rs:318-328 | A euro currency line, the Cherrystrauchtomaten line wrapped in two spans and its discount line give a receipt in EUR with symbol "€", whose one item is Cherrystrauchtomaten at 2.99, one unit, barcode "lidl-0082388", discounted 1.00. |
| HtmlReceiptFixtures.MissingCurrencyReceipt | lidl/src/html_receipt.rs:104-116 | A well-formed article line (Grytbitar) without a currency line gives "could not find currency in receipt". |

## Left out

- Scope:
  - HTML parsing and the CSS selector (`scraper`) are not modelled. The model starts from the selected spans. It takes their class list in the order the HTML library yields it, their attributes, and their text nodes in document order. No particular order of the classes is assumed: every property holds for any class sequence.
  - The rest of the repository is not part of this model. That covers JSON receipt normalisation, the price reconciliation and purchase logic, the OAuth and network client, configuration, the prompts and the command line.
  - The OAuth variants of `Error` and the `ReceiptSummary` type are not part of this model, because nothing in the modelled core produces or reads them.
  - `NaiveDateTime` is an opaque timestamp that the parser only passes through.
- Floating point:
  - Numbers are exact decimals, not IEEE-754 doubles. Rounding to the nearest `f64` is not modelled, and neither are the spellings `inf`, `infinity` and `nan`, which `parse::<f64>` also accepts.
  - `Numbers.ParseLocale`: accepts the same finite decimals as `parse::<f64>`, but without rounding them to the nearest double.
- Test coverage:
  - `HtmlReceiptFixtures.DuplicateSpansReceipt`: covers the currency and the first of the seven items the German test expects (`lidl/src/html_receipt.rs:318-383`). The test's HTML page is not part of this model, so the spans are reconstructed and the other six lines are not.
  - `HtmlReceiptFixtures.SwedishReceiptStart`: covers the first two of the sixteen items the Swedish test expects (`lidl/src/html_receipt.rs:152-291`), for the same reason. Lufttorkad skinka and Sötpotatis are covered by their own lemmas.
- Structure of the loop:
  - `HtmlReceipt.ProcessSpan` and `HtmlReceipt.ProcessClass`: the source writes the body of its span loop and the `match` on a class name inline. Here each is a method of its own, with the same early returns.
  - The spans are a sequence rather than the selector's peekable iterator. Looking at the next span is an index lookup.
