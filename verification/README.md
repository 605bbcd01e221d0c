# Article and client management frontend — a Dafny model of its record logic

This project models the client-side record logic of a small React
frontend for managing articles (products with a reference, designation,
safety stock, purchase and selling prices, VAT rate and image) and clients
(last name, e-mail, phone, address, "état" and ICE). What is modelled is
the code that decides things, stated as pure functions over immutable
datatypes:

- the article utilities (`articleUtils`): the full validator, the reference
  format and its generator, prices with VAT, margins, stock status, sorting,
  searching, CSV export, statistics and sanitising (`article_utils.dfy`,
  `article_lists.dfy`);
- the two article forms, the current one and the older one under
  `src/Article/`, each with its validator, request body, address and
  method choice, error classification, submit and typing rules
  (`article_form.dfy`, `legacy_article_form.dfy`);
- the article service's failure classifier and the `{success, data,
  message}` wrapping of each call (`article_service.dfy`);
- the article page's loading, local delete, form success and cancel, and
  delete dialog (`article_page.dfy`);
- the article view's derived figures and the filters and totals of the
  article table and stats cards (`article_view.dfy`, `article_table.dfy`,
  `article_stats.dfy`);
- the client form, the client table and stats cards, and the `useClients`
  cache (`client_form.dfy`, `client_lists.dfy`, `use_clients.dfy`);
- the mock client data with its search and sort (`mock_data.dfy`);
- the shared API helpers: the bearer-token interceptor and
  `handleError` / `formatError` (`api_utils.dfy`);
- the login page's e-mail and password checks, input sanitising, live
  validation and submit (`login_page.dfy`).

Conventions:

- JavaScript's coercions are explicit (`js.dfy`). A record field is `JsVal`:
  undefined, null, a text or a number. A computed number is `Number`: finite
  (an exact `real`), NaN or an infinity. Truthiness, `isNaN`/`Number()`,
  `parseFloat` and `parseInt` are written out, with a decimal reader shared
  by all three. This is what makes the text `'0'` truthy while the number 0
  and `''` are falsy.
- `parseFloat(x.toFixed(2))` is `Js.Round2`, rounding half away from zero
  on exact reals.
- A thrown `TypeError` (a string method called on a missing field) is a
  `None` result.
- Network calls are inputs: the outcome of a call (`Http.Outcome`) and the
  shape of an axios error (`Http.Failure`) are parameters of the functions
  that react to them.
- Things the model cannot see are parameters: `new URL` is the predicate
  `validUrl`, the text of a number is `render`, and the random digits of
  `generateReference` are a number in 1000..9999.
- Regular expressions are predicates over the string. The white-space set
  used by `trim` and `\s` is `Text.IsSpace`.
- Helper modules: `wrappers.dfy` (Option), `text.dfy` (trim, lower-casing,
  substring search), `seqs.dfy` (filter, subsequence, replace, sums),
  `sorting.dfy` (a stable insertion sort with its ordering and permutation
  proofs), `records.dfy` (the article and client records) and `http.dfy`
  (error shapes and shared messages).

The code has these quirks, and the model keeps them:

- The mock `searchClients` compares the phone against the lower-cased term
  (src/data/mockData.js:162-166). It does not use the term as typed.
- `getStatistics` passes the safety stock to `isLowStock` as both
  arguments. The model keeps this, and `ArticleLists.NumericStocksAreAllLow`
  states what it counts.
- `sortClients`' comparator never returns 0. The model fixes one order
  for ties and claims only that the result is a permutation in key order.

## Model

| member | source | states |
|---|---|---|
| Js.ParseFloat | src/Components/Article/articleUtils.tsx:7-8 | `parseFloat` never yields an infinity, reads a stored number as itself, and is NaN on null and undefined |
| Js.ParseInt | src/Components/Article/articleUtils.tsx:63 | `parseInt` of a stored number is its truncation toward zero; null and undefined give NaN |
| Js.Trunc | src/Components/Article/articleUtils.tsx:63 | truncation toward zero: the integer lies between the value and zero, less than one away |
| Js.ReadFloatAgrees | src/Components/Article/articleUtils.tsx:6-8 | where `Number()` reads text as a number, `parseFloat` reads the same number from it |
| Js.ParseFloatAgreesWithNumber | src/Components/Article/articleUtils.tsx:6-8 | on every value that `isNaN` accepts, except null and blank text, `parseFloat` and `Number()` agree |
| Js.UsableNumberParses | src/Components/Article/articleUtils.tsx:6-8 | a value that passes `!v \|\| isNaN(v)` is read by `parseFloat` as the number `isNaN` saw |
| Js.BlankTextDiverges | src/Components/Article/articleUtils.tsx:6-8 | blank text is 0 for `isNaN`, yet NaN for `parseFloat` and `parseInt` |
| Js.ParseIntAgreesWithNumber | src/Components/Article/articleUtils.tsx:61-63 | on non-blank text that `isNaN` accepts, `parseInt` is the truncation of `Number()`, or NaN only where that truncation is 0 |
| Js.DigitsAreNumber | src/Components/Article/articleUtils.tsx:61-63 | a non-empty run of digits is a number for `isNaN` and an integer for `parseInt` |
| Js.IntegerReadsBack | src/Components/Article/articleUtils.tsx:63 | a stored integer reads back as itself through `parseInt` |
| Js.Round2 | src/Components/Article/articleUtils.tsx:9 | `parseFloat(x.toFixed(2))` is a multiple of 1/100 within 0.005 of x, with x's sign |
| Js.DivByZero | src/Components/Article/articleUtils.tsx:17 | a non-zero number over zero is infinite and zero over zero is NaN |
| Js.RoundRatio | src/Components/Client/ClientStats.tsx:13 | `Math.round(total / n)` is the integer r with r ≤ total/n + 0.5 < r + 1 |
| Records.WithClientField | src/Components/Client/ClientForm.tsx:56-61 | `{...formData, [name]: value}` sets the named field and leaves the others |
| ArticleUtils.PriceWithTva | src/Components/Article/articleUtils.tsx:5-10 | a missing, falsy or `isNaN` price or rate gives 0 |
| ArticleUtils.PriceWithTvaValue | src/Components/Article/articleUtils.tsx:5-10 | on usable numbers the result is price + price·rate/100 passed through `toFixed(2)` and `parseFloat` |
| ArticleUtils.PriceWithTvaOfNumbers | src/Components/Article/articleUtils.tsx:5-10 | a non-zero numeric price and rate give price + price·rate/100 rounded to the cent |
| ArticleUtils.PriceWithZeroRate | src/Components/Article/articleUtils.tsx:6 | a rate of 0, `''` or absent is falsy, so the price with tax is 0 and not the untaxed price |
| ArticleUtils.PriceWithTvaOfBlankText | src/Components/Article/articleUtils.tsx:6-9 | a blank but non-empty price passes the `isNaN` guard and the result is NaN |
| ArticleUtils.ProfitMargin | src/Components/Article/articleUtils.tsx:13-18 | a falsy or `isNaN` selling or purchase price gives 0 |
| ArticleUtils.ProfitMarginValue | src/Components/Article/articleUtils.tsx:13-18 | on usable numbers with a purchase price other than the number 0 the margin is (s − p)/p·100 rounded to two places, and finite when p ≠ 0 |
| ArticleUtils.ProfitMarginFiniteOnNumbers | src/Components/Article/articleUtils.tsx:14 | for numbers or absent values the guard rules out division by zero |
| ArticleUtils.ProfitMarginOfZeroText | src/Components/Article/articleUtils.tsx:14-17 | the text "0" passes `purchasePrice === 0`, so the margin is Infinity, or NaN for "0" over "0" |
| ArticleUtils.ZeroTextReadsAsZero | src/Components/Article/articleUtils.tsx:14-16 | the text "0" is truthy, not NaN, and parses to 0 |
| ArticleUtils.ProfitAmount | src/Components/Article/articleUtils.tsx:21-26 | a falsy or `isNaN` input gives 0 |
| ArticleUtils.ProfitAmountValue | src/Components/Article/articleUtils.tsx:21-26 | on usable numbers the amount is s − p rounded to two places |
| ArticleUtils.Letters | src/Components/Article/articleUtils.tsx:53 | removing every non-letter leaves only ASCII letters and never lengthens the text |
| ArticleUtils.GenerateReference | src/Components/Article/articleUtils.tsx:49-57 | an empty designation gives `''`; otherwise at most three upper-case letters followed by the four digits |
| ArticleUtils.GeneratedReferenceIsValid | src/Components/Article/articleUtils.tsx:41-57 | for a non-empty designation and digits 1000..9999 the generated reference passes `validateReference` |
| ArticleUtils.LowStockAgainstItself | src/Components/Article/articleUtils.tsx:60-64 | `isLowStock(v, v)` is false exactly for values `isNaN` accepts but `parseInt` cannot read; numbers and absent values are always low |
| ArticleUtils.LowStockAgainstItselfExamples | src/Components/Article/articleUtils.tsx:60-64 | `''`, `'  '` and `'.5'` escape the self-comparison; the number 7 does not |
| ArticleUtils.PointFiveIsAFraction | src/Components/Article/articleUtils.tsx:61-63 | ".5" is one half for `isNaN` but unreadable for `parseInt` |
| ArticleUtils.GetStockStatus | src/Components/Article/articleUtils.tsx:67-84 | the status is unknown exactly when the stock is absent or `isNaN` |
| ArticleUtils.StockStatusAgreesWithLowStock | src/Components/Article/articleUtils.tsx:60-84 | for numbers, a stock truncating to 0 is out of stock, and otherwise the status is low exactly when `isLowStock` holds |
| ArticleUtils.StockStatusOfBlankText | src/Components/Article/articleUtils.tsx:68-83 | a blank stock text is not NaN but `parseInt` reads nothing, so it is reported as in stock |
| ArticleUtils.ReferenceError | src/Components/Article/articleUtils.tsx:91-95 | an error exactly when `validateReference` fails: "required" for blank, the format message otherwise |
| ArticleUtils.DesignationError | src/Components/Article/articleUtils.tsx:98-102 | an error exactly when the trimmed designation has fewer than 2 characters |
| ArticleUtils.StockError | src/Components/Article/articleUtils.tsx:105-109 | a passing stock is present, numeric and above −1 |
| ArticleUtils.PriceError | src/Components/Article/articleUtils.tsx:112-123 | a passing price is present, numeric and not negative |
| ArticleUtils.TvaError | src/Components/Article/articleUtils.tsx:126-130 | a passing rate is present, numeric and within 0..100 |
| ArticleUtils.PriceOrderError | src/Components/Article/articleUtils.tsx:133-137 | when the rule passes on two usable numbers, purchase < selling |
| ArticleUtils.ImageError | src/Components/Article/articleUtils.tsx:140-146 | an error exactly when the image is non-blank and not a valid URL |
| ArticleUtils.ValidateArticleData | src/Components/Article/articleUtils.tsx:87-152 | every rule runs; the error map holds exactly the failing fields with their messages, and `isValid` holds iff the map is empty |
| ArticleUtils.TextFieldErrors | src/Components/Article/articleUtils.tsx:90-102 | reference, designation and image are in error exactly when their rules fail; no submit key |
| ArticleUtils.StockAndPurchaseErrors | src/Components/Article/articleUtils.tsx:104-116 | the stock and purchase price are in error iff empty, NaN or parsing below 0 |
| ArticleUtils.SellingAndTvaErrors | src/Components/Article/articleUtils.tsx:118-137 | the selling price is in error iff empty, NaN, negative or not above a truthy purchase price; the rate iff empty, NaN or outside 0..100 |
| ArticleUtils.PriceOrderReportedOnSellingPrice | src/Components/Article/articleUtils.tsx:133-137 | when purchase ≥ selling the selling price carries the business-rule message, overriding its own |
| ArticleUtils.ValidArticleIsWellFormed | src/Components/Article/articleUtils.tsx:87-152 | a valid article has a well-shaped trimmed reference, a designation of 2+ characters, numbers in range, purchase < selling and a valid image URL if any |
| ArticleUtils.ValidIffEveryRulePasses | src/Components/Article/articleUtils.tsx:87-152 | valid exactly when every field rule and the business rule pass |
| ArticleUtils.NoFieldErrorWhenRulesPass | src/Components/Article/articleUtils.tsx:87-152 | when every rule passes no key carries an error |
| ArticleUtils.RulesPassWhenValid | src/Components/Article/articleUtils.tsx:87-152 | a valid article passes every rule |
| ArticleUtils.TextRulesPassWhenValid | src/Components/Article/articleUtils.tsx:90-102 | a valid article passes the reference, designation and image rules |
| ArticleUtils.NumberRulesPassWhenValid | src/Components/Article/articleUtils.tsx:104-137 | a valid article passes the stock, price, rate and business rules |
| ArticleUtils.WidgetIsValid | src/Components/Article/articleUtils.tsx:87-152 | reference AB12, designation Widget, stock 5, purchase 10, selling 15, rate 20 is valid |
| ArticleUtils.WidgetBelowCostExample | src/Components/Article/articleUtils.tsx:118-137 | the same article sold at 8 has only the selling-price error, with the business-rule message |
| ArticleUtils.OnlyPriceOrderFails | src/Components/Article/articleUtils.tsx:87-152 | when the business rule is the only failing rule, the errors are exactly that one message on the selling price |
| ArticleUtils.WidgetNumbers | src/Components/Article/articleUtils.tsx:104-137 | the numeric rules on the worked example: the business rule fails exactly for a selling price ≤ 10 |
| ArticleUtils.WidgetTextIsValid | src/Components/Article/articleUtils.tsx:90-102 | AB12 and Widget pass the text rules; no image is no error |
| ArticleUtils.ReferenceWithoutSpace | src/Components/Article/articleUtils.tsx:41-46 | text without white space passes the reference rule iff it has the `[A-Za-z0-9_-]{2,20}` shape |
| ArticleUtils.DesignationWithoutSpace | src/Components/Article/articleUtils.tsx:98-102 | text without white space passes the designation rule iff it has 2+ characters |
| ArticleUtils.WidgetFigures | src/Components/Article/articleUtils.tsx:5-18 | at 15 with rate 20 the price with tax is 18 and the margin over 10 is 50 |
| ArticleLists.SortArticles | src/Components/Article/articleUtils.tsx:155-200 | a non-array gives `[]`; otherwise the result is a permutation of the input |
| ArticleLists.KeyLtIrreflexive | src/Components/Article/articleUtils.tsx:194-198 | no sort key is below itself |
| ArticleLists.KeyLtTransitive | src/Components/Article/articleUtils.tsx:194-198 | `<` on sort keys of one field is transitive |
| ArticleLists.BeforeIsStrictOrder | src/Components/Article/articleUtils.tsx:158-199 | the comparator, in either direction and for every key, is a strict order |
| ArticleLists.SortArticlesOrdered | src/Components/Article/articleUtils.tsx:158-199 | when no profit margin used as key is NaN, for a known key `'asc'` leaves no later key below an earlier one; any other order leaves no later key above an earlier one |
| ArticleLists.SortByPurchasePrice | src/Components/Article/articleUtils.tsx:174-177 | sorting by purchase price orders `parseFloat(p) \|\| 0` non-decreasingly for `'asc'`, non-increasingly otherwise |
| ArticleLists.SortArticlesUnknownKey | src/Components/Article/articleUtils.tsx:190-191 | an unknown key leaves the order unchanged |
| ArticleLists.NaNBreaksTheOrder | src/Components/Article/articleUtils.tsx:186-198 | a NaN margin is neither below nor above any key while 1 is below 2, so the comparator's answers fit no order |
| ArticleLists.FilterArticles | src/Components/Article/articleUtils.tsx:203-212 | a non-array or an empty term gives the input back; otherwise an order-preserving subsequence holding exactly the articles whose lower-cased reference or designation contains the trimmed lower-cased term, each as many times as in the input |
| ArticleLists.FilterArticlesIdempotent | src/Components/Article/articleUtils.tsx:203-212 | filtering twice with the same term equals filtering once |
| ArticleLists.BlankTermKeepsAll | src/Components/Article/articleUtils.tsx:204-211 | a term of white space only trims to `''` and keeps every article |
| ArticleLists.RowCells | src/Components/Article/articleUtils.tsx:233-244 | each article line has ten cells |
| ArticleLists.Lines | src/Components/Article/articleUtils.tsx:231-245 | the export is the header line followed by one line per article, in order |
| ArticleLists.ExportToCsv | src/Components/Article/articleUtils.tsx:215-216 | a non-array or empty list exports `''` |
| ArticleLists.CsvAppend | src/Components/Article/articleUtils.tsx:231-245 | one more article adds a line break and its line at the end |
| ArticleLists.ExportAppend | src/Components/Article/articleUtils.tsx:215-248 | for a non-empty list, exporting one more article appends `\n` and its row |
| ArticleLists.CsvSplits | src/Components/Article/articleUtils.tsx:231-245 | when no row holds a line break, splitting the text at `\n` gives back the lines |
| ArticleLists.ExportSplitsIntoRows | src/Components/Article/articleUtils.tsx:215-248 | splitting a non-empty export at `\n` gives the header then each article's row |
| ArticleLists.HeaderHasNoBreak | src/Components/Article/articleUtils.tsx:218-232 | the header line holds no line break |
| ArticleLists.GetStatistics | src/Components/Article/articleUtils.tsx:274-315 | a non-array or empty list gives all zeros; otherwise the count is the list length and the low-stock count is at most that |
| ArticleLists.NumericStocksAreAllLow | src/Components/Article/articleUtils.tsx:299-301 | because `isLowStock` gets the safety stock twice, every article with a numeric or absent stock counts as low |
| ArticleLists.SumNumbersNaN | src/Components/Article/articleUtils.tsx:297 | one NaN term makes the sum NaN |
| ArticleLists.NaNMarginPoisonsAverage | src/Components/Article/articleUtils.tsx:294-297 | one NaN margin makes the average margin NaN |
| ArticleLists.AveragePurchaseWithinBounds | src/Components/Article/articleUtils.tsx:288-289 | the average purchase price lies between the least and greatest price, within the two-place rounding |
| ArticleLists.AverageSellingWithinBounds | src/Components/Article/articleUtils.tsx:291-292 | the average selling price lies between the least and greatest price, within the two-place rounding |
| ArticleLists.InventoryValueWithinBounds | src/Components/Article/articleUtils.tsx:303-305 | the inventory value is the sum of price × stock over the articles to the cent, and lies between n·lo and n·hi when each article's value is in [lo, hi] |
| ArticleLists.InventoryValueNotNegative | src/Components/Article/articleUtils.tsx:303-305 | with no negative price or stock read, the inventory value is a number ≥ 0 |
| ArticleLists.SanitizeArticleData | src/Components/Article/articleUtils.tsx:318-330 | a missing object gives `{}`, any object a clean record |
| ArticleLists.SanitizeIdempotent | src/Components/Article/articleUtils.tsx:318-330 | sanitising a sanitised record gives the same record |
| ArticleLists.SanitizeFixesClean | src/Components/Article/articleUtils.tsx:318-330 | a clean record with trimmed texts is its own sanitised form |
| ArticleLists.SanitizedTextIsTrimmed | src/Components/Article/articleUtils.tsx:322-328 | the sanitised texts are already trimmed |
| ArticleLists.SanitizedTextEnds | src/Components/Article/articleUtils.tsx:322-328 | the sanitised texts neither start nor end with white space |
| ArticleLists.SanitizedNumbers | src/Components/Article/articleUtils.tsx:324-327 | a missing number becomes 0; a stored number comes through as itself, the stock truncated toward zero |
| ArticleLists.SanitizedNumbersAreSortKeys | src/Components/Article/articleUtils.tsx:170-185 | each sanitised number is the figure the sort compares for that field |
| ArticleLists.SanitizeKeepsNumericKeys | src/Components/Article/articleUtils.tsx:318-329 | the sanitised object, read back as an article, has the same stock, price and rate sort keys as the original |
| ArticleView.ViewMargin | src/Components/Article/ArticleView.tsx:7-13 | a falsy purchase or selling price shows 0 |
| ArticleView.ViewPriceWithTva | src/Components/Article/ArticleView.tsx:15-18 | a falsy price or rate shows 0 |
| ArticleView.ViewMarginOfNumbers | src/Components/Article/ArticleView.tsx:7-13 | for non-zero numbers the margin is (vente − achat)/achat·100 rounded, the same figure `articleUtils` gives |
| ArticleView.ViewMarginInfiniteOnlyForZeroText | src/Components/Article/ArticleView.tsx:8-12 | an infinite margin needs a purchase price given as text that reads as 0 |
| ArticleView.ViewMarginOfJunk | src/Components/Article/ArticleView.tsx:8-12 | a non-numeric text purchase price shows NaN where `articleUtils` shows 0 |
| ArticleView.ViewPriceOfNumbers | src/Components/Article/ArticleView.tsx:15-18 | for a non-zero numeric price and rate the view shows exactly the figure `articleUtils.calculatePriceWithTVA` gives |
| ArticleView.ViewPriceWithZeroRate | src/Components/Article/ArticleView.tsx:16 | a rate of 0, `''` or absent shows 0, not the untaxed price |
| ArticleView.ViewPriceOfText | src/Components/Article/ArticleView.tsx:17 | a text price concatenates, and `toFixed` on the text throws |
| ArticleView.MarginColourOfPrices | src/Components/Article/ArticleView.tsx:123-129 | for a positive purchase price, green means selling above purchase, red below, and equal prices are gray |
| ArticleView.ColourOfRounded | src/Components/Article/ArticleView.tsx:123-129 | the colour of a rounded figure follows the sign of the figure |
| ArticleView.MarginColourOfSpecials | src/Components/Article/ArticleView.tsx:123-129 | NaN is gray; an infinite margin is green or red by its sign |
| ArticleTable.RowMatches | src/Components/Article/ArticleTable.tsx:4-10 | the predicate throws only on a missing reference or designation, and a reference containing the term ignoring case matches |
| ArticleTable.FilteredArticlesSpec | src/Components/Article/ArticleTable.tsx:4-10 | with reference and designation on every row the filter never throws and keeps, in order, exactly the matching rows, each as many times as in the input |
| ArticleTable.FilteredArticlesThrows | src/Components/Article/ArticleTable.tsx:4-10 | the filter throws exactly when some row's predicate throws |
| ArticleTable.EmptyTermKeepsAll | src/Components/Article/ArticleTable.tsx:4-10 | an empty term keeps every row that has a reference |
| ArticleTable.EmptyStateIffNoMatch | src/Components/Article/ArticleTable.tsx:32 | "No articles found" is shown exactly when no row matches |
| ArticleTable.ReferenceMatchIgnoresCase | src/Components/Article/ArticleTable.tsx:5 | two terms with the same lower-case form find the same references |
| ArticleTable.PriceMatchIsCaseSensitive | src/Components/Article/ArticleTable.tsx:7-9 | a purchase price text "AB" matches the term "AB" but not "ab", while a reference "AB" matches both |
| ArticleStats.StatsMatches | src/Components/Article/ArticleStats.tsx:4-11 | a row that answers "no match" has all four numeric fields as text |
| ArticleStats.AverageValue | src/Components/Article/ArticleStats.tsx:14 | an empty list averages to 0 |
| ArticleStats.FilteredCountBounded | src/Components/Article/ArticleStats.tsx:4-11 | the count exists exactly when every row answers, and is at most the number of articles |
| ArticleStats.TextRowsNeverThrow | src/Components/Article/ArticleStats.tsx:5-10 | rows whose six fields are all text never make the filter throw |
| ArticleStats.NumericStockThrows | src/Components/Article/ArticleStats.tsx:7 | a numeric stock makes the filter throw once it is reached |
| ArticleStats.TotalValueDefined | src/Components/Article/ArticleStats.tsx:13 | the total is a number iff every `parseInt(prixDAchatHT \|\| 0)` reads |
| ArticleStats.FalsyPriceAddsZero | src/Components/Article/ArticleStats.tsx:13 | an absent or zero purchase price adds 0 |
| ArticleStats.AverageIsRoundedMean | src/Components/Article/ArticleStats.tsx:14 | the average is the total over the count rounded half up |
| ArticleForm.InitialData | src/Components/Article/ArticleForm.tsx:5-13 | a new form starts with every field empty; an edited article's texts are copied, a missing one as `''`; each numeric field is copied when truthy and is `''` otherwise |
| ArticleForm.EditZeroStockIsRequired | src/Components/Article/ArticleForm.tsx:8 | editing an article whose stock is the number 0 starts the stock as `''`, and a submit reports it as required |
| ArticleForm.ValidateForm | src/Components/Article/ArticleForm.tsx:18-77 | all seven rules run; the error map holds exactly the failing fields with their messages, never `submit`, and the form is valid iff the map is empty |
| ArticleForm.FormTextErrors | src/Components/Article/ArticleForm.tsx:21-29 | reference and designation are in error exactly when blank |
| ArticleForm.FormImageError | src/Components/Article/ArticleForm.tsx:59-66 | the image is in error exactly when it is non-blank and not a valid URL |
| ArticleForm.FormNumberErrors | src/Components/Article/ArticleForm.tsx:31-57 | the stock is in error iff empty, NaN or parsing below 0; the rate iff empty, NaN or outside 0..100 |
| ArticleForm.BlankImageIsNoError | src/Components/Article/ArticleForm.tsx:59-66 | a blank image never produces an error |
| ArticleForm.FormPriceOrderOnSellingPrice | src/Components/Article/ArticleForm.tsx:68-73 | when both prices are truthy and purchase ≥ selling, the selling price carries the business-rule message and the purchase price keeps only its own rule |
| ArticleForm.FormValidIffRulesPass | src/Components/Article/ArticleForm.tsx:18-77 | the form is valid exactly when every rule passes |
| ArticleForm.FormRulesPassWhenValid | src/Components/Article/ArticleForm.tsx:18-77 | a valid form passes every rule |
| ArticleForm.TextRulesPassWhenValid | src/Components/Article/ArticleForm.tsx:21-29 | a valid form has a non-blank reference and designation |
| ArticleForm.ImageRulePassesWhenValid | src/Components/Article/ArticleForm.tsx:59-66 | a valid form has no image or a valid URL |
| ArticleForm.NumberRulesPassWhenValid | src/Components/Article/ArticleForm.tsx:31-57 | a valid form passes the stock and rate rules |
| ArticleForm.PriceRulesPassWhenValid | src/Components/Article/ArticleForm.tsx:38-73 | a valid form passes both price rules and the business rule |
| ArticleForm.NoFieldErrorWhenValid | src/Components/Article/ArticleForm.tsx:18-77 | no key carries an error on a valid form |
| ArticleForm.UtilsValidImpliesFormValid | src/Components/Article/ArticleForm.tsx:18-77 | every form `validateArticleData` accepts, this validator accepts too |
| ArticleForm.UtilsTextRulesAreStricter | src/Components/Article/ArticleForm.tsx:21-66 | the utilities' reference, designation and image rules imply the form's |
| ArticleForm.RequestBodyOf | src/Components/Article/ArticleForm.tsx:92-104 | `image` is sent exactly when its trimmed text is non-empty, and then trimmed |
| ArticleForm.ValidFormBody | src/Components/Article/ArticleForm.tsx:92-104 | a valid form sends non-empty trimmed texts, a stock ≥ 0, purchase and selling prices ≥ 0 with the purchase below the selling price, and a rate in 0..100 |
| ArticleForm.StockSent | src/Components/Article/ArticleForm.tsx:31-36 | a stock that passes its rule is sent as an integer ≥ 0 |
| ArticleForm.PriceSent | src/Components/Article/ArticleForm.tsx:38-50 | a price that passes its rule and reads as a number is sent as a number ≥ 0 |
| ArticleForm.PriceOrderSent | src/Components/Article/ArticleForm.tsx:68-73 | when the order rule passes on two numeric prices, the purchase price sent is below the selling price |
| ArticleForm.RateSent | src/Components/Article/ArticleForm.tsx:52-57 | a rate that passes its rule and reads as a number is sent within 0..100 |
| ArticleForm.BlankPriceSentAsNaN | src/Components/Article/ArticleForm.tsx:41-42 | a blank but non-empty price passes the rule and is sent as NaN |
| ArticleForm.IdText | src/Components/Article/ArticleForm.tsx:107 | the id part of the address is never empty |
| ArticleForm.SaveRequest | src/Components/Article/ArticleForm.tsx:106-111 | PUT exactly when an article is being edited |
| ArticleForm.EditAddressExtendsCollection | src/Components/Article/ArticleForm.tsx:106-108 | the PUT address is the POST address followed by `/` and the id |
| ArticleForm.SaveArticle | src/Components/Article/ArticleForm.tsx:79-164 | success exactly on a 200 or 201 reply, carrying its data; a failure carries no data |
| ArticleForm.SaveErrorPrecedence | src/Components/Article/ArticleForm.tsx:126-160 | a response decides the message alone; a request without response is a network error; the timeout message comes only with neither and code ECONNABORTED |
| ArticleForm.ResponseMessageIsNotTimeout | src/Components/Article/ArticleForm.tsx:126-144 | a failure with a response never reads as a timeout |
| ArticleForm.SaveErrorStatuses | src/Components/Article/ArticleForm.tsx:126-144 | 409 duplicate, 404 not found, ≥ 500 server error, 400 validation message |
| ArticleForm.HandleSubmit | src/Components/Article/ArticleForm.tsx:166-180 | the data is unchanged; a record is passed up only for a valid form and a resolved save |
| ArticleForm.HandleSubmitCases | src/Components/Article/ArticleForm.tsx:166-180 | an invalid form shows its errors; a failed save replaces the errors by `{submit}`; a success clears them and passes the data up |
| ArticleForm.HandleChangeSpec | src/Components/Article/ArticleForm.tsx:182-204 | only the named field changes; its error and the submit error are cleared; every other error is kept |
| LegacyArticleForm.LegacyValidate | src/Article/ArticleForm.tsx:18-47 | all six rules run; the error map holds exactly the failing fields with their messages, and the form is valid iff the map is empty |
| LegacyArticleForm.LegacyTextErrors | src/Article/ArticleForm.tsx:21-27 | reference and designation are in error exactly when blank |
| LegacyArticleForm.LegacyNoImageError | src/Article/ArticleForm.tsx:18-47 | this validator never sets an `image` or `submit` error |
| LegacyArticleForm.LegacyNumberErrors | src/Article/ArticleForm.tsx:29-43 | the stock is in error iff falsy or below 0 by `Number()`; a price iff falsy, unparseable or negative; the rate iff it also exceeds 100 |
| LegacyArticleForm.LegacyPricesIndependent | src/Article/ArticleForm.tsx:33-39 | the purchase price has no effect on the selling price's error: there is no cross-field rule |
| LegacyArticleForm.LegacyAcceptsUnreadableStock | src/Article/ArticleForm.tsx:29-31 | a non-numeric stock text passes here (`NaN < 0` is false) but fails the newer form |
| LegacyArticleForm.LegacyRejectsZeroStock | src/Article/ArticleForm.tsx:29-31 | a stock of 0 is falsy and rejected here but accepted by the newer form |
| LegacyArticleForm.LegacyIgnoresPriceOrder | src/Article/ArticleForm.tsx:33-39 | a selling price below the purchase price passes here but fails the newer form |
| LegacyArticleForm.LegacyBodyOf | src/Article/ArticleForm.tsx:69-77 | `image` is null exactly when its trimmed text is empty |
| LegacyArticleForm.LegacySendsNegativeStock | src/Article/ArticleForm.tsx:29-31 | the stock text "-5a" passes validation and is sent as −5 |
| LegacyArticleForm.MinusFiveA | src/Article/ArticleForm.tsx:72 | "-5a" is NaN for `Number()` and −5 for `parseInt` |
| LegacyArticleForm.LegacyBodyAgrees | src/Article/ArticleForm.tsx:69-77 | the body carries the same values as the newer form's body |
| LegacyArticleForm.LegacyRequest | src/Article/ArticleForm.tsx:67-79 | the save is always a POST |
| LegacyArticleForm.LegacyEditPosts | src/Article/ArticleForm.tsx:67-68 | editing posts to the same singular address as creating, where the newer form PUTs to the plural collection |
| LegacyArticleForm.LegacyErrorAgreesExcept404 | src/Article/ArticleForm.tsx:96-132 | the classification equals the newer form's on every failure except a 404, which shows "Error: " and the server's text |
| LegacyArticleForm.LegacySave | src/Article/ArticleForm.tsx:49-136 | success exactly on 200 or 201, with data and the saved message; a rejection carries the classified message |
| LegacyArticleForm.FormRecord | src/Article/ArticleForm.tsx:5-13 | the form record has seven keys |
| LegacyArticleForm.MergePayload | src/Article/ArticleForm.tsx:144-149 | the payload is the form overlaid by the server's data, with `_saved` and `_message` |
| LegacyArticleForm.LegacyHandleSubmit | src/Article/ArticleForm.tsx:138-157 | the data is unchanged; a payload is passed up only for a valid form and a resolved save, and it is the merge |
| LegacyArticleForm.LegacyHandleSubmitCases | src/Article/ArticleForm.tsx:138-157 | an invalid form shows its errors; a failed save replaces them by `{submit}`; a success clears them |
| LegacyArticleForm.LegacyHandleChange | src/Article/ArticleForm.tsx:159-164 | the named field takes the typed value |
| LegacyArticleForm.LegacyChangeKeepsFieldError | src/Article/ArticleForm.tsx:166-180 | with a submit error present, the second `setErrors` from the same snapshot restores the field's error; the newer form clears it |
| LegacyArticleForm.LegacyChangeAgreesWithoutSubmitError | src/Article/ArticleForm.tsx:159-181 | without a submit error both forms' `handleChange` agree |
| ArticleService.HandleApiError | src/Components/Article/articleService.js:48-98 | always a failure without data, with a non-empty message |
| ArticleService.ApiErrorStatuses | src/Components/Article/articleService.js:56-78 | 404 not found, 409 duplicate, 429 rate limit, and the server-error text exactly for 500, 502, 503 and 504 |
| ArticleService.ServerTextDiffers | src/Components/Article/articleService.js:71-77 | any other status, 501 among them, does not get the server-error text |
| ArticleService.ApiErrorFallback | src/Components/Article/articleService.js:54-58 | the message falls back from `data.message` to `data.error` to the default |
| ArticleService.ApiErrorWithoutResponse | src/Components/Article/articleService.js:79-97 | a request without response is a network error; the timeout text needs neither response nor request; otherwise the default message |
| ArticleService.ServiceAgreesWithForm | src/Components/Article/articleService.js:48-98 | the service and the article form agree on 401, 403, 404, 409, 500, 502-504 and on network errors, and disagree on 501 |
| ArticleService.ListCall | src/Components/Article/articleService.js:102-112 | a list call succeeds exactly when the request resolves, with `data \|\| []`; a rejection is `handleApiError` |
| ArticleService.RecordCall | src/Components/Article/articleService.js:115-153 | a record call succeeds exactly when the request resolves, with its data and message; a rejection is `handleApiError` |
| ArticleService.GetAllArticles | src/Components/Article/articleService.js:102-112 | success iff resolved, always with a list; a failure carries the classified message with "Failed to fetch articles" as default |
| ArticleService.GetArticleById | src/Components/Article/articleService.js:115-125 | success iff resolved; a failure carries the message with "Failed to fetch article" as default |
| ArticleService.CreateArticle | src/Components/Article/articleService.js:128-139 | success iff resolved, with data and the created message |
| ArticleService.UpdateArticle | src/Components/Article/articleService.js:142-153 | success iff resolved, with data and the updated message |
| ArticleService.DeleteArticle | src/Components/Article/articleService.js:156-166 | never carries data; success iff resolved, with the deleted message |
| ArticleService.SearchArticles | src/Components/Article/articleService.js:169-179 | success iff resolved, always with a list |
| ArticleService.GetLowStockArticles | src/Components/Article/articleService.js:182-192 | success iff resolved, always with a list |
| ArticleService.MissingListIsEmpty | src/Components/Article/articleService.js:107 | a reply without a body gives an empty list |
| ArticleService.DefaultMessageReachesCaller | src/Components/Article/articleService.js:91-97 | an error with neither response nor request shows each method's own default |
| ArticlePage.FetchErrorClassification | src/Pages/Article.tsx:50-60 | each fetch message has exactly one cause: timeout first, then ≥ 500, then 404, then the rest |
| ArticlePage.FetchArticles | src/Pages/Article.tsx:36-64 | a reply replaces the list by `data \|\| []` and clears the error; a failure keeps the list and sets the classified message; nothing else changes |
| ArticlePage.DeleteArticle | src/Pages/Article.tsx:68-90 | the list drops the id only when the DELETE succeeds; on failure the list is unchanged and a non-empty message is returned |
| ArticlePage.DeleteRemovesExactly | src/Pages/Article.tsx:79 | after a successful delete the list is an order-preserving subsequence holding exactly the articles with other ids, each as many times as before |
| ArticlePage.HandleAdd | src/Pages/Article.tsx:92-96 | the form opens for a new article with no selection |
| ArticlePage.HandleEdit | src/Pages/Article.tsx:98-102 | the form opens in edit mode on the chosen article |
| ArticlePage.HandleView | src/Pages/Article.tsx:104-107 | the view opens on the chosen article; the form flags are unchanged |
| ArticlePage.HandleDeleteClick | src/Pages/Article.tsx:109-112 | the delete modal opens on the chosen article |
| ArticlePage.HandleFormSuccess | src/Pages/Article.tsx:150-163 | the form closes with no selection; an edit keeps the length, a creation appends the record |
| ArticlePage.HandleFormCancel | src/Pages/Article.tsx:165-169 | the form closes with no selection and the list unchanged |
| ArticlePage.EditThenSaveReplaces | src/Pages/Article.tsx:150-156 | after an edit exactly the elements with the selected id are replaced; length and the others are unchanged |
| ArticlePage.EditKeepingIdKeepsOthers | src/Pages/Article.tsx:150-156 | saving an edit that keeps the id leaves the articles with other ids, in order |
| ArticlePage.AddThenSaveAppends | src/Pages/Article.tsx:157-169 | a creation appends the record at the end; a cancel leaves the list |
| ArticlePage.HandleDeleteConfirm | src/Pages/Article.tsx:171-181 | with no selection nothing happens; success drops the id and closes the modal; failure keeps list, modal and selection and alerts |
| ArticlePage.HandleDeleteCancel | src/Pages/Article.tsx:183-186 | the modal closes with no selection and the list unchanged |
| ArticlePage.DeleteClickThenConfirm | src/Pages/Article.tsx:109-112 | choosing an article and confirming a successful delete removes every article with its id, keeps every other one as many times as before, and closes the modal |
| ClientForm.EmailShapeNeedsAtAndDot | src/Components/Client/ClientForm.tsx:24 | a matching e-mail has an `@` followed later by a `.` |
| ClientForm.EmailShapeUnanchored | src/Components/Client/ClientForm.tsx:24 | the pattern is unanchored: any text around a match still matches |
| ClientForm.EmailFromParts | src/Components/Client/ClientForm.tsx:24 | a local part ending in a non-space, `@`, a domain without spaces, `.` and a non-space matches |
| ClientForm.ValidateClient | src/Components/Client/ClientForm.tsx:15-48 | all six rules run; the error map holds exactly the failing fields with their messages, and the form is valid iff the map is empty |
| ClientForm.ValidIffNoFieldError | src/Components/Client/ClientForm.tsx:46-47 | valid exactly when no rule recorded an error |
| ClientForm.KeyRule | src/Components/Client/ClientForm.tsx:18-44 | each field passes iff it is not blank; the e-mail must also match the pattern and the état must not be NaN |
| ClientForm.RulesPassIffNoFieldError | src/Components/Client/ClientForm.tsx:18-44 | the field-by-field rules pass exactly when no key carries an error |
| ClientForm.ClientValidIffRulesPass | src/Components/Client/ClientForm.tsx:15-48 | the form is valid exactly when every field rule passes |
| ClientForm.BlankFieldIsRequired | src/Components/Client/ClientForm.tsx:18-44 | a blank field always errors, with its "is required" message |
| ClientForm.BlankFormReportsAll | src/Components/Client/ClientForm.tsx:18-44 | when all six fields are blank the errors are exactly the six "is required" messages and the form is invalid |
| ClientForm.EmailWithoutAtIsInvalid | src/Components/Client/ClientForm.tsx:22-26 | a non-blank e-mail without `@` gets "Email is invalid" |
| ClientForm.ValidEtatIsNumber | src/Components/Client/ClientForm.tsx:36-40 | an accepted état reads as a finite number, the same for `parseFloat` and `Number()`, and `parseInt` truncates it |
| ClientForm.InitialClientData | src/Components/Client/ClientForm.tsx:4-11 | an edited client's fields are copied; a new form starts empty |
| ClientForm.NewClientFormReportsAll | src/Components/Client/ClientForm.tsx:15-48 | submitting a new, untouched form reports all six "is required" messages |
| ClientForm.HandleSubmit | src/Components/Client/ClientForm.tsx:50-54 | the errors are the failing fields; `onSubmit` receives the data exactly when every rule passes |
| ClientForm.HandleChange | src/Components/Client/ClientForm.tsx:56-70 | only the named field changes, its error is blanked, and every other error is kept |
| ClientForm.SubmitForgetsEarlierErrors | src/Components/Client/ClientForm.tsx:46-61 | after a change, a submit's result does not depend on the errors shown before |
| ClientLists.FilteredClients | src/Components/Client/ClientTable.tsx:5-11 | an order-preserving subsequence holding exactly the matching clients, each as many times as in the input |
| ClientLists.EmptyTermKeepsAll | src/Components/Client/ClientTable.tsx:5-11 | an empty term keeps every client |
| ClientLists.CaseOfTermIgnoredOutsidePhone | src/Components/Client/ClientTable.tsx:6-10 | when the phone does not decide, a term and its lower-case form match the same clients |
| ClientLists.PhoneIsCaseSensitive | src/Components/Client/ClientTable.tsx:8 | the phone is compared as typed: "X" misses a phone "x" that "x" finds |
| ClientLists.EmptyStateIffNoMatch | src/Components/Client/ClientTable.tsx:13 | the empty state is shown exactly when no client matches |
| ClientLists.FilteredClientsIdempotent | src/Components/Client/ClientTable.tsx:5-11 | filtering twice equals filtering once |
| ClientLists.EtatValue | src/Components/Client/ClientStats.tsx:12 | an empty état counts as 0 |
| ClientLists.ClientStats | src/Components/Client/ClientStats.tsx:4-18 | the filtered count is the table's and at most the client count; the total is a number iff every état reads; an empty list gives 0 and 0; the average is the mean rounded half up |
| ClientLists.TotalValueAppend | src/Components/Client/ClientStats.tsx:12 | one more client adds its value to the total |
| UseClients.MaxId | src/Hooks/useClients.js:41 | `Math.max(...ids, 0)`: at least 0, at least every id, and attained unless 0 |
| UseClients.AddClientTo | src/Hooks/useClients.js:40-46 | the id is one above the greatest id of the rendered list and the client is appended to the latest list |
| UseClients.AddClient | src/Hooks/useClients.js:41-46 | with the rendered list up to date, the new id is ≥ 1 and above every existing id; exactly one record is appended at the end |
| UseClients.TwoAddsBeforeRenderShareId | src/Hooks/useClients.js:41-46 | two adds from the same render give both clients the same id, and the list no longer has distinct ids |
| UseClients.AddKeepsIdsDistinct | src/Hooks/useClients.js:41-46 | adding keeps the ids distinct |
| UseClients.UpdateClient | src/Hooks/useClients.js:61-68 | the length is kept; every element with the id becomes `{id, ...data}`; the others are untouched |
| UseClients.UpdateKeepsIds | src/Hooks/useClients.js:61-68 | every id stays in place, distinct ids stay distinct, and the clients with other ids are unchanged in order |
| UseClients.DeleteClient | src/Hooks/useClients.js:83-85 | an order-preserving subsequence without the id that keeps every other client as many times as before |
| UseClients.FilterKeepsIdsDistinct | src/Hooks/useClients.js:83-85 | filtering keeps distinct ids distinct |
| UseClients.DeleteKeepsIdsDistinct | src/Hooks/useClients.js:83-85 | deleting keeps the ids distinct |
| UseClients.AddThenDeleteRestores | src/Hooks/useClients.js:41-85 | deleting the client just added gives back the list before the add |
| UseClients.SearchClients | src/Hooks/useClients.js:95-105 | an order-preserving subsequence; for a non-empty term it holds exactly the matching clients, each as many times as in the input |
| UseClients.SearchAgreesWithTable | src/Hooks/useClients.js:95-105 | the hook's search returns what the client table shows, for every term |
| MockData.VisibleStartIsNotBlank | src/data/mockData.js:2-75 | a text starting with a non-space character is not blank |
| MockData.ExampleAddressMatches | src/data/mockData.js:6 | a name ending in a non-space followed by `@example.com` matches the client e-mail pattern |
| MockData.DigitsPassEtatRule | src/data/mockData.js:9 | a non-empty digit string passes the état rule |
| MockData.MockShapePasses | src/data/mockData.js:2-75 | a record shaped like the mock ones passes every client form rule |
| MockData.JohnDoePasses | src/data/mockData.js:3-11 | the first record passes every client form rule |
| MockData.JaneSmithPasses | src/data/mockData.js:12-20 | the second record passes every client form rule |
| MockData.AhmedElMansouriPasses | src/data/mockData.js:21-29 | the third record passes every client form rule |
| MockData.SarahWilsonPasses | src/data/mockData.js:30-38 | the fourth record passes every client form rule |
| MockData.MohamedAlamiPasses | src/data/mockData.js:39-47 | the fifth record passes every client form rule |
| MockData.FatimaBenaliPasses | src/data/mockData.js:48-56 | the sixth record passes every client form rule |
| MockData.DavidBrownPasses | src/data/mockData.js:57-65 | the seventh record passes every client form rule |
| MockData.AichaTahiriPasses | src/data/mockData.js:66-74 | the eighth record passes every client form rule |
| MockData.MockClientPasses | src/data/mockData.js:2-75 | every mock record passes every client form rule |
| MockData.MockClientsWellFormed | src/data/mockData.js:2-75 | eight records with ids 1..8, distinct, each passing the client form |
| MockData.MockIds | src/data/mockData.js:2-75 | eight records whose ids are their positions plus one, so distinct |
| MockData.MockNextId | src/data/mockData.js:2-75 | the next client added to the mock list gets id 9 |
| MockData.MockSearchClients | src/data/mockData.js:159-170 | the empty term gives the list itself; otherwise an order-preserving subsequence holding exactly the clients matching the lower-cased term, phone included, each as many times as in the input |
| MockData.MockSearchAgreesOnLowerTerms | src/data/mockData.js:159-170 | for a term already in lower case the mock search equals the hook's search |
| MockData.MockSearchLowersPhoneTerm | src/data/mockData.js:162-166 | the mock compares the phone with the lower-cased term: a phone "X" is found by the hook but not by the mock |
| MockData.SortClients | src/data/mockData.js:173-192 | a permutation of the input; it throws exactly when two or more clients are sorted on a key that is not a text field or `etat` |
| MockData.ClientKeyLtTransitive | src/data/mockData.js:178-190 | the key comparison is transitive |
| MockData.ClientBeforeIsStrictOrder | src/data/mockData.js:186-190 | the comparator's "goes first" relation, in either direction, is a strict order |
| MockData.SortClientsOrdered | src/data/mockData.js:173-192 | for a known key, `'asc'` leaves no later key below an earlier one, any other order no later key above |
| MockData.SortByEtat | src/data/mockData.js:178-190 | with readable états, sorting by `etat` orders `parseInt(etat)` non-decreasingly for `'asc'`, non-increasingly otherwise |
| MockData.MockEtatsAreIntegers | src/data/mockData.js:2-75 | every mock état reads as an integer, so the client stats over the mock list are numbers |
| MockData.DigitsOfMockEtat | src/data/mockData.js:2-75 | every mock état is a non-empty string of digits |
| ApiUtils.WithAuth | src/utils/api.js:17-23 | a non-empty token sets `Authorization: Bearer <token>` and adds only that header; otherwise the headers are unchanged |
| ApiUtils.RequestHeaders | src/utils/api.js:7-23 | a request keeps the client's `Content-Type: application/json` and carries `Authorization` exactly when a non-empty token is stored |
| ApiUtils.BearerRoundTrip | src/utils/api.js:17-23 | reading the header back gives the stored token |
| ApiUtils.WithAuthIdempotent | src/utils/api.js:17-23 | applying the interceptor twice equals applying it once |
| ApiUtils.HandleError | src/utils/api.js:115-128 | with a response, its status and `data.message \|\| error.message`; only a request, status 0; otherwise −1 with the error's message |
| ApiUtils.FormatError | src/utils/api.js:131-149 | the message shown is never empty |
| ApiUtils.FormatErrorPassesMessage | src/utils/api.js:147-148 | every status outside 400, 401, 403, 404, 500 and 0 shows the message, or the fallback when it is empty |
| ApiUtils.FormatErrorWithoutResponse | src/utils/api.js:115-149 | a request without response reads as a lost connection; an error without request shows its own message or the fallback |
| ApiUtils.FormatErrorConflict | src/utils/api.js:131-149 | a 409 shows the server's text |
| ApiUtils.FormatterAndServiceOnServerErrors | src/utils/api.js:131-149 | the formatter and the article service agree on 500 but not on 502 |
| LoginPage.ValidEmailShape | src/Pages/LoginPage.tsx:14-17 | an accepted address has no white space, at least five characters and exactly one `@` |
| LoginPage.LoginEmailIsClientEmail | src/Pages/LoginPage.tsx:14-17 | every address the login page accepts passes the client form's pattern |
| LoginPage.ClientEmailIsLooser | src/Pages/LoginPage.tsx:14-17 | " a@b.c" passes the client form's unanchored pattern but not the login page's anchored one |
| LoginPage.EmptyOrWhitespaceIsBlank | src/Pages/LoginPage.tsx:19-21 | `isEmptyOrWhitespace` holds exactly for text made of white space only |
| LoginPage.EmailAcceptedIff | src/Pages/LoginPage.tsx:27-35 | the e-mail passes exactly when it matches the pattern and has at most 254 characters |
| LoginPage.PasswordAcceptedIff | src/Pages/LoginPage.tsx:38-50 | the password passes exactly when it has 6 to 128 characters, a letter, a digit and no white space at either end |
| LoginPage.EmailSpacesBeforeFormat | src/Pages/LoginPage.tsx:27-35 | a non-blank e-mail ending in white space gets the spaces message, whatever else is wrong with it |
| LoginPage.ValidateLogin | src/Pages/LoginPage.tsx:23-54 | both chains run; the error map holds exactly the failing fields with their first failing message |
| LoginPage.Sanitize | src/Pages/LoginPage.tsx:59-64 | the e-mail loses exactly its leading white space; the password is kept as typed |
| LoginPage.HandleInputChange | src/Pages/LoginPage.tsx:56-109 | the field takes the sanitised value; the other field and its error are untouched; an untouched field's errors are unchanged |
| LoginPage.LiveCheckAgreesWithValidate | src/Pages/LoginPage.tsx:72-108 | for a touched field the live check sets the message `validateForm` gives for the stored value, or deletes it |
| LoginPage.TypedEmailHasNoLeadingSpace | src/Pages/LoginPage.tsx:59-64 | a typed e-mail never starts with white space, so its spaces error is always about the end |
| LoginPage.HandleBlur | src/Pages/LoginPage.tsx:111-118 | the field becomes touched and the errors are those of the whole form |
| LoginPage.HandleSubmit | src/Pages/LoginPage.tsx:120-174 | credentials are sent only for a valid form, with the trimmed e-mail, and the form is then cleared; otherwise the data stays and both fields become touched |
| LoginPage.ValidIffBothAccepted | src/Pages/LoginPage.tsx:23-54 | the form has no errors exactly when the e-mail and the password both pass their rules |
| LoginPage.SubmitSendsIffValid | src/Pages/LoginPage.tsx:120-174 | credentials are sent exactly when both fields pass, and they are the typed ones |
| LoginPage.EarlyStopKeepsOtherError | src/Pages/LoginPage.tsx:125-132 | with only the e-mail blank the submit stops before validation, sets the e-mail message and keeps the password's earlier error as it was |

## Left out

- `ArticleLists.SortArticles`: with a NaN profit margin the comparator's answers fit no order (`ArticleLists.NaNBreaksTheOrder`), so the order `Array.prototype.sort` produces is engine-defined. The model commits to its own insertion order, still a permutation, and `ArticleLists.SortArticlesOrdered` claims key order only when no margin used as key is NaN.
- `UseClients.AddClient`: the id comes from the list of the last render while the append uses the latest list, so two adds before a re-render share an id. `UseClients.AddClientTo` models this, and `UseClients.TwoAddsBeforeRenderShareId` shows it. `{id, ...clientData}` would also let an `id` inside `clientData` replace the computed one, but client data here carries no id.
- `LegacyArticleForm.LegacyBodyAgrees`: the older form sends `image: null` for a blank image, while the newer form leaves the key out. Both are None in the model, so the agreement holds for the values but not for the JSON text of the two bodies.
- `ArticleLists.GetStatistics`: its own contract states only the article count and the low-stock bound. The averages and the inventory value are stated by `ArticleLists.AveragePurchaseWithinBounds`, `ArticleLists.AverageSellingWithinBounds`, `ArticleLists.InventoryValueWithinBounds` and `ArticleLists.InventoryValueNotNegative`.
- `Text.StrLt` compares strings by code point. JavaScript's `<` compares UTF-16 code units, which orders some characters outside the Basic Multilingual Plane differently.
- Network and storage: axios, the addresses' base URL, timeouts, cookies, `localStorage` and the response interceptor's logout and redirect on 401. A call is its outcome, and the stored token is an input of `ApiUtils.WithAuth`.
- React rendering, effects and loading flags: JSX, `useEffect` fetching in `useClients` (`fetchClients`), `isLoading`/`loading` state and focus handling. Only the state changes that decide something are modelled.
- Floating-point formatting: `formatCurrency`, `formatPercentage`, `Intl.NumberFormat` and `toLocaleString`. These produce display text only. `toFixed(2)` is modelled as the rounded number it denotes, not as text.
- Binary floating point: prices are exact reals, so rounding errors of IEEE doubles, `-0`, exponent notation, hexadecimal literals and the text "Infinity" are not modelled.
- String length counts code points, not UTF-16 units. This matters for the 254, 128 and 6 limits of the login page and the 2..20 reference length only on text outside the Basic Multilingual Plane.
- Lower-casing is ASCII only. The white-space set of `trim` and `\s` is a fixed set of characters that approximates JavaScript's.
- `downloadCSV` (Blob, DOM and `alert`): the CSV text it downloads is modelled by `ArticleLists.ExportToCsv`.
- `generateRandomClient` in the mock data: it only draws random values.
- The login page's simulated delay, `alert`, `console.log`, the timestamp and the show-password toggle. The submit's `try` block cannot fail, so a valid submit always succeeds.
- `UseClients.UpdateClient`: `{id: clientId, ...clientData}` lets an `id` inside `clientData` override `clientId`. Client data here carries no id, so the updated client always has `clientId`.
- `MockData.SortClients`: the tie order of the source's comparator is engine-defined, and with NaN états so is the whole order. The model commits to one order and states only permutation and key order.
- Dashboards, headers, sidebars, dropdowns, the delete modal, routing and the client page shell: presentation only.
