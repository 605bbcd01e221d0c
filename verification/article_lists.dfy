/** The list operations of the article utilities (`articleUtils` in
    src/Components/Article/articleUtils.tsx): sorting, searching, CSV
    export, statistics and sanitising. A list that is not an array is None. */
module ArticleLists {
  import opened Wrappers
  import opened Text
  import opened Js
  import opened Seqs
  import opened Sorting
  import opened Records
  import opened ArticleUtils

  // ---------------------------------------------------------------------
  // Sorting

  /** The `sortBy` values the comparator knows. */
  datatype SortField = ByReference | ByDesignation | ByStock | ByPurchase | BySelling | ByTva | ByMargin

  /** The `switch (sortBy)`; None is the `default` case. */
  function SortFieldOf(sortBy: string): Option<SortField> {
    if sortBy == "reference" then Some(ByReference)
    else if sortBy == "designation" then Some(ByDesignation)
    else if sortBy == "stockSecurite" then Some(ByStock)
    else if sortBy == "prixDAchatHT" then Some(ByPurchase)
    else if sortBy == "prixDeVenteHT" then Some(BySelling)
    else if sortBy == "tva" then Some(ByTva)
    else if sortBy == "profitMargin" then Some(ByMargin)
    else None
  }

  /** `valueA` / `valueB`: lower-cased text or a number. */
  datatype SortKey = Textual(s: string) | Numeric(n: Number)

  function KeyOf(field: SortField, a: Article): SortKey {
    match field
    case ByReference => Textual(Lower(TextOr(a.reference)))
    case ByDesignation => Textual(Lower(TextOr(a.designation)))
    case ByStock => Numeric(Fin(IntOrZero(a.stockSecurite) as real))
    case ByPurchase => Numeric(Fin(FloatOrZero(a.prixDAchatHT)))
    case BySelling => Numeric(Fin(FloatOrZero(a.prixDeVenteHT)))
    case ByTva => Numeric(Fin(FloatOrZero(a.tva)))
    case ByMargin => Numeric(ProfitMargin(a.prixDeVenteHT, a.prixDAchatHT))
  }

  /** `valueA < valueB` on two keys of one field. */
  predicate KeyLt(x: SortKey, y: SortKey) {
    match (x, y)
    case (Textual(s), Textual(t)) => StrLt(s, t)
    case (Numeric(m), Numeric(n)) => Lt(m, n)
    case _ => false
  }

  /** The comparator is negative: a goes before b. In ascending order that
      is `valueA < valueB`, otherwise `valueA > valueB`; the default case
      returns 0. */
  function Before(field: Option<SortField>, ascending: bool): (Article, Article) -> bool {
    (a: Article, b: Article) =>
      match field
      case None => false
      case Some(f) => if ascending then KeyLt(KeyOf(f, a), KeyOf(f, b)) else KeyLt(KeyOf(f, b), KeyOf(f, a))
  }

  /** `sortArticles(articles, sortBy, sortOrder)`: a sorted copy, or `[]`
      for a non-array. */
  function SortArticles(articles: Option<seq<Article>>, sortBy: string, sortOrder: string): (r: seq<Article>)
    ensures articles.None? ==> r == []
    ensures articles.Some? ==> multiset(r) == multiset(articles.value)
  {
    match articles
    case None => []
    case Some(xs) => Sort(xs, Before(SortFieldOf(sortBy), sortOrder == "asc"))
  }

  lemma KeyLtIrreflexive(x: SortKey)
    ensures !KeyLt(x, x)
  {
    if x.Textual? {
      StrLtIrreflexive(x.s);
    }
  }

  lemma KeyLtTransitive(x: SortKey, y: SortKey, z: SortKey)
    requires KeyLt(x, y) && KeyLt(y, z)
    ensures KeyLt(x, z)
  {
    if x.Textual? {
      StrLtTransitive(x.s, y.s, z.s);
    } else {
      LtTransitive(x.n, y.n, z.n);
    }
  }

  /** Every comparator the sort can use is a strict order. */
  lemma BeforeIsStrictOrder(field: Option<SortField>, ascending: bool)
    ensures StrictOrder(Before(field, ascending))
  {
    var less := Before(field, ascending);
    forall a ensures !less(a, a) {
      if field.Some? {
        KeyLtIrreflexive(KeyOf(field.value, a));
      }
    }
    forall a, b, c | less(a, b) && less(b, c) ensures less(a, c) {
      if field.Some? {
        var f := field.value;
        if ascending {
          KeyLtTransitive(KeyOf(f, a), KeyOf(f, b), KeyOf(f, c));
        } else {
          KeyLtTransitive(KeyOf(f, c), KeyOf(f, b), KeyOf(f, a));
        }
      }
    }
  }

  /** A NaN key is neither below nor above any key, yet 1 is below 2: the
      keys "equal" to NaN do not form an equivalence, so no order agrees
      with every answer the comparator gives. */
  lemma NaNBreaksTheOrder(n: Number)
    ensures !KeyLt(Numeric(NaN), Numeric(n)) && !KeyLt(Numeric(n), Numeric(NaN))
    ensures KeyLt(Numeric(Fin(1.0)), Numeric(Fin(2.0)))
  {
  }

  /** On a known key the result is ordered: in `'asc'` order no key is
      smaller than one before it, in any other order no key is larger. A
      NaN profit margin makes the comparator inconsistent (every comparison
      with it is 0), and the engine's order is then its own, so the margins
      are required to be numbers. */
  lemma SortArticlesOrdered(xs: seq<Article>, sortBy: string, sortOrder: string, field: SortField)
    requires SortFieldOf(sortBy) == Some(field)
    requires field == ByMargin ==> forall a | a in xs :: !ProfitMargin(a.prixDeVenteHT, a.prixDAchatHT).NaN?
    ensures var r := SortArticles(Some(xs), sortBy, sortOrder);
      && (sortOrder == "asc" ==> forall i, j | 0 <= i < j < |r| :: !KeyLt(KeyOf(field, r[j]), KeyOf(field, r[i])))
      && (sortOrder != "asc" ==> forall i, j | 0 <= i < j < |r| :: !KeyLt(KeyOf(field, r[i]), KeyOf(field, r[j])))
  {
    var less := Before(SortFieldOf(sortBy), sortOrder == "asc");
    BeforeIsStrictOrder(SortFieldOf(sortBy), sortOrder == "asc");
    SortSorted(xs, less);
  }

  /** Sorting by purchase price in `'asc'` order gives non-decreasing
      prices and in any other order non-increasing ones (an unreadable price
      counts as 0). */
  lemma SortByPurchasePrice(xs: seq<Article>, sortOrder: string)
    ensures var r := SortArticles(Some(xs), "prixDAchatHT", sortOrder);
      && (sortOrder == "asc" ==> forall i, j | 0 <= i < j < |r| :: FloatOrZero(r[i].prixDAchatHT) <= FloatOrZero(r[j].prixDAchatHT))
      && (sortOrder != "asc" ==> forall i, j | 0 <= i < j < |r| :: FloatOrZero(r[i].prixDAchatHT) >= FloatOrZero(r[j].prixDAchatHT))
  {
    SortArticlesOrdered(xs, "prixDAchatHT", sortOrder, ByPurchase);
  }

  /** An unknown key leaves the order as it was. */
  lemma SortArticlesUnknownKey(xs: seq<Article>, sortBy: string, sortOrder: string)
    requires SortFieldOf(sortBy).None?
    ensures SortArticles(Some(xs), sortBy, sortOrder) == xs
  {
    SortWithoutOrder(xs, Before(None, sortOrder == "asc"));
  }

  // ---------------------------------------------------------------------
  // Searching

  /** The search term as the filter uses it: lower-cased, then trimmed. */
  function SearchKey(term: string): string {
    Trim(Lower(term))
  }

  /** The article's lower-cased reference or designation contains the key. */
  predicate ArticleMatches(a: Article, key: string) {
    Contains(Lower(TextOr(a.reference)), key) || Contains(Lower(TextOr(a.designation)), key)
  }

  function Matcher(key: string): Article -> bool {
    a => ArticleMatches(a, key)
  }

  /** `filterArticles(articles, searchTerm)`: the input itself for a
      non-array or an empty term. */
  function FilterArticles(articles: Option<seq<Article>>, searchTerm: string): (r: Option<seq<Article>>)
    ensures articles.None? || searchTerm == [] ==> r == articles
    ensures articles.Some? ==> r.Some? && Subseq(r.value, articles.value)
    ensures articles.Some? && searchTerm != [] ==>
      forall a :: a in r.value <==> a in articles.value && ArticleMatches(a, SearchKey(searchTerm))
    ensures articles.Some? && searchTerm != [] ==>
      KeepsExactly(r.value, articles.value, Matcher(SearchKey(searchTerm)))
  {
    if articles.None? || searchTerm == [] then
      if articles.Some? then SubseqRefl(articles.value); articles else articles
    else
      FilterIsSubseq(articles.value, Matcher(SearchKey(searchTerm)));
      FilterKeepsExactly(articles.value, Matcher(SearchKey(searchTerm)));
      Some(Filter(articles.value, Matcher(SearchKey(searchTerm))))
  }

  /** Filtering the result again with the same term changes nothing. */
  lemma FilterArticlesIdempotent(articles: Option<seq<Article>>, searchTerm: string)
    ensures FilterArticles(FilterArticles(articles, searchTerm), searchTerm) == FilterArticles(articles, searchTerm)
  {
    if articles.Some? && searchTerm != [] {
      FilterIdempotent(articles.value, Matcher(SearchKey(searchTerm)));
    }
  }

  /** A term of white space alone matches every article. */
  lemma BlankTermKeepsAll(articles: Option<seq<Article>>, searchTerm: string)
    requires AllSpace(searchTerm)
    ensures FilterArticles(articles, searchTerm) == articles
  {
    var lowered := Lower(searchTerm);
    assert AllSpace(lowered);
    BlankIffAllSpace(lowered);
    if articles.Some? && searchTerm != [] {
      forall a | a in articles.value ensures Matcher(SearchKey(searchTerm))(a) {
        ContainsEmpty(Lower(TextOr(a.reference)));
      }
      FilterAllPass(articles.value, Matcher(SearchKey(searchTerm)));
    }
  }

  // ---------------------------------------------------------------------
  // CSV export

  /** The ten column titles joined by commas. */
  const HeaderLine: string :=
    "Reference," + "Designation," + "Stock Sécurité," + "Prix d'Achat HT (MAD)," + "Prix de Vente HT (MAD),"
    + "TVA (%)," + "Prix d'Achat TTC (MAD)," + "Prix de Vente TTC (MAD)," + "Marge Bénéficiaire (%)," + "Image URL"

  /** `"${text || ''}"`: the text between double quotes, not escaped. */
  function Quoted(t: Option<string>): string {
    "\"" + TextOr(t) + "\""
  }

  /** `v || 0` placed in the row: text as it is, a number through `render`
      (JavaScript's number-to-text conversion, which is not modelled). */
  function Cell(v: JsVal, render: Number -> string): string {
    if Truthy(v) && v.Str? then v.s
    else if Truthy(v) && v.Num? then render(Fin(v.x))
    else render(Fin(0.0))
  }

  /** The ten cells of an article's line. */
  function RowCells(a: Article, render: Number -> string): (r: seq<string>)
    ensures |r| == 10
  {
    [ Quoted(a.reference), Quoted(a.designation),
      Cell(a.stockSecurite, render), Cell(a.prixDAchatHT, render), Cell(a.prixDeVenteHT, render), Cell(a.tva, render),
      render(PriceWithTva(a.prixDAchatHT, a.tva)), render(PriceWithTva(a.prixDeVenteHT, a.tva)),
      render(ProfitMargin(a.prixDeVenteHT, a.prixDAchatHT)),
      Quoted(a.image) ]
  }

  function Row(a: Article, render: Number -> string): string {
    Join(RowCells(a, render), ",")
  }

  function RowOf(render: Number -> string): Article -> string {
    a => Row(a, render)
  }

  /** The lines of the export: the header, then one line per article. */
  function Lines(xs: seq<Article>, row: Article -> string): (r: seq<string>)
    ensures |r| == |xs| + 1 && r[0] == HeaderLine
    ensures forall i | 0 <= i < |xs| :: r[i + 1] == row(xs[i])
  {
    [HeaderLine] + seq(|xs|, i requires 0 <= i < |xs| => row(xs[i]))
  }

  /** The lines joined by line breaks. */
  function Csv(xs: seq<Article>, row: Article -> string): string {
    Join(Lines(xs, row), "\n")
  }

  /** `exportToCSV(articles)`: empty for a non-array or an empty list. */
  function ExportToCsv(articles: Option<seq<Article>>, render: Number -> string): (r: string)
    ensures articles.None? || articles.value == [] ==> r == []
  {
    if articles.None? || |articles.value| == 0 then []
    else Csv(articles.value, RowOf(render))
  }

  /** One more article appends a line break and its line. */
  lemma CsvAppend(xs: seq<Article>, a: Article, row: Article -> string)
    ensures Csv(xs + [a], row) == Csv(xs, row) + "\n" + row(a)
  {
    assert Lines(xs + [a], row) == Lines(xs, row) + [row(a)];
    JoinAppend(Lines(xs, row), "\n", row(a));
  }

  /** Exporting one more article appends a line break and its row. */
  lemma ExportAppend(xs: seq<Article>, a: Article, render: Number -> string)
    requires xs != []
    ensures ExportToCsv(Some(xs + [a]), render) == ExportToCsv(Some(xs), render) + "\n" + Row(a, render)
  {
    CsvAppend(xs, a, RowOf(render));
  }

  /** When no line holds a line break, splitting at line breaks gives the
      lines back. */
  lemma CsvSplits(xs: seq<Article>, row: Article -> string)
    requires forall i | 0 <= i < |xs| :: '\n' !in row(xs[i])
    ensures Split(Csv(xs, row), '\n') == Lines(xs, row)
  {
    var lines := Lines(xs, row);
    forall i | 0 <= i < |lines| ensures '\n' !in lines[i] {
      if i == 0 {
        HeaderHasNoBreak();
      }
    }
    SplitJoin(lines, '\n');
  }

  /** When no row holds a line break, splitting the export at line breaks
      gives back the header and the rows, one per article and in order. */
  lemma ExportSplitsIntoRows(xs: seq<Article>, render: Number -> string)
    requires xs != []
    requires forall i | 0 <= i < |xs| :: '\n' !in Row(xs[i], render)
    ensures var lines := Split(ExportToCsv(Some(xs), render), '\n');
      && |lines| == |xs| + 1 && lines[0] == HeaderLine
      && forall i | 0 <= i < |xs| :: lines[i + 1] == Row(xs[i], render)
  {
    CsvSplits(xs, RowOf(render));
  }

  lemma HeaderHasNoBreak()
    ensures '\n' !in HeaderLine
  {
    TitlesWithoutBreak1();
    TitlesWithoutBreak2();
    TitlesWithoutBreak3();
    TitlesWithoutBreak4();
  }

  lemma TitlesWithoutBreak1()
    ensures '\n' !in "Reference," && '\n' !in "Designation," && '\n' !in "Stock Sécurité,"
  {
  }

  lemma TitlesWithoutBreak2()
    ensures '\n' !in "Prix d'Achat HT (MAD)," && '\n' !in "Prix de Vente HT (MAD)," && '\n' !in "TVA (%),"
  {
  }

  lemma TitlesWithoutBreak3()
    ensures '\n' !in "Prix d'Achat TTC (MAD)," && '\n' !in "Prix de Vente TTC (MAD),"
  {
  }

  lemma TitlesWithoutBreak4()
    ensures '\n' !in "Marge Bénéficiaire (%)," && '\n' !in "Image URL"
  {
  }

  /** Parts and a separator without line breaks join without one. */
  lemma {:induction false} NoBreakInJoin(parts: seq<string>, sep: string)
    requires '\n' !in sep
    requires forall i | 0 <= i < |parts| :: '\n' !in parts[i]
    ensures '\n' !in Join(parts, sep)
    decreases |parts|
  {
    if |parts| > 1 {
      NoBreakInJoin(parts[1..], sep);
    }
  }

  // ---------------------------------------------------------------------
  // Statistics

  /** The record `getStatistics` returns. */
  datatype Statistics = Statistics(
    totalArticles: nat,
    averagePurchasePrice: Number,
    averageSellingPrice: Number,
    averageProfitMargin: Number,
    lowStockCount: nat,
    totalInventoryValue: Number)

  const NoStatistics := Statistics(0, Fin(0.0), Fin(0.0), Fin(0.0), 0, Fin(0.0))

  /** `parseFloat(article.prixDAchatHT) || 0` */
  function PurchaseOrZero(a: Article): real {
    FloatOrZero(a.prixDAchatHT)
  }

  /** `parseFloat(article.prixDeVenteHT) || 0` */
  function SellingOrZero(a: Article): real {
    FloatOrZero(a.prixDeVenteHT)
  }

  /** The article's margin, as `calculateProfitMargin` gives it. */
  function MarginOf(a: Article): Number {
    ProfitMargin(a.prixDeVenteHT, a.prixDAchatHT)
  }

  /** `isLowStock(stock, stock)`, as the statistics call it. */
  predicate CountsAsLowStock(a: Article) {
    IsLowStock(a.stockSecurite, a.stockSecurite)
  }

  /** `(parseFloat(prixDAchatHT) || 0) * (parseInt(stockSecurite) || 0)` */
  function StockValue(a: Article): real {
    PurchaseOrZero(a) * IntOrZero(a.stockSecurite) as real
  }

  /** `margins.reduce((sum, m) => sum + m, 0)`: JavaScript addition, so one
      NaN margin makes the sum NaN. */
  function SumNumbers(s: seq<Article>, f: Article -> Number): Number {
    if |s| == 0 then Fin(0.0) else Add(SumNumbers(s[..|s| - 1], f), f(s[|s| - 1]))
  }

  /** `getStatistics(articles)` */
  function GetStatistics(articles: Option<seq<Article>>): (r: Statistics)
    ensures articles.None? || articles.value == [] ==> r == NoStatistics
    ensures articles.Some? ==> r.totalArticles == |articles.value|
    ensures articles.Some? ==> r.lowStockCount <= |articles.value|
  {
    if articles.None? || |articles.value| == 0 then NoStatistics
    else
      var xs := articles.value;
      var n := |xs| as real;
      Statistics(
        |xs|,
        ToFixed2(Div(Fin(SumReal(xs, PurchaseOrZero)), Fin(n))),
        ToFixed2(Div(Fin(SumReal(xs, SellingOrZero)), Fin(n))),
        ToFixed2(Div(SumNumbers(xs, MarginOf), Fin(n))),
        Count(xs, CountsAsLowStock),
        ToFixed2(Fin(SumReal(xs, StockValue))))
  }

  /** Because the stock is compared with itself, every article whose stock
      is a number, or absent, is counted as low on stock. */
  lemma NumericStocksAreAllLow(xs: seq<Article>)
    requires forall a | a in xs :: a.stockSecurite.Num? || Nullish(a.stockSecurite)
    ensures GetStatistics(Some(xs)).lowStockCount == |xs|
  {
    forall a | a in xs ensures CountsAsLowStock(a) {
      LowStockAgainstItself(a.stockSecurite);
    }
    FilterAllPass(xs, CountsAsLowStock);
  }

  /** A NaN term makes the sum NaN. */
  lemma {:induction false} SumNumbersNaN(s: seq<Article>, f: Article -> Number, k: nat)
    requires k < |s| && f(s[k]).NaN?
    ensures SumNumbers(s, f).NaN?
    decreases |s|
  {
    if k < |s| - 1 {
      SumNumbersNaN(s[..|s| - 1], f, k);
    }
  }

  /** One article whose margin is NaN (both prices the text "0", say) makes
      the average margin NaN. */
  lemma NaNMarginPoisonsAverage(xs: seq<Article>, k: nat)
    requires k < |xs| && MarginOf(xs[k]).NaN?
    ensures GetStatistics(Some(xs)).averageProfitMargin.NaN?
  {
    SumNumbersNaN(xs, MarginOf, k);
  }

  /** When every purchase price (read as `parseFloat(p) || 0`) lies between
      lo and hi, so does the average, up to the rounding to cents. */
  lemma AveragePurchaseWithinBounds(xs: seq<Article>, lo: real, hi: real)
    requires xs != []
    requires forall a | a in xs :: lo <= PurchaseOrZero(a) <= hi
    ensures var avg := GetStatistics(Some(xs)).averagePurchasePrice;
      avg.Fin? && lo - 0.005 <= avg.v <= hi + 0.005
  {
    RoundedMeanWithinBounds(xs, PurchaseOrZero, lo, hi);
  }

  /** The same for the selling prices and their average. */
  lemma AverageSellingWithinBounds(xs: seq<Article>, lo: real, hi: real)
    requires xs != []
    requires forall a | a in xs :: lo <= SellingOrZero(a) <= hi
    ensures var avg := GetStatistics(Some(xs)).averageSellingPrice;
      avg.Fin? && lo - 0.005 <= avg.v <= hi + 0.005
  {
    RoundedMeanWithinBounds(xs, SellingOrZero, lo, hi);
  }

  /** The inventory value is the total of price times stock over all
      articles, rounded to the cent: it lies within half a cent of that
      total, and between n lo and n hi when every article's value lies in
      [lo, hi]. */
  lemma InventoryValueWithinBounds(xs: seq<Article>, lo: real, hi: real)
    requires xs != []
    requires forall a | a in xs :: lo <= StockValue(a) <= hi
    ensures var v := GetStatistics(Some(xs)).totalInventoryValue;
      && v.Fin?
      && -0.005 <= v.v - SumReal(xs, StockValue) <= 0.005
      && |xs| as real * lo - 0.005 <= v.v <= |xs| as real * hi + 0.005
  {
    SumRealBounds(xs, StockValue, lo, hi);
  }

  /** Every article's value is at least 0 when no price and no stock reads
      below 0, and then so is the inventory value. */
  lemma InventoryValueNotNegative(xs: seq<Article>)
    requires forall a | a in xs :: PurchaseOrZero(a) >= 0.0 && IntOrZero(a.stockSecurite) >= 0
    ensures var v := GetStatistics(Some(xs)).totalInventoryValue;
      v.Fin? && v.v >= 0.0
  {
    if xs != [] {
      forall a | a in xs ensures 0.0 <= StockValue(a) {
        StockValueNotNegative(a);
      }
      SumRealNotNegative(xs, StockValue);
      InventoryValueIsRoundedSum(xs);
    }
  }

  /** One article's value is a product of two numbers at least 0. */
  lemma StockValueNotNegative(a: Article)
    requires PurchaseOrZero(a) >= 0.0 && IntOrZero(a.stockSecurite) >= 0
    ensures StockValue(a) >= 0.0
  {
    var p := PurchaseOrZero(a);
    var k := IntOrZero(a.stockSecurite) as real;
    assert p * k >= 0.0;
  }

  /** The inventory card rounds the plain sum of the articles' values. */
  lemma InventoryValueIsRoundedSum(xs: seq<Article>)
    requires xs != []
    ensures GetStatistics(Some(xs)).totalInventoryValue == Fin(Round2(SumReal(xs, StockValue)))
  {
  }

  /** The rounded mean of terms in [lo, hi] lies in [lo, hi], within half a
      cent. */
  lemma RoundedMeanWithinBounds(xs: seq<Article>, f: Article -> real, lo: real, hi: real)
    requires xs != []
    requires forall a | a in xs :: lo <= f(a) <= hi
    ensures var avg := ToFixed2(Div(Fin(SumReal(xs, f)), Fin(|xs| as real)));
      avg.Fin? && lo - 0.005 <= avg.v <= hi + 0.005
  {
    var n := |xs| as real;
    var total := SumReal(xs, f);
    MeanWithinBounds(xs, f, lo, hi);
    DivFinite(total, n);
    var q := total / n;
    assert ToFixed2(Div(Fin(total), Fin(n))) == Fin(Round2(q));
    assert -0.005 <= Round2(q) - q <= 0.005;
  }

  /** The mean of terms in [lo, hi] lies in [lo, hi]. */
  lemma MeanWithinBounds(xs: seq<Article>, f: Article -> real, lo: real, hi: real)
    requires xs != []
    requires forall a | a in xs :: lo <= f(a) <= hi
    ensures lo <= SumReal(xs, f) / |xs| as real <= hi
  {
    SumRealBounds(xs, f, lo, hi);
    QuotientBounds(SumReal(xs, f), |xs| as real, lo, hi);
  }

  /** n lo <= t <= n hi gives lo <= t / n <= hi. */
  lemma QuotientBounds(t: real, n: real, lo: real, hi: real)
    requires n > 0.0 && n * lo <= t <= n * hi
    ensures lo <= t / n <= hi
  {
    assert t / n - lo == (t - n * lo) / n;
    assert hi - t / n == (n * hi - t) / n;
  }

  // ---------------------------------------------------------------------
  // Sanitising

  /** The object `sanitizeArticleData` builds: trimmed text and numbers. */
  datatype CleanArticle = CleanArticle(
    reference: string,
    designation: string,
    stockSecurite: int,
    prixDAchatHT: real,
    prixDeVenteHT: real,
    tva: real,
    image: string)

  /** `sanitizeArticleData(data)`; None is a missing object, for which the
      source returns `{}`. */
  function SanitizeArticleData(data: Option<Article>): (r: Option<CleanArticle>)
    ensures data.None? <==> r.None?
  {
    match data
    case None => None
    case Some(a) =>
      Some(CleanArticle(
        Trim(TextOr(a.reference)),
        Trim(TextOr(a.designation)),
        IntOrZero(a.stockSecurite),
        FloatOrZero(a.prixDAchatHT),
        FloatOrZero(a.prixDeVenteHT),
        FloatOrZero(a.tva),
        Trim(TextOr(a.image))))
  }

  /** A sanitised object fed back as an article. */
  function AsArticle(c: CleanArticle): Article {
    Article(None, Some(c.reference), Some(c.designation), Num(c.stockSecurite as real),
      Num(c.prixDAchatHT), Num(c.prixDeVenteHT), Num(c.tva), Some(c.image))
  }

  /** Sanitising is idempotent: sanitising a sanitised article again gives
      the same object. */
  lemma SanitizeIdempotent(a: Article)
    ensures var c := SanitizeArticleData(Some(a)).value;
      SanitizeArticleData(Some(AsArticle(c))) == Some(c)
  {
    SanitizedTextIsTrimmed(a);
    SanitizeFixesClean(SanitizeArticleData(Some(a)).value);
  }

  /** An object whose text is already trimmed comes out of sanitising
      unchanged. */
  lemma SanitizeFixesClean(c: CleanArticle)
    requires Trim(c.reference) == c.reference && Trim(c.designation) == c.designation && Trim(c.image) == c.image
    ensures SanitizeArticleData(Some(AsArticle(c))) == Some(c)
  {
    var a := AsArticle(c);
    IntegerReadsBack(c.stockSecurite);
    assert FloatOrZero(a.prixDAchatHT) == c.prixDAchatHT;
    assert FloatOrZero(a.prixDeVenteHT) == c.prixDeVenteHT;
    assert FloatOrZero(a.tva) == c.tva;
    assert Trim(TextOr(a.reference)) == c.reference;
    assert Trim(TextOr(a.designation)) == c.designation;
    assert Trim(TextOr(a.image)) == c.image;
  }

  lemma SanitizedTextIsTrimmed(a: Article)
    ensures var c := SanitizeArticleData(Some(a)).value;
      Trim(c.reference) == c.reference && Trim(c.designation) == c.designation && Trim(c.image) == c.image
  {
    TrimIdempotent(TextOr(a.reference));
    TrimIdempotent(TextOr(a.designation));
    TrimIdempotent(TextOr(a.image));
  }

  /** Sanitised text has no white space at either end. */
  lemma SanitizedTextEnds(a: Article)
    ensures var c := SanitizeArticleData(Some(a)).value;
      && (c.reference == [] || (!IsSpace(c.reference[0]) && !IsSpace(c.reference[|c.reference| - 1])))
      && (c.designation == [] || (!IsSpace(c.designation[0]) && !IsSpace(c.designation[|c.designation| - 1])))
      && (c.image == [] || (!IsSpace(c.image[0]) && !IsSpace(c.image[|c.image| - 1])))
  {
    var c := SanitizeArticleData(Some(a)).value;
    assert c.reference == Trim(TextOr(a.reference)) && c.designation == Trim(TextOr(a.designation));
    assert c.image == Trim(TextOr(a.image));
    TrimEnds(TextOr(a.reference));
    TrimEnds(TextOr(a.designation));
    TrimEnds(TextOr(a.image));
  }

  /** The sanitised numbers are the figures the sort compares: each is the
      article's numeric sort key. */
  lemma SanitizedNumbersAreSortKeys(a: Article)
    ensures KeyOf(ByStock, a) == Numeric(Fin(SanitizeArticleData(Some(a)).value.stockSecurite as real))
    ensures KeyOf(ByPurchase, a) == Numeric(Fin(SanitizeArticleData(Some(a)).value.prixDAchatHT))
    ensures KeyOf(BySelling, a) == Numeric(Fin(SanitizeArticleData(Some(a)).value.prixDeVenteHT))
    ensures KeyOf(ByTva, a) == Numeric(Fin(SanitizeArticleData(Some(a)).value.tva))
  {
    SanitizedStockIsKey(a);
    SanitizedPurchaseIsKey(a);
    SanitizedSellingIsKey(a);
    SanitizedTvaIsKey(a);
  }

  lemma SanitizedStockIsKey(a: Article)
    ensures KeyOf(ByStock, a) == Numeric(Fin(SanitizeArticleData(Some(a)).value.stockSecurite as real))
  {
    var n := IntOrZero(a.stockSecurite);
    assert KeyOf(ByStock, a) == Numeric(Fin(n as real));
    assert SanitizeArticleData(Some(a)).value.stockSecurite == n;
  }

  lemma SanitizedPurchaseIsKey(a: Article)
    ensures KeyOf(ByPurchase, a) == Numeric(Fin(SanitizeArticleData(Some(a)).value.prixDAchatHT))
  {
    var x := FloatOrZero(a.prixDAchatHT);
    assert KeyOf(ByPurchase, a) == Numeric(Fin(x));
    assert SanitizeArticleData(Some(a)).value.prixDAchatHT == x;
  }

  lemma SanitizedSellingIsKey(a: Article)
    ensures KeyOf(BySelling, a) == Numeric(Fin(SanitizeArticleData(Some(a)).value.prixDeVenteHT))
  {
    var x := FloatOrZero(a.prixDeVenteHT);
    assert KeyOf(BySelling, a) == Numeric(Fin(x));
    assert SanitizeArticleData(Some(a)).value.prixDeVenteHT == x;
  }

  lemma SanitizedTvaIsKey(a: Article)
    ensures KeyOf(ByTva, a) == Numeric(Fin(SanitizeArticleData(Some(a)).value.tva))
  {
    var x := FloatOrZero(a.tva);
    assert KeyOf(ByTva, a) == Numeric(Fin(x));
    assert SanitizeArticleData(Some(a)).value.tva == x;
  }

  /** A missing value becomes 0 and a stored number comes through as itself,
      the stock truncated toward zero. */
  lemma SanitizedNumbers(a: Article)
    ensures var c := SanitizeArticleData(Some(a)).value;
      && (Nullish(a.stockSecurite) ==> c.stockSecurite == 0)
      && (Nullish(a.prixDAchatHT) ==> c.prixDAchatHT == 0.0)
      && (Nullish(a.prixDeVenteHT) ==> c.prixDeVenteHT == 0.0)
      && (Nullish(a.tva) ==> c.tva == 0.0)
      && (a.stockSecurite.Num? ==> c.stockSecurite == Trunc(a.stockSecurite.x))
      && (a.prixDAchatHT.Num? ==> c.prixDAchatHT == a.prixDAchatHT.x)
      && (a.prixDeVenteHT.Num? ==> c.prixDeVenteHT == a.prixDeVenteHT.x)
      && (a.tva.Num? ==> c.tva == a.tva.x)
  {
  }

  /** The sanitised object, fed back as an article, sorts on the same
      numeric keys as the original. */
  lemma SanitizeKeepsNumericKeys(a: Article)
    ensures var b := AsArticle(SanitizeArticleData(Some(a)).value);
      && KeyOf(ByStock, b) == KeyOf(ByStock, a)
      && KeyOf(ByPurchase, b) == KeyOf(ByPurchase, a)
      && KeyOf(BySelling, b) == KeyOf(BySelling, a)
      && KeyOf(ByTva, b) == KeyOf(ByTva, a)
  {
    SanitizedNumbersAreSortKeys(a);
    CleanKeys(SanitizeArticleData(Some(a)).value);
  }

  /** A clean object's numbers are its own numeric sort keys. */
  lemma CleanKeys(c: CleanArticle)
    ensures KeyOf(ByStock, AsArticle(c)) == Numeric(Fin(c.stockSecurite as real))
    ensures KeyOf(ByPurchase, AsArticle(c)) == Numeric(Fin(c.prixDAchatHT))
    ensures KeyOf(BySelling, AsArticle(c)) == Numeric(Fin(c.prixDeVenteHT))
    ensures KeyOf(ByTva, AsArticle(c)) == Numeric(Fin(c.tva))
  {
    var b := AsArticle(c);
    IntegerReadsBack(c.stockSecurite);
    assert b.stockSecurite == Num(c.stockSecurite as real);
    assert FloatOrZero(b.prixDAchatHT) == c.prixDAchatHT;
    assert FloatOrZero(b.prixDeVenteHT) == c.prixDeVenteHT;
    assert FloatOrZero(b.tva) == c.tva;
  }
}
