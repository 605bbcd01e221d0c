/** The article stats cards (src/Components/Article/ArticleStats.tsx): the
    count of articles matching the search, the total of the purchase prices
    and their average. The search predicate calls string methods on all six
    fields, so a field that is not text throws (None) when the evaluation
    reaches it; numbers have no `includes` or `toLowerCase`. */
module ArticleStats {
  import opened Wrappers
  import opened Text
  import opened Js
  import opened Seqs
  import opened Records

  /** `v.toLowerCase().includes(term.toLowerCase())` on a value that must be
      text. */
  function LowerIncludes(v: JsVal, term: string): Option<bool> {
    if v.Str? then Some(Contains(Lower(v.s), Lower(term))) else None
  }

  /** The predicate of `filteredarticles`, left to right, stopping at the
      first match. The stock is compared as typed. */
  function StatsMatches(a: Article, term: string): (r: Option<bool>)
    ensures r.Some? && !r.value ==> a.stockSecurite.Str? && a.prixDAchatHT.Str? && a.prixDeVenteHT.Str? && a.tva.Str?
  {
    if a.reference.None? then None
    else if Contains(Lower(a.reference.value), Lower(term)) then Some(true)
    else if a.designation.None? then None
    else if Contains(Lower(a.designation.value), Lower(term)) then Some(true)
    else if !a.stockSecurite.Str? then None
    else if Contains(a.stockSecurite.s, term) then Some(true)
    else if LowerIncludes(a.prixDAchatHT, term) != Some(false) then LowerIncludes(a.prixDAchatHT, term)
    else if LowerIncludes(a.prixDeVenteHT, term) != Some(false) then LowerIncludes(a.prixDeVenteHT, term)
    else LowerIncludes(a.tva, term)
  }

  function StatsTest(term: string): Article -> Option<bool> {
    a => StatsMatches(a, term)
  }

  /** `filteredarticles.length`; None when the filter throws. */
  function FilteredCount(articles: seq<Article>, term: string): Option<nat> {
    match TryFilter(articles, StatsTest(term))
    case Some(r) => Some(|r|)
    case None => None
  }

  /** `parseInt(article.prixDAchatHT || 0)`; None is NaN. */
  function PurchaseAsInt(a: Article): Option<int> {
    ParseInt(Or(a.prixDAchatHT, Num(0.0)))
  }

  /** `totalValue`: a sum over all articles, whatever the search; one
      unreadable price makes it NaN (None). */
  function TotalValue(articles: seq<Article>): Option<int> {
    SumIntOrNaN(articles, PurchaseAsInt)
  }

  /** `averageValue`: `Math.round(totalValue / length)`, or 0 for no
      articles. */
  function AverageValue(articles: seq<Article>): (r: Option<int>)
    ensures |articles| == 0 ==> r == Some(0)
  {
    if |articles| == 0 then Some(0)
    else
      match TotalValue(articles)
      case Some(t) => Some(RoundRatio(t, |articles|))
      case None => None
  }

  /** The filtered count never exceeds the number of articles, and the
      filter succeeds exactly when every row gives an answer. */
  lemma FilteredCountBounded(articles: seq<Article>, term: string)
    ensures FilteredCount(articles, term).Some? <==>
      forall i | 0 <= i < |articles| :: StatsMatches(articles[i], term).Some?
    ensures FilteredCount(articles, term).Some? ==> FilteredCount(articles, term).value <= |articles|
  {
    TryFilterAgrees(articles, StatsTest(term));
  }

  /** Rows whose six fields are all text never make the filter throw. */
  lemma TextRowsNeverThrow(articles: seq<Article>, term: string)
    requires forall i | 0 <= i < |articles| ::
      && articles[i].reference.Some? && articles[i].designation.Some? && articles[i].stockSecurite.Str?
      && articles[i].prixDAchatHT.Str? && articles[i].prixDeVenteHT.Str? && articles[i].tva.Str?
    ensures FilteredCount(articles, term).Some?
  {
    TryFilterAgrees(articles, StatsTest(term));
  }

  /** A number in the stock makes the filter throw once it is reached. */
  lemma NumericStockThrows(a: Article, term: string)
    requires a.reference.Some? && a.designation.Some? && a.stockSecurite.Num?
    requires !Contains(Lower(a.reference.value), Lower(term)) && !Contains(Lower(a.designation.value), Lower(term))
    ensures FilteredCount([a], term).None?
  {
    TryFilterAgrees([a], StatsTest(term));
  }

  /** The total is a number exactly when every purchase price reads as an
      integer; an absent or zero price adds 0. */
  lemma TotalValueDefined(articles: seq<Article>)
    ensures TotalValue(articles).Some? <==> forall a | a in articles :: PurchaseAsInt(a).Some?
  {
    SumIntOrNaNDefined(articles, PurchaseAsInt);
  }

  /** Absent or zero purchase prices count as 0. */
  lemma FalsyPriceAddsZero(a: Article)
    requires !Truthy(a.prixDAchatHT)
    ensures PurchaseAsInt(a) == Some(0)
  {
  }

  /** The average is the total divided by the count, rounded to the nearest
      integer (halves up). */
  lemma AverageIsRoundedMean(articles: seq<Article>)
    requires |articles| > 0 && TotalValue(articles).Some?
    ensures var t, n := TotalValue(articles).value as real, |articles| as real;
      AverageValue(articles).Some? &&
      AverageValue(articles).value as real <= t / n + 0.5 < AverageValue(articles).value as real + 1.0
  {
  }
}
