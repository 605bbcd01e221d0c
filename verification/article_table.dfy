/** The search of the article table (src/Components/Article/ArticleTable.tsx,
    the `filteredArticles` predicate): reference and designation match the
    term without regard to case, the prices and the rate match their
    `toString()` text as typed. A missing reference or designation is not a
    string, so `.toLowerCase()` throws (None) when the evaluation reaches
    it. The text of a number is the parameter `render`. */
module ArticleTable {
  import opened Wrappers
  import opened Text
  import opened Js
  import opened Seqs
  import opened Records

  /** `v?.toString().includes(term)`: an absent value skips the test. */
  predicate TextOfIncludes(v: JsVal, term: string, render: real -> string) {
    match v
    case Str(s) => Contains(s, term)
    case Num(x) => Contains(render(x), term)
    case _ => false
  }

  /** The row predicate, evaluated left to right with `||` stopping at the
      first match. */
  function RowMatches(a: Article, term: string, render: real -> string): (r: Option<bool>)
    ensures r.None? ==> a.reference.None? || a.designation.None?
    ensures a.reference.Some? && Contains(Lower(a.reference.value), Lower(term)) ==> r == Some(true)
  {
    match a.reference
    case None => None
    case Some(reference) =>
      if Contains(Lower(reference), Lower(term)) then Some(true)
      else
        match a.designation
        case None => None
        case Some(designation) =>
          Some(Contains(Lower(designation), Lower(term))
            || TextOfIncludes(a.prixDAchatHT, term, render)
            || TextOfIncludes(a.prixDeVenteHT, term, render)
            || TextOfIncludes(a.tva, term, render))
  }

  function RowTest(term: string, render: real -> string): Article -> Option<bool> {
    a => RowMatches(a, term, render)
  }

  /** `articles.filter(...)`; None when the predicate throws. */
  function FilteredArticles(articles: seq<Article>, term: string, render: real -> string): Option<seq<Article>> {
    TryFilter(articles, RowTest(term, render))
  }

  /** The empty state ("No articles found") is shown. */
  predicate ShowsEmptyState(articles: seq<Article>, term: string, render: real -> string) {
    var r := FilteredArticles(articles, term, render);
    r.Some? && |r.value| == 0
  }

  /** A table with reference and designation on every row never throws,
      and shows, in order, exactly the rows whose predicate holds. */
  lemma FilteredArticlesSpec(articles: seq<Article>, term: string, render: real -> string)
    requires forall i | 0 <= i < |articles| :: articles[i].reference.Some? && articles[i].designation.Some?
    ensures var r := FilteredArticles(articles, term, render);
      && r.Some?
      && Subseq(r.value, articles)
      && (forall a :: a in r.value <==> a in articles && RowMatches(a, term, render) == Some(true))
      && KeepsExactly(r.value, articles, Passes(RowTest(term, render)))
  {
    var p := RowTest(term, render);
    TryFilterAgrees(articles, p);
    FilterIsSubseq(articles, Passes(p));
    FilterKeepsExactly(articles, Passes(p));
  }

  /** The filter throws exactly when some row lacks the text it needs at the
      moment the predicate reaches it. */
  lemma FilteredArticlesThrows(articles: seq<Article>, term: string, render: real -> string)
    ensures FilteredArticles(articles, term, render).None? <==>
      exists i | 0 <= i < |articles| :: RowMatches(articles[i], term, render).None?
  {
    TryFilterAgrees(articles, RowTest(term, render));
  }

  /** An empty term keeps every row that has a reference. */
  lemma EmptyTermKeepsAll(articles: seq<Article>, render: real -> string)
    requires forall i | 0 <= i < |articles| :: articles[i].reference.Some?
    ensures FilteredArticles(articles, [], render) == Some(articles)
  {
    var p := RowTest([], render);
    forall i | 0 <= i < |articles| ensures p(articles[i]) == Some(true) {
      ContainsEmpty(Lower(articles[i].reference.value));
    }
    TryFilterAgrees(articles, p);
    FilterAllPass(articles, Passes(p));
  }

  /** The empty state is shown exactly when the filter succeeds and no row
      matches. */
  lemma EmptyStateIffNoMatch(articles: seq<Article>, term: string, render: real -> string)
    requires forall i | 0 <= i < |articles| :: articles[i].reference.Some? && articles[i].designation.Some?
    ensures ShowsEmptyState(articles, term, render) <==>
      forall i | 0 <= i < |articles| :: RowMatches(articles[i], term, render) == Some(false)
  {
    var p := RowTest(term, render);
    TryFilterAgrees(articles, p);
    FilterEmptyIff(articles, Passes(p));
    if ShowsEmptyState(articles, term, render) {
      forall i | 0 <= i < |articles| ensures RowMatches(articles[i], term, render) == Some(false) {
        assert articles[i] in articles;
      }
    }
  }

  /** The case of the term does not matter for the reference: a term that
      lower-cases to the same text finds the same references. */
  lemma ReferenceMatchIgnoresCase(a: Article, term: string, other: string, render: real -> string)
    requires a.reference.Some? && Lower(term) == Lower(other)
    requires Contains(Lower(a.reference.value), Lower(term))
    ensures RowMatches(a, term, render) == Some(true) && RowMatches(a, other, render) == Some(true)
  {
  }

  /** The prices are compared as typed, the reference without regard to
      case: a text purchase price "AB" is found by "AB" but not by "ab",
      while the same text as the reference is found by both. */
  lemma PriceMatchIsCaseSensitive(a: Article, render: real -> string)
    requires a.reference == Some("r") && a.designation == Some("d")
    requires a.prixDAchatHT == Str("AB") && a.prixDeVenteHT == Undefined && a.tva == Undefined
    ensures RowMatches(a, "AB", render) == Some(true)
    ensures RowMatches(a, "ab", render) == Some(false)
    ensures RowMatches(a.(reference := Some("AB")), "ab", render) == Some(true)
    ensures RowMatches(a.(reference := Some("AB")), "AB", render) == Some(true)
  {
    assert Lower("r") == "r" && Lower("d") == "d";
    assert Lower("ab") == "ab" && Lower("AB") == "ab";
    assert !Contains("r", "ab") && !Contains("d", "ab") by {
      assert !Contains("r"[1..], "ab") && !Contains("d"[1..], "ab");
    }
    assert "AB" <= "AB" && "ab" <= "ab";
    assert !Contains("AB", "ab") by {
      assert "AB"[0] != "ab"[0] && "AB"[1..][0] != "ab"[0];
      assert !Contains("AB"[1..][1..], "ab");
    }
  }
}
