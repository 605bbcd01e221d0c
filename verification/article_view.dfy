/** The derived figures of the article detail view
    (src/Components/Article/ArticleView.tsx): the margin, the tax-inclusive
    prices and the colour of the margin. Unlike the article utilities, these
    helpers use the operators `-`, `*` and `/` directly, so a value is read
    with `Number()` and not with `parseFloat`, and `+` on a text price
    concatenates. */
module ArticleView {
  import opened Wrappers
  import opened Js
  import opened Records
  import ArticleUtils

  /** `calculateProfitMargin()`; the text `toFixed(2)` returns is the
      rounded number. */
  function ViewMargin(a: Article): (r: Number)
    ensures !Truthy(a.prixDAchatHT) || !Truthy(a.prixDeVenteHT) ==> r == Fin(0.0)
  {
    if !Truthy(a.prixDAchatHT) || !Truthy(a.prixDeVenteHT) || a.prixDAchatHT == Num(0.0) then Fin(0.0)
    else
      var achat := ToNumber(a.prixDAchatHT);
      ToFixed2(Mul(Div(Sub(ToNumber(a.prixDeVenteHT), achat), achat), Fin(100.0)))
  }

  /** `calculatePriceWithTVA(price)`. When the price is text, `price + …`
      builds a string and `toFixed` is not a function of strings: the call
      throws (None). */
  function ViewPriceWithTva(a: Article, price: JsVal): (r: Option<Number>)
    ensures !Truthy(price) || !Truthy(a.tva) ==> r == Some(Fin(0.0))
  {
    if !Truthy(price) || !Truthy(a.tva) then Some(Fin(0.0))
    else
      match price
      case Num(x) => Some(ToFixed2(Add(Fin(x), Div(Mul(Fin(x), ToNumber(a.tva)), Fin(100.0)))))
      case _ => None
  }

  /** The colour of the margin figure. */
  datatype MarginColour = Green | Red | Gray

  /** `parseFloat(margin) > 0 ? green : parseFloat(margin) < 0 ? red : gray` */
  function MarginClass(margin: Number): MarginColour {
    if Lt(Fin(0.0), margin) then Green
    else if Lt(margin, Fin(0.0)) then Red
    else Gray
  }

  /** Numbers from the server: the margin is (vente - achat) / achat * 100,
      rounded, and it agrees with the article utilities' margin. */
  lemma ViewMarginOfNumbers(a: Article)
    requires a.prixDAchatHT.Num? && a.prixDeVenteHT.Num?
    requires a.prixDAchatHT.x != 0.0 && a.prixDeVenteHT.x != 0.0
    ensures var p, s := a.prixDAchatHT.x, a.prixDeVenteHT.x;
      ViewMargin(a) == Fin(Round2((s - p) / p * 100.0))
    ensures ViewMargin(a) == ArticleUtils.ProfitMargin(a.prixDeVenteHT, a.prixDAchatHT)
  {
  }

  /** The view never divides a number by the number zero: an infinite
      margin needs a purchase price given as text that reads as zero, such
      as "0" (truthy, and not `=== 0`). */
  lemma ViewMarginInfiniteOnlyForZeroText(a: Article)
    requires ViewMargin(a).Inf?
    ensures a.prixDAchatHT.Str? && ToNumber(a.prixDAchatHT) == Fin(0.0)
  {
    var achat := ToNumber(a.prixDAchatHT);
    var d := Sub(ToNumber(a.prixDeVenteHT), achat);
    assert !d.Inf?;
    assert Div(d, achat).Inf?;
  }

  /** Text that is not a number: the view shows NaN where the article
      utilities show 0. */
  lemma ViewMarginOfJunk(a: Article)
    requires a.prixDAchatHT.Str? && Truthy(a.prixDAchatHT) && IsNaN(a.prixDAchatHT)
    requires Truthy(a.prixDeVenteHT)
    ensures ViewMargin(a) == NaN
    ensures ArticleUtils.ProfitMargin(a.prixDeVenteHT, a.prixDAchatHT) == Fin(0.0)
  {
  }

  /** A numeric price with a non-zero numeric rate reaches the arithmetic. */
  lemma ViewPriceReachesArithmetic(a: Article, x: real)
    requires x != 0.0 && a.tva.Num? && a.tva.x != 0.0
    ensures ViewPriceWithTva(a, Num(x)) == Some(ToFixed2(TaxedPrice(x, a.tva.x)))
  {
    assert ToNumber(a.tva) == Fin(a.tva.x);
  }

  /** A numeric price with a non-zero numeric rate: the view shows the same
      figure as the article utilities, price + price * tva / 100 to the cent
      (`ArticleUtils.PriceWithTvaOfNumbers`). */
  lemma ViewPriceOfNumbers(a: Article, x: real)
    requires x != 0.0 && a.tva.Num? && a.tva.x != 0.0
    ensures ViewPriceWithTva(a, Num(x)) == Some(ArticleUtils.PriceWithTva(Num(x), a.tva))
  {
    var t := a.tva.x;
    ViewPriceReachesArithmetic(a, x);
    TaxedPriceOfFinite(x, t);
    ArticleUtils.PriceWithTvaOfNumbers(x, t);
    assert a.tva == Num(t);
  }

  /** A zero or missing rate shows 0, not the untaxed price. */
  lemma ViewPriceWithZeroRate(a: Article, price: JsVal)
    requires a.tva == Num(0.0) || a.tva == Str([]) || Nullish(a.tva)
    ensures ViewPriceWithTva(a, price) == Some(Fin(0.0))
  {
  }

  /** A text price with a rate makes the helper throw. */
  lemma ViewPriceOfText(a: Article, s: string)
    requires s != [] && Truthy(a.tva)
    ensures ViewPriceWithTva(a, Str(s)).None?
  {
  }

  /** For a positive purchase price the colour tells the sign of the
      difference: green only when selling above purchase, red only when
      below, gray when they are equal. A difference too small to show in
      cents is gray as well. */
  lemma MarginColourOfPrices(a: Article)
    requires a.prixDAchatHT.Num? && a.prixDeVenteHT.Num?
    requires a.prixDAchatHT.x > 0.0 && a.prixDeVenteHT.x != 0.0
    ensures MarginClass(ViewMargin(a)) == Green ==> a.prixDeVenteHT.x > a.prixDAchatHT.x
    ensures MarginClass(ViewMargin(a)) == Red ==> a.prixDeVenteHT.x < a.prixDAchatHT.x
    ensures a.prixDeVenteHT.x == a.prixDAchatHT.x ==> MarginClass(ViewMargin(a)) == Gray
  {
    var p, s := a.prixDAchatHT.x, a.prixDeVenteHT.x;
    var m := (s - p) / p * 100.0;
    assert ViewMargin(a) == Fin(Round2(m));
    QuotientSign(s - p, p);
    ColourOfRounded(m);
  }

  /** The colour of a rounded figure follows the sign of the figure. */
  lemma ColourOfRounded(m: real)
    ensures MarginClass(Fin(Round2(m))) == Green ==> m > 0.0
    ensures MarginClass(Fin(Round2(m))) == Red ==> m < 0.0
    ensures m == 0.0 ==> MarginClass(Fin(Round2(m))) == Gray
  {
  }

  lemma QuotientSign(d: real, p: real)
    requires p > 0.0
    ensures d <= 0.0 ==> d / p * 100.0 <= 0.0
    ensures d >= 0.0 ==> d / p * 100.0 >= 0.0
  {
    assert d / p * p == d;
  }

  /** NaN and the infinities: NaN is gray, an infinite margin green or red
      by its sign. */
  lemma MarginColourOfSpecials(negative: bool)
    ensures MarginClass(NaN) == Gray
    ensures MarginClass(Inf(negative)) == if negative then Red else Green
  {
  }
}
