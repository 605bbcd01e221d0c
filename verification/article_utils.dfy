/** The record-level article utilities: derived prices and margins, the
    reference format and its generator, the stock rules and the full
    validator (src/Components/Article/articleUtils.tsx). */
module ArticleUtils {
  import opened Wrappers
  import opened Text
  import opened Js
  import opened Records

  // ---------------------------------------------------------------------
  // Derived prices

  /** `calculatePriceWithTVA(price, tvaRate)` */
  function PriceWithTva(price: JsVal, rate: JsVal): (r: Number)
    ensures !Truthy(price) || !Truthy(rate) || IsNaN(price) || IsNaN(rate) ==> r == Fin(0.0)
  {
    if !Truthy(price) || !Truthy(rate) || IsNaN(price) || IsNaN(rate) then Fin(0.0)
    else
      var p := ParseFloat(price);
      var t := ParseFloat(rate);
      ToFixed2(Add(p, Div(Mul(p, t), Fin(100.0))))
  }

  /** On usable numbers the price with tax is price + price * rate / 100 in
      number arithmetic, rounded to cents. */
  lemma PriceWithTvaValue(price: JsVal, rate: JsVal)
    requires IsUsableNumber(price) && IsUsableNumber(rate)
    ensures var x, y := Fin(NumberValue(price)), Fin(NumberValue(rate));
      PriceWithTva(price, rate) == ToFixed2(Add(x, Div(Mul(x, y), Fin(100.0))))
  {
    UsableNumberParses(price);
    UsableNumberParses(rate);
  }

  /** Non-zero stored numbers: the price plus its tax, to the cent. */
  lemma PriceWithTvaOfNumbers(x: real, t: real)
    requires x != 0.0 && t != 0.0
    ensures PriceWithTva(Num(x), Num(t)) == Fin(Round2(x + x * t / 100.0))
  {
    PriceWithTvaValue(Num(x), Num(t));
    assert NumberValue(Num(x)) == x && NumberValue(Num(t)) == t;
    TaxedPriceOfFinite(x, t);
  }

  /** A zero or empty rate is falsy, so the result is 0 and not the untaxed
      price. */
  lemma PriceWithZeroRate(price: JsVal, rate: JsVal)
    requires rate == Num(0.0) || rate == Str([]) || Nullish(rate)
    ensures PriceWithTva(price, rate) == Fin(0.0)
  {
  }

  /** Blank but non-empty text passes the guard (`isNaN(" ")` is false) and
      then parses to NaN, so the price with tax is NaN rather than 0. */
  lemma PriceWithTvaOfBlankText(s: string, rate: JsVal)
    requires s != [] && IsBlank(s) && Truthy(rate) && !IsNaN(rate)
    ensures PriceWithTva(Str(s), rate) == NaN
  {
    BlankTextDiverges(s);
  }

  /** `calculateProfitMargin(sellingPrice, purchasePrice)` */
  function ProfitMargin(selling: JsVal, purchase: JsVal): (r: Number)
    ensures !Truthy(selling) || !Truthy(purchase) || IsNaN(selling) || IsNaN(purchase) ==> r == Fin(0.0)
  {
    if !Truthy(selling) || !Truthy(purchase) || purchase == Num(0.0) || IsNaN(selling) || IsNaN(purchase) then
      Fin(0.0)
    else
      var s := ParseFloat(selling);
      var p := ParseFloat(purchase);
      ToFixed2(Mul(Div(Sub(s, p), p), Fin(100.0)))
  }

  /** On usable numbers the margin is (selling - purchase) / purchase * 100
      in number arithmetic, rounded to cents; with a non-zero purchase price
      it is finite. */
  lemma ProfitMarginValue(selling: JsVal, purchase: JsVal)
    requires IsUsableNumber(selling) && IsUsableNumber(purchase) && purchase != Num(0.0)
    ensures var s, p := Fin(NumberValue(selling)), Fin(NumberValue(purchase));
      ProfitMargin(selling, purchase) == ToFixed2(Mul(Div(Sub(s, p), p), Fin(100.0)))
    ensures NumberValue(purchase) != 0.0 ==> ProfitMargin(selling, purchase).Fin?
  {
    UsableNumberParses(selling);
    UsableNumberParses(purchase);
  }

  /** For values that are numbers or absent (what the server sends) the
      margin is always finite: a zero purchase price is falsy, so nothing is
      divided by zero. */
  lemma ProfitMarginFiniteOnNumbers(selling: JsVal, purchase: JsVal)
    requires !selling.Str? && !purchase.Str?
    ensures ProfitMargin(selling, purchase).Fin?
  {
  }

  /** The text "0" is truthy and is not `=== 0`, so it passes the guard and
      the margin divides by zero: infinite against a non-zero selling price,
      NaN against the text "0". */
  lemma ProfitMarginOfZeroText(selling: real, zero: JsVal)
    requires selling != 0.0 && zero == Str("0")
    ensures ProfitMargin(Num(selling), zero).Inf?
    ensures ProfitMargin(zero, zero) == NaN
  {
    ZeroTextReadsAsZero(zero);
    assert Div(Sub(Fin(selling), Fin(0.0)), Fin(0.0)).Inf?;
    assert Div(Sub(Fin(0.0), Fin(0.0)), Fin(0.0)) == NaN;
  }

  lemma ZeroTextReadsAsZero(zero: JsVal)
    requires zero == Str("0")
    ensures Truthy(zero) && !IsNaN(zero) && ParseFloat(zero) == Fin(0.0)
  {
    assert ToNumber(zero) == Fin(0.0);
  }

  /** `calculateProfitAmount(sellingPrice, purchasePrice)` */
  function ProfitAmount(selling: JsVal, purchase: JsVal): (r: Number)
    ensures !Truthy(selling) || !Truthy(purchase) || IsNaN(selling) || IsNaN(purchase) ==> r == Fin(0.0)
  {
    if !Truthy(selling) || !Truthy(purchase) || IsNaN(selling) || IsNaN(purchase) then Fin(0.0)
    else ToFixed2(Sub(ParseFloat(selling), ParseFloat(purchase)))
  }

  lemma ProfitAmountValue(selling: JsVal, purchase: JsVal)
    requires IsUsableNumber(selling) && IsUsableNumber(purchase)
    ensures ProfitAmount(selling, purchase) == ToFixed2(Sub(Fin(NumberValue(selling)), Fin(NumberValue(purchase))))
  {
    UsableNumberParses(selling);
    UsableNumberParses(purchase);
  }

  // ---------------------------------------------------------------------
  // Reference

  /** `[A-Za-z0-9_-]` */
  predicate IsReferenceChar(c: char) {
    IsAsciiLetter(c) || IsDigit(c) || c == '_' || c == '-'
  }

  /** `/^[A-Za-z0-9_-]{2,20}$/` */
  predicate ReferenceShape(s: string) {
    2 <= |s| <= 20 && forall i | 0 <= i < |s| :: IsReferenceChar(s[i])
  }

  /** `validateReference(reference)`: a non-empty string whose trimmed form
      has the reference shape. */
  predicate ValidateReference(reference: Option<string>) {
    match reference
    case None => false
    case Some(s) => s != [] && ReferenceShape(Trim(s))
  }

  /** `designation.replace(/[^a-zA-Z]/g, '')` */
  function Letters(s: string): (r: string)
    ensures |r| <= |s|
    ensures forall i | 0 <= i < |r| :: IsAsciiLetter(r[i])
  {
    if |s| == 0 then []
    else (if IsAsciiLetter(s[0]) then [s[0]] else []) + Letters(s[1..])
  }

  /** `generateReference(designation)`, with the random 4-digit number
      `Math.floor(Math.random() * 9000) + 1000` given as `digits`. */
  function GenerateReference(designation: Option<string>, digits: int): (r: string)
    requires 1000 <= digits <= 9999
    ensures TextOr(designation) == [] ==> r == []
    ensures TextOr(designation) != [] ==>
      && 4 <= |r| <= 7
      && r[|r| - 4..] == NatToString(digits)
      && (forall i | 0 <= i < |r| - 4 :: IsUpperAscii(r[i]))
  {
    if TextOr(designation) == [] then []
    else
      var letters := Letters(TextOr(designation));
      var prefix := Upper(letters[..if |letters| < 3 then |letters| else 3]);
      NatToStringLength(digits);
      prefix + NatToString(digits)
  }

  /** A generated reference (for a non-empty designation) always has the
      reference shape, so the validator accepts it. */
  lemma GeneratedReferenceIsValid(designation: Option<string>, digits: int)
    requires 1000 <= digits <= 9999 && TextOr(designation) != []
    ensures ValidateReference(Some(GenerateReference(designation, digits)))
  {
    var r := GenerateReference(designation, digits);
    var n := NatToString(digits);
    assert AllDigits(n);
    assert forall i | |r| - 4 <= i < |r| :: r[i] == n[i - (|r| - 4)];
    assert forall i | 0 <= i < |r| :: IsReferenceChar(r[i]);
    TrimOfNoSpace(r);
  }

  // ---------------------------------------------------------------------
  // Stock

  /** `isLowStock(currentStock, securityStock)` */
  predicate IsLowStock(current: JsVal, security: JsVal) {
    if Nullish(current) || IsNaN(current) then true
    else if Nullish(security) || IsNaN(security) then false
    else
      match (ParseInt(current), ParseInt(security))
      case (Some(c), Some(s)) => c <= s
      case _ => false
  }

  /** Called with the same value twice, as the statistics do, the check is
      false exactly for values that `isNaN` accepts but `parseInt` cannot
      read: blank text, or text such as ".5". Numbers and absent values
      always count as low. */
  lemma LowStockAgainstItself(v: JsVal)
    ensures !IsLowStock(v, v) <==> !Nullish(v) && !IsNaN(v) && ParseInt(v).None?
    ensures v.Num? || Nullish(v) ==> IsLowStock(v, v)
  {
  }

  lemma LowStockAgainstItselfExamples()
    ensures !IsLowStock(Str([]), Str([]))
    ensures !IsLowStock(Str("  "), Str("  "))
    ensures !IsLowStock(Str(".5"), Str(".5"))
    ensures IsLowStock(Num(7.0), Num(7.0))
  {
    BlankTextDiverges("  ");
    BlankTextDiverges([]);
    PointFiveIsAFraction();
  }

  /** ".5" is one half for `Number()` but unreadable for `parseInt`. */
  lemma PointFiveIsAFraction()
    ensures ToNumber(Str(".5")) == Fin(0.5)
    ensures ParseInt(Str(".5")) == None
  {
    assert Step(Lead, '.') == Point(false, 0, false);
    assert Step(Point(false, 0, false), '5') == Frac(false, 0, "5");
    assert Fraction("5") == 0.5;
  }

  /** The status of a stock level. */
  datatype StockLevel = Unknown | OutOfStock | LowStock | InStock {
    function Status(): string {
      match this
      case Unknown => "unknown"
      case OutOfStock => "out"
      case LowStock => "low"
      case InStock => "good"
    }
    function Color(): string {
      match this
      case Unknown => "gray"
      case OutOfStock => "red"
      case LowStock => "yellow"
      case InStock => "green"
    }
    function Message(): string {
      match this
      case Unknown => "Stock unknown"
      case OutOfStock => "Out of stock"
      case LowStock => "Low stock"
      case InStock => "In stock"
    }
  }

  /** `getStockStatus(currentStock, securityStock)` */
  function GetStockStatus(current: JsVal, security: JsVal): (r: StockLevel)
    ensures r == Unknown <==> Nullish(current) || IsNaN(current)
  {
    if Nullish(current) || IsNaN(current) then Unknown
    else
      var threshold := IntOrZero(security);
      match ParseInt(current)
      case Some(c) =>
        if c == 0 then OutOfStock
        else if c <= threshold then LowStock
        else InStock
      case None => InStock
  }

  /** The status agrees with the low-stock check: for numeric stock and
      threshold, a non-zero stock is shown as low exactly when the check
      says it is low, and a zero stock is shown as out. */
  lemma StockStatusAgreesWithLowStock(current: real, security: real)
    ensures Trunc(current) == 0 ==> GetStockStatus(Num(current), Num(security)) == OutOfStock
    ensures Trunc(current) != 0 ==>
      (GetStockStatus(Num(current), Num(security)) == LowStock <==> IsLowStock(Num(current), Num(security)))
  {
  }

  /** Blank text is not NaN for `isNaN` but unreadable for `parseInt`, so it
      falls through every test and is reported in stock. */
  lemma StockStatusOfBlankText(s: string, security: JsVal)
    requires IsBlank(s)
    ensures GetStockStatus(Str(s), security) == InStock
  {
    BlankTextDiverges(s);
  }

  // ---------------------------------------------------------------------
  // Validation

  const ReferenceRequired := "Reference is required"
  const ReferenceFormat := "Reference must be 2-20 alphanumeric characters"
  const DesignationRequired := "Designation is required"
  const DesignationTooShort := "Designation must be at least 2 characters"
  const StockRequired := "Stock sécurité is required"
  const StockInvalid := "Stock sécurité must be a positive number"
  const PurchaseRequired := "Prix d'achat HT is required"
  const PurchaseInvalid := "Prix d'achat HT must be a positive number"
  const SellingRequired := "Prix de vente HT is required"
  const SellingInvalid := "Prix de vente HT must be a positive number"
  const TvaRequired := "TVA is required"
  const TvaRange := "TVA must be between 0 and 100"
  const SellingBelowPurchase := "Prix de vente must be higher than prix d'achat"
  const ImageInvalid := "Image must be a valid URL"

  /** `parseInt(v) < 0` */
  predicate IntBelowZero(v: JsVal) {
    ParseInt(v).Some? && ParseInt(v).value < 0
  }

  /** `parseFloat(v) < 0` */
  predicate FloatBelow(v: JsVal, bound: real) {
    Lt(ParseFloat(v), Fin(bound))
  }

  /** `parseFloat(v) > 100` */
  predicate FloatAbove(v: JsVal, bound: real) {
    Lt(Fin(bound), ParseFloat(v))
  }

  /** `purchase && selling && parseFloat(purchase) >= parseFloat(selling)`:
      the business rule that the selling price exceed the purchase price. */
  predicate SellingNotAbovePurchase(purchase: JsVal, selling: JsVal) {
    Truthy(purchase) && Truthy(selling) && Le(ParseFloat(selling), ParseFloat(purchase))
  }

  /** `image && image.trim()` */
  predicate HasImage(image: Option<string>) {
    image.Some? && !IsBlank(image.value)
  }

  const AllArticleKeys: set<ArticleKey> :=
    {Reference, Designation, StockSecurite, PrixDAchatHT, PrixDeVenteHT, Tva, Image, Submit}

  /** The result of `validateArticleData`. */
  datatype Validation = Validation(isValid: bool, errors: map<ArticleKey, string>)

  /** The reference rule: required, then the reference format. */
  function ReferenceError(reference: Option<string>): (r: Option<string>)
    ensures r.Some? <==> !ValidateReference(reference)
    ensures r.Some? ==> r.value == if IsBlank(TextOr(reference)) then ReferenceRequired else ReferenceFormat
  {
    if IsBlank(TextOr(reference)) then Some(ReferenceRequired)
    else if !ValidateReference(reference) then Some(ReferenceFormat)
    else None
  }

  /** The designation rule: required, then at least two characters once
      trimmed. */
  function DesignationError(designation: Option<string>): (r: Option<string>)
    ensures r.Some? <==> |Trim(TextOr(designation))| < 2
  {
    if IsBlank(TextOr(designation)) then Some(DesignationRequired)
    else if |Trim(TextOr(designation))| < 2 then Some(DesignationTooShort)
    else None
  }

  /** The safety-stock rule: present, numeric and `parseInt` not negative. */
  function StockError(v: JsVal): (r: Option<string>)
    ensures r.None? ==> !IsEmptyInput(v) && !IsNaN(v) && NumberValue(v) > -1.0
  {
    if IsEmptyInput(v) then Some(StockRequired)
    else if IsNaN(v) || IntBelowZero(v) then Some(StockInvalid)
    else
      StockNotNegative(v);
      None
  }

  /** A price rule: present, numeric and `parseFloat` not negative. */
  function PriceError(v: JsVal, required: string, invalid: string): (r: Option<string>)
    ensures r.None? ==> !IsEmptyInput(v) && !IsNaN(v)
    ensures r.None? && IsUsableNumber(v) ==> NumberValue(v) >= 0.0
  {
    if IsEmptyInput(v) then Some(required)
    else if IsNaN(v) || FloatBelow(v, 0.0) then Some(invalid)
    else
      if IsUsableNumber(v) then UsableNumberParses(v); None else None
  }

  /** The tax-rate rule: present, numeric and `parseFloat` within 0..100. */
  function TvaError(v: JsVal, invalid: string): (r: Option<string>)
    ensures r.None? ==> !IsEmptyInput(v) && !IsNaN(v)
    ensures r.None? && IsUsableNumber(v) ==> 0.0 <= NumberValue(v) <= 100.0
  {
    if IsEmptyInput(v) then Some(TvaRequired)
    else if IsNaN(v) || FloatBelow(v, 0.0) || FloatAbove(v, 100.0) then Some(invalid)
    else
      if IsUsableNumber(v) then UsableNumberParses(v); None else None
  }

  /** The business rule, reported on the selling price. */
  function PriceOrderError(purchase: JsVal, selling: JsVal): (r: Option<string>)
    ensures r.None? && IsUsableNumber(purchase) && IsUsableNumber(selling) ==>
      NumberValue(purchase) < NumberValue(selling)
  {
    if SellingNotAbovePurchase(purchase, selling) then Some(SellingBelowPurchase)
    else
      if IsUsableNumber(purchase) && IsUsableNumber(selling) then
        UsableNumberParses(purchase);
        UsableNumberParses(selling);
        None
      else None
  }

  /** The image rule: a non-blank image must parse as a URL. */
  function ImageError(image: Option<string>, validUrl: string -> bool): (r: Option<string>)
    ensures r.Some? <==> HasImage(image) && !validUrl(image.value)
  {
    if HasImage(image) && !validUrl(image.value) then Some(ImageInvalid) else None
  }

  /** The message `validateArticleData` leaves under a key, if any. The
      business rule runs after the selling-price rule and overwrites its
      message. */
  function FieldError(a: Article, validUrl: string -> bool, key: ArticleKey): Option<string> {
    match key
    case Reference => ReferenceError(a.reference)
    case Designation => DesignationError(a.designation)
    case StockSecurite => StockError(a.stockSecurite)
    case PrixDAchatHT => PriceError(a.prixDAchatHT, PurchaseRequired, PurchaseInvalid)
    case PrixDeVenteHT =>
      if PriceOrderError(a.prixDAchatHT, a.prixDeVenteHT).Some? then PriceOrderError(a.prixDAchatHT, a.prixDeVenteHT)
      else PriceError(a.prixDeVenteHT, SellingRequired, SellingInvalid)
    case Tva => TvaError(a.tva, TvaRange)
    case Image => ImageError(a.image, validUrl)
    case Submit => None
  }

  /** `validateArticleData(articleData)`; URL parsing (`new URL`) is the
      predicate `validUrl`. Every rule runs, so every field with a problem
      is reported, and the article is valid exactly when none is. */
  function ValidateArticleData(a: Article, validUrl: string -> bool): (r: Validation)
    ensures r.isValid <==> r.errors == map[]
    ensures forall k :: k in r.errors <==> FieldError(a, validUrl, k).Some?
    ensures forall k | k in r.errors :: r.errors[k] == FieldError(a, validUrl, k).value
    ensures r.isValid <==> forall k :: FieldError(a, validUrl, k).None?
  {
    var errors := map k | k in AllArticleKeys && FieldError(a, validUrl, k).Some? :: FieldError(a, validUrl, k).value;
    assert forall k: ArticleKey ::
      k.Reference? || k.Designation? || k.StockSecurite? || k.PrixDAchatHT? ||
      k.PrixDeVenteHT? || k.Tva? || k.Image? || k.Submit?;
    Validation(errors == map[], errors)
  }

  /** Which text fields are in error, rule by rule. */
  lemma TextFieldErrors(a: Article, validUrl: string -> bool)
    ensures var r := ValidateArticleData(a, validUrl);
      && Submit !in r.errors
      && (Reference in r.errors <==> !ValidateReference(a.reference))
      && (Designation in r.errors <==> |Trim(TextOr(a.designation))| < 2)
      && (Image in r.errors <==> HasImage(a.image) && !validUrl(a.image.value))
  {
  }

  /** Whether the safety stock and the purchase price are in error. */
  lemma StockAndPurchaseErrors(a: Article, validUrl: string -> bool)
    ensures var r := ValidateArticleData(a, validUrl);
      && (StockSecurite in r.errors <==> IsEmptyInput(a.stockSecurite) || IsNaN(a.stockSecurite) || IntBelowZero(a.stockSecurite))
      && (PrixDAchatHT in r.errors <==> IsEmptyInput(a.prixDAchatHT) || IsNaN(a.prixDAchatHT) || FloatBelow(a.prixDAchatHT, 0.0))
  {
  }

  /** Whether the selling price and the tax rate are in error. */
  lemma SellingAndTvaErrors(a: Article, validUrl: string -> bool)
    ensures var r := ValidateArticleData(a, validUrl);
      && (PrixDeVenteHT in r.errors <==>
            || IsEmptyInput(a.prixDeVenteHT) || IsNaN(a.prixDeVenteHT) || FloatBelow(a.prixDeVenteHT, 0.0)
            || SellingNotAbovePurchase(a.prixDAchatHT, a.prixDeVenteHT))
      && (Tva in r.errors <==> IsEmptyInput(a.tva) || IsNaN(a.tva) || FloatBelow(a.tva, 0.0) || FloatAbove(a.tva, 100.0))
  {
    SellingFieldError(a, validUrl);
    TvaFieldError(a, validUrl);
  }

  lemma SellingFieldError(a: Article, validUrl: string -> bool)
    ensures FieldError(a, validUrl, PrixDeVenteHT).Some? <==>
            || IsEmptyInput(a.prixDeVenteHT) || IsNaN(a.prixDeVenteHT) || FloatBelow(a.prixDeVenteHT, 0.0)
            || SellingNotAbovePurchase(a.prixDAchatHT, a.prixDeVenteHT)
  {
  }

  lemma TvaFieldError(a: Article, validUrl: string -> bool)
    ensures FieldError(a, validUrl, Tva).Some? <==>
            IsEmptyInput(a.tva) || IsNaN(a.tva) || FloatBelow(a.tva, 0.0) || FloatAbove(a.tva, 100.0)
  {
  }

  /** The business rule's message lands on the selling price and never on
      the purchase price. */
  lemma PriceOrderReportedOnSellingPrice(a: Article, validUrl: string -> bool)
    requires SellingNotAbovePurchase(a.prixDAchatHT, a.prixDeVenteHT)
    ensures var r := ValidateArticleData(a, validUrl);
      PrixDeVenteHT in r.errors && r.errors[PrixDeVenteHT] == SellingBelowPurchase
  {
    assert FieldError(a, validUrl, PrixDeVenteHT) == Some(SellingBelowPurchase);
  }

  /** What an accepted article guarantees: a trimmed reference of the
      reference shape, a designation of at least two characters, a stock
      that is a number above -1, prices and rate that are numbers in
      range, and (when both prices are readable) a purchase price strictly
      below the selling price. */
  lemma ValidArticleIsWellFormed(a: Article, validUrl: string -> bool)
    requires ValidateArticleData(a, validUrl).isValid
    ensures ReferenceShape(Trim(TextOr(a.reference)))
    ensures |Trim(TextOr(a.designation))| >= 2
    ensures !IsEmptyInput(a.stockSecurite) && !IsNaN(a.stockSecurite) && NumberValue(a.stockSecurite) > -1.0
    ensures !IsEmptyInput(a.prixDAchatHT) && !IsNaN(a.prixDAchatHT)
    ensures !IsEmptyInput(a.prixDeVenteHT) && !IsNaN(a.prixDeVenteHT)
    ensures !IsEmptyInput(a.tva) && !IsNaN(a.tva)
    ensures IsUsableNumber(a.prixDAchatHT) ==> NumberValue(a.prixDAchatHT) >= 0.0
    ensures IsUsableNumber(a.tva) ==> 0.0 <= NumberValue(a.tva) <= 100.0
    ensures IsUsableNumber(a.prixDAchatHT) && IsUsableNumber(a.prixDeVenteHT) ==>
      NumberValue(a.prixDAchatHT) < NumberValue(a.prixDeVenteHT)
    ensures HasImage(a.image) ==> validUrl(a.image.value)
  {
    RulesPassWhenValid(a, validUrl);
  }

  /** Every field rule and the business rule pass. */
  predicate RulesPass(a: Article, validUrl: string -> bool) {
    && ReferenceError(a.reference).None?
    && DesignationError(a.designation).None?
    && StockError(a.stockSecurite).None?
    && PriceError(a.prixDAchatHT, PurchaseRequired, PurchaseInvalid).None?
    && PriceError(a.prixDeVenteHT, SellingRequired, SellingInvalid).None?
    && PriceOrderError(a.prixDAchatHT, a.prixDeVenteHT).None?
    && TvaError(a.tva, TvaRange).None?
    && ImageError(a.image, validUrl).None?
  }

  /** An article is valid exactly when every field rule and the business
      rule pass. */
  lemma ValidIffEveryRulePasses(a: Article, validUrl: string -> bool)
    ensures ValidateArticleData(a, validUrl).isValid <==> RulesPass(a, validUrl)
  {
    if RulesPass(a, validUrl) {
      NoFieldErrorWhenRulesPass(a, validUrl);
    } else if ValidateArticleData(a, validUrl).isValid {
      RulesPassWhenValid(a, validUrl);
    }
  }

  lemma NoFieldErrorWhenRulesPass(a: Article, validUrl: string -> bool)
    requires RulesPass(a, validUrl)
    ensures forall k :: FieldError(a, validUrl, k).None?
  {
    forall k ensures FieldError(a, validUrl, k).None? {
      match k
      case Reference =>
      case Designation =>
      case StockSecurite =>
      case PrixDAchatHT =>
      case PrixDeVenteHT =>
      case Tva =>
      case Image =>
      case Submit =>
    }
  }

  lemma RulesPassWhenValid(a: Article, validUrl: string -> bool)
    requires ValidateArticleData(a, validUrl).isValid
    ensures RulesPass(a, validUrl)
  {
    TextRulesPassWhenValid(a, validUrl);
    NumberRulesPassWhenValid(a, validUrl);
  }

  lemma TextRulesPassWhenValid(a: Article, validUrl: string -> bool)
    requires ValidateArticleData(a, validUrl).isValid
    ensures ReferenceError(a.reference).None?
    ensures DesignationError(a.designation).None?
    ensures ImageError(a.image, validUrl).None?
  {
    NoFieldErrorWhenValid(a, validUrl, Reference);
    NoFieldErrorWhenValid(a, validUrl, Designation);
    NoFieldErrorWhenValid(a, validUrl, Image);
  }

  lemma NoFieldErrorWhenValid(a: Article, validUrl: string -> bool, k: ArticleKey)
    requires ValidateArticleData(a, validUrl).isValid
    ensures FieldError(a, validUrl, k).None?
  {
    assert k !in ValidateArticleData(a, validUrl).errors;
  }

  lemma NumberRulesPassWhenValid(a: Article, validUrl: string -> bool)
    requires ValidateArticleData(a, validUrl).isValid
    ensures StockError(a.stockSecurite).None?
    ensures PriceError(a.prixDAchatHT, PurchaseRequired, PurchaseInvalid).None?
    ensures PriceError(a.prixDeVenteHT, SellingRequired, SellingInvalid).None?
    ensures PriceOrderError(a.prixDAchatHT, a.prixDeVenteHT).None?
    ensures TvaError(a.tva, TvaRange).None?
  {
    assert FieldError(a, validUrl, StockSecurite).None?;
    assert FieldError(a, validUrl, PrixDAchatHT).None?;
    assert FieldError(a, validUrl, PrixDeVenteHT).None?;
    assert FieldError(a, validUrl, Tva).None?;
  }

  /** A numeric value whose `parseInt` is not negative is above -1. */
  lemma StockNotNegative(v: JsVal)
    requires !IsEmptyInput(v) && !IsNaN(v) && !IntBelowZero(v)
    ensures NumberValue(v) > -1.0
  {
    if v.Str? {
      if IsBlank(v.s) {
        BlankTextDiverges(v.s);
      } else {
        ParseIntAgreesWithNumber(v.s);
      }
    }
  }

  /** The worked example: reference AB12, designation Widget, safety stock
      5, purchase price 10, selling price `selling` and a 20 % rate, no
      image. */
  predicate IsWidget(a: Article, selling: real) {
    && a.reference == Some("AB12") && a.designation == Some("Widget") && a.image == None
    && a.stockSecurite == Num(5.0) && a.prixDAchatHT == Num(10.0) && a.prixDeVenteHT == Num(selling)
    && a.tva == Num(20.0)
  }

  /** Sold at 15 the worked example is valid. */
  lemma WidgetIsValid(a: Article, validUrl: string -> bool)
    requires IsWidget(a, 15.0)
    ensures ValidateArticleData(a, validUrl).isValid
  {
    WidgetTextIsValid(a, validUrl);
    WidgetNumbers(a, 15.0);
    ValidIffEveryRulePasses(a, validUrl);
  }

  /** Sold at 8, below its purchase price, only the selling price is in
      error, and with the business rule's message. */
  lemma WidgetBelowCostExample(a: Article, validUrl: string -> bool)
    requires IsWidget(a, 8.0)
    ensures var r := ValidateArticleData(a, validUrl);
      && r.errors.Keys == {PrixDeVenteHT}
      && r.errors[PrixDeVenteHT] == SellingBelowPurchase
  {
    WidgetTextIsValid(a, validUrl);
    WidgetNumbers(a, 8.0);
    OnlyPriceOrderFails(a, validUrl);
  }

  /** When the business rule is the only rule that fails, the selling
      price is the only field in error. */
  lemma OnlyPriceOrderFails(a: Article, validUrl: string -> bool)
    requires ReferenceError(a.reference).None? && DesignationError(a.designation).None?
    requires ImageError(a.image, validUrl).None? && StockError(a.stockSecurite).None?
    requires PriceError(a.prixDAchatHT, PurchaseRequired, PurchaseInvalid).None? && TvaError(a.tva, TvaRange).None?
    requires PriceOrderError(a.prixDAchatHT, a.prixDeVenteHT).Some?
    ensures var r := ValidateArticleData(a, validUrl);
      && r.errors.Keys == {PrixDeVenteHT}
      && r.errors[PrixDeVenteHT] == SellingBelowPurchase
  {
    var r := ValidateArticleData(a, validUrl);
    forall k ensures k in r.errors <==> k == PrixDeVenteHT {
      OnlyPriceOrderFailsAt(a, validUrl, k);
    }
    assert FieldError(a, validUrl, PrixDeVenteHT) == Some(SellingBelowPurchase);
  }

  lemma OnlyPriceOrderFailsAt(a: Article, validUrl: string -> bool, k: ArticleKey)
    requires ReferenceError(a.reference).None? && DesignationError(a.designation).None?
    requires ImageError(a.image, validUrl).None? && StockError(a.stockSecurite).None?
    requires PriceError(a.prixDAchatHT, PurchaseRequired, PurchaseInvalid).None? && TvaError(a.tva, TvaRange).None?
    requires PriceOrderError(a.prixDAchatHT, a.prixDeVenteHT).Some?
    ensures FieldError(a, validUrl, k).Some? <==> k == PrixDeVenteHT
  {
    match k
    case Reference =>
    case Designation =>
    case StockSecurite =>
    case PrixDAchatHT =>
    case PrixDeVenteHT =>
    case Tva =>
    case Image =>
    case Submit =>
  }


  /** The numeric rules on the worked example. */
  lemma WidgetNumbers(a: Article, selling: real)
    requires a.stockSecurite == Num(5.0) && a.prixDAchatHT == Num(10.0) && a.prixDeVenteHT == Num(selling)
    requires a.tva == Num(20.0) && selling > 0.0
    ensures StockError(a.stockSecurite).None?
    ensures PriceError(a.prixDAchatHT, PurchaseRequired, PurchaseInvalid).None?
    ensures PriceError(a.prixDeVenteHT, SellingRequired, SellingInvalid).None?
    ensures PriceOrderError(a.prixDAchatHT, a.prixDeVenteHT) ==
      if selling <= 10.0 then Some(SellingBelowPurchase) else None
    ensures TvaError(a.tva, TvaRange).None?
  {
  }

  /** The text fields of the worked example pass their rules. */
  lemma WidgetTextIsValid(a: Article, validUrl: string -> bool)
    requires a.reference == Some("AB12") && a.designation == Some("Widget") && a.image == None
    ensures ReferenceError(a.reference).None?
    ensures DesignationError(a.designation).None?
    ensures ImageError(a.image, validUrl).None?
  {
    assert NoSpace("AB12") && ReferenceShape("AB12");
    assert NoSpace("Widget") && |"Widget"| == 6;
    ReferenceWithoutSpace(a.reference.value);
    DesignationWithoutSpace(a.designation.value);
  }

  /** Text without white space passes the reference rule exactly when it
      has the reference shape. */
  lemma ReferenceWithoutSpace(s: string)
    requires NoSpace(s)
    ensures ReferenceError(Some(s)).None? <==> ReferenceShape(s)
  {
    TrimOfNoSpace(s);
  }

  /** Text without white space passes the designation rule exactly when it
      has at least two characters. */
  lemma DesignationWithoutSpace(s: string)
    requires NoSpace(s)
    ensures DesignationError(Some(s)).None? <==> |s| >= 2
  {
    TrimOfNoSpace(s);
  }

  /** Sold at 15, the worked example's price with tax is 18 and its margin
      50 %. */
  lemma WidgetFigures()
    ensures PriceWithTva(Num(15.0), Num(20.0)) == Fin(18.0)
    ensures ProfitMargin(Num(15.0), Num(10.0)) == Fin(50.0)
  {
    assert PriceWithTva(Num(15.0), Num(20.0)) == ToFixed2(Add(Fin(15.0), Div(Mul(Fin(15.0), Fin(20.0)), Fin(100.0))));
    assert Add(Fin(15.0), Div(Mul(Fin(15.0), Fin(20.0)), Fin(100.0))) == Fin(18.0);
    assert Round2(18.0) == 18.0;
    assert ProfitMargin(Num(15.0), Num(10.0)) == ToFixed2(Mul(Div(Sub(Fin(15.0), Fin(10.0)), Fin(10.0)), Fin(100.0)));
    assert Mul(Div(Sub(Fin(15.0), Fin(10.0)), Fin(10.0)), Fin(100.0)) == Fin(50.0);
    assert Round2(50.0) == 50.0;
  }
}
