/** The article form (src/Components/Article/ArticleForm.tsx): its
    validator, the request it sends, the classification of a failed save,
    and the state changes of submitting and typing. Network I/O is the
    `Outcome` parameter; URL parsing (`new URL`) is the predicate
    `validUrl`. */
module ArticleForm {
  import opened Wrappers
  import opened Text
  import opened Js
  import opened Records
  import opened Http
  import opened ArticleUtils

  /** The form's `formData`: the inputs' text, or the values of the article
      being edited. */
  datatype FormData = FormData(
    reference: string,
    designation: string,
    stockSecurite: JsVal,
    prixDAchatHT: JsVal,
    prixDeVenteHT: JsVal,
    tva: JsVal,
    image: string)

  /** `formData[key]`, with text as a string value. */
  function FormField(f: FormData, key: ArticleKey): JsVal {
    match key
    case Reference => Str(f.reference)
    case Designation => Str(f.designation)
    case StockSecurite => f.stockSecurite
    case PrixDAchatHT => f.prixDAchatHT
    case PrixDeVenteHT => f.prixDeVenteHT
    case Tva => f.tva
    case Image => Str(f.image)
    case Submit => Undefined
  }

  /** `{...formData, [key]: value}` for an input of the form. */
  function WithField(f: FormData, key: ArticleKey, value: string): FormData
    requires key != Submit
  {
    match key
    case Reference => f.(reference := value)
    case Designation => f.(designation := value)
    case StockSecurite => f.(stockSecurite := Str(value))
    case PrixDAchatHT => f.(prixDAchatHT := Str(value))
    case PrixDeVenteHT => f.(prixDeVenteHT := Str(value))
    case Tva => f.(tva := Str(value))
    case Image => f.(image := value)
  }

  /** The initial `formData`: each field of the article being edited, or
      `''` when it is falsy or there is no article. */
  function InitialData(article: Option<Article>): (r: FormData)
    ensures article.None? ==> forall k | k != Submit :: FormField(r, k) == Str([])
    ensures article.Some? ==>
      var a := article.value;
      && (a.reference.Some? ==> r.reference == a.reference.value)
      && (a.designation.Some? ==> r.designation == a.designation.value)
      && (a.image.Some? ==> r.image == a.image.value)
      && (a.reference.None? ==> r.reference == [])
      && (a.designation.None? ==> r.designation == [])
      && (a.image.None? ==> r.image == [])
    ensures article.Some? ==> forall k | k == StockSecurite || k == PrixDAchatHT || k == PrixDeVenteHT || k == Tva ::
      && (Truthy(ArticleField(article.value, k)) ==> FormField(r, k) == ArticleField(article.value, k))
      && (!Truthy(ArticleField(article.value, k)) ==> FormField(r, k) == Str([]))
  {
    match article
    case None => FormData([], [], Str([]), Str([]), Str([]), Str([]), [])
    case Some(a) =>
      FormData(TextOr(a.reference), TextOr(a.designation),
        Or(a.stockSecurite, Str([])), Or(a.prixDAchatHT, Str([])), Or(a.prixDeVenteHT, Str([])), Or(a.tva, Str([])),
        TextOr(a.image))
  }

  /** Editing an article whose safety stock is the number 0: the form
      starts with `''` there, since 0 is falsy, and a submit reports the
      stock as required. */
  lemma EditZeroStockIsRequired(a: Article, validUrl: string -> bool)
    requires a.stockSecurite == Num(0.0)
    ensures InitialData(Some(a)).stockSecurite == Str([])
    ensures var r := ValidateForm(InitialData(Some(a)), validUrl);
      StockSecurite in r.errors && r.errors[StockSecurite] == StockRequired
  {
    var f := InitialData(Some(a));
    assert FormField(f, StockSecurite) == Str([]);
    assert FormFieldError(f, validUrl, StockSecurite) == Some(StockRequired);
  }

  /** The numeric fields of an article, by key. */
  function ArticleField(a: Article, key: ArticleKey): JsVal {
    match key
    case StockSecurite => a.stockSecurite
    case PrixDAchatHT => a.prixDAchatHT
    case PrixDeVenteHT => a.prixDeVenteHT
    case Tva => a.tva
    case _ => Undefined
  }

  // ---------------------------------------------------------------------
  // Validation

  const FormDesignationRequired := "Désignation is required"
  const FormTvaRange := "TVA must be a number between 0 and 100"

  /** `formData.image && formData.image.trim()` */
  predicate HasImageText(image: string) {
    image != [] && !IsBlank(image)
  }

  /** The image rule: a non-blank image must parse as a URL. */
  function ImageRuleError(image: string, validUrl: string -> bool): (r: Option<string>)
    ensures r.Some? <==> HasImageText(image) && !validUrl(image)
    ensures r.Some? ==> r.value == ImageInvalid
  {
    if HasImageText(image) && !validUrl(image) then Some(ImageInvalid) else None
  }

  /** The message `validateForm` leaves under a key, if any. The price
      order rule runs last and overwrites the selling price's message. */
  function FormFieldError(f: FormData, validUrl: string -> bool, key: ArticleKey): Option<string> {
    match key
    case Reference => if IsBlank(f.reference) then Some(ReferenceRequired) else None
    case Designation => if IsBlank(f.designation) then Some(FormDesignationRequired) else None
    case StockSecurite => StockError(f.stockSecurite)
    case PrixDAchatHT => PriceError(f.prixDAchatHT, PurchaseRequired, PurchaseInvalid)
    case PrixDeVenteHT =>
      if SellingNotAbovePurchase(f.prixDAchatHT, f.prixDeVenteHT) then Some(SellingBelowPurchase)
      else PriceError(f.prixDeVenteHT, SellingRequired, SellingInvalid)
    case Tva => TvaError(f.tva, FormTvaRange)
    case Image => ImageRuleError(f.image, validUrl)
    case Submit => None
  }

  /** `validateForm()`: the error map it sets and its verdict. Every rule
      runs; the form is valid exactly when no rule recorded an error. */
  function ValidateForm(f: FormData, validUrl: string -> bool): (r: Validation)
    ensures r.isValid <==> r.errors == map[]
    ensures forall k :: k in r.errors <==> FormFieldError(f, validUrl, k).Some?
    ensures forall k | k in r.errors :: r.errors[k] == FormFieldError(f, validUrl, k).value
    ensures Submit !in r.errors
  {
    var errors := map k | k in AllArticleKeys && FormFieldError(f, validUrl, k).Some? :: FormFieldError(f, validUrl, k).value;
    assert forall k: ArticleKey ::
      k.Reference? || k.Designation? || k.StockSecurite? || k.PrixDAchatHT? ||
      k.PrixDeVenteHT? || k.Tva? || k.Image? || k.Submit?;
    Validation(errors == map[], errors)
  }

  /** The required text fields are in error exactly when blank. */
  lemma FormTextErrors(f: FormData, validUrl: string -> bool)
    ensures var r := ValidateForm(f, validUrl);
      && (Reference in r.errors <==> IsBlank(f.reference))
      && (Designation in r.errors <==> IsBlank(f.designation))
  {
    assert FormFieldError(f, validUrl, Reference).Some? <==> IsBlank(f.reference);
    assert FormFieldError(f, validUrl, Designation).Some? <==> IsBlank(f.designation);
  }

  /** The image is in error exactly when it has non-blank text that is not
      a URL. */
  lemma FormImageError(f: FormData, validUrl: string -> bool)
    ensures Image in ValidateForm(f, validUrl).errors <==> HasImageText(f.image) && !validUrl(f.image)
  {
    assert FormFieldError(f, validUrl, Image).Some? <==> HasImageText(f.image) && !validUrl(f.image);
  }

  /** The safety stock is in error when missing, not a number, or read by
      `parseInt` as negative; the rate when missing, not a number, or read
      by `parseFloat` outside 0..100. */
  lemma FormNumberErrors(f: FormData, validUrl: string -> bool)
    ensures var r := ValidateForm(f, validUrl);
      && (StockSecurite in r.errors <==> IsEmptyInput(f.stockSecurite) || IsNaN(f.stockSecurite) || IntBelowZero(f.stockSecurite))
      && (Tva in r.errors <==> IsEmptyInput(f.tva) || IsNaN(f.tva) || FloatBelow(f.tva, 0.0) || FloatAbove(f.tva, 100.0))
  {
    assert FormFieldError(f, validUrl, StockSecurite) == StockError(f.stockSecurite);
    assert FormFieldError(f, validUrl, Tva) == TvaError(f.tva, FormTvaRange);
  }

  /** A blank image, empty or white space only, is never an error,
      whatever `new URL` would say of it. */
  lemma BlankImageIsNoError(f: FormData, validUrl: string -> bool)
    requires IsBlank(f.image)
    ensures Image !in ValidateForm(f, validUrl).errors
  {
  }

  /** When both prices are truthy and the purchase price is not below the
      selling price, the selling price carries the price-order message
      and the purchase price's own verdict is untouched. */
  lemma FormPriceOrderOnSellingPrice(f: FormData, validUrl: string -> bool)
    requires SellingNotAbovePurchase(f.prixDAchatHT, f.prixDeVenteHT)
    ensures var r := ValidateForm(f, validUrl);
      && PrixDeVenteHT in r.errors && r.errors[PrixDeVenteHT] == SellingBelowPurchase
      && (PrixDAchatHT in r.errors <==> PriceError(f.prixDAchatHT, PurchaseRequired, PurchaseInvalid).Some?)
  {
    assert FormFieldError(f, validUrl, PrixDeVenteHT) == Some(SellingBelowPurchase);
  }

  /** The form as the article utilities see it. */
  function AsArticle(f: FormData): Article {
    Article(None, Some(f.reference), Some(f.designation), f.stockSecurite, f.prixDAchatHT, f.prixDeVenteHT, f.tva, Some(f.image))
  }

  /** Every rule of the form passes. */
  predicate FormRulesPass(f: FormData, validUrl: string -> bool) {
    && !IsBlank(f.reference) && !IsBlank(f.designation)
    && StockError(f.stockSecurite).None?
    && PriceError(f.prixDAchatHT, PurchaseRequired, PurchaseInvalid).None?
    && PriceError(f.prixDeVenteHT, SellingRequired, SellingInvalid).None?
    && !SellingNotAbovePurchase(f.prixDAchatHT, f.prixDeVenteHT)
    && TvaError(f.tva, FormTvaRange).None?
    && !(HasImageText(f.image) && !validUrl(f.image))
  }

  /** The form is valid exactly when every rule passes. */
  lemma FormValidIffRulesPass(f: FormData, validUrl: string -> bool)
    ensures ValidateForm(f, validUrl).isValid <==> FormRulesPass(f, validUrl)
  {
    if FormRulesPass(f, validUrl) {
      FormValidWhenRulesPass(f, validUrl);
    } else if ValidateForm(f, validUrl).isValid {
      FormRulesPassWhenValid(f, validUrl);
    }
  }

  lemma FormValidWhenRulesPass(f: FormData, validUrl: string -> bool)
    requires FormRulesPass(f, validUrl)
    ensures ValidateForm(f, validUrl).isValid
  {
    var v := ValidateForm(f, validUrl);
    forall k | k in v.errors ensures false {
      NoFieldErrorWhenRulesPass(f, validUrl, k);
    }
    assert v.errors == map[];
  }

  lemma NoFieldErrorWhenRulesPass(f: FormData, validUrl: string -> bool, k: ArticleKey)
    requires FormRulesPass(f, validUrl)
    ensures FormFieldError(f, validUrl, k).None?
  {
    match k
    case Reference =>
    case Designation =>
    case StockSecurite =>
    case PrixDAchatHT =>
    case PrixDeVenteHT =>
    case Tva =>
    case Image =>
    case Submit =>
  }

  lemma FormRulesPassWhenValid(f: FormData, validUrl: string -> bool)
    requires ValidateForm(f, validUrl).isValid
    ensures FormRulesPass(f, validUrl)
  {
    TextRulesPassWhenValid(f, validUrl);
    ImageRulePassesWhenValid(f, validUrl);
    NumberRulesPassWhenValid(f, validUrl);
    PriceRulesPassWhenValid(f, validUrl);
  }

  lemma TextRulesPassWhenValid(f: FormData, validUrl: string -> bool)
    requires ValidateForm(f, validUrl).isValid
    ensures !IsBlank(f.reference) && !IsBlank(f.designation)
  {
    NoFieldErrorWhenValid(f, validUrl, Reference);
    NoFieldErrorWhenValid(f, validUrl, Designation);
  }

  lemma ImageRulePassesWhenValid(f: FormData, validUrl: string -> bool)
    requires ValidateForm(f, validUrl).isValid
    ensures !(HasImageText(f.image) && !validUrl(f.image))
  {
    FormImageError(f, validUrl);
  }

  lemma NumberRulesPassWhenValid(f: FormData, validUrl: string -> bool)
    requires ValidateForm(f, validUrl).isValid
    ensures StockError(f.stockSecurite).None?
    ensures TvaError(f.tva, FormTvaRange).None?
  {
    NoFieldErrorWhenValid(f, validUrl, StockSecurite);
    NoFieldErrorWhenValid(f, validUrl, Tva);
  }

  lemma PriceRulesPassWhenValid(f: FormData, validUrl: string -> bool)
    requires ValidateForm(f, validUrl).isValid
    ensures PriceError(f.prixDAchatHT, PurchaseRequired, PurchaseInvalid).None?
    ensures PriceError(f.prixDeVenteHT, SellingRequired, SellingInvalid).None?
    ensures !SellingNotAbovePurchase(f.prixDAchatHT, f.prixDeVenteHT)
  {
    NoFieldErrorWhenValid(f, validUrl, PrixDAchatHT);
    NoFieldErrorWhenValid(f, validUrl, PrixDeVenteHT);
  }

  lemma NoFieldErrorWhenValid(f: FormData, validUrl: string -> bool, k: ArticleKey)
    requires ValidateForm(f, validUrl).isValid
    ensures FormFieldError(f, validUrl, k).None?
  {
    assert k !in ValidateForm(f, validUrl).errors;
  }

  /** The article utilities' validator is the stricter one: whatever it
      accepts, the form accepts. */
  lemma UtilsValidImpliesFormValid(f: FormData, validUrl: string -> bool)
    requires ValidateArticleData(AsArticle(f), validUrl).isValid
    ensures ValidateForm(f, validUrl).isValid
  {
    var a := AsArticle(f);
    RulesPassWhenValid(a, validUrl);
    UtilsTextRulesAreStricter(f, validUrl);
    FormValidIffRulesPass(f, validUrl);
  }

  lemma UtilsTextRulesAreStricter(f: FormData, validUrl: string -> bool)
    requires ReferenceError(Some(f.reference)).None? && DesignationError(Some(f.designation)).None?
    requires ImageError(Some(f.image), validUrl).None?
    ensures !IsBlank(f.reference) && !IsBlank(f.designation) && !(HasImageText(f.image) && !validUrl(f.image))
  {
    assert ReferenceShape(Trim(f.reference));
  }

  // ---------------------------------------------------------------------
  // The request

  /** The body `saveArticle` sends; `image` is absent (None) unless given. */
  datatype RequestBody = RequestBody(
    reference: string,
    designation: string,
    stockSecurite: Option<int>,
    prixDAchatHT: Number,
    prixDeVenteHT: Number,
    tva: Number,
    image: Option<string>)

  function RequestBodyOf(f: FormData): (r: RequestBody)
    ensures r.image.Some? <==> HasImageText(f.image)
    ensures r.image.Some? ==> r.image.value == Trim(f.image) && r.image.value != []
  {
    RequestBody(Trim(f.reference), Trim(f.designation), ParseInt(f.stockSecurite),
      ParseFloat(f.prixDAchatHT), ParseFloat(f.prixDeVenteHT), ParseFloat(f.tva),
      if HasImageText(f.image) then Some(Trim(f.image)) else None)
  }

  /** What a valid form sends: trimmed, non-blank text; a safety stock that
      is an integer above -1 or unreadable; prices and rate that are
      numbers in range unless they were typed as blank text; and, when both
      prices are usable numbers, a purchase price below the selling price. */
  lemma ValidFormBody(f: FormData, validUrl: string -> bool)
    requires ValidateForm(f, validUrl).isValid
    ensures var b := RequestBodyOf(f);
      && b.reference != [] && b.designation != []
      && (b.stockSecurite.Some? ==> b.stockSecurite.value >= 0)
      && (IsUsableNumber(f.prixDAchatHT) ==> b.prixDAchatHT.Fin? && b.prixDAchatHT.v >= 0.0)
      && (IsUsableNumber(f.prixDeVenteHT) ==> b.prixDeVenteHT.Fin? && b.prixDeVenteHT.v >= 0.0)
      && (IsUsableNumber(f.prixDAchatHT) && IsUsableNumber(f.prixDeVenteHT) ==>
            b.prixDAchatHT.v < b.prixDeVenteHT.v)
      && (IsUsableNumber(f.tva) ==> b.tva.Fin? && 0.0 <= b.tva.v <= 100.0)
  {
    FormRulesPassWhenValid(f, validUrl);
    StockSent(f.stockSecurite);
    PriceSent(f.prixDAchatHT, PurchaseRequired, PurchaseInvalid);
    PriceSent(f.prixDeVenteHT, SellingRequired, SellingInvalid);
    PriceOrderSent(f.prixDAchatHT, f.prixDeVenteHT);
    RateSent(f.tva);
  }

  /** A stock that passes its rule is sent as an integer of at least 0, or
      as NaN. */
  lemma StockSent(v: JsVal)
    requires StockError(v).None?
    ensures ParseInt(v).Some? ==> ParseInt(v).value >= 0
  {
  }

  /** A price that passes its rule and is a usable number is sent as a
      number of at least 0. */
  lemma PriceSent(v: JsVal, required: string, invalid: string)
    requires PriceError(v, required, invalid).None?
    ensures IsUsableNumber(v) ==> ParseFloat(v).Fin? && ParseFloat(v).v >= 0.0
  {
    if IsUsableNumber(v) {
      UsableNumberParses(v);
    }
  }

  /** A rate that passes its rule and is a usable number is sent as a
      number in 0..100. */
  lemma RateSent(v: JsVal)
    requires TvaError(v, FormTvaRange).None?
    ensures IsUsableNumber(v) ==> ParseFloat(v).Fin? && 0.0 <= ParseFloat(v).v <= 100.0
  {
    if IsUsableNumber(v) {
      UsableNumberParses(v);
    }
  }

  /** When the price-order rule passes and both prices are usable numbers,
      the purchase price sent is below the selling price sent. */
  lemma PriceOrderSent(purchase: JsVal, selling: JsVal)
    requires !SellingNotAbovePurchase(purchase, selling)
    ensures IsUsableNumber(purchase) && IsUsableNumber(selling) ==>
      && ParseFloat(purchase).Fin? && ParseFloat(selling).Fin?
      && ParseFloat(purchase).v < ParseFloat(selling).v
  {
    if IsUsableNumber(purchase) && IsUsableNumber(selling) {
      UsableNumberParses(purchase);
      UsableNumberParses(selling);
    }
  }

  /** A price typed as blank text passes `isNaN` and is sent as NaN. */
  lemma BlankPriceSentAsNaN(f: FormData, s: string)
    requires f.prixDAchatHT == Str(s) && s != [] && IsBlank(s)
    ensures PriceError(f.prixDAchatHT, PurchaseRequired, PurchaseInvalid).None?
    ensures RequestBodyOf(f).prixDAchatHT == NaN
  {
    BlankTextDiverges(s);
  }

  datatype Verb = Put | Post

  datatype Request = Request(verb: Verb, url: string)

  const ArticlesUrl := "http://localhost:8090/api/articles"

  /** `${id}`: the decimal text of an id, "undefined" when there is none. */
  function IdText(id: Option<int>): (r: string)
    ensures r != []
  {
    match id
    case None => "undefined"
    case Some(k) => if k >= 0 then NatToString(k) else "-" + NatToString(-k)
  }

  /** The request `saveArticle` sends: PUT to the article's own address
      when an article is being edited, POST to the collection otherwise. */
  function SaveRequest(editing: Option<Article>): (r: Request)
    ensures r.verb == Put <==> editing.Some?
  {
    match editing
    case Some(a) => Request(Put, ArticlesUrl + "/" + IdText(a.id))
    case None => Request(Post, ArticlesUrl)
  }

  /** An edit goes to the collection's address followed by the id. */
  lemma EditAddressExtendsCollection(a: Article)
    ensures var put := SaveRequest(Some(a)).url;
      var post := SaveRequest(None).url;
      |put| > |post| + 1 && put[..|post|] == post && put[|post|] == '/' && put[|post| + 1..] == IdText(a.id)
  {
    var post := SaveRequest(None).url;
    var put := SaveRequest(Some(a)).url;
    assert put == post + "/" + IdText(a.id);
    assert put[..|post|] == post;
    assert put[|post| + 1..] == IdText(a.id);
  }

  // ---------------------------------------------------------------------
  // Saving

  /** What `saveArticle` returns. */
  datatype SaveResult<D> = SaveResult(success: bool, data: Option<D>, message: string)

  const UpdatedMessage := "Article updated successfully"
  const CreatedMessage := "Article created successfully"

  /** `data?.message || data?.error || fallback` */
  function ReplyText(r: Reply, fallback: string): string {
    OrText(r.message, OrText(r.error, fallback))
  }

  /** The catch block of `saveArticle`. */
  function SaveErrorMessage(e: Failure): string {
    match e.response
    case Some(r) =>
      if r.status == 400 then "Validation error: " + ReplyText(r, "Server error")
      else if r.status == 401 then AuthRequiredMessage
      else if r.status == 403 then AccessDeniedMessage
      else if r.status == 409 then DuplicateReferenceMessage
      else if r.status == 404 then NotFoundMessage
      else if r.status >= 500 then ServerErrorMessage
      else "Error: " + ReplyText(r, "Server error")
    case None =>
      if e.request then NetworkErrorMessage
      else if e.code == TimeoutCode then TimeoutMessage
      else UnexpectedMessage
  }

  /** `saveArticle(formData)`: success on 200 or 201; any other status
      throws an error that has neither response nor request. */
  function SaveArticle<D>(editing: Option<Article>, outcome: Outcome<D>): (r: SaveResult<D>)
    ensures r.success <==> outcome.Resolved? && (outcome.status == 200 || outcome.status == 201)
    ensures r.success ==> r.data == Some(outcome.data)
    ensures !r.success ==> r.data.None?
  {
    match outcome
    case Resolved(status, data) =>
      if status == 200 || status == 201 then
        SaveResult(true, Some(data), if editing.Some? then UpdatedMessage else CreatedMessage)
      else SaveResult(false, None, UnexpectedMessage)
    case Rejected(e) => SaveResult(false, None, SaveErrorMessage(e))
  }

  /** The order of the checks: once a response has arrived only its status
      and body count; without one, a request that went out is a network
      error whatever its code, so the timeout message needs both missing. */
  lemma SaveErrorPrecedence(e: Failure, request: bool, code: string, message: string)
    ensures e.response.Some? ==> SaveErrorMessage(e) == SaveErrorMessage(Failure(e.response, request, code, message))
    ensures e.response.None? && e.request ==> SaveErrorMessage(e) == NetworkErrorMessage
    ensures SaveErrorMessage(e) == TimeoutMessage <==> e.response.None? && !e.request && e.code == TimeoutCode
  {
    if e.response.Some? {
      ResponseMessageIsNotTimeout(e);
    }
  }
  lemma ResponseMessageIsNotTimeout(e: Failure)
    requires e.response.Some?
    ensures SaveErrorMessage(e) != TimeoutMessage
  {
    var r := e.response.value;
    var m := SaveErrorMessage(e);
    assert TimeoutMessage[0] == 'R';
    if r.status == 400 {
      assert m == "Validation error: " + ReplyText(r, "Server error");
      assert m[0] == 'V';
    } else if r.status !in {401, 403, 409, 404} && r.status < 500 {
      assert m == "Error: " + ReplyText(r, "Server error");
      assert m[0] == 'E';
    }
  }


  /** The fixed answers for the statuses the form knows. */
  lemma SaveErrorStatuses(r: Reply, request: bool, code: string, message: string)
    ensures var m := SaveErrorMessage(Failure(Some(r), request, code, message));
      && (r.status == 409 ==> m == DuplicateReferenceMessage)
      && (r.status == 404 ==> m == NotFoundMessage)
      && (r.status >= 500 ==> m == ServerErrorMessage)
      && (r.status == 400 ==> m == "Validation error: " + ReplyText(r, "Server error"))
  {
  }

  // ---------------------------------------------------------------------
  // Form state

  /** The form's `formData` and `errors`. */
  datatype FormState = FormState(data: FormData, errors: map<ArticleKey, string>)

  /** What a submit leads to: the new state, and the data passed to
      `onSuccess` if the save succeeded. */
  datatype Submitted<D> = Submitted(state: FormState, passedUp: Option<D>)

  /** `handleSubmit`: validate; if valid, save; on failure the error map
      becomes `{submit: message}`. */
  function HandleSubmit<D>(s: FormState, validUrl: string -> bool, editing: Option<Article>, outcome: Outcome<D>): (r: Submitted<D>)
    ensures r.state.data == s.data
    ensures r.passedUp.Some? ==> ValidateForm(s.data, validUrl).isValid && outcome.Resolved? && r.passedUp.value == outcome.data
  {
    var v := ValidateForm(s.data, validUrl);
    if !v.isValid then Submitted(FormState(s.data, v.errors), None)
    else
      var result := SaveArticle(editing, outcome);
      if result.success then Submitted(FormState(s.data, v.errors), result.data)
      else Submitted(FormState(s.data, map[Submit := result.message]), None)
  }

  /** The three ways a submit ends: an invalid form shows its field errors
      and sends nothing; a failed save shows only the submit message; a
      successful save passes the server's data up with no error shown. */
  lemma HandleSubmitCases<D>(s: FormState, validUrl: string -> bool, editing: Option<Article>, outcome: Outcome<D>)
    ensures var r := HandleSubmit(s, validUrl, editing, outcome);
      var v := ValidateForm(s.data, validUrl);
      && (!v.isValid ==> r.state.errors == v.errors && r.passedUp.None?)
      && (v.isValid && !SaveArticle(editing, outcome).success ==>
            r.state.errors == map[Submit := SaveArticle(editing, outcome).message] && r.passedUp.None?)
      && (v.isValid && SaveArticle(editing, outcome).success ==> r.state.errors == map[] && r.passedUp.Some?)
  {
  }

  /** `errors[key]` is truthy. */
  predicate HasError(errors: map<ArticleKey, string>, key: ArticleKey) {
    key in errors && errors[key] != []
  }

  /** `handleChange` for the input `key`: the functional updates clear the
      field's error and the submit error, each only if set. */
  function HandleChange(s: FormState, key: ArticleKey, value: string): FormState
    requires key != Submit
  {
    var cleared := if HasError(s.errors, key) then s.errors[key := []] else s.errors;
    var errors := if HasError(s.errors, Submit) then cleared[Submit := []] else cleared;
    FormState(WithField(s.data, key, value), errors)
  }

  /** Typing in a field changes that field only, leaves neither its error
      nor the submit error showing, and keeps every other error as it was. */
  lemma HandleChangeSpec(s: FormState, key: ArticleKey, value: string)
    requires key != Submit
    ensures var t := HandleChange(s, key, value);
      && FormField(t.data, key) == Str(value)
      && (forall k | k != key :: FormField(t.data, k) == FormField(s.data, k))
      && !HasError(t.errors, key) && !HasError(t.errors, Submit)
      && (forall k | k != key && k != Submit :: (k in t.errors <==> k in s.errors) && (k in t.errors ==> t.errors[k] == s.errors[k]))
  {
    var t := HandleChange(s, key, value);
    forall k | k != key ensures FormField(t.data, k) == FormField(s.data, k) {
      match key
      case Reference =>
      case Designation =>
      case StockSecurite =>
      case PrixDAchatHT =>
      case PrixDeVenteHT =>
      case Tva =>
      case Image =>
    }
  }
}
