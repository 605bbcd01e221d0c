/** The older article form (src/Article/ArticleForm.tsx). It shares its
    form data and initial values with the article form, but its validator
    is weaker, every save is a POST to one address, its error
    classification has no 404 case, a successful save passes up the form
    merged with the server's record, and its change handler loses one of
    its two error updates. Network I/O is the `Outcome` parameter. */
module LegacyArticleForm {
  import opened Wrappers
  import opened Text
  import opened Js
  import opened Records
  import opened Http
  import opened ArticleUtils
  import opened ArticleForm

  // ---------------------------------------------------------------------
  // Validation

  const StockNotPositive := "Stock sécurité must be a positive number"
  const PurchaseNotValid := "Prix d'achat HT must be a valid positive number"
  const SellingNotValid := "Prix de vente HT must be a valid positive number"
  const TvaNotPercentage := "TVA must be a valid percentage between 0 and 100"

  /** `!v || v < 0`: the comparison reads text with `Number()`, so text that
      is not a number compares false and passes. */
  predicate LegacyStockRejected(v: JsVal) {
    !Truthy(v) || Lt(ToNumber(v), Fin(0.0))
  }

  /** `!v || isNaN(parseFloat(v)) || parseFloat(v) < low || parseFloat(v) > high`,
      the upper bound only when there is one. */
  predicate LegacyNumberRejected(v: JsVal, high: Option<real>) {
    || !Truthy(v)
    || ParseFloat(v).NaN?
    || Lt(ParseFloat(v), Fin(0.0))
    || (high.Some? && Lt(Fin(high.value), ParseFloat(v)))
  }

  /** The message the legacy `validateForm` leaves under a key, if any.
      There is no rule for the image and none across the two prices. */
  function LegacyFieldError(f: FormData, key: ArticleKey): Option<string> {
    match key
    case Reference => if IsBlank(f.reference) then Some(ReferenceRequired) else None
    case Designation => if IsBlank(f.designation) then Some(DesignationRequired) else None
    case StockSecurite => if LegacyStockRejected(f.stockSecurite) then Some(StockNotPositive) else None
    case PrixDAchatHT => if LegacyNumberRejected(f.prixDAchatHT, None) then Some(PurchaseNotValid) else None
    case PrixDeVenteHT => if LegacyNumberRejected(f.prixDeVenteHT, None) then Some(SellingNotValid) else None
    case Tva => if LegacyNumberRejected(f.tva, Some(100.0)) then Some(TvaNotPercentage) else None
    case Image => None
    case Submit => None
  }

  /** The legacy `validateForm()`: every rule runs; the form is valid
      exactly when no rule recorded an error. */
  function LegacyValidate(f: FormData): (r: Validation)
    ensures r.isValid <==> r.errors == map[]
    ensures forall k :: k in r.errors <==> LegacyFieldError(f, k).Some?
    ensures forall k | k in r.errors :: r.errors[k] == LegacyFieldError(f, k).value
  {
    var errors := map k | k in AllArticleKeys && LegacyFieldError(f, k).Some? :: LegacyFieldError(f, k).value;
    assert forall k: ArticleKey ::
      k.Reference? || k.Designation? || k.StockSecurite? || k.PrixDAchatHT? ||
      k.PrixDeVenteHT? || k.Tva? || k.Image? || k.Submit?;
    Validation(errors == map[], errors)
  }

  /** The required text fields are in error exactly when blank. */
  lemma LegacyTextErrors(f: FormData)
    ensures var r := LegacyValidate(f);
      && (Reference in r.errors <==> IsBlank(f.reference))
      && (Designation in r.errors <==> IsBlank(f.designation))
  {
    assert LegacyFieldError(f, Reference).Some? <==> IsBlank(f.reference);
    assert LegacyFieldError(f, Designation).Some? <==> IsBlank(f.designation);
  }

  /** The image is never checked, and the submit slot is not a rule. */
  lemma LegacyNoImageError(f: FormData)
    ensures Image !in LegacyValidate(f).errors && Submit !in LegacyValidate(f).errors
  {
    assert LegacyFieldError(f, Image).None? && LegacyFieldError(f, Submit).None?;
  }

  /** The numeric fields: the stock is in error when falsy or below zero as
      a number; prices when falsy, unreadable by `parseFloat` or negative;
      the rate also above 100. */
  lemma LegacyNumberErrors(f: FormData)
    ensures var r := LegacyValidate(f);
      && (StockSecurite in r.errors <==> !Truthy(f.stockSecurite) || Lt(ToNumber(f.stockSecurite), Fin(0.0)))
      && (PrixDAchatHT in r.errors <==> !Truthy(f.prixDAchatHT) || ParseFloat(f.prixDAchatHT).NaN? || Lt(ParseFloat(f.prixDAchatHT), Fin(0.0)))
      && (Tva in r.errors <==> LegacyNumberRejected(f.tva, Some(100.0)))
  {
    assert LegacyFieldError(f, StockSecurite).Some? <==> LegacyStockRejected(f.stockSecurite);
    assert LegacyFieldError(f, PrixDAchatHT).Some? <==> LegacyNumberRejected(f.prixDAchatHT, None);
    assert LegacyFieldError(f, Tva).Some? <==> LegacyNumberRejected(f.tva, Some(100.0));
  }

  /** No rule relates the two prices: the purchase price never changes
      whether, or with what message, the selling price is in error. */
  lemma LegacyPricesIndependent(f: FormData, purchase: JsVal)
    ensures var g := f.(prixDAchatHT := purchase);
      && (PrixDeVenteHT in LegacyValidate(g).errors <==> PrixDeVenteHT in LegacyValidate(f).errors)
      && (PrixDeVenteHT in LegacyValidate(f).errors ==>
            LegacyValidate(g).errors[PrixDeVenteHT] == LegacyValidate(f).errors[PrixDeVenteHT])
  {
    var g := f.(prixDAchatHT := purchase);
    assert LegacyFieldError(g, PrixDeVenteHT) == LegacyFieldError(f, PrixDeVenteHT);
  }

  /** Text for the stock that `Number()` cannot read passes the legacy
      rule, which the article form rejects as not a number. */
  lemma LegacyAcceptsUnreadableStock(f: FormData, s: string)
    requires f.stockSecurite == Str(s) && s != [] && IsNaN(Str(s))
    ensures StockSecurite !in LegacyValidate(f).errors
    ensures StockSecurite in ValidateForm(f, _ => true).errors
  {
    assert LegacyFieldError(f, StockSecurite).None?;
    FormNumberErrors(f, _ => true);
  }

  /** A stock of the number 0 is falsy: the legacy form rejects it while
      the article form accepts it. */
  lemma LegacyRejectsZeroStock(f: FormData)
    requires f.stockSecurite == Num(0.0)
    ensures StockSecurite in LegacyValidate(f).errors
    ensures StockSecurite !in ValidateForm(f, _ => true).errors
  {
    assert LegacyFieldError(f, StockSecurite).Some?;
    FormNumberErrors(f, _ => true);
    assert ParseInt(Num(0.0)) == Some(0);
  }

  /** A selling price below the purchase price passes the legacy form but
      not the article form. */
  lemma LegacyIgnoresPriceOrder(f: FormData, purchase: real, selling: real)
    requires f.prixDAchatHT == Num(purchase) && f.prixDeVenteHT == Num(selling)
    requires 0.0 < selling < purchase
    ensures PrixDeVenteHT !in LegacyValidate(f).errors
    ensures PrixDeVenteHT in ValidateForm(f, _ => true).errors
  {
    assert LegacyFieldError(f, PrixDeVenteHT).None?;
    FormPriceOrderOnSellingPrice(f, _ => true);
  }

  // ---------------------------------------------------------------------
  // The request

  const LegacyArticleUrl := "http://localhost:8090/api/article"

  /** The body `saveArticleToDatabase` sends: trimmed text, `parseInt` of
      the stock, `parseFloat` of prices and rate, and the trimmed image or
      `null` (None) when that is empty. */
  function LegacyBodyOf(f: FormData): (r: RequestBody)
    ensures r.image.None? <==> IsBlank(f.image)
  {
    RequestBody(Trim(f.reference), Trim(f.designation), ParseInt(f.stockSecurite),
      ParseFloat(f.prixDAchatHT), ParseFloat(f.prixDeVenteHT), ParseFloat(f.tva),
      if Trim(f.image) != [] then Some(Trim(f.image)) else None)
  }

  /** The stock rule compares the whole text as a number while the body
      sends `parseInt` of it, so text such as "-5a" passes the rule and a
      negative stock is sent. */
  lemma LegacySendsNegativeStock(f: FormData, s: string)
    requires f.stockSecurite == Str(s) && s == "-5a"
    ensures StockSecurite !in LegacyValidate(f).errors
    ensures LegacyBodyOf(f).stockSecurite == Some(-5)
  {
    MinusFiveA(s);
    assert LegacyFieldError(f, StockSecurite).None?;
  }

  lemma MinusFiveA(s: string)
    requires s == "-5a"
    ensures ToNumber(Str(s)) == NaN && ParseInt(Str(s)) == Some(-5)
  {
    assert !IsSpace('-') && !IsSpace('5') && !IsSpace('a') && IsDigit('5') && !IsDigit('a');
    assert Step(Lead, '-') == Sign(true);
    assert Step(Sign(true), '5') == Whole(true, 5);
    assert Step(Whole(true, 5), 'a') == Bad;
    assert s[1..] == "5a" && s[2..] == "a" && s[3..] == [];
    assert ReadNumber(s[2..], Whole(true, 5)) == ReadNumber([], Bad) == NaN;
    assert ReadNumber(s, Lead) == ReadNumber(s[1..], Sign(true)) == ReadNumber(s[2..], Whole(true, 5));
    assert ReadInt(s[2..], Whole(true, 5)) == Some(-5);
    assert ReadInt(s, Lead) == ReadInt(s[1..], Sign(true)) == ReadInt(s[2..], Whole(true, 5));
  }

  /** Both forms send the same values; a blank image is `null` here and left
      out of the article form's body, both None in the model. */
  lemma LegacyBodyAgrees(f: FormData)
    ensures LegacyBodyOf(f) == RequestBodyOf(f)
  {
  }

  /** The request of a save: a POST to the singular address, whether or not
      an article is being edited. */
  function LegacyRequest(editing: Option<Article>): (r: Request)
    ensures r.verb == Post
  {
    Request(Post, LegacyArticleUrl)
  }

  /** An edit in the legacy form creates a record where the article form
      would update one, at an address one letter shorter than the article
      form's collection. */
  lemma LegacyEditPosts(a: Article)
    ensures LegacyRequest(Some(a)) == LegacyRequest(None)
    ensures SaveRequest(Some(a)).verb == Put
    ensures var legacy, collection := LegacyRequest(Some(a)).url, SaveRequest(None).url;
      collection == legacy + "s"
  {
  }

  // ---------------------------------------------------------------------
  // Saving

  const SavedMessage := "Article saved successfully"

  /** The catch block of `saveArticleToDatabase`: the article form's
      classification without its 404 case. */
  function LegacyErrorMessage(e: Failure): string {
    match e.response
    case Some(r) =>
      if r.status == 400 then "Validation error: " + ReplyText(r, "Server error")
      else if r.status == 401 then AuthRequiredMessage
      else if r.status == 403 then AccessDeniedMessage
      else if r.status == 409 then DuplicateReferenceMessage
      else if r.status >= 500 then ServerErrorMessage
      else "Error: " + ReplyText(r, "Server error")
    case None =>
      if e.request then NetworkErrorMessage
      else if e.code == TimeoutCode then TimeoutMessage
      else UnexpectedMessage
  }

  /** The two classifications agree on every failure except a 404
      response, where the legacy form shows the server's text. */
  lemma LegacyErrorAgreesExcept404(e: Failure)
    ensures LegacyErrorMessage(e) == SaveErrorMessage(e) <==> !(e.response.Some? && e.response.value.status == 404)
    ensures e.response.Some? && e.response.value.status == 404 ==>
      LegacyErrorMessage(e) == "Error: " + ReplyText(e.response.value, "Server error")
  {
    if e.response.Some? && e.response.value.status == 404 {
      var m := LegacyErrorMessage(e);
      assert m[0] == 'E';
      assert NotFoundMessage[0] == 'A';
    }
  }

  /** `saveArticleToDatabase`: success on 200 or 201 with one message for
      both creating and editing; any other status throws an error with
      neither response nor request. */
  function LegacySave<D>(outcome: Outcome<D>): (r: SaveResult<D>)
    ensures r.success <==> outcome.Resolved? && (outcome.status == 200 || outcome.status == 201)
    ensures r.success ==> r.data == Some(outcome.data) && r.message == SavedMessage
    ensures !r.success ==> r.data.None?
    ensures outcome.Rejected? ==> r.message == LegacyErrorMessage(outcome.failure)
  {
    match outcome
    case Resolved(status, data) =>
      if status == 200 || status == 201 then SaveResult(true, Some(data), SavedMessage)
      else SaveResult(false, None, UnexpectedMessage)
    case Rejected(e) => SaveResult(false, None, LegacyErrorMessage(e))
  }

  /** The form as a record, by property name. */
  function FormRecord(f: FormData): (r: map<string, JsVal>)
    ensures |r.Keys| == 7
  {
    map["reference" := Str(f.reference), "designation" := Str(f.designation),
        "stockSecurite" := f.stockSecurite, "prixDAchatHT" := f.prixDAchatHT,
        "prixDeVenteHT" := f.prixDeVenteHT, "tva" := f.tva, "image" := Str(f.image)]
  }

  /** What `onSubmit` receives: `{...formData, ...data, _saved: true,
      _message}`. The two flags are written last, so they win over any
      property of the same name. */
  datatype Payload = Payload(fields: map<string, JsVal>, saved: bool, message: string)

  /** The spread: the server's properties win over the form's. */
  function MergePayload(f: FormData, data: map<string, JsVal>, message: string): (r: Payload)
    ensures r.saved && r.message == message
    ensures r.fields.Keys == FormRecord(f).Keys + data.Keys
    ensures forall k | k in data :: r.fields[k] == data[k]
    ensures forall k | k in FormRecord(f) && k !in data :: r.fields[k] == FormRecord(f)[k]
  {
    Payload(FormRecord(f) + data, true, message)
  }

  /** The legacy `handleSubmit`. */
  function LegacyHandleSubmit(s: FormState, outcome: Outcome<map<string, JsVal>>): (r: Submitted<Payload>)
    ensures r.state.data == s.data
    ensures r.passedUp.Some? ==>
      (LegacyValidate(s.data).isValid && outcome.Resolved? && r.passedUp.value == MergePayload(s.data, outcome.data, SavedMessage))
  {
    var v := LegacyValidate(s.data);
    if !v.isValid then Submitted(FormState(s.data, v.errors), None)
    else
      var result := LegacySave(outcome);
      if result.success then
        Submitted(FormState(s.data, v.errors), Some(MergePayload(s.data, result.data.value, result.message)))
      else Submitted(FormState(s.data, map[Submit := result.message]), None)
  }

  /** The three ways a legacy submit ends, as for the article form. */
  lemma LegacyHandleSubmitCases(s: FormState, outcome: Outcome<map<string, JsVal>>)
    ensures var r := LegacyHandleSubmit(s, outcome);
      var v := LegacyValidate(s.data);
      && (!v.isValid ==> r.state.errors == v.errors && r.passedUp.None?)
      && (v.isValid && !LegacySave(outcome).success ==>
            r.state.errors == map[Submit := LegacySave(outcome).message] && r.passedUp.None?)
      && (v.isValid && LegacySave(outcome).success ==> r.state.errors == map[] && r.passedUp.Some?)
  {
  }

  /** The legacy `handleChange`: both error updates spread the same
      snapshot and are plain values, so the second replaces the first. */
  function LegacyHandleChange(s: FormState, key: ArticleKey, value: string): (r: FormState)
    requires key != Submit
    ensures r.data == WithField(s.data, key, value)
  {
    var errors :=
      if HasError(s.errors, Submit) then s.errors[Submit := []]
      else if HasError(s.errors, key) then s.errors[key := []]
      else s.errors;
    FormState(WithField(s.data, key, value), errors)
  }

  /** With a submit error showing, typing clears only the submit error: the
      field's own error stays, unlike in the article form. */
  lemma LegacyChangeKeepsFieldError(s: FormState, key: ArticleKey, value: string)
    requires key != Submit && HasError(s.errors, Submit) && HasError(s.errors, key)
    ensures var t := LegacyHandleChange(s, key, value);
      HasError(t.errors, key) && t.errors[key] == s.errors[key] && !HasError(t.errors, Submit)
    ensures !HasError(HandleChange(s, key, value).errors, key)
  {
    HandleChangeSpec(s, key, value);
  }

  /** Without a submit error the two handlers agree. */
  lemma LegacyChangeAgreesWithoutSubmitError(s: FormState, key: ArticleKey, value: string)
    requires key != Submit && !HasError(s.errors, Submit)
    ensures LegacyHandleChange(s, key, value) == HandleChange(s, key, value)
  {
  }
}
