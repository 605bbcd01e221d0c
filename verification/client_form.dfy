/** The client form (src/Components/Client/ClientForm.tsx): its initial
    data, `validateForm`, `handleSubmit` and `handleChange`. The form's
    inputs are strings, so every field is a `string`; `onSubmit` is the
    `submitted` part of the result. */
module ClientForm {
  import opened Wrappers
  import opened Text
  import opened Js
  import opened Records

  const LastNameRequired := "Last name is required"
  const EmailRequired := "Email is required"
  const EmailInvalid := "Email is invalid"
  const PhoneRequired := "Phone is required"
  const AddressRequired := "Address is required"
  const EtatRequired := "\U{00C9}tat is required"
  const EtatNotNumber := "\U{00C9}tat must be a number"
  const IceRequired := "ICE is required"

  // ---------------------------------------------------------------------
  // The e-mail pattern

  /** `/\S+@\S+\.\S+/.test(s)`: somewhere in s, a non-space character,
      an `@`, one or more non-space characters, a `.` and a non-space
      character. The pattern is not anchored, so anything may surround
      the match. */
  predicate EmailShape(s: string) {
    exists i, j | 0 < i && i + 1 < j && j + 1 < |s| :: EmailAt(s, i, j)
  }

  /** The pattern matches with its `@` at i and its `.` at j. */
  predicate EmailAt(s: string, i: int, j: int)
    requires 0 < i && i + 1 < j && j + 1 < |s|
  {
    s[i] == '@' && s[j] == '.' && !IsSpace(s[i - 1]) && NoSpace(s[i + 1..j]) && !IsSpace(s[j + 1])
  }

  /** A match needs an `@` and a `.` after it. */
  lemma EmailShapeNeedsAtAndDot(s: string)
    requires EmailShape(s)
    ensures exists i, j | 0 <= i < j < |s| :: s[i] == '@' && s[j] == '.'
  {
    var i, j :| 0 < i && i + 1 < j && j + 1 < |s| && EmailAt(s, i, j);
  }

  /** Text around a match does not undo it. */
  lemma EmailShapeUnanchored(p: string, s: string, q: string)
    requires EmailShape(s)
    ensures EmailShape(p + s + q)
  {
    var i, j :| 0 < i && i + 1 < j && j + 1 < |s| && EmailAt(s, i, j);
    var t := p + s + q;
    var k := |p|;
    assert t == p + (s + q);
    assert forall m | 0 <= m < |s| :: t[k + m] == s[m];
    assert t[k + i + 1..k + j] == s[i + 1..j];
    assert t[k + i] == '@' && t[k + j] == '.' && !IsSpace(t[k + i - 1]) && !IsSpace(t[k + j + 1]);
    assert EmailAt(t, k + i, k + j);
  }

  /** `local@domain.top` matches when the part around each separator is
      free of white space. */
  lemma EmailFromParts(local: string, domain: string, top: string)
    requires |local| > 0 && |domain| > 0 && |top| > 0
    requires !IsSpace(local[|local| - 1]) && NoSpace(domain) && !IsSpace(top[0])
    ensures EmailShape(local + "@" + domain + "." + top)
  {
    var s := local + "@" + domain + "." + top;
    var i, j := |local|, |local| + 1 + |domain|;
    assert s[i + 1..j] == domain;
    assert s[i] == '@' && s[j] == '.' && s[i - 1] == local[|local| - 1] && s[j + 1] == top[0];
    assert EmailAt(s, i, j);
  }

  // ---------------------------------------------------------------------
  // Validation

  /** The message `validateForm` leaves under a key, if any: each field is
      required; a present e-mail must match the pattern and a present état
      must be a number for `isNaN`. */
  function ClientFieldError(d: ClientData, key: ClientKey): Option<string> {
    match key
    case LastName => if IsBlank(d.lastName) then Some(LastNameRequired) else None
    case Email =>
      if IsBlank(d.email) then Some(EmailRequired)
      else if !EmailShape(d.email) then Some(EmailInvalid)
      else None
    case Phone => if IsBlank(d.phone) then Some(PhoneRequired) else None
    case Address => if IsBlank(d.address) then Some(AddressRequired) else None
    case Etat =>
      if IsBlank(d.etat) then Some(EtatRequired)
      else if IsNaN(Str(d.etat)) then Some(EtatNotNumber)
      else None
    case Ice => if IsBlank(d.ice) then Some(IceRequired) else None
  }

  /** What `validateForm` sets and returns. */
  datatype ClientValidation = ClientValidation(isValid: bool, errors: map<ClientKey, string>)

  const AllClientKeys: set<ClientKey> := {LastName, Email, Phone, Address, Etat, Ice}

  /** `validateForm()`: every rule runs, and the form is valid exactly when
      none recorded an error. */
  function ValidateClient(d: ClientData): (r: ClientValidation)
    ensures r.isValid <==> r.errors == map[]
    ensures forall k :: k in r.errors <==> ClientFieldError(d, k).Some?
    ensures forall k | k in r.errors :: r.errors[k] == ClientFieldError(d, k).value
  {
    var errors := map k | k in AllClientKeys && ClientFieldError(d, k).Some? :: ClientFieldError(d, k).value;
    assert forall k: ClientKey :: k.LastName? || k.Email? || k.Phone? || k.Address? || k.Etat? || k.Ice?;
    ClientValidation(errors == map[], errors)
  }

  /** The client rules, stated field by field. */
  predicate ClientRulesPass(d: ClientData) {
    && !IsBlank(d.lastName)
    && !IsBlank(d.email) && EmailShape(d.email)
    && !IsBlank(d.phone)
    && !IsBlank(d.address)
    && !IsBlank(d.etat) && !IsNaN(Str(d.etat))
    && !IsBlank(d.ice)
  }

  /** No rule records an error. */
  predicate NoClientFieldError(d: ClientData) {
    forall k :: ClientFieldError(d, k).None?
  }

  lemma ValidIffNoFieldError(d: ClientData)
    ensures ValidateClient(d).isValid <==> NoClientFieldError(d)
  {
    var v := ValidateClient(d);
    if !v.isValid {
      var k :| k in v.errors;
    }
  }

  /** Each key's rule, as `ClientRulesPass` states it. */
  lemma KeyRule(d: ClientData, k: ClientKey)
    ensures ClientFieldError(d, k).None? <==>
      match k
      case LastName => !IsBlank(d.lastName)
      case Email => !IsBlank(d.email) && EmailShape(d.email)
      case Phone => !IsBlank(d.phone)
      case Address => !IsBlank(d.address)
      case Etat => !IsBlank(d.etat) && !IsNaN(Str(d.etat))
      case Ice => !IsBlank(d.ice)
  {
  }

  lemma RulesPassIffNoFieldError(d: ClientData)
    ensures ClientRulesPass(d) <==> NoClientFieldError(d)
  {
    KeyRule(d, LastName);
    KeyRule(d, Email);
    KeyRule(d, Phone);
    KeyRule(d, Address);
    KeyRule(d, Etat);
    KeyRule(d, Ice);
    if ClientRulesPass(d) {
      forall k ensures ClientFieldError(d, k).None? {
        KeyRule(d, k);
      }
    }
  }

  /** The form is valid exactly when every client rule holds. */
  lemma ClientValidIffRulesPass(d: ClientData)
    ensures ValidateClient(d).isValid <==> ClientRulesPass(d)
  {
    ValidIffNoFieldError(d);
    RulesPassIffNoFieldError(d);
  }

  /** The "is required" message of each field. */
  function RequiredMessage(k: ClientKey): string {
    match k
    case LastName => LastNameRequired
    case Email => EmailRequired
    case Phone => PhoneRequired
    case Address => AddressRequired
    case Etat => EtatRequired
    case Ice => IceRequired
  }

  /** A blank field is reported as required, whatever the other fields
      hold. */
  lemma BlankFieldIsRequired(d: ClientData, k: ClientKey)
    requires IsBlank(ClientField(d, k))
    ensures ClientFieldError(d, k) == Some(RequiredMessage(k))
  {
    match k
    case LastName =>
    case Email =>
    case Phone =>
    case Address =>
    case Etat =>
    case Ice =>
  }

  /** A present e-mail without an `@` is reported as invalid. */
  lemma EmailWithoutAtIsInvalid(d: ClientData)
    requires !IsBlank(d.email) && '@' !in d.email
    ensures ClientFieldError(d, Email) == Some(EmailInvalid)
  {
    NoAtNoEmailShape(d.email);
  }

  /** Without an `@` the pattern cannot match. */
  lemma NoAtNoEmailShape(s: string)
    requires '@' !in s
    ensures !EmailShape(s)
  {
    forall i, j | 0 < i && i + 1 < j && j + 1 < |s| ensures !EmailAt(s, i, j) {
      assert s[i] in s;
    }
  }

  /** A valid état is a number that `parseFloat` reads as `isNaN` does, and
      `parseInt` reads it truncated, or reads nothing when it has no
      digit before its point. */
  lemma ValidEtatIsNumber(d: ClientData)
    requires ClientRulesPass(d)
    ensures ParseFloat(Str(d.etat)) == ToNumber(Str(d.etat)) && ToNumber(Str(d.etat)).Fin?
    ensures ParseInt(Str(d.etat)).Some? ==> ParseInt(Str(d.etat)).value == Trunc(ToNumber(Str(d.etat)).v)
  {
    ParseFloatAgreesWithNumber(Str(d.etat));
    ParseIntAgreesWithNumber(d.etat);
  }

  // ---------------------------------------------------------------------
  // Form state

  /** The form's `formData` and `errors`. */
  datatype ClientFormState = ClientFormState(data: ClientData, errors: map<ClientKey, string>)

  const EmptyClientData := ClientData([], [], [], [], [], [])

  /** The initial `formData`: the edited client's fields (`client?.x || ''`
      is the field itself for a string) or empty text for a new client. */
  function InitialClientData(client: Option<Client>): (r: ClientData)
    ensures client.Some? ==> forall k :: ClientField(r, k) == ClientField(client.value.info, k)
    ensures client.None? ==> forall k :: ClientField(r, k) == []
  {
    match client
    case Some(c) => c.info
    case None => EmptyClientData
  }

  /** A form whose fields are all blank reports every field, each with its
      "is required" message. */
  lemma BlankFormReportsAll(d: ClientData)
    requires forall k :: IsBlank(ClientField(d, k))
    ensures var v := ValidateClient(d);
      && !v.isValid
      && v.errors.Keys == AllClientKeys
      && forall k | k in v.errors :: v.errors[k] == RequiredMessage(k)
  {
    var v := ValidateClient(d);
    forall k ensures k in v.errors && v.errors[k] == RequiredMessage(k) {
      BlankFieldIsRequired(d, k);
    }
    assert LastName in v.errors;
  }

  /** A new client's empty form reports every field as required. */
  lemma NewClientFormReportsAll()
    ensures var v := ValidateClient(InitialClientData(None));
      && !v.isValid
      && v.errors.Keys == AllClientKeys
      && forall k | k in v.errors :: v.errors[k] == RequiredMessage(k)
  {
    var d := InitialClientData(None);
    assert d == EmptyClientData;
    assert IsBlank([]);
    forall k ensures IsBlank(ClientField(d, k)) {
      assert ClientField(d, k) == [];
    }
    BlankFormReportsAll(d);
  }

  /** What a submit leads to: the new state, and the data passed to
      `onSubmit`, if it was called. */
  datatype ClientSubmitted = ClientSubmitted(state: ClientFormState, submitted: Option<ClientData>)

  /** `handleSubmit()`: the errors are replaced by the validation's, and
      the data goes to `onSubmit` exactly when the rules hold. */
  function HandleSubmit(s: ClientFormState): (r: ClientSubmitted)
    ensures r.state.data == s.data
    ensures forall k :: k in r.state.errors <==> ClientFieldError(s.data, k).Some?
    ensures r.submitted.Some? <==> ClientRulesPass(s.data)
    ensures r.submitted.Some? ==> r.submitted.value == s.data && r.state.errors == map[]
  {
    var v := ValidateClient(s.data);
    ClientValidIffRulesPass(s.data);
    ClientSubmitted(ClientFormState(s.data, v.errors), if v.isValid then Some(s.data) else None)
  }

  /** `errors[name]` is truthy. */
  predicate HasClientError(errors: map<ClientKey, string>, key: ClientKey) {
    key in errors && errors[key] != []
  }

  /** `handleChange` for the input `key`: the field takes the value, and its
      error is blanked only if one is showing. */
  function HandleChange(s: ClientFormState, key: ClientKey, value: string): (r: ClientFormState)
    ensures ClientField(r.data, key) == value
    ensures forall k | k != key :: ClientField(r.data, k) == ClientField(s.data, k)
    ensures !HasClientError(r.errors, key)
    ensures key in r.errors <==> key in s.errors
    ensures forall k | k != key :: (k in r.errors <==> k in s.errors) && (k in r.errors ==> r.errors[k] == s.errors[k])
  {
    var errors := if HasClientError(s.errors, key) then s.errors[key := []] else s.errors;
    ClientFormState(WithClientField(s.data, key, value), errors)
  }

  /** The errors a submit shows depend on the data only: typing then
      submitting shows what submitting the typed data from scratch shows. */
  lemma SubmitForgetsEarlierErrors(s: ClientFormState, key: ClientKey, value: string)
    ensures HandleSubmit(HandleChange(s, key, value)).state ==
      HandleSubmit(ClientFormState(WithClientField(s.data, key, value), map[])).state
  {
  }
}
