/** The two records the interface manages, as the components hold them. */
module Records {
  import opened Wrappers
  import opened Js

  /** An article as listed by the article page and passed to the article
      utilities. Text fields are strings or absent (null/undefined, None);
      numeric fields are numbers when they come from the server and strings
      when they come from a form. The id is absent until the server assigns
      one. */
  datatype Article = Article(
    id: Option<int>,
    reference: Option<string>,
    designation: Option<string>,
    stockSecurite: JsVal,
    prixDAchatHT: JsVal,
    prixDeVenteHT: JsVal,
    tva: JsVal,
    image: Option<string>)

  /** `text || ''` for a text field. */
  function TextOr(t: Option<string>): string {
    t.GetOr([])
  }

  /** The keys of an article's error map: one per form field, plus `submit`
      for the outcome of a save. */
  datatype ArticleKey =
    | Reference | Designation | StockSecurite | PrixDAchatHT | PrixDeVenteHT | Tva | Image
    | Submit

  /** The fields of a client, as the client form edits them (all text). */
  datatype ClientData = ClientData(
    lastName: string,
    email: string,
    phone: string,
    address: string,
    etat: string,
    ice: string)

  /** A client: `{id, ...clientData}`. */
  datatype Client = Client(id: int, info: ClientData)

  /** The keys of the client form's error map (and its input names). */
  datatype ClientKey = LastName | Email | Phone | Address | Etat | Ice

  /** `formData[name]` */
  function ClientField(d: ClientData, k: ClientKey): string {
    match k
    case LastName => d.lastName
    case Email => d.email
    case Phone => d.phone
    case Address => d.address
    case Etat => d.etat
    case Ice => d.ice
  }

  /** `{...formData, [name]: value}` */
  function WithClientField(d: ClientData, k: ClientKey, value: string): (r: ClientData)
    ensures ClientField(r, k) == value
    ensures forall j | j != k :: ClientField(r, j) == ClientField(d, j)
  {
    match k
    case LastName => d.(lastName := value)
    case Email => d.(email := value)
    case Phone => d.(phone := value)
    case Address => d.(address := value)
    case Etat => d.(etat := value)
    case Ice => d.(ice := value)
  }
}
