/** The development data and helpers (src/data/mockData.js): the eight
    `mockClients`, which `useClients` loads in place of the API, and
    `mockUtils.searchClients` and `mockUtils.sortClients`. */
module MockData {
  import opened Wrappers
  import opened Text
  import opened Js
  import opened Seqs
  import opened Sorting
  import opened Records
  import ClientForm
  import ClientLists
  import UseClients

  // ---------------------------------------------------------------------
  // mockClients

  /** The domain of every mock e-mail. */
  const ExampleDomain := "@" + "example" + "." + "com"

  const JohnDoe := Client(1, ClientData("John Doe", "john.doe" + ExampleDomain, "+212612345678",
    "123 Avenue Mohammed V, Casablanca", "5000", "ICE123456789"))
  const JaneSmith := Client(2, ClientData("Jane Smith", "jane.smith" + ExampleDomain, "+212623456789",
    "456 Boulevard Zerktouni, Casablanca", "7500", "ICE234567890"))
  const AhmedElMansouri := Client(3, ClientData("Ahmed El Mansouri", "ahmed.mansouri" + ExampleDomain, "+212634567890",
    "789 Rue des FAR, Rabat", "3200", "ICE345678901"))
  const SarahWilson := Client(4, ClientData("Sarah Wilson", "sarah.wilson" + ExampleDomain, "+212645678901",
    "321 Avenue Hassan II, Marrakech", "9800", "ICE456789012"))
  const MohamedAlami := Client(5, ClientData("Mohamed Alami", "mohamed.alami" + ExampleDomain, "+212656789012",
    "654 Boulevard Moulay Youssef, Tangier", "4300", "ICE567890123"))
  const FatimaBenali := Client(6, ClientData("Fatima Benali", "fatima.benali" + ExampleDomain, "+212667890123",
    "987 Rue Abdelmoumen, Casablanca", "6700", "ICE678901234"))
  const DavidBrown := Client(7, ClientData("David Brown", "david.brown" + ExampleDomain, "+212678901234",
    "147 Avenue des Nations Unies, Rabat", "2100", "ICE789012345"))
  const AichaTahiri := Client(8, ClientData("Aicha Tahiri", "aicha.tahiri" + ExampleDomain, "+212689012345",
    "258 Boulevard Al Massira, Agadir", "8900", "ICE890123456"))

  /** `mockClients` */
  const MockClients: seq<Client> :=
    [JohnDoe, JaneSmith, AhmedElMansouri, SarahWilson, MohamedAlami, FatimaBenali, DavidBrown, AichaTahiri]

  /** Text whose first character is visible is not blank. */
  lemma VisibleStartIsNotBlank(s: string)
    requires |s| > 0 && !IsSpace(s[0])
    ensures !IsBlank(s)
  {
    BlankIffAllSpace(s);
  }

  /** `name@example.com` matches the e-mail pattern when the name ends in
      a visible character. */
  lemma ExampleAddressMatches(email: string, name: string)
    requires |name| > 0 && !IsSpace(name[|name| - 1])
    requires email == name + ExampleDomain
    ensures ClientForm.EmailShape(email)
  {
    assert email == name + "@" + "example" + "." + "com";
    ClientForm.EmailFromParts(name, "example", "com");
  }

  /** Digits are neither blank nor NaN. */
  lemma DigitsPassEtatRule(etat: string)
    requires |etat| > 0 && AllDigits(etat)
    ensures !IsBlank(etat) && !IsNaN(Str(etat))
  {
    DigitsAreNumber(etat);
    BlankIffAllSpace(etat);
  }

  /** A record passes the client form's rules when each field starts with
      a visible character, the e-mail is `name@example.com` for a name
      ending in a visible character, and the état is digits. */
  lemma MockShapePasses(d: ClientData, name: string)
    requires |d.lastName| > 0 && !IsSpace(d.lastName[0])
    requires |d.phone| > 0 && !IsSpace(d.phone[0])
    requires |d.address| > 0 && !IsSpace(d.address[0])
    requires |d.ice| > 0 && !IsSpace(d.ice[0])
    requires |name| > 0 && !IsSpace(name[0]) && !IsSpace(name[|name| - 1])
    requires d.email == name + ExampleDomain
    requires |d.etat| > 0 && AllDigits(d.etat)
    ensures ClientForm.ClientRulesPass(d)
  {
    VisibleStartIsNotBlank(d.lastName);
    VisibleStartIsNotBlank(d.phone);
    VisibleStartIsNotBlank(d.address);
    VisibleStartIsNotBlank(d.ice);
    assert d.email[0] == name[0];
    VisibleStartIsNotBlank(d.email);
    ExampleAddressMatches(d.email, name);
    DigitsPassEtatRule(d.etat);
  }

  // One lemma per record keeps each proof small.
  lemma JohnDoePasses(d: ClientData)
    requires d == JohnDoe.info
    ensures ClientForm.ClientRulesPass(d)
  {
    MockShapePasses(d, "john.doe");
  }

  lemma JaneSmithPasses(d: ClientData)
    requires d == JaneSmith.info
    ensures ClientForm.ClientRulesPass(d)
  {
    MockShapePasses(d, "jane.smith");
  }

  lemma AhmedElMansouriPasses(d: ClientData)
    requires d == AhmedElMansouri.info
    ensures ClientForm.ClientRulesPass(d)
  {
    MockShapePasses(d, "ahmed.mansouri");
  }

  lemma SarahWilsonPasses(d: ClientData)
    requires d == SarahWilson.info
    ensures ClientForm.ClientRulesPass(d)
  {
    MockShapePasses(d, "sarah.wilson");
  }

  lemma MohamedAlamiPasses(d: ClientData)
    requires d == MohamedAlami.info
    ensures ClientForm.ClientRulesPass(d)
  {
    MockShapePasses(d, "mohamed.alami");
  }

  lemma FatimaBenaliPasses(d: ClientData)
    requires d == FatimaBenali.info
    ensures ClientForm.ClientRulesPass(d)
  {
    MockShapePasses(d, "fatima.benali");
  }

  lemma DavidBrownPasses(d: ClientData)
    requires d == DavidBrown.info
    ensures ClientForm.ClientRulesPass(d)
  {
    MockShapePasses(d, "david.brown");
  }

  lemma AichaTahiriPasses(d: ClientData)
    requires d == AichaTahiri.info
    ensures ClientForm.ClientRulesPass(d)
  {
    MockShapePasses(d, "aicha.tahiri");
  }


  lemma MockClientPasses(k: nat)
    requires k < |MockClients|
    ensures ClientForm.ClientRulesPass(MockClients[k].info)
  {
    if k == 0 {
      JohnDoePasses(MockClients[k].info);
    } else if k == 1 {
      JaneSmithPasses(MockClients[k].info);
    } else if k == 2 {
      AhmedElMansouriPasses(MockClients[k].info);
    } else if k == 3 {
      SarahWilsonPasses(MockClients[k].info);
    } else if k == 4 {
      MohamedAlamiPasses(MockClients[k].info);
    } else if k == 5 {
      FatimaBenaliPasses(MockClients[k].info);
    } else if k == 6 {
      DavidBrownPasses(MockClients[k].info);
    } else {
      AichaTahiriPasses(MockClients[k].info);
    }
  }

  /** The mock data is well formed: the ids are 1 to 8, so distinct, and
      every record passes the client form's rules. */
  lemma MockClientsWellFormed()
    ensures |MockClients| == 8
    ensures forall k | 0 <= k < |MockClients| :: MockClients[k].id == k + 1
    ensures UseClients.DistinctIds(MockClients)
    ensures forall k | 0 <= k < |MockClients| :: ClientForm.ClientRulesPass(MockClients[k].info)
  {
    MockIds();
    forall k | 0 <= k < |MockClients| ensures ClientForm.ClientRulesPass(MockClients[k].info) {
      MockClientPasses(k);
    }
  }

  lemma MockIds()
    ensures |MockClients| == 8
    ensures forall k | 0 <= k < |MockClients| :: MockClients[k].id == k + 1
    ensures UseClients.DistinctIds(MockClients)
  {
  }

  /** The next client added to the mock data gets id 9. */
  lemma MockNextId(data: ClientData)
    ensures UseClients.AddClient(MockClients, data).1.id == 9
  {
    MockClientsWellFormed();
    var m := UseClients.MaxId(MockClients);
    assert MockClients[7].id == 8;
  }

  // ---------------------------------------------------------------------
  // searchClients

  /** The mock search's filter: the term is lower-cased once, and then also
      compared with the phone as it is. */
  predicate MockMatches(c: Client, term: string) {
    var t := Lower(term);
    || Contains(Lower(c.info.lastName), t)
    || Contains(Lower(c.info.email), t)
    || Contains(c.info.phone, t)
    || Contains(Lower(c.info.address), t)
    || Contains(Lower(c.info.ice), t)
  }

  function MockMatcher(term: string): Client -> bool {
    (c: Client) => MockMatches(c, term)
  }

  /** `mockUtils.searchClients(clients, searchTerm)`: every client for the
      empty term, else the matching ones in order. */
  function MockSearchClients(clients: seq<Client>, term: string): (r: seq<Client>)
    ensures Subseq(r, clients)
    ensures term == [] ==> r == clients
    ensures forall c | c in r :: c in clients
    ensures term != [] ==> forall c | c in clients :: c in r <==> MockMatches(c, term)
    ensures term != [] ==> KeepsExactly(r, clients, MockMatcher(term))
  {
    if term == [] then SubseqRefl(clients); clients
    else
      var p := MockMatcher(term);
      FilterIsSubseq(clients, p);
      FilterKeepsExactly(clients, p);
      Filter(clients, p)
  }

  /** On a term without capitals the mock search and the hook's search
      agree. */
  lemma MockSearchAgreesOnLowerTerms(clients: seq<Client>, term: string)
    requires Lower(term) == term
    ensures MockSearchClients(clients, term) == UseClients.SearchClients(clients, term)
  {
    if term != [] {
      var p := (c: Client) => MockMatches(c, term);
      FilterAgrees(clients, p, ClientLists.MatchesTerm(term));
    }
  }

  /** They differ on the phone: the mock compares it with the lower-cased
      term, the hook with the term as typed. */
  lemma MockSearchLowersPhoneTerm(c: Client)
    requires c.info.phone == "X" && c.info.lastName == [] && c.info.email == [] && c.info.address == [] && c.info.ice == []
    ensures ClientLists.Matches(c, "X") && !MockMatches(c, "X")
  {
    assert "X" <= c.info.phone;
    assert Lower("X") == "x";
    assert Lower([]) == [];
    assert !Contains([], "x");
    assert !Contains("X", "x") by {
      assert "x"[0] != "X"[0];
      assert !Contains("X"[1..], "x");
    }
  }

  // ---------------------------------------------------------------------
  // sortClients

  /** The keys `sortClients` can read as text or, for `etat`, as a number;
      any other key is not a string and makes the comparator throw. */
  datatype ClientSortField = ByLastName | ByEmail | ByPhone | ByAddress | ByEtat | ByIce

  function ClientSortFieldOf(sortBy: string): Option<ClientSortField> {
    if sortBy == "lastName" then Some(ByLastName)
    else if sortBy == "email" then Some(ByEmail)
    else if sortBy == "phone" then Some(ByPhone)
    else if sortBy == "address" then Some(ByAddress)
    else if sortBy == "etat" then Some(ByEtat)
    else if sortBy == "ice" then Some(ByIce)
    else None
  }

  /** `aValue` / `bValue`: lower-cased text, or `parseInt` of the état
      (None is NaN). */
  datatype ClientSortKey = Textual(s: string) | Integral(n: Option<int>)

  function ClientKeyOf(field: ClientSortField, c: Client): ClientSortKey {
    match field
    case ByLastName => Textual(Lower(c.info.lastName))
    case ByEmail => Textual(Lower(c.info.email))
    case ByPhone => Textual(Lower(c.info.phone))
    case ByAddress => Textual(Lower(c.info.address))
    case ByEtat => Integral(EtatInt(c))
    case ByIce => Textual(Lower(c.info.ice))
  }

  /** `parseInt(client.etat)` */
  function EtatInt(c: Client): Option<int> {
    ParseInt(Str(c.info.etat))
  }

  /** `x < y` on two keys of one field; NaN is below nothing and nothing is
      below NaN. */
  predicate ClientKeyLt(x: ClientSortKey, y: ClientSortKey) {
    match (x, y)
    case (Textual(s), Textual(t)) => StrLt(s, t)
    case (Integral(Some(m)), Integral(Some(n))) => m < n
    case _ => false
  }

  /** a goes before b: its key is smaller in `'asc'` order and larger in
      any other. */
  function ClientBefore(field: ClientSortField, ascending: bool): (Client, Client) -> bool {
    (a: Client, b: Client) =>
      if ascending then ClientKeyLt(ClientKeyOf(field, a), ClientKeyOf(field, b))
      else ClientKeyLt(ClientKeyOf(field, b), ClientKeyOf(field, a))
  }

  /** `mockUtils.sortClients(clients, sortBy, sortOrder)`: a sorted copy.
      A key that is not one of the six text fields throws (None) as soon as
      the comparator runs, that is, on two or more clients. */
  function SortClients(clients: seq<Client>, sortBy: string, sortOrder: string): (r: Option<seq<Client>>)
    ensures r.None? <==> |clients| >= 2 && ClientSortFieldOf(sortBy).None?
    ensures r.Some? ==> multiset(r.value) == multiset(clients) && |r.value| == |clients|
  {
    match ClientSortFieldOf(sortBy)
    case Some(f) => Some(Sort(clients, ClientBefore(f, sortOrder == "asc")))
    case None => if |clients| < 2 then Some(clients) else None
  }

  lemma ClientKeyLtTransitive(x: ClientSortKey, y: ClientSortKey, z: ClientSortKey)
    requires ClientKeyLt(x, y) && ClientKeyLt(y, z)
    ensures ClientKeyLt(x, z)
  {
    if x.Textual? {
      StrLtTransitive(x.s, y.s, z.s);
    }
  }

  lemma ClientBeforeIsStrictOrder(field: ClientSortField, ascending: bool)
    ensures StrictOrder(ClientBefore(field, ascending))
  {
    var less := ClientBefore(field, ascending);
    forall a ensures !less(a, a) {
      var k := ClientKeyOf(field, a);
      if k.Textual? {
        StrLtIrreflexive(k.s);
      }
    }
    forall a, b, c | less(a, b) && less(b, c) ensures less(a, c) {
      if ascending {
        ClientKeyLtTransitive(ClientKeyOf(field, a), ClientKeyOf(field, b), ClientKeyOf(field, c));
      } else {
        ClientKeyLtTransitive(ClientKeyOf(field, c), ClientKeyOf(field, b), ClientKeyOf(field, a));
      }
    }
  }

  /** On a known key the result is ordered by that key: in
      `'asc'` order no key is smaller than one before it, in any other
      order none is larger. The order of equal keys is not stated. */
  lemma SortClientsOrdered(clients: seq<Client>, sortBy: string, sortOrder: string, field: ClientSortField)
    requires ClientSortFieldOf(sortBy) == Some(field)
    ensures var r := SortClients(clients, sortBy, sortOrder).value;
      && (sortOrder == "asc" ==>
            forall i, j | 0 <= i < j < |r| :: !ClientKeyLt(ClientKeyOf(field, r[j]), ClientKeyOf(field, r[i])))
      && (sortOrder != "asc" ==>
            forall i, j | 0 <= i < j < |r| :: !ClientKeyLt(ClientKeyOf(field, r[i]), ClientKeyOf(field, r[j])))
  {
    ClientBeforeIsStrictOrder(field, sortOrder == "asc");
    SortSorted(clients, ClientBefore(field, sortOrder == "asc"));
  }

  /** Sorting by état when every état reads as an integer gives
      non-decreasing values in `'asc'` order and non-increasing ones in any
      other. */
  lemma SortByEtat(clients: seq<Client>, sortBy: string, sortOrder: string)
    requires ClientSortFieldOf(sortBy) == Some(ByEtat)
    requires forall c | c in clients :: EtatInt(c).Some?
    ensures var r := SortClients(clients, sortBy, sortOrder).value;
      && (forall c | c in r :: EtatInt(c).Some?)
      && (sortOrder == "asc" ==> forall i, j | 0 <= i < j < |r| :: EtatInt(r[i]).value <= EtatInt(r[j]).value)
      && (sortOrder != "asc" ==> forall i, j | 0 <= i < j < |r| :: EtatInt(r[i]).value >= EtatInt(r[j]).value)
  {
    var r := SortClients(clients, sortBy, sortOrder).value;
    forall c | c in r ensures EtatInt(c).Some? {
      assert c in multiset(r);
    }
    SortClientsOrdered(clients, sortBy, sortOrder, ByEtat);
    EtatOrderOfKeys(r, sortOrder == "asc");
  }

  /** Keys in order are états in order, once every état is an integer. */
  lemma EtatOrderOfKeys(r: seq<Client>, ascending: bool)
    requires forall c | c in r :: EtatInt(c).Some?
    requires ascending ==>
      forall i, j | 0 <= i < j < |r| :: !ClientKeyLt(ClientKeyOf(ByEtat, r[j]), ClientKeyOf(ByEtat, r[i]))
    requires !ascending ==>
      forall i, j | 0 <= i < j < |r| :: !ClientKeyLt(ClientKeyOf(ByEtat, r[i]), ClientKeyOf(ByEtat, r[j]))
    ensures ascending ==> forall i, j | 0 <= i < j < |r| :: EtatInt(r[i]).value <= EtatInt(r[j]).value
    ensures !ascending ==> forall i, j | 0 <= i < j < |r| :: EtatInt(r[i]).value >= EtatInt(r[j]).value
  {
    forall i, j | 0 <= i < j < |r| ensures EtatInt(r[i]).Some? && EtatInt(r[j]).Some? {
      assert r[i] in r && r[j] in r;
    }
  }

  /** Every mock état reads as an integer, so the stats cards show a
      number for the mock data and so does sorting it by état. */
  lemma MockEtatsAreIntegers(term: string)
    ensures forall c | c in MockClients :: EtatInt(c).Some?
    ensures ClientLists.ClientStats(MockClients, term).totalValue.Some?
    ensures ClientLists.ClientStats(MockClients, term).averageValue.Some?
  {
    forall c | c in MockClients ensures EtatInt(c).Some? && ClientLists.EtatValue(c).Some? {
      var k :| 0 <= k < |MockClients| && MockClients[k] == c;
      DigitsOfMockEtat(k);
      DigitsAreNumber(c.info.etat);
    }
  }

  lemma DigitsOfMockEtat(k: nat)
    requires k < |MockClients|
    ensures |MockClients[k].info.etat| > 0 && AllDigits(MockClients[k].info.etat)
  {
  }
}
