/** The client cache of the `useClients` hook (src/Hooks/useClients.js):
    adding, updating, deleting and searching, each a pure step from the
    old list to the new one. The hook's `clientAPI` calls are commented
    out in the source, so none of these can fail. */
module UseClients {
  import opened Seqs
  import opened Records
  import ClientLists

  /** `Math.max(...clients.map(c => c.id), 0)` */
  function MaxId(clients: seq<Client>): (r: int)
    ensures r >= 0
    ensures forall c | c in clients :: c.id <= r
    ensures r == 0 || exists c | c in clients :: c.id == r
  {
    if |clients| == 0 then 0
    else
      var m := MaxId(clients[..|clients| - 1]);
      var last := clients[|clients| - 1];
      assert forall c | c in clients :: c in clients[..|clients| - 1] || c == last;
      if last.id > m then last.id else m
  }

  /** No two clients share an id. */
  predicate DistinctIds(clients: seq<Client>) {
    forall i, j | 0 <= i < j < |clients| :: clients[i].id != clients[j].id
  }

  /** `addClient(clientData)` as the hook runs it: the id is one more than
      the largest id (or 1) of `rendered`, the `clients` of the render that
      created the callback, and the new client is appended to `prev`, the
      list the state updater receives. The two differ while an earlier
      update is still waiting for a render. */
  function AddClientTo(rendered: seq<Client>, prev: seq<Client>, data: ClientData): (r: (seq<Client>, Client))
    ensures r.1.info == data && r.0 == prev + [r.1]
    ensures r.1.id >= 1
    ensures forall c | c in rendered :: c.id < r.1.id
  {
    var added := Client(MaxId(rendered) + 1, data);
    (prev + [added], added)
  }

  /** `addClient(clientData)` with the state up to date: the new list and
      the new client, whose id is above every id of the list. */
  function AddClient(clients: seq<Client>, data: ClientData): (r: (seq<Client>, Client))
    ensures r.1.info == data && r.0 == clients + [r.1]
    ensures r.1.id >= 1
    ensures forall c | c in clients :: c.id < r.1.id
  {
    AddClientTo(clients, clients, data)
  }

  /** Two adds from the same render, the second before the first has been
      rendered, give both clients the same id, so the list no longer has
      distinct ids. */
  lemma TwoAddsBeforeRenderShareId(clients: seq<Client>, first: ClientData, second: ClientData)
    ensures var (afterFirst, a) := AddClientTo(clients, clients, first);
      var (afterSecond, b) := AddClientTo(clients, afterFirst, second);
      && a.id == b.id
      && !DistinctIds(afterSecond)
  {
    var (afterFirst, a) := AddClientTo(clients, clients, first);
    var (afterSecond, b) := AddClientTo(clients, afterFirst, second);
    assert afterSecond[|clients|] == a && afterSecond[|clients| + 1] == b;
  }

  /** Adding keeps the ids distinct. */
  lemma AddKeepsIdsDistinct(clients: seq<Client>, data: ClientData)
    requires DistinctIds(clients)
    ensures DistinctIds(AddClient(clients, data).0)
  {
    var (r, added) := AddClient(clients, data);
    forall i, j | 0 <= i < j < |r| ensures r[i].id != r[j].id {
      if j == |clients| {
        assert r[i] in clients;
      }
    }
  }

  /** `client => client.id === clientId` */
  function HasClientId(id: int): Client -> bool {
    (c: Client) => c.id == id
  }

  /** `updateClient(clientId, clientData)`: every client with the id is
      replaced by `{id: clientId, ...clientData}`; the others stay where
      they were. */
  function UpdateClient(clients: seq<Client>, id: int, data: ClientData): (r: (seq<Client>, Client))
    ensures r.1 == Client(id, data)
    ensures |r.0| == |clients|
    ensures forall i | 0 <= i < |clients| && clients[i].id == id :: r.0[i] == r.1
    ensures forall i | 0 <= i < |clients| && clients[i].id != id :: r.0[i] == clients[i]
  {
    var updated := Client(id, data);
    (Replace(clients, HasClientId(id), updated), updated)
  }

  /** Updating keeps every id where it was, so distinct ids stay distinct,
      and the clients with other ids are left in order. */
  lemma UpdateKeepsIds(clients: seq<Client>, id: int, data: ClientData)
    ensures var r := UpdateClient(clients, id, data).0;
      && (forall i | 0 <= i < |r| :: r[i].id == clients[i].id)
      && (DistinctIds(clients) ==> DistinctIds(r))
      && Filter(r, Not(HasClientId(id))) == Filter(clients, Not(HasClientId(id)))
  {
    ReplaceKeepsOthers(clients, HasClientId(id), Client(id, data));
  }

  /** `client => client.id !== clientId` */
  function LacksClientId(id: int): Client -> bool {
    (c: Client) => c.id != id
  }

  /** `deleteClient(clientId)`: exactly the clients with the id go, and the
      rest keep their order. */
  function DeleteClient(clients: seq<Client>, id: int): (r: seq<Client>)
    ensures Subseq(r, clients)
    ensures forall c | c in r :: c.id != id
    ensures forall c | c in clients && c.id != id :: c in r
    ensures KeepsExactly(r, clients, LacksClientId(id))
  {
    FilterIsSubseq(clients, LacksClientId(id));
    FilterKeepsExactly(clients, LacksClientId(id));
    Filter(clients, LacksClientId(id))
  }

  /** Filtering keeps distinct ids distinct. */
  lemma {:induction false} FilterKeepsIdsDistinct(clients: seq<Client>, p: Client -> bool)
    requires DistinctIds(clients)
    ensures DistinctIds(Filter(clients, p))
    decreases |clients|
  {
    if |clients| > 0 {
      var rest := clients[1..];
      assert DistinctIds(rest) by {
        forall i, j | 0 <= i < j < |rest| ensures rest[i].id != rest[j].id {
          assert rest[i] == clients[i + 1] && rest[j] == clients[j + 1];
        }
      }
      FilterKeepsIdsDistinct(rest, p);
      if p(clients[0]) {
        var r := Filter(clients, p);
        assert r == [clients[0]] + Filter(rest, p);
        forall j | 0 < j < |r| ensures r[0].id != r[j].id {
          assert r[j] in Filter(rest, p);
          assert r[j] in rest;
          var k :| 0 <= k < |rest| && rest[k] == r[j];
          assert clients[k + 1] == r[j];
        }
      }
    }
  }

  /** Deleting keeps the ids distinct. */
  lemma DeleteKeepsIdsDistinct(clients: seq<Client>, id: int)
    requires DistinctIds(clients)
    ensures DistinctIds(DeleteClient(clients, id))
  {
    FilterKeepsIdsDistinct(clients, LacksClientId(id));
  }

  /** Deleting the client just added gives back the list before the add. */
  lemma AddThenDeleteRestores(clients: seq<Client>, data: ClientData)
    ensures var (r, added) := AddClient(clients, data); DeleteClient(r, added.id) == clients
  {
    var (r, added) := AddClient(clients, data);
    FilterAllPass(clients, LacksClientId(added.id));
    assert r == clients + [added];
    FilterAppend(clients, added, LacksClientId(added.id));
  }

  /** `searchClients(searchTerm)`: every client for the empty term, else
      the table's filter. */
  function SearchClients(clients: seq<Client>, term: string): (r: seq<Client>)
    ensures Subseq(r, clients)
    ensures term != [] ==> forall c | c in clients :: c in r <==> ClientLists.Matches(c, term)
    ensures term != [] ==> KeepsExactly(r, clients, ClientLists.MatchesTerm(term))
  {
    if term == [] then SubseqRefl(clients); clients
    else ClientLists.FilteredClients(clients, term)
  }

  /** The early return for the empty term changes nothing: the search
      returns what the table shows for every term. */
  lemma SearchAgreesWithTable(clients: seq<Client>, term: string)
    ensures SearchClients(clients, term) == ClientLists.FilteredClients(clients, term)
  {
    if term == [] {
      ClientLists.EmptyTermKeepsAll(clients);
    }
  }
}
