/** The client table's and the client stats cards' view of a client list
    (src/Components/Client/ClientTable.tsx, ClientStats.tsx): the search
    filter both share, and the totals the cards show. */
module ClientLists {
  import opened Wrappers
  import opened Text
  import opened Js
  import opened Seqs
  import opened Records

  /** The filter of both components: the last name, e-mail, address and ICE
      contain the term ignoring case; the phone contains it as typed. */
  predicate Matches(c: Client, term: string) {
    var t := Lower(term);
    || Contains(Lower(c.info.lastName), t)
    || Contains(Lower(c.info.email), t)
    || Contains(c.info.phone, term)
    || Contains(Lower(c.info.address), t)
    || Contains(Lower(c.info.ice), t)
  }

  function MatchesTerm(term: string): Client -> bool {
    (c: Client) => Matches(c, term)
  }

  /** `filteredClients`: the clients that match, in their order. */
  function FilteredClients(clients: seq<Client>, term: string): (r: seq<Client>)
    ensures Subseq(r, clients)
    ensures forall c | c in r :: c in clients && Matches(c, term)
    ensures forall c | c in clients && Matches(c, term) :: c in r
    ensures KeepsExactly(r, clients, MatchesTerm(term))
  {
    FilterIsSubseq(clients, MatchesTerm(term));
    FilterKeepsExactly(clients, MatchesTerm(term));
    Filter(clients, MatchesTerm(term))
  }

  /** Every text contains the empty term, so it keeps every client. */
  lemma EmptyTermKeepsAll(clients: seq<Client>)
    ensures FilteredClients(clients, []) == clients
  {
    forall c | c in clients ensures Matches(c, []) {
      ContainsEmpty(Lower(c.info.lastName));
    }
    FilterAllPass(clients, MatchesTerm([]));
  }

  /** The names, e-mails, addresses and ICEs ignore the case of the term;
      the phone does not. */
  lemma CaseOfTermIgnoredOutsidePhone(c: Client, term: string)
    requires !Contains(c.info.phone, term) && !Contains(c.info.phone, Lower(term))
    ensures Matches(c, term) <==> Matches(c, Lower(term))
  {
    LowerIdempotent(term);
  }

  /** The phone is compared as typed: a capital letter in the term misses
      the same letter in lower case. */
  lemma PhoneIsCaseSensitive(c: Client)
    requires c.info.phone == "x" && c.info.lastName == [] && c.info.email == [] && c.info.address == [] && c.info.ice == []
    ensures Matches(c, "x") && !Matches(c, "X")
  {
    assert "x" <= c.info.phone;
    assert !Contains([], "x");
    assert Lower([]) == [];
    assert !Contains("x", "X") by {
      assert "X"[0] != "x"[0];
      assert !Contains("x"[1..], "X");
    }
  }

  /** The empty state ("No clients found") is shown exactly when no client
      matches. */
  lemma EmptyStateIffNoMatch(clients: seq<Client>, term: string)
    ensures FilteredClients(clients, term) == [] <==> forall c | c in clients :: !Matches(c, term)
  {
    FilterEmptyIff(clients, MatchesTerm(term));
  }

  /** Filtering the filtered list again changes nothing. */
  lemma FilteredClientsIdempotent(clients: seq<Client>, term: string)
    ensures FilteredClients(FilteredClients(clients, term), term) == FilteredClients(clients, term)
  {
    FilterIdempotent(clients, MatchesTerm(term));
  }

  // ---------------------------------------------------------------------
  // Stats cards

  /** `parseInt(client.etat || 0)`: an empty état counts as the number 0;
      None is NaN. */
  function EtatValue(c: Client): (r: Option<int>)
    ensures c.info.etat == [] ==> r == Some(0)
  {
    ParseInt(Or(Str(c.info.etat), Num(0.0)))
  }

  /** The four cards: the client count, the matching count, the total
      value of the états and its average (None is NaN). */
  datatype ClientStatsCards = ClientStatsCards(count: nat, filtered: nat, totalValue: Option<int>, averageValue: Option<int>)

  /** `ClientStats`: the totals are over every client, not only the
      matching ones; an empty list averages to 0, and one NaN état makes
      both the total and the average NaN. The matching count is the number
      of rows `FilteredClients` shows, the same filter by `MatchesTerm`. */
  function ClientStats(clients: seq<Client>, term: string): (r: ClientStatsCards)
    ensures r.count == |clients| && r.filtered == |Filter(clients, MatchesTerm(term))|
    ensures r.filtered <= r.count
    ensures r.totalValue.Some? <==> forall c | c in clients :: EtatValue(c).Some?
    ensures |clients| == 0 ==> r.totalValue == Some(0) && r.averageValue == Some(0)
    ensures |clients| > 0 ==> (r.averageValue.Some? <==> r.totalValue.Some?)
    ensures |clients| > 0 && r.totalValue.Some? ==>
      r.averageValue.value as real <= r.totalValue.value as real / |clients| as real + 0.5 < r.averageValue.value as real + 1.0
  {
    SumIntOrNaNDefined(clients, EtatValue);
    var total := SumIntOrNaN(clients, EtatValue);
    var average :=
      if |clients| > 0 then
        match total
        case Some(t) => Some(RoundRatio(t, |clients|))
        case None => None
      else Some(0);
    ClientStatsCards(|clients|, Count(clients, MatchesTerm(term)), total, average)
  }

  /** The total card is the sum of the états. */
  lemma TotalValueIsSum(clients: seq<Client>, term: string)
    ensures ClientStats(clients, term).totalValue == SumIntOrNaN(clients, EtatValue)
  {
  }

  /** The total of a list with one more client is the old total plus that
      client's value. */
  lemma TotalValueAppend(clients: seq<Client>, c: Client, term: string)
    requires ClientStats(clients, term).totalValue.Some? && EtatValue(c).Some?
    ensures ClientStats(clients + [c], term).totalValue ==
      Some(ClientStats(clients, term).totalValue.value + EtatValue(c).value)
  {
    TotalValueIsSum(clients, term);
    TotalValueIsSum(clients + [c], term);
    SumIntOrNaNAppend(clients, c, EtatValue);
  }
}
