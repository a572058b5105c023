/** remote.rs: building a deck from a deck URL. Only Moxfield is supported:
    the deck id is the second path segment of the URL, the deck is fetched
    from Moxfield's deck API, and its commander ("main"), mainboard entries
    and tokens become the deck's cards and tokens. */
module Remote {
  import opened Wrappers
  import opened Decks

  const MOXFIELD_API_URL: string := "https://api2.moxfield.com/v2/decks/all"
  const MOXFIELD_HOST: string := "moxfield.com"

  /** The parts of a parsed URL the download reads: its host, if any, and its
      path segments, absent for URLs that cannot be a base. */
  datatype Url = Url(host: Option<string>, pathSegments: Option<seq<string>>)

  datatype Website = Moxfield

  /** `UnsupportedWebsite` is `DeckDownloadError::UnsupportedWebsite`;
      `Panicked` stands for the panic of an `unwrap` on a URL without a second
      path segment; `FetchFailed` for a failed request or a body that does not
      decode as a Moxfield deck. */
  datatype RemoteError = UnsupportedWebsite | Panicked | FetchFailed

  datatype MoxfieldCardInfo = MoxfieldCardInfo(scryfallId: string, name: string)

  datatype MoxfieldCard = MoxfieldCard(quantity: nat, card: MoxfieldCardInfo)

  /** The decoded body of the deck API's answer. */
  datatype MoxfieldResponse = MoxfieldResponse(
    name: string,
    main: MoxfieldCardInfo,
    mainboard: map<string, MoxfieldCard>,
    tokens: seq<MoxfieldCardInfo>)

  function InfoCard(info: MoxfieldCardInfo): Card {
    Card(info.name, info.scryfallId)
  }

  /** `parse_url`: the website of a URL, decided by its host alone. */
  function ParseUrl(url: Url): Result<Website, RemoteError> {
    if url.host == Some(MOXFIELD_HOST) then Ok(Moxfield) else Err(UnsupportedWebsite)
  }

  /** Only the exact host `moxfield.com` is supported, whatever the path; in
      particular `www.moxfield.com` is not. */
  lemma ParseUrlHost(url: Url)
    ensures ParseUrl(url).Ok? <==> url.host == Some(MOXFIELD_HOST)
    ensures ParseUrl(url).Err? ==> ParseUrl(url) == Err(UnsupportedWebsite)
    ensures ParseUrl(url) == ParseUrl(Url(url.host, None))
    ensures ParseUrl(Url(Some("www.moxfield.com"), url.pathSegments)) == Err(UnsupportedWebsite)
  {
    assert "www.moxfield.com" != MOXFIELD_HOST by {
      assert |"www.moxfield.com"| != |MOXFIELD_HOST|;
    }
  }

  /** The API URL of the deck a Moxfield URL names: the API base, a slash and
      the URL's second path segment. A URL without one makes the source panic. */
  function DeckApiUrl(url: Url): (r: Result<string, RemoteError>)
    ensures r.Err? ==> r.error == Panicked
    ensures r.Ok? <==> url.pathSegments.Some? && |url.pathSegments.value| >= 2
    ensures r.Ok? ==>
      && |r.value| == |MOXFIELD_API_URL| + 1 + |url.pathSegments.value[1]|
      && r.value[..|MOXFIELD_API_URL| + 1] == MOXFIELD_API_URL + "/"
      && r.value[|MOXFIELD_API_URL| + 1..] == url.pathSegments.value[1]
  {
    match url.pathSegments
    case None => Err(Panicked)
    case Some(segments) =>
      if |segments| < 2 then Err(Panicked) else Ok(MOXFIELD_API_URL + "/" + segments[1])
  }

  /** Two deck URLs lead to the same API URL exactly when they name the same deck id. */
  lemma DeckApiUrlInjective(a: Url, b: Url)
    requires DeckApiUrl(a).Ok? && DeckApiUrl(b).Ok?
    ensures DeckApiUrl(a) == DeckApiUrl(b) <==> a.pathSegments.value[1] == b.pathSegments.value[1]
  {
  }

  /** The deck id is the segment after the first: `moxfield.com/decks/<id>`. */
  lemma DeckApiUrlOfDeckPage(host: Option<string>, first: string, id: string, more: seq<string>)
    ensures DeckApiUrl(Url(host, Some([first, id] + more))) == Ok(MOXFIELD_API_URL + "/" + id)
  {
  }

  /** The copies the mainboard entries stand for, each entry contributing its
      quantity of copies of its card; as a multiset, since the source visits the
      entries of a hash map, in no specified order. */
  ghost function Copies(mainboard: map<string, MoxfieldCard>): multiset<Card>
    decreases mainboard.Keys
  {
    if mainboard == map[] then multiset{}
    else
      var key :| key in mainboard;
      Copies(mainboard - {key}) + EntryCopies(mainboard[key])
  }

  ghost function EntryCopies(entry: MoxfieldCard): multiset<Card> {
    multiset(Repeat([InfoCard(entry.card)], entry.quantity))
  }

  /** The sum of the mainboard quantities. */
  ghost function TotalQuantity(mainboard: map<string, MoxfieldCard>): nat
    decreases mainboard.Keys
  {
    if mainboard == map[] then 0
    else
      var key :| key in mainboard;
      TotalQuantity(mainboard - {key}) + mainboard[key].quantity
  }

  /** The copies do not depend on the entry taken first: any entry can be split off. */
  lemma {:induction false} CopiesRemove(mainboard: map<string, MoxfieldCard>, key: string)
    requires key in mainboard
    ensures Copies(mainboard) == Copies(mainboard - {key}) + EntryCopies(mainboard[key])
    decreases mainboard.Keys
  {
    var picked :| picked in mainboard && Copies(mainboard) == Copies(mainboard - {picked}) + EntryCopies(mainboard[picked]);
    if picked != key {
      var rest, without := mainboard - {picked}, mainboard - {key};
      var both := rest - {key};
      assert both == without - {picked};
      var k, p := EntryCopies(mainboard[key]), EntryCopies(mainboard[picked]);
      CopiesRemove(rest, key);
      assert Copies(rest) == Copies(both) + k;
      CopiesRemove(without, picked);
      assert Copies(without) == Copies(both) + p;
      calc {
        Copies(mainboard);
        Copies(rest) + p;
        Copies(both) + k + p;
        Copies(both) + p + k;
        Copies(without) + k;
      }
    }
  }

  lemma {:induction false} TotalQuantityRemove(mainboard: map<string, MoxfieldCard>, key: string)
    requires key in mainboard
    ensures TotalQuantity(mainboard) == TotalQuantity(mainboard - {key}) + mainboard[key].quantity
    decreases mainboard.Keys
  {
    var picked :| picked in mainboard && TotalQuantity(mainboard) == TotalQuantity(mainboard - {picked}) + mainboard[picked].quantity;
    if picked != key {
      var rest := mainboard - {picked};
      TotalQuantityRemove(rest, key);
      TotalQuantityRemove(mainboard - {key}, picked);
      assert rest - {key} == (mainboard - {key}) - {picked};
    }
  }

  /** There are as many copies as the quantities add up to. */
  lemma {:induction false} CopiesSize(mainboard: map<string, MoxfieldCard>)
    ensures |Copies(mainboard)| == TotalQuantity(mainboard)
    decreases mainboard.Keys
  {
    if mainboard != map[] {
      var key :| key in mainboard;
      CopiesRemove(mainboard, key);
      TotalQuantityRemove(mainboard, key);
      CopiesSize(mainboard - {key});
    }
  }

  /** A card is among the copies exactly when some entry of positive quantity
      is that card. */
  lemma {:induction false} CopiesMembers(mainboard: map<string, MoxfieldCard>, c: Card)
    ensures c in Copies(mainboard) <==>
      exists key :: key in mainboard && mainboard[key].quantity > 0 && InfoCard(mainboard[key].card) == c
    decreases mainboard.Keys
  {
    if mainboard != map[] {
      var key :| key in mainboard;
      var rest := mainboard - {key};
      CopiesRemove(mainboard, key);
      CopiesMembers(rest, c);
      var entry := mainboard[key];
      RepeatOneMultiset(InfoCard(entry.card), entry.quantity);
      if exists k :: k in mainboard && mainboard[k].quantity > 0 && InfoCard(mainboard[k].card) == c {
        var k :| k in mainboard && mainboard[k].quantity > 0 && InfoCard(mainboard[k].card) == c;
        if k != key {
          assert k in rest;
        }
      }
      if c in Copies(rest) {
        var k :| k in rest && rest[k].quantity > 0 && InfoCard(rest[k].card) == c;
        assert k in mainboard && mainboard[k] == rest[k];
      }
    }
  }

  /** The deck `get_moxfield_deck` builds from a response: the response's name;
      the commander first, then the mainboard copies, stated as a multiset;
      the tokens in order. */
  ghost predicate IsMoxfieldDeck(deck: Deck, response: MoxfieldResponse) {
    && deck.name == response.name
    && |deck.cards| >= 1
    && deck.cards[0] == InfoCard(response.main)
    && multiset(deck.cards[1..]) == Copies(response.mainboard)
    && |deck.tokens| == |response.tokens|
    && forall i :: 0 <= i < |deck.tokens| ==> deck.tokens[i] == InfoCard(response.tokens[i])
  }

  /** A Moxfield deck holds its commander, the mainboard quantities' sum of
      copies, and one token per listed token. */
  lemma MoxfieldDeckSize(deck: Deck, response: MoxfieldResponse)
    requires IsMoxfieldDeck(deck, response)
    ensures |deck.cards| == 1 + TotalQuantity(response.mainboard)
    ensures TotalCards(deck) == 1 + TotalQuantity(response.mainboard) + |response.tokens|
  {
    CopiesSize(response.mainboard);
    assert |multiset(deck.cards[1..])| == |deck.cards[1..]|;
  }

  /** `get_moxfield_deck`. `fetch` answers an API URL with the decoded response,
      or None when the request or the decoding fails. */
  method GetMoxfieldDeck(url: Url, fetch: string -> Option<MoxfieldResponse>) returns (r: Result<Deck, RemoteError>)
    ensures DeckApiUrl(url).Err? ==> r == Err(Panicked)
    ensures DeckApiUrl(url).Ok? && fetch(DeckApiUrl(url).value).None? ==> r == Err(FetchFailed)
    ensures DeckApiUrl(url).Ok? && fetch(DeckApiUrl(url).value).Some? ==>
      r.Ok? && IsMoxfieldDeck(r.value, fetch(DeckApiUrl(url).value).value)
  {
    var deckUrl := DeckApiUrl(url);
    if deckUrl.Err? {
      return Err(deckUrl.error);
    }
    var fetched := fetch(deckUrl.value);
    if fetched.None? {
      return Err(FetchFailed);
    }
    var response := fetched.value;

    var copies := MainboardCards(response.mainboard);
    var cards := [InfoCard(response.main)] + copies;
    assert cards[1..] == copies;
    var tokens := TokenCards(response.tokens);
    return Ok(Deck(response.name, cards, tokens));
  }

  /** The mainboard loop of `get_moxfield_deck`: for each entry, in the map's
      iteration order, `quantity` copies of its card. */
  method MainboardCards(mainboard: map<string, MoxfieldCard>) returns (cards: seq<Card>)
    ensures multiset(cards) == Copies(mainboard)
  {
    cards := [];
    var pending := mainboard;
    while pending != map[]
      invariant forall key :: key in pending ==> key in mainboard && pending[key] == mainboard[key]
      invariant multiset(cards) + Copies(pending) == Copies(mainboard)
      decreases pending.Keys
    {
      var key :| key in pending;
      var entry := pending[key];
      ghost var before := cards;
      var copy := 0;
      while copy < entry.quantity
        invariant copy <= entry.quantity
        invariant cards == before + Repeat([InfoCard(entry.card)], copy)
      {
        ghost var copies := Repeat([InfoCard(entry.card)], copy);
        assert Repeat([InfoCard(entry.card)], copy + 1) == copies + [InfoCard(entry.card)];
        assert before + copies + [InfoCard(entry.card)] == before + (copies + [InfoCard(entry.card)]);
        cards := cards + [InfoCard(entry.card)];
        copy := copy + 1;
      }
      assert multiset(cards) == multiset(before) + EntryCopies(entry);
      CopiesRemove(pending, key);
      pending := pending - {key};
    }
  }

  /** The token loop of `get_moxfield_deck`: each listed token as a card, in order. */
  method TokenCards(infos: seq<MoxfieldCardInfo>) returns (tokens: seq<Card>)
    ensures |tokens| == |infos|
    ensures forall i :: 0 <= i < |infos| ==> tokens[i] == InfoCard(infos[i])
  {
    tokens := [];
    var i := 0;
    while i < |infos|
      invariant i <= |infos| && |tokens| == i
      invariant forall k :: 0 <= k < i ==> tokens[k] == InfoCard(infos[k])
    {
      tokens := tokens + [InfoCard(infos[i])];
      i := i + 1;
    }
  }

  /** `get_remote_deck`: the website of the URL, then its deck. */
  method GetRemoteDeck(url: Url, fetch: string -> Option<MoxfieldResponse>) returns (r: Result<Deck, RemoteError>)
    ensures ParseUrl(url).Err? ==> r == Err(UnsupportedWebsite)
    ensures ParseUrl(url).Ok? && DeckApiUrl(url).Err? ==> r == Err(Panicked)
    ensures ParseUrl(url).Ok? && DeckApiUrl(url).Ok? && fetch(DeckApiUrl(url).value).None? ==> r == Err(FetchFailed)
    ensures r.Ok? <==> ParseUrl(url).Ok? && DeckApiUrl(url).Ok? && fetch(DeckApiUrl(url).value).Some?
    ensures r.Ok? ==> IsMoxfieldDeck(r.value, fetch(DeckApiUrl(url).value).value)
  {
    var website := ParseUrl(url);
    if website.Err? {
      return Err(website.error);
    }
    match website.value
    case Moxfield =>
      r := GetMoxfieldDeck(url, fetch);
  }
}
