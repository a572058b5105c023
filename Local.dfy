/** local.rs: building a deck from a text deck list. Each line names a
    quantity, a card name, a set code and a collector number; the card is
    looked up on Scryfall (with retries while the service answers 429 Too
    Many Requests) and expanded into its copies and the copies' tokens. */
module Local {
  import opened Wrappers
  import opened Text
  import opened Decks

  const MAX_RETRIES: nat := 5
  const INITIAL_BACKOFF_SECS: nat := 1
  const TOO_MANY_REQUESTS: nat := 429
  const U32_LIMIT: nat := 0x1_0000_0000
  const U64_LIMIT: nat := 0x1_0000_0000_0000_0000

  /** An entry of a Scryfall card's `all_parts`. */
  datatype RelatedCard = RelatedCard(name: string, component: string, id: string)

  /** The fields of a Scryfall card object that the deck builder decodes. */
  datatype ScryfallCard = ScryfallCard(name: string, id: string, allParts: Option<seq<RelatedCard>>)

  /** The query parameters of a `cards/named` request. */
  datatype Query = Query(exact: string, setCode: string, collectorNumber: string)

  /** What one `cards/named` request yields: sending fails, or a reply with its
      status, its Retry-After header if any, and its body decoded as a card
      (None when the body is not such a card). */
  datatype Response =
    | SendFailed
    | Reply(status: nat, retryAfter: Option<string>, body: Option<ScryfallCard>)

  /** The Scryfall service as the deck builder sees it: the response to a query
      on the given attempt (0 for the first request). */
  type Server = (Query, nat) -> Response

  datatype DetailsError = SendError | DecodeError | BadStatus(status: nat) | RetriesExhausted

  /** A lookup: its result, the number of requests sent, and the seconds slept
      before each retry, in order. */
  datatype Lookup = Lookup(result: Result<ScryfallCard, DetailsError>, requests: nat, sleeps: seq<nat>)

  /** Why a line failed. `Panicked` stands for a panic of the task parsing the
      line (indexing past the tokens of a short line), which `get_local_deck`
      receives as an error when it awaits the task. */
  datatype LineError = Panicked | InvalidQuantity | LookupFailed(error: DetailsError)

  // ---------------------------------------------------------------------------
  // `get_card_details`: the lookup with retries
  // ---------------------------------------------------------------------------

  predicate IsSuccess(status: nat) {
    200 <= status <= 299
  }

  predicate IsRateLimited(response: Response) {
    response.Reply? && response.status == TOO_MANY_REQUESTS
  }

  /** Seconds to wait after a 429: the Retry-After value when it parses as a
      `u64`, else the initial backoff. */
  function Backoff(retryAfter: Option<string>): nat {
    match retryAfter
    case Some(value) =>
      (match ParseUnsigned(value, U64_LIMIT)
       case Some(secs) => secs
       case None => INITIAL_BACKOFF_SECS)
    case None => INITIAL_BACKOFF_SECS
  }

  /** How a response other than a 429 ends the lookup. */
  function Answer(response: Response): Result<ScryfallCard, DetailsError> {
    match response
    case SendFailed => Err(SendError)
    case Reply(status, _, body) =>
      if !IsSuccess(status) then Err(BadStatus(status))
      else if body.Some? then Ok(body.value)
      else Err(DecodeError)
  }

  /** The retry loop of `get_card_details` from the given attempt on. */
  function RetryFrom(query: Query, server: Server, attempt: nat): Lookup
    decreases MAX_RETRIES - attempt
  {
    if attempt >= MAX_RETRIES then Lookup(Err(RetriesExhausted), 0, [])
    else
      var response := server(query, attempt);
      if IsRateLimited(response) then
        Retried([Backoff(response.retryAfter)], RetryFrom(query, server, attempt + 1))
      else
        Lookup(Answer(response), 1, [])
  }

  /** A lookup preceded by retries that slept `sleeps`. */
  function Retried(sleeps: seq<nat>, lookup: Lookup): Lookup {
    Lookup(lookup.result, |sleeps| + lookup.requests, sleeps + lookup.sleeps)
  }

  /** Every sleep of a lookup follows a 429 and lasts that reply's backoff. */
  lemma {:induction false} RetrySleeps(query: Query, server: Server, attempt: nat)
    requires attempt <= MAX_RETRIES
    ensures attempt + |RetryFrom(query, server, attempt).sleeps| <= MAX_RETRIES
    ensures forall a :: attempt <= a < attempt + |RetryFrom(query, server, attempt).sleeps| ==>
      IsRateLimited(server(query, a))
      && RetryFrom(query, server, attempt).sleeps[a - attempt] == Backoff(server(query, a).retryAfter)
    decreases MAX_RETRIES - attempt
  {
    if attempt < MAX_RETRIES {
      RetryStep(query, server, attempt);
      if IsRateLimited(server(query, attempt)) {
        RetrySleeps(query, server, attempt + 1);
        SleepsPrepend(query, server, attempt, RetryFrom(query, server, attempt), RetryFrom(query, server, attempt + 1));
      }
    }
  }

  /** A 429 at `attempt` followed by the sleeps of `later` keeps every sleep
      paired with the 429 before it. */
  lemma SleepsPrepend(query: Query, server: Server, attempt: nat, l: Lookup, later: Lookup)
    requires IsRateLimited(server(query, attempt))
    requires l == Retried([Backoff(server(query, attempt).retryAfter)], later)
    requires forall a :: attempt + 1 <= a < attempt + 1 + |later.sleeps| ==>
      IsRateLimited(server(query, a))
      && later.sleeps[a - (attempt + 1)] == Backoff(server(query, a).retryAfter)
    ensures |l.sleeps| == 1 + |later.sleeps|
    ensures forall a :: attempt <= a < attempt + |l.sleeps| ==>
      IsRateLimited(server(query, a))
      && l.sleeps[a - attempt] == Backoff(server(query, a).retryAfter)
  {
    forall a | attempt <= a < attempt + |l.sleeps|
      ensures IsRateLimited(server(query, a))
        && l.sleeps[a - attempt] == Backoff(server(query, a).retryAfter)
    {
      if a > attempt {
        assert l.sleeps[a - attempt] == later.sleeps[a - (attempt + 1)];
      }
    }
  }

  /** A lookup stops at its first response that is not a 429, with that
      response's answer, or gives up once every attempt was used. */
  lemma {:induction false} RetryStops(query: Query, server: Server, attempt: nat)
    requires attempt <= MAX_RETRIES
    ensures var l := RetryFrom(query, server, attempt);
      var stop := attempt + |l.sleeps|;
      && (stop == MAX_RETRIES ==> l.result == Err(RetriesExhausted) && l.requests == |l.sleeps|)
      && (stop < MAX_RETRIES ==>
            && !IsRateLimited(server(query, stop))
            && l.result == Answer(server(query, stop))
            && l.requests == |l.sleeps| + 1)
    decreases MAX_RETRIES - attempt
  {
    if attempt < MAX_RETRIES {
      RetryStep(query, server, attempt);
      if IsRateLimited(server(query, attempt)) {
        RetryStops(query, server, attempt + 1);
        var later := RetryFrom(query, server, attempt + 1);
        assert attempt + |RetryFrom(query, server, attempt).sleeps| == (attempt + 1) + |later.sleeps|;
      }
    }
  }

  /** The result of a lookup is fixed by its first response that is not a 429:
      every earlier response was a 429 and was followed by its backoff, and the
      lookup gives up exactly when all its attempts were answered 429. */
  lemma RetryCharacterisation(query: Query, server: Server, attempt: nat)
    requires attempt <= MAX_RETRIES
    ensures var l := RetryFrom(query, server, attempt);
      && attempt + |l.sleeps| <= MAX_RETRIES
      && (forall a :: attempt <= a < attempt + |l.sleeps| ==>
            IsRateLimited(server(query, a))
            && l.sleeps[a - attempt] == Backoff(server(query, a).retryAfter))
      && (l.result == Err(RetriesExhausted) <==> attempt + |l.sleeps| == MAX_RETRIES)
      && (attempt + |l.sleeps| == MAX_RETRIES ==> l.requests == |l.sleeps|)
      && (attempt + |l.sleeps| < MAX_RETRIES ==>
            && !IsRateLimited(server(query, attempt + |l.sleeps|))
            && l.result == Answer(server(query, attempt + |l.sleeps|))
            && l.requests == |l.sleeps| + 1)
  {
    RetrySleeps(query, server, attempt);
    RetryStops(query, server, attempt);
    var l := RetryFrom(query, server, attempt);
    if attempt + |l.sleeps| < MAX_RETRIES {
      AnswerIsNotExhausted(server(query, attempt + |l.sleeps|));
    }
  }

  lemma AnswerIsNotExhausted(response: Response)
    ensures Answer(response) != Err(RetriesExhausted)
  {
  }

  /** A lookup sends between one and MAX_RETRIES requests and sleeps only
      between them. */
  lemma RetryBounds(query: Query, server: Server)
    ensures var l := RetryFrom(query, server, 0);
      1 <= l.requests <= MAX_RETRIES && |l.sleeps| <= l.requests
  {
    RetryCharacterisation(query, server, 0);
  }

  /** A service that answers every attempt with 429 exhausts the retries after
      MAX_RETRIES requests and MAX_RETRIES sleeps. */
  lemma AlwaysRateLimited(query: Query, server: Server)
    requires forall a :: 0 <= a < MAX_RETRIES ==> IsRateLimited(server(query, a))
    ensures var l := RetryFrom(query, server, 0);
      l.result == Err(RetriesExhausted) && l.requests == MAX_RETRIES && |l.sleeps| == MAX_RETRIES
  {
    RetryCharacterisation(query, server, 0);
  }

  /** A first response that is not a 429 ends the lookup at once, without a sleep. */
  lemma FirstAnswerFinal(query: Query, server: Server)
    requires !IsRateLimited(server(query, 0))
    ensures RetryFrom(query, server, 0) == Lookup(Answer(server(query, 0)), 1, [])
  {
  }

  /** The wait after a 429 is the Retry-After value when it is a decimal `u64`
      and one second when the header is absent or malformed. */
  lemma BackoffValues(secs: nat, malformed: string)
    requires secs < U64_LIMIT
    requires ParseUnsigned(malformed, U64_LIMIT).None?
    ensures Backoff(Some(Decimal(secs))) == secs
    ensures Backoff(Some(malformed)) == INITIAL_BACKOFF_SECS
    ensures Backoff(None) == INITIAL_BACKOFF_SECS
  {
    ParseDecimal(secs, U64_LIMIT);
  }

  /** One attempt of the retry loop. */
  lemma RetryStep(query: Query, server: Server, attempt: nat)
    requires attempt < MAX_RETRIES
    ensures var response := server(query, attempt);
      RetryFrom(query, server, attempt) ==
        if IsRateLimited(response) then Retried([Backoff(response.retryAfter)], RetryFrom(query, server, attempt + 1))
        else Lookup(Answer(response), 1, [])
  {
  }

  lemma RetriedTwice(a: seq<nat>, b: seq<nat>, lookup: Lookup)
    ensures Retried(a, Retried(b, lookup)) == Retried(a + b, lookup)
  {
    assert a + (b + lookup.sleeps) == a + b + lookup.sleeps;
  }

  /** `get_card_details`. */
  method GetCardDetails(query: Query, server: Server) returns (lookup: Lookup)
    ensures lookup == RetryFrom(query, server, 0)
  {
    var attempt := 0;
    var sleeps := [];
    while attempt < MAX_RETRIES
      invariant attempt <= MAX_RETRIES && |sleeps| == attempt
      invariant Retried(sleeps, RetryFrom(query, server, attempt)) == RetryFrom(query, server, 0)
      decreases MAX_RETRIES - attempt
    {
      var response := server(query, attempt);
      RetryStep(query, server, attempt);
      if response.SendFailed? {
        return Lookup(Err(SendError), attempt + 1, sleeps);
      }
      if IsSuccess(response.status) {
        if response.body.None? {
          return Lookup(Err(DecodeError), attempt + 1, sleeps);
        }
        return Lookup(Ok(response.body.value), attempt + 1, sleeps);
      } else if response.status == TOO_MANY_REQUESTS {
        var secs := INITIAL_BACKOFF_SECS;
        if response.retryAfter.Some? {
          var parsed := ParseUnsigned(response.retryAfter.value, U64_LIMIT);
          if parsed.Some? {
            secs := parsed.value;
          }
        }
        assert secs == Backoff(response.retryAfter);
        RetriedTwice(sleeps, [secs], RetryFrom(query, server, attempt + 1));
        sleeps := sleeps + [secs];
      } else {
        return Lookup(Err(BadStatus(response.status)), attempt + 1, sleeps);
      }
      attempt := attempt + 1;
    }
    assert sleeps + [] == sleeps;
    return Lookup(Err(RetriesExhausted), attempt, sleeps);
  }

  // ---------------------------------------------------------------------------
  // `parse_card`: one line of the deck list
  // ---------------------------------------------------------------------------

  /** The quantity and the lookup query read from a line. */
  datatype LineFields = LineFields(quantity: nat, query: Query)

  /** The tokenisation of `parse_card`: split at whitespace; the first token is
      the `u32` quantity, the last two the set (with its non-letters trimmed
      from both ends) and the collector number, the rest joined with single
      spaces the name. A blank line and a line with a valid quantity but fewer
      than three tokens index past the tokens and panic. */
  function ParseLine(line: string): (r: Result<LineFields, LineError>)
    ensures r.Ok? ==> r.value.quantity < U32_LIMIT
    ensures r.Ok? ==> |SplitWhitespace(line)| >= 3
    ensures r.Ok? ==> var code := r.value.query.setCode;
      code == [] || (IsAlphabetic(code[0]) && IsAlphabetic(code[|code| - 1]))
    ensures r.Ok? ==> IsWord(r.value.query.collectorNumber, IsWhitespace)
    ensures |SplitWhitespace(line)| > 0 ==>
      (ParseUnsigned(SplitWhitespace(line)[0], U32_LIMIT).None? <==> r == Err(InvalidQuantity))
    ensures |SplitWhitespace(line)| == 0 ==> r == Err(Panicked)
    ensures |SplitWhitespace(line)| >= 3 && ParseUnsigned(SplitWhitespace(line)[0], U32_LIMIT).Some? ==>
      r.Ok? && r.value.quantity == ParseUnsigned(SplitWhitespace(line)[0], U32_LIMIT).value
  {
    var parts := SplitWhitespace(line);
    if |parts| == 0 then Err(Panicked)
    else
      match ParseUnsigned(parts[0], U32_LIMIT)
      case None => Err(InvalidQuantity)
      case Some(quantity) =>
        if |parts| < 3 then Err(Panicked)
        else
          var n := |parts|;
          Ok(LineFields(quantity,
            Query(Join(parts[1..n - 2], " "), TrimMatches(parts[n - 2], IsNotAlphabetic), parts[n - 1])))
  }

  /** A line whose whitespace-separated tokens are a quantity token that
      parses as a `u32` (plain decimal, or with a `+` or leading zeros), the
      name's words, a set token and a collector number reads back as those
      fields. */
  lemma ParseLineOfWords(line: string, first: string, quantity: nat, nameWords: seq<string>, setToken: string, collectorNumber: string)
    requires ParseUnsigned(first, U32_LIMIT) == Some(quantity)
    requires SplitWhitespace(line) == [first] + nameWords + [setToken, collectorNumber]
    ensures ParseLine(line)
      == Ok(LineFields(quantity,
           Query(Join(nameWords, " "), TrimMatches(setToken, IsNotAlphabetic), collectorNumber)))
  {
    var words := SplitWhitespace(line);
    var n := |words|;
    assert words[0] == first;
    assert words[1..n - 2] == nameWords;
  }

  /** A line written as the quantity in decimal, the name's words, a set token
      and a collector number, separated by any runs of whitespace and with any
      whitespace before and after, reads back as those fields; the name's
      words are joined with single spaces. */
  lemma ParseLineOfFields(gaps: seq<string>, quantity: nat, nameWords: seq<string>, setToken: string, collectorNumber: string)
    requires quantity < U32_LIMIT
    requires forall k :: 0 <= k < |nameWords| ==> IsWord(nameWords[k], IsWhitespace)
    requires IsWord(setToken, IsWhitespace) && IsWord(collectorNumber, IsWhitespace)
    requires Separates(gaps, |nameWords| + 3, IsWhitespace)
    ensures ParseLine(Interleave(gaps, [Decimal(quantity)] + nameWords + [setToken, collectorNumber]))
      == Ok(LineFields(quantity,
           Query(Join(nameWords, " "), TrimMatches(setToken, IsNotAlphabetic), collectorNumber)))
  {
    var q := Decimal(quantity);
    assert IsWord(q, IsWhitespace) by {
      assert forall i :: 0 <= i < |q| ==> IsDigit(q[i]);
    }
    var words := [q] + nameWords + [setToken, collectorNumber];
    assert forall k :: 0 <= k < |words| ==> IsWord(words[k], IsWhitespace) by {
      forall k | 0 <= k < |words| ensures IsWord(words[k], IsWhitespace) {
        if 0 < k <= |nameWords| {
          assert words[k] == nameWords[k - 1];
        }
      }
    }
    SplitInterleave(gaps, words, IsWhitespace);
    ParseDecimal(quantity, U32_LIMIT);
    ParseLineOfWords(Interleave(gaps, words), q, quantity, nameWords, setToken, collectorNumber);
  }

  /** A line whose first token is not a `u32` fails with InvalidQuantity,
      whatever follows it and however the tokens are spaced. */
  lemma ParseLineBadQuantity(gaps: seq<string>, first: string, rest: seq<string>)
    requires IsWord(first, IsWhitespace)
    requires forall k :: 0 <= k < |rest| ==> IsWord(rest[k], IsWhitespace)
    requires Separates(gaps, |rest| + 1, IsWhitespace)
    requires ParseUnsigned(first, U32_LIMIT).None?
    ensures ParseLine(Interleave(gaps, [first] + rest)) == Err(InvalidQuantity)
  {
    var words := [first] + rest;
    assert forall k :: 0 <= k < |words| ==> IsWord(words[k], IsWhitespace) by {
      forall k | 0 <= k < |words| ensures IsWord(words[k], IsWhitespace) {
        if k > 0 {
          assert words[k] == rest[k - 1];
        }
      }
    }
    SplitInterleave(gaps, words, IsWhitespace);
  }

  /** A quantity of 2^32 or more overflows `u32`: the line fails with
      InvalidQuantity. */
  lemma ParseLineOverflow(gaps: seq<string>, quantity: nat, rest: seq<string>)
    requires quantity >= U32_LIMIT
    requires forall k :: 0 <= k < |rest| ==> IsWord(rest[k], IsWhitespace)
    requires Separates(gaps, |rest| + 1, IsWhitespace)
    ensures ParseLine(Interleave(gaps, [Decimal(quantity)] + rest)) == Err(InvalidQuantity)
  {
    var q := Decimal(quantity);
    assert IsWord(q, IsWhitespace) by {
      assert forall i :: 0 <= i < |q| ==> IsDigit(q[i]);
    }
    ParseDecimal(quantity, U32_LIMIT);
    ParseLineBadQuantity(gaps, q, rest);
  }

  /** The set token of the example line in local.rs, `(NEC)`, trims to `NEC`. */
  lemma ExampleSetCode()
    ensures TrimMatches("(NEC)", IsNotAlphabetic) == "NEC"
  {
    TrimSurrounded("(", "NEC", ")", IsNotAlphabetic);
    assert "(" + "NEC" + ")" == "(NEC)";
  }

  /** The example line in local.rs is its five tokens joined with single spaces. */
  lemma ExampleJoin()
    ensures Join(["1", "Whiptongue", "Hydra", "(NEC)", "134"], " ") == "1 Whiptongue Hydra (NEC) 134"
  {
    JoinCons("Hydra", ["(NEC)", "134"], " ");
    assert ["Hydra"] + ["(NEC)", "134"] == ["Hydra", "(NEC)", "134"];
    JoinCons("Whiptongue", ["Hydra", "(NEC)", "134"], " ");
    assert ["Whiptongue"] + ["Hydra", "(NEC)", "134"] == ["Whiptongue", "Hydra", "(NEC)", "134"];
    JoinCons("1", ["Whiptongue", "Hydra", "(NEC)", "134"], " ");
    assert ["1"] + ["Whiptongue", "Hydra", "(NEC)", "134"] == ["1", "Whiptongue", "Hydra", "(NEC)", "134"];
  }

  lemma ExampleName()
    ensures Join(["Whiptongue", "Hydra"], " ") == "Whiptongue Hydra"
  {
    JoinCons("Whiptongue", ["Hydra"], " ");
    assert ["Whiptongue"] + ["Hydra"] == ["Whiptongue", "Hydra"];
  }

  lemma JoinCons(first: string, rest: seq<string>, sep: string)
    requires |rest| > 0
    ensures Join([first] + rest, sep) == first + sep + Join(rest, sep)
  {
    assert ([first] + rest)[1..] == rest;
  }

  /** The tokens of the example line contain no whitespace. */
  lemma ExampleWords(words: seq<string>)
    requires words == ["1", "Whiptongue", "Hydra", "(NEC)", "134"]
    ensures forall k :: 0 <= k < |words| ==> IsWord(words[k], IsWhitespace)
  {
    assert IsWord("1", IsWhitespace);
    assert IsWord("Whiptongue", IsWhitespace);
    assert IsWord("Hydra", IsWhitespace);
    assert IsWord("(NEC)", IsWhitespace);
    assert IsWord("134", IsWhitespace);
  }

  /** The example of local.rs: `1 Whiptongue Hydra (NEC) 134` is one copy of
      "Whiptongue Hydra" from set NEC, collector number 134. */
  lemma ExampleLine(line: string)
    requires line == "1 Whiptongue Hydra (NEC) 134"
    ensures ParseLine(line) == Ok(LineFields(1, Query("Whiptongue Hydra", "NEC", "134")))
  {
    var words := ["1", "Whiptongue", "Hydra", "(NEC)", "134"];
    var nameWords := ["Whiptongue", "Hydra"];
    ExampleJoin();
    ExampleWords(words);
    SplitWhitespaceJoin(words);
    assert Decimal(1) == "1";
    assert [Decimal(1)] + nameWords + ["(NEC)", "134"] == words;
    ParseDecimal(1, U32_LIMIT);
    ParseLineOfWords(line, "1", 1, nameWords, "(NEC)", "134");
    ExampleName();
    ExampleSetCode();
  }

  /** A line of one or two tokens never yields a card: it has an invalid
      quantity or it panics. */
  lemma ShortLineFails(line: string)
    requires |SplitWhitespace(line)| < 3
    ensures ParseLine(line).Err?
    ensures |SplitWhitespace(line)| > 0 && ParseUnsigned(SplitWhitespace(line)[0], U32_LIMIT).Some? ==>
      ParseLine(line) == Err(Panicked)
    ensures |SplitWhitespace(line)| == 0 ==> ParseLine(line) == Err(Panicked)
  {
  }

  /** The card a lookup yields, named and identified as on Scryfall. */
  function DetailsCard(details: ScryfallCard): Card {
    Card(details.name, details.id)
  }

  /** The token parts of a card's `all_parts`, as cards, in order. */
  function TokensOf(parts: seq<RelatedCard>): (tokens: seq<Card>)
    ensures |tokens| <= |parts|
  {
    if parts == [] then []
    else
      var last := parts[|parts| - 1];
      TokensOf(parts[..|parts| - 1]) + (if last.component == "token" then [Card(last.name, last.id)] else [])
  }

  /** A single part is kept, as a card, exactly when it is a token. */
  lemma TokensOfOne(p: RelatedCard)
    ensures TokensOf([p]) == if p.component == "token" then [Card(p.name, p.id)] else []
  {
    assert [p][..0] == [];
  }

  /** Filtering commutes with concatenation: every token part is kept once,
      in the order of the parts. */
  lemma {:induction false} TokensOfAppend(a: seq<RelatedCard>, b: seq<RelatedCard>)
    ensures TokensOf(a + b) == TokensOf(a) + TokensOf(b)
    decreases |b|
  {
    if b == [] {
      assert a + b == a;
    } else {
      var ab := a + b;
      var init := b[..|b| - 1];
      assert ab[..|ab| - 1] == a + init;
      assert ab[|ab| - 1] == b[|b| - 1];
      TokensOfAppend(a, init);
    }
  }

  /** A card is among the tokens exactly when some part with component "token"
      carries its name and id. */
  lemma {:induction false} TokensOfMembers(parts: seq<RelatedCard>, c: Card)
    ensures c in TokensOf(parts) <==>
      exists k :: 0 <= k < |parts| && parts[k].component == "token" && c == Card(parts[k].name, parts[k].id)
  {
    if parts != [] {
      var init := parts[..|parts| - 1];
      TokensOfMembers(init, c);
      var n := |parts|;
      if c in TokensOf(parts) && c !in TokensOf(init) {
        assert parts[n - 1].component == "token" && c == Card(parts[n - 1].name, parts[n - 1].id);
      }
      if exists k :: 0 <= k < n && parts[k].component == "token" && c == Card(parts[k].name, parts[k].id) {
        var k :| 0 <= k < n && parts[k].component == "token" && c == Card(parts[k].name, parts[k].id);
        if k < n - 1 {
          assert init[k] == parts[k];
        }
      }
    }
  }

  function TokenParts(details: ScryfallCard): seq<Card> {
    if details.allParts.Some? then TokensOf(details.allParts.value) else []
  }

  /** The cards and tokens one line contributes. */
  datatype Expansion = Expansion(cards: seq<Card>, tokens: seq<Card>)

  /** The copy loop of `parse_card`: `quantity` copies of the card and, for
      each copy, the card's token parts. */
  method ExpandDetails(quantity: nat, details: ScryfallCard) returns (expansion: Expansion)
    ensures expansion.cards == Repeat([DetailsCard(details)], quantity)
    ensures expansion.tokens == Repeat(TokenParts(details), quantity)
  {
    var cards := [];
    var tokens := [];
    var copy := 0;
    while copy < quantity
      invariant copy <= quantity
      invariant cards == Repeat([DetailsCard(details)], copy)
      invariant tokens == Repeat(TokenParts(details), copy)
    {
      var card := Card(details.name, details.id);
      if details.allParts.Some? {
        var parts := details.allParts.value;
        var j := 0;
        while j < |parts|
          invariant j <= |parts|
          invariant tokens == Repeat(TokenParts(details), copy) + TokensOf(parts[..j])
        {
          assert parts[..j + 1][..j] == parts[..j];
          if parts[j].component == "token" {
            tokens := tokens + [Card(parts[j].name, parts[j].id)];
          }
          j := j + 1;
        }
        assert parts[..|parts|] == parts;
      }
      cards := cards + [card];
      copy := copy + 1;
    }
    return Expansion(cards, tokens);
  }

  /** A line of quantity n yields n copies of the card and, for copy j, the
      card's token parts right after the tokens of the first j copies. */
  lemma ExpansionShape(quantity: nat, details: ScryfallCard, j: nat)
    requires j < quantity
    ensures |Repeat([DetailsCard(details)], quantity)| == quantity
    ensures forall k :: 0 <= k < quantity ==> Repeat([DetailsCard(details)], quantity)[k] == DetailsCard(details)
    ensures var t := TokenParts(details);
      |Repeat(t, j)| + |t| <= |Repeat(t, quantity)| && Repeat(t, quantity)[|Repeat(t, j)|..|Repeat(t, j)| + |t|] == t
  {
    RepeatOne(DetailsCard(details), quantity);
    RepeatBlock(TokenParts(details), quantity, j);
  }

  /** `parse_card` as a whole: read the line, look the card up, expand it. */
  function ParseCardSpec(line: string, server: Server): Result<Expansion, LineError> {
    match ParseLine(line)
    case Err(e) => Err(e)
    case Ok(fields) =>
      match RetryFrom(fields.query, server, 0).result
      case Err(e) => Err(LookupFailed(e))
      case Ok(details) =>
        Ok(Expansion(Repeat([DetailsCard(details)], fields.quantity), Repeat(TokenParts(details), fields.quantity)))
  }

  /** `parse_card`. */
  method ParseCard(line: string, server: Server) returns (r: Result<Expansion, LineError>)
    ensures r == ParseCardSpec(line, server)
  {
    var fields := ParseLine(line);
    if fields.Err? {
      return Err(fields.error);
    }
    var lookup := GetCardDetails(fields.value.query, server);
    if lookup.result.Err? {
      return Err(LookupFailed(lookup.result.error));
    }
    var expansion := ExpandDetails(fields.value.quantity, lookup.result.value);
    return Ok(expansion);
  }

  /** A line that parses yields exactly `quantity` copies of the card it looked up. */
  lemma ParseCardCopies(line: string, server: Server)
    requires ParseCardSpec(line, server).Ok?
    ensures var card := DetailsCard(RetryFrom(ParseLine(line).value.query, server, 0).result.value);
      multiset(ParseCardSpec(line, server).value.cards) == multiset{}[card := ParseLine(line).value.quantity]
  {
    var fields := ParseLine(line).value;
    RepeatOneMultiset(DetailsCard(RetryFrom(fields.query, server, 0).result.value), fields.quantity);
  }

  // ---------------------------------------------------------------------------
  // `get_local_deck`: the whole list
  // ---------------------------------------------------------------------------

  /** The lines' results in line order. */
  function LineResults(lines: seq<string>, server: Server): (results: seq<Result<Expansion, LineError>>)
    ensures |results| == |lines|
    ensures forall i :: 0 <= i < |lines| ==> results[i] == ParseCardSpec(lines[i], server)
  {
    MapLines(lines, line => ParseCardSpec(line, server))
  }

  /** `parse` applied to each line. */
  function MapLines(lines: seq<string>, parse: string -> Result<Expansion, LineError>): (results: seq<Result<Expansion, LineError>>)
    ensures |results| == |lines|
    ensures forall i :: 0 <= i < |lines| ==> results[i] == parse(lines[i])
  {
    seq(|lines|, i requires 0 <= i < |lines| => parse(lines[i]))
  }

  lemma MapLinesAppend(a: seq<string>, b: seq<string>, parse: string -> Result<Expansion, LineError>)
    ensures MapLines(a + b, parse) == MapLines(a, parse) + MapLines(b, parse)
  {
    var ab, ra, rb := MapLines(a + b, parse), MapLines(a, parse), MapLines(b, parse);
    forall i | 0 <= i < |ab| ensures ab[i] == (ra + rb)[i] {
      if i < |a| {
        assert (a + b)[i] == a[i];
      } else {
        assert (a + b)[i] == b[i - |a|];
      }
    }
  }

  /** The results' expansions, concatenated in order; the first error, if any. */
  function Gather(results: seq<Result<Expansion, LineError>>): Result<Expansion, LineError> {
    if results == [] then Ok(Expansion([], []))
    else Extend(Gather(results[..|results| - 1]), results[|results| - 1])
  }

  /** The result so far followed by one more result: the first error wins. */
  function Extend(before: Result<Expansion, LineError>, next: Result<Expansion, LineError>): Result<Expansion, LineError> {
    if before.Err? then before
    else if next.Err? then next
    else Ok(Expansion(before.value.cards + next.value.cards, before.value.tokens + next.value.tokens))
  }

  /** The deck `get_local_deck` returns for these lines. */
  function LocalDeck(lines: seq<string>, server: Server): Result<Deck, LineError> {
    match Gather(LineResults(lines, server))
    case Err(e) => Err(e)
    case Ok(x) => Ok(Deck("deck", x.cards, x.tokens))
  }

  /** `get_local_deck`, after the file has been read into lines. The source
      parses all lines concurrently and then awaits them in order, stopping at
      the first error. Here the lines are parsed one after another. A Server
      answers by query and attempt number alone, so the result is the deck of
      a run in which every lookup gets the replies the oracle gives it. */
  method GetLocalDeck(lines: seq<string>, server: Server) returns (r: Result<Deck, LineError>)
    ensures r == LocalDeck(lines, server)
  {
    ghost var results := LineResults(lines, server);
    var cards := [];
    var tokens := [];
    var i := 0;
    while i < |lines|
      invariant i <= |lines|
      invariant Gather(results[..i]) == Ok(Expansion(cards, tokens))
    {
      var parsed := ParseCard(lines[i], server);
      GatherStep(results, i, parsed);
      if parsed.Err? {
        GatherErrPersists(results, i + 1);
        return Err(parsed.error);
      }
      cards := cards + parsed.value.cards;
      tokens := tokens + parsed.value.tokens;
      i := i + 1;
    }
    assert results[..i] == results;
    return Ok(Deck("deck", cards, tokens));
  }

  lemma GatherStep(results: seq<Result<Expansion, LineError>>, i: nat, next: Result<Expansion, LineError>)
    requires i < |results| && results[i] == next
    ensures Gather(results[..i + 1]) == Extend(Gather(results[..i]), next)
  {
    assert results[..i + 1][..i] == results[..i];
  }

  /** Once a prefix of the results fails, so do all of them, with the same error. */
  lemma {:induction false} GatherErrPersists(results: seq<Result<Expansion, LineError>>, i: nat)
    requires i <= |results|
    requires Gather(results[..i]).Err?
    ensures Gather(results) == Gather(results[..i])
    decreases |results| - i
  {
    if i < |results| {
      assert results[..i + 1][..i] == results[..i];
      GatherErrPersists(results, i + 1);
    } else {
      assert results[..i] == results;
    }
  }

  /** Gathering succeeds exactly when every result does. */
  lemma {:induction false} GatherAllOrNothing(results: seq<Result<Expansion, LineError>>)
    ensures Gather(results).Ok? <==> forall i :: 0 <= i < |results| ==> results[i].Ok?
  {
    if results != [] {
      var init := results[..|results| - 1];
      GatherAllOrNothing(init);
      assert forall i :: 0 <= i < |init| ==> init[i] == results[i];
    }
  }

  /** The list yields a deck exactly when every line does. */
  lemma LocalDeckAllOrNothing(lines: seq<string>, server: Server)
    ensures LocalDeck(lines, server).Ok? <==>
      forall i :: 0 <= i < |lines| ==> ParseCardSpec(lines[i], server).Ok?
  {
    GatherAllOrNothing(LineResults(lines, server));
  }

  /** A failing list reports the error of its first failing line. */
  lemma LocalDeckFirstError(lines: seq<string>, server: Server, i: nat)
    requires i < |lines| && ParseCardSpec(lines[i], server).Err?
    requires forall j :: 0 <= j < i ==> ParseCardSpec(lines[j], server).Ok?
    ensures LocalDeck(lines, server) == Err(ParseCardSpec(lines[i], server).error)
  {
    var results := LineResults(lines, server);
    assert results[..i + 1][..i] == results[..i];
    GatherAllOrNothing(results[..i]);
    GatherErrPersists(results, i + 1);
  }

  /** Gathering two runs of results one after the other concatenates their
      expansions. */
  lemma {:induction false} GatherAppend(a: seq<Result<Expansion, LineError>>, b: seq<Result<Expansion, LineError>>)
    requires Gather(a).Ok? && Gather(b).Ok?
    ensures Gather(a + b) ==
      Ok(Expansion(Gather(a).value.cards + Gather(b).value.cards, Gather(a).value.tokens + Gather(b).value.tokens))
    decreases |b|
  {
    if b == [] {
      assert a + b == a;
      assert Gather(a).value.cards + [] == Gather(a).value.cards;
      assert Gather(a).value.tokens + [] == Gather(a).value.tokens;
    } else {
      var init, last := b[..|b| - 1], b[|b| - 1];
      assert Gather(b) == Extend(Gather(init), last);
      assert Gather(init).Ok? && last.Ok?;
      GatherAppend(a, init);
      assert (a + b)[..|a + b| - 1] == a + init;
      assert (a + b)[|a + b| - 1] == last;
      assert Gather(a + b) == Extend(Gather(a + init), last);
      var ga, gi := Gather(a).value, Gather(init).value;
      assert ga.cards + gi.cards + last.value.cards == ga.cards + (gi.cards + last.value.cards);
      assert ga.tokens + gi.tokens + last.value.tokens == ga.tokens + (gi.tokens + last.value.tokens);
    }
  }

  lemma LineResultsAppend(a: seq<string>, b: seq<string>, server: Server)
    ensures LineResults(a + b, server) == LineResults(a, server) + LineResults(b, server)
  {
    MapLinesAppend(a, b, line => ParseCardSpec(line, server));
  }

  /** When the first run gathers and the second fails, gathering both reports
      the second run's error. */
  lemma {:induction false} GatherAppendErr(a: seq<Result<Expansion, LineError>>, b: seq<Result<Expansion, LineError>>)
    requires Gather(a).Ok? && Gather(b).Err?
    ensures Gather(a + b) == Gather(b)
    decreases |b|
  {
    var init, last := b[..|b| - 1], b[|b| - 1];
    assert (a + b)[..|a + b| - 1] == a + init;
    assert (a + b)[|a + b| - 1] == last;
    if Gather(init).Err? {
      GatherAppendErr(a, init);
    } else {
      GatherAppend(a, init);
    }
  }

  /** The deck of two lists read one after the other: the first list's error
      if it fails, else the second list's error if that fails, else the
      concatenation of their decks. */
  lemma LocalDeckAppend(a: seq<string>, b: seq<string>, server: Server)
    ensures LocalDeck(a + b, server) ==
      if LocalDeck(a, server).Err? then LocalDeck(a, server)
      else if LocalDeck(b, server).Err? then LocalDeck(b, server)
      else Ok(Deck("deck", LocalDeck(a, server).value.cards + LocalDeck(b, server).value.cards,
                           LocalDeck(a, server).value.tokens + LocalDeck(b, server).value.tokens))
  {
    LineResultsAppend(a, b, server);
    var ra, rb := LineResults(a, server), LineResults(b, server);
    if Gather(ra).Err? {
      assert (ra + rb)[..|ra|] == ra;
      GatherErrPersists(ra + rb, |ra|);
    } else if Gather(rb).Err? {
      GatherAppendErr(ra, rb);
    } else {
      GatherAppend(ra, rb);
    }
  }

  /** The number of cards the results contribute: the sum of the quantities of
      the lines that succeed. */
  function CardsOf(results: seq<Result<Expansion, LineError>>): nat {
    if results == [] then 0
    else
      CardsOf(results[..|results| - 1])
      + (if results[|results| - 1].Ok? then |results[|results| - 1].value.cards| else 0)
  }

  lemma {:induction false} GatherCardCount(results: seq<Result<Expansion, LineError>>)
    requires Gather(results).Ok?
    ensures |Gather(results).value.cards| == CardsOf(results)
  {
    if results != [] {
      GatherCardCount(results[..|results| - 1]);
    }
  }

  /** The number of cards of a deck list: the sum of the lines' quantities. */
  function QuantitySum(lines: seq<string>): nat {
    if lines == [] then 0
    else
      QuantitySum(lines[..|lines| - 1])
      + (match ParseLine(lines[|lines| - 1]) case Ok(fields) => fields.quantity case Err(_) => 0)
  }

  lemma {:induction false} CardsOfLines(lines: seq<string>, server: Server)
    requires forall i :: 0 <= i < |lines| ==> ParseCardSpec(lines[i], server).Ok?
    ensures CardsOf(LineResults(lines, server)) == QuantitySum(lines)
  {
    if lines != [] {
      var init, last := lines[..|lines| - 1], lines[|lines| - 1];
      var results := LineResults(lines, server);
      assert results[..|lines| - 1] == LineResults(init, server);
      assert results[|lines| - 1] == ParseCardSpec(last, server);
      LineCardCount(last, server);
      CardsOfLines(init, server);
      LineCount(ParseCardSpec(last, server), ParseLine(last));
    }
  }

  /** The two summands CardsOf and QuantitySum add for one successful line. */
  lemma LineCount(r: Result<Expansion, LineError>, fields: Result<LineFields, LineError>)
    requires r.Ok? && fields.Ok? && |r.value.cards| == fields.value.quantity
    ensures (if r.Ok? then |r.value.cards| else 0)
      == (match fields case Ok(f) => f.quantity case Err(_) => 0)
  {
  }

  /** A line that yields cards yields as many as its quantity. */
  lemma LineCardCount(line: string, server: Server)
    requires ParseCardSpec(line, server).Ok?
    ensures ParseLine(line).Ok?
    ensures |ParseCardSpec(line, server).value.cards| == ParseLine(line).value.quantity
  {
  }

  /** A deck read from a list has as many cards as the list's quantities add up to. */
  lemma LocalDeckCardCount(lines: seq<string>, server: Server)
    requires LocalDeck(lines, server).Ok?
    ensures |LocalDeck(lines, server).value.cards| == QuantitySum(lines)
  {
    LocalDeckAllOrNothing(lines, server);
    GatherCardCount(LineResults(lines, server));
    CardsOfLines(lines, server);
  }
}
