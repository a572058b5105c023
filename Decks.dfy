/** deck.rs: decks and cards, the image cache filled by `Deck::download`, and
    the placement of card images on pages computed by `Deck::pdf`.
    Distances are integer tenths of a millimetre. */
module Decks {
  import opened Wrappers

  datatype Card = Card(name: string, scryfallId: string)

  datatype Deck = Deck(name: string, cards: seq<Card>, tokens: seq<Card>)

  /** The sequence `download` and `pdf` walk: the cards, then the tokens. */
  function RenderOrder(deck: Deck): seq<Card> {
    deck.cards + deck.tokens
  }

  /** `Deck::total_cards`. */
  function TotalCards(deck: Deck): (n: nat)
    ensures n == |RenderOrder(deck)|
  {
    |deck.cards| + |deck.tokens|
  }

  /** `n` copies of `s`, one after another: what `for _ in 0..n` loops that
      push the elements of `s` each time produce. */
  function Repeat(s: seq<Card>, n: nat): (r: seq<Card>)
    ensures |r| == n * |s|
  {
    if n == 0 then [] else Repeat(s, n - 1) + s
  }

  /** Copies split at any count. */
  lemma {:induction false} RepeatAdd(s: seq<Card>, a: nat, b: nat)
    ensures Repeat(s, a + b) == Repeat(s, a) + Repeat(s, b)
  {
    if b > 0 {
      RepeatAdd(s, a, b - 1);
      assert Repeat(s, a + b) == Repeat(s, a + (b - 1)) + s;
    }
  }

  /** Copy j of `s` follows the first j copies, whole. */
  lemma RepeatBlock(s: seq<Card>, n: nat, j: nat)
    requires j < n
    ensures |Repeat(s, j)| + |s| <= |Repeat(s, n)|
    ensures Repeat(s, n)[|Repeat(s, j)|..|Repeat(s, j)| + |s|] == s
  {
    var m := n - (j + 1);
    RepeatAdd(s, j + 1, m);
    var r, before := Repeat(s, n), Repeat(s, j);
    assert Repeat(s, j + 1) == before + s;
    assert r == before + s + Repeat(s, m);
    assert r[|before|..|before| + |s|] == s;
  }

  /** n copies of one card are n times that card. */
  lemma {:induction false} RepeatOne(c: Card, n: nat)
    ensures forall k :: 0 <= k < |Repeat([c], n)| ==> Repeat([c], n)[k] == c
  {
    if n > 0 {
      RepeatOne(c, n - 1);
      assert forall k :: 0 <= k < n - 1 ==> Repeat([c], n)[k] == Repeat([c], n - 1)[k];
    }
  }

  /** n copies of one card hold that card n times and nothing else. */
  lemma {:induction false} RepeatOneMultiset(c: Card, n: nat)
    ensures multiset(Repeat([c], n)) == multiset{}[c := n]
  {
    if n > 0 {
      RepeatOneMultiset(c, n - 1);
      assert multiset(Repeat([c], n)) == multiset(Repeat([c], n - 1)) + multiset{c};
    }
  }

  const IMAGE_URL_PREFIX: string := "https://api.scryfall.com/cards/"
  const IMAGE_URL_SUFFIX: string := "/?format=image"

  /** `Card::image_url`: the Scryfall image endpoint of the card, which wraps
      its id between a fixed prefix and a fixed suffix. */
  function ImageUrl(card: Card): (url: string)
    ensures |url| == |IMAGE_URL_PREFIX| + |card.scryfallId| + |IMAGE_URL_SUFFIX|
    ensures url[..|IMAGE_URL_PREFIX|] == IMAGE_URL_PREFIX
    ensures url[|IMAGE_URL_PREFIX|..|url| - |IMAGE_URL_SUFFIX|] == card.scryfallId
    ensures url[|url| - |IMAGE_URL_SUFFIX|..] == IMAGE_URL_SUFFIX
  {
    IMAGE_URL_PREFIX + card.scryfallId + IMAGE_URL_SUFFIX
  }

  /** Two cards share an image URL exactly when they share a Scryfall id. */
  lemma ImageUrlInjective(a: Card, b: Card)
    ensures ImageUrl(a) == ImageUrl(b) <==> a.scryfallId == b.scryfallId
  {
    var ua, ub := ImageUrl(a), ImageUrl(b);
    if ua == ub {
      assert a.scryfallId == ua[|IMAGE_URL_PREFIX|..|ua| - |IMAGE_URL_SUFFIX|];
    }
  }

  // ---------------------------------------------------------------------------
  // Page layout (`Deck::pdf`)
  // ---------------------------------------------------------------------------

  const PAGE_WIDTH: int := 2100
  const PAGE_HEIGHT: int := 2970
  const CARD_WIDTH: int := 630
  const CARD_HEIGHT: int := 878
  const TOP_MARGIN: int := 150
  const CARDS_IN_ROW: nat := 3
  const ROW_WIDTH: int := CARDS_IN_ROW * CARD_WIDTH
  /** The first column's x: the row of cards is centred on the page. */
  const X_START: int := (PAGE_WIDTH - ROW_WIDTH) / 2
  /** The top row's y: one card height and the top margin below the page top. */
  const Y_START: int := PAGE_HEIGHT - CARD_HEIGHT - TOP_MARGIN

  /** Rows that fit on a page going down from Y_START; derived from the
      constants above (see RowsPerPage), not a constant of deck.rs. */
  const ROWS_PER_PAGE: nat := 3
  const CARDS_PER_PAGE: nat := ROWS_PER_PAGE * CARDS_IN_ROW

  /** ROWS_PER_PAGE is the number of rows whose y stays non-negative. */
  lemma RowsPerPage()
    ensures X_START == 105 && Y_START == 1942
    ensures Y_START - (ROWS_PER_PAGE - 1) * CARD_HEIGHT >= 0
    ensures Y_START - ROWS_PER_PAGE * CARD_HEIGHT < 0
    ensures X_START + CARDS_IN_ROW * CARD_WIDTH <= PAGE_WIDTH
    ensures X_START + (CARDS_IN_ROW + 1) * CARD_WIDTH > PAGE_WIDTH
  {
  }

  /** Where one card image is drawn. */
  datatype Placement = Placement(scryfallId: string, page: nat, x: int, y: int)

  datatype PageLayout = PageLayout(placements: seq<Placement>, pageCount: nat)

  /** The grid the layout produces: card i goes to page i / 9, to row
      (i mod 9) / 3 counted from the top, and to column i mod 3. */
  function GridPage(i: nat): nat {
    i / CARDS_PER_PAGE
  }

  function GridRow(i: nat): (row: nat)
    ensures row < ROWS_PER_PAGE
  {
    (i % CARDS_PER_PAGE) / CARDS_IN_ROW
  }

  function GridColumn(i: nat): (column: nat)
    ensures column < CARDS_IN_ROW
  {
    (i % CARDS_PER_PAGE) % CARDS_IN_ROW
  }

  /** The column is the card's index modulo the number of cards in a row. */
  lemma GridColumnIsIndexModRow(i: nat)
    ensures GridColumn(i) == i % CARDS_IN_ROW
  {
    var q, r := i / CARDS_PER_PAGE, i % CARDS_PER_PAGE;
    assert i == CARDS_IN_ROW * (ROWS_PER_PAGE * q) + r;
  }

  function GridX(i: nat): (x: int)
    ensures 0 <= x && x + CARD_WIDTH <= PAGE_WIDTH
  {
    X_START + GridColumn(i) * CARD_WIDTH
  }

  function GridY(i: nat): (y: int)
    ensures 0 <= y <= Y_START
  {
    Y_START - GridRow(i) * CARD_HEIGHT
  }

  /** Pages in a document of n cards: the first page always exists. */
  function PageCount(n: nat): (pages: nat)
    ensures pages >= 1
    ensures n > 0 ==> pages == (n + CARDS_PER_PAGE - 1) / CARDS_PER_PAGE
  {
    if n == 0 then 1 else GridPage(n - 1) + 1
  }

  /** How the grid position of card i + 1 follows from that of card i: the
      column advances, a full row moves to the next row, a full page to the
      next page. */
  lemma GridSuccessor(i: nat)
    ensures GridColumn(i + 1) == if GridColumn(i) + 1 < CARDS_IN_ROW then GridColumn(i) + 1 else 0
    ensures GridRow(i + 1) ==
      if GridColumn(i) + 1 < CARDS_IN_ROW then GridRow(i)
      else if GridRow(i) + 1 < ROWS_PER_PAGE then GridRow(i) + 1
      else 0
    ensures GridPage(i + 1) ==
      if GridColumn(i) + 1 == CARDS_IN_ROW && GridRow(i) + 1 == ROWS_PER_PAGE then GridPage(i) + 1
      else GridPage(i)
  {
    var q, r := i / CARDS_PER_PAGE, i % CARDS_PER_PAGE;
    assert i == CARDS_PER_PAGE * q + r;
    if r + 1 < CARDS_PER_PAGE {
      assert i + 1 == CARDS_PER_PAGE * q + (r + 1);
      assert (i + 1) / CARDS_PER_PAGE == q && (i + 1) % CARDS_PER_PAGE == r + 1;
    } else {
      assert i + 1 == CARDS_PER_PAGE * (q + 1);
      assert (i + 1) / CARDS_PER_PAGE == q + 1 && (i + 1) % CARDS_PER_PAGE == 0;
    }
  }

  /** The 4th card starts the second row at the x of the 1st, and the 10th
      card starts the second page at the top. */
  lemma WrapExamples()
    ensures GridX(3) == GridX(0) && GridY(3) == GridY(0) - CARD_HEIGHT && GridPage(3) == 0
    ensures GridPage(9) == 1 && GridX(9) == X_START && GridY(9) == Y_START
    ensures GridPage(8) == 0 && PageCount(9) == 1 && PageCount(10) == 2
  {
  }

  /** The cursor of the placement loop before card i: at the start of the
      first page, or just right of card i - 1. */
  ghost predicate CursorBefore(i: nat, x: int, y: int, page: nat) {
    if i == 0 then x == X_START && y == Y_START && page == 0
    else page == GridPage(i - 1) && x == GridX(i - 1) + CARD_WIDTH && y == GridY(i - 1)
  }

  /** The two wrap checks of the loop move the cursor onto card i's grid slot. */
  lemma CursorWraps(i: nat, x: int, y: int, page: nat)
    requires CursorBefore(i, x, y, page)
    ensures x + CARD_WIDTH > PAGE_WIDTH ==>
      if y - CARD_HEIGHT < 0 then page + 1 == GridPage(i) && X_START == GridX(i) && Y_START == GridY(i)
      else page == GridPage(i) && X_START == GridX(i) && y - CARD_HEIGHT == GridY(i)
    ensures x + CARD_WIDTH <= PAGE_WIDTH ==>
      y >= 0 && page == GridPage(i) && x == GridX(i) && y == GridY(i)
  {
    if i > 0 {
      GridSuccessor(i - 1);
    }
  }

  /** The placement loop of `Deck::pdf`. Each card's image must already be in
      the cards directory (the source unwraps the opened file). */
  method Pdf(deck: Deck, directory: CardsDirectory) returns (layout: PageLayout)
    requires forall c :: c in RenderOrder(deck) ==> c.scryfallId in directory.files
    ensures |layout.placements| == |RenderOrder(deck)|
    ensures forall i :: 0 <= i < |layout.placements| ==>
      layout.placements[i] == Placement(RenderOrder(deck)[i].scryfallId, GridPage(i), GridX(i), GridY(i))
    ensures forall i :: 0 <= i < |layout.placements| ==>
      && 0 <= layout.placements[i].x && layout.placements[i].x + CARD_WIDTH <= PAGE_WIDTH
      && 0 <= layout.placements[i].y <= Y_START
      && layout.placements[i].page < layout.pageCount
    ensures layout.pageCount == PageCount(|RenderOrder(deck)|)
  {
    var order := RenderOrder(deck);
    var x, y, page := X_START, Y_START, 0;
    var placements := [];
    var i := 0;
    while i < |order|
      invariant 0 <= i <= |order| && |placements| == i
      invariant forall k :: 0 <= k < i ==>
        placements[k] == Placement(order[k].scryfallId, GridPage(k), GridX(k), GridY(k))
      invariant CursorBefore(i, x, y, page)
    {
      var image := directory.files[order[i].scryfallId];
      CursorWraps(i, x, y, page);
      if x + CARD_WIDTH > PAGE_WIDTH {
        x := X_START;
        y := y - CARD_HEIGHT;
      }
      if y < 0 {
        page := page + 1;
        y := Y_START;
      }
      placements := placements + [Placement(order[i].scryfallId, page, x, y)];
      x := x + CARD_WIDTH;
      i := i + 1;
    }
    layout := PageLayout(placements, page + 1);
  }

  // ---------------------------------------------------------------------------
  // Image cache (`Deck::download`)
  // ---------------------------------------------------------------------------

  newtype Byte = b: int | 0 <= b < 256

  type Bytes = seq<Byte>

  /** The state a download leaves behind: the cached files, the URLs requested
      in order, and whether it stopped at a failed request. */
  datatype DownloadRun = DownloadRun(files: map<string, Bytes>, requested: seq<string>, outcome: Outcome<string>)

  /** `download` from the given point of the walk on: a card whose file exists is
      skipped; otherwise its image URL is requested and, unless the request
      fails, the response body becomes its file. `network` answers each URL
      with the body, or None when sending the request fails. */
  function DownloadFrom(order: seq<Card>, files: map<string, Bytes>, network: string -> Option<Bytes>): DownloadRun
    decreases |order|
  {
    if order == [] then DownloadRun(files, [], Pass)
    else
      var id := order[0].scryfallId;
      if id in files then DownloadFrom(order[1..], files, network)
      else
        var url := ImageUrl(order[0]);
        match network(url)
        case None => DownloadRun(files, [url], Fail(url))
        case Some(body) =>
          Continued([url], DownloadFrom(order[1..], files[id := body], network))
  }

  /** After a download that did not fail, every card of the walk has its file. */
  lemma {:induction false} DownloadCompletes(order: seq<Card>, files: map<string, Bytes>, network: string -> Option<Bytes>)
    ensures var run := DownloadFrom(order, files, network);
      run.outcome.Pass? ==> forall c :: c in order ==> c.scryfallId in run.files
    decreases |order|
  {
    if order != [] {
      var id := order[0].scryfallId;
      var rest := order[1..];
      assert forall c :: c in order ==> c == order[0] || c in rest;
      if id in files {
        DownloadCompletes(rest, files, network);
        DownloadKeepsCached(rest, files, network);
      } else if network(ImageUrl(order[0])).Some? {
        var files' := files[id := network(ImageUrl(order[0])).value];
        DownloadCompletes(rest, files', network);
        DownloadKeepsCached(rest, files', network);
      }
    }
  }

  /** A file that already exists is never rewritten; every new file holds the
      body the network returned for the image URL of a card of the walk. */
  lemma {:induction false} DownloadKeepsCached(order: seq<Card>, files: map<string, Bytes>, network: string -> Option<Bytes>)
    ensures var run := DownloadFrom(order, files, network);
      && (forall id :: id in files ==> id in run.files && run.files[id] == files[id])
      && (forall id :: id in run.files && id !in files ==>
            exists k :: 0 <= k < |order| && order[k].scryfallId == id && network(ImageUrl(order[k])) == Some(run.files[id]))
    decreases |order|
  {
    if order != [] {
      var run := DownloadFrom(order, files, network);
      var id := order[0].scryfallId;
      var rest := order[1..];
      var url := ImageUrl(order[0]);
      if id in files || network(url).Some? {
        var files' := if id in files then files else files[id := network(url).value];
        DownloadKeepsCached(rest, files', network);
        assert run.files == DownloadFrom(rest, files', network).files;
        forall id' | id' in run.files && id' !in files
          ensures exists k :: 0 <= k < |order| && order[k].scryfallId == id' && network(ImageUrl(order[k])) == Some(run.files[id'])
        {
          if id' == id {
            assert order[0].scryfallId == id';
          } else {
            var k :| 0 <= k < |rest| && rest[k].scryfallId == id' && network(ImageUrl(rest[k])) == Some(run.files[id']);
            assert order[k + 1] == rest[k];
          }
        }
      }
    }
  }

  /** Every URL in `requested` is the image URL of a card of `order` whose file
      is not in `files`. */
  ghost predicate RequestsMissing(order: seq<Card>, files: map<string, Bytes>, requested: seq<string>) {
    forall k :: 0 <= k < |requested| ==> MissingCardUrl(order, files, requested[k])
  }

  ghost predicate MissingCardUrl(order: seq<Card>, files: map<string, Bytes>, url: string) {
    exists j :: 0 <= j < |order| && url == ImageUrl(order[j]) && order[j].scryfallId !in files
  }

  ghost predicate NoRepeats(s: seq<string>) {
    forall k, l :: 0 <= k < l < |s| ==> s[k] != s[l]
  }

  /** Only cards whose file was missing when the walk began are requested. */
  lemma {:induction false} DownloadRequestsOnlyMissing(order: seq<Card>, files: map<string, Bytes>, network: string -> Option<Bytes>)
    ensures RequestsMissing(order, files, DownloadFrom(order, files, network).requested)
    decreases |order|
  {
    if order != [] {
      var requested := DownloadFrom(order, files, network).requested;
      var id := order[0].scryfallId;
      var rest := order[1..];
      var url := ImageUrl(order[0]);
      if id in files || network(url).Some? {
        var files' := if id in files then files else files[id := network(url).value];
        DownloadRequestsOnlyMissing(rest, files', network);
        var later := DownloadFrom(rest, files', network).requested;
        assert requested == if id in files then later else [url] + later;
        forall k | 0 <= k < |later| ensures MissingCardUrl(order, files, later[k]) {
          assert MissingCardUrl(rest, files', later[k]);
          var j :| 0 <= j < |rest| && later[k] == ImageUrl(rest[j]) && rest[j].scryfallId !in files';
          assert order[j + 1] == rest[j];
        }
        if id !in files {
          assert MissingCardUrl(order, files, url);
          assert forall k :: 1 <= k < |requested| ==> requested[k] == later[k - 1];
        }
      }
    }
  }

  /** No URL is requested twice, however often an id repeats in the walk. */
  lemma {:induction false} DownloadRequestsOnce(order: seq<Card>, files: map<string, Bytes>, network: string -> Option<Bytes>)
    ensures NoRepeats(DownloadFrom(order, files, network).requested)
    decreases |order|
  {
    if order != [] {
      var id := order[0].scryfallId;
      var rest := order[1..];
      var url := ImageUrl(order[0]);
      if id in files {
        DownloadRequestsOnce(rest, files, network);
      } else if network(url).Some? {
        var files' := files[id := network(url).value];
        DownloadRequestsOnce(rest, files', network);
        DownloadRequestsOnlyMissing(rest, files', network);
        var later := DownloadFrom(rest, files', network).requested;
        forall k | 0 <= k < |later| ensures later[k] != url {
          assert MissingCardUrl(rest, files', later[k]);
          var j :| 0 <= j < |rest| && later[k] == ImageUrl(rest[j]) && rest[j].scryfallId !in files';
          ImageUrlInjective(rest[j], order[0]);
        }
        NoRepeatsCons(url, later);
      }
    }
  }

  /** A download that does not fail requests the image of every card whose file
      was missing when the walk began. */
  lemma {:induction false} DownloadRequestsAllMissing(order: seq<Card>, files: map<string, Bytes>, network: string -> Option<Bytes>)
    ensures var run := DownloadFrom(order, files, network);
      run.outcome.Pass? ==> forall c :: c in order && c.scryfallId !in files ==> ImageUrl(c) in run.requested
    decreases |order|
  {
    if order != [] {
      var id := order[0].scryfallId;
      var rest := order[1..];
      var url := ImageUrl(order[0]);
      assert forall c :: c in order ==> c == order[0] || c in rest;
      if id in files {
        DownloadRequestsAllMissing(rest, files, network);
      } else if network(url).Some? {
        var files' := files[id := network(url).value];
        DownloadRequestsAllMissing(rest, files', network);
        var run := DownloadFrom(order, files, network);
        var later := DownloadFrom(rest, files', network);
        assert run.requested == [url] + later.requested;
        forall c | c in order && c.scryfallId !in files && run.outcome.Pass?
          ensures ImageUrl(c) in run.requested
        {
          if c.scryfallId == id {
            ImageUrlInjective(c, order[0]);
          } else {
            assert c in rest && c.scryfallId !in files';
          }
        }
      }
    }
  }

  lemma NoRepeatsCons(x: string, s: seq<string>)
    requires NoRepeats(s)
    requires forall k :: 0 <= k < |s| ==> s[k] != x
    ensures NoRepeats([x] + s)
  {
    assert forall k :: 1 <= k < |[x] + s| ==> ([x] + s)[k] == s[k - 1];
  }

  /** One step of the walk, at position i. */
  lemma DownloadStep(order: seq<Card>, i: nat, files: map<string, Bytes>, network: string -> Option<Bytes>)
    requires i < |order|
    ensures var id, url := order[i].scryfallId, ImageUrl(order[i]);
      DownloadFrom(order[i..], files, network) ==
        if id in files then DownloadFrom(order[i + 1..], files, network)
        else if network(url).None? then DownloadRun(files, [url], Fail(url))
        else Continued([url], DownloadFrom(order[i + 1..], files[id := network(url).value], network))
  {
    assert order[i..][0] == order[i] && order[i..][1..] == order[i + 1..];
  }

  /** `run`, preceded by the requests already issued. */
  function Continued(issued: seq<string>, run: DownloadRun): DownloadRun {
    DownloadRun(run.files, issued + run.requested, run.outcome)
  }

  /** A failed download stops at the request that failed, which is the last one issued. */
  lemma {:induction false} DownloadStopsAtFailure(order: seq<Card>, files: map<string, Bytes>, network: string -> Option<Bytes>)
    ensures var run := DownloadFrom(order, files, network);
      run.outcome.Fail? ==>
        && |run.requested| > 0
        && run.requested[|run.requested| - 1] == run.outcome.error
        && network(run.outcome.error) == None
    decreases |order|
  {
    if order != [] {
      var id := order[0].scryfallId;
      var url := ImageUrl(order[0]);
      if id in files {
        DownloadStopsAtFailure(order[1..], files, network);
      } else if network(url).Some? {
        DownloadStopsAtFailure(order[1..], files[id := network(url).value], network);
      }
    }
  }

  /** With every file present, a download requests nothing and changes nothing. */
  lemma {:induction false} DownloadAllCached(order: seq<Card>, files: map<string, Bytes>, network: string -> Option<Bytes>)
    requires forall c :: c in order ==> c.scryfallId in files
    ensures DownloadFrom(order, files, network) == DownloadRun(files, [], Pass)
    decreases |order|
  {
    if order != [] {
      assert order[0] in order;
      assert forall c :: c in order[1..] ==> c in order;
      DownloadAllCached(order[1..], files, network);
    }
  }

  /** Downloading again after a download that did not fail issues no request. */
  lemma DownloadIdempotent(order: seq<Card>, files: map<string, Bytes>, network: string -> Option<Bytes>)
    ensures var run := DownloadFrom(order, files, network);
      run.outcome.Pass? ==> DownloadFrom(order, run.files, network) == DownloadRun(run.files, [], Pass)
  {
    var run := DownloadFrom(order, files, network);
    if run.outcome.Pass? {
      DownloadCompletes(order, files, network);
      DownloadAllCached(order, run.files, network);
    }
  }

  /** The `cards/` directory: the image of a card is stored under its Scryfall id
      (the file `cards/{id}.jpg`). */
  class CardsDirectory {
    var files: map<string, Bytes>

    constructor (initial: map<string, Bytes>)
      ensures files == initial
    {
      files := initial;
    }

    /** `Deck::download`: walks the deck's cards and then its tokens, skips a
        card whose file exists, and otherwise requests its image and writes
        the response body to its file. Returns the URLs it requested. */
    method Download(deck: Deck, network: string -> Option<Bytes>) returns (outcome: Outcome<string>, requested: seq<string>)
      modifies this
      ensures DownloadRun(files, requested, outcome) == DownloadFrom(RenderOrder(deck), old(files), network)
      ensures outcome.Pass? ==> forall c :: c in RenderOrder(deck) ==> c.scryfallId in files
      ensures forall id :: id in old(files) ==> id in files && files[id] == old(files)[id]
      ensures RequestsMissing(RenderOrder(deck), old(files), requested)
      ensures NoRepeats(requested)
      ensures outcome.Pass? ==>
        forall c :: c in RenderOrder(deck) && c.scryfallId !in old(files) ==> ImageUrl(c) in requested
    {
      var order := RenderOrder(deck);
      requested := [];
      var i := 0;
      while i < |order|
        invariant 0 <= i <= |order|
        invariant Continued(requested, DownloadFrom(order[i..], files, network)) == DownloadFrom(order, old(files), network)
      {
        var card := order[i];
        DownloadStep(order, i, files, network);
        if card.scryfallId !in files {
          var url := ImageUrl(card);
          var response := network(url);
          if response.None? {
            requested := requested + [url];
            outcome := Fail(url);
            DownloadKeepsCached(order, old(files), network);
            DownloadRequestsOnlyMissing(order, old(files), network);
            DownloadRequestsOnce(order, old(files), network);
            return;
          }
          assert Continued(requested + [url], DownloadFrom(order[i + 1..], files[card.scryfallId := response.value], network))
              == Continued(requested, Continued([url], DownloadFrom(order[i + 1..], files[card.scryfallId := response.value], network)));
          requested := requested + [url];
          files := files[card.scryfallId := response.value];
        }
        i := i + 1;
      }
      outcome := Pass;
      DownloadRequestsAllMissing(order, old(files), network);
      DownloadCompletes(order, old(files), network);
      DownloadKeepsCached(order, old(files), network);
      DownloadRequestsOnlyMissing(order, old(files), network);
      DownloadRequestsOnce(order, old(files), network);
    }
  }

  /** `Deck::generate`: download every image, then lay the cards out. A failed
      request aborts the run before any page is laid out. */
  method Generate(deck: Deck, directory: CardsDirectory, network: string -> Option<Bytes>)
    returns (result: Result<PageLayout, string>)
    modifies directory
    ensures directory.files == DownloadFrom(RenderOrder(deck), old(directory.files), network).files
    ensures result.Err? <==> DownloadFrom(RenderOrder(deck), old(directory.files), network).outcome.Fail?
    ensures result.Err? ==> result.error == DownloadFrom(RenderOrder(deck), old(directory.files), network).outcome.error
    ensures result.Ok? ==>
      && |result.value.placements| == TotalCards(deck)
      && (forall i :: 0 <= i < TotalCards(deck) ==>
            result.value.placements[i] == Placement(RenderOrder(deck)[i].scryfallId, GridPage(i), GridX(i), GridY(i)))
      && result.value.pageCount == PageCount(TotalCards(deck))
  {
    var outcome, requested := directory.Download(deck, network);
    if outcome.Fail? {
      return Err(outcome.error);
    }
    var layout := Pdf(deck, directory);
    result := Ok(layout);
  }
}
