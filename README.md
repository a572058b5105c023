# tiffer core in Dafny

tiffer is a command-line tool. It turns a Magic: The Gathering deck into a
printable PDF of card images. A deck comes from one of two sources:

- a local text list, one line per card such as `1 Whiptongue Hydra (NEC) 134`;
  each card is looked up on Scryfall;
- a Moxfield deck URL, whose deck is fetched from Moxfield's API.

Every card image the deck needs is then downloaded into a `cards/` directory,
unless it is already there. Finally the images are placed on A4 pages, three
per row and three rows per page.

This project models that core and proves properties of the model.

- `Wrappers.dfy`: the `Option`, `Result` and `Outcome` values.
- `Text.dfy`: the Rust string operations the list parser relies on, with
  their laws.
  - `split_whitespace` and `join`; the tokens are the maximal runs of
    non-whitespace, so any runs of whitespace between words split back to
    the words, and splitting undoes a join with single spaces.
  - `trim_matches`; it keeps interior characters exactly and is idempotent.
  - `parse::<u32>` / `parse::<u64>`; parsing undoes printing in decimal,
    accepts a leading `+` and leading zeros, and rejects a value the type
    cannot hold.
- `Decks.dfy`: `deck.rs`.
  - **Cards and decks.** The render order (cards, then tokens); the image URL
    of a card; `total_cards`.
  - **Layout.** The loop of `pdf`, as a method proved equal to a closed-form
    grid. Card i goes to page i/9, row (i mod 9)/3 and column i mod 3.
  - **Download.** `download`, as a `CardsDirectory` class whose file map the
    method updates. It is proved against a recursive specification, with
    lemmas:
    - a successful run leaves every card cached;
    - cached files are never overwritten;
    - only missing images are requested, and none twice, even when an id
      repeats;
    - a failed request stops the run;
    - a rerun after success requests nothing.
  - **Generate.** `generate`: download everything, then lay out the pages.
- `Local.dfy`: `local.rs`.
  - **Lines.** The tokenisation of one line, with a round-trip lemma.
  - **Lookup.** The Scryfall lookup with up to five attempts. Each 429 reply is
    followed by a sleep of its `Retry-After` seconds, or one second. A lemma
    characterises exactly when the lookup stops and with what.
  - **Expansion.** The quantity loop that produces copies of the card and of
    its tokens.
  - **Whole list.** Every line must succeed and the first failing line's error
    is reported. The card count is the sum of the quantities.
- `Remote.dfy`: `remote.rs`.
  - **URL.** Only the host `moxfield.com` is accepted. The deck id is the
    second path segment.
  - **Deck.** The commander, then the mainboard copies, then the tokens. The
    mainboard is a hash map, so its copies are described as a multiset: each
    entry contributes `quantity` copies of its card.

Conventions:
- Distances are integers in tenths of a millimetre.
  - Page: 2100 × 2970. Card: 630 × 878. Top margin: 150.
  - The first card sits at x = 105, y = 1942.
  - The source computes in `f32` millimetres. Every comparison it makes is at
    least 3 mm away from its threshold, so rounding cannot change a branch.
- The network, the Scryfall service and the Moxfield API are parameters.
  - Each is a function from the request (and, for Scryfall, the attempt
    number) to the response.
  - Sleeping is recorded as a list of durations.
- A panic that the source would raise becomes an explicit `Panicked` error.
  - In `local.rs` this matches what the caller sees: the panicking line runs in
    a spawned task, and awaiting that task yields an error.
  - In `remote.rs` the program would abort.

## Model

| member | source | states |
|---|---|---|
| Decks.RenderOrder | src/deck.rs:40 | the walk order of download and layout: the cards, then the tokens; its properties are stated by TotalCards, Pdf and the download lemmas |
| Decks.TotalCards | src/deck.rs:20-22 | the count is the length of the render order, cards then tokens |
| Decks.ImageUrlInjective | src/deck.rs:147-152 | two cards have the same image URL exactly when they have the same Scryfall id |
| Decks.ImageUrl | src/deck.rs:147-152 | the URL is the Scryfall cards prefix, the card's id, then `/?format=image` (length and all three parts) |
| Decks.RowsPerPage | src/deck.rs:74-79 | the start point is (105, 1942); three rows fit above y = 0 and a fourth does not; three cards fit across the page and a fourth does not |
| Decks.GridX | src/deck.rs:107-110 | every card's x keeps the card inside the page width |
| Decks.GridY | src/deck.rs:112-116 | every card's y is between 0 and the top row's y |
| Decks.GridColumnIsIndexModRow | src/deck.rs:98-131 | the column of card i is i mod 3 |
| Decks.GridSuccessor | src/deck.rs:107-116 | from one card to the next the column advances, a full row moves down a row, and a full page starts a new page at the top |
| Decks.CursorWraps | src/deck.rs:107-116 | the two wrap checks move the cursor left by the previous card exactly onto the next card's grid slot |
| Decks.PageCount | src/deck.rs:112-116 | a document has at least one page, and ceil(n/9) pages for n > 0 cards |
| Decks.WrapExamples | src/deck.rs:107-116 | the 4th card starts row two under the 1st card; the 10th card starts page two at the top; 9 cards use 1 page and 10 cards use 2 |
| Decks.Pdf | src/deck.rs:98-131 | placement i is card i of the render order at its grid page, x and y; every placement lies on the page and on an existing page; the page count is PageCount(n) |
| Decks.DownloadFrom | src/deck.rs:40-50 | the download walk from a point on: skip a cached card, else request its image and store the body, stopping at a failed request; its properties are stated by DownloadCompletes, DownloadKeepsCached, DownloadRequestsOnlyMissing, DownloadRequestsAllMissing, DownloadRequestsOnce, DownloadStopsAtFailure, DownloadAllCached and DownloadIdempotent |
| Decks.DownloadCompletes | src/deck.rs:40-52 | after a download that does not fail, every card of the deck has its file |
| Decks.DownloadKeepsCached | src/deck.rs:41-44 | files that existed are kept unchanged; every new file is the body the network returned for the image URL of a card of the deck |
| Decks.DownloadRequestsOnlyMissing | src/deck.rs:40-47 | every requested URL is the image URL of a card whose file was missing at the start |
| Decks.DownloadRequestsOnce | src/deck.rs:40-49 | no URL is requested twice, even when a card occurs several times |
| Decks.DownloadRequestsAllMissing | src/deck.rs:40-47 | a download that does not fail requests the image URL of every card whose file was missing at the start |
| Decks.DownloadStopsAtFailure | src/deck.rs:47 | a failed request ends the download with that URL as the error and as the last request |
| Decks.DownloadAllCached | src/deck.rs:41-44 | when every file already exists, nothing is requested and nothing changes |
| Decks.DownloadIdempotent | src/deck.rs:40-52 | running the download again after a successful one requests nothing |
| Decks.CardsDirectory.constructor | src/deck.rs:25 | the directory starts with the given files |
| Decks.CardsDirectory.Download | src/deck.rs:24-53 | the loop performs exactly the specified walk; success means all cards are cached and every missing image was requested; old files are kept; only missing images are requested, each once |
| Decks.Generate | src/deck.rs:55-69 | the files after the call are those of the download; the result is an error exactly when a request failed, and the error is the failed URL; otherwise placement i is card i of the render order at its grid page, x and y, and the page count is PageCount(n) |
| Decks.Repeat | src/local.rs:82-101 | n copies of a sequence have n times its length; their shape is stated by RepeatAdd, RepeatBlock, RepeatOne and RepeatOneMultiset |
| Decks.RepeatAdd | src/local.rs:82-101 | n copies followed by m copies are n + m copies |
| Decks.RepeatBlock | src/local.rs:82-101 | copy j of the sequence follows the first j copies, whole |
| Decks.RepeatOne | src/local.rs:82-101 | n copies of one card are that card at every position |
| Decks.RepeatOneMultiset | src/remote.rs:73-80 | n copies of one card hold that card n times and nothing else |
| Text.SplitOn | src/local.rs:64 | every piece is a non-empty run without separators; SplitAtSeparator, SplitWord and SplitSeparators determine it on every string, SplitKeepsNonSeparators states what it keeps |
| Text.SplitSkipsLeading | src/local.rs:64 | separators before the first word do not change the tokens |
| Text.SplitWord | src/local.rs:64 | a string without separators is a single token |
| Text.SplitSeparators | src/local.rs:64 | a string of separators alone has no tokens |
| Text.SplitAtSeparator | src/local.rs:64 | a separator anywhere cuts the string into two parts whose tokens, concatenated, are the tokens of the whole: tokens never span a separator, and adjacent separators add no empty tokens |
| Text.SplitInterleave | src/local.rs:64 | words separated by non-empty runs of separators of any length, with any separators before and after, split back to exactly the words |
| Text.Join | src/local.rs:66 | `[&str]::join`, the parts with the separator between neighbours; SplitJoin and SplitWhitespaceJoin state that splitting undoes it |
| Text.SplitWhitespace | src/local.rs:64 | every token is non-empty and contains no whitespace; the SplitOn laws fix the tokens as the maximal non-whitespace runs |
| Text.SplitKeepsNonSeparators | src/local.rs:64 | the tokens, concatenated, are the non-whitespace characters of the line in order |
| Text.SplitJoin | src/local.rs:64-66 | splitting words joined by one separator character gives the words back |
| Text.SplitWhitespaceJoin | src/local.rs:64-66 | `split_whitespace` undoes a join with single spaces |
| Text.ParseUnsigned | src/local.rs:65 | a parsed value is below the type's limit (2^32 for `u32`); the empty string, a lone `+` and a string with any character other than a digit (a leading `+` aside) are rejected; PlusSign and ParseLeadingZero state that a `+` and leading zeros are accepted |
| Text.LeadingZero | src/local.rs:65 | a leading zero keeps a digit string all digits and does not change its value |
| Text.PlusSign | src/local.rs:65 | a `+` before a non-empty digit string parses to the same result as the digits alone |
| Text.ParseLeadingZero | src/local.rs:65 | a `0` before a non-empty digit string parses to the same result, so `007` gives 7 |
| Text.ParseDecimal | src/local.rs:65 | the decimal form of n parses back to n when n is below the type's limit, and is rejected as an overflow otherwise |
| Text.DecimalValue | src/local.rs:65 | the digits of the decimal form of n have value n |
| Text.TrimMatches | src/local.rs:67 | the trimmed set code is no longer than the token, and neither starts nor ends with a trimmed character |
| Text.TrimSurrounded | src/local.rs:67 | trimming removes exactly the matching characters at both ends and keeps the middle, interior characters included |
| Text.TrimIdempotent | src/local.rs:67 | trimming twice is trimming once |
| Local.ParseLine | src/local.rs:63-68 | a line that parses has a quantity below 2^32, at least three tokens, an alphabetic-bounded set code and a whitespace-free collector number; a line with tokens fails with InvalidQuantity exactly when its first token is not a `u32`; a blank line panics at the first index; a line of three or more tokens whose first token parses as a `u32` (`01` and `+2` included) yields a card with that quantity |
| Local.ParseLineBadQuantity | src/local.rs:64-65 | a line whose first token is not a `u32` fails with InvalidQuantity, whatever follows and however the tokens are spaced |
| Local.ParseLineOverflow | src/local.rs:64-65 | a quantity of 2^32 or more, written in decimal, makes the line fail with InvalidQuantity, however the tokens are spaced |
| Local.ParseLineOfWords | src/local.rs:63-68 | a line whose tokens are any quantity token that parses as a `u32` (plain, with a `+` or with leading zeros), the name words, a set token and a collector number parses to that quantity, the name words joined by single spaces, the trimmed set token and the collector number |
| Local.ParseLineOfFields | src/local.rs:63-68 | a line written as quantity, name words, set token and collector number, separated by any runs of whitespace and with any whitespace around, parses back to those fields, the name's words joined by single spaces |
| Local.ExampleSetCode | src/local.rs:67 | the set token `(NEC)` of the documented example line trims to the set code `NEC` |
| Local.ExampleJoin | src/local.rs:62-64 | the documented example line `1 Whiptongue Hydra (NEC) 134` consists of the tokens `1`, `Whiptongue`, `Hydra`, `(NEC)`, `134` separated by single spaces |
| Local.ExampleName | src/local.rs:66 | the name words of the documented example join to `Whiptongue Hydra` |
| Local.ExampleWords | src/local.rs:64 | the five tokens of the documented example contain no whitespace, so splitting keeps each one whole |
| Local.ExampleLine | src/local.rs:62-68 | the documented example line parses to quantity 1, name `Whiptongue Hydra`, set `NEC` and collector number `134` |
| Local.ShortLineFails | src/local.rs:64-68 | a line of fewer than three tokens never yields a card; a blank line, and a line with a valid quantity, panic |
| Local.RetryFrom | src/local.rs:126-167 | the retry loop from a given attempt on; its behaviour is stated by RetrySleeps, RetryStops, RetryCharacterisation, RetryBounds, AlwaysRateLimited and FirstAnswerFinal |
| Local.Backoff | src/local.rs:144-159 | the wait after a 429; BackoffValues states its values |
| Local.Answer | src/local.rs:136-143 | how a reply other than a 429 ends the lookup: send error, undecodable body, success or bad status (also src/local.rs:160-162); AnswerIsNotExhausted and RetryCharacterisation state its role |
| Local.RetrySleeps | src/local.rs:126-165 | every sleep follows a 429 reply and lasts that reply's backoff; at most five attempts |
| Local.RetryStops | src/local.rs:126-167 | the lookup ends at the first reply that is not a 429, with that reply's answer, or gives up after five 429s |
| Local.RetryCharacterisation | src/local.rs:126-167 | the two facts above, and the lookup gives up (RetriesExhausted) exactly when all five attempts were answered 429 |
| Local.RetryBounds | src/local.rs:111-167 | a lookup sends between one and five requests and sleeps at most once per request |
| Local.AlwaysRateLimited | src/local.rs:126-167 | a service that always answers 429 leads to RetriesExhausted after five requests and five sleeps |
| Local.FirstAnswerFinal | src/local.rs:139-162 | a first reply other than 429 ends the lookup at once, without sleeping |
| Local.BackoffValues | src/local.rs:146-159 | a 429's wait is its Retry-After value when that is a decimal `u64`, and one second when the header is malformed or absent |
| Local.AnswerIsNotExhausted | src/local.rs:137-162 | a single reply never reports exhausted retries |
| Local.GetCardDetails | src/local.rs:111-167 | the loop's result, request count and sleeps are exactly those of the retry specification |
| Local.TokensOf | src/local.rs:88-97 | a card has no more tokens than related parts; TokensOfOne and TokensOfAppend fix the tokens as the "token" parts, each once, in order |
| Local.TokensOfOne | src/local.rs:88-97 | a single related part yields its card when its component is "token", and nothing otherwise |
| Local.TokensOfAppend | src/local.rs:88-97 | the tokens of two runs of parts, one after the other, are the first run's tokens followed by the second's |
| Local.TokensOfMembers | src/local.rs:88-97 | a card is among the tokens exactly when some related part with component "token" has its name and id |
| Local.ExpandDetails | src/local.rs:80-103 | the cards are `quantity` copies of the looked-up card; the tokens are `quantity` copies of its token parts |
| Local.ExpansionShape | src/local.rs:80-103 | the line yields exactly `quantity` cards, all the looked-up card, and each copy's tokens sit in one block after the tokens of the copies before it |
| Local.ParseCardSpec | src/local.rs:63-104 | one line's result: its parse error, its lookup error, or the expansion of the looked-up card; ParseCard, ParseCardCopies, ExpansionShape and LineCardCount state its properties |
| Local.ParseCard | src/local.rs:63-104 | the method's result is that of the specification: a parse error, a lookup error, or the expansion |
| Local.ParseCardCopies | src/local.rs:80-101 | a line that succeeds holds the looked-up card exactly `quantity` times |
| Local.MapLinesAppend | src/local.rs:23-29 | the results of two lists of lines are the results of each, one after the other |
| Local.LineResultsAppend | src/local.rs:23-29 | the same, for the lines' parse results |
| Local.Gather | src/local.rs:35-39 | the in-order await loop's result: the first error, or all expansions concatenated; GatherErrPersists, GatherAllOrNothing, GatherAppend, GatherAppendErr and GatherCardCount state its properties |
| Local.LocalDeck | src/local.rs:32-45 | the deck of a list, named "deck"; LocalDeckAllOrNothing, LocalDeckFirstError, LocalDeckAppend and LocalDeckCardCount state its properties |
| Local.GetLocalDeck | src/local.rs:23-45 | one task per line, awaited in line order: the deck is the one the whole-list specification gives, named "deck", or the error of the first failing line |
| Local.GatherErrPersists | src/local.rs:35-39 | once a line fails, later lines do not change the result |
| Local.GatherAllOrNothing | src/local.rs:35-39 | gathering succeeds exactly when every result succeeds |
| Local.LocalDeckAllOrNothing | src/local.rs:32-45 | a list yields a deck exactly when every line succeeds |
| Local.LocalDeckFirstError | src/local.rs:35-39 | a failing list reports the error of its first failing line |
| Local.GatherAppend | src/local.rs:35-39 | gathering two runs of results concatenates their cards and their tokens |
| Local.GatherAppendErr | src/local.rs:35-39 | when the first run of results succeeds and the second fails, gathering both reports the second run's error |
| Local.LocalDeckAppend | src/local.rs:32-45 | the deck of two lists read one after the other is the first list's error if it fails, else the second's error if it fails, else the two decks concatenated |
| Local.GatherCardCount | src/local.rs:35-39 | the gathered cards number the sum of the lines' card counts |
| Local.CardsOfLines | src/local.rs:65-101 | each succeeding line contributes its quantity to that count |
| Local.LineCardCount | src/local.rs:80-101 | a line that yields cards yields exactly `quantity` of them |
| Local.LocalDeckCardCount | src/local.rs:32-45 | a deck read from a list has as many cards as the quantities add up to |
| Remote.ParseUrl | src/remote.rs:30-35 | `parse_url`, the website of a URL decided by its host; ParseUrlHost states which hosts are accepted |
| Remote.ParseUrlHost | src/remote.rs:30-35 | a URL is supported exactly when its host is `moxfield.com`, whatever its path (`www.moxfield.com` is not); otherwise the error is UnsupportedWebsite |
| Remote.DeckApiUrl | src/remote.rs:58-59 | the API URL exists exactly when the URL has a second path segment, and is then the API base, a slash and that segment; otherwise the source panics |
| Remote.DeckApiUrlInjective | src/remote.rs:58-59 | two deck URLs give the same API URL exactly when their deck ids agree |
| Remote.DeckApiUrlOfDeckPage | src/remote.rs:58-59 | for a `/decks/<id>` path the API URL ends in `<id>` |
| Remote.CopiesRemove | src/remote.rs:73-80 | the copies do not depend on the order in which entries are taken |
| Remote.TotalQuantityRemove | src/remote.rs:73-80 | the same for the quantities' sum |
| Remote.CopiesSize | src/remote.rs:73-80 | there are as many copies as the quantities add up to |
| Remote.CopiesMembers | src/remote.rs:73-80 | a card is among the copies exactly when some entry of positive quantity is that card |
| Remote.MoxfieldDeckSize | src/remote.rs:67-94 | a Moxfield deck has 1 + the quantities' sum cards, and that plus the number of listed tokens in total |
| Remote.MainboardCards | src/remote.rs:73-80 | the mainboard loop yields exactly the entries' copies, as a multiset, whatever the map's iteration order |
| Remote.TokenCards | src/remote.rs:82-88 | token i of the deck is listed token i, and there are no others |
| Remote.GetMoxfieldDeck | src/remote.rs:37-95 | a URL without a second segment panics; a failed fetch is FetchFailed; otherwise the deck has the response's name, the commander first, then the mainboard copies, then the tokens in order |
| Remote.GetRemoteDeck | src/remote.rs:23-28 | an unsupported host is UnsupportedWebsite; the result is a deck exactly when the host, the path and the fetch all succeed, and that deck is the Moxfield deck of the response |

## Left out

- The PDF itself is not modelled: the `printpdf` document and pages, JPEG decoding, the image scale and dpi, the unused reference polygon, and saving `<name>.pdf`. So are the `unwrap` panics on those steps. The layout models where images go, not how they are drawn.
- Floating point is not modelled. Distances are exact integers in tenths of a millimetre. This gives the same branches as the source's `f32` arithmetic, because every comparison is at least 3 mm from its threshold.
- File system and I/O are not modelled: `create_dir_all`, `metadata`, `File::create` and `io::copy` failures, reading the deck-list file and its lines, and all `println!`/`eprintln!` output. The cards directory is a map from Scryfall id to bytes.
- Decks.CardsDirectory.Download: an HTTP client that fails to build and a panic in `response.bytes().unwrap()` are not modelled. A request is either sent, giving a body, or fails. As in the source, the reply's status is not checked: whatever body comes back is stored.
- Local.GetCardDetails: an HTTP client that fails to build is not modelled. The server oracle of type Local.Server answers with the status, the Retry-After value and the decoded body, so HTTP and JSON are abstracted away.
- Local.GetCardDetails: the panic of `to_str().unwrap()` on a Retry-After header that is not visible ASCII is not modelled. The header is taken as a string.
- Local.GetLocalDeck: the source parses all lines concurrently, one spawned task per line with no limit on their number, and awaits them in line order. The model parses them one after another. The model's Scryfall service (Local.Server) answers by query and attempt number alone, so two equal lines get equal replies and the timing of other lines' requests has no effect. The real service is not like this: running the lookups at once changes which requests receive a 429, and two equal lines can be answered differently. The model's deck and error are those of a run in which every lookup receives the replies the oracle gives it.
- Text.IsAlphabetic: only ASCII letters count as alphabetic. Rust's `char::is_alphabetic` also accepts non-ASCII letters, so a set code containing such letters is trimmed differently.
- Remote.MainboardCards: the order of the mainboard copies is modelled only as a multiset, because the source iterates a `HashMap`. That the copies of one entry are adjacent is not stated.
- Remote.GetMoxfieldDeck: the HTTP request, the JSON pretty-printing round trip and decoding are one `fetch` oracle. A `u32` quantity is a `nat`.
- Sleeping is recorded, not performed. There is no wall-clock time.
- `src/main.rs` (argument handling, choosing between the two sources) and `src/source.rs` are not part of this model. `main.rs` calls `generate` with a `DeckGenerationOptions` argument that `deck.rs` does not define; the model follows `deck.rs`, where `generate` takes no options and always includes the tokens.
- Image downloads are not retried, have no backoff and no status check. After a 429 without a usable Retry-After the wait is a constant one second. Each deck-list line runs in its own task, with no limit on how many. Cards are not de-duplicated before downloading; because the download runs sequentially and finds a file already written, a repeated card's image is still requested exactly once on a successful run (Decks.DownloadRequestsOnce, Decks.DownloadRequestsAllMissing).
