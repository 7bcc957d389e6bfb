# rss_fetcher in Dafny

A model of the feed fetcher in `rss_fetcher.py`, with proofs about the model. The fetcher reads syndication feeds from a list of
configured routes. It turns each `<item>` of a feed into an article dict and
keeps only the articles whose publication date falls inside a
caller-given inclusive `[start, end]` window. It then queues each article as a
message, with the `datetime` under `pub_date` rewritten as ISO 8601 text.

The model has these modules:

- `Wrappers`: the `Option` and `Result` types.
- `Text`: Python's `str.strip()`, using the Unicode white-space set of `str.isspace()`. Also the compatibility shim `str.replace('GMT', '+0000')`, which scans left to right and never overlaps matches.
- `Calendar`: the civil date-times of Python's `datetime`. Each value is aware (an offset in minutes east of UTC) or naive. It provides the proleptic Gregorian ordinal and the weekday. Aware values are compared by the instant they denote. A naive window bound is made aware with `.replace(tzinfo=timezone.utc)`.
- `Numerals`: zero-padded decimal fields and how they read back.
- `Rfc822`: `datetime.strptime(s, "%a, %d %b %Y %H:%M:%S %z")`, the date layout of RFC 822 section 5 as amended by RFC 2822 section 3.3. Also a formatter for that layout and the round trip between the two.
- `Iso8601`: `datetime.isoformat()` for these values, and a reader that inverts it.
- `Selection`: the generic shape of a loop that appends `f(x)` for each element it does not `continue` past. Its lemmas cover subsequence, order, concatenation, and "all kept".
- `Feed`: `process_feed`.
  - An item is an abstract XML record: its optional `<link>` text, its optional `<pubDate>` text, and its `<category>` texts.
  - `ProcessFeed` is the loop as written. It builds each article key by key and skips items with `continue`.
  - It is proved equal to the specification function `Extract`.
- `Serializer`: `serialize_message`, modelled as a method on a `Message` object whose dict it overwrites in place. `send_to_sqs` is modelled as a trace of sends, one per message, in order.
- `Orchestrator`: the route loop of `main` at lines 93-97.
  - The feed URL is `http://<base>/<route>`.
  - Articles are accumulated in route order.
  - A failing fetch ends `main` before anything is sent.

Two points of the code that are easy to misread, and that the model follows:

- A parsed publication date is not converted to UTC. It is compared with the bounds by instant and stored with its parsed offset (lines 50-54).
- The date text is stripped before the `GMT` replacement (line 43).

## Model

| member | source | states |
|---|---|---|
| `Text.Strip` | rss_fetcher.py:43 | the result is a slice `s[i..j]` with only white space outside it, and it starts and ends with a non-space character |
| `Text.SkipLeft` | rss_fetcher.py:43 | the leading run skipped is all white space and stops at a non-space character or the end |
| `Text.SkipRight` | rss_fetcher.py:43 | the trailing run skipped is all white space and stops at a non-space character or the start |
| `Text.StripIdempotent` | rss_fetcher.py:62 | stripping twice is stripping once |
| `Text.StripOfStripped` | rss_fetcher.py:38 | text without white space at its ends is unchanged |
| `Text.ReplaceGmtRemovesAll` | rss_fetcher.py:47 | no `GMT` token is left after the shim |
| `Text.ReplaceGmtSkipsPrefix` | rss_fetcher.py:47 | text without `G` passes through the shim unchanged, and the shim works piecewise after it |
| `Text.ReplaceGmtSuffix` | rss_fetcher.py:47 | G-free text followed by `GMT` comes out with `+0000` in place of the token |
| `Calendar.Weekday` | rss_fetcher.py:50 | the weekday (`%a`) of a date is one of the seven days |
| `Calendar.AsUtc` | rss_fetcher.py:22-25 | a naive bound gets offset zero with every field unchanged; an aware bound is left as it is; validity is kept |
| `Calendar.NaiveBoundIsUtcWallClock` | rss_fetcher.py:22-25 | a naive bound denotes the instant its wall-clock reading has in UTC, with no shift |
| `Calendar.SameOffsetOrder` | rss_fetcher.py:54 | for equal offsets, instant order is exactly lexicographic field order (both directions) |
| `Calendar.OrdinalIncreasing` | rss_fetcher.py:54 | a later calendar day has a larger ordinal |
| `Numerals.ValueOfPad` | rss_fetcher.py:50 | a zero-padded field reads back as the number it was written from |
| `Numerals.PadOfValue` | rss_fetcher.py:50 | a digit field is the padded form of its value |
| `Rfc822.LookupFrom` | rss_fetcher.py:50 | a name lookup returns the first case-insensitive match, or none when nothing matches |
| `Rfc822.Parse` | rss_fetcher.py:50 | a parsed date is a valid, aware date-time |
| `Rfc822.MonthLookup` | rss_fetcher.py:50 | each month abbreviation is found at its own index |
| `Rfc822.DayLookup` | rss_fetcher.py:50 | every day abbreviation is recognised |
| `Rfc822.OffsetText` | rss_fetcher.py:50 | `%z` is written as five characters, a sign then four digits |
| `Rfc822.OffsetRoundTrip` | rss_fetcher.py:50 | every valid offset written as `±HHMM` reads back unchanged |
| `Rfc822.ParseFormat` | rss_fetcher.py:50 | every valid aware date written in the layout parses back to itself, offset included |
| `Iso8601.SuffixRoundTrip` | rss_fetcher.py:73 | the `±HH:MM` suffix reads back as the offset (an empty suffix as naive) |
| `Iso8601.ParseFormat` | rss_fetcher.py:73 | `isoformat()` loses nothing: its text reads back as the same value |
| `Iso8601.FormatInjective` | rss_fetcher.py:73 | distinct dates get distinct ISO 8601 texts |
| `Selection.SelectAppend` | rss_fetcher.py:32-65 | the loop's output for a concatenation is the concatenation of the outputs |
| `Selection.IsSubsequence` | rss_fetcher.py:29-65 | output `k` is the image of the element at the `k`-th kept index; indices strictly increase; an element is used exactly when kept |
| `Selection.SelectAll` | rss_fetcher.py:29-65 | when every element is kept, the output is every element's image, in order |
| `Feed.ParsePubDate` | rss_fetcher.py:43-50 | the date read from `<pubDate>`, if any, is valid and aware |
| `Feed.DateTextHasNoGmt` | rss_fetcher.py:47 | no `GMT` token reaches the parser |
| `Feed.ProcessFeed` | rss_fetcher.py:20-67 | the loop returns exactly `Extract(items, start, end)`: each kept item's record, in order, with naive bounds read as UTC |
| `Feed.ParsedItem` | rss_fetcher.py:50-55 | an item whose date parses is kept exactly when the date lies in the window, and its record holds that date |
| `Feed.UnparsedItem` | rss_fetcher.py:56-58 | an item whose date does not parse is dropped |
| `Feed.ExtractedAppend` | rss_fetcher.py:32-65 | items are processed one at a time: articles of a concatenation are the concatenation of the articles |
| `Feed.ExtractedIsSubsequence` | rss_fetcher.py:29-65 | the output is an order-preserving subsequence of the item records, and an item appears exactly when it is kept |
| `Feed.EmittedArticles` | rss_fetcher.py:33-62 | every article has exactly `url` (iff a link, stripped), `pub_date` (iff a date, the parsed value, offset kept, inside the window) and `tags` (one stripped text per category, in order) |
| `Feed.SingleItem` | rss_fetcher.py:41-65 | an undated item is emitted; one whose date fails to parse is dropped; a dated one is emitted iff its date is in the window |
| `Feed.UndatedItemsAllEmitted` | rss_fetcher.py:41-65 | items without `<pubDate>` are all emitted, in order, without a `pub_date` key, whatever the window |
| `Feed.UndatedItemEmitted` | rss_fetcher.py:41-65 | in any feed, an undated item is kept and emitted as its own record, at its place among the kept items, without `pub_date` |
| `Feed.UnparseableDropped` | rss_fetcher.py:44-58 | an item whose date does not parse is dropped and the items after it are still processed |
| `Feed.BoundsAreInclusive` | rss_fetcher.py:54-55 | when start is not after end, a date equal to either bound, as an instant, is kept |
| `Feed.NotADate` | rss_fetcher.py:56-58 | the text `not-a-date` does not parse |
| `Feed.PlainDateText` | rss_fetcher.py:43-47 | stripped text without a capital G reaches the parser unchanged |
| `Feed.NumericOffsetDate` | rss_fetcher.py:50-51 | a date written with a numeric offset parses to itself, offset kept |
| `Feed.ShimGmtSuffix` | rss_fetcher.py:43-47 | a date ending in `GMT` reaches the parser ending in `+0000` |
| `Feed.GmtDate` | rss_fetcher.py:47-51 | a UTC date written with the `GMT` zone name parses, through the shim, to that UTC value |
| `Feed.GmtShim` | rss_fetcher.py:43-47 | the shim turns the `GMT` form of a UTC date into its numeric `+0000` form |
| `Feed.FirstExampleDate` | tests/test_rss_fetcher.py:38 | `Mon, 01 Jan 2024 00:00:00 GMT` is how midnight of 1 January 2024 UTC is written |
| `Feed.SecondExampleDate` | tests/test_rss_fetcher.py:43 | `Tue, 02 Jan 2024 00:00:00 GMT` is how midnight of 2 January 2024 UTC is written |
| `Feed.TwoItemsAtTheBounds` | rss_fetcher.py:32-65 | two items dated at the two bounds are both emitted, in order, with their links, dates and tags |
| `Feed.TestFeedExample` | tests/test_rss_fetcher.py:33-52 | the test feed yields two articles, `article1` with tags `[Tech]` and `article2` with tags `[]` |
| `Serializer.SerializedEntries` | rss_fetcher.py:70-75 | the keys stay; a `datetime` under `pub_date` becomes its ISO 8601 text; every other entry is unchanged; no `datetime` is left under `pub_date` |
| `Serializer.SerializedOfSerial` | rss_fetcher.py:72 | a message with no `datetime` under `pub_date`, or no `pub_date`, is returned unchanged |
| `Serializer.SerializeIdempotent` | rss_fetcher.py:70-75 | serialising twice is serialising once |
| `Serializer.Restored` | rss_fetcher.py:73 | reading the text back changes only `pub_date` |
| `Serializer.RestoreSerialized` | rss_fetcher.py:73 | for every article `process_feed` can emit, reading the serialised message back gives the article |
| `Serializer.SerializedInjective` | rss_fetcher.py:73 | two such articles that serialise alike are equal |
| `Serializer.ExtractedUnserialized` | rss_fetcher.py:51 | every emitted article has a valid `datetime` under `pub_date`, or no `pub_date` |
| `Serializer.IsoExample` | tests/test_rss_fetcher.py:54-61 | midnight of 1 January 2024 UTC serialises as `2024-01-01T00:00:00+00:00` |
| `Serializer.SerializeMessage` | rss_fetcher.py:70-75 | the caller's dict is overwritten with its serialised form, and the same dict is returned |
| `Serializer.SerializedAllAt` | rss_fetcher.py:80-83 | entry `j` of a serialised batch is message `j` serialised |
| `Serializer.SerializedAllIdempotent` | rss_fetcher.py:80-83 | a serialised batch is unchanged by serialising it again |
| `Serializer.SendAll` | rss_fetcher.py:77-83 | one send per message, in order; each body is the serialised original, even for a dict listed twice; every dict is left serialised |
| `Orchestrator.FeedUrlParts` | rss_fetcher.py:94 | the URL is `http://`, the base, one `/`, then the route |
| `Orchestrator.RouteOfFeedUrl` | rss_fetcher.py:94 | the route can be read back from the URL |
| `Orchestrator.FeedUrlOfRoute` | rss_fetcher.py:94 | a URL that reads as a feed URL is the one built from its route |
| `Orchestrator.FeedUrlInjective` | rss_fetcher.py:94 | under one base, distinct routes give distinct URLs |
| `Orchestrator.FeedUrlExample` | tests/test_rss_fetcher.py:93 | base `example.com` and route `route1` give `http://example.com/route1` |
| `Orchestrator.CollectedSucceeds` | rss_fetcher.py:93-97 | the route loop succeeds exactly when every route's fetch does |
| `Orchestrator.CollectedFailsFirst` | rss_fetcher.py:93-97 | a failure carries the URL of the first route whose fetch fails |
| `Orchestrator.CollectedAppend` | rss_fetcher.py:93-97 | the batch for `r1 + r2` is the batch for `r1` followed by the batch for `r2` |
| `Orchestrator.CollectedStep` | rss_fetcher.py:96-97 | a route whose fetch succeeds appends its articles to the batch so far |
| `Orchestrator.CollectedStops` | rss_fetcher.py:95 | once a fetch fails, later routes change nothing |
| `Orchestrator.CollectedFrom` | rss_fetcher.py:96-97 | every message of a batch comes from some route's articles |
| `Orchestrator.GatherOne` | rss_fetcher.py:94-97 | one route contributes exactly `process_feed` of its feed |
| `Orchestrator.AttemptedFacts` | rss_fetcher.py:93-97 | the URLs requested are the routes' URLs in order; every step before the last one succeeded; all routes are requested on success, and on failure the last one requested is the failing URL |
| `Orchestrator.RequestedFacts` | rss_fetcher.py:93-97 | the same facts stated for the fetches: every fetch before the last requested one succeeded, and on failure the last one failed |
| `Orchestrator.AttemptedStep` | rss_fetcher.py:94-95 | while the loop is still running, the next route's URL is requested |
| `Orchestrator.AttemptedStops` | rss_fetcher.py:95 | once a fetch fails, no later route is requested |
| `Orchestrator.CollectMessages` | rss_fetcher.py:93-97 | the loop's outcome is `Gather` and its requests are `Requested`: the routes' URLs in order, every fetch before the last one succeeded, all routes on success, and on failure the failing URL last, after which nothing more is fetched |
| `Orchestrator.ProcessRoute` | rss_fetcher.py:95-96 | a route's step succeeds exactly when its fetch does, and then yields `process_feed` of the fetched items |
| `Orchestrator.BatchStampValid` | rss_fetcher.py:96-99 | every message handed to the queue has a valid `datetime`, or none |
| `Orchestrator.Run` | rss_fetcher.py:91-99 | nothing is sent when a fetch fails; otherwise one send per gathered article, in order, each the serialised article; the URLs requested are `Requested`, with the same facts as for `CollectMessages` |
| `Orchestrator.Dispatch` | rss_fetcher.py:98-99 | one fresh dict per gathered article goes to `send_to_sqs`: one send per article, in order, each body the serialised article |

## Left out

- `load_config` (rss_fetcher.py:11-13) reads a YAML file. The base URL, the routes and the queue URL are parameters instead.
- `fetch_rss_feed` (rss_fetcher.py:15-18) is an HTTP call. It and BeautifulSoup's XML parsing and tree search are one parameter, `fetch: string -> Option<seq<Item>>`. `None` stands for an exception, which `main` does not catch. Because `fetch` is a function of the URL, a route listed twice gets the same response both times, whereas `main` makes a separate request for each (rss_fetcher.py:95); no property here depends on the two responses differing.
- Exceptions the model does not cover, such as BeautifulSoup failing on malformed XML, are not distinguished from other fetch failures.
- XML text extraction (`.text` of nested elements) is part of the abstract item. The filter `if tag is not None` at line 62 never drops anything, because `find_all` yields only elements.
- `send_to_sqs` (rss_fetcher.py:77-83): creating the boto3 client and calling `get_queue_url` are left out; the queue URL is a parameter. `json.dumps` is left out too, so a send's body is the serialised dict itself. Send failures are not modelled: a `send_message` that raises part-way would stop the loop, leave the later messages unsent and their dicts unserialised, while `SendAll` always sends every message.
- `datetime.fromisoformat`, the argument count check and the usage message (rss_fetcher.py:89-90, 101-105) are left out. The window bounds are parameters.
- Sub-second precision is not modelled. A bound given with microseconds is compared as if it had none. `pub_date` values never have microseconds, because the layout has no `%f`. Offsets are whole minutes, so a bound whose offset has seconds (such as `+05:30:15`, which `fromisoformat` accepts) cannot be represented.
- Rfc822.Parse: accepts only the fixed-width form of the layout, with single spaces, two-digit fields and a `±HHMM` offset. `strptime` also accepts:
  - one-digit day and time fields;
  - runs of white space where the layout has a space;
  - a `:` inside `%z`, seconds in `%z`, and `Z`;
  - decimal digits other than ASCII `0`-`9` (for example Arabic-Indic digits), which the `\d` of the directives matches and `int()` reads.
- Rfc822.Parse: does not model locale-dependent day and month names. Names are the English abbreviations, matched ignoring ASCII letter case.
- Rfc822.Parse: the leap seconds 60 and 61 that the `%S` pattern admits are dropped. `datetime` raises `ValueError` for them, and the code lets that drop the item.
- Item ordering within the XML document is taken as the order of the item sequence. The model does not describe the document itself.
- Python's dict insertion order, which shows in the JSON encoding of a message, is not modelled. Articles are maps.
