# Threat aggregator core, modelled in Dafny

This project models the pure logic of a small threat-intelligence aggregator. The aggregator polls RSS/Atom feeds and IP-reputation APIs and shows the newest items in a table. The model covers four pieces:

- **Normalizer** (`gather_entries`, in three front ends). One fetch per registry source, gathered in registry order. A failed source, or one whose feed has no items, is dropped. Every item becomes a `FeedEntry` with the defaults `"No title"` and `""`. Each front end has its own rule for the publication timestamp. In the README module and the legacy script a raising timestamp conversion aborts the whole gather (`GatherChecked`).
- **Ranker** (`display_entries`). A stable sort by publication time, newest first, where an absent timestamp is keyed as a single `now`. The README front end then shows the first ten (`TopTen`).
- **Seen-link filter** (`display_entries` with `seen_links`). It walks the ranked list, skips links already seen, records and emits the rest, and stops after ten (`Select`; `DisplayEntries` is the loop itself). `Poll` threads one seen set through successive polling cycles.
- **IOC lookup** (`check_ip` and its four adapters). Each adapter maps an HTTP status and a decoded JSON body to a fixed-shape record. A non-200 status gives an error record. A missing key anywhere on the path gives the default. `check_ip` queries VirusTotal, AbuseIPDB and OTX only when their keys are truthy, and always queries Talos last.
- **README sources** (`extract_source_urls`). The regular expression `## Sources(.*?)## ` is modelled exactly: first heading, nearest following `## `. The anchors are then folded into a map where the last anchor with a given text wins, and whose keys keep the order of their first insertion, as a Python dict does.

Modules: `Wrappers` (Option, Result), `Entries` (the record and its ranking key), `Ranking`, `Dedup`, `Normalizer`, `Ioc`, `ReadmeSources`.

Parameters stand in for everything the code does not compute itself:
- `now` is the wall clock.
- `transport` and `respond` are the network.
- `Oracles` holds date parsing, `time.mktime`, `datetime.fromtimestamp` and BeautifulSoup's `get_text`. Each conversion returns `None` where Python raises. `calendar.timegm` and `email.utils.mktime_tz` are written out in `Calendar`.
- `anchorsOf` is BeautifulSoup's `find_all("a")`.
- `isIpLiteral` is `ipaddress.ip_address` not raising.

Timestamps are integers on one common scale.

The README module parses the raw summary with BeautifulSoup directly, while the other two front ends go through `clean_html`. The two agree, because the text of an empty document is empty, so all three share one `Summary` rule.

Undated entries are sometimes described as always ranked first. The code guarantees that only when every real timestamp lies strictly before `now`. A timestamp later than `now` outranks an undated entry. The model follows the code (`UndatedBeforeDated`, `FutureDatedOutranksUndated`). The code reads the clock once per undated entry, in input order, so with `reverse=True` undated entries come out latest-read first whenever the clock advances between reads. The model keys them all by one `now`, so among themselves they keep input order. That order, and which undated entries survive the cut to ten, is the model's and not necessarily the program's.

## Model

| member | source | states |
|---|---|---|
| Ranking.SortDesc | threataggregator/feeds.py:90 | the ranked list is non-increasing by key (published, else `now`) and is a permutation of the input |
| Ranking.SortDescStable | threataggregator/feeds.py:90 | entries with equal keys keep their input order (Python's `sorted(..., reverse=True)` is stable) |
| Ranking.TopTen | threataggregator/readme.py:79 | the view holds min(10, n) entries, sorted, drawn from the input, and no entry left out outranks a shown one; with `TopTenStable` this fixes the view exactly |
| Ranking.TopTenStable | threataggregator/readme.py:79 | among shown entries of equal key, the shown ones are the first of that key in the input, in input order |
| Ranking.UndatedBeforeDated | threataggregator/feeds.py:90 | if every real timestamp is before `now`, no dated entry is ranked above an undated one |
| Ranking.FutureDatedOutranksUndated | threataggregator/feeds.py:90 | a timestamp later than `now` is ranked above an undated entry |
| Dedup.WalkRecordsShown | threataggregator/feeds.py:91-96 | the walk emits at most `room` entries, none whose link was seen, and the seen set grows by exactly the emitted links |
| Dedup.WalkLinksDistinct | threataggregator/feeds.py:91-94 | emitted links are pairwise distinct even when the batch repeats a link |
| Dedup.WalkKeepsOrder | threataggregator/feeds.py:90-94 | emitted entries form a subsequence of the ranked list |
| Dedup.WalkExhausts | threataggregator/feeds.py:91-96 | stopping short of the cap means every input link ended up seen, so no eligible entry was passed over |
| Dedup.WalkTakesFirstEligible | threataggregator/feeds.py:91-96 | the walk emits exactly the first `room` entries of `Eligible`, the ranked list filtered to the first entry of every unseen link |
| Dedup.Select | threat_feed_aggregator.py:62-69 | at most 10 entries, distinct links, none seen before, all from the input, seen set grows by exactly the emitted links, ranked order kept, fewer than 10 only when every input link is now seen, and the emitted entries are the first ten eligible ones of the ranking |
| Dedup.DuplicateLinkShowsFirst | threataggregator/feeds.py:91-94 | of two entries with the same link, only the better-ranked one is shown |
| Dedup.DisplayEntries | threataggregator/feeds.py:89-96 | the skip / record / append / break-at-10 loop computes exactly `Select` |
| Dedup.AllSeenSelectsNothing | threataggregator/feeds.py:91-92 | when every input link is already seen, nothing is emitted and the seen set is unchanged |
| Dedup.FreshSelectionIsTopTen | threataggregator/feeds.py:89-96 | with distinct, unseen links, the filter emits exactly the top ten of the ranking |
| Dedup.SeenLinkIsSkipped | threat_feed_aggregator.py:64-67 | with seen = {"https://a"} and links "https://a", "https://b", only the "https://b" entry is emitted |
| Dedup.Poll | threat_feed_aggregator.py:80-85 | across cycles sharing one seen set: nothing shown was seen before, no link is shown in two cycles, and the set ends as the initial set plus every shown link; `PollCycles` fixes what each cycle shows |
| Dedup.PollCycles | threat_feed_aggregator.py:80-85 | cycle c shows exactly `Select` of its batch against the initial set plus every link shown in cycles before c, so an entry first fetched in a later cycle can still be shown |
| Normalizer.CleanHtml | threat_feed_aggregator.py:20-24 | an empty input gives the empty string |
| Normalizer.Published | threataggregator/feeds.py:60-67 | feeds module: a truthy "published" is parsed, else a truthy "pubDate", else absent, and absent when parsing fails; the README module and the legacy script have a timestamp exactly when `published_parsed` is present and truthy and its conversion does not raise (the README module through `calendar.timegm`, the legacy script through `time.mktime`) |
| Normalizer.ReadmeStamp | threataggregator/readme.py:54-57 | the README module's conversion as intended: a struct with a valid year and month converts to `fromtimestamp` of its `timegm` seconds, any other struct raises |
| Normalizer.GatherChecked | threataggregator/readme.py:52-57 | the gather aborts iff some delivered item has a truthy `published_parsed` whose conversion raises; otherwise it returns exactly `GatherEntries`; the feeds module never aborts |
| Normalizer.FirstRaise | threat_feed_aggregator.py:41-44 | no abort iff no item of any delivered feed raises; an abort names an item whose conversion raises |
| Normalizer.AsWrittenReadmeStampRaises | threataggregator/readme.py:56 | as written, every nine-field `struct_time` makes the conversion raise, where the intended conversion succeeds on valid dates |
| Normalizer.ReadmeDatedItem | threataggregator/readme.py:54-57 | a feed with one item dated 2024-01-01 00:00 UTC: as written the conversion raises; as intended the gather yields one record with that timestamp |
| Calendar.Timegm | threataggregator/readme.py:56 | `calendar.timegm`: defined exactly for structs with at least six fields and a year and month `datetime.date` accepts; `TimegmEpoch`, `TimegmMonthLength` and `TimegmYearLength` pin it to the Gregorian calendar |
| Calendar.MktimeTz | threataggregator/readme.py:56 | `email.utils.mktime_tz`: raises on fewer than ten fields; with an integer tenth field it is `timegm` minus that offset, and it raises where `timegm` does |
| Normalizer.NormalizeEntry | threataggregator/readme.py:58-65 | source is the registry name, a missing title is "No title", a missing link is "", a missing summary is "" in every front end, and the timestamp follows the front end's rule |
| Normalizer.NormalizeFeed | threataggregator/feeds.py:59-76 | one record per item, in the feed's native item order |
| Normalizer.NormalizeCounts | threataggregator/feeds.py:56-59 | the record count is the total item count of the delivering sources, and every record names a source that delivered |
| Normalizer.NormalizeAppend | threat_feed_aggregator.py:37-51 | records from earlier sources precede records from later sources |
| Normalizer.NormalizeSkipsEmpty | threataggregator/feeds.py:57-58 | a `None` or item-less result contributes no records |
| Normalizer.FetchPolicy | threataggregator/readme.py:31-42 | README front end: a raised fetch or a feed with zero items gives `None`; the other front ends pass every parsed feed on |
| Normalizer.FanOut | threataggregator/feeds.py:55-56 | one settled result per registry source, index for index, whatever the other fetches did |
| Normalizer.GatherEntries | threataggregator/feeds.py:52-77 | every record's source is a registry name |
| Normalizer.FailedSourceIsSkipped | threat_feed_aggregator.py:27-40 | a source whose fetch raised gives the same records as the registry without it, so the other sources are unaffected |
| Normalizer.GatherInRegistryOrder | threataggregator/readme.py:48-66 | records come source by source in registry order, and each source's records follow its feed's item order |
| Normalizer.GatherCount | threataggregator/readme.py:49-52 | the number of records is the sum of item counts of the sources that delivered |
| Ioc.VtAdapter | threataggregator/ioc.py:9-21 | non-200 gives exactly {source, error: status}; otherwise malicious and suspicious are read under data.attributes.last_analysis_stats, 0 when any key is missing, and a non-object on the path raises |
| Ioc.AbuseAdapter | threataggregator/ioc.py:24-33 | non-200 gives the error record; otherwise abuse_confidence is data.abuseConfidenceScore, defaulting to 0 |
| Ioc.OtxAdapter | threataggregator/ioc.py:36-44 | non-200 gives the error record; pulse_count is `len` of pulse_info.pulses (items of a list, characters of a string, keys of an object), 0 when it is absent; a number, boolean or null there raises, as does a non-object on the path |
| Ioc.TalosAdapter | threataggregator/ioc.py:47-56 | non-200 gives the error record; threat_level is response.threat_level, defaulting to "unknown" |
| Ioc.Adapter | threataggregator/ioc.py:13-14 | every record names the service queried, and any non-200 status becomes an explicit error record |
| Ioc.Plan | threataggregator/ioc.py:61-68 | the task list has 1 + (number of truthy keys) services, contains a service iff its key is truthy (Talos always), keeps the order VT, AbuseIPDB, OTX, Talos, and ends with Talos |
| Ioc.RunAll | threataggregator/ioc.py:69 | the gathered results follow task order, one per task, and the gather raises iff some adapter raises |
| Ioc.CheckIp | threataggregator/ioc.py:59-69 | 1 + (number of truthy keys) results; the i-th is the reading by the i-th planned service's adapter of that service's response, Talos last; it fails iff an enabled adapter raises |
| Ioc.DisabledServicesNotQueried | threataggregator/ioc.py:62-67 | answers for services with a missing or empty key cannot change the result, so those services are never queried |
| Ioc.TalosOnlyLookup | threataggregator/ioc.py:59-69 | with no keys and a 200 Talos answer, there is exactly one record, a Talos report without an error field |
| Ioc.RunIocCommand | threataggregator/cli.py:59-63 | the command is rejected exactly when the IP literal is invalid, whatever the services would answer; a valid literal runs the full `check_ip` lookup |
| ReadmeSources.Find | threataggregator/readme.py:20 | the result is the first occurrence of the pattern at or after the start position, or none exists |
| ReadmeSources.SourcesSection | threataggregator/readme.py:20-23 | a section exists iff some "## Sources" is followed, at or after its end, by "## "; it is the text between the end of the first heading and the nearest following "## " |
| ReadmeSources.LinkMap | threataggregator/readme.py:25-27 | keys are exactly the texts of anchors carrying an href, and each maps to the href of the last such anchor with that text |
| ReadmeSources.KeyOrder | threataggregator/readme.py:25-27 | the dict's keys: exactly the texts of anchors with an href, each once |
| ReadmeSources.KeyOrderGrows | threataggregator/readme.py:25-27 | keys keep first-insertion order: the keys after any prefix of the anchors lead the final keys |
| ReadmeSources.Registry | threataggregator/readme.py:48 | `links.items()`: one source per key in insertion order, names distinct, each URL the link map's value |
| ReadmeSources.ExtractSourceUrls | threataggregator/readme.py:20-28 | no match gives no sources; otherwise the registry of the section's anchors, in dict order |

## Left out

- HTTP sessions, timeouts and `asyncio` scheduling are left out. The fan-out is an order-preserving map over per-source results, and `transport` / `respond` stand for the network.
- Transport exceptions inside the IOC adapters, and failures of `resp.json()` itself, are not modelled. Only the exceptions raised while reading the decoded body are.
- Ioc.CheckIp: when several adapters raise, the model reports the first one in task order. `asyncio.gather` re-raises whichever finished first, and that is not modelled.
- Calendar.MktimeTz: struct fields are integers, so the branch for a tenth field holding `None` is not modelled. That branch falls back to local time through `time.mktime`. A nine-field `struct_time` raises before reaching it.
- JSON numbers are integers. Floating-point values are not modelled.
- Normalizer.Published: date parsing, `time.mktime` and `datetime.fromtimestamp` are oracles that return `None` where they raise. The README module's conversion is modelled as intended, through `calendar.timegm` (see Findings). The naive-local versus aware-UTC datetimes of the three front ends are collapsed onto one integer scale.
- Normalizer.GatherChecked: when a conversion raises, the model reports the first raising item in loop order. Which exception Python raises is not modelled.
- Normalizer.NormalizeEntry: a `published_parsed` key holding `None` is treated like a missing key. Both are falsy in the source.
- The parsed feed object is assumed truthy. The feed parser returns a non-empty dict. The bozo warning is console output only.
- Ranking.SortDesc: the sort key reads the clock once per undated entry. The model uses a single `now` for the whole sort, so its order among undated entries (input order) is not the program's (latest read first whenever the clock advances). `TopTen`, `Select` and `FreshSelectionIsTopTen` inherit this for which undated entries make the cut.
- The one-shot README view keeps no memory between calls. Every Dafny function is pure, so no separate lemma states this.
- `validate_ip` is total because its only failure, `ValueError` from `ipaddress.ip_address`, is caught. In the model that parser is the `isIpLiteral` oracle, and every Dafny function is total.
- Console output, the `rich` table, `strftime` formatting and `console.clear` are display only.
- The infinite polling loops with `sleep` and exception swallowing, and argparse dispatch, are glue. `Poll` models only the seen set threaded through the cycles.
- Reading README.md from disk is I/O. Extraction is modelled over the file's text.
- The thin wrappers (`ioc_checker.py`, `readme_source_aggregator.py`, `async_threat_feed_aggregator.py`) and the package re-exports in `threataggregator/__init__.py` add no logic.

## Findings

| source | as written | input that shows it | evidently intended | confidence | as-written member | corrected member |
|---|---|---|---|---|---|---|
| threataggregator/readme.py:55-57 | `feedparser.mktime_tz(entry.published_parsed)`: the feed parser does not appear to export `mktime_tz`, and `email.utils.mktime_tz` reads a tenth field that a nine-field `struct_time` lacks; either way the call raises outside any `try`, so the `sources` command aborts | any feed item with a truthy `published_parsed`, e.g. 2024-01-01 00:00 UTC | the struct is UTC, so `calendar.timegm` gives its epoch seconds | medium, not executed | Normalizer.AsWrittenReadmeStampRaises | Normalizer.ReadmeStamp |
