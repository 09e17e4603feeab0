/** The fetch-and-normalize half of the three feed front ends
    (`gather_entries` in threataggregator/feeds.py, threataggregator/readme.py
    and threat_feed_aggregator.py): one fetch per registry source in registry
    order, failed or empty sources dropped, every item flattened into a
    `FeedEntry` with defaults. */
module Normalizer {
  import opened Wrappers
  import opened Entries
  import opened Calendar

  /** One parsed feed item. `None` marks a key the item does not carry. */
  datatype RawEntry = RawEntry(
    title: Option<string>,
    link: Option<string>,
    summary: Option<string>,
    published: Option<string>,
    pubDate: Option<string>,
    publishedParsed: Option<TimeStruct>)

  /** The three front ends that normalize feeds, each with its own timestamp rule. */
  datatype FrontEnd =
    | Feeds   // threataggregator/feeds.py
    | Readme  // threataggregator/readme.py
    | Legacy  // threat_feed_aggregator.py

  /** The library calls the normalizer relies on but the model does not see. */
  datatype Oracles = Oracles(
    /** dateutil parsing followed by conversion to UTC; `None` when either raises. */
    parseDate: string -> Option<int>,
    /** `datetime.fromtimestamp(s, tz=utc)` for epoch seconds `s`; `None` when it raises. */
    fromUtc: int -> Option<int>,
    /** `datetime.fromtimestamp(time.mktime(t))`, local wall-clock time;
        `None` when either call raises. */
    localEpoch: TimeStruct -> Option<int>,
    /** BeautifulSoup's `get_text()` of an HTML fragment. */
    htmlText: string -> string)

  /** One registry entry: a source name and the URL of its feed. */
  datatype Source = Source(name: string, url: string)

  /** The settled result of one fetch: the items of the feed, or `None`. */
  datatype Fetched = Fetched(name: string, feed: Option<seq<RawEntry>>)

  /** Python truthiness of an optional `struct_time`. */
  predicate StructTruthy(t: Option<TimeStruct>) {
    t.Some? && t.value.fields != []
  }

  /** `clean_html`: the empty string stays empty, anything else goes through the HTML parser. */
  function CleanHtml(text: string, htmlText: string -> string): (r: string)
    ensures text == "" ==> r == ""
  {
    if text == "" then "" else htmlText(text)
  }

  /** `entry.get("published") or entry.get("pubDate")`. */
  function PublishedText(e: RawEntry): Option<string> {
    if Truthy(e.published) then e.published else e.pubDate
  }

  /** The README module's conversion of a `published_parsed` struct, as
      evidently intended: the struct is UTC, so `calendar.timegm` gives its
      epoch seconds, then `datetime.fromtimestamp(·, tz=utc)`. `None` when a
      step raises. */
  function ReadmeStamp(o: Oracles, t: TimeStruct): (r: Option<int>)
    ensures ValidStruct(t) ==> r == o.fromUtc(Timegm(t).value)
    ensures !ValidStruct(t) ==> r.None?
  {
    match Timegm(t)
    case None => None
    case Some(s) => o.fromUtc(s)
  }

  /** The README module's conversion as written: through `mktime_tz`, which
      needs a tenth field (a UTC offset) that a `struct_time` lacks. */
  function ReadmeStampAsWritten(o: Oracles, t: TimeStruct): Option<int> {
    match MktimeTz(t)
    case None => None
    case Some(s) => o.fromUtc(s)
  }

  /** The conversion the README module and the legacy script apply to a
      truthy `published_parsed`; `None` when it raises. */
  function StructStamp(v: FrontEnd, o: Oracles, t: TimeStruct): Option<int> {
    if v == Readme then ReadmeStamp(o, t) else o.localEpoch(t)
  }

  /** Converting the item's timestamp raises. The README module and the
      legacy script convert outside any `try`, so this aborts the whole
      gather; the feeds module catches every parsing error. */
  predicate ConversionRaises(v: FrontEnd, o: Oracles, e: RawEntry) {
    v != Feeds && StructTruthy(e.publishedParsed) && StructStamp(v, o, e.publishedParsed.value).None?
  }

  /** The publication instant each front end derives from a raw item. The
      feeds module prefers a truthy "published", falls back to "pubDate", and
      leaves the instant absent when neither is truthy or parsing fails; the
      other two convert `published_parsed` exactly when it is present and
      truthy (when that conversion raises, `GatherChecked` aborts). */
  function Published(v: FrontEnd, o: Oracles, e: RawEntry): (r: Option<int>)
    ensures v == Feeds ==>
              r == if Truthy(e.published) then o.parseDate(e.published.value)
                   else if Truthy(e.pubDate) then o.parseDate(e.pubDate.value)
                   else None
    ensures v != Feeds && !ConversionRaises(v, o, e) ==> (r.Some? <==> StructTruthy(e.publishedParsed))
    ensures v == Readme && StructTruthy(e.publishedParsed) && ValidStruct(e.publishedParsed.value) ==>
              r == o.fromUtc(Timegm(e.publishedParsed.value).value)
    ensures v == Legacy && StructTruthy(e.publishedParsed) ==> r == o.localEpoch(e.publishedParsed.value)
  {
    match v
    case Feeds =>
      var text := PublishedText(e);
      if Truthy(text) then o.parseDate(text.value) else None
    case _ =>
      if StructTruthy(e.publishedParsed) then StructStamp(v, o, e.publishedParsed.value) else None
  }

  /** The plain-text summary. The feeds module and the legacy script go
      through `clean_html`; the README module parses the raw summary
      directly, which agrees with `clean_html` because the text of an empty
      document is empty. */
  function Summary(o: Oracles, e: RawEntry): string {
    CleanHtml(e.summary.GetOr(""), o.htmlText)
  }

  /** One output record: the source is the registry name, a missing title
      reads "No title", a missing link reads "". */
  function NormalizeEntry(v: FrontEnd, o: Oracles, name: string, e: RawEntry): (r: FeedEntry)
    ensures r.source == name
    ensures e.title.None? ==> r.title == "No title"
    ensures e.title.Some? ==> r.title == e.title.value
    ensures e.link.None? ==> r.link == ""
    ensures e.link.Some? ==> r.link == e.link.value
    ensures e.summary.None? ==> r.summary == ""
    ensures r.published == Published(v, o, e)
  {
    FeedEntry(
      e.title.GetOr("No title"),
      e.link.GetOr(""),
      Summary(o, e),
      Published(v, o, e),
      name)
  }

  /** The records of one feed, in the feed's own item order. */
  function NormalizeFeed(v: FrontEnd, o: Oracles, name: string, items: seq<RawEntry>): (r: seq<FeedEntry>)
    ensures |r| == |items|
    ensures forall j :: 0 <= j < |r| ==> r[j] == NormalizeEntry(v, o, name, items[j])
  {
    if items == [] then []
    else [NormalizeEntry(v, o, name, items[0])] + NormalizeFeed(v, o, name, items[1..])
  }

  /** How many items a settled fetch contributes. */
  function ItemCount(f: Fetched): nat {
    if f.feed.Some? then |f.feed.value| else 0
  }

  function TotalItems(fs: seq<Fetched>): nat {
    if fs == [] then 0 else ItemCount(fs[0]) + TotalItems(fs[1..])
  }

  /** Names of the fetches that delivered at least one item. */
  function DeliveringNames(fs: seq<Fetched>): set<string> {
    set f | f in fs && ItemCount(f) > 0 :: f.name
  }

  /** The records one settled fetch contributes. */
  function FetchedRecords(v: FrontEnd, o: Oracles, f: Fetched): seq<FeedEntry> {
    if f.feed.Some? then NormalizeFeed(v, o, f.name, f.feed.value) else []
  }

  /** The loop over the gathered results: a `None` or item-less result is
      skipped, every other feed contributes one record per item. */
  function Normalize(v: FrontEnd, o: Oracles, fs: seq<Fetched>): seq<FeedEntry> {
    if fs == [] then [] else FetchedRecords(v, o, fs[0]) + Normalize(v, o, fs[1..])
  }

  /** One record per delivered item, each stamped with the name of a source
      that delivered. */
  lemma {:induction false} NormalizeCounts(v: FrontEnd, o: Oracles, fs: seq<Fetched>)
    ensures |Normalize(v, o, fs)| == TotalItems(fs)
    ensures forall e :: e in Normalize(v, o, fs) ==> e.source in DeliveringNames(fs)
  {
    if fs != [] {
      NormalizeCounts(v, o, fs[1..]);
      var head := FetchedRecords(v, o, fs[0]);
      assert fs == [fs[0]] + fs[1..];
      assert forall e :: e in head ==> e.source == fs[0].name;
      assert DeliveringNames(fs[1..]) <= DeliveringNames(fs);
      assert |head| > 0 ==> fs[0].name in DeliveringNames(fs);
    }
  }

  /** Records follow the registry order of their sources. */
  lemma {:induction false} NormalizeAppend(v: FrontEnd, o: Oracles, a: seq<Fetched>, b: seq<Fetched>)
    ensures Normalize(v, o, a + b) == Normalize(v, o, a) + Normalize(v, o, b)
  {
    if a == [] {
      assert a + b == b;
    } else {
      assert (a + b)[0] == a[0] && (a + b)[1..] == a[1..] + b;
      NormalizeAppend(v, o, a[1..], b);
    }
  }

  /** A source whose fetch failed, or whose feed has no items, contributes nothing. */
  lemma NormalizeSkipsEmpty(v: FrontEnd, o: Oracles, f: Fetched)
    requires f.feed.None? || f.feed.value == []
    ensures Normalize(v, o, [f]) == []
  {
  }

  /** `fetch_feed` after the transport settled (`None` when it raised): the
      README front end also turns a feed without items into `None`; the other
      two pass every parsed feed on. */
  function FetchPolicy(v: FrontEnd, outcome: Option<seq<RawEntry>>): (r: Option<seq<RawEntry>>)
    ensures r.Some? ==> r == outcome
    ensures v == Readme ==> (r.None? <==> outcome.None? || outcome.value == [])
    ensures v != Readme ==> r == outcome
  {
    match outcome
    case None => None
    case Some(items) => if v == Readme && items == [] then None else outcome
  }

  /** `asyncio.gather` over one fetch per registry source (or the sequential
      loop of the legacy script): one settled result per source, in registry
      order, whatever the others did. `transport` stands for the network. */
  function FanOut(v: FrontEnd, registry: seq<Source>, transport: Source -> Option<seq<RawEntry>>): (r: seq<Fetched>)
    ensures |r| == |registry|
    ensures forall i :: 0 <= i < |r| ==>
              r[i].name == registry[i].name && r[i].feed == FetchPolicy(v, transport(registry[i]))
  {
    if registry == [] then []
    else [Fetched(registry[0].name, FetchPolicy(v, transport(registry[0])))] + FanOut(v, registry[1..], transport)
  }

  lemma FanOutAppend(v: FrontEnd, a: seq<Source>, b: seq<Source>, transport: Source -> Option<seq<RawEntry>>)
    ensures FanOut(v, a + b, transport) == FanOut(v, a, transport) + FanOut(v, b, transport)
  {
  }

  /** The source names of a registry. */
  function Names(registry: seq<Source>): set<string> {
    set s | s in registry :: s.name
  }

  /** `gather_entries`: fan out, then normalize. */
  function GatherEntries(v: FrontEnd, o: Oracles, registry: seq<Source>, transport: Source -> Option<seq<RawEntry>>): (r: seq<FeedEntry>)
    ensures forall e :: e in r ==> e.source in Names(registry)
  {
    var fs := FanOut(v, registry, transport);
    NormalizeCounts(v, o, fs);
    assert DeliveringNames(fs) <= Names(registry) by {
      forall f | f in fs ensures f.name in Names(registry) {
        var i :| 0 <= i < |fs| && fs[i] == f;
        assert registry[i] in registry;
      }
    }
    Normalize(v, o, fs)
  }

  /** The records of a result list split around any one result. */
  lemma NormalizeSplit(v: FrontEnd, o: Oracles, pre: seq<Fetched>, f: Fetched, post: seq<Fetched>)
    ensures Normalize(v, o, pre + [f] + post)
         == Normalize(v, o, pre) + FetchedRecords(v, o, f) + Normalize(v, o, post)
  {
    var one := [f];
    assert Normalize(v, o, one) == FetchedRecords(v, o, f) by {
      assert one[0] == f && one[1..] == [];
    }
    NormalizeAppend(v, o, pre, one);
    NormalizeAppend(v, o, pre + one, post);
  }

  /** Dropping a result that delivered nothing does not change the records. */
  lemma NormalizeDropsSilent(v: FrontEnd, o: Oracles, pre: seq<Fetched>, f: Fetched, post: seq<Fetched>)
    requires f.feed.None?
    ensures Normalize(v, o, pre + [f] + post) == Normalize(v, o, pre + post)
  {
    NormalizeSplit(v, o, pre, f, post);
    NormalizeAppend(v, o, pre, post);
  }

  /** A source that fails (or, in the README front end, whose feed is empty)
      is dropped without disturbing the others: the result is what the
      registry without that source would give. */
  lemma FailedSourceIsSkipped(v: FrontEnd, o: Oracles, registry: seq<Source>, transport: Source -> Option<seq<RawEntry>>, i: nat)
    requires i < |registry|
    requires FetchPolicy(v, transport(registry[i])).None?
    ensures GatherEntries(v, o, registry, transport)
         == GatherEntries(v, o, registry[..i] + registry[i + 1..], transport)
  {
    var pre, mid, post := registry[..i], [registry[i]], registry[i + 1..];
    assert registry == pre + mid + post;
    FanOutAppend(v, pre + mid, post, transport);
    FanOutAppend(v, pre, mid, transport);
    FanOutAppend(v, pre, post, transport);
    var fm := FanOut(v, mid, transport);
    assert fm == [fm[0]];
    NormalizeDropsSilent(v, o, FanOut(v, pre, transport), fm[0], FanOut(v, post, transport));
  }

  /** Records appear source by source in registry order: everything from the
      sources before `src`, then `src`'s records in its feed's own item
      order, then everything from the sources after it. */
  lemma GatherInRegistryOrder(v: FrontEnd, o: Oracles, pre: seq<Source>, src: Source, post: seq<Source>, transport: Source -> Option<seq<RawEntry>>)
    ensures GatherEntries(v, o, pre + [src] + post, transport)
         == GatherEntries(v, o, pre, transport)
            + FetchedRecords(v, o, Fetched(src.name, FetchPolicy(v, transport(src))))
            + GatherEntries(v, o, post, transport)
  {
    var f := Fetched(src.name, FetchPolicy(v, transport(src)));
    FanOutAppend(v, pre + [src], post, transport);
    FanOutAppend(v, pre, [src], transport);
    assert FanOut(v, [src], transport) == [f];
    NormalizeSplit(v, o, FanOut(v, pre, transport), f, FanOut(v, post, transport));
  }

  /** The number of records is the total item count of the sources that delivered. */
  lemma GatherCount(v: FrontEnd, o: Oracles, registry: seq<Source>, transport: Source -> Option<seq<RawEntry>>)
    ensures |GatherEntries(v, o, registry, transport)| == TotalItems(FanOut(v, registry, transport))
  {
    NormalizeCounts(v, o, FanOut(v, registry, transport));
  }

  /** Why a gather aborted: the item whose timestamp conversion raised, and its source. */
  datatype Abort = ConversionRaised(source: string, item: RawEntry)

  /** The first item of a feed whose conversion raises, if any. */
  function FeedRaise(v: FrontEnd, o: Oracles, name: string, items: seq<RawEntry>): (r: Option<Abort>)
    ensures r.None? <==> forall j :: 0 <= j < |items| ==> !ConversionRaises(v, o, items[j])
    ensures r.Some? ==> r.value.source == name && r.value.item in items && ConversionRaises(v, o, r.value.item)
  {
    if items == [] then None
    else if ConversionRaises(v, o, items[0]) then Some(ConversionRaised(name, items[0]))
    else FeedRaise(v, o, name, items[1..])
  }

  /** The first raising item over the gathered results, in loop order. */
  function FirstRaise(v: FrontEnd, o: Oracles, fs: seq<Fetched>): (r: Option<Abort>)
    ensures r.None? <==> forall i, j :: 0 <= i < |fs| && fs[i].feed.Some? && 0 <= j < |fs[i].feed.value| ==>
                                      !ConversionRaises(v, o, fs[i].feed.value[j])
    ensures r.Some? ==> ConversionRaises(v, o, r.value.item)
  {
    if fs == [] then None
    else
      var head := if fs[0].feed.Some? then FeedRaise(v, o, fs[0].name, fs[0].feed.value) else None;
      if head.Some? then head
      else
        var rest := FirstRaise(v, o, fs[1..]);
        assert forall i :: 0 < i < |fs| ==> fs[i] == fs[1..][i - 1];
        rest
  }

  /** `gather_entries` with its exceptions: the records of `GatherEntries`,
      unless converting the timestamp of some delivered item raises, which
      aborts the whole call. The feeds module never aborts. */
  function GatherChecked(v: FrontEnd, o: Oracles, registry: seq<Source>, transport: Source -> Option<seq<RawEntry>>): (r: Result<seq<FeedEntry>, Abort>)
    ensures r.Failure? <==>
              exists i, j :: 0 <= i < |registry| && FetchPolicy(v, transport(registry[i])).Some?
                             && 0 <= j < |FetchPolicy(v, transport(registry[i])).value|
                             && ConversionRaises(v, o, FetchPolicy(v, transport(registry[i])).value[j])
    ensures r.Failure? ==> ConversionRaises(v, o, r.error.item)
    ensures r.Success? ==> r.value == GatherEntries(v, o, registry, transport)
    ensures v == Feeds ==> r.Success?
  {
    var fs := FanOut(v, registry, transport);
    match FirstRaise(v, o, fs)
    case Some(a) => Failure(a)
    case None => Success(GatherEntries(v, o, registry, transport))
  }

  /** As written, the README module aborts on every dated item: the feed
      parser's `published_parsed` has nine fields, and `mktime_tz` reads a
      tenth. The intended conversion accepts every such struct with a valid
      year and month. */
  lemma AsWrittenReadmeStampRaises(o: Oracles, t: TimeStruct)
    requires |t.fields| == 9
    ensures ReadmeStampAsWritten(o, t).None?
    ensures ValidStruct(t) ==> ReadmeStamp(o, t) == o.fromUtc(Timegm(t).value)
  {
  }

  /** One concrete feed: a single item dated 2024-01-01 00:00 UTC. As written
      the README gather aborts on it; with the intended conversion the item
      keeps its timestamp. */
  lemma ReadmeDatedItem(o: Oracles)
    requires o.fromUtc(1704067200).Some?
    ensures var t := Midnight(2024, 1, 1);
            && ReadmeStampAsWritten(o, t).None?
            && ReadmeStamp(o, t) == o.fromUtc(1704067200)
            && var item := RawEntry(None, None, None, None, None, Some(t));
               var registry := [Source("A", "https://a")];
               var r := GatherChecked(Readme, o, registry, _ => Some([item]));
               r.Success? && |r.value| == 1 && r.value[0].published == o.fromUtc(1704067200)
  {
    var t := Midnight(2024, 1, 1);
    var item := RawEntry(None, None, None, None, None, Some(t));
    var registry := [Source("A", "https://a")];
    var transport: Source -> Option<seq<RawEntry>> := _ => Some([item]);
    assert Timegm(t) == Some(1704067200);
    assert !ConversionRaises(Readme, o, item);
    GatherCount(Readme, o, registry, transport);
    assert FanOut(Readme, registry, transport) == [Fetched("A", Some([item]))];
  }
}
