/** The normalized feed record shared by the three feed front ends. */
module Entries {
  import opened Wrappers

  /** One normalized feed item: title, link, plain-text summary, an optional
      publication instant (an integer count of time units on one common scale)
      and the registry name of the feed it came from. */
  datatype FeedEntry = FeedEntry(
    title: string,
    link: string,
    summary: string,
    published: Option<int>,
    source: string)

  /** The ranking key: the publication instant, or the wall-clock `now` when it is absent. */
  function Key(e: FeedEntry, now: int): int {
    e.published.GetOr(now)
  }

  /** The links carried by a sequence of entries. */
  function LinkSet(s: seq<FeedEntry>): set<string> {
    set e | e in s :: e.link
  }

  /** No two positions of `s` carry the same link. */
  predicate LinksDistinct(s: seq<FeedEntry>) {
    forall i, j :: 0 <= i < j < |s| ==> s[i].link != s[j].link
  }
}
