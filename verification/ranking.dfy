/** The ranking step shared by every `display_entries`: Python's stable
    `sorted(entries, key=published-or-now, reverse=True)`, and the one-shot
    top-10 view of the README front end. */
module Ranking {
  import opened Wrappers
  import opened Entries

  /** How many entries one display cycle shows. */
  const DisplayLimit: nat := 10

  function Min(a: int, b: int): int {
    if a < b then a else b
  }

  /** Keys never increase from left to right. */
  ghost predicate SortedDesc(s: seq<FeedEntry>, now: int) {
    forall i, j :: 0 <= i < j < |s| ==> Key(s[i], now) >= Key(s[j], now)
  }

  /** The entries of `s` whose key is `k`, in their order in `s`. A sort is
      stable exactly when it leaves every such run as it found it. */
  function KeyRun(s: seq<FeedEntry>, k: int, now: int): seq<FeedEntry> {
    if s == [] then []
    else (if Key(s[0], now) == k then [s[0]] else []) + KeyRun(s[1..], k, now)
  }

  /** An entry ranked at least as high as everything in a sorted sequence may lead it. */
  lemma ConsSorted(h: FeedEntry, t: seq<FeedEntry>, now: int)
    requires SortedDesc(t, now)
    requires forall j :: 0 <= j < |t| ==> Key(t[j], now) <= Key(h, now)
    ensures SortedDesc([h] + t, now)
  {
    var r := [h] + t;
    forall i, j | 0 <= i < j < |r| ensures Key(r[i], now) >= Key(r[j], now) {
      assert r[j] == t[j - 1];
      if i > 0 {
        assert r[i] == t[i - 1];
      }
    }
  }

  /** After inserting `x` below the head, the head still outranks everything behind it. */
  lemma HeadOutranks(x: FeedEntry, s: seq<FeedEntry>, t: seq<FeedEntry>, now: int)
    requires SortedDesc(s, now) && s != [] && Key(x, now) < Key(s[0], now)
    requires multiset(t) == multiset(s[1..]) + multiset{x}
    ensures forall j :: 0 <= j < |t| ==> Key(t[j], now) <= Key(s[0], now)
  {
    forall j | 0 <= j < |t| ensures Key(t[j], now) <= Key(s[0], now) {
      assert t[j] in multiset(t);
      if t[j] != x {
        assert t[j] in multiset(s[1..]);
        var k :| 0 <= k < |s[1..]| && s[1..][k] == t[j];
        assert s[k + 1] == t[j];
      }
    }
  }

  /** Places `x` in front of the first entry whose key does not exceed its own. */
  function Insert(x: FeedEntry, s: seq<FeedEntry>, now: int): (r: seq<FeedEntry>)
    requires SortedDesc(s, now)
    ensures SortedDesc(r, now)
    ensures multiset(r) == multiset(s) + multiset{x}
    ensures |r| == |s| + 1
    ensures r[0] == x || (s != [] && r[0] == s[0])
    decreases |s|
  {
    if s == [] || Key(x, now) >= Key(s[0], now) then
      ConsSorted(x, s, now);
      [x] + s
    else
      var t := Insert(x, s[1..], now);
      assert s == [s[0]] + s[1..];
      HeadOutranks(x, s, t, now);
      ConsSorted(s[0], t, now);
      [s[0]] + t
  }

  /** `sorted(s, key=published-or-now, reverse=True)`: insertion of each entry
      in front of the already sorted rest keeps equal keys in input order. */
  function SortDesc(s: seq<FeedEntry>, now: int): (r: seq<FeedEntry>)
    ensures SortedDesc(r, now)
    ensures multiset(r) == multiset(s)
    ensures |r| == |s|
  {
    if s == [] then []
    else
      assert s == [s[0]] + s[1..];
      Insert(s[0], SortDesc(s[1..], now), now)
  }

  lemma {:induction false} InsertKeyRun(x: FeedEntry, s: seq<FeedEntry>, now: int, k: int)
    requires SortedDesc(s, now)
    ensures KeyRun(Insert(x, s, now), k, now)
         == (if Key(x, now) == k then [x] else []) + KeyRun(s, k, now)
    decreases |s|
  {
    if s == [] || Key(x, now) >= Key(s[0], now) {
      assert ([x] + s)[1..] == s;
    } else {
      var t := Insert(x, s[1..], now);
      InsertKeyRun(x, s[1..], now, k);
      assert ([s[0]] + t)[1..] == t;
    }
  }

  /** The sort is stable: among entries with equal keys the input order survives. */
  lemma {:induction false} SortDescStable(s: seq<FeedEntry>, now: int, k: int)
    ensures KeyRun(SortDesc(s, now), k, now) == KeyRun(s, k, now)
  {
    if s != [] {
      SortDescStable(s[1..], now, k);
      InsertKeyRun(s[0], SortDesc(s[1..], now), now, k);
    }
  }

  /** Every entry of a sorted prefix ranks at least as high as every entry after it. */
  lemma PrefixDominates(s: seq<FeedEntry>, m: nat, now: int)
    requires SortedDesc(s, now) && m <= |s|
    ensures forall x, e :: x in s[..m] && e in s[m..] ==> Key(x, now) >= Key(e, now)
  {
    forall x, e | x in s[..m] && e in s[m..]
      ensures Key(x, now) >= Key(e, now)
    {
      var i :| 0 <= i < m && s[i] == x;
      var j :| 0 <= j < |s| - m && s[m..][j] == e;
      assert s[m + j] == e;
    }
  }

  /** `sorted(...)[:10]` of the README front end: the ten highest-ranked
      entries, best first; nothing left out outranks anything shown. */
  function TopTen(entries: seq<FeedEntry>, now: int): (r: seq<FeedEntry>)
    ensures |r| == Min(DisplayLimit, |entries|)
    ensures SortedDesc(r, now)
    ensures multiset(r) <= multiset(entries)
    ensures forall x, e :: x in r && e in multiset(entries) - multiset(r) ==> Key(x, now) >= Key(e, now)
  {
    var s := SortDesc(entries, now);
    var m := Min(DisplayLimit, |entries|);
    assert s == s[..m] + s[m..];
    assert multiset(entries) - multiset(s[..m]) == multiset(s[m..]);
    PrefixDominates(s, m, now);
    s[..m]
  }

  /** The entries of key `k` in a prefix of `s` lead those of `s` itself. */
  lemma {:induction false} KeyRunPrefix(s: seq<FeedEntry>, m: nat, k: int, now: int)
    requires m <= |s|
    ensures KeyRun(s[..m], k, now) <= KeyRun(s, k, now)
  {
    if m > 0 {
      KeyRunPrefix(s[1..], m - 1, k, now);
      assert s[..m][0] == s[0] && s[..m][1..] == s[1..][..m - 1];
    }
  }

  /** The cut keeps the stable order: among shown entries of equal key, the
      input order survives, and they are the first ones of that key in the input. */
  lemma TopTenStable(entries: seq<FeedEntry>, now: int, k: int)
    ensures KeyRun(TopTen(entries, now), k, now) <= KeyRun(entries, k, now)
  {
    var s := SortDesc(entries, now);
    KeyRunPrefix(s, Min(DisplayLimit, |entries|), k, now);
    SortDescStable(entries, now, k);
  }

  /** When every real timestamp lies strictly before `now`, no dated entry is
      ranked above an undated one. */
  lemma UndatedBeforeDated(entries: seq<FeedEntry>, now: int)
    requires forall e :: e in entries && e.published.Some? ==> e.published.value < now
    ensures var r := SortDesc(entries, now);
            forall i, j :: 0 <= i < j < |r| && r[j].published.None? ==> r[i].published.None?
  {
    var r := SortDesc(entries, now);
    forall i, j | 0 <= i < j < |r| && r[j].published.None?
      ensures r[i].published.None?
    {
      assert r[i] in multiset(r);
    }
  }

  /** Without that premise the claim fails: a timestamp later than `now`
      outranks an undated entry. */
  lemma FutureDatedOutranksUndated()
    ensures var undated := FeedEntry("u", "https://u", "", None, "S");
            var future := FeedEntry("f", "https://f", "", Some(5), "S");
            SortDesc([undated, future], 0) == [future, undated]
  {
  }
}
