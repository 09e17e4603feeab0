/** The seen-link filter of the continuous feed front ends (`display_entries`
    with a `seen_links` set): walk the ranked entries, skip links already seen,
    record and emit the others, stop after ten. */
module Dedup {
  import opened Wrappers
  import opened Entries
  import opened Ranking

  /** What one display cycle emits, and the seen-link set it leaves behind. */
  datatype Selection = Selection(shown: seq<FeedEntry>, seen: set<string>)

  /** `a` is `b` with some entries deleted. */
  ghost predicate IsSubseq(a: seq<FeedEntry>, b: seq<FeedEntry>)
    decreases |b|
  {
    if a == [] then true
    else if b == [] then false
    else (a[0] == b[0] && IsSubseq(a[1..], b[1..])) || IsSubseq(a, b[1..])
  }

  lemma {:induction false} SubseqMembers(a: seq<FeedEntry>, b: seq<FeedEntry>)
    requires IsSubseq(a, b)
    ensures forall x :: x in a ==> x in b
    decreases |b|
  {
    if a != [] {
      if a[0] == b[0] && IsSubseq(a[1..], b[1..]) {
        SubseqMembers(a[1..], b[1..]);
        assert a == [a[0]] + a[1..];
        assert b == [b[0]] + b[1..];
      } else {
        SubseqMembers(a, b[1..]);
        assert b == [b[0]] + b[1..];
      }
    }
  }

  /** The walk over an already ranked sequence with `room` emissions left. */
  function Walk(sorted: seq<FeedEntry>, seen: set<string>, room: nat): Selection
    decreases |sorted|
  {
    if room == 0 || sorted == [] then Selection([], seen)
    else if sorted[0].link in seen then Walk(sorted[1..], seen, room)
    else
      var rest := Walk(sorted[1..], seen + {sorted[0].link}, room - 1);
      Selection([sorted[0]] + rest.shown, rest.seen)
  }

  /** The walk emits at most `room` entries, none with a link seen before, and
      grows the seen set by exactly the emitted links. */
  lemma {:induction false} WalkRecordsShown(sorted: seq<FeedEntry>, seen: set<string>, room: nat)
    ensures var r := Walk(sorted, seen, room);
            && |r.shown| <= room
            && (forall e :: e in r.shown ==> e.link !in seen)
            && r.seen == seen + LinkSet(r.shown)
    decreases |sorted|
  {
    if room == 0 || sorted == [] {
    } else if sorted[0].link in seen {
      WalkRecordsShown(sorted[1..], seen, room);
    } else {
      var rest := Walk(sorted[1..], seen + {sorted[0].link}, room - 1);
      WalkRecordsShown(sorted[1..], seen + {sorted[0].link}, room - 1);
      assert LinkSet([sorted[0]] + rest.shown) == {sorted[0].link} + LinkSet(rest.shown);
    }
  }

  /** The emitted links are pairwise distinct, even when the input repeats a link. */
  lemma {:induction false} WalkLinksDistinct(sorted: seq<FeedEntry>, seen: set<string>, room: nat)
    ensures LinksDistinct(Walk(sorted, seen, room).shown)
    decreases |sorted|
  {
    if room == 0 || sorted == [] {
    } else if sorted[0].link in seen {
      WalkLinksDistinct(sorted[1..], seen, room);
    } else {
      var rest := Walk(sorted[1..], seen + {sorted[0].link}, room - 1);
      WalkLinksDistinct(sorted[1..], seen + {sorted[0].link}, room - 1);
      WalkRecordsShown(sorted[1..], seen + {sorted[0].link}, room - 1);
      var shown := [sorted[0]] + rest.shown;
      forall i, j | 0 <= i < j < |shown| ensures shown[i].link != shown[j].link {
        if i == 0 {
          assert shown[j] == rest.shown[j - 1] && shown[j] in rest.shown;
        } else {
          assert shown[i] == rest.shown[i - 1] && shown[j] == rest.shown[j - 1];
        }
      }
    }
  }

  /** The emitted entries appear in the ranked order. */
  lemma {:induction false} WalkKeepsOrder(sorted: seq<FeedEntry>, seen: set<string>, room: nat)
    ensures IsSubseq(Walk(sorted, seen, room).shown, sorted)
    decreases |sorted|
  {
    if room == 0 || sorted == [] {
    } else if sorted[0].link in seen {
      WalkKeepsOrder(sorted[1..], seen, room);
      var r := Walk(sorted[1..], seen, room);
      assert r.shown != [] ==> IsSubseq(r.shown, sorted);
    } else {
      var rest := Walk(sorted[1..], seen + {sorted[0].link}, room - 1);
      WalkKeepsOrder(sorted[1..], seen + {sorted[0].link}, room - 1);
      var shown := [sorted[0]] + rest.shown;
      assert shown[0] == sorted[0] && shown[1..] == rest.shown;
    }
  }

  /** While room remains the walk passes over no eligible entry: stopping short
      of `room` means every input link ended up seen. */
  lemma {:induction false} WalkExhausts(sorted: seq<FeedEntry>, seen: set<string>, room: nat)
    ensures var r := Walk(sorted, seen, room);
            |r.shown| < room ==> LinkSet(sorted) <= r.seen
    decreases |sorted|
  {
    if room == 0 || sorted == [] {
    } else if sorted[0].link in seen {
      WalkExhausts(sorted[1..], seen, room);
      WalkRecordsShown(sorted[1..], seen, room);
      assert sorted == [sorted[0]] + sorted[1..];
    } else {
      WalkExhausts(sorted[1..], seen + {sorted[0].link}, room - 1);
      WalkRecordsShown(sorted[1..], seen + {sorted[0].link}, room - 1);
      assert sorted == [sorted[0]] + sorted[1..];
    }
  }

  /** The entries a walk without a cap would emit: `sorted[i]` is kept exactly
      when its link is neither in `seen` nor carried by an earlier kept entry. */
  function Eligible(sorted: seq<FeedEntry>, seen: set<string>): seq<FeedEntry>
    decreases |sorted|
  {
    if sorted == [] then []
    else if sorted[0].link in seen then Eligible(sorted[1..], seen)
    else [sorted[0]] + Eligible(sorted[1..], seen + {sorted[0].link})
  }

  /** The walk passes over nothing it may show: it emits exactly the first
      `room` eligible entries, the first entry for each unseen link. */
  lemma {:induction false} WalkTakesFirstEligible(sorted: seq<FeedEntry>, seen: set<string>, room: nat)
    ensures var el := Eligible(sorted, seen);
            Walk(sorted, seen, room).shown == el[..Min(room, |el|)]
    decreases |sorted|
  {
    if room == 0 || sorted == [] {
    } else if sorted[0].link in seen {
      WalkTakesFirstEligible(sorted[1..], seen, room);
    } else {
      var seen' := seen + {sorted[0].link};
      WalkTakesFirstEligible(sorted[1..], seen', room - 1);
      var tail := Eligible(sorted[1..], seen');
      var el := [sorted[0]] + tail;
      assert el[..Min(room, |el|)] == [sorted[0]] + tail[..Min(room - 1, |tail|)];
    }
  }

  /** One call of the feed front ends' `display_entries`: rank, then walk with
      room for ten. At most ten entries, pairwise distinct links, none seen
      before; the seen set grows by exactly the emitted links; the emitted
      entries keep the ranked order; fewer than ten are emitted only when
      every input link ends up seen; and what is emitted is the first ten
      eligible entries of the ranking. */
  function Select(entries: seq<FeedEntry>, seen: set<string>, now: int): (r: Selection)
    ensures |r.shown| <= DisplayLimit
    ensures LinksDistinct(r.shown)
    ensures forall e :: e in r.shown ==> e.link !in seen && e in entries
    ensures r.seen == seen + LinkSet(r.shown)
    ensures IsSubseq(r.shown, SortDesc(entries, now))
    ensures |r.shown| < DisplayLimit ==> LinkSet(entries) <= r.seen
    ensures var el := Eligible(SortDesc(entries, now), seen);
            r.shown == el[..Min(DisplayLimit, |el|)]
  {
    var sorted := SortDesc(entries, now);
    var r := Walk(sorted, seen, DisplayLimit);
    WalkRecordsShown(sorted, seen, DisplayLimit);
    WalkLinksDistinct(sorted, seen, DisplayLimit);
    WalkKeepsOrder(sorted, seen, DisplayLimit);
    WalkExhausts(sorted, seen, DisplayLimit);
    WalkTakesFirstEligible(sorted, seen, DisplayLimit);
    SubseqMembers(r.shown, sorted);
    assert forall e :: e in sorted <==> e in multiset(sorted);
    assert LinkSet(entries) == LinkSet(sorted);
    r
  }

  /** One step of the walk over a non-empty input with room left. */
  lemma WalkStep(sorted: seq<FeedEntry>, seen: set<string>, room: nat)
    requires room > 0 && sorted != []
    ensures Walk(sorted, seen, room)
         == if sorted[0].link in seen then Walk(sorted[1..], seen, room)
            else var rest := Walk(sorted[1..], seen + {sorted[0].link}, room - 1);
                 Selection([sorted[0]] + rest.shown, rest.seen)
  {
  }

  /** Loop state of `display_entries` after `i` ranked entries: what is shown
      so far, followed by what the walk over the rest would add, is `target`. */
  ghost predicate Tracks(target: Selection, sorted: seq<FeedEntry>, i: nat, shown: seq<FeedEntry>, seenAfter: set<string>) {
    && i <= |sorted| && |shown| <= DisplayLimit
    && var tail := Walk(sorted[i..], seenAfter, DisplayLimit - |shown|);
       target == Selection(shown + tail.shown, tail.seen)
  }

  /** One iteration: a seen link is skipped, a new one is recorded and shown. */
  lemma TracksStep(target: Selection, sorted: seq<FeedEntry>, i: nat, shown: seq<FeedEntry>, seenAfter: set<string>)
    requires i < |sorted| && |shown| < DisplayLimit
    requires Tracks(target, sorted, i, shown, seenAfter)
    ensures sorted[i].link in seenAfter ==> Tracks(target, sorted, i + 1, shown, seenAfter)
    ensures sorted[i].link !in seenAfter ==>
              Tracks(target, sorted, i + 1, shown + [sorted[i]], seenAfter + {sorted[i].link})
  {
    var e := sorted[i];
    WalkStep(sorted[i..], seenAfter, DisplayLimit - |shown|);
    assert sorted[i..][0] == e && sorted[i..][1..] == sorted[i + 1..];
    if e.link !in seenAfter {
      var next := Walk(sorted[i + 1..], seenAfter + {e.link}, DisplayLimit - |shown| - 1);
      assert shown + ([e] + next.shown) == (shown + [e]) + next.shown;
    }
  }

  /** Once the input is used up or ten entries are shown, the loop state is the target. */
  lemma TracksDone(target: Selection, sorted: seq<FeedEntry>, i: nat, shown: seq<FeedEntry>, seenAfter: set<string>)
    requires Tracks(target, sorted, i, shown, seenAfter)
    requires i == |sorted| || |shown| == DisplayLimit
    ensures target == Selection(shown, seenAfter)
  {
    assert shown + [] == shown;
  }

  /** The loop of `display_entries`, statement by statement; it computes `Select`. */
  method DisplayEntries(entries: seq<FeedEntry>, seen: set<string>, now: int)
    returns (shown: seq<FeedEntry>, seenAfter: set<string>)
    ensures Selection(shown, seenAfter) == Select(entries, seen, now)
  {
    var sorted := SortDesc(entries, now);
    ghost var target := Walk(sorted, seen, DisplayLimit);
    shown := [];
    seenAfter := seen;
    assert sorted[0..] == sorted && [] + target.shown == target.shown;
    var i := 0;
    while i < |sorted|
      invariant 0 <= i <= |sorted|
      invariant |shown| < DisplayLimit
      invariant Tracks(target, sorted, i, shown, seenAfter)
    {
      var e := sorted[i];
      TracksStep(target, sorted, i, shown, seenAfter);
      i := i + 1;
      if e.link in seenAfter {
        continue;
      }
      seenAfter := seenAfter + {e.link};
      shown := shown + [e];
      if |shown| >= DisplayLimit {
        break;
      }
    }
    TracksDone(target, sorted, i, shown, seenAfter);
  }

  /** Re-running on entries whose links are all seen emits nothing and leaves
      the set unchanged. */
  lemma AllSeenSelectsNothing(entries: seq<FeedEntry>, seen: set<string>, now: int)
    requires LinkSet(entries) <= seen
    ensures Select(entries, seen, now) == Selection([], seen)
  {
  }

  lemma {:induction false} WalkFresh(sorted: seq<FeedEntry>, seen: set<string>, room: nat)
    requires LinksDistinct(sorted)
    requires LinkSet(sorted) !! seen
    ensures Walk(sorted, seen, room).shown == sorted[..Min(room, |sorted|)]
    decreases |sorted|
  {
    if room != 0 && sorted != [] {
      var head := sorted[0];
      assert head in sorted;
      var tail := sorted[1..];
      assert LinkSet(tail) <= LinkSet(sorted);
      assert head.link !in LinkSet(tail) by {
        forall e | e in tail ensures e.link != head.link {
          var j :| 0 <= j < |tail| && tail[j] == e;
          assert sorted[j + 1] == e;
        }
      }
      WalkFresh(tail, seen + {head.link}, room - 1);
      assert sorted[..Min(room, |sorted|)] == [head] + tail[..Min(room - 1, |tail|)];
    }
  }

  lemma ConsLinks(h: FeedEntry, t: seq<FeedEntry>)
    ensures LinkSet([h] + t) == {h.link} + LinkSet(t)
    ensures LinksDistinct([h] + t) <==> h.link !in LinkSet(t) && LinksDistinct(t)
  {
    var s := [h] + t;
    assert forall e :: e in s <==> e == h || e in t;
    if LinksDistinct(s) {
      forall i, j | 0 <= i < j < |t| ensures t[i].link != t[j].link {
        assert s[i + 1] == t[i] && s[j + 1] == t[j];
      }
      forall e | e in t ensures e.link != h.link {
        var j :| 0 <= j < |t| && t[j] == e;
        assert s[0] == h && s[j + 1] == e;
      }
    }
    if h.link !in LinkSet(t) && LinksDistinct(t) {
      forall i, j | 0 <= i < j < |s| ensures s[i].link != s[j].link {
        assert s[j] == t[j - 1] && t[j - 1] in t;
        if i > 0 {
          assert s[i] == t[i - 1];
        }
      }
    }
  }

  lemma {:induction false} InsertKeepsLinksDistinct(x: FeedEntry, s: seq<FeedEntry>, now: int)
    requires SortedDesc(s, now)
    requires LinksDistinct(s) && x.link !in LinkSet(s)
    ensures LinksDistinct(Insert(x, s, now))
    ensures LinkSet(Insert(x, s, now)) == LinkSet(s) + {x.link}
    decreases |s|
  {
    if s == [] || Key(x, now) >= Key(s[0], now) {
      ConsLinks(x, s);
    } else {
      var tail := s[1..];
      assert s == [s[0]] + tail;
      ConsLinks(s[0], tail);
      InsertKeepsLinksDistinct(x, tail, now);
      ConsLinks(s[0], Insert(x, tail, now));
    }
  }

  lemma {:induction false} SortKeepsLinksDistinct(s: seq<FeedEntry>, now: int)
    requires LinksDistinct(s)
    ensures LinksDistinct(SortDesc(s, now))
    ensures LinkSet(SortDesc(s, now)) == LinkSet(s)
  {
    if s != [] {
      var tail := s[1..];
      assert s == [s[0]] + tail;
      ConsLinks(s[0], tail);
      SortKeepsLinksDistinct(tail, now);
      InsertKeepsLinksDistinct(s[0], SortDesc(tail, now), now);
    }
  }

  /** With no repeated and no previously seen link, the seen-link filter shows
      exactly what the one-shot README view shows: the ten best-ranked entries. */
  lemma FreshSelectionIsTopTen(entries: seq<FeedEntry>, seen: set<string>, now: int)
    requires LinksDistinct(entries)
    requires LinkSet(entries) !! seen
    ensures Select(entries, seen, now).shown == TopTen(entries, now)
  {
    var sorted := SortDesc(entries, now);
    SortKeepsLinksDistinct(entries, now);
    assert forall e :: e in sorted <==> e in multiset(sorted);
    assert LinkSet(sorted) == LinkSet(entries);
    WalkFresh(sorted, seen, DisplayLimit);
  }

  /** Given seen = {"https://a"} and entries linking "https://a" and
      "https://b", only the "https://b" entry is emitted. */
  lemma SeenLinkIsSkipped()
    ensures var a := FeedEntry("A", "https://a", "", None, "S");
            var b := FeedEntry("B", "https://b", "", None, "S");
            Select([a, b], {"https://a"}, 0) == Selection([b], {"https://a", "https://b"})
  {
  }

  /** `Select` is the walk over the ranking, with room for ten. */
  lemma SelectIsWalk(entries: seq<FeedEntry>, seen: set<string>, now: int)
    ensures Select(entries, seen, now) == Walk(SortDesc(entries, now), seen, DisplayLimit)
  {
  }

  lemma DuplicateRanking(a: FeedEntry, b: FeedEntry)
    requires a.published == Some(2) && b.published == Some(1)
    ensures SortDesc([b, a], 0) == [a, b]
  {
    assert SortDesc([a], 0) == [a];
    assert Insert(b, [a], 0) == [a] + Insert(b, [], 0) == [a, b];
    assert [b, a][1..] == [a];
  }

  lemma DuplicateWalk(a: FeedEntry, b: FeedEntry)
    requires a.link == "l" && b.link == "l"
    ensures Walk([a, b], {}, DisplayLimit) == Selection([a], {"l"})
  {
    assert Walk([b], {"l"}, 9) == Selection([], {"l"}) by {
      assert [b][1..] == [];
    }
    assert [a, b][1..] == [b] && {} + {a.link} == {"l"};
    assert [a] + [] == [a];
  }

  /** Two entries sharing a link: only the better-ranked one is shown, although
      showing the other alone would also keep links distinct and unseen. */
  lemma DuplicateLinkShowsFirst()
    ensures var a := FeedEntry("A", "l", "", Some(2), "S");
            var b := FeedEntry("B", "l", "", Some(1), "S");
            Select([b, a], {}, 0) == Selection([a], {"l"})
  {
    var a := FeedEntry("A", "l", "", Some(2), "S");
    var b := FeedEntry("B", "l", "", Some(1), "S");
    SelectIsWalk([b, a], {}, 0);
    DuplicateRanking(a, b);
    DuplicateWalk(a, b);
  }

  /** What a sequence of polling cycles shows, and the seen set it ends with. */
  datatype PollResult = PollResult(shown: seq<seq<FeedEntry>>, seen: set<string>)

  /** All links shown across `cycles`. */
  function ShownLinks(cycles: seq<seq<FeedEntry>>): set<string> {
    if cycles == [] then {} else LinkSet(cycles[0]) + ShownLinks(cycles[1..])
  }

  lemma ShownLinksCons(h: seq<FeedEntry>, t: seq<seq<FeedEntry>>)
    ensures ShownLinks([h] + t) == LinkSet(h) + ShownLinks(t)
  {
    assert ([h] + t)[0] == h && ([h] + t)[1..] == t;
  }

  /** The poll's invariants survive putting one more cycle in front. */
  lemma PollCons(h: seq<FeedEntry>, t: seq<seq<FeedEntry>>, seen: set<string>, seen': set<string>, final: set<string>)
    requires forall e :: e in h ==> e.link !in seen
    requires seen' == seen + LinkSet(h)
    requires final == seen' + ShownLinks(t)
    requires forall c :: 0 <= c < |t| ==> LinkSet(t[c]) !! seen'
    requires forall c1, c2 :: 0 <= c1 < c2 < |t| ==> LinkSet(t[c1]) !! LinkSet(t[c2])
    ensures var s := [h] + t;
            && final == seen + ShownLinks(s)
            && (forall c :: 0 <= c < |s| ==> LinkSet(s[c]) !! seen)
            && (forall c1, c2 :: 0 <= c1 < c2 < |s| ==> LinkSet(s[c1]) !! LinkSet(s[c2]))
  {
    var s := [h] + t;
    ShownLinksCons(h, t);
    assert forall c :: 0 < c < |s| ==> s[c] == t[c - 1];
  }

  /** The polling loop: one `seen_links` set created before the first cycle and
      threaded through every later one. Nothing shown was seen before the
      first cycle, and no link is shown in two different cycles. */
  function Poll(batches: seq<seq<FeedEntry>>, nows: seq<int>, seen: set<string>): (r: PollResult)
    requires |nows| == |batches|
    ensures |r.shown| == |batches|
    ensures r.seen == seen + ShownLinks(r.shown)
    ensures forall c :: 0 <= c < |r.shown| ==> LinkSet(r.shown[c]) !! seen
    ensures forall c1, c2 :: 0 <= c1 < c2 < |r.shown| ==> LinkSet(r.shown[c1]) !! LinkSet(r.shown[c2])
    decreases |batches|
  {
    if batches == [] then PollResult([], seen)
    else
      var first := Select(batches[0], seen, nows[0]);
      var rest := Poll(batches[1..], nows[1..], first.seen);
      PollCons(first.shown, rest.shown, seen, first.seen, rest.seen);
      var shown := [first.shown] + rest.shown;
      PollResult(shown, rest.seen)
  }

  /** The first cycle selects from its batch against the initial set. */
  lemma PollFirstCycle(batches: seq<seq<FeedEntry>>, nows: seq<int>, seen: set<string>)
    requires |nows| == |batches| && batches != []
    ensures var r := Poll(batches, nows, seen);
            r.shown[0] == Select(batches[0], seen + ShownLinks(r.shown[..0]), nows[0]).shown
  {
    var r := Poll(batches, nows, seen);
    assert seen + ShownLinks(r.shown[..0]) == seen;
  }

  /** One step of the poll: the first cycle's selection, then the rest of
      the poll from the set that selection leaves. */
  lemma PollStep(batches: seq<seq<FeedEntry>>, nows: seq<int>, seen: set<string>)
    requires |nows| == |batches| && batches != []
    ensures var first := Select(batches[0], seen, nows[0]);
            Poll(batches, nows, seen).shown == [first.shown] + Poll(batches[1..], nows[1..], first.seen).shown
  {
  }

  /** Cycle `c` of `[h] + t` is cycle `c - 1` of `t`, and the set it starts
      from is the one `t` starts from plus `t`'s earlier links. */
  lemma CycleShift(h: seq<FeedEntry>, t: seq<seq<FeedEntry>>, seen: set<string>, seen': set<string>, c: nat)
    requires seen' == seen + LinkSet(h) && 0 < c <= |t|
    ensures ([h] + t)[c] == t[c - 1]
    ensures seen + ShownLinks(([h] + t)[..c]) == seen' + ShownLinks(t[..c - 1])
  {
    assert ([h] + t)[..c] == [h] + t[..c - 1];
    ShownLinksCons(h, t[..c - 1]);
  }

  /** Every cycle shows exactly what `display_entries` selects from that
      cycle's batch against the initial set plus every link shown in earlier
      cycles, so an entry first fetched in a later cycle can still be shown. */
  lemma {:induction false} PollCycles(batches: seq<seq<FeedEntry>>, nows: seq<int>, seen: set<string>, c: nat)
    requires |nows| == |batches| && c < |batches|
    ensures var r := Poll(batches, nows, seen);
            r.shown[c] == Select(batches[c], seen + ShownLinks(r.shown[..c]), nows[c]).shown
    decreases c
  {
    if c == 0 {
      PollFirstCycle(batches, nows, seen);
    } else {
      var first := Select(batches[0], seen, nows[0]);
      var rest := Poll(batches[1..], nows[1..], first.seen);
      PollCycles(batches[1..], nows[1..], first.seen, c - 1);
      PollStep(batches, nows, seen);
      CycleShift(first.shown, rest.shown, seen, first.seen, c);
    }
  }
}
