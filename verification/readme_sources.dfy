/** `extract_source_urls` of threataggregator/readme.py over the README text:
    `re.search(r"## Sources(.*?)## ", text, re.S)` picks the section, and the
    anchors in it are folded into a name-to-URL map. */
module ReadmeSources {
  import opened Wrappers
  import opened Normalizer

  const Heading: string := "## Sources"
  const Marker: string := "## "

  /** `pat` occurs in `text` starting at position `i`. */
  predicate OccursAt(text: string, pat: string, i: nat) {
    i + |pat| <= |text| && text[i..i + |pat|] == pat
  }

  /** `i` is the first occurrence of `pat` at or after `from`. */
  ghost predicate FirstFrom(text: string, pat: string, from: nat, i: nat) {
    from <= i && OccursAt(text, pat, i) && forall j :: from <= j < i ==> !OccursAt(text, pat, j)
  }

  /** `text.find(pat, from)`, as an option. */
  function Find(text: string, pat: string, from: nat): (r: Option<nat>)
    ensures r.Some? ==> FirstFrom(text, pat, from, r.value)
    ensures r.None? ==> forall j :: from <= j ==> !OccursAt(text, pat, j)
    decreases |text| - from
  {
    if from + |pat| > |text| then None
    else if OccursAt(text, pat, from) then Some(from)
    else Find(text, pat, from + 1)
  }

  /** The pattern matches somewhere: a heading, then a marker starting at or
      after the heading's end. */
  ghost predicate RegexMatches(text: string) {
    exists p: nat, q: nat :: OccursAt(text, Heading, p) && p + |Heading| <= q && OccursAt(text, Marker, q)
  }

  lemma CharAt(text: string, pat: string, i: nat, d: nat)
    requires OccursAt(text, pat, i) && d < |pat|
    ensures text[i + d] == pat[d]
  {
    assert text[i..i + |pat|][d] == text[i + d];
  }

  /** Two occurrences of the heading never overlap. */
  lemma HeadingsDoNotOverlap(text: string, p1: nat, p2: nat)
    requires OccursAt(text, Heading, p1) && OccursAt(text, Heading, p2) && p1 < p2
    ensures p1 + |Heading| <= p2
  {
    if p2 < p1 + |Heading| {
      if p2 == p1 + 1 {
        CharAt(text, Heading, p2, 1);
        CharAt(text, Heading, p1, 2);
      } else {
        CharAt(text, Heading, p2, 0);
        CharAt(text, Heading, p1, p2 - p1);
      }
    }
  }

  /** `p` is the first heading and `q` the first marker after its end. */
  ghost predicate SectionBounds(text: string, p: nat, q: nat) {
    FirstFrom(text, Heading, 0, p) && FirstFrom(text, Marker, p + |Heading|, q)
  }

  /** `match.group(1)`: the text strictly between the end of the first
      "## Sources" and the next "## " after it (across lines), or `None`
      when the pattern matches nowhere. Leftmost start and lazy group mean the
      first heading and the nearest marker. */
  function SourcesSection(text: string): (r: Option<string>)
    ensures r.Some? <==> RegexMatches(text)
    ensures r.Some? ==>
              exists p: nat, q: nat :: SectionBounds(text, p, q) && r.value == text[p + |Heading|..q]
  {
    match Find(text, Heading, 0)
    case None => None
    case Some(p) =>
      match Find(text, Marker, p + |Heading|)
      case None =>
        assert !RegexMatches(text) by {
          forall p2: nat, q: nat | OccursAt(text, Heading, p2) && p2 + |Heading| <= q
            ensures !OccursAt(text, Marker, q)
          {
            if p2 != p {
              HeadingsDoNotOverlap(text, p, p2);
            }
          }
        }
        None
      case Some(q) =>
        assert SectionBounds(text, p, q);
        Some(text[p + |Heading|..q])
  }

  /** An `<a>` element of the section: its stripped text and its `href`
      attribute, if it has one. */
  datatype Anchor = Anchor(text: string, href: Option<string>)

  /** The last position holding an anchor with text `k` and an `href`. */
  ghost predicate LastLinkFor(anchors: seq<Anchor>, k: string, i: nat) {
    && i < |anchors|
    && anchors[i].text == k && anchors[i].href.Some?
    && forall j :: i < j < |anchors| ==> !(anchors[j].text == k && anchors[j].href.Some?)
  }

  /** An anchor that is not a link for `k` leaves the last link for `k` where it was. */
  lemma LastLinkKept(anchors: seq<Anchor>, k: string, i: nat)
    requires anchors != []
    requires LastLinkFor(anchors[..|anchors| - 1], k, i)
    requires !(anchors[|anchors| - 1].text == k && anchors[|anchors| - 1].href.Some?)
    ensures LastLinkFor(anchors, k, i)
  {
  }

  /** The loop `links[a.get_text(strip=True)] = a["href"]` over the anchors
      that carry an `href`: the keys are exactly their texts, and each key maps
      to the `href` of the last such anchor with that text. */
  function LinkMap(anchors: seq<Anchor>): (m: map<string, string>)
    ensures forall k :: k in m <==> exists i :: 0 <= i < |anchors| && anchors[i].text == k && anchors[i].href.Some?
    ensures forall k :: k in m ==> exists i: nat :: LastLinkFor(anchors, k, i) && m[k] == anchors[i].href.value
    decreases |anchors|
  {
    if anchors == [] then map[]
    else
      var init := anchors[..|anchors| - 1];
      var a := anchors[|anchors| - 1];
      var m := LinkMap(init);
      assert forall i :: 0 <= i < |init| ==> init[i] == anchors[i];
      var m' := if a.href.Some? then m[a.text := a.href.value] else m;
      forall k | k in m'
        ensures exists i: nat :: LastLinkFor(anchors, k, i) && m'[k] == anchors[i].href.value
      {
        if a.href.Some? && k == a.text {
          assert LastLinkFor(anchors, k, |anchors| - 1);
        } else {
          var i: nat :| LastLinkFor(init, k, i) && m[k] == init[i].href.value;
          LastLinkKept(anchors, k, i);
        }
      }
      m'
  }

  /** The keys of `links` in the order the dict keeps them: a text enters at
      its first assignment, and later assignments change only its value. */
  function KeyOrder(anchors: seq<Anchor>): (ks: seq<string>)
    ensures forall k :: k in ks <==> exists i :: 0 <= i < |anchors| && anchors[i].text == k && anchors[i].href.Some?
    ensures forall a, b :: 0 <= a < b < |ks| ==> ks[a] != ks[b]
    decreases |anchors|
  {
    if anchors == [] then []
    else
      var init := anchors[..|anchors| - 1];
      var a := anchors[|anchors| - 1];
      var ks := KeyOrder(init);
      assert forall i :: 0 <= i < |init| ==> init[i] == anchors[i];
      if a.href.Some? && a.text !in ks then ks + [a.text] else ks
  }

  /** Keys keep the order of their first insertion: the keys of any prefix of
      the anchors lead the keys of all of them. */
  lemma {:induction false} KeyOrderGrows(anchors: seq<Anchor>, n: nat)
    requires n <= |anchors|
    ensures KeyOrder(anchors[..n]) <= KeyOrder(anchors)
    decreases |anchors| - n
  {
    if n == |anchors| {
      assert anchors[..n] == anchors;
    } else {
      KeyOrderGrows(anchors, n + 1);
      assert anchors[..n + 1][..n] == anchors[..n];
    }
  }

  /** `links.items()`: one source per key in insertion order, each with the
      `href` of the last anchor carrying that text. */
  function Registry(anchors: seq<Anchor>): (r: seq<Source>)
    ensures |r| == |KeyOrder(anchors)|
    ensures forall i :: 0 <= i < |r| ==> r[i].name == KeyOrder(anchors)[i]
    ensures forall i :: 0 <= i < |r| ==> r[i].name in LinkMap(anchors) && r[i].url == LinkMap(anchors)[r[i].name]
    ensures forall k :: k in LinkMap(anchors) <==> exists i :: 0 <= i < |r| && r[i].name == k
    ensures forall i, j :: 0 <= i < j < |r| ==> r[i].name != r[j].name
  {
    var ks := KeyOrder(anchors);
    var m := LinkMap(anchors);
    assert forall k :: k in m <==> k in ks;
    var r := seq(|ks|, i requires 0 <= i < |ks| => Source(ks[i], m[ks[i]]));
    r
  }

  /** `extract_source_urls` on the README's text, as the registry its caller
      iterates. `anchorsOf` stands for parsing the section as HTML and listing
      its `<a>` elements in document order. No match means no sources. */
  function ExtractSourceUrls(text: string, anchorsOf: string -> seq<Anchor>): (r: seq<Source>)
    ensures !RegexMatches(text) ==> r == []
    ensures RegexMatches(text) ==> r == Registry(anchorsOf(SourcesSection(text).value))
  {
    match SourcesSection(text)
    case None => []
    case Some(section) => Registry(anchorsOf(section))
  }
}
