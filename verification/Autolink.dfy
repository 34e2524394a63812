/** internal/autolink/autolink.go: cross-references in one text node. The
    matches of the three patterns are given, as are the resolver's answers; a
    reference's number is passed to the resolver as its digits. */
module Autolink {
  import Sorting
  import opened Text

  datatype Span = Span(start: nat, end: nat, url: string, text: string)

  /** owner/name#N: text[start..slash], text[slash+1..kind], text[kind] and the digits up to `end`. */
  datatype CrossRef = CrossRef(start: nat, slash: nat, kind: nat, end: nat)

  /** #N, with whatever character bounds it from `start`. */
  datatype BareRef = BareRef(start: nat, kind: nat, end: nat)

  /** @user, with whatever character bounds it from `start`. */
  datatype Mention = Mention(start: nat, at: nat, end: nat)

  /** A text node of a page of owner/name, and what was found in it. */
  datatype Doc = Doc(
    text: string, owner: string, name: string,
    cross: seq<CrossRef>, bare: seq<BareRef>, mentions: seq<Mention>,
    refURL: (string, string, char, string) -> string, userURL: string -> string)

  /** FindAll: matches of one pattern stand in the text, in order, and do not overlap. */
  ghost predicate Found(d: Doc) {
    && (forall i | 0 <= i < |d.cross| ::
          d.cross[i].start < d.cross[i].slash < d.cross[i].kind < d.cross[i].end <= |d.text|)
    && (forall i, j | 0 <= i < j < |d.cross| :: d.cross[i].end <= d.cross[j].start)
    && (forall i | 0 <= i < |d.bare| :: d.bare[i].start <= d.bare[i].kind < d.bare[i].end <= |d.text|)
    && (forall i, j | 0 <= i < j < |d.bare| :: d.bare[i].end <= d.bare[j].start)
    && (forall i | 0 <= i < |d.mentions| ::
          && d.mentions[i].start <= d.mentions[i].at < d.mentions[i].end <= |d.text|
          && d.text[d.mentions[i].at] == '@')
    && (forall i, j | 0 <= i < j < |d.mentions| :: d.mentions[i].end <= d.mentions[j].start)
  }

  predicate Overlap(spans: seq<Span>, start: nat, end: nat) {
    exists i | 0 <= i < |spans| :: start < spans[i].end && end > spans[i].start
  }

  method Overlaps(spans: seq<Span>, start: nat, end: nat) returns (yes: bool)
    ensures yes == Overlap(spans, start, end)
  {
    for i := 0 to |spans|
      invariant forall k | 0 <= k < i :: !(start < spans[k].end && end > spans[k].start)
    {
      if start < spans[i].end && end > spans[i].start { return true; }
    }
    return false;
  }

  /** strings.TrimRight(s, "._-"). */
  function TrimRight(s: string): (t: string)
    ensures t <= s
  {
    if s != "" && s[|s|-1] in {'.', '_', '-'} then TrimRight(s[..|s|-1]) else s
  }

  lemma {:induction false} Trimmed(s: string)
    ensures var t := TrimRight(s);
      && (t == "" || t[|t|-1] !in {'.', '_', '-'})
      && forall i | |t| <= i < |s| :: s[i] in {'.', '_', '-'}
  {
    if s != "" && s[|s|-1] in {'.', '_', '-'} { Trimmed(s[..|s|-1]); }
  }

  /** The name that resolves: as written, or without the punctuation after it. */
  function Who(d: Doc, name: string): (who: Option<string>)
    ensures who.Some? ==> who.value <= name && d.userURL(who.value) != ""
  {
    var trimmed := TrimRight(name);
    if d.userURL(name) != "" then Some(name)
    else if trimmed != "" && trimmed != name && d.userURL(trimmed) != "" then Some(trimmed)
    else None
  }

  // ----------------------------------------------------------------- what is linked

  function CrossURL(d: Doc, m: CrossRef): string
    requires m.start < m.slash < m.kind < m.end <= |d.text|
  {
    d.refURL(d.text[m.start..m.slash], d.text[m.slash+1..m.kind], d.text[m.kind], d.text[m.kind+1..m.end])
  }

  function BareURL(d: Doc, m: BareRef): string
    requires m.kind < m.end <= |d.text|
  {
    d.refURL(d.owner, d.name, d.text[m.kind], d.text[m.kind+1..m.end])
  }

  /** A bare reference links as the same one written out with the page's owner and name. */
  lemma BareAsCross(d: Doc, m: BareRef, e: Doc, c: CrossRef)
    requires m.kind < m.end <= |d.text| && c.start < c.slash < c.kind < c.end <= |e.text| && e.refURL == d.refURL
    requires e.text[c.start..c.end] == d.owner + "/" + d.name + d.text[m.kind..m.end]
    requires c.slash == c.start + |d.owner| && c.kind == c.slash + 1 + |d.name|
    ensures BareURL(d, m) == CrossURL(e, c)
  {
    var written := d.owner + "/" + d.name + d.text[m.kind..m.end];
    assert e.text[c.start..c.slash] == written[..|d.owner|] == d.owner;
    assert e.text[c.slash+1..c.kind] == written[|d.owner|+1..|d.owner|+1+|d.name|] == d.name;
    assert e.text[c.kind..c.end] == written[|d.owner|+1+|d.name|..] == d.text[m.kind..m.end];
    assert e.text[c.kind] == e.text[c.kind..c.end][0] && d.text[m.kind] == d.text[m.kind..m.end][0];
    assert e.text[c.kind+1..c.end] == e.text[c.kind..c.end][1..];
    assert d.text[m.kind+1..m.end] == d.text[m.kind..m.end][1..];
  }

  /** The links of the first `k` matches. */
  ghost function Flat(links: seq<seq<Span>>, k: nat): seq<Span>
    requires k <= |links|
  {
    if k == 0 then [] else Flat(links, k - 1) + links[k-1]
  }

  /** A cross-reference: itself, when it resolves. */
  ghost function CrossLink(d: Doc, k: nat): seq<Span>
    requires Found(d) && k < |d.cross|
  {
    var m := d.cross[k];
    if CrossURL(d, m) == "" then [] else [Span(m.start, m.end, CrossURL(d, m), d.text[m.start..m.end])]
  }

  ghost function CrossLinks(d: Doc): (links: seq<seq<Span>>)
    requires Found(d)
    ensures |links| == |d.cross| && forall i: nat | i < |links| :: links[i] == CrossLink(d, i)
  {
    seq(|d.cross|, i requires 0 <= i < |d.cross| => CrossLink(d, i))
  }

  ghost function Crosses(d: Doc): seq<Span>
    requires Found(d)
  {
    Flat(CrossLinks(d), |d.cross|)
  }

  /** A bare reference: itself, when it resolves and is no part of a
      cross-reference linked. */
  ghost function BareLink(d: Doc, k: nat): seq<Span>
    requires Found(d) && k < |d.bare|
  {
    var m := d.bare[k];
    if BareURL(d, m) == "" || Overlap(Crosses(d), m.kind, m.end) then []
    else [Span(m.kind, m.end, BareURL(d, m), d.text[m.kind..m.end])]
  }

  ghost function BareLinks(d: Doc): (links: seq<seq<Span>>)
    requires Found(d)
    ensures |links| == |d.bare| && forall i: nat | i < |links| :: links[i] == BareLink(d, i)
  {
    seq(|d.bare|, i requires 0 <= i < |d.bare| => BareLink(d, i))
  }

  /** Both kinds of reference. */
  ghost function References(d: Doc): seq<Span>
    requires Found(d)
  {
    Crosses(d) + Flat(BareLinks(d), |d.bare|)
  }

  predicate Within(d: Doc, m: Mention) {
    m.at < m.end <= |d.text|
  }

  /** The link to the name that resolves, if one does. */
  function MentionSpan(d: Doc, m: Mention): seq<Span>
    requires Within(d, m)
  {
    var who := Who(d, d.text[m.at+1..m.end]);
    if who.None? then []
    else [Span(m.at, m.at + 1 + |who.value|, d.userURL(who.value), "@" + who.value)]
  }

  /** A mention: that link, when the mention touches no reference linked. */
  ghost function MentionLink(d: Doc, k: nat): seq<Span>
    requires Found(d) && k < |d.mentions|
  {
    var m := d.mentions[k];
    if Overlap(References(d), m.at, m.end) then [] else MentionSpan(d, m)
  }

  ghost function MentionLinks(d: Doc): (links: seq<seq<Span>>)
    requires Found(d)
    ensures |links| == |d.mentions| && forall i: nat | i < |links| :: links[i] == MentionLink(d, i)
  {
    seq(|d.mentions|, i requires 0 <= i < |d.mentions| => MentionLink(d, i))
  }

  ghost function Linked(d: Doc): seq<Span>
    requires Found(d)
  {
    References(d) + Flat(MentionLinks(d), |d.mentions|)
  }

  // ----------------------------------------------------------- spans stand apart

  predicate Apart(s: Span, t: Span) { s.end <= t.start || t.end <= s.start }

  /** Each is a part of the text, and no two share a character. */
  ghost predicate Laid(text: string, spans: seq<Span>) {
    && (forall i | 0 <= i < |spans| ::
          spans[i].start < spans[i].end <= |text| && spans[i].text == text[spans[i].start..spans[i].end])
    && (forall i, j | 0 <= i < j < |spans| :: Apart(spans[i], spans[j]))
  }

  ghost predicate EndBy(spans: seq<Span>, end: nat) {
    forall i | 0 <= i < |spans| :: spans[i].end <= end
  }

  /** One link, or none, in a part of the text still free. */
  ghost predicate Fits(text: string, spans: seq<Span>, link: seq<Span>, start: nat, end: nat) {
    link == [] ||
    (&& |link| == 1 && !Overlap(spans, start, end)
     && start <= link[0].start < link[0].end <= end <= |text|
     && link[0].text == text[link[0].start..link[0].end])
  }

  datatype Range = Range(start: nat, end: nat)

  ghost predicate InOrder(ranges: seq<Range>) {
    && (forall i | 0 <= i < |ranges| :: ranges[i].start <= ranges[i].end)
    && (forall i, j | 0 <= i < j < |ranges| :: ranges[i].end <= ranges[j].start)
  }

  /** Each match's link is in the match's range, and clear of `base`. */
  ghost predicate FitAll(text: string, base: seq<Span>, links: seq<seq<Span>>, ranges: seq<Range>) {
    && |links| == |ranges| && InOrder(ranges)
    && forall i | 0 <= i < |links| :: Fits(text, base, links[i], ranges[i].start, ranges[i].end)
  }

  lemma LaidMore(text: string, spans: seq<Span>, link: seq<Span>, start: nat, end: nat)
    requires Laid(text, spans) && Fits(text, spans, link, start, end)
    ensures Laid(text, spans + link)
  {
    if link == [] {
      assert spans + link == spans;
    } else {
      forall i | 0 <= i < |spans| ensures Apart(spans[i], link[0]) {
        assert !(start < spans[i].end && end > spans[i].start);
      }
    }
  }

  lemma EndJoin(a: seq<Span>, b: seq<Span>, end: nat)
    requires EndBy(a, end) && EndBy(b, end)
    ensures EndBy(a + b, end)
  {
  }

  lemma {:induction false} FlatEnd(text: string, base: seq<Span>, links: seq<seq<Span>>, ranges: seq<Range>,
      k: nat, end: nat)
    requires FitAll(text, base, links, ranges) && k <= |links|
    requires forall i | 0 <= i < k :: ranges[i].end <= end
    ensures EndBy(Flat(links, k), end)
  {
    if k > 0 {
      FlatEnd(text, base, links, ranges, k - 1, end);
      assert Fits(text, base, links[k-1], ranges[k-1].start, ranges[k-1].end);
      EndJoin(Flat(links, k - 1), links[k-1], end);
    }
  }

  lemma OverlapJoin(a: seq<Span>, b: seq<Span>, start: nat, end: nat)
    ensures Overlap(a + b, start, end) <==> Overlap(a, start, end) || Overlap(b, start, end)
  {
    forall i | 0 <= i < |a| ensures (a + b)[i] == a[i] {}
    forall i | 0 <= i < |b| ensures (a + b)[|a| + i] == b[i] {}
    if Overlap(a + b, start, end) {
      var i :| 0 <= i < |a + b| && start < (a + b)[i].end && end > (a + b)[i].start;
      assert if i < |a| then (a + b)[i] == a[i] else (a + b)[i] == b[i - |a|];
    }
  }

  /** Looking at the matches of the same pattern linked so far adds nothing to
      looking at `base`. */
  lemma FlatApart(text: string, base: seq<Span>, links: seq<seq<Span>>, ranges: seq<Range>, k: nat)
    requires FitAll(text, base, links, ranges) && k < |links|
    ensures Overlap(base + Flat(links, k), ranges[k].start, ranges[k].end) <==>
      Overlap(base, ranges[k].start, ranges[k].end)
  {
    FlatEnd(text, base, links, ranges, k, ranges[k].start);
    OverlapJoin(base, Flat(links, k), ranges[k].start, ranges[k].end);
  }

  lemma Assoc(a: seq<Span>, b: seq<Span>, c: seq<Span>)
    ensures a + b + c == a + (b + c)
  {
  }

  lemma OneLaid(text: string, base: seq<Span>, links: seq<seq<Span>>, ranges: seq<Range>, k: nat)
    requires FitAll(text, base, links, ranges) && k < |links| && Laid(text, base + Flat(links, k))
    ensures Laid(text, base + Flat(links, k + 1))
  {
    FlatApart(text, base, links, ranges, k);
    assert Fits(text, base, links[k], ranges[k].start, ranges[k].end);
    LaidMore(text, base + Flat(links, k), links[k], ranges[k].start, ranges[k].end);
    Assoc(base, Flat(links, k), links[k]);
  }

  lemma {:induction false} FlatLaid(text: string, base: seq<Span>, links: seq<seq<Span>>, ranges: seq<Range>, k: nat)
    requires FitAll(text, base, links, ranges) && k <= |links| && Laid(text, base)
    ensures Laid(text, base + Flat(links, k))
  {
    if k == 0 {
      assert base + [] == base;
    } else {
      FlatLaid(text, base, links, ranges, k - 1);
      OneLaid(text, base, links, ranges, k - 1);
    }
  }

  // ---------------------------------------------------------- of each pattern

  ghost function CrossRanges(d: Doc): seq<Range> {
    Sorting.Map(d.cross, (m: CrossRef) => Range(m.start, m.end))
  }

  lemma CrossesFit(d: Doc)
    requires Found(d)
    ensures FitAll(d.text, [], CrossLinks(d), CrossRanges(d))
  {
    forall i: nat | i < |d.cross|
      ensures Fits(d.text, [], CrossLinks(d)[i], CrossRanges(d)[i].start, CrossRanges(d)[i].end)
    {
      assert CrossLinks(d)[i] == CrossLink(d, i);
    }
  }

  ghost function BareRanges(d: Doc): seq<Range> {
    Sorting.Map(d.bare, (m: BareRef) => Range(m.kind, m.end))
  }

  lemma BaresFit(d: Doc)
    requires Found(d)
    ensures FitAll(d.text, Crosses(d), BareLinks(d), BareRanges(d))
  {
    forall i: nat | i < |d.bare|
      ensures Fits(d.text, Crosses(d), BareLinks(d)[i], BareRanges(d)[i].start, BareRanges(d)[i].end)
    {
      assert BareLinks(d)[i] == BareLink(d, i);
    }
  }

  ghost function MentionRanges(d: Doc): seq<Range> {
    Sorting.Map(d.mentions, (m: Mention) => Range(m.at, m.end))
  }

  lemma MentionText(text: string, at: nat, end: nat, who: string)
    requires at < end <= |text| && text[at] == '@' && who <= text[at+1..end]
    ensures at + 1 + |who| <= end && "@" + who == text[at..at+1+|who|]
  {
    assert text[at+1..end][..|who|] == text[at+1..at+1+|who|];
    assert text[at..at+1+|who|] == [text[at]] + text[at+1..at+1+|who|];
  }

  /** A mention's link is text of the mention. */
  lemma SpanFits(d: Doc, m: Mention)
    requires Within(d, m) && d.text[m.at] == '@'
    ensures Fits(d.text, [], MentionSpan(d, m), m.at, m.end)
  {
    var who := Who(d, d.text[m.at+1..m.end]);
    if who.Some? { MentionText(d.text, m.at, m.end, who.value); }
  }

  lemma MentionsFit(d: Doc)
    requires Found(d)
    ensures FitAll(d.text, References(d), MentionLinks(d), MentionRanges(d))
  {
    forall i: nat | i < |d.mentions|
      ensures Fits(d.text, References(d), MentionLinks(d)[i], MentionRanges(d)[i].start, MentionRanges(d)[i].end)
    {
      assert MentionLinks(d)[i] == MentionLink(d, i);
      SpanFits(d, d.mentions[i]);
    }
  }

  /** What is linked is text of the node, and no two links share a character. */
  lemma LinkedLaid(d: Doc)
    requires Found(d)
    ensures Laid(d.text, Linked(d))
  {
    CrossesFit(d);
    FlatLaid(d.text, [], CrossLinks(d), CrossRanges(d), |d.cross|);
    assert [] + Crosses(d) == Crosses(d);
    BaresFit(d);
    FlatLaid(d.text, Crosses(d), BareLinks(d), BareRanges(d), |d.bare|);
    MentionsFit(d);
    FlatLaid(d.text, References(d), MentionLinks(d), MentionRanges(d), |d.mentions|);
  }

  // ------------------------------------------------------------------------ sorting

  ghost predicate SortedUpTo(spans: seq<Span>, n: nat) {
    forall p, q | 0 <= p < q < n <= |spans| :: spans[p].start <= spans[q].start
  }

  ghost predicate Permutes(a: seq<Span>, b: seq<Span>) { multiset(a) == multiset(b) }

  /** All sorted but for the one being inserted, which is at `j`. */
  ghost predicate SortedBut(spans: seq<Span>, n: nat, j: nat) {
    && j < n <= |spans|
    && (forall p, q | 0 <= p < q < n && p != j && q != j :: spans[p].start <= spans[q].start)
    && (forall q | j < q < n :: spans[j].start < spans[q].start)
  }

  function Swapped(a: seq<Span>, j: nat): seq<Span>
    requires 0 < j < |a|
  {
    a[j := a[j-1]][j-1 := a[j]]
  }

  lemma SwapSorts(a: seq<Span>, was: seq<Span>, n: nat, j: nat)
    requires SortedBut(a, n, j) && Permutes(a, was) && j > 0 && a[j].start < a[j-1].start
    ensures SortedBut(Swapped(a, j), n, j - 1) && Permutes(Swapped(a, j), was)
  {
  }

  lemma Inserted(a: seq<Span>, n: nat, j: nat)
    requires SortedBut(a, n, j) && (j == 0 || a[j].start >= a[j-1].start)
    ensures SortedUpTo(a, n)
  {
  }

  method Swap(a: array<Span>, j: nat)
    requires 0 < j < a.Length
    modifies a
    ensures a[..] == Swapped(old(a[..]), j)
  {
    a[j], a[j-1] := a[j-1], a[j];
  }

  /** sortSpans' inner loop: the span at `i` goes back to its place. */
  method InsertBack(a: array<Span>, i: nat)
    requires 0 < i < a.Length && SortedUpTo(a[..], i)
    modifies a
    ensures SortedUpTo(a[..], i + 1) && Permutes(a[..], old(a[..]))
  {
    var j := i;
    while j > 0 && a[j].start < a[j-1].start
      invariant 0 <= j <= i && SortedBut(a[..], i + 1, j) && Permutes(a[..], old(a[..]))
    {
      SwapSorts(a[..], old(a[..]), i + 1, j);
      Swap(a, j);
      j := j - 1;
    }
    Inserted(a[..], i + 1, j);
  }

  /** sortSpans. */
  method SortSpans(a: array<Span>)
    modifies a
    ensures SortedUpTo(a[..], a.Length) && Permutes(a[..], old(a[..]))
  {
    var i := 1;
    while i < a.Length
      invariant 1 <= i && SortedUpTo(a[..], if i < a.Length then i else a.Length)
      invariant Permutes(a[..], old(a[..]))
    {
      InsertBack(a, i);
      i := i + 1;
    }
  }

  lemma LaidNoRepeats(text: string, a: seq<Span>)
    requires Laid(text, a)
    ensures Sorting.NoRepeats(a)
  {
    forall i, j | 0 <= i < j < |a| ensures a[i] != a[j] { assert Apart(a[i], a[j]); }
  }

  lemma PermutedIn(a: seq<Span>, b: seq<Span>, i: nat) returns (p: nat)
    requires Permutes(b, a) && i < |b|
    ensures p < |a| && a[p] == b[i]
  {
    assert b[i] in multiset(b);
    assert b[i] in a;
    p :| 0 <= p < |a| && a[p] == b[i];
  }

  lemma PermutedLaid(text: string, a: seq<Span>, b: seq<Span>)
    requires Laid(text, a) && Permutes(b, a)
    ensures Laid(text, b)
  {
    LaidNoRepeats(text, a);
    Sorting.PermutedNoRepeats(a, b);
    forall i: nat | i < |b|
      ensures b[i].start < b[i].end <= |text| && b[i].text == text[b[i].start..b[i].end]
    {
      var p := PermutedIn(a, b, i);
    }
    forall i: nat, j: nat | i < j < |b| ensures Apart(b[i], b[j]) {
      var p := PermutedIn(a, b, i);
      var q := PermutedIn(a, b, j);
      assert Apart(a[if p < q then p else q], a[if p < q then q else p]);
    }
  }

  // ----------------------------------------------------------------------- emission

  datatype Node = TextNode(data: string) | Anchor(url: string, data: string)

  /** What a reader sees. */
  function TextOf(nodes: seq<Node>): string {
    if nodes == [] then "" else TextOf(nodes[..|nodes|-1]) + nodes[|nodes|-1].data
  }

  function Anchors(nodes: seq<Node>): seq<Node> {
    if nodes == [] then []
    else Anchors(nodes[..|nodes|-1]) + (if nodes[|nodes|-1].Anchor? then [nodes[|nodes|-1]] else [])
  }

  function AnchorsOf(spans: seq<Span>): seq<Node> {
    seq(|spans|, i requires 0 <= i < |spans| => Anchor(spans[i].url, spans[i].text))
  }

  lemma OneNodeMore(nodes: seq<Node>, n: Node)
    ensures TextOf(nodes + [n]) == TextOf(nodes) + n.data
    ensures Anchors(nodes + [n]) == Anchors(nodes) + (if n.Anchor? then [n] else [])
  {
    assert (nodes + [n])[..|nodes|] == nodes;
  }

  /** The text up to `pos` and the links of the first `n` spans are out. */
  ghost predicate Emitted(text: string, spans: seq<Span>, nodes: seq<Node>, n: nat, pos: nat) {
    && n <= |spans| && pos <= |text|
    && TextOf(nodes) == text[..pos] && Anchors(nodes) == AnchorsOf(spans[..n])
  }

  lemma EmittedText(text: string, spans: seq<Span>, nodes: seq<Node>, n: nat, pos: nat, end: nat)
    requires Emitted(text, spans, nodes, n, pos) && pos <= end <= |text|
    ensures Emitted(text, spans, nodes + [TextNode(text[pos..end])], n, end)
  {
    OneNodeMore(nodes, TextNode(text[pos..end]));
    assert text[..pos] + text[pos..end] == text[..end];
  }

  lemma EmittedLink(text: string, spans: seq<Span>, nodes: seq<Node>, n: nat)
    requires Laid(text, spans) && n < |spans| && Emitted(text, spans, nodes, n, spans[n].start)
    ensures Emitted(text, spans, nodes + [Anchor(spans[n].url, spans[n].text)], n + 1, spans[n].end)
  {
    var s := spans[n];
    OneNodeMore(nodes, Anchor(s.url, s.text));
    assert AnchorsOf(spans[..n+1]) == AnchorsOf(spans[..n]) + [Anchor(s.url, s.text)];
    assert text[..s.start] + s.text == text[..s.end];
  }

  /** The emission loop: the text comes out whole, and every span as a link;
      none is skipped. */
  method Emit(text: string, spans: seq<Span>) returns (nodes: seq<Node>)
    requires Laid(text, spans) && SortedUpTo(spans, |spans|)
    ensures TextOf(nodes) == text && Anchors(nodes) == AnchorsOf(spans)
    ensures forall n <- nodes :: n.TextNode? ==> n.data != ""
  {
    nodes := [];
    var pos: nat := 0;
    for i := 0 to |spans|
      invariant pos == if i == 0 then 0 else spans[i-1].end
      invariant Emitted(text, spans, nodes, i, pos)
      invariant forall n <- nodes :: n.TextNode? ==> n.data != ""
    {
      var s := spans[i];
      if i > 0 { assert Apart(spans[i-1], s); }
      if s.start < pos {
        assert false;
        continue;
      }
      if s.start > pos {
        EmittedText(text, spans, nodes, i, pos, s.start);
        nodes := nodes + [TextNode(text[pos..s.start])];
      }
      EmittedLink(text, spans, nodes, i);
      nodes := nodes + [Anchor(s.url, s.text)];
      pos := s.end;
    }
    if pos < |text| {
      EmittedText(text, spans, nodes, |spans|, pos, |text|);
      assert text[pos..] == text[pos..|text|];
      nodes := nodes + [TextNode(text[pos..])];
    }
    assert spans[..|spans|] == spans && text[..|text|] == text;
  }

  // -------------------------------------------------------------------- rewriteText

  method LinkCross(d: Doc, k: nat) returns (link: seq<Span>)
    requires Found(d) && k < |d.cross|
    ensures link == CrossLink(d, k)
  {
    var m := d.cross[k];
    var o, rep := d.text[m.start..m.slash], d.text[m.slash+1..m.kind];
    var url := d.refURL(o, rep, d.text[m.kind], d.text[m.kind+1..m.end]);
    link := if url != "" then [Span(m.start, m.end, url, d.text[m.start..m.end])] else [];
  }

  method CollectCrosses(d: Doc) returns (spans: seq<Span>)
    requires Found(d)
    ensures spans == Crosses(d)
  {
    spans := [];
    ghost var links := CrossLinks(d);
    for i := 0 to |d.cross|
      invariant spans == Flat(links, i)
    {
      var link := LinkCross(d, i);
      assert links[i] == link;
      spans := spans + link;
    }
  }

  method ResolveBare(d: Doc, m: BareRef) returns (link: seq<Span>)
    requires m.kind < m.end <= |d.text|
    ensures link == if BareURL(d, m) == "" then [] else [Span(m.kind, m.end, BareURL(d, m), d.text[m.kind..m.end])]
  {
    var url := d.refURL(d.owner, d.name, d.text[m.kind], d.text[m.kind+1..m.end]);
    link := if url != "" then [Span(m.kind, m.end, url, d.text[m.kind..m.end])] else [];
  }

  /** One turn of the second loop: what a bare reference adds, [] for nothing. */
  method LinkBare(d: Doc, k: nat, spans: seq<Span>) returns (link: seq<Span>)
    requires Found(d) && k < |d.bare| && spans == Crosses(d) + Flat(BareLinks(d), k)
    ensures link == BareLink(d, k)
  {
    var m := d.bare[k];
    BaresFit(d);
    FlatApart(d.text, Crosses(d), BareLinks(d), BareRanges(d), k);
    var taken := Overlaps(spans, m.kind, m.end);
    if taken { return []; }
    link := ResolveBare(d, m);
  }

  method CollectBares(d: Doc, crosses: seq<Span>) returns (spans: seq<Span>)
    requires Found(d) && crosses == Crosses(d)
    ensures spans == References(d)
  {
    spans := crosses;
    assert crosses + [] == crosses;
    for i := 0 to |d.bare|
      invariant spans == crosses + Flat(BareLinks(d), i)
    {
      var link := LinkBare(d, i, spans);
      assert BareLinks(d)[i] == link;
      Assoc(crosses, Flat(BareLinks(d), i), link);
      spans := spans + link;
    }
  }

  method ResolveMention(d: Doc, m: Mention) returns (link: seq<Span>)
    requires Within(d, m)
    ensures link == MentionSpan(d, m)
  {
    var who := d.text[m.at+1..m.end];
    var url := d.userURL(who);
    if url == "" {
      var trimmed := TrimRight(who);
      if trimmed != "" && trimmed != who {
        var u := d.userURL(trimmed);
        if u != "" {
          who, url := trimmed, u;
        }
      }
    }
    link := if url != "" then [Span(m.at, m.at + 1 + |who|, url, "@" + who)] else [];
  }

  /** One turn of the last loop. */
  method LinkMention(d: Doc, k: nat, spans: seq<Span>) returns (link: seq<Span>)
    requires Found(d) && k < |d.mentions| && spans == References(d) + Flat(MentionLinks(d), k)
    ensures link == MentionLink(d, k)
  {
    var m := d.mentions[k];
    MentionsFit(d);
    FlatApart(d.text, References(d), MentionLinks(d), MentionRanges(d), k);
    var taken := Overlaps(spans, m.at, m.end);
    if taken { return []; }
    link := ResolveMention(d, m);
  }

  method CollectMentions(d: Doc, references: seq<Span>) returns (spans: seq<Span>)
    requires Found(d) && references == References(d)
    ensures spans == Linked(d)
  {
    spans := references;
    assert references + [] == references;
    for i := 0 to |d.mentions|
      invariant spans == references + Flat(MentionLinks(d), i)
    {
      var link := LinkMention(d, i, spans);
      assert MentionLinks(d)[i] == link;
      Assoc(references, Flat(MentionLinks(d), i), link);
      spans := spans + link;
    }
  }

  /** rewriteText: None when nothing is linked; otherwise nodes that read as
      the text did, with exactly the links of the node, in text order. */
  method RewriteText(d: Doc) returns (nodes: Option<seq<Node>>, ghost order: seq<Span>)
    requires Found(d)
    ensures nodes.None? <==> Linked(d) == []
    ensures nodes.Some? ==>
      && TextOf(nodes.value) == d.text
      && Permutes(order, Linked(d)) && SortedUpTo(order, |order|)
      && Anchors(nodes.value) == AnchorsOf(order)
  {
    order := [];
    var spans := CollectCrosses(d);
    spans := CollectBares(d, spans);
    spans := CollectMentions(d, spans);
    if |spans| == 0 { return None, order; }
    var a := new Span[|spans|](i requires 0 <= i < |spans| => spans[i]);
    assert a[..] == spans;
    SortSpans(a);
    order := a[..];
    LinkedLaid(d);
    PermutedLaid(d.text, spans, order);
    var ns := Emit(d.text, a[..]);
    nodes := Some(ns);
  }
}
