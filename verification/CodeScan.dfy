/** internal/codescan/codescan.go: the identity of a finding from one scan to
    the next. Fields are as cleaned; a line is at least 0. `sha` stands for the
    hex of a truncated SHA-256, any function of its text. */
module CodeScan {
  import opened Text
  import Lex
  import Sorting

  const MAX_RESULTS := 5000
  const NUL := '\0'

  /** `own` is the tool's fingerprint, `snippet` the code matched; either may be empty. */
  datatype Hit = Hit(tool: string, rule: string, level: string, message: string,
    path: string, line: nat, own: string, snippet: string)

  datatype Finding = Finding(fingerprint: string, tool: string, rule: string, level: string,
    path: string, line: nat, message: string)

  // -------------------------------------------------------------------------- places

  /** What a place begins with. */
  datatype Source = Source(tool: string, rule: string, path: string)

  function SourceOf(h: Hit): Source { Source(h.tool, h.rule, h.path) }

  function Prefix(x: Source): string {
    x.tool + [NUL] + x.rule + [NUL] + x.path
  }

  function Place(h: Hit): string {
    Prefix(SourceOf(h)) + [NUL] + Itoa(h.line) + [NUL] + h.message
  }

  /** A fingerprint of the tool's, and the place it was given. */
  datatype Claim = Claim(own: string, place: string)

  function ClaimOf(h: Hit): Claim { Claim(h.own, Place(h)) }

  /** All there, and none at two places. */
  ghost predicate Consistent(claims: seq<Claim>) {
    && (forall i | 0 <= i < |claims| :: claims[i].own != "")
    && (forall i, j | 0 <= i < |claims| && 0 <= j < |claims| && claims[i].own == claims[j].own ::
          claims[i].place == claims[j].place)
  }

  /** A run's own fingerprints can be relied on. */
  ghost predicate Trusted(found: seq<Hit>) {
    Consistent(Sorting.Map(found, ClaimOf))
  }

  /** `at` has every fingerprint claimed, each with its place. */
  ghost predicate Tracks(at: map<string, string>, claims: seq<Claim>) {
    && (forall own <- at :: exists k :: 0 <= k < |claims| && claims[k] == Claim(own, at[own]))
    && (forall k | 0 <= k < |claims| :: claims[k].own in at && at[claims[k].own] == claims[k].place)
  }

  lemma ConsistentMore(at: map<string, string>, claims: seq<Claim>, c: Claim)
    requires Tracks(at, claims) && Consistent(claims)
    ensures Consistent(claims + [c]) <==> c.own != "" && (c.own in at ==> at[c.own] == c.place)
    ensures Consistent(claims + [c]) ==> Tracks(at[c.own := c.place], claims + [c])
  {
    var more := claims + [c];
    assert more[|claims|] == c;
    forall k | 0 <= k < |claims| ensures more[k] == claims[k] {}
    if c.own in at {
      var k :| 0 <= k < |claims| && claims[k] == Claim(c.own, at[c.own]);
      assert more[k].own == c.own;
    }
    if Consistent(more) {
      var at' := at[c.own := c.place];
      forall own <- at' ensures exists k :: 0 <= k < |more| && more[k] == Claim(own, at'[own]) {
        if own != c.own {
          var k :| 0 <= k < |claims| && claims[k] == Claim(own, at[own]);
          assert more[k] == claims[k];
        }
      }
    }
  }

  lemma ConsistentPrefix(claims: seq<Claim>, n: nat)
    requires n <= |claims| && Consistent(claims)
    ensures Consistent(claims[..n])
  {
  }

  /** One turn of distinct's loop. */
  method Record(at: map<string, string>, c: Claim, ghost claims: seq<Claim>)
    returns (ok: bool, at': map<string, string>)
    requires Tracks(at, claims) && Consistent(claims)
    ensures ok <==> Consistent(claims + [c])
    ensures ok ==> Tracks(at', claims + [c])
  {
    ConsistentMore(at, claims, c);
    ok := c.own != "" && (c.own in at ==> at[c.own] == c.place);
    at' := at[c.own := c.place];
  }

  /** distinct. */
  method Distinct(found: seq<Hit>) returns (yes: bool)
    ensures yes <==> Trusted(found)
  {
    ghost var claims := Sorting.Map(found, ClaimOf);
    var at: map<string, string> := map[];
    for i := 0 to |found|
      invariant Consistent(claims[..i]) && Tracks(at, claims[..i])
    {
      yes, at := Record(at, ClaimOf(found[i]), claims[..i]);
      assert claims[..i+1] == claims[..i] + [claims[i]];
      if !yes {
        if Consistent(claims) { ConsistentPrefix(claims, i + 1); }
        return;
      }
    }
    assert claims[..|found|] == claims;
    return true;
  }

  /** Short enough and on one line. */
  predicate Usable(v: string) {
    v != "" && |v| <= 200 && forall c <- v :: c !in {' ', '\t', '\r', '\n'}
  }

  /** The fingerprint of the first set that has one, by the first name that does. */
  ghost predicate FirstOwn(sets: seq<map<string, string>>, own: string) {
    if forall i, name | 0 <= i < |sets| && name in sets[i] :: !Usable(sets[i][name]) then own == ""
    else exists i, name | 0 <= i < |sets| && name in sets[i] ::
      && Usable(sets[i][name]) && own == name + "=" + sets[i][name]
      && (forall j, other | 0 <= j < i && other in sets[j] :: !Usable(sets[j][other]))
      && (forall other | other in sets[i] && Lex.Less(other, name) :: !Usable(sets[i][other]))
  }

  method Names(m: map<string, string>) returns (names: seq<string>)
    ensures Lex.Ascending(names) && forall name :: name in names <==> name in m
  {
    names := [];
    var left := m.Keys;
    while left != {}
      invariant left <= m.Keys && Sorting.NoRepeats(names)
      invariant forall name :: name in names <==> name in m && name !in left
      decreases left
    {
      ghost var _ := Sorting.Witness(left);
      var name :| name in left;
      left := left - {name};
      assert name !in names;
      names := names + [name];
    }
    Lex.SortAscending(names);
    names := Lex.Sort(names);
  }

  /** ownFingerprint: the full fingerprints, then the partial ones. */
  method OwnFingerprint(sets: seq<map<string, string>>) returns (own: string)
    ensures FirstOwn(sets, own)
  {
    for i := 0 to |sets|
      invariant forall j, name | 0 <= j < i && name in sets[j] :: !Usable(sets[j][name])
    {
      var m := sets[i];
      var names := Names(m);
      for k := 0 to |names|
        invariant forall n | 0 <= n < k :: !Usable(m[names[n]])
      {
        assert names[k] in names;
        var v := m[names[k]];
        var spaced := exists c <- v :: c == ' ' || c == '\t' || c == '\r' || c == '\n';
        if v != "" && !spaced && |v| <= 200 {
          forall other | other in m && Lex.Less(other, names[k]) ensures !Usable(m[other]) {
            assert other in names;
            var n :| 0 <= n < |names| && names[n] == other;
            if n > k { Lex.Asymmetric(names[k], names[n]); }
            Lex.Irreflexive(other);
          }
          return names[k] + "=" + v;
        }
      }
      forall name <- m ensures !Usable(m[name]) {
        assert name in names;
      }
    }
    return "";
  }

  function Disowned(h: Hit): Hit { h.(own := "") }

  /** One run's hits, without their own fingerprints when those cannot be trusted. */
  ghost function Settled(found: seq<Hit>): seq<Hit> {
    if Trusted(found) then found else Sorting.Map(found, Disowned)
  }

  ghost function AllSettled(runs: seq<seq<Hit>>): seq<Hit> {
    if runs == [] then [] else AllSettled(runs[..|runs|-1]) + Settled(runs[|runs|-1])
  }

  /** A run that cannot be trusted loses its own fingerprints and nothing else. */
  lemma SettledMeans(found: seq<Hit>, i: nat)
    requires i < |found|
    ensures |Settled(found)| == |found|
    ensures var h, k := found[i], Settled(found)[i];
      && k.tool == h.tool && k.rule == h.rule && k.level == h.level && k.message == h.message
      && k.path == h.path && k.line == h.line && k.snippet == h.snippet
      && k.own == if Trusted(found) then h.own else ""
  {}

  // ---------------------------------------------------------------- the order of hits

  predicate PlaceLess(p: string, l: nat, q: string, m: nat) {
    if p != q then Lex.Less(p, q) else l < m
  }

  predicate HitLess(a: Hit, b: Hit) {
    PlaceLess(a.path, a.line, b.path, b.line)
  }

  ghost function Sorted(runs: seq<seq<Hit>>): seq<Hit> {
    Sorting.Sort(AllSettled(runs), HitLess)
  }

  // ------------------------------------------------------------------- fingerprints

  function Key(h: Hit): string {
    h.tool + [NUL] + h.rule + [NUL] + h.path + [NUL] +
      (if h.own != "" then "own" + [NUL] + h.own
       else h.message + (if h.snippet != "" then [NUL] + h.snippet else ""))
  }

  /** The first hit reported at its place. */
  predicate New(hits: seq<Hit>, i: nat)
    requires i < |hits|
  {
    forall j | 0 <= j < i :: Place(hits[j]) != Place(hits[i])
  }

  function News(hits: seq<Hit>): (news: seq<bool>)
    ensures |news| == |hits| && forall i: nat | i < |hits| :: news[i] == New(hits, i)
  {
    seq(|hits|, i requires 0 <= i < |hits| => New(hits, i))
  }

  function Keep(kept: seq<Hit>, isNew: bool, h: Hit): seq<Hit> {
    if isNew && |kept| < MAX_RESULTS then kept + [h] else kept
  }

  function KeptOf(hits: seq<Hit>, news: seq<bool>, i: nat): seq<Hit>
    requires i <= |hits| == |news|
  {
    if i == 0 then [] else Keep(KeptOf(hits, news, i - 1), news[i-1], hits[i-1])
  }

  /** Of the first `i` hits, those kept: new, while there is room. */
  function Kept(hits: seq<Hit>, i: nat): seq<Hit>
    requires i <= |hits|
  {
    KeptOf(hits, News(hits), i)
  }

  function Alike(kept: seq<Hit>, key: string): nat {
    if kept == [] then 0
    else Alike(kept[..|kept|-1], key) + (if Key(kept[|kept|-1]) == key then 1 else 0)
  }

  /** The `n`th that looks like `h`. */
  function Fingerprint(sha: string -> string, h: Hit, n: nat): string {
    sha(if n > 0 then Key(h) + [NUL] + Itoa(n) else Key(h))
  }

  /** fingerprint, of the `n`th hit with its key. */
  method MakeFingerprint(sha: string -> string, h: Hit, alike: map<string, nat>)
    returns (id: string, alike': map<string, nat>)
    ensures var n := if Key(h) in alike then alike[Key(h)] else 0;
      id == Fingerprint(sha, h, n) && alike' == alike[Key(h) := n + 1]
  {
    var key := h.tool + [NUL] + h.rule + [NUL] + h.path + [NUL];
    if h.own != "" {
      key := key + ("own" + [NUL] + h.own);
    } else {
      var tail := h.message;
      if h.snippet != "" { tail := tail + [NUL] + h.snippet; }
      assert tail == h.message + (if h.snippet != "" then [NUL] + h.snippet else "");
      key := key + tail;
    }
    assert key == Key(h);
    var n := if key in alike then alike[key] else 0;
    alike' := alike[key := n + 1];
    if n > 0 { key := key + [NUL] + Itoa(n); }
    id := sha(key);
  }

  function FindingOf(sha: string -> string, h: Hit, n: nat): Finding {
    Finding(Fingerprint(sha, h, n), h.tool, h.rule, h.level, h.path, h.line, h.message)
  }

  function Findings(sha: string -> string, kept: seq<Hit>): (out: seq<Finding>)
    ensures |out| == |kept|
  {
    if kept == [] then []
    else
      var before, h := kept[..|kept|-1], kept[|kept|-1];
      Findings(sha, before) + [FindingOf(sha, h, Alike(before, Key(h)))]
  }

  /** Some new hit finds no room. */
  ghost predicate Dropped(hits: seq<Hit>) {
    exists i: nat | i < |hits| :: New(hits, i) && |Kept(hits, i)| >= MAX_RESULTS
  }

  lemma {:induction false} NoRoomLeft(hits: seq<Hit>, news: seq<bool>, i: nat, j: nat)
    requires i <= j <= |hits| == |news| && |KeptOf(hits, news, i)| >= MAX_RESULTS
    ensures KeptOf(hits, news, j) == KeptOf(hits, news, i)
  {
    if i < j { NoRoomLeft(hits, news, i, j - 1); }
  }

  lemma FindingsMore(sha: string -> string, kept: seq<Hit>, h: Hit)
    ensures Findings(sha, kept + [h]) == Findings(sha, kept) + [FindingOf(sha, h, Alike(kept, Key(h)))]
    ensures forall key :: Alike(kept + [h], key) == Alike(kept, key) + (if Key(h) == key then 1 else 0)
  {
    assert (kept + [h])[..|kept|] == kept;
  }

  /** The maps of Parse's loop: the places met ... */
  ghost predicate Met(hits: seq<Hit>, i: nat, seen: set<string>)
    requires i <= |hits|
  {
    && (forall p <- seen :: exists j :: 0 <= j < i && Place(hits[j]) == p)
    && (forall j | 0 <= j < i :: Place(hits[j]) in seen)
  }

  /** ... and how often each key was kept. */
  ghost predicate Tallied(kept: seq<Hit>, alike: map<string, nat>) {
    forall key :: (if key in alike then alike[key] else 0) == Alike(kept, key)
  }

  lemma MetNew(hits: seq<Hit>, i: nat, seen: set<string>)
    requires i < |hits| && Met(hits, i, seen)
    ensures New(hits, i) <==> Place(hits[i]) !in seen
    ensures !New(hits, i) ==> Met(hits, i + 1, seen)
  {
  }

  lemma MetMore(hits: seq<Hit>, i: nat, seen: set<string>, p: string)
    requires i < |hits| && Met(hits, i, seen) && p == Place(hits[i])
    ensures Met(hits, i + 1, seen + {p})
  {
    forall q <- seen + {p} ensures exists j :: 0 <= j < i + 1 && Place(hits[j]) == q {
      if q == p { assert Place(hits[i]) == q; }
    }
  }

  lemma TalliedMore(kept: seq<Hit>, alike: map<string, nat>, h: Hit)
    requires Tallied(kept, alike)
    ensures Tallied(kept + [h], alike[Key(h) := (if Key(h) in alike then alike[Key(h)] else 0) + 1])
  {
    FindingsMore(_ => "", kept, h);
  }

  /** Nothing new has been met without room. */
  ghost predicate Roomy(hits: seq<Hit>, i: nat)
    requires i <= |hits|
  {
    forall j: nat | j < i && New(hits, j) :: |Kept(hits, j)| < MAX_RESULTS
  }

  lemma KeptMore(hits: seq<Hit>, i: nat)
    requires i < |hits|
    ensures Kept(hits, i + 1) == Keep(Kept(hits, i), New(hits, i), hits[i])
  {
  }

  lemma NoRoom(hits: seq<Hit>, i: nat)
    requires i < |hits| && New(hits, i) && |Kept(hits, i)| >= MAX_RESULTS
    ensures Dropped(hits) && Kept(hits, |hits|) == Kept(hits, i)
  {
    NoRoomLeft(hits, News(hits), i, |hits|);
  }

  lemma RoomForAll(hits: seq<Hit>)
    requires Roomy(hits, |hits|)
    ensures !Dropped(hits)
  {
  }

  /** The loop of Parse over the sorted hits. */
  method Collect(sha: string -> string, hits: seq<Hit>) returns (out: seq<Finding>, truncated: bool)
    ensures out == Findings(sha, Kept(hits, |hits|)) && truncated == Dropped(hits)
  {
    out, truncated := [], false;
    var seen: set<string> := {};
    var alike: map<string, nat> := map[];
    for i := 0 to |hits|
      invariant out == Findings(sha, Kept(hits, i))
      invariant Met(hits, i, seen) && Tallied(Kept(hits, i), alike) && Roomy(hits, i)
    {
      var h := hits[i];
      MetNew(hits, i, seen);
      KeptMore(hits, i);
      if Place(h) in seen { continue; }
      if |out| >= MAX_RESULTS {
        NoRoom(hits, i);
        return out, true;
      }
      MetMore(hits, i, seen, Place(h));
      TalliedMore(Kept(hits, i), alike, h);
      seen := seen + {Place(h)};
      FindingsMore(sha, Kept(hits, i), h);
      var id;
      id, alike := MakeFingerprint(sha, h, alike);
      out := out + [Finding(id, h.tool, h.rule, h.level, h.path, h.line, h.message)];
    }
    RoomForAll(hits);
  }

  // --------------------------------------------------------------------------- Parse

  predicate FindingLess(a: Finding, b: Finding) {
    if a.path != b.path || a.line != b.line then PlaceLess(a.path, a.line, b.path, b.line)
    else Lex.Less(a.fingerprint, b.fingerprint)
  }

  /** What Parse may return: its last sort is not stable. */
  ghost predicate IsParse(sha: string -> string, runs: seq<seq<Hit>>, out: seq<Finding>, truncated: bool) {
    var hits := Sorted(runs);
    && multiset(out) == multiset(Findings(sha, Kept(hits, |hits|)))
    && Sorting.Ordered(out, FindingLess)
    && truncated == Dropped(hits)
  }

  /** Hits are numbered in file order: by path, then by line. */
  lemma InFileOrder(runs: seq<seq<Hit>>, i: nat, j: nat)
    requires i < j < |Sorted(runs)|
    ensures var h, k := Sorted(runs)[i], Sorted(runs)[j];
      Lex.Less(h.path, k.path) || (h.path == k.path && h.line <= k.line)
  {
    HitRanks();
    Sorting.SortOrdered(AllSettled(runs), HitLess);
    var h, k := Sorted(runs)[i], Sorted(runs)[j];
    assert !HitLess(k, h);
    Lex.Total(h.path, k.path);
  }

  /** And so are findings, then by fingerprint. */
  lemma OutInOrder(sha: string -> string, runs: seq<seq<Hit>>, out: seq<Finding>, truncated: bool, i: nat, j: nat)
    requires IsParse(sha, runs, out, truncated) && i < j < |out|
    ensures var f, k := out[i], out[j];
      || Lex.Less(f.path, k.path)
      || (f.path == k.path && f.line < k.line)
      || (f.path == k.path && f.line == k.line && !Lex.Less(k.fingerprint, f.fingerprint))
  {
    Lex.Total(out[i].path, out[j].path);
    assert !FindingLess(out[j], out[i]);
  }

  lemma HitRanks()
    ensures Sorting.Ranks(HitLess)
  {
    Lex.LessRanks();
    forall a, b, c | !HitLess(a, b) && !HitLess(b, c) ensures !HitLess(a, c) {
      Lex.Total(a.path, b.path);
      Lex.Total(b.path, c.path);
    }
  }

  /** Hits of one path and line stay in the order they were reported in. */
  lemma HitsStable(runs: seq<seq<Hit>>, h: Hit)
    ensures Sorting.Ties(Sorted(runs), h, HitLess) == Sorting.Ties(AllSettled(runs), h, HitLess)
  {
    HitRanks();
    Sorting.SortStable(AllSettled(runs), h, HitLess);
  }

  lemma FindingRanks()
    ensures Sorting.Ranks(FindingLess)
  {
    Lex.LessRanks();
    forall a, b, c | !FindingLess(a, b) && !FindingLess(b, c) ensures !FindingLess(a, c) {
      Lex.Total(a.path, b.path);
      Lex.Total(b.path, c.path);
    }
  }

  method Parse(sha: string -> string, runs: seq<seq<Hit>>) returns (out: seq<Finding>, truncated: bool)
    ensures IsParse(sha, runs, out, truncated)
  {
    var hits: seq<Hit> := [];
    for i := 0 to |runs|
      invariant hits == AllSettled(runs[..i])
    {
      var found := runs[i];
      var trusted := Distinct(found);
      assert runs[..i+1][..i] == runs[..i];
      if !trusted {
        found := Sorting.Map(found, Disowned);
      }
      hits := hits + found;
    }
    assert runs[..|runs|] == runs;
    hits := Sorting.Sort(hits, HitLess);
    out, truncated := Collect(sha, hits);
    FindingRanks();
    Sorting.SortOrdered(out, FindingLess);
    Sorting.SortPermutes(out, FindingLess);
    out := Sorting.Sort(out, FindingLess);
  }

  // --------------------------------------------------------------- lines that move

  /** Where a file's lines go when code above them is added or removed. */
  type Renumbering = (string, nat) -> nat

  ghost predicate Increasing(g: Renumbering) {
    forall p: string, a: nat, b: nat | a < b :: g(p, a) < g(p, b)
  }

  function Move(g: Renumbering): Hit -> Hit {
    (h: Hit) => h.(line := g(h.path, h.line))
  }

  function MoveRun(g: Renumbering): seq<Hit> -> seq<Hit> {
    (run: seq<Hit>) => Sorting.Map(run, Move(g))
  }

  function MoveFinding(g: Renumbering): Finding -> Finding {
    (f: Finding) => f.(line := g(f.path, f.line))
  }

  function Prints(out: seq<Finding>): seq<string> {
    Sorting.Map(out, (f: Finding) => f.fingerprint)
  }

  // ------------------------------------------------------ what the findings tell apart

  ghost predicate Injective(sha: string -> string) {
    forall a, b | sha(a) == sha(b) :: a == b
  }

  /** The text the fingerprint of kept hit `i` is taken of: its key, numbered after the first. */
  function PrintText(kept: seq<Hit>, i: nat): string
    requires i < |kept|
  {
    var n := Alike(kept[..i], Key(kept[i]));
    if n > 0 then Key(kept[i]) + [NUL] + Itoa(n) else Key(kept[i])
  }

  /** Each finding is its hit, under its number. */
  lemma {:induction false} FindingAt(sha: string -> string, kept: seq<Hit>, i: nat)
    requires i < |kept|
    ensures var f, h := Findings(sha, kept)[i], kept[i];
      && f.fingerprint == sha(PrintText(kept, i)) && f.tool == h.tool && f.rule == h.rule && f.level == h.level
      && f.path == h.path && f.line == h.line && f.message == h.message
  {
    if i < |kept| - 1 {
      FindingAt(sha, kept[..|kept|-1], i);
      assert kept[..|kept|-1][..i] == kept[..i];
    }
  }

  lemma {:induction false} AlikeGrows(kept: seq<Hit>, key: string, i: nat, j: nat)
    requires i <= j <= |kept|
    ensures Alike(kept[..i], key) <= Alike(kept[..j], key)
    ensures i < j && Key(kept[i]) == key ==> Alike(kept[..i], key) < Alike(kept[..j], key)
    decreases j
  {
    if i < j {
      assert kept[..j][..j-1] == kept[..j-1];
      AlikeGrows(kept, key, i, j - 1);
    }
  }

  /** Hits that look alike are told apart, by a hash without collisions. */
  lemma AlikeApart(sha: string -> string, kept: seq<Hit>, i: nat, j: nat)
    requires Injective(sha) && i < j < |kept| && Key(kept[i]) == Key(kept[j])
    ensures Findings(sha, kept)[i].fingerprint != Findings(sha, kept)[j].fingerprint
  {
    FindingAt(sha, kept, i);
    FindingAt(sha, kept, j);
    AlikeGrows(kept, Key(kept[i]), i, j);
    NumbersApart(Key(kept[i]), Alike(kept[..i], Key(kept[i])), Key(kept[i]), Alike(kept[..j], Key(kept[i])));
  }

  function Numbered(key: string, n: nat): string {
    if n > 0 then key + [NUL] + Itoa(n) else key
  }

  lemma NulInTail(a: string, x: string, b: string, y: string)
    requires a + [NUL] + x == b + [NUL] + y && |a| < |b|
    ensures NUL in x
  {
    var s, t := a + [NUL] + x, b + [NUL] + y;
    assert t[|b|] == NUL && s[|b|] == x[|b| - |a| - 1];
  }

  /** What follows the last NUL. */
  lemma LastPart(a: string, x: string, b: string, y: string)
    requires NUL !in x && NUL !in y && a + [NUL] + x == b + [NUL] + y
    ensures a == b && x == y
  {
    if |a| < |b| { NulInTail(a, x, b, y); }
    if |b| < |a| { NulInTail(b, y, a, x); }
    var s, t := a + [NUL] + x, b + [NUL] + y;
    assert s[..|a|] == a && t[..|b|] == b && s[|a|+1..] == x && t[|b|+1..] == y;
  }

  lemma NumbersApart(a: string, n: nat, b: string, m: nat)
    ensures n > 0 && m > 0 ==> (Numbered(a, n) == Numbered(b, m) <==> a == b && n == m)
    ensures a == b ==> (Numbered(a, n) == Numbered(b, m) <==> n == m)
  {
    NumeralOfItoa(n);
    NumeralOfItoa(m);
    if n > 0 && m > 0 && Numbered(a, n) == Numbered(b, m) {
      LastPart(a, Itoa(n), b, Itoa(m));
      ItoaInjective(n, m);
    }
  }

  /** A kept hit's key reads as another's with a number that was given out. */
  ghost predicate ReadsNumbered(kept: seq<Hit>, i: nat, j: nat, m: nat) {
    && i < |kept| && j < |kept| && 0 < m < Alike(kept, Key(kept[j]))
    && Key(kept[i]) == Key(kept[j]) + [NUL] + Itoa(m)
  }

  /** The hit that was given number `m` of a key. */
  lemma {:induction false} NumberGiven(kept: seq<Hit>, key: string, m: nat) returns (i: nat)
    requires m < Alike(kept, key)
    ensures i < |kept| && Key(kept[i]) == key && Alike(kept[..i], key) == m
  {
    var last := |kept| - 1;
    if Key(kept[last]) == key && m == Alike(kept[..last], key) {
      i := last;
    } else {
      i := NumberGiven(kept[..last], key, m);
      assert kept[..last][..i] == kept[..i];
    }
  }

  /** No two findings of a scan share a fingerprint exactly when no key reads as
      another's numbered. */
  lemma PrintsApart(sha: string -> string, runs: seq<seq<Hit>>, out: seq<Finding>, truncated: bool)
    requires Injective(sha) && IsParse(sha, runs, out, truncated)
    ensures var kept := Kept(Sorted(runs), |Sorted(runs)|);
      Sorting.NoRepeats(Prints(out)) <==> forall i: nat, j: nat, m: nat :: !ReadsNumbered(kept, i, j, m)
  {
    var kept := Kept(Sorted(runs), |Sorted(runs)|);
    var found := Findings(sha, kept);
    Sorting.MapPermutes(out, found, (f: Finding) => f.fingerprint);
    if Sorting.NoRepeats(Prints(out)) { Sorting.PermutedNoRepeats(Prints(out), Prints(found)); }
    if Sorting.NoRepeats(Prints(found)) { Sorting.PermutedNoRepeats(Prints(found), Prints(out)); }
    if i: nat, j: nat, m: nat :| ReadsNumbered(kept, i, j, m) {
      SharedPrint(sha, kept, i, j, m);
    } else {
      forall i, j | 0 <= i < j < |found| ensures Prints(found)[i] != Prints(found)[j] {
        PrintsDiffer(sha, kept, i, j);
      }
    }
  }

  lemma SharedPrint(sha: string -> string, kept: seq<Hit>, i: nat, j: nat, m: nat)
    requires ReadsNumbered(kept, i, j, m)
    ensures !Sorting.NoRepeats(Prints(Findings(sha, kept)))
  {
    var plain, numbered := Key(kept[i]), Key(kept[j]);
    AlikeGrows(kept, plain, i, |kept|);
    assert kept[..|kept|] == kept && kept[..0] == [];
    AlikeGrows(kept, plain, 0, i);
    var a := NumberGiven(kept, plain, 0);
    var b := NumberGiven(kept, numbered, m);
    FindingAt(sha, kept, a);
    FindingAt(sha, kept, b);
    var prints := Prints(Findings(sha, kept));
    assert prints[a] == prints[b] && a != b;
  }

  lemma PrintsDiffer(sha: string -> string, kept: seq<Hit>, i: nat, j: nat)
    requires Injective(sha) && i < j < |kept|
    requires forall a: nat, b: nat, m: nat :: !ReadsNumbered(kept, a, b, m)
    ensures Findings(sha, kept)[i].fingerprint != Findings(sha, kept)[j].fingerprint
  {
    var a, b := Key(kept[i]), Key(kept[j]);
    var n, m := Alike(kept[..i], a), Alike(kept[..j], b);
    if a == b {
      AlikeApart(sha, kept, i, j);
    } else {
      FindingAt(sha, kept, i);
      FindingAt(sha, kept, j);
      NumbersApart(a, n, b, m);
      AlikeGrows(kept, a, i, |kept|);
      AlikeGrows(kept, b, j, |kept|);
      assert kept[..|kept|] == kept;
      assert !ReadsNumbered(kept, i, j, m) && !ReadsNumbered(kept, j, i, n);
    }
  }

  function Twin(line: nat, snippet: string): Hit {
    Hit("t", "r", "warning", "m", "p", line, "", snippet)
  }

  lemma TwinKey(line: nat)
    ensures Key(Twin(line, "")) == "t" + [NUL] + "r" + [NUL] + "p" + [NUL] + "m"
    ensures Key(Twin(line, "1")) == Key(Twin(line, "")) + [NUL] + Itoa(1)
    ensures Key(Twin(line, "1")) != Key(Twin(line, ""))
  {
    assert Itoa(1) == "1";
    var a, m := "t" + [NUL] + "r" + [NUL] + "p" + [NUL], "m";
    assert a + (m + "") == a + m && a + (m + ([NUL] + "1")) == (a + m) + [NUL] + "1";
    assert |Key(Twin(line, "1"))| == |Key(Twin(line, ""))| + 2;
  }

  /** Which can happen without any NUL in a field: the code matched at line 30 is "1". */
  lemma CodeReadsAsNumber()
    ensures var kept := [Twin(10, ""), Twin(20, ""), Twin(30, "1")];
      Kept(kept, 3) == kept && ReadsNumbered(kept, 2, 0, 1)
  {
    var a, b, c := Twin(10, ""), Twin(20, ""), Twin(30, "1");
    var kept := [a, b, c];
    TwinsNew(kept);
    KeptMore(kept, 0);
    KeptMore(kept, 1);
    KeptMore(kept, 2);
    TwinKey(10);
    TwinKey(20);
    TwinKey(30);
    FindingsMore(_ => "", [], a);
    FindingsMore(_ => "", [a], b);
    FindingsMore(_ => "", [a, b], c);
    assert [] + [a] == [a] && [a] + [b] == [a, b] && [a, b] + [c] == kept;
  }

  lemma TwinsNew(kept: seq<Hit>)
    requires kept == [Twin(10, ""), Twin(20, ""), Twin(30, "1")]
    ensures New(kept, 0) && New(kept, 1) && New(kept, 2)
  {
    var x := SourceOf(Twin(0, ""));
    NoNulNoClash(x, x);
    PlaceMeans(kept[0], kept[1]);
    PlaceMeans(kept[0], kept[2]);
    PlaceMeans(kept[1], kept[2]);
  }

  // ------------------------------------------------------- when two places read alike

  /** A line number as it is printed. */
  predicate Numeral(s: string) {
    s != "" && (forall c <- s :: IsDigit(c)) && Itoa(Value(s)) == s
  }

  /** `b` goes on where `a` ends with what could be a line number. */
  predicate Extends(a: string, b: string) {
    |a| < |b| && b[..|a|] == a && b[|a|] == NUL && Numeral(Cut(b[|a|+1..], NUL).0)
  }

  /** Two sources that can have one place, though only one of them moves. */
  predicate Clash(x: Source, y: Source) {
    || (Prefix(x) == Prefix(y) && x.path != y.path)
    || Extends(Prefix(x), Prefix(y))
    || Extends(Prefix(y), Prefix(x))
  }

  ghost predicate Sound(sources: set<Source>) {
    forall x <- sources, y <- sources :: !Clash(x, y)
  }

  ghost predicate From(hits: seq<Hit>, sources: set<Source>) {
    forall i | 0 <= i < |hits| :: SourceOf(hits[i]) in sources
  }

  lemma NumeralOfItoa(n: nat)
    ensures Numeral(Itoa(n)) && NUL !in Itoa(n)
  {
    ValueOfItoa(n);
    assert !IsDigit(NUL);
  }

  lemma {:induction false} CutJoined(a: string, b: string, sep: char)
    ensures Cut(a + [sep] + b, sep).0 == Cut(a, sep).0
  {
    if a == "" || a[0] == sep {
    } else {
      assert (a + [sep] + b)[1..] == a[1..] + [sep] + b;
      CutJoined(a[1..], b, sep);
    }
  }

  /** After the same prefix, line and message can be told apart. */
  lemma SamePrefix(a: string, l: nat, s: string, m: nat, t: string)
    ensures a + [NUL] + Itoa(l) + [NUL] + s == a + [NUL] + Itoa(m) + [NUL] + t <==> l == m && s == t
  {
    var x, y := Itoa(l) + [NUL] + s, Itoa(m) + [NUL] + t;
    var p, q := a + [NUL] + Itoa(l) + [NUL] + s, a + [NUL] + Itoa(m) + [NUL] + t;
    assert p[|a|+1..] == x && q[|a|+1..] == y;
    assert p == a + [NUL] + x && q == a + [NUL] + y;
    NumeralOfItoa(l);
    NumeralOfItoa(m);
    CutAt(Itoa(l), s, NUL);
    CutAt(Itoa(m), t, NUL);
    if x == y { ItoaInjective(l, m); }
  }

  /** A shorter prefix whose place reads like the longer one's is extended by it. */
  lemma ShorterPrefix(a: string, l: nat, s: string, b: string, y: string)
    requires a + [NUL] + Itoa(l) + [NUL] + s == b + [NUL] + y && |a| < |b|
    ensures Extends(a, b) && Cut(b[|a|+1..], NUL).0 == Itoa(l)
  {
    var p, q := a + [NUL] + Itoa(l) + [NUL] + s, b + [NUL] + y;
    assert p[..|a|] == a && p[|a|] == NUL;
    assert q[..|b|] == b && q[..|b|][..|a|] == q[..|a|];
    assert b[|a|] == q[|a|];
    var rest := b[|a|+1..];
    assert p[|a|+1..] == Itoa(l) + [NUL] + s;
    assert q[|a|+1..] == rest + [NUL] + y;
    NumeralOfItoa(l);
    CutAt(Itoa(l), s, NUL);
    CutJoined(rest, y, NUL);
  }

  /** Without a clash, a place is a source, a line and a message. */
  lemma PlaceMeans(h: Hit, k: Hit)
    requires !Clash(SourceOf(h), SourceOf(k))
    ensures Place(h) == Place(k) <==> Prefix(SourceOf(h)) == Prefix(SourceOf(k)) && h.line == k.line && h.message == k.message
    ensures Prefix(SourceOf(h)) == Prefix(SourceOf(k)) ==> h.path == k.path
  {
    var a, b := Prefix(SourceOf(h)), Prefix(SourceOf(k));
    if a == b {
      SamePrefix(a, h.line, h.message, k.line, k.message);
    } else if Place(h) == Place(k) {
      DifferentPrefix(a, h.line, h.message, b, k.line, k.message);
    }
  }

  lemma SameLength(a: string, x: string, b: string, y: string)
    requires a + [NUL] + x == b + [NUL] + y && |a| == |b|
    ensures a == b
  {
    assert (a + [NUL] + x)[..|a|] == a && (b + [NUL] + y)[..|b|] == b;
  }

  lemma Regroup(a: string, l: nat, s: string)
    ensures a + [NUL] + Itoa(l) + [NUL] + s == a + [NUL] + (Itoa(l) + [NUL] + s)
  {
  }

  lemma DifferentPrefix(a: string, l: nat, s: string, b: string, m: nat, t: string)
    requires a + [NUL] + Itoa(l) + [NUL] + s == b + [NUL] + Itoa(m) + [NUL] + t && a != b
    ensures Extends(a, b) || Extends(b, a)
  {
    Regroup(a, l, s);
    Regroup(b, m, t);
    if |a| < |b| {
      ShorterPrefix(a, l, s, b, Itoa(m) + [NUL] + t);
    } else if |b| < |a| {
      ShorterPrefix(b, m, t, a, Itoa(l) + [NUL] + s);
    } else {
      SameLength(a, Itoa(l) + [NUL] + s, b, Itoa(m) + [NUL] + t);
    }
  }

  /** Moving lines neither joins places nor parts them. */
  lemma PlaceMoves(g: Renumbering, h: Hit, k: Hit)
    requires Increasing(g) && !Clash(SourceOf(h), SourceOf(k))
    ensures Place(Move(g)(h)) == Place(Move(g)(k)) <==> Place(h) == Place(k)
  {
    PlaceMeans(h, k);
    PlaceMeans(Move(g)(h), Move(g)(k));
    if h.path == k.path && h.line != k.line {
      if h.line < k.line { assert g(h.path, h.line) < g(h.path, k.line); }
      else { assert g(h.path, k.line) < g(h.path, h.line); }
    }
  }

  /** Fields without NUL, as tools write them, never clash. */
  lemma NoNulNoClash(x: Source, y: Source)
    requires NUL !in x.tool && NUL !in x.rule && NUL !in x.path
    requires NUL !in y.tool && NUL !in y.rule && NUL !in y.path
    ensures !Clash(x, y)
  {
    if Prefix(x) == Prefix(y) { PrefixMeans(x, x.path, y); }
    if Extends(Prefix(x), Prefix(y)) { NoExtension(x, y); }
    if Extends(Prefix(y), Prefix(x)) { NoExtension(y, x); }
  }

  predicate NulFree(h: Hit) {
    NUL !in h.tool && NUL !in h.rule && NUL !in h.path && NUL !in h.message && NUL !in h.own && NUL !in h.snippet
  }

  /** What is left of a key past its source. */
  function KeyTail(h: Hit): string {
    if h.own != "" then "own" + [NUL] + h.own
    else h.message + (if h.snippet != "" then [NUL] + h.snippet else "")
  }

  lemma TailParts(h: Hit)
    requires NulFree(h)
    ensures Cut(KeyTail(h), NUL) ==
      if h.own != "" then ("own", h.own, true) else (h.message, h.snippet, h.snippet != "")
  {
    if h.own != "" {
      CutAt("own", h.own, NUL);
    } else if h.snippet != "" {
      assert KeyTail(h) == h.message + [NUL] + h.snippet;
      CutAt(h.message, h.snippet, NUL);
    } else {
      assert KeyTail(h) == h.message;
      CutAbsent(h.message, NUL);
    }
  }

  /** Of hits without NUL, those look alike that have one source and the tool's
      fingerprint, or the message and the code, in common. */
  lemma KeyMeans(h: Hit, k: Hit)
    requires NulFree(h) && NulFree(k) && (h.own == "" <==> k.own == "")
    ensures Key(h) == Key(k) <==>
      && h.tool == k.tool && h.rule == k.rule && h.path == k.path
      && (if h.own != "" then h.own == k.own else h.message == k.message && h.snippet == k.snippet)
  {
    TailParts(h);
    TailParts(k);
    assert Key(h) == h.tool + [NUL] + (h.rule + [NUL] + (h.path + [NUL] + KeyTail(h)));
    assert Key(k) == k.tool + [NUL] + (k.rule + [NUL] + (k.path + [NUL] + KeyTail(k)));
    FieldsApart(h.tool, h.rule + [NUL] + (h.path + [NUL] + KeyTail(h)),
      k.tool, k.rule + [NUL] + (k.path + [NUL] + KeyTail(k)));
    FieldsApart(h.rule, h.path + [NUL] + KeyTail(h), k.rule, k.path + [NUL] + KeyTail(k));
    FieldsApart(h.path, KeyTail(h), k.path, KeyTail(k));
  }

  lemma FieldsApart(a: string, x: string, b: string, y: string)
    requires NUL !in a && NUL !in b
    ensures a + [NUL] + x == b + [NUL] + y <==> a == b && x == y
  {
    CutAt(a, x, NUL);
    CutAt(b, y, NUL);
  }

  lemma PrefixMeans(x: Source, path: string, y: Source)
    requires NUL !in x.tool && NUL !in x.rule && NUL !in y.tool && NUL !in y.rule
    requires x.tool + [NUL] + x.rule + [NUL] + path == Prefix(y)
    ensures path == y.path
  {
    var r, q := x.rule + [NUL] + path, y.rule + [NUL] + y.path;
    assert Prefix(y) == x.tool + [NUL] + r == y.tool + [NUL] + q;
    CutAt(x.tool, r, NUL);
    CutAt(y.tool, q, NUL);
    CutAt(x.rule, path, NUL);
    CutAt(y.rule, y.path, NUL);
  }

  lemma JoinPath(x: Source, rest: string)
    ensures x.tool + [NUL] + x.rule + [NUL] + (x.path + rest) == Prefix(x) + rest
  {
  }

  lemma ExtensionRest(a: string, b: string) returns (rest: string)
    requires Extends(a, b)
    ensures b == a + rest && NUL in rest
  {
    rest := b[|a|..];
    assert rest[0] == NUL;
  }

  lemma NoExtension(x: Source, y: Source)
    requires NUL !in x.tool && NUL !in x.rule
    requires NUL !in y.tool && NUL !in y.rule && NUL !in y.path
    ensures !Extends(Prefix(x), Prefix(y))
  {
    if Extends(Prefix(x), Prefix(y)) {
      var rest := ExtensionRest(Prefix(x), Prefix(y));
      JoinPath(x, rest);
      PrefixMeans(x, x.path + rest, y);
      assert false;
    }
  }

  // ------------------------------------------------------------------ the two runs

  lemma ClaimsMove(g: Renumbering, found: seq<Hit>, sources: set<Source>)
    requires Increasing(g) && Sound(sources) && From(found, sources)
    ensures Trusted(Sorting.Map(found, Move(g))) <==> Trusted(found)
  {
    var moved := Sorting.Map(found, Move(g));
    var was, now := Sorting.Map(found, ClaimOf), Sorting.Map(moved, ClaimOf);
    forall i, j | 0 <= i < |found| && 0 <= j < |found|
      ensures now[i].own == was[i].own && (now[i].place == now[j].place <==> was[i].place == was[j].place)
    {
      PlaceMoves(g, found[i], found[j]);
    }
    SameConsistency(was, now);
  }

  lemma SameConsistency(was: seq<Claim>, now: seq<Claim>)
    requires |was| == |now|
    requires forall i, j | 0 <= i < |was| && 0 <= j < |was| ::
      now[i].own == was[i].own && (now[i].place == now[j].place <==> was[i].place == was[j].place)
    ensures Consistent(was) <==> Consistent(now)
  {
    forall i | 0 <= i < |was| ensures now[i].own == was[i].own {}
    if Consistent(was) {
      forall i, j | 0 <= i < |now| && 0 <= j < |now| && now[i].own == now[j].own
        ensures now[i].place == now[j].place
      {
        assert was[i].place == was[j].place;
      }
    }
    if Consistent(now) {
      forall i, j | 0 <= i < |was| && 0 <= j < |was| && was[i].own == was[j].own
        ensures was[i].place == was[j].place
      {
        assert now[i].place == now[j].place;
      }
    }
  }

  lemma SettledMoves(g: Renumbering, found: seq<Hit>, sources: set<Source>)
    requires Increasing(g) && Sound(sources) && From(found, sources)
    ensures Settled(Sorting.Map(found, Move(g))) == Sorting.Map(Settled(found), Move(g))
    ensures From(Settled(found), sources)
  {
    ClaimsMove(g, found, sources);
  }

  ghost predicate AllFrom(runs: seq<seq<Hit>>, sources: set<Source>) {
    forall i | 0 <= i < |runs| :: From(runs[i], sources)
  }

  lemma {:induction false} AllSettledFrom(runs: seq<seq<Hit>>, sources: set<Source>)
    requires AllFrom(runs, sources)
    ensures From(AllSettled(runs), sources)
  {
    if runs != [] { AllSettledFrom(runs[..|runs|-1], sources); }
  }

  lemma {:induction false} AllSettledMoves(g: Renumbering, runs: seq<seq<Hit>>, sources: set<Source>)
    requires Increasing(g) && Sound(sources) && AllFrom(runs, sources)
    ensures AllSettled(Sorting.Map(runs, MoveRun(g))) == Sorting.Map(AllSettled(runs), Move(g))
  {
    if runs != [] {
      var init, last := runs[..|runs|-1], runs[|runs|-1];
      AllSettledMoves(g, init, sources);
      SettledMoves(g, last, sources);
      Sorting.MapJoin(AllSettled(init), Settled(last), Move(g));
      assert Sorting.Map(runs, MoveRun(g))[..|runs|-1] == Sorting.Map(init, MoveRun(g));
    }
  }

  lemma SortedMoves(g: Renumbering, runs: seq<seq<Hit>>, sources: set<Source>)
    requires Increasing(g) && Sound(sources) && AllFrom(runs, sources)
    ensures Sorted(Sorting.Map(runs, MoveRun(g))) == Sorting.Map(Sorted(runs), Move(g))
    ensures From(Sorted(runs), sources)
  {
    AllSettledMoves(g, runs, sources);
    AllSettledFrom(runs, sources);
    forall a: Hit, b: Hit ensures HitLess(Move(g)(a), Move(g)(b)) == HitLess(a, b) {
      LineOrderMoves(g, a.path, a.line, b.line);
    }
    Sorting.SortMaps(AllSettled(runs), HitLess, Move(g));
    var hits := Sorted(runs);
    forall i | 0 <= i < |hits| ensures SourceOf(hits[i]) in sources {
      Sorting.SortIn(AllSettled(runs), HitLess, hits[i]);
    }
  }

  lemma LineOrderMoves(g: Renumbering, p: string, l: nat, m: nat)
    requires Increasing(g)
    ensures (g(p, l) < g(p, m)) == (l < m) && (g(p, l) == g(p, m)) == (l == m)
  {
    if l < m { assert g(p, l) < g(p, m); }
    if m < l { assert g(p, m) < g(p, l); }
  }

  lemma NewMoves(g: Renumbering, hits: seq<Hit>, sources: set<Source>, i: nat)
    requires Increasing(g) && Sound(sources) && From(hits, sources) && i < |hits|
    ensures New(Sorting.Map(hits, Move(g)), i) == New(hits, i)
  {
    var moved := Sorting.Map(hits, Move(g));
    forall j | 0 <= j < i ensures Place(moved[j]) == Place(moved[i]) <==> Place(hits[j]) == Place(hits[i]) {
      PlaceMoves(g, hits[j], hits[i]);
    }
  }

  lemma {:induction false} KeptOfMoves(f: Hit -> Hit, hits: seq<Hit>, news: seq<bool>, i: nat)
    requires i <= |hits| == |news|
    ensures KeptOf(Sorting.Map(hits, f), news, i) == Sorting.Map(KeptOf(hits, news, i), f)
  {
    if i > 0 {
      KeptOfMoves(f, hits, news, i - 1);
      Sorting.MapJoin(KeptOf(hits, news, i - 1), [hits[i-1]], f);
      assert Sorting.Map([hits[i-1]], f) == [f(hits[i-1])];
    }
  }

  lemma KeptMoves(g: Renumbering, hits: seq<Hit>, sources: set<Source>, i: nat)
    requires Increasing(g) && Sound(sources) && From(hits, sources) && i <= |hits|
    ensures Kept(Sorting.Map(hits, Move(g)), i) == Sorting.Map(Kept(hits, i), Move(g))
  {
    NewsMove(g, hits, sources);
    KeptOfMoves(Move(g), hits, News(hits), i);
  }

  lemma NewsMove(g: Renumbering, hits: seq<Hit>, sources: set<Source>)
    requires Increasing(g) && Sound(sources) && From(hits, sources)
    ensures News(Sorting.Map(hits, Move(g))) == News(hits)
  {
    var was, now := News(hits), News(Sorting.Map(hits, Move(g)));
    forall i: nat | i < |hits| ensures now[i] == was[i] { NewMoves(g, hits, sources, i); }
  }

  lemma DroppedMoves(g: Renumbering, hits: seq<Hit>, sources: set<Source>)
    requires Increasing(g) && Sound(sources) && From(hits, sources)
    ensures Dropped(Sorting.Map(hits, Move(g))) == Dropped(hits)
  {
    var moved := Sorting.Map(hits, Move(g));
    forall i: nat | i < |hits|
      ensures New(moved, i) == New(hits, i) && |Kept(moved, i)| == |Kept(hits, i)|
    {
      NewMoves(g, hits, sources, i);
      KeptMoves(g, hits, sources, i);
    }
  }

  lemma {:induction false} AlikeMoves(g: Renumbering, kept: seq<Hit>, key: string)
    ensures Alike(Sorting.Map(kept, Move(g)), key) == Alike(kept, key)
  {
    if kept != [] {
      AlikeMoves(g, kept[..|kept|-1], key);
      assert Sorting.Map(kept, Move(g))[..|kept|-1] == Sorting.Map(kept[..|kept|-1], Move(g));
    }
  }

  lemma {:induction false} FindingsMove(sha: string -> string, g: Renumbering, kept: seq<Hit>)
    ensures Findings(sha, Sorting.Map(kept, Move(g))) == Sorting.Map(Findings(sha, kept), MoveFinding(g))
  {
    if kept != [] {
      var before, h := kept[..|kept|-1], kept[|kept|-1];
      FindingsMove(sha, g, before);
      AlikeMoves(g, before, Key(h));
      assert Sorting.Map(kept, Move(g))[..|kept|-1] == Sorting.Map(before, Move(g));
      assert Key(Move(g)(h)) == Key(h);
    }
  }

  lemma OrderedMoves(g: Renumbering, out: seq<Finding>)
    requires Increasing(g) && Sorting.Ordered(out, FindingLess)
    ensures Sorting.Ordered(Sorting.Map(out, MoveFinding(g)), FindingLess)
  {
    var moved := Sorting.Map(out, MoveFinding(g));
    forall i, j | 0 <= i < j < |moved| ensures !FindingLess(moved[j], moved[i]) {
      LineOrderMoves(g, out[i].path, out[j].line, out[i].line);
      assert !FindingLess(out[j], out[i]);
    }
  }

  /** Whatever lines move, a scan of sources that do not clash gives the same
      fingerprints in the same order, and drops results or does not. */
  lemma ShiftKeeps(sha: string -> string, runs: seq<seq<Hit>>, g: Renumbering, sources: set<Source>,
      out: seq<Finding>, truncated: bool, out': seq<Finding>, truncated': bool)
    requires Increasing(g) && Sound(sources) && AllFrom(runs, sources)
    requires IsParse(sha, runs, out, truncated)
    requires IsParse(sha, Sorting.Map(runs, MoveRun(g)), out', truncated')
    ensures Prints(out) == Prints(out') && truncated == truncated'
  {
    var hits := Sorted(runs);
    SortedMoves(g, runs, sources);
    KeptMoves(g, hits, sources, |hits|);
    DroppedMoves(g, hits, sources);
    var found := Findings(sha, Kept(hits, |hits|));
    FindingsMove(sha, g, Kept(hits, |hits|));
    Sorting.MapPermutes(out, found, MoveFinding(g));
    OrderedMoves(g, out);
    FindingRanks();
    SamePrints(Sorting.Map(out, MoveFinding(g)), out');
    assert Prints(Sorting.Map(out, MoveFinding(g))) == Prints(out);
  }

  lemma SamePrints(a: seq<Finding>, b: seq<Finding>)
    requires Sorting.Ordered(a, FindingLess) && Sorting.Ordered(b, FindingLess) && multiset(a) == multiset(b)
    ensures Prints(a) == Prints(b)
  {
    FindingRanks();
    assert |a| == |multiset(a)| && |b| == |multiset(b)|;
    forall i: nat | i < |a| ensures a[i].fingerprint == b[i].fingerprint {
      Sorting.SameRanks(a, b, FindingLess, i);
      Lex.Total(a[i].path, b[i].path);
      Lex.Total(a[i].fingerprint, b[i].fingerprint);
    }
  }

  // ----------------------------------------------------------- and when they clash

  function HitFor(x: Source, line: nat, message: string): Hit {
    Hit(x.tool, x.rule, "warning", message, x.path, line, "", "")
  }

  lemma PlaceFor(x: Source, line: nat, message: string)
    ensures SourceOf(HitFor(x, line, message)) == x && HitFor(x, line, message).own == ""
    ensures Place(HitFor(x, line, message)) == Prefix(x) + [NUL] + Itoa(line) + [NUL] + message
  {
  }

  /** A line added above everything in `p`, or with "" in every file. */
  function Below(p: string): Renumbering {
    (q: string, l: nat) => if p == "" || q == p then l + 1 else l
  }

  lemma MovedFor(p: string, x: Source, line: nat, message: string)
    ensures Increasing(Below(p))
    ensures Move(Below(p))(HitFor(x, line, message)) ==
      HitFor(x, if p == "" || x.path == p then line + 1 else line, message)
  {
  }

  /** Two hits that one numbering puts at one place and another at two. */
  ghost predicate Parted(h: Hit, k: Hit, g: Renumbering) {
    && h.own == k.own == "" && Increasing(g)
    && Place(h) == Place(k) && Place(Move(g)(h)) != Place(Move(g)(k))
  }

  lemma ClashParts(x: Source, y: Source) returns (h: Hit, k: Hit, g: Renumbering)
    requires Clash(x, y)
    ensures SourceOf(h) in {x, y} && SourceOf(k) in {x, y} && Parted(h, k, g)
  {
    if Prefix(x) == Prefix(y) && x.path != y.path {
      if x.path != "" {
        h, k, g := SamePrefixParts(x, y);
      } else {
        h, k, g := SamePrefixParts(y, x);
      }
    } else if Extends(Prefix(x), Prefix(y)) {
      h, k, g := ExtensionParts(x, y);
    } else {
      h, k, g := ExtensionParts(y, x);
    }
  }

  lemma SamePrefixParts(x: Source, y: Source) returns (h: Hit, k: Hit, g: Renumbering)
    requires Prefix(x) == Prefix(y) && x.path != y.path && x.path != ""
    ensures SourceOf(h) == x && SourceOf(k) == y && Parted(h, k, g)
  {
    h, k, g := HitFor(x, 0, ""), HitFor(y, 0, ""), Below(x.path);
    PlaceFor(x, 0, "");
    PlaceFor(y, 0, "");
    MovedFor(x.path, x, 0, "");
    MovedFor(x.path, y, 0, "");
    PlaceFor(x, 1, "");
    SamePrefix(Prefix(x), 1, "", 0, "");
  }

  /** With the number that extends `a` for its line, a place of `a` reads on as `b`. */
  lemma ReadsOn(a: string, b: string) returns (n: nat, message: string)
    requires Extends(a, b)
    ensures Cut(b[|a|+1..], NUL).0 == Itoa(n)
    ensures a + [NUL] + Itoa(n) + [NUL] + message == b + [NUL] + Itoa(0) + [NUL] + ""
  {
    var rest := b[|a|+1..];
    var (num, rem, found) := Cut(rest, NUL);
    var tail := Itoa(0) + [NUL] + "";
    n := Value(num);
    message := if found then rem + [NUL] + tail else tail;
    assert b == a + [NUL] + rest;
    assert rest + [NUL] + tail == num + [NUL] + message;
    assert b + [NUL] + tail == a + [NUL] + (rest + [NUL] + tail);
    assert a + [NUL] + (num + [NUL] + message) == a + [NUL] + num + [NUL] + message;
    assert b + [NUL] + tail == b + [NUL] + Itoa(0) + [NUL] + "";
  }

  lemma ReadsOnOnce(a: string, b: string, n: nat, l: nat, message: string, m: nat)
    requires Extends(a, b) && Cut(b[|a|+1..], NUL).0 == Itoa(n) && l != n
    ensures a + [NUL] + Itoa(l) + [NUL] + message != b + [NUL] + Itoa(m) + [NUL] + ""
  {
    var y := Itoa(m) + [NUL] + "";
    assert b + [NUL] + y == b + [NUL] + Itoa(m) + [NUL] + "";
    if a + [NUL] + Itoa(l) + [NUL] + message == b + [NUL] + y {
      ShorterPrefix(a, l, message, b, y);
      ItoaInjective(n, l);
      assert false;
    }
  }

  lemma ExtensionPlaces(x: Source, y: Source) returns (n: nat, message: string)
    requires Extends(Prefix(x), Prefix(y))
    ensures Place(HitFor(x, n, message)) == Place(HitFor(y, 0, ""))
    ensures Place(HitFor(x, n + 1, message)) != Place(HitFor(y, 1, ""))
  {
    n, message := ReadsOn(Prefix(x), Prefix(y));
    SamePlace(x, n, message, y);
    ReadsOnOnce(Prefix(x), Prefix(y), n, n + 1, message, 1);
    OtherPlace(x, n + 1, message, y, 1);
  }

  lemma MakeParted(h: Hit, k: Hit, g: Renumbering, h': Hit, k': Hit)
    requires h.own == k.own == "" && Increasing(g) && Move(g)(h) == h' && Move(g)(k) == k'
    requires Place(h) == Place(k) && Place(h') != Place(k')
    ensures Parted(h, k, g)
  {
  }

  lemma ExtensionParts(x: Source, y: Source) returns (h: Hit, k: Hit, g: Renumbering)
    requires Extends(Prefix(x), Prefix(y))
    ensures SourceOf(h) == x && SourceOf(k) == y && Parted(h, k, g)
  {
    var n, message := ExtensionPlaces(x, y);
    h, k, g := HitFor(x, n, message), HitFor(y, 0, ""), Below("");
    MovedFor("", x, n, message);
    MovedFor("", y, 0, "");
    MakeParted(h, k, g, HitFor(x, n + 1, message), HitFor(y, 1, ""));
  }

  lemma SamePlace(x: Source, n: nat, message: string, y: Source)
    requires Prefix(x) + [NUL] + Itoa(n) + [NUL] + message == Prefix(y) + [NUL] + Itoa(0) + [NUL] + ""
    ensures Place(HitFor(x, n, message)) == Place(HitFor(y, 0, ""))
  {
    PlaceFor(x, n, message);
    PlaceFor(y, 0, "");
  }

  lemma OtherPlace(x: Source, n: nat, message: string, y: Source, m: nat)
    requires Prefix(x) + [NUL] + Itoa(n) + [NUL] + message != Prefix(y) + [NUL] + Itoa(m) + [NUL] + ""
    ensures Place(HitFor(x, n, message)) != Place(HitFor(y, m, ""))
  {
    PlaceFor(x, n, message);
    PlaceFor(y, m, "");
  }

  /** Such a pair is one finding under one numbering and two under the other. */
  lemma PairCounts(sha: string -> string, h: Hit, k: Hit, out: seq<Finding>, truncated: bool)
    requires h.own == k.own == "" && IsParse(sha, [[h, k]], out, truncated)
    ensures |out| == if Place(h) == Place(k) then 1 else 2
  {
    var runs := [[h, k]];
    assert runs[..0] == [];
    assert Sorting.Map([h, k], ClaimOf)[0].own == "";
    assert Settled([h, k]) == [h, k];
    assert AllSettled(runs) == [h, k];
    var hits := Sorted(runs);
    Sorting.SortPermutes([h, k], HitLess);
    PairPermuted(h, k, hits);
    TwoKept(hits);
    assert |out| == |multiset(out)| && |Findings(sha, Kept(hits, 2))| == |multiset(Findings(sha, Kept(hits, 2)))|;
  }

  lemma PairPermuted(h: Hit, k: Hit, s: seq<Hit>)
    requires |s| == 2 && multiset(s) == multiset([h, k])
    ensures s == [h, k] || s == [k, h]
  {
    assert s == [s[0], s[1]];
    assert h in multiset(s) && k in multiset(s);
    assert s[0] in multiset([h, k]) && s[1] in multiset([h, k]);
    if s[0] == s[1] {
      assert multiset(s)[s[0]] == 2;
    }
  }

  lemma TwoKept(hits: seq<Hit>)
    requires |hits| == 2
    ensures |Kept(hits, 2)| == if Place(hits[0]) == Place(hits[1]) then 1 else 2
  {
    assert New(hits, 0) && Kept(hits, 0) == [];
    assert |Kept(hits, 1)| == 1;
    assert New(hits, 1) <==> Place(hits[0]) != Place(hits[1]);
  }

  lemma SomeParse(sha: string -> string, runs: seq<seq<Hit>>) returns (out: seq<Finding>, truncated: bool)
    ensures IsParse(sha, runs, out, truncated)
  {
    var hits := Sorted(runs);
    var found := Findings(sha, Kept(hits, |hits|));
    FindingRanks();
    Sorting.SortOrdered(found, FindingLess);
    Sorting.SortPermutes(found, FindingLess);
    out, truncated := Sorting.Sort(found, FindingLess), Dropped(hits);
  }

  /** Every scan of these sources has the same fingerprints after any move of
      lines, whatever else its results say. */
  ghost predicate SurvivesShifts(sha: string -> string, sources: set<Source>) {
    forall runs: seq<seq<Hit>>, g: Renumbering, out: seq<Finding>, t: bool, out': seq<Finding>, t': bool |
      && Increasing(g) && AllFrom(runs, sources)
      && IsParse(sha, runs, out, t) && IsParse(sha, Sorting.Map(runs, MoveRun(g)), out', t') ::
      Prints(out) == Prints(out') && t == t'
  }

  /** Which holds exactly when no two of the sources clash. */
  lemma SurvivesExactly(sha: string -> string, sources: set<Source>)
    ensures SurvivesShifts(sha, sources) <==> Sound(sources)
  {
    if Sound(sources) {
      forall runs: seq<seq<Hit>>, g: Renumbering, out: seq<Finding>, t: bool, out': seq<Finding>, t': bool |
        && Increasing(g) && AllFrom(runs, sources)
        && IsParse(sha, runs, out, t) && IsParse(sha, Sorting.Map(runs, MoveRun(g)), out', t')
        ensures Prints(out) == Prints(out') && t == t'
      {
        ShiftKeeps(sha, runs, g, sources, out, t, out', t');
      }
    } else {
      var x, y :| x in sources && y in sources && Clash(x, y);
      ClashFails(sha, sources, x, y);
    }
  }

  lemma MovedPair(g: Renumbering, h: Hit, k: Hit)
    ensures Sorting.Map([[h, k]], MoveRun(g)) == [[Move(g)(h), Move(g)(k)]]
  {
    assert MoveRun(g)([h, k]) == [Move(g)(h), Move(g)(k)];
  }

  lemma ClashFails(sha: string -> string, sources: set<Source>, x: Source, y: Source)
    requires x in sources && y in sources && Clash(x, y)
    ensures !SurvivesShifts(sha, sources)
  {
    var h, k, g := ClashParts(x, y);
    assert AllFrom([[h, k]], sources);
    MovedPair(g, h, k);
    PartedFails(sha, sources, h, k, g);
  }

  lemma PartedFails(sha: string -> string, sources: set<Source>, h: Hit, k: Hit, g: Renumbering)
    requires AllFrom([[h, k]], sources) && Parted(h, k, g)
    requires Sorting.Map([[h, k]], MoveRun(g)) == [[Move(g)(h), Move(g)(k)]]
    ensures !SurvivesShifts(sha, sources)
  {
    var h', k' := Move(g)(h), Move(g)(k);
    var out, t := SomeParse(sha, [[h, k]]);
    var out', t' := SomeParse(sha, [[h', k']]);
    PairCounts(sha, h, k, out, t);
    PairCounts(sha, h', k', out', t');
    assert |Prints(out)| != |Prints(out')|;
  }

  /** Such a pair of paths: "a" and "a", NUL, "5". */
  lemma NulPathsClash()
    ensures Clash(Source("gosec", "G101", "a"), Source("gosec", "G101", "a" + [NUL] + "5"))
  {
    var x, y := Source("gosec", "G101", "a"), Source("gosec", "G101", "a" + [NUL] + "5");
    var a, b := Prefix(x), Prefix(y);
    assert b == a + ([NUL] + "5");
    assert b[|a|+1..] == "5";
    CutAbsent("5", NUL);
    assert Itoa(5) == "5";
    ValueOfItoa(5);
  }
}
