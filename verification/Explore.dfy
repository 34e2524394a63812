/** internal/control/explore.go: the public listing, paged by path. */
module Explore {
  import opened Text
  import opened Cursor
  import Lex
  import Sorting

  datatype Repo = Repo(owner: Bytes, name: Bytes)

  function Path(r: Repo): (p: Bytes)
    ensures p != ""
  {
    r.owner + "/" + r.name
  }

  /** A dot-repo is not listed. */
  predicate Dot(r: Repo) { r.name != "" && r.name[0] == '.' }

  function Shown(repos: seq<Repo>): seq<Repo> {
    if repos == [] then []
    else if Dot(repos[|repos|-1]) then Shown(repos[..|repos|-1])
    else Shown(repos[..|repos|-1]) + [repos[|repos|-1]]
  }

  ghost predicate Precedes(repos: seq<Repo>, x: Repo, y: Repo) {
    exists a, b | 0 <= a < b < |repos| :: repos[a] == x && repos[b] == y
  }

  /** `shown` are some of `repos`, in the same order. */
  ghost predicate InOrder(shown: seq<Repo>, repos: seq<Repo>) {
    forall i, j | 0 <= i < j < |shown| :: Precedes(repos, shown[i], shown[j])
  }

  lemma PrecedesMore(repos: seq<Repo>, r: Repo, x: Repo, y: Repo)
    ensures Precedes(repos, x, y) ==> Precedes(repos + [r], x, y)
    ensures x in repos ==> Precedes(repos + [r], x, r)
  {
    var more := repos + [r];
    if Precedes(repos, x, y) {
      var a, b :| 0 <= a < b < |repos| && repos[a] == x && repos[b] == y;
      assert more[a] == x && more[b] == y;
    }
    if x in repos {
      var a :| 0 <= a < |repos| && repos[a] == x;
      assert more[a] == x && more[|repos|] == r;
    }
  }

  lemma InOrderMore(shown: seq<Repo>, repos: seq<Repo>, r: Repo)
    requires InOrder(shown, repos) && forall x <- shown :: x in repos
    ensures InOrder(shown, repos + [r]) && InOrder(shown + [r], repos + [r])
  {
    forall x, y
      ensures Precedes(repos, x, y) ==> Precedes(repos + [r], x, y)
      ensures x in repos ==> Precedes(repos + [r], x, r)
    {
      PrecedesMore(repos, r, x, y);
    }
  }

  /** What is listed: each repository whose name does not begin with a dot, once for
      each time it is there, in the same order. */
  lemma {:induction false} ShownAre(repos: seq<Repo>)
    ensures forall r <- Shown(repos) :: r.name == "" || r.name[0] != '.'
    ensures forall r: Repo | r.name == "" || r.name[0] != '.' :: multiset(Shown(repos))[r] == multiset(repos)[r]
    ensures InOrder(Shown(repos), repos)
  {
    if repos != [] {
      var init, last := repos[..|repos|-1], repos[|repos|-1];
      ShownAre(init);
      ShownIn(init);
      assert repos == init + [last];
      InOrderMore(Shown(init), init, last);
    }
  }

  lemma {:induction false} ShownIn(repos: seq<Repo>)
    ensures forall r <- Shown(repos) :: r in repos
  {
    if repos != [] { ShownIn(repos[..|repos|-1]); }
  }

  /** The paths an unpaged listing shows, in its order. */
  function Paths(repos: seq<Repo>): (ps: seq<Bytes>)
    ensures |ps| == |Shown(repos)| && forall i | 0 <= i < |ps| :: ps[i] == Path(Shown(repos)[i])
  {
    seq(|Shown(repos)|, i requires 0 <= i < |Shown(repos)| => Path(Shown(repos)[i]))
  }

  /** Past the key of a cursor; "" is the start. */
  predicate Past(key: Bytes, p: Bytes) {
    key == "" || Lex.Less(key, p)
  }

  function After(ps: seq<Bytes>, key: Bytes): seq<Bytes> {
    if ps == [] then []
    else if Past(key, ps[|ps|-1]) then After(ps[..|ps|-1], key) + [ps[|ps|-1]]
    else After(ps[..|ps|-1], key)
  }

  function PageOf(rows: seq<Bytes>, limit: nat): (seq<Bytes>, Bytes) {
    TrimPage(limit, rows, "explore", p => p)
  }

  lemma {:induction false} AfterPrefix(ps: seq<Bytes>, key: Bytes, k: nat)
    requires k <= |ps|
    ensures After(ps[..k], key) <= After(ps, key)
  {
    if k < |ps| {
      assert ps[..|ps|-1][..k] == ps[..k];
      AfterPrefix(ps[..|ps|-1], key, k);
    } else {
      assert ps[..k] == ps;
    }
  }

  lemma PathsMore(repos: seq<Repo>, i: nat)
    requires i < |repos|
    ensures Paths(repos[..i+1]) == Paths(repos[..i]) + (if Dot(repos[i]) then [] else [Path(repos[i])])
  {
    assert repos[..i+1][..i] == repos[..i];
  }

  lemma PathsPrefix(repos: seq<Repo>, k: nat)
    requires k <= |repos|
    ensures Paths(repos[..k]) <= Paths(repos)
    decreases |repos| - k
  {
    if k < |repos| {
      PathsMore(repos, k);
      PathsPrefix(repos, k + 1);
    } else {
      assert repos[..k] == repos;
    }
  }

  lemma AfterMore(ps: seq<Bytes>, p: Bytes, key: Bytes)
    ensures After(ps + [p], key) == After(ps, key) + (if Past(key, p) then [p] else [])
  {
    assert (ps + [p])[..|ps|] == ps;
  }

  lemma RowsMore(repos: seq<Repo>, i: nat, key: Bytes)
    requires i < |repos|
    ensures After(Paths(repos[..i+1]), key) ==
      After(Paths(repos[..i]), key) +
        (if !Dot(repos[i]) && Past(key, Path(repos[i])) then [Path(repos[i])] else [])
  {
    PathsMore(repos, i);
    if Dot(repos[i]) {
      assert Paths(repos[..i]) + [] == Paths(repos[..i]);
    } else {
      AfterMore(Paths(repos[..i]), Path(repos[i]), key);
    }
  }

  lemma RowsPrefix(repos: seq<Repo>, i: nat, key: Bytes)
    requires i <= |repos|
    ensures After(Paths(repos[..i]), key) <= After(Paths(repos), key)
  {
    PathsPrefix(repos, i);
    var ps := Paths(repos);
    assert ps[..|Paths(repos[..i])|] == Paths(repos[..i]);
    AfterPrefix(ps, key, |Paths(repos[..i])|);
  }

  /** runExplore: the page after a cursor's key, and the cursor after it. */
  method Explore(repos: seq<Repo>, limit: nat, key: Bytes) returns (page: seq<Bytes>, next: Bytes)
    ensures (page, next) == PageOf(After(Paths(repos), key), limit)
  {
    ghost var all := After(Paths(repos), key);
    var ds: seq<Bytes> := [];
    var i := 0;
    assert repos[..0] == [];
    while i < |repos|
      invariant i <= |repos| && ds == After(Paths(repos[..i]), key)
      invariant limit > 0 ==> |ds| <= limit
    {
      var repo := repos[i];
      RowsMore(repos, i, key);
      RowsPrefix(repos, i + 1, key);
      i := i + 1;
      if repo.name != "" && repo.name[0] == '.' { continue; }
      if key != "" && !Lex.Less(key, Path(repo)) { continue; }
      ds := ds + [Path(repo)];
      if limit > 0 && |ds| > limit { break; }
    }
    if |ds| > limit > 0 {
      assert ds <= all && ds[..limit] == all[..limit];
    } else {
      assert repos[..i] == repos;
    }
    var (p, n) := TrimPage(limit, ds, "explore", (p: Bytes) => p);
    page, next := p, n;
  }

  // -------------------------------------------------------- following the cursors

  predicate Named(ps: seq<Bytes>) {
    forall p <- ps :: p != ""
  }

  lemma {:induction false} AfterIn(ps: seq<Bytes>, key: Bytes)
    ensures |After(ps, key)| <= |ps|
    ensures forall p :: p in After(ps, key) <==> p in ps && Past(key, p)
    ensures key != "" && key in ps ==> |After(ps, key)| < |ps|
  {
    Lex.Irreflexive(key);
    if ps != [] {
      AfterIn(ps[..|ps|-1], key);
      assert ps == ps[..|ps|-1] + [ps[|ps|-1]];
    }
  }

  lemma {:induction false} AfterAfter(ps: seq<Bytes>, key: Bytes, key': Bytes)
    requires key' != "" && Past(key, key')
    ensures After(After(ps, key), key') == After(ps, key')
  {
    if ps != [] {
      var rest, p := ps[..|ps|-1], ps[|ps|-1];
      AfterAfter(rest, key, key');
      if Past(key, p) {
        AfterMore(After(rest, key), p, key');
      } else if Past(key', p) {
        Lex.Transitive(key, key', p);
      }
    }
  }

  ghost predicate AllAbove(page: seq<Bytes>, key: Bytes) {
    forall i | 0 <= i < |page| :: Lex.Less(key, page[i])
  }

  lemma NextRows(rest: seq<Bytes>, limit: nat)
    requires 0 < limit < |rest| && Named(rest)
    ensures Named(rest[limit..]) && Named(After(rest, rest[limit-1]))
    ensures |After(rest, rest[limit-1])| < |rest|
    ensures forall p <- After(rest, rest[limit-1]) :: p in rest
    ensures AllAbove(After(rest, rest[limit-1]), rest[limit-1])
  {
    var key := rest[limit-1];
    assert key in rest && key != "";
    AfterIn(rest, key);
    forall p <- rest[limit..] ensures p in rest {}
    forall i | 0 <= i < |After(rest, key)| ensures Lex.Less(key, After(rest, key)[i]) {
      assert After(rest, key)[i] in After(rest, key);
    }
  }

  /** The pages from the start of a listing on, by the cursor of each. */
  ghost function Pages(rest: seq<Bytes>, limit: nat): (pages: seq<seq<Bytes>>)
    requires limit > 0 && Named(rest)
    ensures |pages| > 0
    decreases |rest|
  {
    if |rest| <= limit then [rest]
    else
      NextRows(rest, limit);
      [rest[..limit]] + Pages(After(rest, rest[limit-1]), limit)
  }

  lemma NextKey(repos: seq<Repo>, limit: nat, key: Bytes)
    requires 0 < limit < |After(Paths(repos), key)| && Named(After(Paths(repos), key))
    ensures var rest := After(Paths(repos), key);
      && After(Paths(repos), rest[limit-1]) == After(rest, rest[limit-1])
      && Named(After(rest, rest[limit-1]))
      && |After(rest, rest[limit-1])| < |rest|
      && DecodeCursor("explore", PageOf(rest, limit).1) == Some(rest[limit-1])
  {
    var rest := After(Paths(repos), key);
    NextRows(rest, limit);
    assert rest[limit-1] in rest;
    OwnCursorOnly("explore", rest[limit-1], "explore");
    AfterIn(Paths(repos), key);
    AfterAfter(Paths(repos), key, rest[limit-1]);
  }

  lemma CursorLeft(rows: seq<Bytes>, limit: nat)
    requires limit > 0
    ensures PageOf(rows, limit).1 == "" <==> |rows| <= limit
    ensures PageOf(rows, limit).0 == if |rows| <= limit then rows else rows[..limit]
  {
    if |rows| > limit { assert |EncodeCursor("explore", rows[limit-1])| > 0; }
  }

  /** The rows a reader of pages has still to come. */
  ghost function Left(repos: seq<Repo>, key: Bytes): seq<Bytes> {
    After(Paths(repos), key)
  }

  lemma LastPage(repos: seq<Repo>, limit: nat, key: Bytes)
    requires limit > 0 && Named(Left(repos, key)) && PageOf(Left(repos, key), limit).1 == ""
    ensures Pages(Left(repos, key), limit) == [PageOf(Left(repos, key), limit).0]
  {
    CursorLeft(Left(repos, key), limit);
  }

  lemma AnotherPage(repos: seq<Repo>, limit: nat, key: Bytes) returns (next: Bytes)
    requires limit > 0 && Named(Left(repos, key)) && PageOf(Left(repos, key), limit).1 != ""
    ensures DecodeCursor("explore", PageOf(Left(repos, key), limit).1) == Some(next)
    ensures Named(Left(repos, next)) && |Left(repos, next)| < |Left(repos, key)|
    ensures Pages(Left(repos, key), limit) ==
      [PageOf(Left(repos, key), limit).0] + Pages(Left(repos, next), limit)
  {
    CursorLeft(Left(repos, key), limit);
    NextKey(repos, limit, key);
    next := Left(repos, key)[limit-1];
    PagesMore(Left(repos, key), limit);
  }

  lemma PagesMore(rest: seq<Bytes>, limit: nat)
    requires 0 < limit < |rest| && Named(rest)
    ensures Named(After(rest, rest[limit-1]))
    ensures Pages(rest, limit) == [rest[..limit]] + Pages(After(rest, rest[limit-1]), limit)
  {
    NextRows(rest, limit);
  }

  /** Asking for page after page ends, with those pages. */
  method Browse(repos: seq<Repo>, limit: nat) returns (pages: seq<seq<Bytes>>)
    requires limit > 0
    ensures Named(Paths(repos)) && pages == Pages(Paths(repos), limit)
  {
    pages := [];
    var key: Bytes := "";
    FromStart(Paths(repos));
    while true
      invariant Named(Paths(repos)) && Named(Left(repos, key))
      invariant pages + Pages(Left(repos, key), limit) == Pages(Paths(repos), limit)
      decreases |Left(repos, key)|
    {
      var page, next := Explore(repos, limit, key);
      if next == "" {
        LastPage(repos, limit, key);
        pages := pages + [page];
        break;
      }
      ghost var _ := AnotherPage(repos, limit, key);
      pages := pages + [page];
      key := DecodeCursor("explore", next).value;
    }
  }

  lemma {:induction false} FromStart(ps: seq<Bytes>)
    ensures After(ps, "") == ps
  {
    if ps != [] {
      FromStart(ps[..|ps|-1]);
      assert ps == ps[..|ps|-1] + [ps[|ps|-1]];
    }
  }

  /** Every page but the last is full, and the next one is past its key. */
  lemma {:induction false} PagesFull(rest: seq<Bytes>, limit: nat, i: nat)
    requires limit > 0 && Named(rest) && i < |Pages(rest, limit)|
    ensures |Pages(rest, limit)[i]| <= limit
    ensures forall p <- Pages(rest, limit)[i] :: p in rest
    ensures i < |Pages(rest, limit)| - 1 ==>
      && |Pages(rest, limit)[i]| == limit
      && AllAbove(Pages(rest, limit)[i+1], Pages(rest, limit)[i][limit-1])
    decreases |rest|
  {
    if |rest| > limit {
      var key := rest[limit-1];
      NextRows(rest, limit);
      var a := After(rest, key);
      PagesFull(a, limit, if i == 0 then 0 else i - 1);
      if i == 0 {
        var page := Pages(a, limit)[0];
        forall j | 0 <= j < |page| ensures Lex.Less(key, page[j]) {
          assert page[j] in page && page[j] in a;
        }
      }
    }
  }

  ghost function Flatten(pages: seq<seq<Bytes>>): seq<Bytes> {
    if pages == [] then [] else pages[0] + Flatten(pages[1..])
  }

  /** At each page's end, what is left is exactly what is past the key. */
  ghost predicate Splits(rest: seq<Bytes>, limit: nat)
    requires limit > 0
  {
    |rest| > limit ==> After(rest, rest[limit-1]) == rest[limit..] && Splits(rest[limit..], limit)
  }

  lemma {:induction false} AfterSplit(a: seq<Bytes>, b: seq<Bytes>, key: Bytes)
    ensures After(a + b, key) == After(a, key) + After(b, key)
  {
    if b == [] {
      assert a + b == a;
    } else {
      AfterSplit(a, b[..|b|-1], key);
      AfterMore(a + b[..|b|-1], b[|b|-1], key);
      assert a + b[..|b|-1] + [b[|b|-1]] == a + b;
    }
  }

  lemma {:induction false} AllPast(ps: seq<Bytes>, key: Bytes)
    requires forall p <- ps :: Past(key, p)
    ensures After(ps, key) == ps
  {
    if ps != [] {
      AllPast(ps[..|ps|-1], key);
      assert ps == ps[..|ps|-1] + [ps[|ps|-1]];
    }
  }

  lemma FlattenMore(page: seq<Bytes>, pages: seq<seq<Bytes>>)
    ensures Flatten([page] + pages) == page + Flatten(pages)
  {
    assert ([page] + pages)[1..] == pages;
  }

  /** Two rows that share a first page cannot both start what is left. */
  lemma StartsWithPast(rest: seq<Bytes>, limit: nat)
    requires 0 < limit < |rest| && Named(rest) && Sorting.NoRepeats(rest)
    requires Named(After(rest, rest[limit-1]))
    requires Flatten(Pages(After(rest, rest[limit-1]), limit)) == rest[limit..]
    ensures After(rest, rest[limit-1]) == rest[limit..]
  {
    var key := rest[limit-1];
    var first, left := rest[..limit], rest[limit..];
    assert rest == first + left;
    var again := After(first, key);
    AfterSplit(first, left, key);
    AfterIn(first, key);
    var a := After(rest, key);
    PagesIn(a, limit);
    AfterIn(rest, key);
    forall p <- left ensures Past(key, p) {
      assert p in Flatten(Pages(a, limit));
    }
    AllPast(left, key);
    if again != [] {
      assert again[0] in first;
      PagesHead(a, limit);
      assert false;
    }
  }

  lemma {:induction false} PagesIn(rest: seq<Bytes>, limit: nat)
    requires limit > 0 && Named(rest)
    ensures forall p <- Flatten(Pages(rest, limit)) :: p in rest
    decreases |rest|
  {
    if |rest| > limit {
      var key := rest[limit-1];
      NextRows(rest, limit);
      PagesIn(After(rest, key), limit);
      FlattenMore(rest[..limit], Pages(After(rest, key), limit));
    } else {
      FlattenMore(rest, []);
    }
  }

  lemma PagesHead(rest: seq<Bytes>, limit: nat)
    requires limit > 0 && Named(rest) && rest != []
    ensures Flatten(Pages(rest, limit)) != [] && Flatten(Pages(rest, limit))[0] == rest[0]
  {
    if |rest| > limit {
      NextRows(rest, limit);
      FlattenMore(rest[..limit], Pages(After(rest, rest[limit-1]), limit));
    } else {
      FlattenMore(rest, []);
    }
  }

  /** The pages are the listing, each row once and in order, exactly when
      every page end splits it. */
  lemma {:induction false} VisitsAll(rest: seq<Bytes>, limit: nat)
    requires limit > 0 && Named(rest) && Sorting.NoRepeats(rest)
    ensures Flatten(Pages(rest, limit)) == rest <==> Splits(rest, limit)
    decreases |rest|
  {
    if |rest| <= limit {
      FlattenMore(rest, []);
    } else {
      var key := rest[limit-1];
      NextRows(rest, limit);
      var a, left := After(rest, key), rest[limit..];
      FlattenMore(rest[..limit], Pages(a, limit));
      assert rest == rest[..limit] + left;
      VisitsAll(left, limit);
      if Flatten(Pages(rest, limit)) == rest {
        assert Flatten(Pages(a, limit)) == left;
        StartsWithPast(rest, limit);
      }
    }
  }

  lemma {:induction false} AscendingSplits(ps: seq<Bytes>, limit: nat)
    requires limit > 0 && Named(ps) && Lex.Ascending(ps)
    ensures Splits(ps, limit)
    decreases |ps|
  {
    if |ps| > limit {
      var key, first, left := ps[limit-1], ps[..limit], ps[limit..];
      assert ps == first + left;
      AfterSplit(first, left, key);
      AllPast(left, key);
      AfterIn(first, key);
      if After(first, key) != [] {
        var p := After(first, key)[0];
        assert p in After(first, key);
        var i :| 0 <= i < limit && first[i] == p;
        Lex.Irreflexive(key);
        assert key in ps && ps[i] == p;
        if i < limit - 1 { Lex.Asymmetric(p, key); }
        assert false;
      }
      AscendingSplits(left, limit);
    }
  }

  lemma {:induction false} SplitsAscending(ps: seq<Bytes>)
    requires Named(ps) && Splits(ps, 1)
    ensures Lex.Ascending(ps)
    decreases |ps|
  {
    if |ps| > 1 {
      NextRows(ps, 1);
      SplitsAscending(ps[1..]);
      forall i, j | 0 <= i < j < |ps| ensures Lex.Less(ps[i], ps[j]) {
        var left := ps[1..];
        assert left[j-1] == ps[j] && left[j-1] in left;
        if i > 0 {
          assert Lex.Less(left[i-1], left[j-1]);
        }
      }
    }
  }

  /** Pages of this size are the listing, each row once and in order. */
  ghost predicate VisitsOnce(ps: seq<Bytes>, limit: nat)
    requires limit > 0 && Named(ps)
  {
    Flatten(Pages(ps, limit)) == ps
  }

  /** Pages of every size visit a listing in full exactly when it is in the
      order of its paths. */
  lemma EverySizeVisitsAll(ps: seq<Bytes>)
    requires Named(ps) && Sorting.NoRepeats(ps)
    ensures (forall limit: nat | limit > 0 :: VisitsOnce(ps, limit)) <==> Lex.Ascending(ps)
  {
    if forall limit: nat | limit > 0 :: VisitsOnce(ps, limit) {
      assert VisitsOnce(ps, 1);
      VisitsAll(ps, 1);
      SplitsAscending(ps);
    }
    if Lex.Ascending(ps) {
      forall limit: nat | limit > 0 ensures VisitsOnce(ps, limit) {
        AscendingSplits(ps, limit);
        VisitsAll(ps, limit);
      }
    }
  }

  // ------------------------------------------------- the order the store lists in

  /** ListPublicRepos: by owner, then name. */
  predicate Before(r: Repo, q: Repo) {
    Lex.Less(r.owner, q.owner) || (r.owner == q.owner && Lex.Less(r.name, q.name))
  }

  ghost predicate ByOwner(repos: seq<Repo>) {
    forall i, j | 0 <= i < j < |repos| :: Before(repos[i], repos[j])
  }

  /** `q` is `o` with more after it that sorts below '/'. */
  predicate Undercuts(o: string, q: string) {
    |o| < |q| && q[..|o|] == o && q[|o|] < '/'
  }

  lemma {:induction false} PathOrder(o: string, n: string, q: string, m: string)
    requires '/' !in o && '/' !in q && Lex.Less(o, q)
    ensures Lex.Less(o + "/" + n, q + "/" + m) <==> !Undercuts(o, q)
  {
    var a, b := o + "/" + n, q + "/" + m;
    if o == "" {
      assert a[0] == '/' && b[0] == q[0];
    } else {
      assert a[0] == o[0] && b[0] == q[0];
      if o[0] == q[0] {
        PathOrder(o[1..], n, q[1..], m);
        assert a[1..] == o[1..] + "/" + n && b[1..] == q[1..] + "/" + m;
        assert |o| < |q| ==> (q[..|o|] == o <==> q[1..][..|o|-1] == o[1..]) by {
          if |o| < |q| {
            assert q[..|o|] == [q[0]] + q[1..][..|o|-1] && o == [o[0]] + o[1..];
          }
        }
      }
    }
  }

  lemma {:induction false} SameOwnerOrder(o: string, n: string, m: string)
    ensures Lex.Less(o + "/" + n, o + "/" + m) <==> Lex.Less(n, m)
  {
    var a, b := o + "/" + n, o + "/" + m;
    if o == "" {
      assert a[1..] == n && b[1..] == m;
    } else {
      SameOwnerOrder(o[1..], n, m);
      assert a[1..] == o[1..] + "/" + n && b[1..] == o[1..] + "/" + m;
    }
  }

  lemma {:induction false} ShownByOwner(repos: seq<Repo>)
    requires ByOwner(repos)
    ensures ByOwner(Shown(repos)) && forall r <- Shown(repos) :: r in repos
  {
    if repos != [] {
      var init := repos[..|repos|-1];
      ShownByOwner(init);
      var shown := Shown(repos);
      forall i, j | 0 <= i < j < |shown| ensures Before(shown[i], shown[j]) {
        assert shown[i] == Shown(init)[i] && shown[i] in init;
        var k :| 0 <= k < |init| && init[k] == shown[i];
        assert repos[k] == shown[i];
      }
    }
  }

  lemma PathBefore(r: Repo, q: Repo)
    requires Before(r, q) && '/' !in r.owner && '/' !in q.owner
    ensures Path(r) != Path(q)
    ensures Lex.Less(Path(r), Path(q)) <==> !Undercuts(r.owner, q.owner)
  {
    Lex.Irreflexive(r.owner);
    if r.owner == q.owner {
      SameOwnerOrder(r.owner, r.name, q.name);
      Lex.Asymmetric(Path(r), Path(q));
    } else {
      PathOrder(r.owner, r.name, q.owner, q.name);
      assert Cut(Path(r), '/').0 == r.owner && Cut(Path(q), '/').0 == q.owner by {
        CutAt(r.owner, r.name, '/');
        CutAt(q.owner, q.name, '/');
      }
    }
  }

  ghost predicate NoneUndercut(shown: seq<Repo>) {
    forall i, j | 0 <= i < j < |shown| :: !Undercuts(shown[i].owner, shown[j].owner)
  }

  lemma PathPair(repos: seq<Repo>, i: nat, j: nat)
    requires ByOwner(repos) && (forall r <- repos :: '/' !in r.owner) && i < j < |Shown(repos)|
    ensures var shown, ps := Shown(repos), Paths(repos);
      && ps[i] != ps[j]
      && (Lex.Less(ps[i], ps[j]) <==> !Undercuts(shown[i].owner, shown[j].owner))
  {
    var shown := Shown(repos);
    ShownByOwner(repos);
    assert shown[i] in shown && shown[j] in shown;
    PathBefore(shown[i], shown[j]);
  }

  lemma PathsByOwner(repos: seq<Repo>)
    requires ByOwner(repos) && forall r <- repos :: '/' !in r.owner
    ensures Sorting.NoRepeats(Paths(repos))
    ensures Lex.Ascending(Paths(repos)) <==> NoneUndercut(Shown(repos))
  {
    forall i: nat, j: nat | i < j < |Shown(repos)|
      ensures Paths(repos)[i] != Paths(repos)[j]
      ensures Lex.Less(Paths(repos)[i], Paths(repos)[j]) <==>
        !Undercuts(Shown(repos)[i].owner, Shown(repos)[j].owner)
    {
      PathPair(repos, i, j);
    }
    SameVerdicts(Paths(repos), Shown(repos));
  }

  lemma SameVerdicts(ps: seq<Bytes>, shown: seq<Repo>)
    requires |ps| == |shown|
    requires forall i: nat, j: nat | i < j < |shown| ::
      Lex.Less(ps[i], ps[j]) <==> !Undercuts(shown[i].owner, shown[j].owner)
    ensures Lex.Ascending(ps) <==> NoneUndercut(shown)
  {
    if Lex.Ascending(ps) {
      forall i, j | 0 <= i < j < |shown| ensures !Undercuts(shown[i].owner, shown[j].owner) {
        assert Lex.Less(ps[i], ps[j]);
      }
    }
    if NoneUndercut(shown) {
      forall i, j | 0 <= i < j < |ps| ensures Lex.Less(ps[i], ps[j]) {
        assert !Undercuts(shown[i].owner, shown[j].owner);
      }
    }
  }

  lemma NotUndercutEarlier(repos: seq<Repo>, i: nat, j: nat)
    requires ByOwner(repos) && j <= i < |Shown(repos)|
    ensures !Undercuts(Shown(repos)[i].owner, Shown(repos)[j].owner)
  {
    var o, q := Shown(repos)[i].owner, Shown(repos)[j].owner;
    if Undercuts(o, q) {
      ShownByOwner(repos);
      PrefixLess(o, q);
      Lex.Asymmetric(o, q);
      assert false;
    }
  }

  /** Following the cursors shows every listed repository once and in order,
      whatever the page size, exactly when no owner listed is another owner
      listed with '-' or '.' after it. */
  lemma ExploreVisitsAll(repos: seq<Repo>)
    requires ByOwner(repos) && forall r <- repos :: '/' !in r.owner
    ensures Named(Paths(repos))
    ensures (forall limit: nat | limit > 0 :: VisitsOnce(Paths(repos), limit)) <==>
      (forall i, j | 0 <= i < |Shown(repos)| && 0 <= j < |Shown(repos)| ::
        !Undercuts(Shown(repos)[i].owner, Shown(repos)[j].owner))
  {
    PathsByOwner(repos);
    EverySizeVisitsAll(Paths(repos));
    forall i: nat, j: nat | j <= i < |Shown(repos)|
      ensures !Undercuts(Shown(repos)[i].owner, Shown(repos)[j].owner)
    {
      NotUndercutEarlier(repos, i, j);
    }
  }

  lemma {:induction false} PrefixLess(o: string, q: string)
    requires |o| < |q| && q[..|o|] == o
    ensures Lex.Less(o, q)
  {
    if o != "" {
      assert q[0] == q[..|o|][0];
      assert q[1..][..|o|-1] == o[1..];
      PrefixLess(o[1..], q[1..]);
    }
  }

  /** One page at a time, "a" and "a-b" show the first and lose the second. */
  lemma SecondOwnerLost()
    ensures var repos := [Repo("a", "x"), Repo("a-b", "y")];
      ByOwner(repos) && Named(Paths(repos)) && Flatten(Pages(Paths(repos), 1)) == ["a/x"]
  {
    var repos := [Repo("a", "x"), Repo("a-b", "y")];
    assert Lex.Less("a", "a-b");
    TwoPaths(repos);
    assert Path(repos[0]) == "a/x" && Path(repos[1]) == "a-b/y";
    assert !Lex.Less("a/x", "a-b/y");
    LostAfter("a/x", "a-b/y");
  }

  lemma TwoPaths(repos: seq<Repo>)
    requires |repos| == 2 && !Dot(repos[0]) && !Dot(repos[1])
    ensures Paths(repos) == [Path(repos[0]), Path(repos[1])]
  {
    assert repos[..2] == repos && repos[..0] == [];
    PathsMore(repos, 0);
    PathsMore(repos, 1);
  }

  lemma LostAfter(p: Bytes, q: Bytes)
    requires p != "" && q != "" && !Lex.Less(p, q)
    ensures Flatten(Pages([p, q], 1)) == [p]
  {
    var ps := [p, q];
    AfterMore([], p, p);
    AfterMore([p], q, p);
    Lex.Irreflexive(p);
    assert [] + [p] == [p] && [p] + [q] == ps && After(ps, p) == [];
    assert Pages(ps, 1) == [[p], []];
    FlattenMore([p], [[]]);
    FlattenMore([], []);
  }
}
