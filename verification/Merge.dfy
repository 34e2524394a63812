/** internal/control/mr.go: landing a merge request on its target branch,
    while pushes and other merges move branches around it. */
module Merge {
  import opened CommitGraph
  import opened MergeRequest
  import opened Text

  /** A row of merge_requests; `head` is what refs/merge-requests/N/head
      resolves to, and the messages are formatted from its title and body. */
  datatype Request = Request(
    state: State, source: string, target: string, fromFork: bool, head: Id,
    author: Author, squashMessage: string, mergeMessage: string)

  datatype Settings = Settings(archived: bool, requireSigned: bool)

  /** Who merges: `email` is "" without a verified primary address, and
      `queued` says the merge queue acts for them. */
  datatype Merger = Merger(name: string, email: string, queued: bool)

  datatype Refusal =
    | Archived | NotOpen | NoTarget | Gates | BehindSigned | Unverified(c: Id) | NoEmail
    | NotFastForward | Conflict | MergeInRange(c: Id) | Stacked | TargetMoved | Failed

  datatype Outcome = Landed(strategy: Strategy, sha: Id) | Recorded(sha: Id) | Refused(why: Refusal)

  datatype Result<+T> = Ok(value: T) | Err(why: Refusal)

  /** git's tree merges: None is a conflict. */
  datatype Trees = Trees(merge: (Id, Id) -> Option<nat>, onto: (Id, Id, Id) -> Option<nat>)

  datatype Plan = Plan(targetSHA: Id, headSHA: Id, ffPossible: bool, strategy: Strategy)

  /** chooseStrategy: the default is a fast-forward when there is one, and a
      rebase with nothing to replay is one too. */
  function ChooseStrategy(p: Plan): (r: Plan)
    ensures r == p.(strategy := r.strategy) && r.strategy != Default
    ensures r.strategy == FastForward <==>
            p.strategy == FastForward || (p.ffPossible && (p.strategy == Default || p.strategy == Rebase))
    ensures r.strategy != FastForward && p.strategy != Default ==> r.strategy == p.strategy
    ensures r.strategy != FastForward && p.strategy == Default ==> r.strategy == MergeCommit
  {
    var s := if p.strategy == Default then (if p.ffPossible then FastForward else MergeCommit) else p.strategy;
    p.(strategy := if s == Rebase && p.ffPossible then FastForward else s)
  }

  function Reverse(xs: seq<Id>): (r: seq<Id>)
    ensures |r| == |xs| && forall i | 0 <= i < |xs| :: r[i] == xs[|xs|-1-i]
  {
    seq(|xs|, i requires 0 <= i < |xs| => xs[|xs|-1-i])
  }

  // -------------------------------------------------------------------- rebase

  /** Where a replay's change is measured from: the commit's parent, or the
      new tip for a root. */
  function ReplayBase(c: Commit, onto: Id): Id {
    if |c.parents| == 1 then c.parents[0] else onto
  }

  /** `chain[i+1]` is `src[i]` replayed onto `chain[i]` by `who`. */
  ghost predicate Replayed(g: Graph, trees: Trees, src: seq<Id>, chain: seq<Id>, who: Committer) {
    && |chain| == |src| + 1
    && (forall c <- chain :: c < |g|)
    && forall i | 0 <= i < |src| :: ReplayedOne(g, trees, src[i], chain[i], chain[i+1], who)
  }

  ghost predicate ReplayedOne(g: Graph, trees: Trees, c: Id, onto: Id, next: Id, who: Committer) {
    && c < |g| && next < |g| && |g[c].parents| <= 1
    && g[next].parents == [onto]
    && g[next].author == g[c].author && g[next].message == g[c].message
    && g[next].committer == who
    && Some(g[next].tree) == trees.onto(ReplayBase(g[c], onto), onto, c)
  }

  lemma {:induction false} ChainReaches(g: Graph, trees: Trees, src: seq<Id>, chain: seq<Id>, who: Committer, i: nat)
    requires Acyclic(g) && Replayed(g, trees, src, chain, who) && i < |chain|
    ensures Ancestor(g, chain[0], chain[i])
  {
    if i > 0 {
      ChainReaches(g, trees, src, chain, who, i - 1);
      assert ReplayedOne(g, trees, src[i-1], chain[i-1], chain[i], who);
      ParentIsAncestor(g, chain[i-1], chain[i]);
      AncestorTransitive(g, chain[0], chain[i-1], chain[i]);
    }
  }

  lemma OneMoreReplayed(g: Graph, trees: Trees, src: seq<Id>, i: nat, chain: seq<Id>, next: Id, who: Committer)
    requires i < |src| && Replayed(g, trees, src[..i], chain, who)
    requires ReplayedOne(g, trees, src[i], chain[i], next, who)
    ensures Replayed(g, trees, src[..i+1], chain + [next], who)
  {
    var src', chain' := src[..i+1], chain + [next];
    forall k | 0 <= k < |src'| ensures ReplayedOne(g, trees, src'[k], chain'[k], chain'[k+1], who) {
      if k < i { assert ReplayedOne(g, trees, src[..i][k], chain[k], chain[k+1], who); }
    }
  }

  lemma ReplayedLater(g: Graph, g': Graph, trees: Trees, src: seq<Id>, chain: seq<Id>, who: Committer)
    requires Replayed(g, trees, src, chain, who) && g <= g'
    ensures Replayed(g', trees, src, chain, who)
  {
    forall i | 0 <= i < |src| ensures ReplayedOne(g', trees, src[i], chain[i], chain[i+1], who) {
      assert ReplayedOne(g, trees, src[i], chain[i], chain[i+1], who);
    }
  }

  /** Who commits what the server makes. */
  function Identity(who: Merger): Committer { Committer(who.name, who.email) }

  /** A squash credits the request's author when they have a verified
      address, else the merger. */
  function SquashAuthor(r: Request, who: Merger): Author {
    if r.author.email != "" then r.author else Author(who.name, who.email, "")
  }

  ghost predicate Rebased(g: Graph, trees: Trees, p: Plan, who: Merger, sha: Id)
    requires Acyclic(g)
  {
    exists src, chain ::
      && IsRange(g, p.targetSHA, p.headSHA, src)
      && Replayed(g, trees, src, chain, Committer(who.name, who.email))
      && chain[0] == p.targetSHA && chain[|chain|-1] == sha
  }

  /** What each strategy puts on the target. */
  ghost predicate Built(g: Graph, trees: Trees, p: Plan, r: Request, who: Merger, sha: Id)
    requires Acyclic(g)
  {
    && sha < |g| && p.headSHA < |g|
    && match p.strategy
       case FastForward => sha == p.headSHA && p.ffPossible
       case MergeCommit =>
         && g[sha].parents == [p.targetSHA, p.headSHA]
         && g[sha].author == Author(who.name, who.email, "") && g[sha].committer == Committer(who.name, who.email)
         && g[sha].message == r.mergeMessage
         && Some(g[sha].tree) == trees.merge(p.targetSHA, p.headSHA)
       case Squash =>
         && g[sha].parents == [p.targetSHA]
         && (r.author.email != "" ==> g[sha].author == r.author)
         && (r.author.email == "" ==> g[sha].author == Author(who.name, who.email, ""))
         && g[sha].committer == Committer(who.name, who.email)
         && g[sha].message == r.squashMessage
         && Some(g[sha].tree) == (if p.ffPossible then Some(g[p.headSHA].tree) else trees.merge(p.targetSHA, p.headSHA))
       case Rebase => Rebased(g, trees, p, who, sha)
       case Default => false
  }

  lemma BuiltKeepsTarget(g: Graph, trees: Trees, p: Plan, r: Request, who: Merger, sha: Id)
    requires Acyclic(g) && Built(g, trees, p, r, who, sha)
    requires p.ffPossible ==> Ancestor(g, p.targetSHA, p.headSHA)
    ensures Ancestor(g, p.targetSHA, sha)
  {
    match p.strategy
    case FastForward =>
    case MergeCommit => ParentIsAncestor(g, p.targetSHA, sha);
    case Squash => ParentIsAncestor(g, p.targetSHA, sha);
    case Rebase =>
      var src, chain :|
        && IsRange(g, p.targetSHA, p.headSHA, src)
        && Replayed(g, trees, src, chain, Committer(who.name, who.email))
        && chain[0] == p.targetSHA && chain[|chain|-1] == sha;
      ChainReaches(g, trees, src, chain, Committer(who.name, who.email), |chain| - 1);
  }

  /** A rebase replays the request's own line of commits, one for one and in
      order: each source commit's only parent is the one replayed before it. */
  lemma RebaseInOrder(g: Graph, trees: Trees, p: Plan, r: Request, who: Merger, sha: Id) returns (src: seq<Id>, chain: seq<Id>)
    requires Acyclic(g) && Built(g, trees, p, r, who, sha) && p.strategy == Rebase
    requires !Ancestor(g, p.headSHA, p.targetSHA)
    ensures Replayed(g, trees, src, chain, Committer(who.name, who.email)) && chain[0] == p.targetSHA && chain[|chain|-1] == sha
    ensures |src| > 0 && src[|src|-1] == p.headSHA
    ensures forall i | 0 < i < |src| :: src[i] < |g| && g[src[i]].parents == [src[i-1]]
    ensures forall c: Id :: c in src <==> InRange(g, p.targetSHA, p.headSHA, c)
  {
    src, chain :|
      && IsRange(g, p.targetSHA, p.headSHA, src)
      && Replayed(g, trees, src, chain, Committer(who.name, who.email))
      && chain[0] == p.targetSHA && chain[|chain|-1] == sha;
    assert InRange(g, p.targetSHA, p.headSHA, p.headSHA);
    forall c | c in src && c < |g| ensures |g[c].parents| <= 1 {
      var i :| 0 <= i < |src| && src[i] == c;
      assert ReplayedOne(g, trees, src[i], chain[i], chain[i+1], Committer(who.name, who.email));
    }
    LinearRange(g, p.targetSHA, p.headSHA, src, |src| - 1);
    forall i | 0 < i < |src| ensures src[i] < |g| && g[src[i]].parents == [src[i-1]] {
      LinearRange(g, p.targetSHA, p.headSHA, src, i - 1);
    }
  }

  // ------------------------------------------------------- what a rebase changes

  /** What a tree holds: the blob at each path. */
  type Contents = nat -> map<string, nat>

  function BlobAt(g: Graph, contents: Contents, c: Id, path: string): Option<nat>
    requires c < |g|
  {
    var files := contents(g[c].tree);
    if path in files then Some(files[path]) else None
  }

  /** A clean three-way merge of one path: a side that left it alone gives way. */
  predicate CleanMerge(base: Option<nat>, ours: Option<nat>, theirs: Option<nat>, merged: Option<nat>) {
    && (theirs == base ==> merged == ours)
    && (ours == base ==> merged == theirs)
    && (ours == theirs ==> merged == ours)
  }

  /** git merge-tree --merge-base, path by path. */
  ghost predicate ThreeWay(g: Graph, trees: Trees, contents: Contents) {
    forall base: Id, ours: Id, theirs: Id, path: string |
      base < |g| && ours < |g| && theirs < |g| && trees.onto(base, ours, theirs).Some? ::
      var files := contents(trees.onto(base, ours, theirs).value);
      CleanMerge(BlobAt(g, contents, base, path), BlobAt(g, contents, ours, path), BlobAt(g, contents, theirs, path),
        if path in files then Some(files[path]) else None)
  }

  /** What a commit's parent has at a path: nothing, for a root. */
  function BlobBefore(g: Graph, contents: Contents, c: Id, path: string): Option<nat>
    requires Acyclic(g) && c < |g|
  {
    if g[c].parents == [] then None else
      assert g[c].parents[0] in g[c].parents;
      BlobAt(g, contents, g[c].parents[0], path)
  }

  predicate Leaves(g: Graph, contents: Contents, c: Id, path: string)
    requires Acyclic(g) && c < |g|
  {
    BlobAt(g, contents, c, path) == BlobBefore(g, contents, c, path)
  }

  /** A replayed commit makes its source's change: a path the source leaves alone
      stays, one its parent and the new tip agree on becomes what the source has.
      A root replaces everything. */
  lemma ReplayChanges(g: Graph, trees: Trees, contents: Contents, c: Id, onto: Id, next: Id, who: Committer, path: string)
    requires Acyclic(g) && ThreeWay(g, trees, contents) && onto < |g| && ReplayedOne(g, trees, c, onto, next, who)
    ensures g[c].parents != [] ==>
      CleanMerge(BlobBefore(g, contents, c, path), BlobAt(g, contents, onto, path), BlobAt(g, contents, c, path),
        BlobAt(g, contents, next, path))
    ensures g[c].parents == [] ==> BlobAt(g, contents, next, path) == BlobAt(g, contents, c, path)
  {
    if g[c].parents != [] { assert g[c].parents[0] in g[c].parents; }
  }

  /** A line of commits, each the only parent of the next, as RebaseInOrder finds it. */
  ghost predicate Line(g: Graph, src: seq<Id>) {
    && |src| > 0 && (forall i | 0 <= i < |src| :: src[i] < |g|)
    && forall i | 0 < i < |src| :: g[src[i]].parents == [src[i-1]]
  }

  /** Replayed up to `i`, a path left alone is the target's, or gone after a root. */
  lemma {:induction false} LeftAlone(g: Graph, trees: Trees, contents: Contents, src: seq<Id>, chain: seq<Id>,
      who: Committer, path: string, i: nat)
    requires Acyclic(g) && ThreeWay(g, trees, contents) && Line(g, src) && Replayed(g, trees, src, chain, who)
    requires chain[0] < |g| && forall c <- src :: c < |g| && Leaves(g, contents, c, path)
    requires 0 < i <= |src|
    ensures chain[i] in chain && BlobAt(g, contents, chain[i], path) ==
      if g[src[0]].parents == [] then None else BlobAt(g, contents, chain[0], path)
  {
    assert chain[i-1] in chain && chain[0] in chain && src[i-1] in src;
    assert ReplayedOne(g, trees, src[i-1], chain[i-1], chain[i], who);
    ReplayChanges(g, trees, contents, src[i-1], chain[i-1], chain[i], who, path);
    assert Leaves(g, contents, src[i-1], path);
    if i > 1 {
      LeftAlone(g, trees, contents, src, chain, who, path, i - 1);
      assert g[src[i-1]].parents == [src[i-2]];
    }
  }

  /** Replayed up to `i`, a path the target has as the range found it follows the range. */
  lemma {:induction false} FollowsRange(g: Graph, trees: Trees, contents: Contents, src: seq<Id>, chain: seq<Id>,
      who: Committer, path: string, i: nat)
    requires Acyclic(g) && ThreeWay(g, trees, contents) && Line(g, src) && Replayed(g, trees, src, chain, who)
    requires chain[0] < |g|
    requires g[src[0]].parents == [] || BlobAt(g, contents, chain[0], path) == BlobBefore(g, contents, src[0], path)
    requires 0 < i <= |src|
    ensures chain[i] in chain && BlobAt(g, contents, chain[i], path) == BlobAt(g, contents, src[i-1], path)
  {
    assert chain[i-1] in chain && src[i-1] in src;
    assert ReplayedOne(g, trees, src[i-1], chain[i-1], chain[i], who);
    ReplayChanges(g, trees, contents, src[i-1], chain[i-1], chain[i], who, path);
    if i > 1 { FollowsRange(g, trees, contents, src, chain, who, path, i - 1); }
  }

  /** A rebase at one path. Left alone by the whole range, it stays as on the
      target exactly when the range does not start at a root or the target has
      nothing there. Where the target had what the range started from, the new
      tip has what the head has. */
  lemma RebaseChanges(g: Graph, trees: Trees, contents: Contents, p: Plan, r: Request, who: Merger, sha: Id,
      path: string) returns (src: seq<Id>)
    requires Acyclic(g) && Built(g, trees, p, r, who, sha) && p.strategy == Rebase && p.targetSHA < |g|
    requires !Ancestor(g, p.headSHA, p.targetSHA) && ThreeWay(g, trees, contents)
    ensures Line(g, src) && src[|src|-1] == p.headSHA
    ensures forall c: Id :: c in src <==> InRange(g, p.targetSHA, p.headSHA, c)
    ensures (forall c <- src :: c < |g| && Leaves(g, contents, c, path)) ==>
      (BlobAt(g, contents, sha, path) == BlobAt(g, contents, p.targetSHA, path) <==>
        g[src[0]].parents != [] || BlobAt(g, contents, p.targetSHA, path) == None)
    ensures BlobAt(g, contents, p.targetSHA, path) == BlobBefore(g, contents, src[0], path) ==>
      BlobAt(g, contents, sha, path) == BlobAt(g, contents, p.headSHA, path)
  {
    var chain;
    src, chain := RebaseInOrder(g, trees, p, r, who, sha);
    forall i | 0 <= i < |src| ensures src[i] < |g| {
      assert ReplayedOne(g, trees, src[i], chain[i], chain[i+1], Committer(who.name, who.email));
    }
    if forall c <- src :: c < |g| && Leaves(g, contents, c, path) {
      LeftAlone(g, trees, contents, src, chain, Committer(who.name, who.email), path, |src|);
    }
    if BlobAt(g, contents, p.targetSHA, path) == BlobBefore(g, contents, src[0], path) {
      FollowsRange(g, trees, contents, src, chain, Committer(who.name, who.email), path, |src|);
    }
  }

  lemma BuiltLater(g: Graph, g': Graph, trees: Trees, p: Plan, r: Request, who: Merger, sha: Id)
    requires Acyclic(g) && Acyclic(g') && g <= g' && p.targetSHA < |g| && p.headSHA < |g|
    requires Built(g, trees, p, r, who, sha)
    ensures Built(g', trees, p, r, who, sha)
  {
    if p.strategy == Rebase {
      var src, chain :|
        && IsRange(g, p.targetSHA, p.headSHA, src)
        && Replayed(g, trees, src, chain, Committer(who.name, who.email))
        && chain[0] == p.targetSHA && chain[|chain|-1] == sha;
      RangeStable(g, g', p.targetSHA, p.headSHA, src);
      ReplayedLater(g, g', trees, src, chain, Committer(who.name, who.email));
    }
  }

  // -------------------------------------------------------------------- stacks

  /** The open requests stacked on `r`: those whose target is its source branch. */
  function StackOf(rows: map<nat, Request>, r: Request): set<nat> {
    if r.fromFork then {} else set k | k in rows && rows[k].state == Open && rows[k].target == r.source
  }

  predicate Rewrites(s: Strategy) { s == Squash || s == Rebase }

  /** stackForMerge: a rewriting merge is refused over a stack it sees. With
      `listed` false the listing failed, and its error is dropped. */
  function StackForMerge(rows: map<nat, Request>, r: Request, listed: bool, s: Strategy): Result<set<nat>> {
    var stack := if listed then StackOf(rows, r) else {};
    if stack != {} && Rewrites(s) then Err(Stacked) else Ok(stack)
  }

  /** There is a stack now, and all of it was opened after `seen` was listed. */
  ghost predicate OpenedSince(seen: map<nat, Request>, now: map<nat, Request>, r: Request) {
    StackOf(now, r) != {} && forall k <- StackOf(now, r) :: k !in StackOf(seen, r)
  }

  /** The two ways a stack goes unseen: the listing failed, or it came later. */
  ghost predicate Unseen(seen: map<nat, Request>, now: map<nat, Request>, r: Request, listed: bool) {
    if listed then OpenedSince(seen, now, r) else StackOf(now, r) != {}
  }

  /** A rewriting merge that passes the check goes over a stack exactly when
      that stack went unseen, and it passes unless it listed one. */
  lemma OverStack(seen: map<nat, Request>, now: map<nat, Request>, r: Request, listed: bool, s: Strategy)
    requires Rewrites(s)
    ensures StackForMerge(seen, r, listed, s).Ok? <==> !listed || StackOf(seen, r) == {}
    ensures StackForMerge(seen, r, listed, s).Ok? ==>
      (StackOf(now, r) != {} <==> Unseen(seen, now, r, listed))
  {
  }

  const TOPIC := Request(Open, "topic", "main", false, 0, Author("ann", "", ""), "", "")
  const ON_TOPIC := Request(Open, "next", "topic", false, 0, Author("bob", "", ""), "", "")

  /** A squash of TOPIC passes with ON_TOPIC stacked on it, its listing lost ... */
  lemma LostListing()
    ensures var rows := map[1 := TOPIC, 2 := ON_TOPIC];
      StackForMerge(rows, TOPIC, false, Squash) == Ok({}) && StackOf(rows, TOPIC) == {2}
  {
    var rows := map[1 := TOPIC, 2 := ON_TOPIC];
    assert 2 in StackOf(rows, TOPIC);
  }

  /** ... and with ON_TOPIC opened after the listing, before the ref moves. */
  lemma LateStack()
    ensures var seen, now := map[1 := TOPIC], map[1 := TOPIC, 2 := ON_TOPIC];
      StackForMerge(seen, TOPIC, true, Squash) == Ok({}) && StackOf(now, TOPIC) == {2}
  {
    var now := map[1 := TOPIC, 2 := ON_TOPIC];
    assert 2 in StackOf(now, TOPIC);
  }

  /** A stacked request's commits with `head`, against which its diff is taken. */
  ghost predicate SameCommon(g: Graph, stacked: Id, was: Id, now: Id)
    requires Acyclic(g)
  {
    forall c: Id :: Ancestor(g, c, stacked) ==> (Ancestor(g, c, was) <==> Ancestor(g, c, now))
  }

  /** A merge that keeps the commits keeps a stacked request's diff exactly
      when what it shares with the old target is all in the merged branch,
      and it does not already contain the merge. */
  lemma StackKeepsDiff(g: Graph, trees: Trees, p: Plan, r: Request, who: Merger, sha: Id, stacked: Id)
    requires Acyclic(g) && Built(g, trees, p, r, who, sha)
    requires p.ffPossible <==> Ancestor(g, p.targetSHA, p.headSHA)
    requires p.strategy == FastForward || p.strategy == MergeCommit
    ensures SameCommon(g, stacked, p.headSHA, sha) <==>
      && SharesOnlyMerged(g, p.targetSHA, p.headSHA, stacked)
      && (p.strategy == MergeCommit ==> !Ancestor(g, sha, stacked))
  {
    if p.strategy == FastForward {
      forall c: Id | Ancestor(g, c, p.targetSHA) ensures Ancestor(g, c, p.headSHA) {
        AncestorTransitive(g, c, p.targetSHA, p.headSHA);
      }
    } else {
      StackOnMergeCommit(g, p.targetSHA, p.headSHA, sha, stacked);
    }
  }

  /** Nothing shared with the old target lies outside the merged branch. */
  ghost predicate SharesOnlyMerged(g: Graph, target: Id, head: Id, stacked: Id)
    requires Acyclic(g)
  {
    forall c: Id | Ancestor(g, c, stacked) && Ancestor(g, c, target) :: Ancestor(g, c, head)
  }

  lemma StackOnMergeCommit(g: Graph, target: Id, head: Id, sha: Id, stacked: Id)
    requires Acyclic(g) && sha < |g| && g[sha].parents == [target, head]
    ensures SameCommon(g, stacked, head, sha) <==>
            SharesOnlyMerged(g, target, head, stacked) && !Ancestor(g, sha, stacked)
  {
    ParentIsAncestor(g, target, sha);
    ParentIsAncestor(g, head, sha);
    if Ancestor(g, sha, head) { AncestorOrder(g, sha, head); }
    forall c: Id ensures Ancestor(g, c, sha) <==> c == sha || Ancestor(g, c, target) || Ancestor(g, c, head) {
    }
    if SameCommon(g, stacked, head, sha) {
      forall c: Id | Ancestor(g, c, stacked) && Ancestor(g, c, target) ensures Ancestor(g, c, head) {
        assert Ancestor(g, c, sha);
      }
      assert Ancestor(g, sha, sha);
    }
  }

  function Plain(parents: seq<Id>): Commit {
    Commit(parents, 0, Author("ann", "ann@x", ""), Committer("ann", "ann@x"), "")
  }

  /** 0 is the base, 1 the target, 2 the head, 3 a stacked request that merged
      the target in, and 4 the merge commit of the head. */
  function DraggedIn(): Graph {
    [Plain([]), Plain([0]), Plain([0]), Plain([2, 1]), Plain([1, 2])]
  }

  const AGREE := Trees((a: Id, b: Id) => Some(0), (a: Id, b: Id, c: Id) => Some(0))

  /** After that merge the stacked request shares the target's own commit with
      its new target, which it did not with the merged branch. */
  lemma StackLosesDiff()
    ensures var g := DraggedIn();
      && Acyclic(g) && Ancestor(g, 2, 3)
      && Built(g, AGREE, Plan(1, 2, false, MergeCommit), TOPIC, Merger("ann", "ann@x", false), 4)
      && !SharesOnlyMerged(g, 1, 2, 3) && !SameCommon(g, 3, 2, 4)
  {
    var g := DraggedIn();
    ParentIsAncestor(g, 2, 3);
    ParentIsAncestor(g, 1, 3);
    ParentIsAncestor(g, 1, 4);
    assert Ancestor(g, 1, 1) && !Ancestor(g, 1, 0);
    assert !Ancestor(g, 1, 2);
  }

  /** The target 0 has the path "a"; the head 1 is a root without it; 2 is the
      replay of 1 onto 0. */
  function Unrelated(): Graph {
    [Plain([]), Plain([]).(tree := 1), Plain([0]).(tree := 1)]
  }

  function OnlyA(tree: nat): map<string, nat> { if tree == 0 then map["a" := 1] else map[] }

  const TAKE_THEIRS := Trees((a: Id, b: Id) => None,
    (a: Id, b: Id, c: Id) => if a == b then Some(if c == 0 then 0 else 1) else None)

  /** Rebasing a root drops what the target has, though the root touches none of it. */
  lemma RebasedRoot()
    ensures var g := Unrelated();
      && Acyclic(g) && ThreeWay(g, TAKE_THEIRS, OnlyA)
      && Built(g, TAKE_THEIRS, Plan(0, 1, false, Rebase), TOPIC, Merger("ann", "ann@x", false), 2)
      && Leaves(g, OnlyA, 1, "a") && BlobAt(g, OnlyA, 0, "a") == Some(1) && BlobAt(g, OnlyA, 2, "a") == None
  {
    var g := Unrelated();
    var src, chain, who := [1], [0, 2], Committer("ann", "ann@x");
    assert !Ancestor(g, 1, 0);
    forall c ensures c in src <==> InRange(g, 0, 1, c) { if Ancestor(g, c, 1) { AncestorOrder(g, c, 1); } }
    assert IsRange(g, 0, 1, src);
    assert ReplayedOne(g, TAKE_THEIRS, src[0], chain[0], chain[1], who);
    assert Replayed(g, TAKE_THEIRS, src, chain, Identity(Merger("ann", "ann@x", false)));
    assert chain[0] == 0 && chain[|chain|-1] == 2;
    assert Rebased(g, TAKE_THEIRS, Plan(0, 1, false, Rebase), Merger("ann", "ann@x", false), 2);
  }

  // ------------------------------------------------------------ the whole branch

  /** Each value of the branch descends from the one before. */
  ghost predicate Descending(g: Graph, tips: seq<Id>)
    requires Acyclic(g)
  {
    |tips| > 0 ==>
      && tips[|tips|-1] < |g|
      && (|tips| > 1 ==> Ancestor(g, tips[|tips|-2], tips[|tips|-1]))
      && Descending(g, tips[..|tips|-1])
  }

  /** Whatever the branch once was, it still contains. */
  lemma {:induction false} NothingLost(g: Graph, tips: seq<Id>, i: nat, j: nat)
    requires Acyclic(g) && Descending(g, tips) && i <= j < |tips|
    ensures Ancestor(g, tips[i], tips[j])
    decreases |tips|
  {
    if j < |tips| - 1 {
      NothingLost(g, tips[..|tips|-1], i, j);
    } else if i < j {
      NothingLost(g, tips[..|tips|-1], i, j - 1);
      AncestorTransitive(g, tips[i], tips[j-1], tips[j]);
    }
  }

  lemma {:induction false} DescendingStable(g: Graph, g': Graph, tips: seq<Id>)
    requires Acyclic(g) && Acyclic(g') && g <= g' && Descending(g, tips)
    ensures Descending(g', tips)
  {
    if |tips| > 0 {
      DescendingStable(g, g', tips[..|tips|-1]);
      if |tips| > 1 { AncestorStable(g, g', tips[|tips|-2], tips[|tips|-1]); }
    }
  }

  /** One merge of the watched branch: what it moved from and to, the commits
      whose signatures it found good, and the commits it made. */
  datatype Landing = Landing(before: Id, after: Id, verified: set<Id>, created: set<Id>)

  /** How the branch came by its next value. */
  datatype Move = ByPush | ByMerge(landing: Landing)

  /** With signatures required, a merge adds only commits it verified and makes none. */
  predicate SignedLanding(g: Graph, l: Landing)
    requires Acyclic(g)
  {
    && l.before < |g| && l.after < |g|
    && l.created == {}
    && (forall c: Id | c < |g| && InRange(g, l.before, l.after, c) :: c in l.verified)
  }

  ghost predicate MovedBy(g: Graph, m: Move, from: Id, to: Id, signed: bool)
    requires Acyclic(g)
  {
    m.ByMerge? ==>
      m.landing.before == from && m.landing.after == to && (signed ==> SignedLanding(g, m.landing))
  }

  /** Each move takes the branch from one value to the next. */
  ghost predicate Explained(g: Graph, tips: seq<Id>, moves: seq<Move>, signed: bool)
    requires Acyclic(g)
  {
    && |tips| == |moves| + 1
    && (|moves| > 0 ==>
          && MovedBy(g, moves[|moves|-1], tips[|moves|-1], tips[|moves|], signed)
          && Explained(g, tips[..|moves|], moves[..|moves|-1], signed))
  }

  lemma {:induction false} EachMove(g: Graph, tips: seq<Id>, moves: seq<Move>, signed: bool, k: nat)
    requires Acyclic(g) && Explained(g, tips, moves, signed) && k < |moves|
    ensures MovedBy(g, moves[k], tips[k], tips[k+1], signed)
  {
    if k < |moves| - 1 { EachMove(g, tips[..|moves|], moves[..|moves|-1], signed, k); }
  }

  /** What a run added to the branch, one of its moves added. */
  lemma {:induction false} AddedByMove(g: Graph, tips: seq<Id>, i: nat, j: nat, c: Id) returns (k: nat)
    requires Acyclic(g) && i <= j < |tips| && InRange(g, tips[i], tips[j], c)
    ensures i <= k < j && InRange(g, tips[k], tips[k+1], c)
    decreases j - i
  {
    k := j - 1;
    if Ancestor(g, c, tips[j-1]) { k := AddedByMove(g, tips, i, j - 1, c); }
  }

  /** Move `k` answers for commit `c`: a push brought it, or a merge that made
      no commit found its signature good. */
  ghost predicate AnswersFor(g: Graph, tips: seq<Id>, moves: seq<Move>, k: nat, c: Id)
    requires Acyclic(g) && |tips| == |moves| + 1 && k < |moves|
  {
    match moves[k]
    case ByPush => InRange(g, tips[k], tips[k+1], c)
    case ByMerge(l) => c in l.verified && l.created == {}
  }

  /** With signatures required, over any run of the branch: each commit newly
      reachable was pushed there or verified by the merge that landed it, and
      no merge landed a commit of the server's. With no push in between, all
      were verified. */
  lemma BranchSigned(g: Graph, tips: seq<Id>, moves: seq<Move>, i: nat, j: nat, c: Id)
    requires Acyclic(g) && Explained(g, tips, moves, true)
    requires i <= j < |tips| && InRange(g, tips[i], tips[j], c)
    ensures exists k: nat :: i <= k < j && AnswersFor(g, tips, moves, k, c)
    ensures forall k: nat | k < |moves| && moves[k].ByMerge? :: moves[k].landing.created == {}
    ensures (forall k | i <= k < j :: moves[k].ByMerge?) ==>
      exists k | i <= k < j :: moves[k].ByMerge? && c in moves[k].landing.verified
  {
    var k := AddedByMove(g, tips, i, j, c);
    EachMove(g, tips, moves, true, k);
    AncestorOrder(g, c, tips[k+1]);
    assert AnswersFor(g, tips, moves, k, c);
    forall m: nat | m < |moves| && moves[m].ByMerge? ensures moves[m].landing.created == {} {
      EachMove(g, tips, moves, true, m);
    }
  }

  lemma {:induction false} ExplainedStable(g: Graph, g': Graph, tips: seq<Id>, moves: seq<Move>, signed: bool)
    requires Acyclic(g) && Acyclic(g') && g <= g' && Explained(g, tips, moves, signed)
    ensures Explained(g', tips, moves, signed)
  {
    if |moves| > 0 {
      var m := moves[|moves|-1];
      if m.ByMerge? && signed { SignedLandingStable(g, g', m.landing); }
      ExplainedStable(g, g', tips[..|moves|], moves[..|moves|-1], signed);
    }
  }

  lemma ExplainedMore(g: Graph, tips: seq<Id>, moves: seq<Move>, signed: bool, to: Id, m: Move)
    requires Acyclic(g) && Explained(g, tips, moves, signed) && MovedBy(g, m, tips[|moves|], to, signed)
    ensures Explained(g, tips + [to], moves + [m], signed)
  {
    assert (tips + [to])[..|tips|] == tips && (moves + [m])[..|moves|] == moves;
  }

  lemma SignedLandingStable(g: Graph, g': Graph, l: Landing)
    requires Acyclic(g) && Acyclic(g') && g <= g' && SignedLanding(g, l)
    ensures SignedLanding(g', l)
  {
    forall c: Id
      ensures InRange(g, l.before, l.after, c) == InRange(g', l.before, l.after, c)
      ensures InRange(g, l.before, l.after, c) ==> c < |g|
    {
      AncestorStable(g, g', c, l.before);
      AncestorStable(g, g', c, l.after);
      if InRange(g, l.before, l.after, c) { AncestorOrder(g, c, l.after); }
    }
  }

  /** All a merge has established about the commit `sha` before it moves the
      target there: made as its strategy says, containing the target, and with
      signatures required, adding only commits verified and none of its own. */
  ghost predicate ReadyToLand(g: Graph, trees: Trees, p: Plan, r: Request, who: Merger, sha: Id,
                              l: Landing, signed: bool, verified: Id -> bool)
    requires Acyclic(g)
  {
    && p.targetSHA < |g| && Built(g, trees, p, r, who, sha) && Ancestor(g, p.targetSHA, sha)
    && p.ffPossible == Ancestor(g, p.targetSHA, p.headSHA) && !Ancestor(g, p.headSHA, p.targetSHA)
    && (signed ==> p.strategy == FastForward && SignedLanding(g, l))
    && (signed ==> forall c: Id | InRange(g, p.targetSHA, sha, c) :: verified(c))
    && (forall c <- l.verified :: verified(c))
  }

  /** A commit whose change does not apply to `onto`: measured from its parent, or for
      a root from `onto` itself. */
  ghost predicate Conflicts(g: Graph, trees: Trees, c: Id, onto: Id) {
    && c < |g| && |g[c].parents| <= 1
    && (g[c].parents == [] ==> trees.onto(onto, onto, c).None?)
    && (g[c].parents != [] ==> trees.onto(g[c].parents[0], onto, c).None?)
  }

  /** Why a merge by plan `p` may be refused once its gates are met. */
  ghost predicate Warranted(g: Graph, trees: Trees, p: Plan, who: Merger, signed: bool, verified: Id -> bool, why: Refusal)
    requires Acyclic(g)
  {
    var s := ChooseStrategy(p).strategy;
    match why
    case BehindSigned => signed && (!p.ffPossible || p.strategy in {MergeCommit, Squash})
    case Unverified(c) => signed && InRange(g, p.targetSHA, p.headSHA, c) && !verified(c)
    case NoEmail => s != FastForward && who.email == ""
    case NotFastForward => p.strategy == FastForward && !p.ffPossible
    case Conflict =>
      || (s == Rebase && exists c: Id, onto: Id ::
            InRange(g, p.targetSHA, p.headSHA, c) && Conflicts(g, trees, c, onto))
      || (s in {MergeCommit, Squash} && trees.merge(p.targetSHA, p.headSHA).None?)
    case MergeInRange(c) => s == Rebase && c < |g| && |g[c].parents| > 1 && InRange(g, p.targetSHA, p.headSHA, c)
    case Stacked => Rewrites(s)
    case TargetMoved => true
    case Failed => true
    case _ => false
  }

  /** The commits whose signatures are good. */
  function GoodOf(g: Graph, verified: Id -> bool): set<Id> {
    set c: Id | c < |g| && verified(c)
  }

  /** The commits made while the graph grew from `n` commits to `m`. */
  function Ids(n: nat, m: nat): set<Id>
    decreases m - n
  {
    if n >= m then {} else {n} + Ids(n + 1, m)
  }

  lemma {:induction false} AllIds(n: nat, m: nat, c: nat)
    ensures c in Ids(n, m) <==> n <= c < m
    decreases m - n
  {
    if n < m { AllIds(n + 1, m, c); }
  }

  lemma Carry(g0: Graph, g: Graph, trees: Trees, p: Plan, r: Request, who: Merger, sha: Id,
              l: Landing, signed: bool, verified: Id -> bool)
    requires Acyclic(g0) && Acyclic(g) && g0 <= g && p.targetSHA < |g0| && p.headSHA < |g0|
    requires p.ffPossible == Ancestor(g0, p.targetSHA, p.headSHA) && !Ancestor(g0, p.headSHA, p.targetSHA)
    requires Built(g, trees, p, r, who, sha)
    requires l == Landing(p.targetSHA, sha, GoodOf(g, verified), Ids(|g0|, |g|))
    requires signed ==> p.strategy == FastForward && g == g0
    requires signed ==> forall c: Id | InRange(g0, p.targetSHA, p.headSHA, c) :: verified(c)
    ensures ReadyToLand(g, trees, p, r, who, sha, l, signed, verified)
  {
    AncestorStable(g0, g, p.targetSHA, p.headSHA);
    AncestorStable(g0, g, p.headSHA, p.targetSHA);
    BuiltKeepsTarget(g, trees, p, r, who, sha);
    if signed {
      forall c: Id | InRange(g, p.targetSHA, sha, c) ensures c < |g| && verified(c) {
        AncestorOrder(g, c, sha);
      }
    }
  }

  lemma StillReady(g: Graph, g': Graph, trees: Trees, p: Plan, r: Request, who: Merger, sha: Id,
                   l: Landing, signed: bool, verified: Id -> bool)
    requires Acyclic(g) && Acyclic(g') && g <= g'
    requires ReadyToLand(g, trees, p, r, who, sha, l, signed, verified)
    ensures ReadyToLand(g', trees, p, r, who, sha, l, signed, verified)
  {
    AncestorStable(g, g', p.targetSHA, p.headSHA);
    AncestorStable(g, g', p.headSHA, p.targetSHA);
    AncestorStable(g, g', p.targetSHA, sha);
    BuiltLater(g, g', trees, p, r, who, sha);
    if signed {
      SignedLandingStable(g, g', l);
      forall c: Id ensures InRange(g, p.targetSHA, sha, c) == InRange(g', p.targetSHA, sha, c) {
        AncestorStable(g, g', c, p.targetSHA);
        AncestorStable(g, g', c, sha);
      }
    }
  }

  /** What pushes, other merges and other commands do meanwhile. */
  datatype Event =
    | AddCommits(cs: seq<Commit>)
    | MoveRef(ref: string, to: Id)
    | MergeElsewhere(landing: Landing)
    | SetRequests(rs: map<nat, Request>)

  /** What a reader of refs and rows finds. */
  datatype View = View(refs: map<string, Id>, rows: map<nat, Request>)

  /** The target of `r` was `targetSHA`, and then or later the head of row `n`
      was `headSHA`, since view `from`. */
  ghost predicate ReadFrom(past: seq<View>, from: nat, n: nat, target: string, targetSHA: Id, headSHA: Id) {
    exists i, j ::
      && from <= i <= j < |past|
      && Holds(past[i].refs, target, targetSHA)
      && n in past[j].rows && past[j].rows[n].head == headSHA
  }

  lemma ReadStill(past: seq<View>, past': seq<View>, from: nat, n: nat, target: string, targetSHA: Id, headSHA: Id)
    requires ReadFrom(past, from, n, target, targetSHA, headSHA) && past <= past'
    ensures ReadFrom(past', from, n, target, targetSHA, headSHA)
  {
    var i, j :|
      && from <= i <= j < |past|
      && Holds(past[i].refs, target, targetSHA)
      && n in past[j].rows && past[j].rows[n].head == headSHA;
    assert past'[i] == past[i] && past'[j] == past[j];
  }

  /** The repository as a merge moved its target. */
  datatype Moment = Moment(refs: map<string, Id>, tips: seq<Id>, moves: seq<Move>, rows: map<nat, Request>)

  predicate Holds(refs: map<string, Id>, ref: string, sha: Id) {
    ref in refs && refs[ref] == sha
  }

  /** The target is at the new commit; of the watched branch, that is its last move. */
  ghost predicate LandedAt(at: Moment, branch: string, target: string, before: Id, sha: Id, l: Landing) {
    && Holds(at.refs, target, sha)
    && (target == branch ==>
          && |at.tips| == |at.moves| + 1 && |at.moves| > 0
          && at.tips[|at.moves|-1] == before && at.tips[|at.moves|] == sha
          && at.moves[|at.moves|-1] == ByMerge(l))
  }

  class Repository {
    var graph: Graph
    var refs: map<string, Id>
    var requests: map<nat, Request>
    const branch: string  // the branch whose history is watched
    const settings: Settings
    const trees: Trees
    ghost var tips: seq<Id>
    ghost var moves: seq<Move>
    ghost var past: seq<View>  // every view so far, the present one last

    ghost predicate Valid()
      reads this
    {
      && Acyclic(graph)
      && (forall b <- refs :: refs[b] < |graph|)
      && (forall n <- requests :: requests[n].head < |graph|)
      && |past| > 0 && past[|past|-1] == View(refs, requests)
      && branch in refs && |tips| > 0 && tips[|tips|-1] == refs[branch]
      && Descending(graph, tips)
      && Explained(graph, tips, moves, settings.requireSigned)
    }

    constructor (graph: Graph, refs: map<string, Id>, requests: map<nat, Request>,
                 branch: string, settings: Settings, trees: Trees)
      requires Acyclic(graph) && (forall b <- refs :: refs[b] < |graph|)
      requires (forall n <- requests :: requests[n].head < |graph|) && branch in refs
      ensures Valid() && tips == [refs[branch]] && moves == [] && past == [View(refs, requests)]
    {
      this.graph, this.refs, this.requests := graph, refs, requests;
      this.branch, this.settings, this.trees := branch, settings, trees;
      tips, moves, past := [refs[branch]], [], [View(refs, requests)];
    }

    /** A push of the watched branch is a fast-forward; a merge of it by
        another process does what UpdateRefCAS here is asked to. */
    predicate Allowed(e: Event)
      requires Acyclic(graph)
      reads this
    {
      match e
      case AddCommits(cs) =>
        forall i | 0 <= i < |cs| :: forall p <- cs[i].parents :: p < |graph| + i
      case MoveRef(b, to) =>
        to < |graph| && (b == branch && b in refs ==> Ancestor(graph, refs[b], to))
      case MergeElsewhere(l) =>
        && branch in refs && l.before == refs[branch] && l.after < |graph| && Ancestor(graph, l.before, l.after)
        && (settings.requireSigned ==> SignedLanding(graph, l))
      case SetRequests(rs) => forall n <- rs :: rs[n].head < |graph|
    }

    lemma Grows(g: Graph, g': Graph)
      requires Acyclic(g) && Acyclic(g') && g <= g'
      requires Descending(g, tips) && Explained(g, tips, moves, settings.requireSigned)
      ensures Descending(g', tips) && Explained(g', tips, moves, settings.requireSigned)
    {
      DescendingStable(g, g', tips);
      ExplainedStable(g, g', tips, moves, settings.requireSigned);
    }

    /** The watched branch takes its next value. */
    ghost method MoveOn(to: Id, m: Move)
      requires Acyclic(graph) && Descending(graph, tips) && |tips| > 0
      requires Explained(graph, tips, moves, settings.requireSigned)
      requires to < |graph| && Ancestor(graph, tips[|tips|-1], to)
      requires MovedBy(graph, m, tips[|tips|-1], to, settings.requireSigned)
      modifies `tips, `moves
      ensures tips == old(tips) + [to] && moves == old(moves) + [m]
      ensures Descending(graph, tips) && Explained(graph, tips, moves, settings.requireSigned)
    {
      ExplainedMore(graph, tips, moves, settings.requireSigned, to, m);
      assert (tips + [to])[..|tips|] == tips;
      tips, moves := tips + [to], moves + [m];
    }

    ghost method Observe()
      modifies `past
      ensures past == old(past) + [View(refs, requests)]
    {
      past := past + [View(refs, requests)];
    }

    method Receive(cs: seq<Commit>)
      requires Valid() && Allowed(AddCommits(cs))
      modifies `graph
      ensures Valid() && graph == old(graph) + cs
    {
      Grows(graph, graph + cs);
      graph := graph + cs;
    }

    method Happen(e: Event)
      requires Valid() && Allowed(e)
      modifies `graph, `refs, `requests, `tips, `moves, `past
      ensures Valid() && old(graph) <= graph && old(tips) <= tips && old(moves) <= moves && old(past) <= past
      ensures graph == if e.AddCommits? then old(graph) + e.cs else old(graph)
      ensures refs == match e
        case MoveRef(b, to) => old(refs)[b := to]
        case MergeElsewhere(l) => old(refs)[branch := l.after]
        case _ => old(refs)
      ensures requests == if e.SetRequests? then e.rs else old(requests)
    {
      match e
      case AddCommits(cs) => Receive(cs);
      case MoveRef(b, to) => Push(b, to);
      case MergeElsewhere(l) =>
        MoveOn(l.after, ByMerge(l));
        refs := refs[branch := l.after];
        Observe();
      case SetRequests(rs) =>
        requests := rs;
        Observe();
    }

    method Push(b: string, to: Id)
      requires Valid() && Allowed(MoveRef(b, to))
      modifies `refs, `tips, `moves, `past
      ensures Valid() && old(tips) <= tips && old(moves) <= moves && old(past) <= past && refs == old(refs)[b := to]
    {
      if b == branch { MoveOn(to, ByPush); }
      refs := refs[b := to];
      Observe();
    }

    /** Whatever the others do meanwhile, any number of steps of it. */
    method Interfere()
      requires Valid()
      modifies `graph, `refs, `requests, `tips, `moves, `past
      ensures Valid() && old(graph) <= graph && old(tips) <= tips && old(moves) <= moves && old(past) <= past
    {
      var n: nat := *;
      while n > 0
        invariant Valid() && old(graph) <= graph && old(tips) <= tips && old(moves) <= moves && old(past) <= past
      {
        var e: Event := *;
        if Allowed(e) { Happen(e); }
        n := n - 1;
      }
    }

    /** git commit-tree. */
    method WriteCommit(c: Commit) returns (sha: Id)
      requires Valid() && forall q <- c.parents :: q < |graph|
      modifies `graph
      ensures Valid() && old(graph) <= graph && sha < |graph| && graph[sha] == c
    {
      var made := CommitTree(graph, c);
      CommitTreeAcyclic(graph, c);
      Grows(graph, made.0);
      graph := made.0;
      sha := made.1;
    }

    /** git rev-list head ^base, newest first. */
    method RevListRange(base: Id, head: Id) returns (r: Result<seq<Id>>)
      requires Acyclic(graph) && base < |graph| && head < |graph|
      ensures if r.Ok? then IsRange(graph, base, head, Reverse(r.value)) else r.why == Failed
    {
      var broken: bool := *;
      if broken { return Err(Failed); }
      var cs: seq<Id> := [];
      var i: nat := head + 1;
      while i > 0
        invariant 0 <= i <= head + 1
        invariant forall c: Id :: c in cs <==> i <= c <= head && InRange(graph, base, head, c)
        invariant forall j | 0 <= j < |cs| :: i <= cs[j]
        invariant forall j, k | 0 <= j < k < |cs| :: cs[k] < cs[j]
      {
        i := i - 1;
        if InRange(graph, base, head, i) {
          cs := cs + [i];
        }
      }
      forall c: Id | InRange(graph, base, head, c) ensures c <= head {
        AncestorOrder(graph, c, head);
      }
      ghost var oldest := Reverse(cs);
      forall c | c in cs ensures c in oldest {
        var i :| 0 <= i < |cs| && cs[i] == c;
        assert oldest[|cs|-1-i] == c;
      }
      r := Ok(cs);
    }

    /** replayCommit. */
    method ReplayCommit(c: Id, onto: Id, who: Committer) returns (r: Result<Id>)
      requires Valid() && c < |graph| && onto < |graph|
      modifies `graph
      ensures Valid() && old(graph) <= graph
      ensures r.Ok? ==> ReplayedOne(graph, trees, c, onto, r.value, who)
      ensures |graph[c].parents| > 1 <==> r == Err(MergeInRange(c))
      ensures r.Err? ==> r == Err(MergeInRange(c)) || (r == Err(Conflict) && Conflicts(graph, trees, c, onto))
    {
      if |graph[c].parents| > 1 { return Err(MergeInRange(c)); }
      var tree := trees.onto(ReplayBase(graph[c], onto), onto, c);
      if tree.None? { return Err(Conflict); }
      var next := WriteCommit(Commit([onto], tree.value, graph[c].author, who, graph[c].message));
      r := Ok(next);
    }

    /** rebaseCommits: the range replayed oldest first, each onto the last. */
    method RebaseCommits(p: Plan, who: Committer) returns (r: Result<Id>)
      requires Valid() && p.targetSHA < |graph| && p.headSHA < |graph|
      modifies `graph
      ensures Valid() && old(graph) <= graph
      ensures r.Ok? ==> exists src, chain ::
          && IsRange(graph, p.targetSHA, p.headSHA, src)
          && Replayed(graph, trees, src, chain, who)
          && chain[0] == p.targetSHA && chain[|chain|-1] == r.value
      ensures r.Ok? ==> r.value < |graph|
      ensures r.Err? ==>
          || r.why == Failed
          || (r.why == Conflict && exists c: Id, onto: Id ::
                InRange(graph, p.targetSHA, p.headSHA, c) && Conflicts(graph, trees, c, onto))
          || (r.why.MergeInRange? && r.why.c < |graph| && |graph[r.why.c].parents| > 1
              && InRange(graph, p.targetSHA, p.headSHA, r.why.c))
    {
      var commits := RevListRange(p.targetSHA, p.headSHA);
      if commits.Err? { return Err(commits.why); }
      var src: seq<Id> := Reverse(commits.value);
      var onto: Id := p.targetSHA;
      ghost var chain: seq<Id> := [onto];
      var i := 0;
      while i < |src|
        invariant Valid() && old(graph) <= graph && 0 <= i <= |src|
        invariant p.targetSHA < |graph| && p.headSHA < |graph| && onto < |graph|
        invariant IsRange(graph, p.targetSHA, p.headSHA, src)
        invariant Replayed(graph, trees, src[..i], chain, who)
        invariant chain[0] == p.targetSHA && chain[i] == onto
      {
        ghost var before := graph;
        RangeInside(graph, p.targetSHA, p.headSHA, src, i);
        var next := ReplayCommit(src[i], onto, who);
        RangeStable(before, graph, p.targetSHA, p.headSHA, src);
        assert src[i] in src;
        if next.Err? { return next; }
        ReplayedLater(before, graph, trees, src[..i], chain, who);
        OneMoreReplayed(graph, trees, src, i, chain, next.value, who);
        onto, chain := next.value, chain + [next.value];
        i := i + 1;
      }
      assert src[..i] == src;
      assert Replayed(graph, trees, src, chain, who);
      r := Ok(onto);
    }

    /** mergedCommit: the commit the target moves to. */
    method MergedCommit(p: Plan, r: Request, who: Merger) returns (res: Result<Id>)
      requires Valid() && p.targetSHA < |graph| && p.headSHA < |graph| && p.strategy != Default
      modifies `graph
      ensures Valid() && old(graph) <= graph
      ensures res.Ok? ==> Built(graph, trees, p, r, who, res.value)
      ensures p.strategy == FastForward ==>
          graph == old(graph) && res == if p.ffPossible then Ok(p.headSHA) else Err(NotFastForward)
      ensures res.Err? && ChooseStrategy(p) == p ==>
          res.why !in {Stacked, TargetMoved} && Warranted(graph, trees, p, who, false, (c: Id) => true, res.why)
    {
      match p.strategy
      case FastForward =>
        res := if p.ffPossible then Ok(p.headSHA) else Err(NotFastForward);
      case MergeCommit =>
        var tree := trees.merge(p.targetSHA, p.headSHA);
        if tree.None? { return Err(Conflict); }
        var sha := WriteCommit(Commit(
          [p.targetSHA, p.headSHA], tree.value, Author(who.name, who.email, ""), Identity(who), r.mergeMessage));
        res := Ok(sha);
      case Squash =>
        var tree := if p.ffPossible then Some(graph[p.headSHA].tree) else trees.merge(p.targetSHA, p.headSHA);
        if tree.None? { return Err(Conflict); }
        var sha := WriteCommit(Commit(
          [p.targetSHA], tree.value, SquashAuthor(r, who), Identity(who), r.squashMessage));
        res := Ok(sha);
      case Rebase =>
        res := RebaseCommits(p, Identity(who));
    }

    /** requireSignedMerge: only a fast-forward, of commits all verified. */
    method RequireSignedMerge(p: Plan, who: Merger, verified: Id -> bool) returns (res: Result<Plan>)
      requires Valid() && p.targetSHA < |graph| && p.headSHA < |graph|
      ensures res.Ok? ==> p.ffPossible && p.strategy !in {MergeCommit, Squash}
      ensures res.Ok? ==> res.value == p.(strategy := FastForward)
      ensures res.Ok? ==> forall c: Id | InRange(graph, p.targetSHA, p.headSHA, c) :: verified(c)
      ensures res.Err? ==>
          res.why !in {Stacked, TargetMoved} && Warranted(graph, trees, p, who, true, verified, res.why)
      ensures res == Err(BehindSigned) <==> !p.ffPossible || p.strategy in {MergeCommit, Squash}
    {
      if who.queued && !p.ffPossible { return Err(BehindSigned); }
      if p.strategy == MergeCommit || p.strategy == Squash || !p.ffPossible { return Err(BehindSigned); }
      var commits := RevListRange(p.targetSHA, p.headSHA);
      if commits.Err? { return Err(commits.why); }
      var cs := commits.value;
      ghost var oldest := Reverse(cs);
      for i := 0 to |cs|
        invariant forall j | 0 <= j < i :: verified(cs[j])
      {
        if !verified(cs[i]) {
          assert oldest[|cs|-1-i] == cs[i];
          return Err(Unverified(cs[i]));
        }
      }
      forall c: Id | InRange(graph, p.targetSHA, p.headSHA, c) ensures verified(c) {
        assert c in oldest;
        var i :| 0 <= i < |oldest| && oldest[i] == c;
        assert oldest[i] == cs[|cs|-1-i];
      }
      res := Ok(p.(strategy := FastForward));
    }

    /** UpdateRefCAS: the target moves only if it is still what the merge read. */
    method UpdateRefCAS(ref: string, sha: Id, expected: Id, ghost l: Landing) returns (moved: bool)
      requires Valid() && sha < |graph| && Ancestor(graph, expected, sha)
      requires l.before == expected && l.after == sha && (settings.requireSigned ==> SignedLanding(graph, l))
      modifies `refs, `tips, `moves, `past
      ensures Valid() && old(past) <= past
      ensures moved <==> ref in old(refs) && old(refs[ref]) == expected
      ensures refs == if moved then old(refs)[ref := sha] else old(refs)
      ensures tips == if moved && ref == branch then old(tips) + [sha] else old(tips)
      ensures moves == if moved && ref == branch then old(moves) + [ByMerge(l)] else old(moves)
      ensures moved ==> LandedAt(Moment(refs, tips, moves, requests), branch, ref, expected, sha, l)
    {
      moved := ref in refs && refs[ref] == expected;
      if moved {
        if ref == branch { MoveOn(sha, ByMerge(l)); }
        refs := refs[ref := sha];
        Observe();
      }
    }

    /** retargetStack: every row but those whose update fails takes the merged target. */
    method RetargetStack(stack: set<nat>, target: string, broken: set<nat>)
      requires Valid()
      modifies `requests, `past
      ensures Valid() && old(past) <= past && requests.Keys == old(requests.Keys)
      ensures forall k <- requests ::
          requests[k] == if k in stack && k !in broken then old(requests[k]).(target := target) else old(requests[k])
    {
      var left := stack;
      while left != {}
        invariant Valid() && old(past) <= past && left <= stack && requests.Keys == old(requests.Keys)
        invariant forall k <- requests ::
            requests[k] == if k in stack - left && k !in broken then old(requests[k]).(target := target) else old(requests[k])
        decreases left
      {
        var k :| k in left;
        left := left - {k};
        if k !in broken && k in requests {
          requests := requests[k := requests[k].(target := target)];
          Observe();
        }
      }
    }

    /** mergeMR up to the commit to land: signatures, strategy, identity, tree. */
    method PrepareMerge(r: Request, p0: Plan, who: Merger, verified: Id -> bool)
      returns (res: Result<Id>, p: Plan, ghost l: Landing)
      requires Valid() && p0.targetSHA < |graph| && p0.headSHA < |graph|
      requires p0.ffPossible == Ancestor(graph, p0.targetSHA, p0.headSHA)
      requires !Ancestor(graph, p0.headSHA, p0.targetSHA)
      modifies `graph
      ensures Valid() && old(graph) <= graph
      ensures res.Ok? ==>
          && p == ChooseStrategy(p0) && (p.strategy != FastForward ==> who.email != "")
          && l.before == p.targetSHA && l.after == res.value
          && (forall c: Id | |old(graph)| <= c < |graph| :: c in l.created)
          && ReadyToLand(graph, trees, p, r, who, res.value, l, settings.requireSigned, verified)
      ensures res.Err? ==>
          res.why !in {Stacked, TargetMoved} && Warranted(graph, trees, p0, who, settings.requireSigned, verified, res.why)
    {
      p := p0;
      l := Landing(p0.targetSHA, p0.targetSHA, {}, {});
      if settings.requireSigned {
        var signed := RequireSignedMerge(p, who, verified);
        if signed.Err? { return Err(signed.why), p, l; }
        p := signed.value;
      }
      p := ChooseStrategy(p);
      if p.strategy != FastForward && who.email == "" { return Err(NoEmail), p, l; }
      ghost var g0 := graph;
      res := MergedCommit(p, r, who);
      if res.Ok? {
        l := Landing(p.targetSHA, res.value, GoodOf(graph, verified), Ids(|g0|, |graph|));
        Carry(g0, graph, trees, p, r, who, res.value, l, settings.requireSigned, verified);
        forall c: Id | |g0| <= c < |graph| ensures c in l.created { AllIds(|g0|, |graph|, c); }
      }
    }

    /** The target moved at `at`, which is part of the branch's history since;
        and a rewriting merge moved it over a stack exactly when that stack went
        unseen. */
    ghost predicate MovedAs(at: Moment, p: Plan, r: Request, sha: Id, l: Landing, seen: map<nat, Request>, listed: bool)
      reads `tips, `moves
    {
      && LandedAt(at, branch, r.target, p.targetSHA, sha, l)
      && at.tips <= tips && at.moves <= moves
      && (Rewrites(p.strategy) ==> (StackOf(at.rows, r) != {} <==> Unseen(seen, at.rows, r, listed)))
    }

    /** mergeMR from the stack check on: the swap of the ref and what follows
        it, with others at work in between. `seen` are the rows as the stack was
        listed, `listed` whether that worked, `at` the moment the target moved,
        `marked` the rows as the request was marked merged. */
    method Land(n: nat, r: Request, p: Plan, who: Merger, sha: Id, ghost l: Landing, verified: Id -> bool,
                broken: set<nat>)
      returns (out: Outcome, ghost seen: map<nat, Request>, ghost listed: bool, ghost at: Option<Moment>,
               ghost marked: map<nat, Request>)
      requires Valid() && p.targetSHA < |graph|
      requires l.before == p.targetSHA && l.after == sha
      requires ReadyToLand(graph, trees, p, r, who, sha, l, settings.requireSigned, verified)
      modifies this
      ensures Valid() && old(graph) <= graph && old(tips) <= tips && old(moves) <= moves && old(past) <= past
      ensures out.Landed? || out.Refused?
      ensures out.Refused? ==> out.why in {Stacked, TargetMoved, Failed}
      ensures out == Refused(Stacked) <==> listed && StackOf(seen, r) != {} && Rewrites(p.strategy)
      ensures out == Refused(Stacked) ==>
          !r.fromFork && p.strategy in {Squash, Rebase} && exists k <- seen :: seen[k].state == Open && seen[k].target == r.source
      ensures out == Refused(TargetMoved) ==> !Holds(refs, r.target, p.targetSHA)
      ensures at.Some? ==> MovedAs(at.value, p, r, sha, l, seen, listed)
      ensures out.Landed? ==>
          && at.Some? && out == Landed(p.strategy, sha)
          && ReadyToLand(graph, trees, p, r, who, sha, l, settings.requireSigned, verified)
          && (n in marked ==> marked[n].state == Merged)
          && (listed && !r.fromFork ==> forall k <- seen |
                seen[k].state == Open && seen[k].target == r.source && k in requests && k !in broken ::
                requests[k].target == r.target)
    {
      var listing: bool := *;
      var check := StackForMerge(requests, r, listing, p.strategy);
      seen, listed, at, marked := requests, listing, None, requests;
      if check.Err? { out := Refused(check.why); return; }
      out, at, marked := MoveTarget(n, r, p, who, sha, l, verified, check.value, broken);
      if at.Some? && Rewrites(p.strategy) { OverStack(seen, at.value.rows, r, listed, p.strategy); }
    }

    /** The swap of the ref and, if it worked, what follows it. */
    method MoveTarget(n: nat, r: Request, p: Plan, who: Merger, sha: Id, ghost l: Landing, verified: Id -> bool,
                      stack: set<nat>, broken: set<nat>)
      returns (out: Outcome, ghost at: Option<Moment>, ghost marked: map<nat, Request>)
      requires Valid() && p.targetSHA < |graph|
      requires l.before == p.targetSHA && l.after == sha
      requires ReadyToLand(graph, trees, p, r, who, sha, l, settings.requireSigned, verified)
      modifies this
      ensures Valid() && old(graph) <= graph && old(tips) <= tips && old(moves) <= moves && old(past) <= past
      ensures out == Landed(p.strategy, sha) || out == Refused(TargetMoved) || out == Refused(Failed)
      ensures out == Refused(TargetMoved) ==> at.None? && !Holds(refs, r.target, p.targetSHA)
      ensures at.Some? ==>
          && LandedAt(at.value, branch, r.target, p.targetSHA, sha, l)
          && at.value.tips <= tips && at.value.moves <= moves
      ensures out.Landed? ==>
          && at.Some? && ReadyToLand(graph, trees, p, r, who, sha, l, settings.requireSigned, verified)
          && (n in marked ==> marked[n].state == Merged)
          && (forall k <- stack :: k in requests && k !in broken ==> requests[k].target == r.target)
    {
      marked := requests;
      var moved;
      moved, at := SwapIn(r, p, who, sha, l, verified);
      if !moved { out := Refused(TargetMoved); return; }
      ghost var g := graph;
      var recorded;
      recorded, marked := Finish(n, r, stack, broken);
      StillReady(g, graph, trees, p, r, who, sha, l, settings.requireSigned, verified);
      out := if recorded then Landed(p.strategy, sha) else Refused(Failed);
    }

    /** The ref update, after whatever others did while the commit was made. */
    method SwapIn(r: Request, p: Plan, who: Merger, sha: Id, ghost l: Landing, verified: Id -> bool)
      returns (moved: bool, ghost at: Option<Moment>)
      requires Valid() && p.targetSHA < |graph|
      requires l.before == p.targetSHA && l.after == sha
      requires ReadyToLand(graph, trees, p, r, who, sha, l, settings.requireSigned, verified)
      modifies this
      ensures Valid() && old(graph) <= graph && old(tips) <= tips && old(moves) <= moves && old(past) <= past
      ensures at.Some? <==> moved
      ensures !moved ==> !Holds(refs, r.target, p.targetSHA)
      ensures moved ==>
          && at.value == Moment(refs, tips, moves, requests)
          && ReadyToLand(graph, trees, p, r, who, sha, l, settings.requireSigned, verified)
          && LandedAt(at.value, branch, r.target, p.targetSHA, sha, l)
    {
      ghost var g := graph;
      Interfere();
      StillReady(g, graph, trees, p, r, who, sha, l, settings.requireSigned, verified);
      moved := UpdateRefCAS(r.target, sha, p.targetSHA, l);
      at := if moved then Some(Moment(refs, tips, moves, requests)) else None;
    }

    /** What follows the ref update. */
    method Finish(n: nat, r: Request, stack: set<nat>, broken: set<nat>)
      returns (recorded: bool, ghost marked: map<nat, Request>)
      requires Valid()
      modifies this
      ensures Valid() && old(graph) <= graph && old(tips) <= tips && old(moves) <= moves && old(past) <= past
      ensures recorded && n in marked ==> marked[n].state == Merged
      ensures recorded ==> forall k <- stack :: k in requests && k !in broken ==> requests[k].target == r.target
      ensures !recorded ==> requests == marked
    {
      Interfere();
      recorded := MarkMerged(n);
      marked := requests;
      if recorded {
        Interfere();
        RetargetStack(stack, r.target, broken);
      }
    }

    /** store.MarkMerged, which may fail and leave the row as it was. */
    method MarkMerged(n: nat) returns (recorded: bool)
      requires Valid()
      modifies `requests, `past
      ensures Valid() && old(past) <= past && requests.Keys == old(requests.Keys)
      ensures recorded && n in requests ==> requests[n] == old(requests[n]).(state := Merged)
      ensures forall k <- requests :: k != n || !recorded ==> requests[k] == old(requests[k])
    {
      recorded := *;
      if recorded && n in requests {
        requests := requests[n := requests[n].(state := Merged)];
        Observe();
      }
    }

    /** The two refs a merge reads, with others at work in between. */
    method ReadRefs(n: nat, target: string) returns (res: Result<(Id, Id)>)
      requires Valid()
      modifies this
      ensures Valid() && old(graph) <= graph && old(tips) <= tips && old(moves) <= moves && old(past) <= past
      ensures res.Err? ==>
          (res.why == NoTarget && target !in refs) || (res.why == Failed && n !in requests)
      ensures res.Ok? ==>
          && res.value.0 < |graph| && res.value.1 < |graph|
          && ReadFrom(past, |old(past)| - 1, n, target, res.value.0, res.value.1)
    {
      Interfere();
      if target !in refs { return Err(NoTarget); }
      var targetSHA := refs[target];
      ghost var i := |past| - 1;
      ghost var view := past[i];
      Interfere();
      if n !in requests { return Err(Failed); }
      assert past[i] == view && past[|past|-1] == View(refs, requests);
      res := Ok((targetSHA, requests[n].head));
    }

    /** mergeMR once it knows the head is not on the target yet. */
    method MergePlanned(n: nat, r: Request, p0: Plan, who: Merger, verified: Id -> bool, broken: set<nat>)
      returns (out: Outcome, ghost p: Plan, ghost l: Landing, ghost seen: map<nat, Request>, ghost listed: bool,
               ghost at: Option<Moment>, ghost marked: map<nat, Request>)
      requires Valid() && p0.targetSHA < |graph| && p0.headSHA < |graph|
      requires p0.ffPossible == Ancestor(graph, p0.targetSHA, p0.headSHA)
      requires !Ancestor(graph, p0.headSHA, p0.targetSHA)
      modifies this
      ensures Valid() && old(graph) <= graph && old(tips) <= tips && old(moves) <= moves && old(past) <= past
      ensures out.Landed? || out.Refused?
      ensures out.Refused? ==> Warranted(graph, trees, p0, who, settings.requireSigned, verified, out.why)
      ensures out == Refused(TargetMoved) ==> !Holds(refs, r.target, p0.targetSHA)
      ensures MergedAs(out, p0, p, n, r, who, l, seen, listed, at, marked, verified, broken)
    {
      seen, listed, at, marked := map[], false, None, map[];
      var res, plan;
      res, plan, l := PrepareMerge(r, p0, who, verified);
      p := plan;
      if res.Err? { out := Refused(res.why); return; }
      out, seen, listed, at, marked := Land(n, r, plan, who, res.value, l, verified, broken);
    }

    /** What holds of a merge of `r` by plan `p0`, whatever came of it. */
    ghost predicate MergedAs(out: Outcome, p0: Plan, p: Plan, n: nat, r: Request, who: Merger, l: Landing,
        seen: map<nat, Request>, listed: bool, at: Option<Moment>, marked: map<nat, Request>,
        verified: Id -> bool, broken: set<nat>)
      reads this
    {
      && (at.Some? ==>
            && p == ChooseStrategy(p0) && l.before == p.targetSHA
            && MovedAs(at.value, p, r, l.after, l, seen, listed))
      && (out.Landed? ==>
            && at.Some? && out == Landed(p.strategy, l.after)
            && (p.strategy != FastForward ==> who.email != "")
            && Acyclic(graph) && ReadyToLand(graph, trees, p, r, who, out.sha, l, settings.requireSigned, verified)
            && (n in marked ==> marked[n].state == Merged)
            && (listed && !r.fromFork ==> forall k <- seen |
                  seen[k].state == Open && seen[k].target == r.source && k in requests && k !in broken ::
                  requests[k].target == r.target))
    }

    /** recordAlreadyMerged. */
    method RecordAlreadyMerged(n: nat, headSHA: Id) returns (out: Outcome)
      requires Valid()
      modifies `requests, `past
      ensures Valid() && old(past) <= past && (out == Recorded(headSHA) || out == Refused(Failed))
      ensures out.Recorded? && n in requests ==> requests[n].state == Merged
    {
      var recorded := MarkMerged(n);
      out := if recorded then Recorded(headSHA) else Refused(Failed);
    }

    /** mergeMR with the target and the head read. */
    method MergeAt(n: nat, r: Request, targetSHA: Id, headSHA: Id, strategy: Strategy, who: Merger,
                   gates: (Id, Id) -> bool, verified: Id -> bool, broken: set<nat>)
      returns (out: Outcome, ghost p0: Plan, ghost p: Plan, ghost l: Landing, ghost seen: map<nat, Request>,
               ghost listed: bool, ghost at: Option<Moment>, ghost marked: map<nat, Request>)
      requires Valid() && targetSHA < |graph| && headSHA < |graph|
      modifies this
      ensures Valid() && old(graph) <= graph && old(tips) <= tips && old(moves) <= moves && old(past) <= past
      ensures p0.targetSHA == targetSHA && p0.headSHA == headSHA && p0.strategy == strategy
      ensures !out.Refused? || at.Some? ==> gates(targetSHA, headSHA)
      ensures out == Refused(Gates) <==> !gates(targetSHA, headSHA)
      ensures out.Recorded? ==>
          && at.None? && out.sha == headSHA && Ancestor(graph, headSHA, targetSHA)
          && (n in requests ==> requests[n].state == Merged)
      ensures out.Refused? && out.why != Gates ==>
          out.why == Failed || Warranted(graph, trees, p0, who, settings.requireSigned, verified, out.why)
      ensures out == Refused(TargetMoved) ==> !Holds(refs, r.target, p0.targetSHA)
      ensures MergedAs(out, p0, p, n, r, who, l, seen, listed, at, marked, verified, broken)
    {
      p, l := Plan(0, 0, false, strategy), Landing(0, 0, {}, {});
      seen, listed, at, marked := map[], false, None, map[];
      p0 := Plan(targetSHA, headSHA, false, strategy);
      if !gates(targetSHA, headSHA) { out := Refused(Gates); return; }
      if Ancestor(graph, headSHA, targetSHA) {
        out := RecordAlreadyMerged(n, headSHA);
        return;
      }
      var plan := Plan(targetSHA, headSHA, Ancestor(graph, targetSHA, headSHA), strategy);
      p0 := plan;
      out, p, l, seen, listed, at, marked := MergePlanned(n, r, plan, who, verified, broken);
    }

    /** mergeMR: merge `r`, row `n` as read before, as `who`. `gates` is what
        reviewGates finds of a target and a head, `verified` what each commit's
        signature says now, and `broken` the rows whose retarget fails. */
    method MergeMR(n: nat, r: Request, strategy: Strategy, who: Merger, gates: (Id, Id) -> bool, verified: Id -> bool,
                   broken: set<nat>)
      returns (out: Outcome, ghost p0: Plan, ghost p: Plan, ghost l: Landing, ghost seen: map<nat, Request>,
               ghost listed: bool, ghost at: Option<Moment>, ghost marked: map<nat, Request>)
      requires Valid()
      modifies this
      ensures Valid() && old(graph) <= graph && old(tips) <= tips && old(moves) <= moves && old(past) <= past
      ensures !out.Refused? || at.Some? ==> gates(p0.targetSHA, p0.headSHA)
      ensures out.Recorded? ==>
          && at.None? && out.sha == p0.headSHA && Ancestor(graph, p0.headSHA, p0.targetSHA)
          && (n in requests ==> requests[n].state == Merged)
      ensures p0.strategy == strategy
      ensures out.Refused? && out.why !in {Archived, NotOpen, NoTarget, Gates} ==>
          out.why == Failed || Warranted(graph, trees, p0, who, settings.requireSigned, verified, out.why)
      ensures out == Refused(TargetMoved) ==> !Holds(refs, r.target, p0.targetSHA)
      ensures !out.Refused? || out == Refused(Gates) || at.Some? ==>
          ReadFrom(past, |old(past)| - 1, n, r.target, p0.targetSHA, p0.headSHA)
      ensures out == Refused(Gates) ==> !gates(p0.targetSHA, p0.headSHA)
      ensures out == Refused(NoTarget) ==> r.target !in refs
      ensures out == Refused(Archived) <==> settings.archived
      ensures out == Refused(NotOpen) <==> !settings.archived && r.state !in {Open, SourceGone}
      ensures MergedAs(out, p0, p, n, r, who, l, seen, listed, at, marked, verified, broken)
    {
      p0, p, l := Plan(0, 0, false, strategy), Plan(0, 0, false, strategy), Landing(0, 0, {}, {});
      seen, listed, at, marked := map[], false, None, map[];
      if settings.archived { out := Refused(Archived); return; }
      if r.state != Open && r.state != SourceGone { out := Refused(NotOpen); return; }
      var read := ReadRefs(n, r.target);
      if read.Err? { out := Refused(read.why); return; }
      ghost var views := past;
      var (targetSHA, headSHA) := read.value;
      out, p0, p, l, seen, listed, at, marked := MergeAt(n, r, targetSHA, headSHA, strategy, who, gates, verified, broken);
      ReadStill(views, past, |old(past)| - 1, n, r.target, targetSHA, headSHA);
    }
  }
}
