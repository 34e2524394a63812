/** internal/control/mergequeue.go: merges that wait for their gates and then
    run on the authority of whoever queued them.

    Each method is one step under mergeQueueMu, `Environment` everything else
    that changes what a step sees. A lookup that can fail takes its failure
    from `faults`. */
module MergeQueue {
  import opened MergeRequest
  import opened Text
  import opened CommitGraph
  import Gates

  datatype User = User(name: string, disabled: bool, pending: bool)

  datatype Scope = Full | Git | Runner | Deploy

  /** An SSH key or API token: what it may do and when it stops. */
  datatype Credential = Credential(scope: Scope, expires: Option<nat>)

  /** What a merge was queued with; an id is None once that credential is removed. */
  datatype QueuedWith = Session | Key(key: Option<nat>) | Token(token: Option<nat>)

  datatype Entry = Entry(queuer: nat, strategy: Strategy, credential: QueuedWith, reason: string)

  /** `changes` says which files a head changes against the target now. */
  datatype Request = Request(state: State, repo: nat, proposal: Gates.Proposal, changes: Id -> seq<string>)

  datatype Grant = NoGrant | Read | Write | Admin

  /** `jobs` says whether a push of a head runs any, `code` what the target's
      CODEOWNERS is now. */
  datatype Repo = Repo(
    userOwner: Option<nat>, archived: bool, requireSigned: bool, grants: map<nat, Grant>, rules: Gates.Settings,
    statuses: map<Id, seq<Gates.Status>>, jobs: Id -> bool, code: Option<Gates.Codeowners>)

  /** policy.CanWrite. */
  predicate CanWrite(repo: Repo, user: nat) {
    repo.userOwner == Some(user) || (user in repo.grants && repo.grants[user] in {Write, Admin})
  }

  datatype Fault =
    | RequestLookup | RepoLookup | UserLookup | GrantLookup | CredentialLookup | KeyLookup
    | HeadFetch | HeadRecord | SessionLookup | QueueWrite

  datatype Lapse = Removed | Expired | Narrowed

  /** A push of a request's source branch, and the target's repository as it happened. */
  datatype Push = Push(pusher: nat, scope: Scope, repo: Repo, head: Id)

  /** A merge the queue performed: what it could see at that moment, and the
      pushes since the request was queued. */
  datatype Landing = Landing(request: nat, world: World, entry: Entry, pushes: seq<Push>)

  /** All by an owner or someone granted Write or Admin, and none with a deploy key. */
  ghost predicate Clean(pushes: seq<Push>) {
    forall p <- pushes ::
      && p.scope != Deploy
      && (p.repo.userOwner == Some(p.pusher)
          || (p.pusher in p.repo.grants && (p.repo.grants[p.pusher].Write? || p.repo.grants[p.pusher].Admin?)))
  }

  /** The head of a request is the one last pushed. */
  predicate AtPushed(mr: Gates.Proposal, pushes: seq<Push>) {
    pushes != [] ==> mr.head == pushes[|pushes|-1].head
  }

  /** A credential there, of full scope and not over. */
  ghost predicate Live(id: Option<nat>, held: map<nat, Credential>, now: nat) {
    && id.Some? && id.value in held && held[id.value].scope.Full?
    && (held[id.value].expires == None || now < held[id.value].expires.value)
  }

  /** The safety of a queued merge: an open request; a queuer whose account is
      active and who owns the repository or is granted Write or Admin; a live
      credential; only such pushes; and the gates passed by the head merged, which
      is the one last pushed. */
  ghost predicate Authorised(l: Landing) {
    var w, e := l.world, l.entry;
    && l.request in w.requests && w.requests[l.request].state.Open?
    && w.requests[l.request].repo in w.repos
    && e.queuer in w.users && !w.users[e.queuer].disabled && !w.users[e.queuer].pending
    && (var repo := w.repos[w.requests[l.request].repo];
        || repo.userOwner == Some(e.queuer)
        || (e.queuer in repo.grants && (repo.grants[e.queuer].Write? || repo.grants[e.queuer].Admin?)))
    && (e.credential.Key? ==> Live(e.credential.key, w.keys, w.now))
    && (e.credential.Token? ==> Live(e.credential.token, w.tokens, w.now))
    && GatesPass(w, l.request)
    && Clean(l.pushes) && AtPushed(w.requests[l.request].proposal, l.pushes)
  }

  datatype Result = Nothing | MergedNow | Dequeued(why: Reason) | Waiting(reason: string)

  datatype Reason = Gone | InactiveUser | LostWrite | CredentialLapsed(lapse: Lapse) | DeployPush | StrangerPush | Unchecked

  datatype Refusal =
    ArchivedRepo | NotOpen | ExpiringCredential | NeedsSignatures | DeniedUser | SessionKeyUnknown | StoreFailed

  /** What a command arrived with: a browser session or nothing, a token, or an
      SSH key. */
  datatype Session = Web | ByToken(token: nat) | ByKey(fingerprint: string)

  const INTERNAL := "internal error, will retry on the next event"

  predicate NeedsLookup(c: QueuedWith) {
    (c.Key? && c.key.Some?) || (c.Token? && c.token.Some?)
  }

  /** All that a step looks up. */
  datatype World = World(
    users: map<nat, User>, repos: map<nat, Repo>, requests: map<nat, Request>,
    keys: map<nat, Credential>, tokens: map<nat, Credential>, fingerprints: map<string, nat>, now: nat)

  ghost predicate WellFormed(w: World) {
    forall m <- w.requests :: w.requests[m].repo in w.repos
  }

  predicate Active(w: World, u: nat) {
    u in w.users && !w.users[u].disabled && !w.users[u].pending
  }

  predicate Writes(w: World, u: nat, m: nat) {
    m in w.requests && w.requests[m].repo in w.repos && CanWrite(w.repos[w.requests[m].repo], u)
  }

  /** Why one key or token no longer carries a merge. */
  function LapseOf(id: Option<nat>, held: map<nat, Credential>, now: nat): Option<Lapse> {
    if id.None? || id.value !in held then Some(Removed)
    else if held[id.value].expires.Some? && held[id.value].expires.value <= now then Some(Expired)
    else if held[id.value].scope != Full then Some(Narrowed)
    else None
  }

  /** queueCredentialLapsed. */
  function Lapsed(w: World, c: QueuedWith): (l: Option<Lapse>)
    ensures l.None? <==>
      c.Session? || (c.Key? && Live(c.key, w.keys, w.now)) || (c.Token? && Live(c.token, w.tokens, w.now))
  {
    match c
    case Session => None
    case Key(k) => LapseOf(k, w.keys, w.now)
    case Token(t) => LapseOf(t, w.tokens, w.now)
  }

  /** Why a queued request can no longer merge, whatever its gates say. */
  function Verdict(w: World, e: Entry, m: nat): Option<Reason>
    requires m in w.requests
  {
    if w.requests[m].state != Open then Some(Gone)
    else if !Active(w, e.queuer) then Some(InactiveUser)
    else if !Writes(w, e.queuer, m) then Some(LostWrite)
    else if Lapsed(w, e.credential).Some? then Some(CredentialLapsed(Lapsed(w, e.credential).value))
    else None
  }

  /** Neither owner nor granted more than reading. */
  ghost predicate Outsider(repo: Repo, user: nat) {
    repo.userOwner != Some(user) && (user in repo.grants ==> repo.grants[user].NoGrant? || repo.grants[user].Read?)
  }

  /** Some lookup fails before a verdict is reached. */
  ghost predicate LookupFails(w: World, e: Entry, m: nat, faults: set<Fault>)
    requires WellFormed(w) && m in w.requests && e.queuer in w.users
  {
    || RequestLookup in faults
    || (w.requests[m].state.Open?
        && (|| RepoLookup in faults || UserLookup in faults || GrantLookup in faults
            || (!w.users[e.queuer].disabled && !w.users[e.queuer].pending && !Outsider(RepoOf(w, m), e.queuer)
                && (|| CredentialLookup in faults
                    || (KeyLookup in faults && e.credential !in {QueuedWith.Session, Key(None), Token(None)})))))
  }

  /** What each verdict is for: the first of these that holds. */
  lemma VerdictMeans(w: World, e: Entry, m: nat)
    requires WellFormed(w) && m in w.requests && e.queuer in w.users
    ensures var v, user, repo := Verdict(w, e, m), w.users[e.queuer], w.repos[w.requests[m].repo];
      && (v == Some(Gone) <==> !w.requests[m].state.Open?)
      && (v == Some(InactiveUser) <==> w.requests[m].state.Open? && (user.disabled || user.pending))
      && (v == Some(LostWrite) <==>
            w.requests[m].state.Open? && !user.disabled && !user.pending && Outsider(repo, e.queuer))
      && (v.None? ==>
            && (e.credential.Key? ==> Live(e.credential.key, w.keys, w.now))
            && (e.credential.Token? ==> Live(e.credential.token, w.tokens, w.now)))
      && (v.None? || v.value.CredentialLapsed? || v.value in {Gone, InactiveUser, LostWrite})
  {
    var repo := w.repos[w.requests[m].repo];
    assert e.queuer in repo.grants ==>
      var g := repo.grants[e.queuer]; g.NoGrant? || g.Read? || g.Write? || g.Admin?;
  }

  /** What the approvals gate of a landed head rests on: enough people other than the
      author, each an owner or granted Write or Admin, whose last fresh review approves. */
  lemma LandsApproved(l: Landing, who: string)
    requires Authorised(l)
    ensures var r, w := l.world.requests[l.request], l.world;
      var repo := w.repos[r.repo];
      var approvers := Gates.Approvers(Gates.Verdicts(r.proposal, ReviewerWrites(w.users, repo)));
      && |approvers| >= repo.rules.requireApprovals
      && (who in approvers ==>
            && who != r.proposal.author
            && (exists u <- w.users :: w.users[u].name == who && !Outsider(repo, u))
            && exists i: nat :: Gates.LastApproval(r.proposal, who, i))
  {
    var r, w := l.world.requests[l.request], l.world;
    var repo := w.repos[r.repo];
    Gates.EveryGate(repo.rules, r.proposal, HeadOf(repo, r), repo.code, ReviewerWrites(w.users, repo));
    Gates.ApproverReviewed(r.proposal, ReviewerWrites(w.users, repo), who);
  }

  /** Why a credential lapsed: it is gone, or past its time, or narrowed. */
  lemma LapseMeans(id: Option<nat>, held: map<nat, Credential>, now: nat)
    ensures var l := LapseOf(id, held, now);
      && (l == Some(Removed) <==> id == None || id.value !in held)
      && (l == Some(Expired) <==>
            id.Some? && id.value in held && held[id.value].expires.Some? && held[id.value].expires.value <= now)
      && (l == Some(Narrowed) ==> id.Some? && id.value in held && !held[id.value].scope.Full?)
  {}

  /** Who counts as a reviewer of a repository. */
  function ReviewerWrites(users: map<nat, User>, repo: Repo): string -> bool {
    (who: string) => exists u <- users :: users[u].name == who && CanWrite(repo, u)
  }

  /** checksExpected: a repository that ever had a status, or a head with jobs. */
  predicate Expected(repo: Repo, head: Id) {
    (exists h <- repo.statuses :: repo.statuses[h] != []) || repo.jobs(head)
  }

  function StatusesOf(repo: Repo, head: Id): seq<Gates.Status> {
    if head in repo.statuses then repo.statuses[head] else []
  }

  function HeadOf(repo: Repo, r: Request): Gates.Head {
    var head := r.proposal.head;
    Gates.Head(StatusesOf(repo, head), Expected(repo, head), r.changes(head))
  }

  /** Every gate of the request passes at its head now. */
  ghost predicate GatesPass(w: World, m: nat)
    requires m in w.requests && w.requests[m].repo in w.repos
  {
    var r := w.requests[m];
    var repo := w.repos[r.repo];
    Gates.Passes(repo.rules, r.proposal, HeadOf(repo, r), repo.code, ReviewerWrites(w.users, repo))
  }

  /** What a push of the source branch leaves: the head moves, the row and its
      reviews follow, and the branch is back if it was gone. */
  function Received(w: World, m: nat, sha: Id, same: bool, recorded: bool): World
    requires m in w.requests
  {
    w.(requests := w.requests[m := w.requests[m].(state := Open,
      proposal := Gates.Received(w.requests[m].proposal, sha, same, recorded))])
  }

  /** After a recorded push the gates pass exactly on the statuses and files of the
      new head and the verdicts that stand for it. */
  lemma PushPassesOnItsOwn(w: World, m: nat, sha: Id, same: bool, approvers: set<string>)
    requires WellFormed(w) && m in w.requests
    requires var r, repo := w.requests[m], w.repos[w.requests[m].repo];
      forall u :: u in approvers <==> Gates.Says(r.proposal, sha, same, ReviewerWrites(w.users, repo), u, "approve")
    ensures var r, repo := w.requests[m], w.repos[w.requests[m].repo];
      GatesPass(Received(w, m, sha, same, true), m) <==>
        && !r.proposal.draft
        && Gates.ChecksMet(repo.rules, Gates.Head(
             if sha in repo.statuses then repo.statuses[sha] else [],
             repo.jobs(sha) || exists h <- repo.statuses :: repo.statuses[h] != [], r.changes(sha)))
        && (repo.rules.requireApprovals > 0 ==>
              && |approvers| >= repo.rules.requireApprovals
              && forall u :: !Gates.Says(r.proposal, sha, same, ReviewerWrites(w.users, repo), u, "request_changes"))
        && (repo.rules.requireCodeowners ==> Gates.OwnersMet(repo.code, r.changes(sha), approvers))
        && (repo.rules.requireResolved ==> r.proposal.threads == 0)
  {
    var r, repo := w.requests[m], w.repos[w.requests[m].repo];
    var head := Gates.Head(StatusesOf(repo, sha), Expected(repo, sha), r.changes(sha));
    Gates.NewHeadOnItsOwn(repo.rules, r.proposal, sha, same, head, repo.code, ReviewerWrites(w.users, repo), approvers);
  }

  /** A merge by the queue lands the head last pushed, and where checks are asked for
      that head is green: each of its statuses, each context asked for, and if it has
      none then because nothing was to report. */
  lemma LandsPushedHead(l: Landing)
    requires Authorised(l)
    ensures var r, repo := l.world.requests[l.request], l.world.repos[l.world.requests[l.request].repo];
      var sha := r.proposal.head;
      && (l.pushes != [] ==> sha == l.pushes[|l.pushes|-1].head) && !r.proposal.draft
      && (repo.rules.requireChecks ==>
            && (sha in repo.statuses ==>
                  forall s <- repo.statuses[sha] :: s.state != "error" && s.state != "failure" && s.state != "pending")
            && (forall c <- repo.rules.contexts ::
                  sha in repo.statuses && exists s <- repo.statuses[sha] :: s.context == c)
            && (sha !in repo.statuses || repo.statuses[sha] == [] ==>
                  !repo.jobs(sha) && forall h <- repo.statuses :: repo.statuses[h] == []))
      && (repo.rules.requireResolved ==> r.proposal.threads == 0)
  {
    var r, repo := l.world.requests[l.request], l.world.repos[l.world.requests[l.request].repo];
    Gates.EveryGate(repo.rules, r.proposal, HeadOf(repo, r), repo.code, ReviewerWrites(l.world.users, repo));
  }

  function RepoOf(w: World, m: nat): Repo
    requires WellFormed(w) && m in w.requests
  {
    w.repos[w.requests[m].repo]
  }

  lemma AuthorisedNow(w: World, m: nat, e: Entry, pushes: seq<Push>)
    requires WellFormed(w) && m in w.requests && Verdict(w, e, m).None? && GatesPass(w, m)
    requires Clean(pushes) && AtPushed(w.requests[m].proposal, pushes)
    ensures Authorised(Landing(m, w, e, pushes))
  {}

  /** queueKeyID, and what the store makes of it. */
  function CredentialOf(w: World, session: Session): Option<QueuedWith> {
    match session
    case Web => Some(QueuedWith.Session)
    case ByToken(t) => Some(Token(Some(t)))
    case ByKey(f) => if f in w.fingerprints then Some(Key(Some(w.fingerprints[f]))) else None
  }

  function WithState(w: World, m: nat, s: State): World
    requires m in w.requests
  {
    w.(requests := w.requests[m := w.requests[m].(state := s)])
  }

  /** Why a push takes a request off the queue: it was not a writer's, or that
      could not be checked. */
  function JudgePush(w: World, m: nat, pusher: nat, scope: Scope, faults: set<Fault>): (why: Option<Reason>)
    requires WellFormed(w) && m in w.requests
    ensures why.None? ==> scope != Deploy && pusher in w.users && Writes(w, pusher, m)
    ensures why == Some(Unchecked) <==>
      || RequestLookup in faults
      || (scope != Deploy
          && (RepoLookup in faults || UserLookup in faults || GrantLookup in faults || pusher !in w.users))
    ensures faults == {} && scope == Deploy ==> why == Some(DeployPush)
    ensures faults == {} && scope != Deploy && pusher in w.users ==>
      (why == Some(StrangerPush) <==> Outsider(w.repos[w.requests[m].repo], pusher))
    ensures faults == {} && scope != Deploy && pusher in w.users && Writes(w, pusher, m) ==> why.None?
  {
    if RequestLookup in faults then Some(Unchecked)
    else if scope == Deploy then Some(DeployPush)
    else if RepoLookup in faults || UserLookup in faults || pusher !in w.users || GrantLookup in faults then Some(Unchecked)
    else if !CanWrite(w.repos[w.requests[m].repo], pusher) then Some(StrangerPush)
    else None
  }

  class Queue {
    var world: World
    var queue: map<nat, Entry>
    ghost var pushes: map<nat, seq<Push>>  // of each request, since it was queued
    ghost var landings: seq<Landing>

    /** A queued request has been pushed only by those who could merge it, its
        head is the one last pushed unless it is among `moved`, whose push is
        being judged, and every merge so far was authorised. */
    ghost predicate ValidBut(moved: set<nat>)
      reads this
    {
      && WellFormed(world) && queue.Keys <= world.requests.Keys && queue.Keys <= pushes.Keys
      && (forall m <- queue ::
            && queue[m].queuer in world.users && Clean(pushes[m])
            && (m in moved || AtPushed(world.requests[m].proposal, pushes[m])))
      && (forall l <- landings :: Authorised(l))
    }

    ghost predicate Valid()
      reads this
    {
      ValidBut({})
    }

    constructor (w: World)
      requires WellFormed(w)
      ensures Valid() && world == w && queue == map[] && landings == []
    {
      world, queue, pushes, landings := w, map[], map[], [];
    }

    method DequeueWithReason(m: nat, why: Reason) returns (r: Result)
      requires Valid()
      modifies `queue
      ensures Valid() && queue == old(queue) - {m} && r == Dequeued(why) && queue - {m} == old(queue) - {m}
    {
      queue := queue - {m};
      r := Dequeued(why);
    }

    method SetReason(m: nat, reason: string) returns (r: Result)
      requires Valid() && m in queue
      modifies `queue
      ensures Valid() && queue == old(queue)[m := old(queue)[m].(reason := reason)] && r == Waiting(reason)
      ensures queue - {m} == old(queue) - {m}
    {
      queue := queue[m := queue[m].(reason := reason)];
      r := Waiting(reason);
    }

    method ReviewGates(m: nat) returns (pass: bool)
      requires Valid() && m in world.requests
      ensures pass <==> GatesPass(world, m)
    {
      var r, repo := world.requests[m], world.repos[world.requests[m].repo];
      var unmet := Gates.MergeGates(repo.rules, r.proposal, HeadOf(repo, r), repo.code, ReviewerWrites(world.users, repo));
      assert unmet != [] ==> unmet[0] in unmet;
      pass := unmet == [];
    }

    /** The request is merged; that takes it off the queue, by the store's trigger. */
    method Land(m: nat)
      requires Valid() && m in queue && Verdict(world, queue[m], m).None? && GatesPass(world, m)
      modifies `queue, `world, `landings
      ensures Valid() && queue == old(queue) - {m} && world == WithState(old(world), m, Merged)
      ensures world.requests == old(world).requests[m := old(world).requests[m].(state := Merged)]
      ensures landings == old(landings) + [Landing(m, old(world), old(queue)[m], pushes[m])]
    {
      AuthorisedNow(world, m, queue[m], pushes[m]);
      landings := landings + [Landing(m, world, queue[m], pushes[m])];
      assert Valid();
      world := WithState(world, m, Merged);
      queue := queue - {m};
    }

    /** mergeMR as the queuer, for whom nothing has lapsed: refused unless the
        gates pass and the repository takes writes, or for another obstacle (a
        failed lookup, a conflict, a moved target). */
    method MergeMR(m: nat, obstacle: Option<string>) returns (refusal: Option<string>)
      requires Valid() && m in queue && Verdict(world, queue[m], m).None?
      modifies `queue, `world, `landings
      ensures Valid() && queue - {m} == old(queue) - {m}
      ensures refusal.Some? ==> queue == old(queue) && world == old(world) && landings == old(landings)
      ensures refusal.None? <==>
          GatesPass(old(world), m) && !old(world).repos[old(world).requests[m].repo].archived && obstacle.None?
      ensures refusal.None? ==>
          && queue == old(queue) - {m} && world == WithState(old(world), m, Merged)
          && landings == old(landings) + [Landing(m, old(world), old(queue)[m], pushes[m])]
    {
      if world.repos[world.requests[m].repo].archived { return Some("archived"); }
      var pass := ReviewGates(m);
      if !pass { return Some("gates"); }
      if obstacle.Some? { return obstacle; }
      Land(m);
      refusal := None;
    }

    /** Whether the queue may still merge, by what it looks up; if not, the
        request is off the queue or waits. */
    method MayMerge(m: nat, faults: set<Fault>) returns (r: Option<Result>)
      requires Valid() && m in queue
      modifies `queue
      ensures Valid()
      ensures queue - {m} == old(queue) - {m}
      ensures r.None? ==> queue == old(queue) && Verdict(world, queue[m], m).None?
      ensures r.Some? ==> r.value.Dequeued? || r.value == Waiting(INTERNAL)
      ensures r.Some? && r.value.Dequeued? ==>
          queue == old(queue) - {m} && Verdict(world, old(queue)[m], m) == Some(r.value.why)
      ensures r.Some? && r.value.Waiting? ==>
          queue == old(queue)[m := old(queue)[m].(reason := INTERNAL)]
      ensures r == Some(Waiting(INTERNAL)) <==> LookupFails(world, old(queue)[m], m, faults)
    {
      var e := queue[m];
      var why: Option<Reason> := None;
      if RequestLookup in faults { var w := SetReason(m, INTERNAL); return Some(w); }
      if world.requests[m].state != Open { why := Some(Gone); }
      else if RepoLookup in faults || UserLookup in faults || GrantLookup in faults {
        var w := SetReason(m, INTERNAL);
        return Some(w);
      }
      else if world.users[e.queuer].disabled || world.users[e.queuer].pending { why := Some(InactiveUser); }
      else if !CanWrite(world.repos[world.requests[m].repo], e.queuer) { why := Some(LostWrite); }
      else if CredentialLookup in faults || (KeyLookup in faults && NeedsLookup(e.credential)) {
        var w := SetReason(m, INTERNAL);
        return Some(w);
      }
      else {
        var lapse := Lapsed(world, e.credential);
        if lapse.Some? { why := Some(CredentialLapsed(lapse.value)); }
      }
      if why.None? { return None; }
      var d := DequeueWithReason(m, why.value);
      r := Some(d);
    }

    /** The merge, or its refusal recorded. */
    method MergeAs(m: nat, obstacle: Option<string>) returns (r: Result)
      requires Valid() && m in queue && Verdict(world, queue[m], m).None?
      modifies `queue, `world, `landings
      ensures Valid() && queue - {m} == old(queue) - {m} && (r.Waiting? || r.MergedNow?)
      ensures r.Waiting? ==>
          && world == old(world) && landings == old(landings)
          && queue == old(queue)[m := old(queue)[m].(reason := r.reason)]
      ensures r.MergedNow? <==>
          GatesPass(old(world), m) && !old(world).repos[old(world).requests[m].repo].archived && obstacle.None?
      ensures r.MergedNow? ==>
          && queue == old(queue) - {m} && world == WithState(old(world), m, Merged)
          && landings == old(landings) + [Landing(m, old(world), old(queue)[m], pushes[m])]
    {
      var refusal := MergeMR(m, obstacle);
      if refusal.None? { return MergedNow; }
      r := SetReason(m, refusal.value);
    }

    /** attemptLocked. An outsider's request leaves the queue, and so does one of an
        inactive account; one whose queuer may still merge lands as soon as its
        gates pass and nothing stands in the way. */
    method AttemptLocked(m: nat, faults: set<Fault>, obstacle: Option<string>) returns (r: Result)
      requires Valid()
      modifies `queue, `world, `landings
      ensures Valid() && (m in old(queue) <==> r != Nothing)
      ensures queue - {m} == old(queue) - {m}
      ensures r == Nothing ==> queue == old(queue)
      ensures r.Dequeued? ==> queue == old(queue) - {m} && Verdict(old(world), old(queue)[m], m) == Some(r.why)
      ensures r.Waiting? ==> queue == old(queue)[m := old(queue)[m].(reason := r.reason)]
      ensures r.Waiting? && RequestLookup !in faults ==> old(world).requests[m].state == Open
      ensures r.Waiting? && faults == {} ==> Verdict(old(world), old(queue)[m], m).None?
      ensures !r.MergedNow? ==> world == old(world) && landings == old(landings)
      ensures m in old(queue) && faults == {} && old(world).requests[m].state == Open ==>
          var q, repo := old(queue)[m].queuer, old(world).repos[old(world).requests[m].repo];
          if old(world).users[q].disabled || old(world).users[q].pending then r == Dequeued(InactiveUser)
          else Outsider(repo, q) ==> r == Dequeued(LostWrite)
      ensures m in old(queue) && faults == {} && Verdict(old(world), old(queue)[m], m).None? ==>
          (r.MergedNow? <==>
            GatesPass(old(world), m) && !old(world).repos[old(world).requests[m].repo].archived && obstacle.None?)
      ensures r.MergedNow? ==>
          && Verdict(old(world), old(queue)[m], m).None? && GatesPass(old(world), m)
          && queue == old(queue) - {m} && world == WithState(old(world), m, Merged)
          && landings == old(landings) + [Landing(m, old(world), old(queue)[m], pushes[m])]
    {
      if m !in queue { return Nothing; }
      VerdictMeans(world, queue[m], m);
      r := AttemptQueued(m, faults, obstacle);
    }

    /** MayMerge, as far as an attempt depends on it. */
    method GoOn(m: nat, faults: set<Fault>) returns (r: Option<Result>)
      requires Valid() && m in queue
      modifies `queue
      ensures Valid() && queue - {m} == old(queue) - {m}
      ensures r.None? ==> queue == old(queue) && Verdict(world, queue[m], m).None?
      ensures r.Some? ==> r.value.Dequeued? || r.value.Waiting?
      ensures r.Some? && r.value.Dequeued? ==>
          queue == old(queue) - {m} && Verdict(world, old(queue)[m], m) == Some(r.value.why)
      ensures r.Some? && r.value.Waiting? ==>
          && queue == old(queue)[m := old(queue)[m].(reason := r.value.reason)]
          && faults != {} && (RequestLookup !in faults ==> world.requests[m].state == Open)
    {
      r := MayMerge(m, faults);
    }

    method AttemptQueued(m: nat, faults: set<Fault>, obstacle: Option<string>) returns (r: Result)
      requires Valid() && m in queue
      modifies `queue, `world, `landings
      ensures Valid() && r != Nothing && queue - {m} == old(queue) - {m}
      ensures r.Dequeued? ==> queue == old(queue) - {m} && Verdict(old(world), old(queue)[m], m) == Some(r.why)
      ensures r.Waiting? ==> queue == old(queue)[m := old(queue)[m].(reason := r.reason)]
      ensures r.Waiting? && RequestLookup !in faults ==> old(world).requests[m].state == Open
      ensures r.Waiting? && faults == {} ==> Verdict(old(world), old(queue)[m], m).None?
      ensures !r.MergedNow? ==> world == old(world) && landings == old(landings)
      ensures faults == {} && Verdict(old(world), old(queue)[m], m).None? ==>
          (r.MergedNow? <==>
            GatesPass(old(world), m) && !old(world).repos[old(world).requests[m].repo].archived && obstacle.None?)
      ensures r.MergedNow? ==>
          && Verdict(old(world), old(queue)[m], m).None? && GatesPass(old(world), m)
          && queue == old(queue) - {m} && world == WithState(old(world), m, Merged)
          && landings == old(landings) + [Landing(m, old(world), old(queue)[m], pushes[m])]
    {
      var kept := GoOn(m, faults);
      if kept.Some? { return kept.value; }
      r := MergeAs(m, obstacle);
    }

    /** The attempt after a writer's push, which is among the request's from here on. */
    method AttemptPushed(m: nat, pusher: nat, scope: Scope, attempt: set<Fault>, obstacle: Option<string>)
      returns (r: Result)
      requires ValidBut({m}) && m in queue && Writes(world, pusher, m) && scope != Deploy
      modifies `queue, `world, `landings, `pushes
      ensures Valid() && queue - {m} == old(queue) - {m} && r != Nothing && (r.Dequeued? ==> m !in queue)
      ensures var push := Push(pusher, scope, RepoOf(old(world), m), old(world).requests[m].proposal.head);
          pushes == old(pushes)[m := old(pushes)[m] + [push]]
      ensures !r.MergedNow? ==> world == old(world) && landings == old(landings)
      ensures r.MergedNow? ==>
          && GatesPass(old(world), m) && m !in queue && world == WithState(old(world), m, Merged)
          && landings == old(landings) + [Landing(m, old(world), old(queue)[m], pushes[m])]
      ensures r.Waiting? && attempt == {} ==> Verdict(old(world), old(queue)[m], m).None?
    {
      pushes := pushes[m := pushes[m] + [Push(pusher, scope, RepoOf(world, m), world.requests[m].proposal.head)]];
      r := AttemptLocked(m, attempt, obstacle);
    }

    /** QueuedMergePushed, for the head just received: `attempt` are the lookups
        that fail in the attempt after it. */
    method QueuedMergePushed(m: nat, pusher: nat, scope: Scope, faults: set<Fault>, attempt: set<Fault>,
                             obstacle: Option<string>)
      returns (r: Result)
      requires ValidBut({m}) && m in world.requests
      modifies `queue, `world, `landings, `pushes
      ensures Valid() && queue - {m} == old(queue) - {m}
      ensures m !in old(queue) ==> r == Nothing && queue == old(queue) && pushes == old(pushes)
      ensures m in old(queue) && !(scope != Deploy && pusher in old(world).users && Writes(old(world), pusher, m)) ==>
          r.Dequeued? && m !in queue
      ensures !r.MergedNow? ==> world == old(world) && landings == old(landings)
      ensures m in queue || r.MergedNow? ==>
          var push := Push(pusher, scope, RepoOf(old(world), m), old(world).requests[m].proposal.head);
          m in old(queue) && pushes == old(pushes)[m := old(pushes)[m] + [push]]
      ensures r.MergedNow? ==>
          && GatesPass(old(world), m) && world == WithState(old(world), m, Merged)
          && landings == old(landings) + [Landing(m, old(world), old(queue)[m], pushes[m])]
      ensures r.Waiting? && attempt == {} ==> Verdict(old(world), old(queue)[m], m).None?
    {
      if m !in queue { return Nothing; }
      var why := JudgePush(world, m, pusher, scope, faults);
      if why.Some? {
        queue := queue - {m};
        return Dequeued(why.value);
      }
      r := AttemptPushed(m, pusher, scope, attempt, obstacle);
    }

    /** A push of the source branch of `m` to `sha`, as post-receive takes it.
        `same` says the change stays the same (sameChange). */
    method Pushed(m: nat, pusher: nat, scope: Scope, sha: Id, same: bool, faults: set<Fault>, attempt: set<Fault>,
                  obstacle: Option<string>)
      returns (r: Result)
      requires Valid() && m in world.requests
      requires world.requests[m].state in {Open, SourceGone}
      modifies `queue, `world, `landings, `pushes
      ensures Valid() && queue - {m} == old(queue) - {m}
      ensures HeadFetch in faults ==>
          r == Nothing && queue == old(queue) && landings == old(landings) && world == old(world)
      ensures HeadFetch !in faults ==>
          var w := Received(old(world), m, sha, same, HeadRecord !in faults);
          var push := Push(pusher, scope, RepoOf(old(world), m), sha);
          && world == (if r.MergedNow? then WithState(w, m, Merged) else w)
          && (!r.MergedNow? ==> landings == old(landings))
          && (m !in old(queue) ==> r == Nothing && m !in queue)
          && (m in old(queue) && !(scope != Deploy && pusher in w.users && Writes(w, pusher, m)) ==>
                r.Dequeued? && m !in queue)
          && (m in queue ==> pushes == old(pushes)[m := old(pushes)[m] + [push]])
          && (r.MergedNow? ==>
                && m in old(queue) && GatesPass(w, m)
                && landings == old(landings)
                     + [Landing(m, w, old(queue)[m], old(pushes)[m] + [push])])
          && (r.Waiting? && attempt == {} ==> Verdict(w, old(queue)[m], m).None?)
    {
      if HeadFetch in faults { return Nothing; }
      world := Received(world, m, sha, same, HeadRecord !in faults);
      r := QueuedMergePushed(m, pusher, scope, faults, attempt, obstacle);
    }

    /** Deleting the source branch, then the attempt that takes the request off. */
    method SourceDeleted(m: nat, faults: set<Fault>, obstacle: Option<string>)
      requires Valid() && m in world.requests
      modifies `queue, `world, `landings
      ensures Valid() && landings == old(landings) && queue - {m} == old(queue) - {m}
      ensures world == if old(world).requests[m].state == Open then WithState(old(world), m, SourceGone) else old(world)
      ensures RequestLookup !in faults ==> m !in queue
    {
      if world.requests[m].state == Open {
        world := WithState(world, m, SourceGone);
      }
      var _ := AttemptLocked(m, faults, obstacle);
    }

    /** mr merge --when-ready: queue as `user`, then try at once. */
    method QueueMerge(m: nat, user: nat, strategy: Strategy, session: Session, expiring: bool, faults: set<Fault>,
                      obstacle: Option<string>)
      returns (r: Result, refusal: Option<Refusal>)
      requires Valid() && m in world.requests && user in world.users
      modifies `queue, `world, `landings, `pushes
      ensures Valid()
      ensures queue - {m} == old(queue) - {m}
      ensures var repo := old(world).repos[old(world).requests[m].repo];
          refusal.None? <==>
          && !Outsider(repo, user) && !repo.archived && old(world).requests[m].state == Open && !expiring
          && !(repo.requireSigned && strategy in {MergeCommit, Squash})
          && (session.ByKey? ==> session.fingerprint in old(world).fingerprints && SessionLookup !in faults)
          && QueueWrite !in faults
      ensures refusal.Some? ==> queue == old(queue) && world == old(world) && landings == old(landings)
      ensures refusal.None? ==>
          if r.Waiting? then
            && m in queue && pushes[m] == []
            && queue[m] == Entry(user, strategy, CredentialOf(old(world), session).value, r.reason)
            && match session
               case Web => queue[m].credential.Session?
               case ByToken(t) => queue[m].credential == Token(Some(t))
               case ByKey(f) => f in old(world).fingerprints && queue[m].credential == Key(Some(old(world).fingerprints[f]))
          else m !in queue && (r.MergedNow? || r.Dequeued?)
    {
      r := Nothing;
      var credential;
      refusal, credential := RefuseQueueing(m, user, strategy, session, expiring, faults);
      if refusal.Some? { return; }
      Enqueue(m, Entry(user, strategy, credential, ""));
      r := AttemptLocked(m, faults, obstacle);
    }

    /** queueMerge up to the store's write: why it is refused, or the credential. */
    method RefuseQueueing(m: nat, user: nat, strategy: Strategy, session: Session, expiring: bool, faults: set<Fault>)
      returns (refusal: Option<Refusal>, credential: QueuedWith)
      requires Valid() && m in world.requests && user in world.users
      ensures var repo := RepoOf(world, m);
          refusal.None? <==>
          && !Outsider(repo, user) && !repo.archived && world.requests[m].state == Open && !expiring
          && !(repo.requireSigned && strategy in {MergeCommit, Squash})
          && (session.ByKey? ==> session.fingerprint in world.fingerprints && SessionLookup !in faults)
          && QueueWrite !in faults
      ensures refusal.None? ==> CredentialOf(world, session) == Some(credential)
    {
      refusal, credential := None, QueuedWith.Session;
      var repo := world.repos[world.requests[m].repo];
      if !CanWrite(repo, user) { refusal := Some(DeniedUser); return; }
      if repo.archived { refusal := Some(ArchivedRepo); return; }
      if world.requests[m].state != Open { refusal := Some(NotOpen); return; }
      if expiring { refusal := Some(ExpiringCredential); return; }
      if repo.requireSigned && (strategy == MergeCommit || strategy == Squash) {
        refusal := Some(NeedsSignatures);
        return;
      }
      var found := CredentialOf(world, session);
      if found.None? || (session.ByKey? && SessionLookup in faults) {
        refusal := Some(SessionKeyUnknown);
        return;
      }
      if QueueWrite in faults { refusal := Some(StoreFailed); return; }
      credential := found.value;
    }

    /** store.QueueMerge: in place of what was queued before, no push since. */
    method Enqueue(m: nat, e: Entry)
      requires Valid() && m in world.requests && e.queuer in world.users
      modifies `queue, `pushes
      ensures Valid() && queue == old(queue)[m := e] && queue - {m} == old(queue) - {m}
      ensures pushes == old(pushes)[m := []]
    {
      pushes := pushes[m := []];
      queue := queue[m := e];
      assert queue - {m} == old(queue) - {m};
    }

    /** mr merge --cancel. */
    method CancelQueuedMerge(m: nat) returns (ok: bool)
      requires Valid()
      modifies `queue
      ensures Valid() && queue == old(queue) - {m} && ok == (m in old(queue))
    {
      ok := m in queue;
      queue := queue - {m};
    }

    /** Time passes, accounts, grants, credentials, statuses, reviews and settings
        change, requests open and close. Only a push moves a head. Closing or
        merging a request takes it off the queue, and so does deleting its queuer. */
    method Environment(w: World)
      requires Valid() && WellFormed(w)
      requires forall m | m in world.requests && m in w.requests ::
          w.requests[m].proposal.head == world.requests[m].proposal.head
      modifies `world, `queue
      ensures Valid() && world == w
      ensures queue.Keys <= old(queue).Keys
      ensures OnlyForgets(w, old(queue), queue)
    {
      ReplaceWorld(w);
      StillQueuedMeans(w, old(queue));
    }

    method ReplaceWorld(w: World)
      requires Valid() && WellFormed(w)
      requires forall m | m in world.requests && m in w.requests ::
          w.requests[m].proposal.head == world.requests[m].proposal.head
      modifies `world, `queue
      ensures Valid() && world == w && queue == StillQueued(w, old(queue))
    {
      var kept := StillQueued(w, queue);
      forall m <- kept
        ensures m in queue && m in w.requests && kept[m].queuer in w.users && Clean(pushes[m])
        ensures AtPushed(w.requests[m].proposal, pushes[m])
      {
        assert AtPushed(world.requests[m].proposal, pushes[m]);
      }
      assert kept.Keys <= queue.Keys;
      world, queue := w, kept;
    }
  }

  /** What a changed world leaves queued. */
  function StillQueued(w: World, queue: map<nat, Entry>): (kept: map<nat, Entry>) {
    map m | m in queue && m in w.requests && w.requests[m].state !in {Merged, Closed} && queue[m].queuer in w.users ::
      ForgetRemoved(w, queue[m])
  }

  /** The requests still open stay queued as they were, but for a credential removed. */
  ghost predicate OnlyForgets(w: World, was: map<nat, Entry>, now: map<nat, Entry>) {
    && now.Keys <= was.Keys
    && (forall m <- was ::
          m in now <==> m in w.requests && !w.requests[m].state.Merged? && !w.requests[m].state.Closed?
                        && was[m].queuer in w.users)
    && (forall m <- now :: m in was ==>
          && now[m] == was[m].(credential := now[m].credential)
          && match was[m].credential
             case Session => now[m].credential == QueuedWith.Session
             case Key(k) => now[m].credential == if k.Some? && k.value in w.keys then Key(k) else Key(None)
             case Token(t) => now[m].credential == if t.Some? && t.value in w.tokens then Token(t) else Token(None))
  }

  lemma StillQueuedMeans(w: World, queue: map<nat, Entry>)
    ensures OnlyForgets(w, queue, StillQueued(w, queue))
  {}

  /** ON DELETE SET NULL: a removed credential's id is forgotten, so a later
      credential never stands in for it. */
  function ForgetRemoved(w: World, e: Entry): Entry {
    match e.credential
    case Session => e
    case Key(k) => if k.Some? && k.value !in w.keys then e.(credential := Key(None)) else e
    case Token(t) => if t.Some? && t.value !in w.tokens then e.(credential := Token(None)) else e
  }
}
