/** MergeGates of internal/control/mr.go: what a merge request has to meet at its
    head, and what internal/store/mrs.go leaves of its reviews when the head
    moves. */
module Gates {
  import opened Text
  import opened CommitGraph
  import opened Reviews
  import Lex
  import Sorting

  datatype Settings = Settings(
    requireChecks: bool, contexts: seq<string>, requireApprovals: nat, requireCodeowners: bool, requireResolved: bool)

  datatype Status = Status(context: string, state: string)

  /** A head as the gates see it: its statuses, whether any were to be expected,
      and the files it changes. */
  datatype Head = Head(statuses: seq<Status>, expected: bool, files: seq<string>)

  datatype Codeowners = Codeowners(rules: seq<Rule>, matches: (string, string) -> bool)

  /** A merge request: the commit its head ref names, the one its row records,
      and the verdicts so far. */
  datatype Proposal = Proposal(
    author: string, draft: bool, threads: nat, head: Id, recorded: Id, reviews: seq<Review>)

  // ------------------------------------------------------------------------ checks

  predicate Failed(s: Status) { s.state == "error" || s.state == "failure" }

  predicate Pending(s: Status) { s.state == "pending" }

  /** store.CombinedStatus. */
  method CombinedStatus(statuses: seq<Status>) returns (combined: string)
    ensures combined == "" <==> statuses == []
    ensures combined == "failure" <==> exists s <- statuses :: Failed(s)
    ensures combined == "pending" <==>
      (forall s <- statuses :: !Failed(s)) && exists s <- statuses :: Pending(s)
    ensures combined in {"", "success", "pending", "failure"}
  {
    if |statuses| == 0 { return ""; }
    combined := "success";
    for i := 0 to |statuses|
      invariant combined == if exists j :: 0 <= j < i && Pending(statuses[j]) then "pending" else "success"
      invariant forall j | 0 <= j < i :: !Failed(statuses[j])
    {
      var s := statuses[i];
      assert s in statuses && (Failed(s) <==> s.state == "error" || s.state == "failure");
      if s.state == "error" || s.state == "failure" { return "failure"; }
      if s.state == "pending" { combined := "pending"; }
    }
  }

  predicate Reported(statuses: seq<Status>, context: string) {
    exists s <- statuses :: s.context == context
  }

  /** Every status of the head is green, every context asked for is among them,
      and a head with none is one nothing was to report on. */
  predicate ChecksMet(rules: Settings, head: Head) {
    rules.requireChecks ==>
      && (forall s <- head.statuses :: !Failed(s) && !Pending(s))
      && (forall c <- rules.contexts :: Reported(head.statuses, c))
      && (head.statuses == [] ==> !head.expected)
  }

  /** checksGate. */
  method ChecksGate(rules: Settings, head: Head) returns (met: bool, missing: seq<string>)
    ensures met <==> ChecksMet(rules, head)
    ensures rules.requireChecks ==>
      forall c :: c in missing <==> c in rules.contexts && !Reported(head.statuses, c)
  {
    missing := [];
    var checks := CombinedStatus(head.statuses);
    if !rules.requireChecks { return true, missing; }
    for i := 0 to |rules.contexts|
      invariant forall c :: c in missing <==>
        (exists j :: 0 <= j < i && rules.contexts[j] == c) && !Reported(head.statuses, c)
    {
      if !Reported(head.statuses, rules.contexts[i]) { missing := missing + [rules.contexts[i]]; }
    }
    assert missing != [] ==> missing[0] in missing;
    if |missing| > 0 && (checks == "" || checks == "success") { checks := "pending"; }
    met := checks == "success" || (checks == "" && !head.expected);
  }

  // --------------------------------------------------------------------- all gates

  /** What ReviewersWhoCount finds. */
  function Counts(reviews: seq<Review>, canWrite: string -> bool): map<string, bool> {
    map i | 0 <= i < |reviews| :: reviews[i].reviewer := canWrite(reviews[i].reviewer)
  }

  function Verdicts(mr: Proposal, canWrite: string -> bool): map<string, string> {
    Latest(mr.reviews, mr.author, Counts(mr.reviews, canWrite))
  }

  function Approvers(latest: map<string, string>): set<string> {
    set w | w in latest && latest[w] == "approve"
  }

  /** Each file of the change that has owners is approved by one of them. */
  predicate OwnersMet(code: Option<Codeowners>, files: seq<string>, approvers: set<string>) {
    && code.Some?
    && forall f <- files ::
         var owners := OwnersFor(code.value.rules, code.value.matches, f);
         owners.Some? ==> exists o <- owners.value :: o in approvers
  }

  datatype Gate = Draft | Checks | Approvals(unmet: Unmet) | Owners | Threads

  predicate Met(gate: Gate, rules: Settings, mr: Proposal, head: Head, code: Option<Codeowners>, canWrite: string -> bool) {
    var latest := Verdicts(mr, canWrite);
    match gate
    case Draft => !mr.draft
    case Checks => ChecksMet(rules, head)
    case Approvals(ChangesUnresolved) => rules.requireApprovals == 0 || forall w <- latest :: latest[w] != "request_changes"
    case Approvals(TooFewApprovals) => |Approvers(latest)| >= rules.requireApprovals
    case Owners => rules.requireCodeowners ==> OwnersMet(code, head.files, Approvers(latest))
    case Threads => rules.requireResolved ==> mr.threads == 0
  }

  ghost predicate Passes(rules: Settings, mr: Proposal, head: Head, code: Option<Codeowners>, canWrite: string -> bool) {
    forall gate :: Met(gate, rules, mr, head, code, canWrite)
  }

  lemma AllApprovers(approvals: seq<string>, latest: map<string, string>)
    requires AreWith(approvals, latest, "approve")
    ensures |approvals| == |Approvers(latest)| && forall w :: w in approvals <==> w in Approvers(latest)
  {
    forall i, j | 0 <= i < j < |approvals| ensures approvals[i] != approvals[j] {
      Lex.Asymmetric(approvals[i], approvals[j]);
    }
    Sorting.NoRepeatsSize(approvals);
    assert (set w | w in approvals) == Approvers(latest);
  }

  /** codeownersGate: no group of files is left without an owner's approval. */
  method CodeownersGate(code: Option<Codeowners>, files: seq<string>, approvals: seq<string>) returns (met: bool)
    ensures met <==> OwnersMet(code, files, set w | w in approvals)
  {
    if code.None? { return false; }
    var Codeowners(rules, matches) := code.value;
    var keys, missing := UnapprovedOwners(rules, matches, files, approvals);
    met := |missing| == 0;
    ghost var ownersOf := ByRules(rules, matches);
    forall f ensures (f in files && Outstanding(ownersOf(f), approvals)) <==> exists key <- keys :: f in missing[key] {
      GroupsPart(keys, missing, files, ownersOf, approvals, f);
    }
    if missing != map[] {
      ghost var key := Sorting.Witness(missing.Keys);
      GroupsPart(keys, missing, files, ownersOf, approvals, "");
      assert key in keys && missing[key][0] in missing[key];
      assert missing[key][0] in files && Outstanding(ownersOf(missing[key][0]), approvals);
    }
  }

  /** approvalsGate's part in MergeGates, and who approves. */
  method ApprovalGates(rules: Settings, mr: Proposal, head: Head, code: Option<Codeowners>, canWrite: string -> bool)
    returns (approvals: seq<string>, unmet: seq<Gate>)
    ensures (set w | w in approvals) == Approvers(Verdicts(mr, canWrite))
    ensures forall gate :: gate in unmet <==> gate.Approvals? && !Met(gate, rules, mr, head, code, canWrite)
  {
    var counts := ReviewersWhoCount(mr.reviews, canWrite);
    assert counts == Counts(mr.reviews, canWrite);
    var changes, short;
    approvals, changes, short := ApprovalsGate(mr.reviews, mr.author, counts, rules.requireApprovals);
    ghost var latest := Verdicts(mr, canWrite);
    AllApprovers(approvals, latest);
    assert changes != [] ==> changes[0] in changes;
    assert changes == [] <==> forall w <- latest :: latest[w] != "request_changes";
    forall why: Unmet ensures why in short <==> !Met(Approvals(why), rules, mr, head, code, canWrite) {
      match why
      case ChangesUnresolved =>
      case TooFewApprovals =>
    }
    unmet := AsGates(short);
  }

  /** MergeGates: exactly the gates that are not met. */
  method MergeGates(rules: Settings, mr: Proposal, head: Head, code: Option<Codeowners>, canWrite: string -> bool)
    returns (unmet: seq<Gate>)
    ensures forall gate :: gate in unmet <==> !Met(gate, rules, mr, head, code, canWrite)
  {
    unmet := [];
    if mr.draft { unmet := [Draft]; }
    var green, _ := ChecksGate(rules, head);
    if !green { unmet := unmet + [Checks]; }
    var approvals, short := ApprovalGates(rules, mr, head, code, canWrite);
    unmet := unmet + short;
    if rules.requireCodeowners {
      var owned := CodeownersGate(code, head.files, approvals);
      if !owned { unmet := unmet + [Owners]; }
    }
    if rules.requireResolved && mr.threads > 0 { unmet := unmet + [Threads]; }
  }

  function AsGates(short: seq<Unmet>): (gates: seq<Gate>)
    ensures forall gate :: gate in gates <==> gate.Approvals? && gate.unmet in short
  {
    if short == [] then [] else [Approvals(short[0])] + AsGates(short[1..])
  }

  /** Review `i` is `who`'s last fresh one, and an approval. */
  ghost predicate LastApproval(mr: Proposal, who: string, i: nat) {
    && i < |mr.reviews|
    && mr.reviews[i].reviewer == who && mr.reviews[i].verdict == "approve" && !mr.reviews[i].stale
    && forall j | i < j < |mr.reviews| && mr.reviews[j].reviewer == who :: mr.reviews[j].stale
  }

  /** Who approves: someone else than the author, with write access, whose last fresh
      review is an approval. */
  lemma ApproverReviewed(mr: Proposal, canWrite: string -> bool, who: string)
    ensures who in Approvers(Verdicts(mr, canWrite)) <==>
      who != mr.author && canWrite(who) && exists i: nat :: LastApproval(mr, who, i)
  {
    var counts := Counts(mr.reviews, canWrite);
    LatestIsLastWord(mr.reviews, mr.author, counts, who);
    var latest := Verdicts(mr, canWrite);
    if who in latest && latest[who] == "approve" {
      var i: nat :| LastWord(mr.reviews, mr.author, counts, i) && mr.reviews[i].reviewer == who
        && mr.reviews[i].verdict == latest[who];
      assert LastApproval(mr, who, i);
    }
    if who != mr.author && canWrite(who) && exists i: nat :: LastApproval(mr, who, i) {
      var i: nat :| LastApproval(mr, who, i);
      assert who in counts;
      assert LastWord(mr.reviews, mr.author, counts, i);
    }
  }

  // ------------------------------------------------------------------ a new head

  /** UpdateMRHead on one review: a fresh verdict on the old head moves along when
      the change is the same, and any verdict on another head goes stale. */
  function MoveReview(r: Review, was: Id, sha: Id, same: bool): Review {
    var moved := if same && !r.stale && r.head == was then r.(head := sha) else r;
    if moved.head != sha then moved.(stale := true) else moved
  }

  /** A push of the source branch. The head ref always moves; the row follows
      unless the store fails, and then the reviews stay as they were. */
  function Received(mr: Proposal, sha: Id, same: bool, recorded: bool): (after: Proposal)
    ensures after.head == sha && |after.reviews| == |mr.reviews|
  {
    if !recorded then mr.(head := sha)
    else
      mr.(head := sha, recorded := sha, reviews :=
        seq(|mr.reviews|, i requires 0 <= i < |mr.reviews| => MoveReview(mr.reviews[i], mr.recorded, sha, same)))
  }

  /** A verdict that holds of the new head: it is fresh, and on that head or on
      the one before, which proposed the same change. */
  predicate Stands(r: Review, mr: Proposal, sha: Id, same: bool) {
    !r.stale && (r.head == sha || (same && r.head == mr.recorded))
  }

  /** Review `i` decides for its reviewer among those that stand. */
  ghost predicate Decisive(mr: Proposal, sha: Id, same: bool, canWrite: string -> bool, i: nat) {
    && i < |mr.reviews| && Stands(mr.reviews[i], mr, sha, same)
    && mr.reviews[i].reviewer != mr.author && canWrite(mr.reviews[i].reviewer)
    && forall j | i < j < |mr.reviews| && mr.reviews[j].reviewer == mr.reviews[i].reviewer ::
         !Stands(mr.reviews[j], mr, sha, same)
  }

  ghost predicate Says(mr: Proposal, sha: Id, same: bool, canWrite: string -> bool, who: string, verdict: string) {
    exists i: nat ::
      Decisive(mr, sha, same, canWrite, i) && mr.reviews[i].reviewer == who && mr.reviews[i].verdict == verdict
  }

  lemma DecisiveIsLastWord(mr: Proposal, sha: Id, same: bool, canWrite: string -> bool, i: nat)
    requires i < |mr.reviews|
    ensures var after := Received(mr, sha, same, true).reviews;
      LastWord(after, mr.author, Counts(after, canWrite), i) <==> Decisive(mr, sha, same, canWrite, i)
  {
    var after := Received(mr, sha, same, true).reviews;
    var counts := Counts(after, canWrite);
    forall j | 0 <= j < |after|
      ensures after[j].reviewer == mr.reviews[j].reviewer
      ensures Decides(after[j], mr.author, counts) <==>
        Stands(mr.reviews[j], mr, sha, same) && mr.reviews[j].reviewer != mr.author && canWrite(mr.reviews[j].reviewer)
    {
      assert after[j] == MoveReview(mr.reviews[j], mr.recorded, sha, same);
      assert after[j].reviewer in counts;
    }
  }

  lemma SaysVerdict(mr: Proposal, sha: Id, same: bool, canWrite: string -> bool, who: string, verdict: string)
    ensures var latest := Verdicts(Received(mr, sha, same, true), canWrite);
      (who in latest && latest[who] == verdict) <==> Says(mr, sha, same, canWrite, who, verdict)
  {
    var after := Received(mr, sha, same, true);
    var counts := Counts(after.reviews, canWrite);
    LatestIsLastWord(after.reviews, mr.author, counts, who);
    forall i: nat | i < |mr.reviews|
      ensures LastWord(after.reviews, mr.author, counts, i) <==> Decisive(mr, sha, same, canWrite, i)
      ensures after.reviews[i].reviewer == mr.reviews[i].reviewer && after.reviews[i].verdict == mr.reviews[i].verdict
    {
      DecisiveIsLastWord(mr, sha, same, canWrite, i);
    }
    var latest := Verdicts(after, canWrite);
    if who in latest && latest[who] == verdict {
      var i: nat :| LastWord(after.reviews, mr.author, counts, i) && after.reviews[i].reviewer == who
        && after.reviews[i].verdict == verdict;
      assert Decisive(mr, sha, same, canWrite, i);
    }
  }

  lemma EveryGate(rules: Settings, mr: Proposal, head: Head, code: Option<Codeowners>, canWrite: string -> bool)
    ensures Passes(rules, mr, head, code, canWrite) <==>
      && Met(Draft, rules, mr, head, code, canWrite) && Met(Checks, rules, mr, head, code, canWrite)
      && Met(Approvals(ChangesUnresolved), rules, mr, head, code, canWrite)
      && Met(Approvals(TooFewApprovals), rules, mr, head, code, canWrite)
      && Met(Owners, rules, mr, head, code, canWrite) && Met(Threads, rules, mr, head, code, canWrite)
  {}

  /** A recorded push: the new head passes exactly on its own checks and files, and
      on the verdicts that stand for it, each reviewer's last. */
  lemma NewHeadOnItsOwn(rules: Settings, mr: Proposal, sha: Id, same: bool, head: Head, code: Option<Codeowners>,
      canWrite: string -> bool, approvers: set<string>)
    requires forall w :: w in approvers <==> Says(mr, sha, same, canWrite, w, "approve")
    ensures Passes(rules, Received(mr, sha, same, true), head, code, canWrite) <==>
      && !mr.draft && ChecksMet(rules, head)
      && (rules.requireApprovals > 0 ==>
            |approvers| >= rules.requireApprovals
            && forall w :: !Says(mr, sha, same, canWrite, w, "request_changes"))
      && (rules.requireCodeowners ==> OwnersMet(code, head.files, approvers))
      && (rules.requireResolved ==> mr.threads == 0)
  {
    var latest := Verdicts(Received(mr, sha, same, true), canWrite);
    forall w
      ensures (w in latest && latest[w] == "approve") <==> Says(mr, sha, same, canWrite, w, "approve")
      ensures (w in latest && latest[w] == "request_changes") <==> Says(mr, sha, same, canWrite, w, "request_changes")
    {
      SaysVerdict(mr, sha, same, canWrite, w, "approve");
      SaysVerdict(mr, sha, same, canWrite, w, "request_changes");
    }
    assert approvers == Approvers(latest);
    EveryGate(rules, Received(mr, sha, same, true), head, code, canWrite);
  }

  /** A new change that nobody has reviewed does not pass where approvals are asked for. */
  lemma UnreviewedWaits(rules: Settings, mr: Proposal, sha: Id, head: Head, code: Option<Codeowners>,
      canWrite: string -> bool)
    requires rules.requireApprovals > 0 && forall r <- mr.reviews :: r.head != sha
    ensures !Passes(rules, Received(mr, sha, false, true), head, code, canWrite)
  {
    assert forall w, v :: !Says(mr, sha, false, canWrite, w, v);
    NewHeadOnItsOwn(rules, mr, sha, false, head, code, canWrite, {});
  }

  /** Every fresh verdict is on the head. */
  predicate OnHead(mr: Proposal) {
    forall r <- mr.reviews :: r.stale || r.head == mr.head
  }

  /** A push restores it whatever was before, exactly when the row follows or
      nothing fresh is on another head. */
  lemma PushOnHead(mr: Proposal, sha: Id, same: bool, recorded: bool)
    ensures OnHead(Received(mr, sha, same, recorded)) <==>
      recorded || forall r <- mr.reviews :: r.stale || r.head == sha
  {
    var after := Received(mr, sha, same, recorded);
    if recorded {
      forall r <- after.reviews ensures r.stale || r.head == sha {
        var i :| 0 <= i < |after.reviews| && after.reviews[i] == r;
        assert r == MoveReview(mr.reviews[i], mr.recorded, sha, same);
      }
    }
  }

  /** A review is of the head its command read: it goes in fresh, whatever was
      pushed since. */
  function Reviewed(mr: Proposal, who: string, verdict: string, read: Id): Proposal {
    mr.(reviews := mr.reviews + [Review(who, verdict, false, read)])
  }

  lemma ReviewOnHead(mr: Proposal, who: string, verdict: string, read: Id)
    ensures OnHead(Reviewed(mr, who, verdict, read)) <==> OnHead(mr) && read == mr.head
  {
    var after := Reviewed(mr, who, verdict, read);
    assert after.reviews[|mr.reviews|] == Review(who, verdict, false, read);
    assert forall r <- mr.reviews :: r in after.reviews;
  }

  const ONE_APPROVAL := Settings(false, [], 1, false, false)

  const SILENT := Head([], false, [])

  /** A review begun before a push and stored after it approves a head its author
      never saw. */
  lemma LateReview()
    ensures var mr := Proposal("ann", false, 0, 7, 7, []);
      var after := Reviewed(Received(mr, 8, false, true), "bob", "approve", 7);
      && !OnHead(after) && Passes(ONE_APPROVAL, after, SILENT, None, (w: string) => true)
  {
    var mr := Proposal("ann", false, 0, 7, 7, []);
    var after := Reviewed(Received(mr, 8, false, true), "bob", "approve", 7);
    OneApproval(after, "bob");
  }

  /** So does a push whose row the store failed to write. */
  lemma UnrecordedPush()
    ensures var mr := Proposal("ann", false, 0, 7, 7, [Review("bob", "approve", false, 7)]);
      var after := Received(mr, 8, false, false);
      && !OnHead(after) && Passes(ONE_APPROVAL, after, SILENT, None, (w: string) => true)
  {
    var mr := Proposal("ann", false, 0, 7, 7, [Review("bob", "approve", false, 7)]);
    OneApproval(Received(mr, 8, false, false), "bob");
  }

  lemma OneApproval(mr: Proposal, who: string)
    requires |mr.reviews| == 1 && who != mr.author && !mr.draft
    requires mr.reviews[0].reviewer == who && mr.reviews[0].verdict == "approve" && !mr.reviews[0].stale
    ensures Passes(ONE_APPROVAL, mr, SILENT, None, (w: string) => true)
  {
    var yes := (w: string) => true;
    var counts := Counts(mr.reviews, yes);
    assert who in counts;
    assert Decides(mr.reviews[0], mr.author, counts);
    assert mr.reviews[..|mr.reviews|-1] == [];
    assert Latest([], mr.author, counts) == map[];
    assert Latest(mr.reviews, mr.author, counts) == map[][who := mr.reviews[0].verdict];
    assert Verdicts(mr, yes) == map[who := "approve"];
    assert Approvers(Verdicts(mr, yes)) == {who};
    EveryGate(ONE_APPROVAL, mr, SILENT, None, yes);
  }
}
