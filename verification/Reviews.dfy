/** Who approved a merge request: the list's mark (internal/control/marks.go)
    and the merge gates (internal/control/mr.go). */
module Reviews {
  import opened Text
  import Lex
  import Sorting

  /** A verdict on one head, by its commit id. */
  datatype Review = Review(reviewer: string, verdict: string, stale: bool, head: nat)

  // ------------------------------------------------------------- whose verdict counts

  /** ReviewersWhoCount, with each account's write access given: looked up
      once per reviewer. */
  method ReviewersWhoCount(reviews: seq<Review>, canWrite: string -> bool) returns (counts: map<string, bool>)
    ensures forall w :: w in counts <==> exists i :: 0 <= i < |reviews| && reviews[i].reviewer == w
    ensures forall w <- counts :: counts[w] == canWrite(w)
  {
    counts := map[];
    for i := 0 to |reviews|
      invariant forall w :: w in counts <==> exists k :: 0 <= k < i && reviews[k].reviewer == w
      invariant forall w <- counts :: counts[w] == canWrite(w)
    {
      var who := reviews[i].reviewer;
      if who in counts { continue; }
      counts := counts[who := canWrite(who)];
    }
  }

  /** A verdict that decides: fresh, not the author's, and from someone who counts. */
  predicate Decides(r: Review, author: string, counts: map<string, bool>) {
    !r.stale && r.reviewer != author && r.reviewer in counts && counts[r.reviewer]
  }

  /** Each reviewer's last deciding verdict. */
  function Latest(reviews: seq<Review>, author: string, counts: map<string, bool>): map<string, string> {
    if reviews == [] then map[]
    else
      var before, r := Latest(reviews[..|reviews|-1], author, counts), reviews[|reviews|-1];
      if Decides(r, author, counts) then before[r.reviewer := r.verdict] else before
  }

  /** The review at `i` is the last that decides for its reviewer. */
  ghost predicate LastWord(reviews: seq<Review>, author: string, counts: map<string, bool>, i: nat) {
    && i < |reviews| && Decides(reviews[i], author, counts)
    && forall j | i < j < |reviews| && reviews[j].reviewer == reviews[i].reviewer ::
         !Decides(reviews[j], author, counts)
  }

  lemma LastWordBefore(reviews: seq<Review>, author: string, counts: map<string, bool>, i: nat)
    requires i < |reviews| - 1
    requires reviews[|reviews|-1].reviewer != reviews[i].reviewer || !Decides(reviews[|reviews|-1], author, counts)
    ensures LastWord(reviews[..|reviews|-1], author, counts, i) <==> LastWord(reviews, author, counts, i)
  {
    var init := reviews[..|reviews|-1];
    if LastWord(init, author, counts, i) {
      forall j | i < j < |reviews| && reviews[j].reviewer == reviews[i].reviewer
        ensures !Decides(reviews[j], author, counts)
      {
        if j < |init| { assert init[j] == reviews[j]; }
      }
    }
    if LastWord(reviews, author, counts, i) {
      forall j | i < j < |init| && init[j].reviewer == init[i].reviewer ensures !Decides(init[j], author, counts) {
        assert init[j] == reviews[j];
      }
    }
  }

  /** The verdict kept for a reviewer is their last word, and only that. */
  lemma {:induction false} LatestIsLastWord(reviews: seq<Review>, author: string, counts: map<string, bool>, who: string)
    ensures var latest := Latest(reviews, author, counts);
      && (who in latest ==> exists i: nat ::
            LastWord(reviews, author, counts, i) && reviews[i].reviewer == who && reviews[i].verdict == latest[who])
      && (forall i: nat | LastWord(reviews, author, counts, i) && reviews[i].reviewer == who ::
            who in latest && reviews[i].verdict == latest[who])
  {
    if reviews != [] {
      var init, n := reviews[..|reviews|-1], |reviews| - 1;
      LatestIsLastWord(init, author, counts, who);
      if Decides(reviews[n], author, counts) && reviews[n].reviewer == who {
        assert LastWord(reviews, author, counts, n);
      } else {
        forall i: nat | i < n && reviews[i].reviewer == who
          ensures LastWord(init, author, counts, i) <==> LastWord(reviews, author, counts, i)
        {
          LastWordBefore(reviews, author, counts, i);
        }
        if who in Latest(reviews, author, counts) {
          var i: nat :| LastWord(init, author, counts, i) && init[i].reviewer == who
            && init[i].verdict == Latest(init, author, counts)[who];
          assert LastWord(reviews, author, counts, i);
        }
      }
    }
  }

  method LatestVerdicts(reviews: seq<Review>, author: string, counts: map<string, bool>)
    returns (latest: map<string, string>)
    ensures latest == Latest(reviews, author, counts)
  {
    latest := map[];
    for i := 0 to |reviews|
      invariant latest == Latest(reviews[..i], author, counts)
    {
      var r := reviews[i];
      assert reviews[..i+1][..i] == reviews[..i];
      if r.stale || r.reviewer == author || r.reviewer !in counts || !counts[r.reviewer] { continue; }
      latest := latest[r.reviewer := r.verdict];
    }
    assert reviews[..|reviews|] == reviews;
  }

  /** Lookups for one list or for many requests' lists at once agree. */
  lemma {:induction false} SameCounts(reviews: seq<Review>, author: string, a: map<string, bool>, b: map<string, bool>)
    requires forall r <- reviews :: r.reviewer in a && r.reviewer in b && a[r.reviewer] == b[r.reviewer]
    ensures Latest(reviews, author, a) == Latest(reviews, author, b)
  {
    if reviews != [] {
      var init := reviews[..|reviews|-1];
      assert reviews[|reviews|-1] in reviews;
      forall r <- init ensures r in reviews {}
      SameCounts(init, author, a, b);
    }
  }

  // --------------------------------------------------------------------- the gate

  /** Exactly those whose verdict is `verdict`, sorted. */
  ghost predicate AreWith(whos: seq<string>, latest: map<string, string>, verdict: string) {
    Lex.Ascending(whos) && forall w :: w in whos <==> w in latest && latest[w] == verdict
  }

  datatype Unmet = ChangesUnresolved | TooFewApprovals

  method GatherVerdicts(latest: map<string, string>)
    returns (approvals: seq<string>, changes: seq<string>)
    ensures AreWith(approvals, latest, "approve") && AreWith(changes, latest, "request_changes")
  {
    approvals, changes := [], [];
    var left := latest.Keys;
    while left != {}
      invariant left <= latest.Keys
      invariant forall w :: w in approvals <==> w in latest && w !in left && latest[w] == "approve"
      invariant forall w :: w in changes <==> w in latest && w !in left && latest[w] == "request_changes"
      invariant Sorting.NoRepeats(approvals) && Sorting.NoRepeats(changes)
      decreases left
    {
      ghost var _ := Sorting.Witness(left);
      var who :| who in left;
      left := left - {who};
      if latest[who] == "approve" {
        assert who !in approvals;
        approvals := approvals + [who];
      } else if latest[who] == "request_changes" {
        assert who !in changes;
        changes := changes + [who];
      }
    }
    Lex.SortAscending(approvals);
    Lex.SortAscending(changes);
    approvals, changes := Lex.Sort(approvals), Lex.Sort(changes);
  }

  /** approvalsGate, in any order of its map: `required` is require_approvals. */
  method ApprovalsGate(reviews: seq<Review>, author: string, counts: map<string, bool>, required: nat)
    returns (approvals: seq<string>, changes: seq<string>, unmet: seq<Unmet>)
    ensures AreWith(approvals, Latest(reviews, author, counts), "approve")
    ensures AreWith(changes, Latest(reviews, author, counts), "request_changes")
    ensures ChangesUnresolved in unmet <==> required > 0 && changes != []
    ensures TooFewApprovals in unmet <==> |approvals| < required
  {
    var latest := LatestVerdicts(reviews, author, counts);
    approvals, changes := GatherVerdicts(latest);
    unmet := [];
    if required > 0 {
      if |changes| > 0 { unmet := unmet + [ChangesUnresolved]; }
      if |approvals| < required { unmet := unmet + [TooFewApprovals]; }
    }
  }

  // --------------------------------------------------------------------- the mark

  datatype Mark = ChangesRequested | Approved | ReviewRequested | Requested | Blank

  /** `requests` are the reviews asked for. */
  ghost predicate IsMark(mark: Mark, latest: map<string, string>, requests: seq<string>, viewer: string) {
    && (mark.ChangesRequested? <==> exists w <- latest :: latest[w] == "request_changes")
    && (mark.Approved? <==> !mark.ChangesRequested? && exists w <- latest :: latest[w] == "approve")
    && (mark.ReviewRequested? ==> viewer in requests)
    && (mark.Requested? ==> viewer !in requests && requests != [])
    && (mark.Blank? ==> requests == [])
  }

  /** reviewMark, in any order of its map. */
  method ReviewMark(reviews: seq<Review>, author: string, counts: map<string, bool>,
      requests: seq<string>, viewer: string)
    returns (mark: Mark)
    ensures IsMark(mark, Latest(reviews, author, counts), requests, viewer)
  {
    var latest := LatestVerdicts(reviews, author, counts);
    var approved := 0;
    var left := latest.Keys;
    while left != {}
      invariant left <= latest.Keys && approved >= 0
      invariant forall w <- latest :: w in left || latest[w] != "request_changes"
      invariant approved > 0 <==> exists w <- latest :: w !in left && latest[w] == "approve"
      decreases left
    {
      ghost var _ := Sorting.Witness(left);
      var who :| who in left;
      left := left - {who};
      if latest[who] == "request_changes" { return ChangesRequested; }
      if latest[who] == "approve" { approved := approved + 1; }
    }
    if approved > 0 { return Approved; }
    if viewer in requests { return ReviewRequested; }
    if |requests| > 0 { return Requested; }
    return Blank;
  }

  /** The mark and the gate agree on every review history, though each looked
      the reviewers up for itself, the mark among all a page's reviews. */
  lemma MarkAgreesWithGate(reviews: seq<Review>, author: string,
      counts: map<string, bool>, pageCounts: map<string, bool>,
      approvals: seq<string>, changes: seq<string>,
      mark: Mark, requests: seq<string>, viewer: string)
    requires forall r <- reviews ::
      r.reviewer in counts && r.reviewer in pageCounts && counts[r.reviewer] == pageCounts[r.reviewer]
    requires AreWith(approvals, Latest(reviews, author, counts), "approve")
    requires AreWith(changes, Latest(reviews, author, counts), "request_changes")
    requires IsMark(mark, Latest(reviews, author, pageCounts), requests, viewer)
    ensures mark.ChangesRequested? <==> changes != []
    ensures mark.Approved? <==> changes == [] && approvals != []
  {
    SameCounts(reviews, author, counts, pageCounts);
    assert changes != [] ==> changes[0] in changes;
    assert approvals != [] ==> approvals[0] in approvals;
  }

  /** The order a gate meets its map in does not show. */
  lemma GateOrder(latest: map<string, string>, verdict: string, a: seq<string>, b: seq<string>)
    requires AreWith(a, latest, verdict) && AreWith(b, latest, verdict)
    ensures a == b
  {
    Lex.AscendingUnique(a, b);
  }

  // ----------------------------------------------------------------------- owners

  datatype Rule = Rule(pattern: string, owners: seq<string>)

  /** OwnersFor: the last rule that matches, or nobody. */
  function OwnersFor(rules: seq<Rule>, matches: (string, string) -> bool, file: string): Option<seq<string>> {
    if rules == [] then None
    else if matches(rules[|rules|-1].pattern, file) then Some(rules[|rules|-1].owners)
    else OwnersFor(rules[..|rules|-1], matches, file)
  }

  /** The last rule that matches decides; without one nobody owns the file. */
  lemma {:induction false} LastRuleOwns(rules: seq<Rule>, matches: (string, string) -> bool, file: string)
    ensures OwnersFor(rules, matches, file).None? <==>
      forall i | 0 <= i < |rules| :: !matches(rules[i].pattern, file)
    ensures forall i | 0 <= i < |rules| && matches(rules[i].pattern, file)
        && (forall j | i < j < |rules| :: !matches(rules[j].pattern, file)) ::
      OwnersFor(rules, matches, file) == Some(rules[i].owners)
  {
    if rules != [] {
      var init := rules[..|rules|-1];
      LastRuleOwns(init, matches, file);
      forall i | 0 <= i < |init| ensures init[i] == rules[i] {}
    }
  }

  /** OwnersFor's loop. */
  method FindOwners(rules: seq<Rule>, matches: (string, string) -> bool, file: string)
    returns (owners: Option<seq<string>>)
    ensures owners == OwnersFor(rules, matches, file)
  {
    owners := None;
    for i := 0 to |rules|
      invariant owners == OwnersFor(rules[..i], matches, file)
    {
      assert rules[..i+1][..i] == rules[..i];
      if matches(rules[i].pattern, file) {
        owners := Some(rules[i].owners);
      }
    }
    assert rules[..|rules|] == rules;
  }

  /** The owners of each file under a CODEOWNERS. */
  function ByRules(rules: seq<Rule>, matches: (string, string) -> bool): string -> Option<seq<string>> {
    (file: string) => OwnersFor(rules, matches, file)
  }

  /** An owned file none of whose owners approved. */
  predicate Outstanding(owners: Option<seq<string>>, approvals: seq<string>) {
    owners.Some? && forall o <- owners.value :: o !in approvals
  }

  /** What one file adds to the paths of a key. */
  function Added(key: string, f: string, ownersOf: string -> Option<seq<string>>, approvals: seq<string>): seq<string> {
    if Outstanding(ownersOf(f), approvals) && Join(ownersOf(f).value, ",") == key then [f] else []
  }

  /** The files of an owner set, in order. */
  function Under(key: string, files: seq<string>, ownersOf: string -> Option<seq<string>>, approvals: seq<string>): seq<string> {
    if files == [] then []
    else
      Under(key, files[..|files|-1], ownersOf, approvals) + Added(key, files[|files|-1], ownersOf, approvals)
  }

  ghost predicate Grouped(keys: seq<string>, missing: map<string, seq<string>>,
      files: seq<string>, ownersOf: string -> Option<seq<string>>, approvals: seq<string>)
  {
    && (forall key :: key in keys <==> key in missing)
    && (forall key :: key in missing <==> Under(key, files, ownersOf, approvals) != [])
    && (forall key <- missing :: missing[key] == Under(key, files, ownersOf, approvals))
  }

  lemma UnderMore(key: string, files: seq<string>, i: nat, ownersOf: string -> Option<seq<string>>,
      approvals: seq<string>)
    requires i < |files|
    ensures Under(key, files[..i+1], ownersOf, approvals) ==
      Under(key, files[..i], ownersOf, approvals) + Added(key, files[i], ownersOf, approvals)
  {
    assert files[..i+1][..i] == files[..i];
  }

  lemma GroupedSame(keys: seq<string>, missing: map<string, seq<string>>, i: nat,
      files: seq<string>, ownersOf: string -> Option<seq<string>>, approvals: seq<string>)
    requires i < |files| && Grouped(keys, missing, files[..i], ownersOf, approvals)
    requires !Outstanding(ownersOf(files[i]), approvals)
    ensures Grouped(keys, missing, files[..i+1], ownersOf, approvals)
  {
    forall key ensures Under(key, files[..i+1], ownersOf, approvals) == Under(key, files[..i], ownersOf, approvals) {
      UnderMore(key, files, i, ownersOf, approvals);
    }
  }

  lemma GroupedMore(keys: seq<string>, missing: map<string, seq<string>>, i: nat,
      files: seq<string>, ownersOf: string -> Option<seq<string>>, approvals: seq<string>, key: string)
    requires i < |files| && Grouped(keys, missing, files[..i], ownersOf, approvals)
    requires Outstanding(ownersOf(files[i]), approvals) && key == Join(ownersOf(files[i]).value, ",")
    ensures var paths := (if key in missing then missing[key] else []) + [files[i]];
      Grouped(if key in missing then keys else keys + [key], missing[key := paths], files[..i+1], ownersOf, approvals)
  {
    var paths := (if key in missing then missing[key] else []) + [files[i]];
    var keys', missing' := if key in missing then keys else keys + [key], missing[key := paths];
    forall k
      ensures k in keys' <==> k in missing'
      ensures k in missing' <==> Under(k, files[..i+1], ownersOf, approvals) != []
      ensures k in missing' ==> missing'[k] == Under(k, files[..i+1], ownersOf, approvals)
    {
      UnderMore(k, files, i, ownersOf, approvals);
      if k != key { assert Added(k, files[i], ownersOf, approvals) == []; }
    }
  }

  /** One more file: `f` under its owners' key unless one of them approved. */
  function AddFile(keys: seq<string>, missing: map<string, seq<string>>, f: string, owners: Option<seq<string>>,
      approvals: seq<string>): (seq<string>, map<string, seq<string>>)
  {
    if !Outstanding(owners, approvals) then (keys, missing)
    else
      var key := Join(owners.value, ",");
      var paths := (if key in missing then missing[key] else []) + [f];
      (if key in missing then keys else keys + [key], missing[key := paths])
  }

  method GroupFile(keys: seq<string>, missing: map<string, seq<string>>, f: string, owners: Option<seq<string>>,
      approvals: seq<string>)
    returns (keys': seq<string>, missing': map<string, seq<string>>)
    ensures (keys', missing') == AddFile(keys, missing, f, owners, approvals)
  {
    keys', missing' := keys, missing;
    if owners.None? || exists o <- owners.value :: o in approvals { return; }
    var key := Join(owners.value, ",");
    if key !in missing' {
      keys' := keys' + [key];
      missing' := missing'[key := []];
    }
    missing' := missing'[key := missing'[key] + [f]];
    assert missing' == missing[key := (if key in missing then missing[key] else []) + [f]];
  }

  lemma AddFileGroups(keys: seq<string>, missing: map<string, seq<string>>, i: nat,
      files: seq<string>, ownersOf: string -> Option<seq<string>>, approvals: seq<string>)
    requires i < |files| && Grouped(keys, missing, files[..i], ownersOf, approvals)
    ensures var (keys', missing') := AddFile(keys, missing, files[i], ownersOf(files[i]), approvals);
      Grouped(keys', missing', files[..i+1], ownersOf, approvals)
  {
    if Outstanding(ownersOf(files[i]), approvals) {
      var key := Join(ownersOf(files[i]).value, ",");
      GroupedMore(keys, missing, i, files, ownersOf, approvals, key);
    } else {
      GroupedSame(keys, missing, i, files, ownersOf, approvals);
    }
  }

  lemma AddFileOnce(keys: seq<string>, missing: map<string, seq<string>>, f: string, owners: Option<seq<string>>,
      approvals: seq<string>)
    requires Sorting.NoRepeats(keys) && forall key :: key in keys <==> key in missing
    ensures Sorting.NoRepeats(AddFile(keys, missing, f, owners, approvals).0)
  {}

  /** unapprovedOwners: its groups are exactly the outstanding files, each
      under its own owners, in the order of the diff. */
  method UnapprovedOwners(rules: seq<Rule>, matches: (string, string) -> bool, files: seq<string>,
      approvals: seq<string>)
    returns (keys: seq<string>, missing: map<string, seq<string>>)
    ensures Lex.Ascending(keys) && Grouped(keys, missing, files, ByRules(rules, matches), approvals)
  {
    keys, missing := [], map[];
    ghost var ownersOf := ByRules(rules, matches);
    for i := 0 to |files|
      invariant Grouped(keys, missing, files[..i], ownersOf, approvals)
      invariant Sorting.NoRepeats(keys)
    {
      var owners := FindOwners(rules, matches, files[i]);
      assert owners == ownersOf(files[i]);
      AddFileGroups(keys, missing, i, files, ownersOf, approvals);
      AddFileOnce(keys, missing, files[i], owners, approvals);
      keys, missing := GroupFile(keys, missing, files[i], owners, approvals);
    }
    assert files[..|files|] == files;
    Lex.SortAscending(keys);
    keys := Lex.Sort(keys);
  }

  lemma {:induction false} UnderIs(key: string, files: seq<string>, ownersOf: string -> Option<seq<string>>,
      approvals: seq<string>)
    ensures forall f :: f in Under(key, files, ownersOf, approvals) <==>
      f in files && Outstanding(ownersOf(f), approvals) && Join(ownersOf(f).value, ",") == key
  {
    if files != [] {
      UnderIs(key, files[..|files|-1], ownersOf, approvals);
      assert files == files[..|files|-1] + [files[|files|-1]];
    }
  }

  /** The groups part the outstanding files: each in one, and nothing else in any. */
  lemma GroupsPart(keys: seq<string>, missing: map<string, seq<string>>, files: seq<string>,
      ownersOf: string -> Option<seq<string>>, approvals: seq<string>, f: string)
    requires Grouped(keys, missing, files, ownersOf, approvals)
    ensures (f in files && Outstanding(ownersOf(f), approvals)) <==> exists key <- keys :: f in missing[key]
    ensures forall a <- keys, b <- keys :: f in missing[a] && f in missing[b] ==> a == b
    ensures forall key <- keys :: missing[key] != []
  {
    forall key <- keys
      ensures missing[key] == Under(key, files, ownersOf, approvals) != []
      ensures f in missing[key] <==>
        f in files && Outstanding(ownersOf(f), approvals) && Join(ownersOf(f).value, ",") == key
    {
      UnderIs(key, files, ownersOf, approvals);
    }
    if f in files && Outstanding(ownersOf(f), approvals) {
      var key := Join(ownersOf(f).value, ",");
      UnderIs(key, files, ownersOf, approvals);
      assert key in keys && f in missing[key];
    }
  }

  /** The gate shows an owner set by splitting its key: it is the owners of
      the rule exactly when none of their names has a comma. */
  lemma {:induction false} KeySplits(owners: seq<string>)
    requires |owners| > 0
    ensures Split(Join(owners, ","), ',') == owners <==> forall o <- owners :: ',' !in o
  {
    if forall o <- owners :: ',' !in o { SplitJoin(owners); }
  }

  lemma {:induction false} SplitJoin(owners: seq<string>)
    requires |owners| > 0 && forall o <- owners :: ',' !in o
    ensures Split(Join(owners, ","), ',') == owners
  {
    assert owners[0] in owners;
    if |owners| == 1 {
      CutAbsent(owners[0], ',');
    } else {
      forall o <- owners[1..] ensures o in owners {}
      SplitJoin(owners[1..]);
      CutAt(owners[0], Join(owners[1..], ","), ',');
      assert owners == [owners[0]] + owners[1..];
    }
  }

  /** The owner "a,b" is shown as two. */
  lemma CommaSplits()
    ensures Split(Join(["a,b"], ","), ',') == ["a", "b"]
  {
    CutAt("a", "b", ',');
    assert "a" + [','] + "b" == "a,b";
    CutAbsent("b", ',');
  }
}
