/** internal/control/buildlog.go reads back, step by step, the log that
    cmd/gitbay-runner/isolate.go writes. Strings are bytes, one char each. */
module BuildLog {
  import Text

  /** One part of a log: the setup (0) or a step, counted from 1. */
  datatype Section = Section(n: nat, step: string, text: string)

  /** The line the runner writes before a step. */
  function Marker(step: string): (m: string)
    ensures m != ""
  {
    "$ " + step + "\n"
  }

  // ---------------------------------------------------------------- finding lines

  predicate Occurs(log: string, line: string, at: nat) {
    at + |line| <= |log| && log[at..at+|line|] == line
  }

  predicate LineStart(log: string, at: nat)
    requires at <= |log|
  {
    at == 0 || log[at-1] == '\n'
  }

  predicate AtLine(log: string, line: string, at: nat) {
    Occurs(log, line, at) && LineStart(log, at)
  }

  /** `at` is where `line` first starts a line of `log` at or after `from`. */
  ghost predicate First(log: string, line: string, from: nat, at: nat) {
    from <= at && AtLine(log, line, at) && forall q: nat | from <= q < at :: !AtLine(log, line, q)
  }

  ghost predicate Nowhere(log: string, line: string, from: nat) {
    forall q: nat | from <= q :: !AtLine(log, line, q)
  }

  /** strings.Index of `line` in log[from:], or -1. */
  method Index(log: string, line: string, from: nat) returns (j: int)
    requires from <= |log|
    ensures j < 0 ==> j == -1 && forall q: nat | from <= q :: !Occurs(log, line, q)
    ensures j >= 0 ==> Occurs(log, line, from + j) && forall q: nat | from <= q < from + j :: !Occurs(log, line, q)
  {
    j := 0;
    while from + j + |line| <= |log|
      invariant 0 <= j
      invariant forall q: nat | from <= q < from + j :: !Occurs(log, line, q)
    {
      if log[from+j..from+j+|line|] == line { return; }
      j := j + 1;
    }
    j := -1;
  }

  /** findLine. */
  method FindLine(log: string, line: string, from: nat) returns (at: int)
    requires from <= |log|
    ensures if at < 0 then at == -1 && Nowhere(log, line, from) else First(log, line, from, at)
  {
    var i := from;
    while i <= |log| - |line|
      invariant from <= i <= |log| + 1
      invariant forall q: nat | from <= q < i :: !AtLine(log, line, q)
      decreases |log| - i
    {
      var j := Index(log, line, i);
      if j < 0 { return -1; }
      at := i + j;
      if at == 0 || log[at-1] == '\n' { return; }
      i := at + 1;
    }
    at := -1;
  }

  // -------------------------------------------------------------------- splitting

  /** Where the lines of the first |cuts| steps stand in the log, in order. */
  ghost predicate Follows(log: string, steps: seq<string>, cuts: seq<nat>) {
    && |cuts| <= |steps|
    && forall i | 0 <= i < |cuts| :: Begin(steps, cuts, i) <= cuts[i] && Occurs(log, Marker(steps[i]), cuts[i])
  }

  /** Where the text of part `n` begins: the setup's at 0, a step's after its line. */
  function Begin(steps: seq<string>, cuts: seq<nat>, n: nat): nat {
    if 0 < n <= |cuts| && n <= |steps| then cuts[n-1] + |Marker(steps[n-1])| else 0
  }

  /** Each of those lines is the first there is after the part before it. */
  ghost predicate FirstAfter(log: string, steps: seq<string>, cuts: seq<nat>) {
    && Follows(log, steps, cuts)
    && forall i | 0 <= i < |cuts| :: First(log, Marker(steps[i]), Begin(steps, cuts, i), cuts[i])
  }

  /** And the first step without a line ends the search. */
  ghost predicate Searched(log: string, steps: seq<string>, cuts: seq<nat>) {
    && FirstAfter(log, steps, cuts)
    && (|cuts| < |steps| ==> Nowhere(log, Marker(steps[|cuts|]), Begin(steps, cuts, |cuts|)))
  }

  function StepOf(steps: seq<string>, n: nat): string {
    if 0 < n <= |steps| then steps[n-1] else ""
  }

  /** log[from:to], where the cuts make sense. */
  function Slice(log: string, from: nat, to: nat): string {
    if from <= to <= |log| then log[from..to] else ""
  }

  /** Part `n` runs from its beginning to the next cut, or to the end. */
  function Part(log: string, steps: seq<string>, cuts: seq<nat>, n: nat): Section {
    Section(n, StepOf(steps, n), Slice(log, Begin(steps, cuts, n), End(log, cuts, n)))
  }

  /** Where part `n` ends. */
  function End(log: string, cuts: seq<nat>, n: nat): nat {
    if n < |cuts| then cuts[n] else |log|
  }

  /** A section is listed unless it is an empty setup. */
  function Keep(s: Section): seq<Section> {
    if s.n > 0 || s.text != "" then [s] else []
  }

  /** The parts of the first `k` steps. */
  function StepParts(log: string, steps: seq<string>, cuts: seq<nat>, k: nat): (ps: seq<Section>)
    ensures |ps| == k && forall i | 0 <= i < k :: ps[i] == Part(log, steps, cuts, i + 1)
  {
    seq(k, i requires 0 <= i < k => Part(log, steps, cuts, i + 1))
  }

  /** The sections of the first `k` parts. */
  function Listed(log: string, steps: seq<string>, cuts: seq<nat>, k: nat): seq<Section> {
    if k == 0 then [] else Keep(Part(log, steps, cuts, 0)) + StepParts(log, steps, cuts, k - 1)
  }

  /** The sections those lines cut the log into. */
  function Sections(log: string, steps: seq<string>, cuts: seq<nat>): seq<Section> {
    Listed(log, steps, cuts, |cuts| + 1)
  }

  lemma ListedMore(log: string, steps: seq<string>, cuts: seq<nat>, k: nat)
    ensures Listed(log, steps, cuts, k + 1) == Listed(log, steps, cuts, k) + Keep(Part(log, steps, cuts, k))
  {
    if k > 0 {
      StepPartsMore(log, steps, cuts, k - 1);
      AppendLast(Keep(Part(log, steps, cuts, 0)), StepParts(log, steps, cuts, k - 1), Part(log, steps, cuts, k));
    }
  }

  lemma StepPartsMore(log: string, steps: seq<string>, cuts: seq<nat>, k: nat)
    ensures StepParts(log, steps, cuts, k + 1) == StepParts(log, steps, cuts, k) + [Part(log, steps, cuts, k + 1)]
  {
  }

  lemma AppendLast(first: seq<Section>, ps: seq<Section>, p: Section)
    requires p.n > 0
    ensures first + (ps + [p]) == first + ps + Keep(p)
  {
  }

  lemma ListedStable(log: string, steps: seq<string>, cuts: seq<nat>, cuts': seq<nat>, k: nat)
    requires cuts <= cuts' && k <= |cuts|
    ensures Listed(log, steps, cuts, k) == Listed(log, steps, cuts', k)
  {
    if k > 0 {
      PartStable(log, steps, cuts, cuts', 0);
      var was, now := StepParts(log, steps, cuts, k - 1), StepParts(log, steps, cuts', k - 1);
      forall i: nat | i < k - 1 ensures was[i] == now[i] {
        PartStable(log, steps, cuts, cuts', i + 1);
      }
      assert was == now;
    }
  }

  lemma PartStable(log: string, steps: seq<string>, cuts: seq<nat>, cuts': seq<nat>, n: nat)
    requires cuts <= cuts' && n < |cuts|
    ensures Part(log, steps, cuts, n) == Part(log, steps, cuts', n)
  {
    assert cuts'[n] == cuts[n] && (n > 0 ==> cuts'[n-1] == cuts[n-1]);
  }

  lemma OneCutMore(log: string, steps: seq<string>, cuts: seq<nat>, at: nat)
    requires FirstAfter(log, steps, cuts) && |cuts| < |steps|
    requires First(log, Marker(steps[|cuts|]), Begin(steps, cuts, |cuts|), at)
    ensures FirstAfter(log, steps, cuts + [at])
    ensures Begin(steps, cuts + [at], |cuts| + 1) == at + |Marker(steps[|cuts|])|
    ensures Listed(log, steps, cuts + [at], |cuts| + 1) ==
      Listed(log, steps, cuts, |cuts|) +
        Keep(Section(|cuts|, StepOf(steps, |cuts|), log[Begin(steps, cuts, |cuts|)..at]))
  {
    var cuts' := cuts + [at];
    forall i | 0 <= i < |cuts'| ensures Begin(steps, cuts', i) == Begin(steps, cuts, i) {}
    assert Follows(log, steps, cuts') by {
      forall i | 0 <= i < |cuts'|
        ensures Begin(steps, cuts', i) <= cuts'[i] && Occurs(log, Marker(steps[i]), cuts'[i])
      {
        if i < |cuts| { assert cuts'[i] == cuts[i]; }
      }
    }
    forall i | 0 <= i < |cuts'|
      ensures First(log, Marker(steps[i]), Begin(steps, cuts', i), cuts'[i])
    {
      if i < |cuts| { assert cuts'[i] == cuts[i]; }
    }
    ListedStable(log, steps, cuts, cuts', |cuts|);
    ListedMore(log, steps, cuts', |cuts|);
  }

  lemma LastPart(log: string, steps: seq<string>, cuts: seq<nat>)
    requires Follows(log, steps, cuts)
    ensures Begin(steps, cuts, |cuts|) <= |log|
    ensures Sections(log, steps, cuts) ==
      Listed(log, steps, cuts, |cuts|) +
        Keep(Section(|cuts|, StepOf(steps, |cuts|), log[Begin(steps, cuts, |cuts|)..]))
  {
    var n := |cuts|;
    if n > 0 { assert Occurs(log, Marker(steps[n-1]), cuts[n-1]); }
    assert log[Begin(steps, cuts, n)..] == log[Begin(steps, cuts, n)..|log|];
    ListedMore(log, steps, cuts, n);
  }

  /** SplitBuildLog. */
  method SplitBuildLog(log: string, steps: seq<string>) returns (out: seq<Section>, ghost cuts: seq<nat>)
    ensures Searched(log, steps, cuts) && out == Sections(log, steps, cuts)
    ensures RenderAll(out) == log
  {
    out, cuts := [], [];
    var cur := Section(0, "", "");
    var start: nat := 0;
    var i := 0;
    while i < |steps|
      invariant 0 <= i == |cuts| <= |steps| && FirstAfter(log, steps, cuts)
      invariant cur == Section(i, StepOf(steps, i), "") && start == Begin(steps, cuts, i) <= |log|
      invariant out == Listed(log, steps, cuts, i)
      decreases |steps| - i
    {
      var marker := Marker(steps[i]);
      var at := FindLine(log, marker, start);
      if at < 0 { break; }
      OneCutMore(log, steps, cuts, at);
      cur := cur.(text := log[start..at]);
      if cur.n > 0 || cur.text != "" {
        out := out + [cur];
      }
      cur := Section(i + 1, steps[i], "");
      start := at + |marker|;
      cuts := cuts + [at];
      i := i + 1;
    }
    LastPart(log, steps, cuts);
    RejoinsAll(log, steps, cuts);
    cur := cur.(text := log[start..]);
    if cur.n > 0 || cur.text != "" {
      out := out + [cur];
    }
  }

  lemma {:induction false} SearchedOnce(log: string, steps: seq<string>, cuts: seq<nat>, cuts': seq<nat>, i: nat)
    requires Searched(log, steps, cuts) && Searched(log, steps, cuts') && i < |cuts|
    ensures i < |cuts'| && cuts[i] == cuts'[i]
  {
    if i > 0 { SearchedOnce(log, steps, cuts, cuts', i - 1); }
    var m, begin := Marker(steps[i]), Begin(steps, cuts, i);
    assert begin == Begin(steps, cuts', i);
    assert First(log, m, begin, cuts[i]);
    if |cuts'| == i {
      assert false;
    }
  }

  /** The log and the steps decide the cuts. */
  lemma SearchedUnique(log: string, steps: seq<string>, cuts: seq<nat>, cuts': seq<nat>)
    requires Searched(log, steps, cuts) && Searched(log, steps, cuts')
    ensures cuts == cuts'
  {
    forall i | 0 <= i < |cuts| ensures i < |cuts'| && cuts[i] == cuts'[i] { SearchedOnce(log, steps, cuts, cuts', i); }
    if |cuts| < |cuts'| { SearchedOnce(log, steps, cuts', cuts, |cuts|); }
  }

  // ------------------------------------------------------------ nothing is lost

  /** A section as it stood in the log. */
  function Render(s: Section): string {
    if s.n == 0 then s.text else Marker(s.step) + s.text
  }

  function RenderAll(ss: seq<Section>): string {
    if ss == [] then "" else RenderAll(ss[..|ss|-1]) + Render(ss[|ss|-1])
  }

  lemma RenderMore(log: string, steps: seq<string>, cuts: seq<nat>, k: nat)
    requires Follows(log, steps, cuts) && k <= |cuts|
    ensures RenderAll(Listed(log, steps, cuts, k + 1)) ==
      RenderAll(Listed(log, steps, cuts, k)) + Render(Part(log, steps, cuts, k))
  {
    ListedMore(log, steps, cuts, k);
    RenderKept(Listed(log, steps, cuts, k), Part(log, steps, cuts, k));
  }

  lemma PartsInLog(log: string, steps: seq<string>, cuts: seq<nat>, k: nat)
    requires Follows(log, steps, cuts) && k <= |cuts|
    ensures Begin(steps, cuts, k) <= End(log, cuts, k) <= |log|
    ensures k > 0 ==> Occurs(log, Marker(steps[k-1]), cuts[k-1])
  {
    if k < |cuts| { assert Occurs(log, Marker(steps[k]), cuts[k]); }
    if k > 0 { assert Occurs(log, Marker(steps[k-1]), cuts[k-1]); }
  }

  /** A part with its line continues the log from where the part before ends. */
  lemma Continues(log: string, steps: seq<string>, cuts: seq<nat>, k: nat)
    requires Follows(log, steps, cuts) && 0 < k <= |cuts|
    ensures End(log, cuts, k) <= |log|
    ensures log[..End(log, cuts, k-1)] + Render(Part(log, steps, cuts, k)) == log[..End(log, cuts, k)]
  {
    RenderStep(log, steps, cuts, k);
    TakeMarked(log, Marker(steps[k-1]), cuts[k-1], End(log, cuts, k));
  }

  lemma RenderStep(log: string, steps: seq<string>, cuts: seq<nat>, k: nat)
    requires Follows(log, steps, cuts) && 0 < k <= |cuts|
    ensures var m, at := Marker(steps[k-1]), cuts[k-1];
      && Occurs(log, m, at) && at + |m| <= End(log, cuts, k) <= |log|
      && Render(Part(log, steps, cuts, k)) == m + log[at+|m|..End(log, cuts, k)]
  {
    PartsInLog(log, steps, cuts, k);
  }

  lemma TakeMarked(log: string, m: string, at: nat, end: nat)
    requires Occurs(log, m, at) && at + |m| <= end <= |log|
    ensures log[..at] + (m + log[at+|m|..end]) == log[..end]
  {
  }

  lemma FirstPart(log: string, steps: seq<string>, cuts: seq<nat>)
    requires Follows(log, steps, cuts)
    ensures End(log, cuts, 0) <= |log| && RenderAll(Listed(log, steps, cuts, 1)) == log[..End(log, cuts, 0)]
  {
    PartsInLog(log, steps, cuts, 0);
    RenderMore(log, steps, cuts, 0);
    assert "" + log[0..End(log, cuts, 0)] == log[..End(log, cuts, 0)];
  }

  lemma NextPart(log: string, steps: seq<string>, cuts: seq<nat>, k: nat)
    requires Follows(log, steps, cuts) && 0 < k <= |cuts| && End(log, cuts, k - 1) <= |log|
    requires RenderAll(Listed(log, steps, cuts, k)) == log[..End(log, cuts, k - 1)]
    ensures End(log, cuts, k) <= |log| && RenderAll(Listed(log, steps, cuts, k + 1)) == log[..End(log, cuts, k)]
  {
    RenderMore(log, steps, cuts, k);
    Continues(log, steps, cuts, k);
  }

  /** Rejoined with their lines, the first parts are the log up to where the
      last of them ends; all of them are the log, byte for byte. */
  lemma {:induction false} Rejoins(log: string, steps: seq<string>, cuts: seq<nat>, k: nat)
    requires Follows(log, steps, cuts) && k <= |cuts|
    ensures End(log, cuts, k) <= |log| && RenderAll(Listed(log, steps, cuts, k + 1)) == log[..End(log, cuts, k)]
  {
    if k == 0 {
      FirstPart(log, steps, cuts);
    } else {
      Rejoins(log, steps, cuts, k - 1);
      NextPart(log, steps, cuts, k);
    }
  }

  lemma RejoinsAll(log: string, steps: seq<string>, cuts: seq<nat>)
    requires Follows(log, steps, cuts)
    ensures RenderAll(Sections(log, steps, cuts)) == log
  {
    Rejoins(log, steps, cuts, |cuts|);
    assert log[..|log|] == log;
  }

  lemma RenderKept(ss: seq<Section>, s: Section)
    ensures RenderAll(ss + Keep(s)) == RenderAll(ss) + Render(s)
  {
    if Keep(s) == [] {
      assert ss + Keep(s) == ss && RenderAll(ss) + "" == RenderAll(ss);
    } else {
      assert (ss + Keep(s))[..|ss + Keep(s)| - 1] == ss;
    }
  }

  /** Sections are numbered in a row, from the setup or the first step, each
      with the step of its number. */
  lemma Numbered(log: string, steps: seq<string>, cuts: seq<nat>)
    requires Follows(log, steps, cuts)
    ensures var out := Sections(log, steps, cuts);
      && |cuts| <= |out| <= |cuts| + 1
      && forall i | 0 <= i < |out| ::
           out[i].n == i + (if |out| == |cuts| then 1 else 0) && out[i].step == StepOf(steps, out[i].n)
  {
  }

  /** FailedSection: the section of the step the runner named, else the last. */
  method FailedSection(sections: seq<Section>, failure: bool, failedStep: int) returns (r: int)
    ensures r == -1 <==> !failure || sections == []
    ensures r >= -1
    ensures r >= 0 ==> r < |sections|
    ensures r >= 0 && failedStep > 0 && sections[r].n == failedStep ==>
      forall i | 0 <= i < r :: sections[i].n != failedStep
    ensures r >= 0 && !(failedStep > 0 && sections[r].n == failedStep) ==>
      r == |sections| - 1 && (failedStep > 0 ==> forall i | 0 <= i < |sections| :: sections[i].n != failedStep)
  {
    if !failure || |sections| == 0 { return -1; }
    for i := 0 to |sections|
      invariant failedStep > 0 ==> forall k | 0 <= k < i :: sections[k].n != failedStep
    {
      if failedStep > 0 && sections[i].n == failedStep { return i; }
    }
    r := |sections| - 1;
  }

  /** On a split log it is the failed step's own section whenever that step ran. */
  lemma FailedStepFound(log: string, steps: seq<string>, cuts: seq<nat>, failedStep: nat, r: nat)
    requires Follows(log, steps, cuts) && 0 < failedStep <= |cuts| && r < |Sections(log, steps, cuts)|
    requires var out := Sections(log, steps, cuts);
      out[r].n == failedStep || forall i | 0 <= i < |out| :: out[i].n != failedStep
    ensures Sections(log, steps, cuts)[r] == Part(log, steps, cuts, failedStep)
  {
    var out := Sections(log, steps, cuts);
    Numbered(log, steps, cuts);
    var d := |out| - |cuts|;
    assert out[failedStep + d - 1] == Part(log, steps, cuts, failedStep);
  }

  function Newlines(b: string): nat {
    if b == "" then 0 else Newlines(b[..|b|-1]) + (if b[|b|-1] == '\n' then 1 else 0)
  }

  /** Where the last newline that ends no line leaves off. */
  function LastEnd(b: string): nat {
    if b != "" && b[|b|-1] == '\n' then |b| - 1 else |b|
  }

  lemma {:induction false} NewlinesJoin(a: string, b: string)
    ensures Newlines(a + b) == Newlines(a) + Newlines(b)
  {
    if b == "" {
      assert a + b == a;
    } else {
      assert (a + b)[..|a + b|-1] == a + b[..|b|-1];
      NewlinesJoin(a, b[..|b|-1]);
    }
  }

  lemma OneCharMore(b: string, i: nat, end: nat)
    requires i < end <= |b|
    ensures Newlines(b[i..end]) == Newlines(b[i+1..end]) + (if b[i] == '\n' then 1 else 0)
  {
    assert b[i..end] == [b[i]] + b[i+1..end];
    NewlinesJoin([b[i]], b[i+1..end]);
    assert [b[i]][..0] == "";
  }

  /** tailLines: whole lines, `n` of them, or all there are. */
  method TailLines(b: string, n: int) returns (tail: string)
    ensures |tail| <= |b| && tail == b[|b|-|tail|..]
    ensures var start := |b| - |tail|;
      if start == 0 then n <= 0 || Newlines(b[..LastEnd(b)]) < n
      else start <= LastEnd(b) && b[start-1] == '\n' && Newlines(b[start..LastEnd(b)]) == n - 1
  {
    var end: int := LastEnd(b);
    var i, left := end - 1, n;
    while i >= 0
      invariant -1 <= i < end && left <= n && (n > 0 ==> left > 0)
      invariant Newlines(b[i+1..end]) == n - left
    {
      OneCharMore(b, i, end);
      if b[i] == '\n' {
        left := left - 1;
        if left == 0 { return b[i+1..]; }
      }
      i := i - 1;
    }
    tail := b;
    assert b[0..end] == b[..end];
  }

  /** The lines of a text, the last one ended or not. */
  function LineCount(b: string): nat {
    Newlines(b) + (if b == "" || b[|b|-1] == '\n' then 0 else 1)
  }

  /** So the tail has `n` lines, or is all of a text of at most that many. */
  lemma TailCounts(b: string, start: nat, n: nat)
    requires 0 < n && start <= |b|
    requires if start == 0 then Newlines(b[..LastEnd(b)]) < n
      else start <= LastEnd(b) && b[start-1] == '\n' && Newlines(b[start..LastEnd(b)]) == n - 1
    ensures if start == 0 then LineCount(b) <= n else LineCount(b[start..]) == n
  {
    var end, tail := LastEnd(b), b[start..];
    assert start <= end && tail == b[start..end] + b[end..];
    NewlinesJoin(b[start..end], b[end..]);
    if end < |b| { assert b[end..] == ['\n'] && Newlines(['\n'][..0]) == 0; } else { assert b[end..] == ""; }
    if start == 0 { assert tail == b && b[start..end] == b[..end]; }
    if start > 0 && end == |b| { assert tail != ""; }
  }

  // ------------------------------------------------------------- a runner's log

  /** A log of `parts`: the setup, then each step's line and text. */
  function Written(steps: seq<string>, parts: seq<string>): string
    requires 0 < |parts| <= |steps| + 1
  {
    var k := |parts| - 1;
    if k == 0 then parts[0] else Written(steps, parts[..k]) + Marker(steps[k-1]) + parts[k]
  }

  function FailureLine(i: nat, n: nat, why: string): string {
    "step " + Text.Itoa(i + 1) + "/" + Text.Itoa(n) + " failed: " + why + "\n"
  }

  /** What runSteps writes of step `i`: what it printed, and on failure why
      the build stopped there. */
  function StepText(outputs: seq<string>, i: nat, failed: nat, why: string): string
    requires i < |outputs|
  {
    outputs[i] + (if i == failed then FailureLine(i, |outputs|, why) else "")
  }

  /** How many steps run: up to the first that fails, |outputs| for none. */
  function Ran(outputs: seq<string>, failed: nat): nat {
    if failed < |outputs| then failed + 1 else |outputs|
  }

  /** The setup and the text of each step that ran. */
  function PartsOf(setup: string, outputs: seq<string>, failed: nat, why: string, n: nat): (parts: seq<string>)
    requires n <= |outputs|
    ensures |parts| == n + 1 && parts[0] == setup
    ensures forall i | 0 < i <= n :: parts[i] == StepText(outputs, i - 1, failed, why)
  {
    [setup] + seq(n, i requires 0 <= i < n => StepText(outputs, i, failed, why))
  }

  /** runSteps: each step's line, then its text, up to the first step that
      fails. `outputs` is what each step prints and `failed` that step. */
  method RunSteps(setup: string, steps: seq<string>, outputs: seq<string>, failed: nat, why: string)
    returns (log: string)
    requires |outputs| == |steps|
    ensures log == Written(steps, PartsOf(setup, outputs, failed, why, Ran(outputs, failed)))
  {
    log := setup;
    for i := 0 to |steps|
      invariant i <= failed && log == Written(steps, PartsOf(setup, outputs, failed, why, i))
    {
      MoreParts(setup, steps, outputs, failed, why, i);
      Appended(log, Marker(steps[i]), outputs[i], if i == failed then FailureLine(i, |outputs|, why) else "");
      log := log + ("$ " + steps[i] + "\n");
      log := log + outputs[i];
      if i == failed {
        log := log + ("step " + Text.Itoa(i + 1) + "/" + Text.Itoa(|steps|) + " failed: " + why + "\n");
        return;
      }
    }
  }

  lemma MoreParts(setup: string, steps: seq<string>, outputs: seq<string>, failed: nat, why: string, i: nat)
    requires |outputs| == |steps| && i < |steps|
    ensures Written(steps, PartsOf(setup, outputs, failed, why, i + 1)) ==
      Written(steps, PartsOf(setup, outputs, failed, why, i)) + Marker(steps[i]) + StepText(outputs, i, failed, why)
  {
    var parts, text := PartsOf(setup, outputs, failed, why, i), StepText(outputs, i, failed, why);
    OnePartMore(steps, parts, text);
    assert PartsOf(setup, outputs, failed, why, i + 1) == parts + [text];
  }

  lemma Appended(log: string, marker: string, output: string, failure: string)
    ensures log + marker + output + failure == log + marker + (output + failure)
    ensures failure == "" ==> log + marker + output == log + marker + (output + failure)
  {
  }

  lemma OnePartMore(steps: seq<string>, parts: seq<string>, text: string)
    requires 0 < |parts| <= |steps|
    ensures Written(steps, parts + [text]) == Written(steps, parts) + Marker(steps[|parts|-1]) + text
  {
    assert (parts + [text])[..|parts|] == parts;
  }

  // ---------------------------------------------------------- reading it back

  /** Where a runner's log of `parts` holds the line of each step that ran. */
  function Own(steps: seq<string>, parts: seq<string>): (own: seq<nat>)
    requires 0 < |parts| <= |steps| + 1
  {
    seq(|parts| - 1, i requires 0 <= i < |parts| - 1 => |Written(steps, parts[..i+1])|)
  }

  /** The sections a reader should get: what each part printed. */
  function Expected(steps: seq<string>, parts: seq<string>): seq<Section>
    requires 0 < |parts| <= |steps| + 1
  {
    Keep(Section(0, "", parts[0])) +
      seq(|parts| - 1, i requires 0 <= i < |parts| - 1 => Section(i + 1, steps[i], parts[i+1]))
  }

  lemma {:induction false} WrittenPrefix(steps: seq<string>, parts: seq<string>, k: nat)
    requires 0 < k <= |parts| <= |steps| + 1
    ensures Written(steps, parts[..k]) <= Written(steps, parts)
    decreases |parts|
  {
    if k < |parts| {
      var n := |parts| - 1;
      WrittenPrefix(steps, parts[..n], k);
      assert parts[..n][..k] == parts[..k];
    } else {
      assert parts[..k] == parts;
    }
  }

  lemma WrittenMore(steps: seq<string>, parts: seq<string>, n: nat)
    requires 0 < |parts| <= |steps| + 1 && n < |parts|
    ensures n == 0 ==> Written(steps, parts[..n+1]) == parts[n]
    ensures n > 0 ==>
      Written(steps, parts[..n+1]) == Written(steps, parts[..n]) + Marker(steps[n-1]) + parts[n]
  {
    if n > 0 { assert parts[..n+1][..n] == parts[..n]; }
  }

  lemma OwnBounds(steps: seq<string>, parts: seq<string>, n: nat)
    requires 0 < |parts| <= |steps| + 1 && n < |parts|
    ensures var log, own := Written(steps, parts), Own(steps, parts);
      && Begin(steps, own, n) + |parts[n]| == End(log, own, n) == |Written(steps, parts[..n+1])|
  {
    assert parts[..|parts|] == parts;
    WrittenMore(steps, parts, n);
  }

  lemma TakeSlice(log: string, upTo: string, before: string, mid: string, text: string)
    requires upTo <= log && upTo == before + mid + text
    ensures |before| + |mid| + |text| <= |log|
    ensures log[|before|..|before|+|mid|] == mid && log[|before|+|mid|..|upTo|] == text
  {
    assert log[..|upTo|] == upTo;
    assert log[|before|..|before|+|mid|] == upTo[|before|..|before|+|mid|];
    assert log[|before|+|mid|..|upTo|] == upTo[|before|+|mid|..];
  }

  /** Part `n` of the log is what the runner wrote there. */
  lemma OwnPart(steps: seq<string>, parts: seq<string>, n: nat)
    requires 0 < |parts| <= |steps| + 1 && n < |parts|
    ensures var log, own := Written(steps, parts), Own(steps, parts);
      && Begin(steps, own, n) + |parts[n]| == End(log, own, n) <= |log|
      && log[Begin(steps, own, n)..End(log, own, n)] == parts[n]
      && (n > 0 ==> Occurs(log, Marker(steps[n-1]), own[n-1]))
  {
    var log, upTo := Written(steps, parts), Written(steps, parts[..n+1]);
    WrittenPrefix(steps, parts, n + 1);
    OwnBounds(steps, parts, n);
    WrittenMore(steps, parts, n);
    if n == 0 {
      TakeSlice(log, upTo, "", "", parts[0]);
    } else {
      TakeSlice(log, upTo, Written(steps, parts[..n]), Marker(steps[n-1]), parts[n]);
    }
  }

  lemma OwnFollows(steps: seq<string>, parts: seq<string>)
    requires 0 < |parts| <= |steps| + 1
    ensures Follows(Written(steps, parts), steps, Own(steps, parts))
  {
    var log, own := Written(steps, parts), Own(steps, parts);
    forall i | 0 <= i < |own| ensures Begin(steps, own, i) <= own[i] && Occurs(log, Marker(steps[i]), own[i]) {
      OwnPart(steps, parts, i);
      OwnPart(steps, parts, i + 1);
    }
  }

  lemma OwnParts(steps: seq<string>, parts: seq<string>, n: nat)
    requires 0 < |parts| <= |steps| + 1 && n < |parts|
    requires Follows(Written(steps, parts), steps, Own(steps, parts))
    ensures Part(Written(steps, parts), steps, Own(steps, parts), n) == Section(n, StepOf(steps, n), parts[n])
  {
    OwnPart(steps, parts, n);
  }

  lemma OwnSections(steps: seq<string>, parts: seq<string>)
    requires 0 < |parts| <= |steps| + 1
    ensures Follows(Written(steps, parts), steps, Own(steps, parts))
    ensures Sections(Written(steps, parts), steps, Own(steps, parts)) == Expected(steps, parts)
  {
    OwnFollows(steps, parts);
    ListedAre(Written(steps, parts), steps, Own(steps, parts), parts) by {
      forall n: nat | n < |parts|
        ensures Part(Written(steps, parts), steps, Own(steps, parts), n) == Section(n, StepOf(steps, n), parts[n])
      {
        OwnParts(steps, parts, n);
      }
    }
  }

  lemma ListedAre(log: string, steps: seq<string>, cuts: seq<nat>, texts: seq<string>)
    requires Follows(log, steps, cuts) && |texts| == |cuts| + 1
    requires forall n: nat | n < |texts| :: Part(log, steps, cuts, n) == Section(n, StepOf(steps, n), texts[n])
    ensures Sections(log, steps, cuts) == Expected(steps, texts)
  {
    var out, want := Sections(log, steps, cuts), Expected(steps, texts);
    var d := |Keep(Section(0, "", texts[0]))|;
    assert Part(log, steps, cuts, 0) == Section(0, "", texts[0]);
    forall i | d <= i < |out| ensures out[i] == want[i] {
      assert out[i] == Part(log, steps, cuts, i - d + 1);
    }
  }

  /** Equal sections, equal cuts. */
  lemma SameSections(log: string, steps: seq<string>, cuts: seq<nat>, cuts': seq<nat>)
    requires Follows(log, steps, cuts) && Follows(log, steps, cuts')
    requires Sections(log, steps, cuts) == Sections(log, steps, cuts')
    ensures cuts == cuts'
  {
    SameParts(log, steps, cuts, cuts');
    forall i: nat | i < |cuts| ensures cuts[i] == cuts'[i] { SameCut(log, steps, cuts, cuts', i); }
  }

  lemma SameParts(log: string, steps: seq<string>, cuts: seq<nat>, cuts': seq<nat>)
    requires Follows(log, steps, cuts) && Follows(log, steps, cuts')
    requires Sections(log, steps, cuts) == Sections(log, steps, cuts')
    ensures |cuts| == |cuts'|
    ensures forall n: nat | n <= |cuts| :: Part(log, steps, cuts, n) == Part(log, steps, cuts', n)
  {
    var out, out' := Sections(log, steps, cuts), Sections(log, steps, cuts');
    Numbered(log, steps, cuts);
    Numbered(log, steps, cuts');
    if |out| > 0 { assert out[0].n == out'[0].n; }
    var d := |out| - |cuts|;
    assert |Keep(Part(log, steps, cuts, 0))| == d == |Keep(Part(log, steps, cuts', 0))|;
    forall n: nat | n <= |cuts| ensures Part(log, steps, cuts, n) == Part(log, steps, cuts', n) {
      if n > 0 || d == 1 {
        assert out[n + d - 1] == Part(log, steps, cuts, n);
        assert out'[n + d - 1] == Part(log, steps, cuts', n);
      }
    }
  }

  lemma {:induction false} SameCut(log: string, steps: seq<string>, cuts: seq<nat>, cuts': seq<nat>, i: nat)
    requires Follows(log, steps, cuts) && Follows(log, steps, cuts') && |cuts| == |cuts'|
    requires forall n: nat | n <= |cuts| :: Part(log, steps, cuts, n) == Part(log, steps, cuts', n)
    requires i < |cuts|
    ensures cuts[i] == cuts'[i]
  {
    if i > 0 { SameCut(log, steps, cuts, cuts', i - 1); }
    assert |Part(log, steps, cuts, i).text| == |Part(log, steps, cuts', i).text|;
  }

  /** Text after which a line can start. */
  predicate Ended(text: string) { text == "" || text[|text|-1] == '\n' }

  lemma EndedLine(steps: seq<string>, parts: seq<string>, i: nat)
    requires 0 < |parts| <= |steps| + 1 && i < |parts| - 1
    ensures Own(steps, parts)[i] <= |Written(steps, parts)|
    ensures LineStart(Written(steps, parts), Own(steps, parts)[i]) <==> Ended(parts[i])
  {
    var log, own := Written(steps, parts), Own(steps, parts);
    OwnPart(steps, parts, i);
    if parts[i] != "" {
      assert log[own[i]-1] == log[Begin(steps, own, i)..own[i]][|parts[i]|-1];
    } else if i > 0 {
      var m := Marker(steps[i-1]);
      assert log[own[i]-1] == log[own[i-1]..own[i-1]+|m|][|m|-1] == '\n';
    }
  }

  /** What a log has to be like to be read back: every step's line starts a
      line, is nowhere earlier at the start of a line, and a step that never
      ran has no line. */
  ghost predicate Legible(steps: seq<string>, parts: seq<string>)
    requires 0 < |parts| <= |steps| + 1
  {
    var log, own := Written(steps, parts), Own(steps, parts);
    && (forall i: nat | i < |own| :: Ended(parts[i]))
    && (forall i: nat, q: nat | i < |own| && Begin(steps, own, i) <= q < own[i] :: !AtLine(log, Marker(steps[i]), q))
    && (|own| < |steps| ==> Nowhere(log, Marker(steps[|own|]), Begin(steps, own, |own|)))
  }

  lemma LegibleSearched(steps: seq<string>, parts: seq<string>)
    requires 0 < |parts| <= |steps| + 1
    ensures Legible(steps, parts) <==> Searched(Written(steps, parts), steps, Own(steps, parts))
  {
    var log, own := Written(steps, parts), Own(steps, parts);
    OwnSections(steps, parts);
    forall i: nat | i < |own| ensures LineStart(log, own[i]) <==> Ended(parts[i]) { EndedLine(steps, parts, i); }
  }

  /** Splitting a log the runner wrote gives back what each step printed
      exactly when the log is legible. */
  lemma ReadsBack(steps: seq<string>, parts: seq<string>, cuts: seq<nat>)
    requires 0 < |parts| <= |steps| + 1
    requires Searched(Written(steps, parts), steps, cuts)
    ensures Sections(Written(steps, parts), steps, cuts) == Expected(steps, parts) <==> Legible(steps, parts)
  {
    var log, own := Written(steps, parts), Own(steps, parts);
    OwnSections(steps, parts);
    LegibleSearched(steps, parts);
    if Sections(log, steps, cuts) == Expected(steps, parts) {
      SameSections(log, steps, cuts, own);
    }
    if Searched(log, steps, own) {
      SearchedUnique(log, steps, cuts, own);
    }
  }

  /** A step that prints "x" and no newline hides the next step's line ... */
  lemma UnendedOutput()
    ensures var steps, parts := ["a", "b"], ["", "x", ""];
      Written(steps, parts) == "$ a\nx$ b\n" && !Legible(steps, parts)
  {
    var steps, parts := ["a", "b"], ["", "x", ""];
    WrittenMore(steps, parts, 0);
    WrittenMore(steps, parts, 1);
    WrittenMore(steps, parts, 2);
    assert parts[..3] == parts;
    assert !Ended(parts[1]);
  }

  /** ... and one that prints the next step's line is cut short there. */
  lemma StolenLine()
    ensures var steps, parts := ["a", "b"], ["", "$ b\n", ""];
      Written(steps, parts) == "$ a\n$ b\n$ b\n" && !Legible(steps, parts)
  {
    var steps, parts := ["a", "b"], ["", "$ b\n", ""];
    WrittenMore(steps, parts, 0);
    WrittenMore(steps, parts, 1);
    WrittenMore(steps, parts, 2);
    assert parts[..3] == parts;
    var log, own := Written(steps, parts), Own(steps, parts);
    assert own[0] == 0 && own[1] == 8;
    assert log[4..8] == Marker("b") && AtLine(log, Marker(steps[1]), 4);
    assert Begin(steps, own, 1) == 4;
  }
}
