/** internal/control/auditrefusal.go: how many audit rows refused writes may
    leave. Times are nanoseconds since Go's zero time. */
module Refusals {
  import Sorting

  const MINUTE := 60_000_000_000
  const PER_ACTOR := 10
  const GLOBAL := 600
  const PRUNE_PAST := 4096

  datatype Window = Window(start: nat, n: nat)

  datatype Verdict = Drop | Record | ThrottleActor | ThrottleGlobal

  datatype Limits = Limits(seen: map<int, Window>, global: Window)

  datatype Call = Call(actor: int, now: nat)

  predicate Over(w: Window, now: nat) { now - w.start >= MINUTE }

  // ------------------------------------------------- the limiter that never prunes

  function Opened(w: Window, now: nat): Window {
    if Over(w, now) then Window(now, 1) else Window(w.start, w.n + 1)
  }

  function OpenedFor(seen: map<int, Window>, c: Call): Window {
    if c.actor in seen then Opened(seen[c.actor], c.now) else Window(c.now, 1)
  }

  function Step(s: Limits, c: Call): (Limits, Verdict) {
    var w := OpenedFor(s.seen, c);
    var seen := s.seen[c.actor := w];
    if w.n > PER_ACTOR + 1 then (Limits(seen, s.global), Drop)
    else
      var g := Opened(s.global, c.now);
      var want := if w.n == PER_ACTOR + 1 then ThrottleActor else Record;
      (Limits(seen, g), if g.n <= GLOBAL then want else if g.n == GLOBAL + 1 then ThrottleGlobal else Drop)
  }

  function Start(): Limits { Limits(map[], Window(0, 0)) }

  /** Its state after a run, and its answer to each call. */
  function StateAfter(calls: seq<Call>): Limits {
    if calls == [] then Start() else Step(StateAfter(calls[..|calls|-1]), calls[|calls|-1]).0
  }

  function Answers(calls: seq<Call>): (answers: seq<Verdict>)
    ensures |answers| == |calls|
  {
    if calls == [] then []
    else
      var before := calls[..|calls|-1];
      Answers(before) + [Step(StateAfter(before), calls[|calls|-1]).1]
  }

  // ------------------------------------------------------------------- pruning

  function Pruned(seen: map<int, Window>, now: nat): map<int, Window> {
    if |seen| > PRUNE_PAST then map k | k in seen && !Over(seen[k], now) :: seen[k] else seen
  }

  /** A pruned state beside an unpruned one at time `now`: only windows that
      are over may be missing. */
  ghost predicate Forgets(s: Limits, full: Limits, now: nat) {
    && s.global == full.global
    && (forall k <- s.seen :: k in full.seen && s.seen[k] == full.seen[k])
    && (forall k <- full.seen :: k !in s.seen ==> Over(full.seen[k], now))
  }

  lemma StepForgets(s: Limits, full: Limits, last: nat, c: Call)
    requires Forgets(s, full, last) && last <= c.now
    ensures var pruned := Limits(Pruned(s.seen, c.now), s.global);
      && Step(pruned, c).1 == Step(full, c).1
      && Forgets(Step(pruned, c).0, Step(full, c).0, c.now)
  {
    var pruned := Limits(Pruned(s.seen, c.now), s.global);
    assert Forgets(pruned, full, c.now);
    assert OpenedFor(pruned.seen, c) == OpenedFor(full.seen, c);
  }

  /** `refusalLimiter`, with the calls it has had. */
  class Limiter {
    var seen: map<int, Window>
    var global: Window
    ghost var calls: seq<Call>

    ghost function Last(): nat
      reads this
    {
      if calls == [] then 0 else calls[|calls|-1].now
    }

    ghost predicate Valid()
      reads this
    {
      Forgets(Limits(seen, global), StateAfter(calls), Last())
    }

    constructor ()
      ensures Valid() && calls == []
    {
      seen, global, calls := map[], Window(0, 0), [];
    }

    method Prune(now: nat)
      modifies this`seen
      ensures seen == Pruned(old(seen), now)
    {
      if |seen| <= PRUNE_PAST { return; }
      var left := seen.Keys;
      while left != {}
        invariant left <= seen.Keys
        invariant seen == map k | k in old(seen) && (k in left || !Over(old(seen)[k], now)) :: old(seen)[k]
      {
        ghost var _ := Sorting.Witness(left);
        var k :| k in left;
        left := left - {k};
        if Over(seen[k], now) {
          seen := seen - {k};
        }
      }
    }

    /** allow: on a clock that does not go back, the answer of the limiter
        that never prunes. */
    method Allow(actor: int, now: nat) returns (want: Verdict)
      requires Valid() && Last() <= now
      modifies this
      ensures Valid() && calls == old(calls) + [Call(actor, now)]
      ensures want == Answers(calls)[|old(calls)|]
    {
      ghost var c := Call(actor, now);
      StepForgets(Limits(seen, global), StateAfter(calls), Last(), c);
      assert (calls + [c])[..|calls|] == calls;
      calls := calls + [c];
      Prune(now);
      var w := Window(now, 0);
      if actor in seen && now - seen[actor].start < MINUTE {
        w := seen[actor];
      }
      w := Window(w.start, w.n + 1);
      seen := seen[actor := w];
      want := Record;
      if w.n == PER_ACTOR + 1 {
        want := ThrottleActor;
      } else if w.n > PER_ACTOR {
        return Drop;
      }
      if now - global.start >= MINUTE {
        global := Window(now, 0);
      }
      global := Window(global.start, global.n + 1);
      if global.n <= GLOBAL { return; }
      if global.n == GLOBAL + 1 { return ThrottleGlobal; }
      return Drop;
    }
  }

  // -------------------------------------------------------------- which rows

  /** How many of the calls are an actor's. */
  function CallsOf(calls: seq<Call>, actor: int): nat {
    if calls == [] then 0
    else CallsOf(calls[..|calls|-1], actor) + (if calls[|calls|-1].actor == actor then 1 else 0)
  }

  /** `burst` begins a minute of `actor`'s: no window of theirs is open. */
  ghost predicate Begins(before: seq<Call>, burst: seq<Call>, actor: int) {
    && burst != [] && burst[0].actor == actor
    && (forall i | 0 <= i < |burst| :: burst[0].now <= burst[i].now < burst[0].now + MINUTE)
    && var seen := StateAfter(before).seen;
       actor in seen ==> burst[0].now - seen[actor].start >= MINUTE
  }

  lemma {:induction false} BurstCounted(before: seq<Call>, burst: seq<Call>, actor: int)
    requires Begins(before, burst, actor)
    ensures var seen := StateAfter(before + burst).seen;
      actor in seen && seen[actor] == Window(burst[0].now, CallsOf(burst, actor))
  {
    var init, c := burst[..|burst|-1], burst[|burst|-1];
    assert (before + burst)[..|before + burst|-1] == before + init;
    assert (before + burst)[|before + burst|-1] == c;
    if init == [] {
      assert before + init == before;
    } else {
      BurstCounted(before, init, actor);
    }
  }

  /** Rows written in all since the minute `now` falls in began, with this one. */
  function WrittenInAll(calls: seq<Call>, now: nat): nat { Opened(StateAfter(calls).global, now).n }

  /** Of an actor's calls in a minute, the first ten leave a row each, the eleventh
      the row that says so, and the rest nothing, while all actors together have
      left at most 600; the next leaves the row that says that. */
  lemma TenThenOne(before: seq<Call>, burst: seq<Call>, actor: int)
    requires Begins(before, burst, actor) && burst[|burst|-1].actor == actor
    ensures var calls, k := before + burst, CallsOf(burst, actor);
      var g := WrittenInAll(calls[..|calls|-1], burst[|burst|-1].now);
      Answers(calls)[|calls|-1] ==
        if k > 11 || g > 601 then Drop
        else if g == 601 then ThrottleGlobal
        else if k == 11 then ThrottleActor
        else Record
  {
    var calls, init := before + burst, burst[..|burst|-1];
    assert calls[..|calls|-1] == before + init;
    assert calls[|calls|-1] == burst[|burst|-1];
    BurstCounted(before, burst, actor);
    assert StateAfter(calls) == Step(StateAfter(before + init), burst[|burst|-1]).0;
  }

  // ------------------------------------------------------------ how many rows

  ghost predicate Clocked(calls: seq<Call>) {
    forall i, j | 0 <= i < j < |calls| :: calls[i].now <= calls[j].now
  }

  predicate InSpan(c: Call, from: nat) { from <= c.now < from + MINUTE }

  /** The rows written in the minute from `from`, for one actor. */
  function ActorRows(calls: seq<Call>, actor: int, from: nat): nat {
    if calls == [] then 0
    else
      var n := |calls| - 1;
      ActorRows(calls[..n], actor, from) +
        (if calls[n].actor == actor && InSpan(calls[n], from) && !Answers(calls)[n].Drop? then 1 else 0)
  }

  /** And for all of them. */
  function AllRows(calls: seq<Call>, from: nat): nat {
    if calls == [] then 0
    else
      var n := |calls| - 1;
      AllRows(calls[..n], from) + (if InSpan(calls[n], from) && !Answers(calls)[n].Drop? then 1 else 0)
  }

  function Min(a: int, b: int): int { if a <= b then a else b }

  /** What a window of at most `cap` rows says of a span that has had `rows`. */
  ghost predicate Bounded(rows: nat, w: Window, cap: nat, from: nat) {
    && (w.start + MINUTE <= from ==> rows == 0)
    && (w.start <= from ==> rows <= Min(w.n, cap))
    && (from < w.start < from + MINUTE ==> rows <= cap + Min(w.n, cap))
    && rows <= 2 * cap
  }

  lemma BoundedStep(rows: nat, w: Window, cap: nat, from: nat, now: nat)
    requires Bounded(rows, w, cap, from) && w.start <= now && cap > 0
    ensures var w' := Opened(w, now);
      && Bounded(rows, w', cap, from)
      && (from <= now < from + MINUTE && w'.n <= cap ==> Bounded(rows + 1, w', cap, from))
  {
  }

  /** The same, of a window that its first row opened: before `from`, that row is
      outside the span. */
  ghost predicate Tight(rows: nat, w: Window, cap: nat, from: nat) {
    && w.n > 0
    && (w.start + MINUTE <= from ==> rows == 0)
    && (w.start < from ==> rows <= Min(w.n, cap) - 1)
    && (w.start == from ==> rows <= Min(w.n, cap))
    && (from < w.start < from + MINUTE ==> rows <= cap - 1 + Min(w.n, cap))
    && rows <= 2 * cap - 1
  }

  lemma TightStep(rows: nat, w: Window, cap: nat, from: nat, now: nat)
    requires Tight(rows, w, cap, from) && w.start <= now && cap > 0
    ensures var w' := Opened(w, now);
      && Tight(rows, w', cap, from)
      && (from <= now < from + MINUTE && w'.n <= cap ==> Tight(rows + 1, w', cap, from))
  {
  }

  lemma {:induction false} StartsPassed(calls: seq<Call>, now: nat)
    requires Clocked(calls) && forall c <- calls :: c.now <= now
    ensures StateAfter(calls).global.start <= now
    ensures forall k <- StateAfter(calls).seen :: StateAfter(calls).seen[k].start <= now
  {
    if calls != [] {
      var before := calls[..|calls|-1];
      assert calls[|calls|-1] in calls;
      forall c <- before ensures c.now <= now { assert c in calls; }
      StartsPassed(before, now);
    }
  }

  lemma StartsBefore(calls: seq<Call>)
    requires Clocked(calls) && calls != []
    ensures var s := StateAfter(calls[..|calls|-1]);
      && s.global.start <= calls[|calls|-1].now
      && forall k <- s.seen :: s.seen[k].start <= calls[|calls|-1].now
  {
    StartsPassed(calls[..|calls|-1], calls[|calls|-1].now);
  }

  lemma {:induction false} ActorBounded(calls: seq<Call>, actor: int, from: nat)
    requires Clocked(calls)
    ensures var seen, rows := StateAfter(calls).seen, ActorRows(calls, actor, from);
      if actor in seen then Tight(rows, seen[actor], PER_ACTOR + 1, from) else rows == 0
  {
    if calls != [] {
      var before, c := calls[..|calls|-1], calls[|calls|-1];
      ActorBounded(before, actor, from);
      StartsBefore(calls);
      var seen := StateAfter(before).seen;
      if c.actor == actor && actor in seen {
        TightStep(ActorRows(before, actor, from), seen[actor], PER_ACTOR + 1, from, c.now);
      }
    }
  }

  lemma {:induction false} AllBounded(calls: seq<Call>, from: nat)
    requires Clocked(calls)
    ensures Bounded(AllRows(calls, from), StateAfter(calls).global, GLOBAL + 1, from)
  {
    if calls != [] {
      var before, c := calls[..|calls|-1], calls[|calls|-1];
      AllBounded(before, from);
      StartsBefore(calls);
      BoundedStep(AllRows(before, from), StateAfter(before).global, GLOBAL + 1, from, c.now);
    }
  }

  /** On a clock past its first minute, where the first row opens a window of its own. */
  lemma {:induction false} AllTight(calls: seq<Call>, from: nat)
    requires Clocked(calls) && forall c <- calls :: c.now >= MINUTE
    ensures var g, rows := StateAfter(calls).global, AllRows(calls, from);
      if g == Window(0, 0) then rows == 0 else Tight(rows, g, GLOBAL + 1, from)
  {
    if calls != [] {
      var before, c := calls[..|calls|-1], calls[|calls|-1];
      assert c in calls;
      forall b <- before ensures b.now >= MINUTE { assert b in calls; }
      AllTight(before, from);
      StartsBefore(calls);
      var g := StateAfter(before).global;
      if g != Window(0, 0) { TightStep(AllRows(before, from), g, GLOBAL + 1, from, c.now); }
    }
  }

  /** In any minute, 21 rows for an actor and 1201 in all; 1202 in the clock's first. */
  lemma RowsPerMinute(calls: seq<Call>, actor: int, from: nat)
    requires Clocked(calls)
    ensures ActorRows(calls, actor, from) <= 21 && AllRows(calls, from) <= 1202
    ensures (forall c <- calls :: c.now >= MINUTE) ==> AllRows(calls, from) <= 1201
  {
    ActorBounded(calls, actor, from);
    AllBounded(calls, from);
    if forall c <- calls :: c.now >= MINUTE { AllTight(calls, from); }
  }

  /** What one actor leaves is part of what all do. */
  lemma {:induction false} ActorRowsAmongAll(calls: seq<Call>, actor: int, from: nat)
    ensures ActorRows(calls, actor, from) <= AllRows(calls, from)
  {
    if calls != [] { ActorRowsAmongAll(calls[..|calls|-1], actor, from); }
  }

  // ---------------------------------------------------------- as many as that

  function Repeated(c: Call, k: nat): (calls: seq<Call>)
    ensures |calls| == k && forall i | 0 <= i < k :: calls[i] == c
  {
    if k == 0 then [] else Repeated(c, k - 1) + [c]
  }

  /** One call, and `k` more of another. */
  function Burst(a: Call, b: Call, k: nat): (calls: seq<Call>)
    ensures |calls| == k + 1 && calls[0] == a && forall i | 0 < i <= k :: calls[i] == b
  {
    [a] + Repeated(b, k)
  }

  lemma BurstMore(a: Call, b: Call, k: nat)
    ensures Burst(a, b, 0) == [a] && Burst(a, b, k + 1) == Burst(a, b, k) + [b]
  {}

  lemma {:induction false} GlobalAtMost(calls: seq<Call>)
    ensures StateAfter(calls).global.n <= |calls|
  {
    if calls != [] { GlobalAtMost(calls[..|calls|-1]); }
  }

  /** A call, in a minute its actor began, that leaves a row. */
  lemma LeavesRow(before: seq<Call>, burst: seq<Call>, c: Call)
    requires Begins(before, burst, c.actor) && burst[0].now <= c.now < burst[0].now + MINUTE
    requires CallsOf(burst, c.actor) <= 10 && |before + burst| < 600
    ensures !Step(StateAfter(before + burst), c).1.Drop?
  {
    BurstCounted(before, burst, c.actor);
    GlobalAtMost(before + burst);
  }

  lemma OneRowMore(before: seq<Call>, c: Call, from: nat)
    requires InSpan(c, from) && !Step(StateAfter(before), c).1.Drop?
    ensures ActorRows(before + [c], c.actor, from) == ActorRows(before, c.actor, from) + 1
  {
    assert (before + [c])[..|before|] == before;
  }

  lemma OneRowOutside(before: seq<Call>, c: Call, from: nat)
    requires !InSpan(c, from)
    ensures ActorRows(before + [c], c.actor, from) == ActorRows(before, c.actor, from)
  {
    assert (before + [c])[..|before|] == before;
  }

  /** The rows of `b` called again and again soon after `a`, which began a minute. */
  lemma {:induction false} RowsAfter(before: seq<Call>, a: Call, b: Call, k: nat, from: nat)
    requires Begins(before, Burst(a, b, k), a.actor) && a.actor == b.actor && a.now <= b.now < a.now + MINUTE
    requires k <= 10 && |before| + k < 600 && InSpan(b, from)
    ensures ActorRows(before + Burst(a, b, k), a.actor, from) ==
      ActorRows(before, a.actor, from) + k + (if InSpan(a, from) then 1 else 0)
  {
    if k == 0 {
      BurstMore(a, b, 0);
      FirstLeavesRow(before, a);
      if InSpan(a, from) { OneRowMore(before, a, from); } else { OneRowOutside(before, a, from); }
    } else {
      var burst := Burst(a, b, k - 1);
      BurstMore(a, b, k - 1);
      assert Begins(before, burst, a.actor) by {
        assert forall i | 0 <= i < k :: Burst(a, b, k)[i] == burst[i];
      }
      RowsAfter(before, a, b, k - 1, from);
      BurstCalls(a, b, k - 1);
      LeavesRow(before, burst, b);
      OneRowMore(before + burst, b, from);
      Append(before, burst, b);
    }
  }

  lemma Append<T>(a: seq<T>, b: seq<T>, c: T)
    ensures a + (b + [c]) == (a + b) + [c]
  {}

  lemma FirstLeavesRow(before: seq<Call>, a: Call)
    requires var seen := StateAfter(before).seen; a.actor in seen ==> a.now - seen[a.actor].start >= MINUTE
    requires |before| < 600
    ensures !Step(StateAfter(before), a).1.Drop?
  {
    GlobalAtMost(before);
  }

  lemma {:induction false} BurstCalls(a: Call, b: Call, k: nat)
    requires a.actor == b.actor
    ensures CallsOf(Burst(a, b, k), a.actor) == k + 1
  {
    if k == 0 {
      BurstMore(a, b, 0);
      assert [a][..0] == [];
    } else {
      BurstMore(a, b, k - 1);
      assert (Burst(a, b, k - 1) + [b])[..k] == Burst(a, b, k - 1);
      BurstCalls(a, b, k - 1);
    }
  }

  lemma BeginsFirst(burst: seq<Call>, actor: int)
    requires burst != [] && burst[0].actor == actor
    requires forall i | 0 <= i < |burst| :: burst[0].now <= burst[i].now < burst[0].now + MINUTE
    ensures Begins([], burst, actor)
  {}

  /** A burst whose first call is just outside the span, and another when its
      minute is over. */
  lemma TwoBursts(a: Call, b: Call, c: Call)
    requires a.actor == b.actor == c.actor && b.now == a.now + 1 && c.now == a.now + MINUTE
    ensures ActorRows(Burst(a, b, 10) + Burst(c, c, 10), a.actor, b.now) == 21
  {
    var first, second := Burst(a, b, 10), Burst(c, c, 10);
    BeginsFirst(first, a.actor);
    RowsAfter([], a, b, 10, b.now);
    BurstCounted([], first, a.actor);
    assert [] + first == first;
    assert ActorRows([], a.actor, b.now) == 0;
    BeginsAgain(first, second, a.actor);
    RowsAfter(first, c, c, 10, b.now);
  }

  lemma BeginsAgain(before: seq<Call>, burst: seq<Call>, actor: int)
    requires burst != [] && burst[0].actor == actor
    requires forall i | 0 <= i < |burst| :: burst[0].now <= burst[i].now < burst[0].now + MINUTE
    requires var seen := StateAfter(before).seen; actor in seen && seen[actor].start + MINUTE <= burst[0].now
    ensures Begins(before, burst, actor)
  {}

  /** An actor can leave 21 in a minute: one call, ten soon after it, and eleven
      more when that minute is over. */
  lemma TwentyOneRows()
    ensures exists calls, from :: Clocked(calls) && ActorRows(calls, 1, from) == 21
  {
    var a, b, c := Call(1, MINUTE), Call(1, MINUTE + 1), Call(1, 2 * MINUTE);
    TwoBursts(a, b, c);
    var calls := Burst(a, b, 10) + Burst(c, c, 10);
    assert Clocked(calls) && ActorRows(calls, 1, b.now) == 21;
  }
}
