/** internal/ci/cron.go and the times internal/ci/sched.go takes from it, in UTC. */
module Cron {
  import opened Text
  import opened Calendar

  /** The values first, first+step, ... up to last: one part of a field. */
  datatype Span = Span(first: int, last: int, step: int) {
    predicate Covers(v: int) {
      first <= v <= last && step > 0 && (v - first) % step == 0
    }
  }

  /** A comma-separated part: "*", N, A-B, each with an optional /step. */
  function ParsePart(part: string, lo: int, hi: int): (r: Option<Span>)
    ensures r.Some? ==> lo <= r.value.first <= r.value.last <= hi && r.value.step >= 1
  {
    var (range, stepPart, hasStep) := Cut(part, '/');
    var step := if hasStep then Atoi(stepPart) else Some(1);
    if step.None? || step.value < 1 then None
    else
      var (a, b, isRange) := Cut(range, '-');
      var first := if range == "*" then Some(lo) else Atoi(a);
      var last :=
        if range == "*" then Some(hi)
        else if isRange then Atoi(b)
        else if hasStep then Some(hi)
        else first;
      if first.None? || last.None? || first.value < lo || last.value > hi || first.value > last.value then None
      else Some(Span(first.value, last.value, step.value))
  }

  /** The forms a part takes; N/step, which is undocumented, runs from N to the
      end of the field. */
  datatype Part =
    | Star | One(n: nat) | Range(a: nat, b: nat)
    | StarStep(k: nat) | FromStep(n: nat, k: nat) | RangeStep(a: nat, b: nat, k: nat)

  function Printed(p: Part): string {
    match p
    case Star => "*"
    case One(n) => Itoa(n)
    case Range(a, b) => Itoa(a) + ['-'] + Itoa(b)
    case StarStep(k) => "*" + ['/'] + Itoa(k)
    case FromStep(n, k) => Itoa(n) + ['/'] + Itoa(k)
    case RangeStep(a, b, k) => Itoa(a) + ['-'] + Itoa(b) + ['/'] + Itoa(k)
  }

  /** What each form means in a field from `lo` to `hi`. */
  function Meaning(p: Part, lo: int, hi: int): Span {
    match p
    case Star => Span(lo, hi, 1)
    case One(n) => Span(n, n, 1)
    case Range(a, b) => Span(a, b, 1)
    case StarStep(k) => Span(lo, hi, k)
    case FromStep(n, k) => Span(n, hi, k)
    case RangeStep(a, b, k) => Span(a, b, k)
  }

  predicate Small(p: Part) {
    match p
    case Star => true
    case One(n) => n <= INT64_MAX
    case Range(a, b) => a <= INT64_MAX && b <= INT64_MAX
    case StarStep(k) => k <= INT64_MAX
    case FromStep(n, k) => n <= INT64_MAX && k <= INT64_MAX
    case RangeStep(a, b, k) => a <= INT64_MAX && b <= INT64_MAX && k <= INT64_MAX
  }

  lemma NumberChars(n: nat)
    ensures '/' !in Itoa(n) && '-' !in Itoa(n) && '*' !in Itoa(n)
    ensures Itoa(n) != "*"
  {
    assert !IsDigit('/') && !IsDigit('-') && !IsDigit('*');
    assert IsDigit(Itoa(n)[0]);
  }

  lemma ParseRange(a: nat, b: nat)
    requires a <= INT64_MAX && b <= INT64_MAX
    ensures var range := Itoa(a) + ['-'] + Itoa(b);
            range != "*" && '/' !in range && Cut(range, '-') == (Itoa(a), Itoa(b), true)
            && Atoi(Itoa(a)) == Some(a) && Atoi(Itoa(b)) == Some(b)
  {
    NumberChars(a);
    NumberChars(b);
    CutAt(Itoa(a), Itoa(b), '-');
    AtoiOfItoa(a);
    AtoiOfItoa(b);
    assert (Itoa(a) + ['-'] + Itoa(b))[0] == Itoa(a)[0];
  }

  /** Every form is read back as what it means, or refused when
      that is no span of the field. */
  lemma ParsePrinted(p: Part, lo: int, hi: int)
    requires Small(p)
    ensures var m := Meaning(p, lo, hi);
            ParsePart(Printed(p), lo, hi) ==
            if m.step >= 1 && lo <= m.first <= m.last <= hi then Some(m) else None
  {
    match p
    case Star => assert Cut("*", '/') == ("*", "", false);
    case One(n) =>
      NumberChars(n);
      AtoiOfItoa(n);
      CutAbsent(Itoa(n), '/');
      CutAbsent(Itoa(n), '-');
    case Range(a, b) =>
      ParseRange(a, b);
      CutAbsent(Printed(p), '/');
    case StarStep(k) =>
      CutAt("*", Itoa(k), '/');
      AtoiOfItoa(k);
    case FromStep(n, k) =>
      NumberChars(n);
      CutAt(Itoa(n), Itoa(k), '/');
      CutAbsent(Itoa(n), '-');
      AtoiOfItoa(n);
      AtoiOfItoa(k);
    case RangeStep(a, b, k) =>
      ParseRange(a, b);
      CutAt(Itoa(a) + ['-'] + Itoa(b), Itoa(k), '/');
      AtoiOfItoa(k);
  }

  predicate PartHas(part: string, lo: int, hi: int, v: int) {
    ParsePart(part, lo, hi).Some? && ParsePart(part, lo, hi).value.Covers(v)
  }

  predicate PartsOk(parts: seq<string>, lo: int, hi: int) {
    forall part <- parts :: ParsePart(part, lo, hi).Some?
  }

  predicate PartsHave(parts: seq<string>, lo: int, hi: int, v: int) {
    exists part <- parts :: PartHas(part, lo, hi, v)
  }

  /** Each part of the field parses. */
  predicate FieldOk(f: string, lo: int, hi: int) {
    PartsOk(Split(f, ','), lo, hi)
  }

  /** Some part of the field covers the value. */
  predicate FieldHas(f: string, lo: int, hi: int, v: int) {
    PartsHave(Split(f, ','), lo, hi, v)
  }

  method ParseField(f: string, lo: int, hi: int) returns (r: Option<set<int>>)
    ensures r.Some? <==> FieldOk(f, lo, hi)
    ensures r.Some? ==> forall v :: v in r.value <==> FieldHas(f, lo, hi, v)
  {
    r := ParseParts(Split(f, ','), lo, hi);
  }

  /** parseField's loop over the parts. */
  method ParseParts(parts: seq<string>, lo: int, hi: int) returns (r: Option<set<int>>)
    ensures r.Some? <==> PartsOk(parts, lo, hi)
    ensures r.Some? ==> forall v :: v in r.value <==> PartsHave(parts, lo, hi, v)
  {
    var vals: set<int> := {};
    for i := 0 to |parts|
      invariant PartsOk(parts[..i], lo, hi)
      invariant forall v :: v in vals <==> PartsHave(parts[..i], lo, hi, v)
    {
      var span := ParsePart(parts[i], lo, hi);
      assert parts[i] in parts;
      if span.None? { return None; }
      vals := AddSpan(vals, span.value);
      assert parts[..i+1] == parts[..i] + [parts[i]];
      OneMorePart(parts[..i], parts[i], lo, hi);
    }
    assert parts[..|parts|] == parts;
    r := Some(vals);
  }

  lemma OneMorePart(parts: seq<string>, part: string, lo: int, hi: int)
    ensures PartsOk(parts + [part], lo, hi) <==> PartsOk(parts, lo, hi) && ParsePart(part, lo, hi).Some?
    ensures forall v :: PartsHave(parts + [part], lo, hi, v) <==> PartsHave(parts, lo, hi, v) || PartHas(part, lo, hi, v)
  {
  }

  /** The loop that marks one part's values. */
  method AddSpan(before: set<int>, s: Span) returns (vals: set<int>)
    requires s.step > 0
    ensures forall v :: v in vals <==> v in before || s.Covers(v)
  {
    vals := before;
    var v := s.first;
    while v <= s.last
      invariant s.first <= v && (v - s.first) % s.step == 0
      invariant forall u :: u in vals <==> u in before || (s.Covers(u) && u < v)
      decreases s.last - v
    {
      NextCovered(s, v);
      vals := vals + {v};
      v := v + s.step;
    }
  }

  /** Nothing lies between two steps. */
  lemma NextCovered(s: Span, v: int)
    requires s.step > 0 && s.first <= v <= s.last && (v - s.first) % s.step == 0
    ensures (v + s.step - s.first) % s.step == 0
    ensures forall u :: s.Covers(u) && u < v + s.step <==> s.Covers(u) && u <= v
  {
    var q := (v - s.first) / s.step;
    assert v - s.first == q * s.step;
    ModOfMultiple(q + 1, s.step);
    forall u | s.Covers(u) ensures u <= v || v + s.step <= u {
      SameStep(v - s.first, u - s.first, s.step);
    }
  }

  lemma SameStep(a: int, b: int, k: int)
    requires k > 0 && a % k == 0 && b % k == 0
    ensures b <= a || a + k <= b
  {
    var q, p := a / k, b / k;
    assert a == q * k && b == p * k;
    assert (p - q) * k == b - a;
    Between(p - q, k);
  }

  lemma ModOfMultiple(q: int, k: int)
    requires k > 0
    ensures (q * k) % k == 0
  {
    var r := (q * k) % k;
    var d := (q * k) / k;
    assert q * k == d * k + r;
    assert (q - d) * k == r;
    if q != d { Between(q - d, k); }
  }

  lemma Between(m: int, k: int)
    requires k > 0
    ensures !(0 < m * k < k)
  {
    if m >= 1 { assert m * k >= k; }
    if m <= 0 { assert m * k <= 0; }
  }

  /** A compiled expression. `domAny` and `dowAny` record a field that is
      literally "*". */
  datatype Expr = Expr(
    min: set<int>, hour: set<int>, dom: set<int>, mon: set<int>, dow: set<int>, domAny: bool, dowAny: bool)

  /** The texts ParseCron takes: five fields, each inside its bounds. */
  predicate Parses(text: string) {
    var fs := Fields(text);
    && |fs| == 5
    && FieldOk(fs[0], 0, 59) && FieldOk(fs[1], 0, 23) && FieldOk(fs[2], 1, 31)
    && FieldOk(fs[3], 1, 12) && FieldOk(fs[4], 0, 7)
  }

  /** What it makes of one: each field's values, Sunday being both 0 and 7. */
  ghost predicate Compiles(text: string, c: Expr) {
    var fs := Fields(text);
    && Parses(text)
    && (forall v :: v in c.min <==> FieldHas(fs[0], 0, 59, v))
    && (forall v :: v in c.hour <==> FieldHas(fs[1], 0, 23, v))
    && (forall v :: v in c.dom <==> FieldHas(fs[2], 1, 31, v))
    && (forall v :: v in c.mon <==> FieldHas(fs[3], 1, 12, v))
    && (forall v :: v in c.dow <==> FieldHas(fs[4], 0, 7, v) || (v == 0 && FieldHas(fs[4], 0, 7, 7)))
    && c.domAny == (fs[2] == "*") && c.dowAny == (fs[4] == "*")
  }

  method ParseCron(text: string) returns (r: Option<Expr>)
    ensures r.Some? <==> Parses(text)
    ensures r.Some? ==> Compiles(text, r.value) && WellFormed(r.value)
  {
    var fs := Fields(text);
    if |fs| != 5 { return None; }
    var min := ParseField(fs[0], 0, 59);
    if min.None? { return None; }
    var hour := ParseField(fs[1], 0, 23);
    if hour.None? { return None; }
    var dom := ParseField(fs[2], 1, 31);
    if dom.None? { return None; }
    var mon := ParseField(fs[3], 1, 12);
    if mon.None? { return None; }
    var dow := ParseField(fs[4], 0, 7);
    if dow.None? { return None; }
    var days := if 7 in dow.value then dow.value + {0} else dow.value;
    var c := Expr(min.value, hour.value, dom.value, mon.value, days, fs[2] == "*", fs[4] == "*");
    FieldFull(fs[0], 0, 59);
    FieldFull(fs[1], 0, 23);
    FieldFull(fs[2], 1, 31);
    FieldFull(fs[3], 1, 12);
    FieldFull(fs[4], 0, 7);
    r := Some(c);
  }

  /** What every compiled expression is: no field is empty or out of bounds. */
  ghost predicate WellFormed(c: Expr) {
    && Inside(c.min, 0, 59) && Inside(c.hour, 0, 23) && Inside(c.dom, 1, 31) && Inside(c.mon, 1, 12)
    && Inside(c.dow, 0, 7) && (7 in c.dow ==> 0 in c.dow)
  }

  ghost predicate Inside(vals: set<int>, lo: int, hi: int) {
    (exists v :: v in vals) && forall v <- vals :: lo <= v <= hi
  }

  lemma FieldFull(f: string, lo: int, hi: int)
    requires FieldOk(f, lo, hi)
    ensures exists v :: FieldHas(f, lo, hi, v)
    ensures forall v :: FieldHas(f, lo, hi, v) ==> lo <= v <= hi
  {
    var part := Split(f, ',')[0];
    var s := ParsePart(part, lo, hi).value;
    assert PartHas(part, lo, hi, s.first);
    assert FieldHas(f, lo, hi, s.first);
  }

  // ------------------------------------------------------------------ matching

  predicate Matches(c: Expr, t: Minute) {
    && t.minute in c.min && t.hour in c.hour && t.month in c.mon
    && var domOK, dowOK := t.day in c.dom, t.Weekday() in c.dow;
       if c.domAny && c.dowAny then true
       else if c.domAny then dowOK
       else if c.dowAny then domOK
       else domOK || dowOK
  }

  /** A day of the week in its field, where Sunday is 0 and 7. */
  ghost predicate WeekdayHas(f: string, w: int) {
    FieldHas(f, 0, 7, w) || (w == 0 && FieldHas(f, 0, 7, 7))
  }

  /** crontab's rule, on the text: the minute, the hour and the month, and of the
      two day fields both, or either when neither is "*". */
  ghost predicate DueAt(text: string, t: Minute) {
    var fs := Fields(text);
    && |fs| == 5
    && FieldHas(fs[0], 0, 59, t.minute) && FieldHas(fs[1], 0, 23, t.hour) && FieldHas(fs[3], 1, 12, t.month)
    && if fs[2] == "*" || fs[4] == "*"
       then FieldHas(fs[2], 1, 31, t.day) && WeekdayHas(fs[4], t.Weekday())
       else FieldHas(fs[2], 1, 31, t.day) || WeekdayHas(fs[4], t.Weekday())
  }

  /** What a text compiles to fires at exactly the minutes it is due at. */
  lemma FiresAsWritten(text: string, c: Expr, t: Minute)
    requires Compiles(text, c) && t.Valid()
    ensures Matches(c, t) <==> DueAt(text, t)
  {
    var fs := Fields(text);
    DayInMonth(t);
    if fs[2] == "*" { StarHas(1, 31, t.day); }
    if fs[4] == "*" { StarHas(0, 7, t.Weekday()); }
  }

  lemma DayInMonth(t: Minute)
    requires t.Valid()
    ensures 1 <= t.day <= 31 && 0 <= t.Weekday() <= 6
  {}

  /** What fires with at most one day field restricted ... */
  lemma OneDayField(c: Expr, t: Minute)
    requires c.domAny || c.dowAny
    ensures Matches(c, t) <==>
      && t.minute in c.min && t.hour in c.hour && t.month in c.mon
      && (!c.domAny ==> t.day in c.dom) && (!c.dowAny ==> t.Weekday() in c.dow)
  {}

  /** ... and with both: whatever fires with either made "*". */
  lemma BothDayFields(c: Expr, t: Minute)
    requires !c.domAny && !c.dowAny
    ensures Matches(c, t) <==> Matches(c.(dowAny := true), t) || Matches(c.(domAny := true), t)
  {}

  /** The first minute after `t` and before `limit` at which a text is due. */
  ghost predicate FirstDue(text: string, t: Minute, limit: int, r: Option<Minute>) {
    match r
    case Some(u) =>
      && u.Valid() && DueAt(text, u) && t.Abs() < u.Abs() < limit
      && forall v: Minute | v.Valid() && t.Abs() < v.Abs() < u.Abs() :: !DueAt(text, v)
    case None => forall v: Minute | v.Valid() && t.Abs() < v.Abs() < limit :: !DueAt(text, v)
  }

  /** Next, of a text just parsed: the first minute the text is due. */
  lemma NextAsWritten(text: string, c: Expr, t: Minute, limit: int, r: Option<Minute>)
    requires Compiles(text, c) && FirstFiring(c, t, limit, r)
    ensures FirstDue(text, t, limit, r)
  {
    forall v: Minute | v.Valid() ensures Matches(c, v) <==> DueAt(text, v) { FiresAsWritten(text, c, v); }
  }

  /** `r` is the first firing after minute `t` and before `limit`, None when there is none. */
  ghost predicate FirstFiring(c: Expr, t: Minute, limit: int, r: Option<Minute>) {
    match r
    case Some(u) =>
      && u.Valid() && Matches(c, u) && t.Abs() < u.Abs() < limit
      && forall v: Minute | v.Valid() && t.Abs() < v.Abs() < u.Abs() :: !Matches(c, v)
    case None => forall v: Minute | v.Valid() && t.Abs() < v.Abs() < limit :: !Matches(c, v)
  }

  /** Next(t)'s horizon: a year and a day from the minute after t. */
  function Horizon(t: Minute): int
    requires t.Valid()
  {
    AYearAndADayAfter(NextMinute(t))
  }

  /** Cron.Next, of a time within minute `after`. */
  method Next(c: Expr, after: Minute) returns (r: Option<Minute>)
    requires after.Valid()
    ensures FirstFiring(c, after, Horizon(after), r)
  {
    var t := NextMinute(after);
    var limit := AYearAndADayAfter(t);
    while t.Abs() < limit
      invariant t.Valid() && after.Abs() < t.Abs()
      invariant forall v: Minute | v.Valid() && after.Abs() < v.Abs() < t.Abs() :: !Matches(c, v)
      decreases limit - t.Abs()
    {
      if Matches(c, t) { return Some(t); }
      forall v: Minute | v.Valid() && v.Abs() == t.Abs() ensures !Matches(c, v) { OneMinute(t, v); }
      t := NextMinute(t);
    }
    r := None;
  }

  // ------------------------------------------------------- when a firing exists

  /** A day every year has. */
  predicate EveryYear(m: int, d: int) {
    1 <= m <= 12 && 1 <= d <= DaysIn(false, m)
  }

  /** The expressions for which Next never answers the zero time. */
  predicate AlwaysFires(c: Expr) {
    !c.dowAny || c.domAny || exists m, d | m in c.mon && d in c.dom :: EveryYear(m, d)
  }

  /** Every minute of `u`'s day lies between the minute after `t` and its horizon. */
  ghost predicate InWindow(s: Minute, u: Minute) {
    u.Valid() && s.Day() < u.Day() < DayNumber(s.year + 1, s.month, s.day + 1)
  }

  lemma WindowBounds(t: Minute, u: Minute)
    requires t.Valid() && InWindow(NextMinute(t), u)
    ensures t.Abs() < u.Abs() < Horizon(t)
  {
    var s := NextMinute(t);
    assert 1440 * s.Day() + 1440 <= 1440 * u.Day();
    assert 1440 * u.Day() + 1440 <= 1440 * DayNumber(s.year + 1, s.month, s.day + 1);
  }

  lemma LeapMonths(m: int)
    requires 1 <= m <= 12
    ensures DaysIn(false, m) <= DaysIn(true, m)
    ensures DaysBeforeMonth(false, m) <= DaysBeforeMonth(true, m)
  {
  }

  /** The date's next occurrence after today is inside the horizon. */
  lemma NextAnniversary(s: Minute, m: int, d: int, hour: int, minute: int) returns (u: Minute)
    requires s.Valid() && EveryYear(m, d) && 0 <= hour < 24 && 0 <= minute < 60
    ensures InWindow(s, u) && u.month == m && u.day == d && u.hour == hour && u.minute == minute
  {
    LeapMonths(m);
    var later := s.month < m || (s.month == m && s.day < d);
    u := Minute(if later then s.year else s.year + 1, m, d, hour, minute);
    DatesOrdered(s, u);
    DayInYear(u);
    YearLength(s.year);
    var end := Minute(s.year + 1, s.month, 1, 0, 0);
    DayInYear(end);
    if !later && m < s.month {
      MonthsOrdered(Leap(s.year + 1), m, s.month);
    }
  }

  lemma WeekdayWithin(day: int, w: int) returns (k: int)
    requires 0 <= w < 7
    ensures 0 <= k < 7 && WeekdayOf(day + k) == w
  {
    k := (w - (day + 1)) % 7;
    var q := (w - (day + 1)) / 7;
    assert w - (day + 1) == 7 * q + k;
    assert (day + k) + 1 == w - 7 * q;
    assert (w - 7 * q) % 7 == w;
  }

  /** Each weekday comes round in the month inside the horizon. */
  lemma NextWeekdayIn(s: Minute, m: int, w: int, hour: int, minute: int) returns (u: Minute)
    requires s.Valid() && 1 <= m <= 12 && 0 <= w < 7 && 0 <= hour < 24 && 0 <= minute < 60
    ensures InWindow(s, u) && u.month == m && u.Weekday() == w && u.hour == hour && u.minute == minute
  {
    // Seven days of the month, all later this year or all early next year.
    var thisYear := s.month < m || (s.month == m && s.day <= 21);
    var first := if s.month == m && thisYear then s.day + 1 else 1;
    var y := if thisYear then s.year else s.year + 1;
    var k := WeekdayWithin(DayNumber(y, m, first), w);
    u := Minute(y, m, first + k, hour, minute);
    assert u.Valid();
    assert u.Day() == DayNumber(y, m, first) + k;
    DatesOrdered(s, u);
    DayInYear(u);
    YearLength(s.year);
    DayInYear(Minute(s.year + 1, s.month, 1, 0, 0));
    if !thisYear && m < s.month {
      MonthsOrdered(Leap(s.year + 1), m, s.month);
    }
  }

  /** Whatever the time, such an expression fires before the horizon. */
  lemma FiresInTime(c: Expr, t: Minute) returns (u: Minute)
    requires WellFormed(c) && AlwaysFires(c) && t.Valid()
    ensures u.Valid() && Matches(c, u) && t.Abs() < u.Abs() < Horizon(t)
  {
    var hour :| hour in c.hour;
    var minute :| minute in c.min;
    var s := NextMinute(t);
    if !c.dowAny {
      var m :| m in c.mon;
      var w: int :| w in c.dow && 0 <= w < 7;
      u := NextWeekdayIn(s, m, w, hour, minute);
    } else if c.domAny {
      var m :| m in c.mon;
      u := NextAnniversary(s, m, 1, hour, minute);
    } else {
      var m, d :| m in c.mon && d in c.dom && EveryYear(m, d);
      u := NextAnniversary(s, m, d, hour, minute);
    }
    WindowBounds(t, u);
  }

  /** A minute from which an expression outside that class never fires in time. */
  const MARCH_2025 := Minute(2025, 3, 1, 0, 0)

  lemma NeverInTime(c: Expr, u: Minute)
    requires WellFormed(c) && !AlwaysFires(c)
    requires u.Valid() && MARCH_2025.Abs() < u.Abs() < Horizon(MARCH_2025)
    ensures !Matches(c, u)
  {
    DayInYear(u);
    if u.year < 2025 { YearsOrdered(u.year, 2025); }
    if 2026 < u.year { YearsOrdered(2026, u.year); }
    assert u.year == 2025 || u.year == 2026;
    assert u.month in c.mon && u.day in c.dom ==> EveryYear(u.month, u.day);
  }

  /** Next, which returns some r with FirstFiring, does not answer the zero time at `t`. */
  ghost predicate FindsFiring(c: Expr, t: Minute)
    requires t.Valid()
  {
    forall r | FirstFiring(c, t, Horizon(t), r) :: r.Some?
  }

  /** Next finds a firing from every minute exactly for the expressions of
      that class; Feb 30 and a bare Feb 29 are outside it. */
  lemma NeverZero(c: Expr)
    requires WellFormed(c)
    ensures AlwaysFires(c) <==> forall t: Minute | t.Valid() :: FindsFiring(c, t)
  {
    if AlwaysFires(c) {
      forall t: Minute | t.Valid() ensures FindsFiring(c, t) {
        var u := FiresInTime(c, t);
      }
    } else {
      var t := MARCH_2025;
      forall u: Minute | u.Valid() && t.Abs() < u.Abs() < Horizon(t) ensures !Matches(c, u) {
        NeverInTime(c, u);
      }
      assert FirstFiring(c, t, Horizon(t), None);
      assert t.Valid() && !FindsFiring(c, t);
    }
  }

  // ------------------------------------------------------ fields of one simple part

  lemma SplitOne(f: string, sep: char)
    requires sep !in f
    ensures Split(f, sep) == [f]
  {
  }

  lemma StarHas(lo: int, hi: int, v: int)
    requires lo <= hi
    ensures FieldHas("*", lo, hi, v) <==> lo <= v <= hi
  {
    SplitOne("*", ',');
    assert ParsePart("*", lo, hi) == Some(Span(lo, hi, 1)) by {
      assert Cut("*", '/') == ("*", "", false);
    }
    assert "*" in Split("*", ',');
  }

  lemma NumberHas(n: nat, lo: int, hi: int, v: int)
    requires lo <= n <= hi && n <= INT64_MAX
    ensures FieldHas(Itoa(n), lo, hi, v) <==> v == n
    ensures FieldOk(Itoa(n), lo, hi)
  {
    var f := Itoa(n);
    assert !IsDigit(',') && !IsDigit('/') && !IsDigit('-') && !IsDigit('*');
    SplitOne(f, ',');
    CutAbsent(f, '/');
    CutAbsent(f, '-');
    AtoiOfItoa(n);
    assert IsDigit(f[0]);
    assert ParsePart(f, lo, hi) == Some(Span(n, n, 1));
    assert f in Split(f, ',');
  }

  lemma StarOk(lo: int, hi: int)
    requires lo <= hi
    ensures FieldOk("*", lo, hi)
  {
    SplitOne("*", ',');
    assert Cut("*", '/') == ("*", "", false);
  }

  lemma JoinOneMore(a: string, ws: seq<string>)
    requires |ws| > 0
    ensures Join([a] + ws, " ") == a + " " + Join(ws, " ")
  {
    assert ([a] + ws)[1..] == ws;
  }

  lemma NumberIsWord(n: nat)
    ensures IsWord(Itoa(n))
  {
    forall c | IsDigit(c) ensures !IsSpace(c) { }
  }

  lemma NumberField(n: nat, lo: int, hi: int, vals: set<int>)
    requires lo <= n <= hi && n <= INT64_MAX
    requires forall v :: v in vals <==> FieldHas(Itoa(n), lo, hi, v)
    ensures vals == {n}
  {
    forall v ensures v in vals <==> v == n { NumberHas(n, lo, hi, v); }
  }

  lemma StarField(lo: int, hi: int, vals: set<int>)
    requires lo <= hi
    requires forall v :: v in vals <==> FieldHas("*", lo, hi, v)
    ensures forall v :: v in vals <==> lo <= v <= hi
  {
    forall v ensures v in vals <==> lo <= v <= hi { StarHas(lo, hi, v); }
  }

  /** Midnight on one day of February. */
  function FebruaryText(d: nat): string {
    "0 0 " + Itoa(d) + " 2 *"
  }

  lemma FebruaryFields(d: nat)
    ensures Fields(FebruaryText(d)) == ["0", "0", Itoa(d), "2", "*"]
  {
    var ws := ["0", "0", Itoa(d), "2", "*"];
    JoinOneMore("2", ["*"]);
    JoinOneMore(Itoa(d), ["2", "*"]);
    JoinOneMore("0", [Itoa(d), "2", "*"]);
    JoinOneMore("0", ["0", Itoa(d), "2", "*"]);
    assert ws == ["0"] + ["0", Itoa(d), "2", "*"] && ["0", Itoa(d), "2", "*"] == ["0"] + [Itoa(d), "2", "*"];
    assert [Itoa(d), "2", "*"] == [Itoa(d)] + ["2", "*"] && ["2", "*"] == ["2"] + ["*"];
    assert Join(ws, " ") == FebruaryText(d);
    NumberIsWord(0);
    NumberIsWord(2);
    NumberIsWord(d);
    assert Itoa(0) == "0" && Itoa(2) == "2";
    FieldsOfJoin(ws);
  }

  /** What such a text compiles to. */
  function February(d: nat): Expr {
    Expr({0}, {0}, {d as int}, {2}, {0, 1, 2, 3, 4, 5, 6, 7}, false, true)
  }

  /** The field parses to exactly these values. */
  ghost predicate FieldIs(f: string, lo: int, hi: int, vals: set<int>) {
    FieldOk(f, lo, hi) && forall v :: v in vals <==> FieldHas(f, lo, hi, v)
  }

  lemma NumberIs(n: nat, lo: int, hi: int)
    requires lo <= n <= hi && n <= INT64_MAX
    ensures FieldIs(Itoa(n), lo, hi, {n as int})
  {
    NumberHas(n, lo, hi, n);
    forall v ensures v in {n as int} <==> FieldHas(Itoa(n), lo, hi, v) { NumberHas(n, lo, hi, v); }
  }

  lemma StarDays()
    ensures FieldIs("*", 0, 7, {0, 1, 2, 3, 4, 5, 6, 7})
  {
    StarOk(0, 7);
    forall v ensures v in {0, 1, 2, 3, 4, 5, 6, 7} <==> FieldHas("*", 0, 7, v) { StarHas(0, 7, v); }
  }

  lemma FieldsCompile(text: string, min: string, hour: string, dom: string, mon: string, dow: string, c: Expr)
    requires Fields(text) == [min, hour, dom, mon, dow]
    requires FieldIs(min, 0, 59, c.min) && FieldIs(hour, 0, 23, c.hour) && FieldIs(dom, 1, 31, c.dom)
    requires FieldIs(mon, 1, 12, c.mon) && FieldIs(dow, 0, 7, c.dow) && 0 in c.dow
    requires c.domAny == (dom == "*") && c.dowAny == (dow == "*")
    ensures Compiles(text, c)
  {
  }

  lemma FixedFields()
    ensures FieldIs("0", 0, 59, {0}) && FieldIs("0", 0, 23, {0}) && FieldIs("2", 1, 12, {2})
  {
    assert Itoa(0) == "0" && Itoa(2) == "2";
    NumberIs(0, 0, 59);
    NumberIs(0, 0, 23);
    NumberIs(2, 1, 12);
  }

  lemma FebruaryCompiles(d: nat)
    requires 1 <= d <= 31
    ensures Compiles(FebruaryText(d), February(d))
  {
    FixedFields();
    NumberIs(d, 1, 31);
    StarDays();
    NumberChars(d);
    FebruaryFields(d);
    FieldsCompile(FebruaryText(d), "0", "0", Itoa(d), "2", "*", February(d));
  }

  lemma FebruaryWellFormed(d: nat)
    requires 1 <= d <= 31
    ensures WellFormed(February(d))
  {
    var c := February(d);
    assert 0 in c.min && 0 in c.hour && d as int in c.dom && 2 in c.mon && 0 in c.dow;
  }

  /** February 29, 30 and 31 are outside the class that always fires. */
  lemma FebruaryNever(d: nat)
    requires 29 <= d <= 31
    ensures !AlwaysFires(February(d))
    ensures exists t: Minute :: t.Valid() && !FindsFiring(February(d), t)
  {
    FebruaryWellFormed(d);
    assert !AlwaysFires(February(d));
    NeverZero(February(d));
  }

  /** The 30th of February parses, and Next answers the zero time for it. */
  lemma FebruaryThirtieth()
    ensures Parses("0 0 30 2 *") && Compiles("0 0 30 2 *", February(30))
    ensures exists t: Minute :: t.Valid() && !FindsFiring(February(30), t)
  {
    ThirtiethText();
    FebruaryCompiles(30);
    FebruaryNever(30);
  }

  lemma ThirtiethText()
    ensures FebruaryText(30) == "0 0 30 2 *"
  {
    assert Itoa(3) == "3" && Itoa(30) == "30";
  }
}
