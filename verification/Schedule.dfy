/** internal/ci/sched.go: when the code scan runs next. */
module Schedule {
  import opened Text
  import opened Calendar
  import opened Cron

  datatype Frequency = Daily | Weekly | Monthly

  /** ScanFrequencies, most often first, and where a name is in it. */
  function Index(name: string): int {
    if name == "daily" then 0 else if name == "weekly" then 1 else if name == "monthly" then 2 else -1
  }

  /** The [security] section: the hour is 0 to 23 once the config validates. */
  datatype Security = Security(hour: nat, mostOften: string, leastOften: string, default: string)

  function Bounds(sec: Security): (int, int) {
    var lo, hi := Index(sec.mostOften), Index(sec.leastOften);
    if lo < 0 || hi < lo then (0, 2) else (lo, hi)
  }

  /** Security.Frequency: the choice, or the default, moved inside the bounds. */
  function FrequencyOf(sec: Security, chosen: string): (f: Frequency)
    ensures var i := if f == Daily then 0 else if f == Weekly then 1 else 2;
            && Bounds(sec).0 <= i <= Bounds(sec).1
            && (Bounds(sec).0 <= Index(if chosen == "" then sec.default else chosen) <= Bounds(sec).1 ==>
                i == Index(if chosen == "" then sec.default else chosen))
  {
    var (lo, hi) := Bounds(sec);
    var want := Index(if chosen == "" then sec.default else chosen);
    var i := if want < lo then lo else if hi < want then hi else want;
    if i == 0 then Daily else if i == 1 then Weekly else Monthly
  }

  function NameOf(f: Frequency): string {
    match f
    case Daily => "daily"
    case Weekly => "weekly"
    case Monthly => "monthly"
  }

  predicate AtLeastAsOften(f: Frequency, g: Frequency) { f == g || f == Daily || g == Monthly }

  /** What an instance allows: from one configured name to the other, or anything
      when they name no such span. */
  predicate Allows(sec: Security, lo: Frequency, hi: Frequency) {
    if exists a: Frequency, b: Frequency ::
         sec.mostOften == NameOf(a) && sec.leastOften == NameOf(b) && AtLeastAsOften(a, b)
    then sec.mostOften == NameOf(lo) && sec.leastOften == NameOf(hi)
    else lo == Daily && hi == Monthly
  }

  /** A repository scans as often as it chose, or the default without a choice, or
      as near to that as the instance allows; at an unknown name as often as it allows. */
  lemma FrequencyAsNamed(sec: Security, chosen: string, lo: Frequency, hi: Frequency)
    requires Allows(sec, lo, hi)
    ensures var f, want := FrequencyOf(sec, chosen), if chosen == "" then sec.default else chosen;
      && AtLeastAsOften(lo, f) && AtLeastAsOften(f, hi)
      && (forall g: Frequency | NameOf(g) == want ::
            f == if !AtLeastAsOften(lo, g) then lo else if !AtLeastAsOften(g, hi) then hi else g)
      && ((forall g: Frequency :: NameOf(g) != want) ==> f == lo)
  {
    assert NameOf(Daily) == "daily" && NameOf(Weekly) == "weekly" && NameOf(Monthly) == "monthly";
  }

  function DayFields(f: Frequency): string {
    match f
    case Daily => "* * *"
    case Weekly => "* * 0"
    case Monthly => "1 * *"
  }

  /** A scan due at minute `t`: at the hour, on any day, a Sunday or a 1st. */
  predicate Due(f: Frequency, hour: nat, t: Minute) {
    && t.minute == 0 && t.hour == hour
    && (f == Weekly ==> t.Weekday() == 0)
    && (f == Monthly ==> t.day == 1)
  }

  // ------------------------------------------------------------- the expression

  /** The text SecurityNextRun formats. */
  function ScanText(hour: nat, f: Frequency): string {
    "0 " + Itoa(hour) + " " + DayFields(f)
  }

  function DayWords(f: Frequency): (ws: seq<string>)
    ensures |ws| == 3
  {
    match f
    case Daily => ["*", "*", "*"]
    case Weekly => ["*", "*", "0"]
    case Monthly => ["1", "*", "*"]
  }

  lemma DayWordsJoin(f: Frequency)
    ensures Join(DayWords(f), " ") == DayFields(f)
    ensures forall w <- DayWords(f) :: IsWord(w)
  {
    var ws := DayWords(f);
    assert ws[1..][1..] == [ws[2]];
    assert Join(ws[1..], " ") == ws[1] + " " + ws[2];
  }

  lemma ScanFields(hour: nat, f: Frequency)
    ensures Fields(ScanText(hour, f)) == ["0", Itoa(hour)] + DayWords(f)
  {
    var ws := ["0", Itoa(hour)] + DayWords(f);
    DayWordsJoin(f);
    JoinOneMore(Itoa(hour), DayWords(f));
    JoinOneMore("0", [Itoa(hour)] + DayWords(f));
    assert ws == ["0"] + ([Itoa(hour)] + DayWords(f));
    assert Join(ws, " ") == ScanText(hour, f);
    NumberIsWord(hour);
    NumberIsWord(0);
    assert Itoa(0) == "0";
    FieldsOfJoin(ws);
  }

  lemma ScanTimes(hour: nat, f: Frequency, c: Expr)
    requires hour < 24 && Compiles(ScanText(hour, f), c)
    ensures c.min == {0} && c.hour == {hour} && forall v :: v in c.mon <==> 1 <= v <= 12
  {
    ScanFields(hour, f);
    assert Itoa(0) == "0";
    NumberField(0, 0, 59, c.min);
    NumberField(hour, 0, 23, c.hour);
    StarField(1, 12, c.mon);
  }

  lemma ScanDays(hour: nat, f: Frequency, c: Expr)
    requires hour < 24 && Compiles(ScanText(hour, f), c)
    ensures c.domAny == (f != Monthly) && c.dowAny == (f != Weekly)
    ensures f == Monthly ==> c.dom == {1}
    ensures f == Weekly ==> c.dow == {0}
  {
    ScanFields(hour, f);
    assert Itoa(0) == "0" && Itoa(1) == "1";
    if f == Monthly { NumberField(1, 1, 31, c.dom); }
    if f == Weekly {
      forall v ensures v in c.dow <==> v == 0 {
        NumberHas(0, 0, 7, v);
        NumberHas(0, 0, 7, 7);
      }
    }
  }

  lemma FiresWhenDue(c: Expr, hour: nat, f: Frequency)
    requires c.min == {0} && c.hour == {hour} && forall v :: v in c.mon <==> 1 <= v <= 12
    requires c.domAny == (f != Monthly) && c.dowAny == (f != Weekly)
    requires (f == Monthly ==> c.dom == {1}) && (f == Weekly ==> c.dow == {0})
    ensures forall t: Minute | t.Valid() :: Matches(c, t) <==> Due(f, hour, t)
  {
  }

  /** The formatted expression fires exactly when a scan is due, and in time. */
  lemma ScanCron(hour: nat, f: Frequency, c: Expr)
    requires hour < 24 && Compiles(ScanText(hour, f), c)
    ensures AlwaysFires(c)
    ensures forall t: Minute | t.Valid() :: Matches(c, t) <==> Due(f, hour, t)
  {
    ScanTimes(hour, f, c);
    ScanDays(hour, f, c);
    if f == Monthly { assert 1 in c.mon && 1 in c.dom && EveryYear(1, 1); }
    FiresWhenDue(c, hour, f);
  }

  lemma ScanParses(hour: nat, f: Frequency)
    requires hour < 24
    ensures Parses(ScanText(hour, f))
  {
    ScanFields(hour, f);
    var fs := Fields(ScanText(hour, f));
    assert fs[2] == DayWords(f)[0] && fs[3] == DayWords(f)[1] && fs[4] == DayWords(f)[2];
    assert Itoa(0) == "0" && Itoa(1) == "1";
    StarOk(1, 12);
    StarOk(1, 31);
    StarOk(0, 7);
    NumberHas(0, 0, 59, 0);
    NumberHas(hour, 0, 23, 0);
    NumberHas(1, 1, 31, 0);
    NumberHas(0, 0, 7, 0);
  }

  // ------------------------------------------------------------------ the times

  /** NextRun: the next firing, a year on without one, a day on for a text
      that does not parse. The ghosts are the expression and what Next made of it. */
  method NextRun(text: string, after: Minute) returns (r: Minute, ghost c: Option<Expr>, ghost n: Option<Minute>)
    requires after.Valid()
    ensures r.Valid() && (c.Some? <==> Parses(text))
    ensures c.None? ==> r == AddDays(after, 1)
    ensures c.Some? ==>
      && Compiles(text, c.value) && WellFormed(c.value) && FirstFiring(c.value, after, Horizon(after), n)
      && FirstDue(text, after, Horizon(after), n)
      && r == if n.Some? then n.value else AYearLater(after)
  {
    n := None;
    var parsed := ParseCron(text);
    c := parsed;
    if parsed.None? {
      r := AddDays(after, 1);
    } else {
      var next := Next(parsed.value, after);
      n := next;
      NextAsWritten(text, parsed.value, after, Horizon(after), next);
      r := if next.Some? then next.value else AYearLater(after);
    }
  }

  /** `r` is the first scan due after `t`. */
  ghost predicate NextDue(f: Frequency, hour: nat, t: Minute, r: Minute) {
    && r.Valid() && Due(f, hour, r) && t.Abs() < r.Abs()
    && forall v: Minute | v.Valid() && t.Abs() < v.Abs() < r.Abs() :: !Due(f, hour, v)
  }

  /** SecurityNextRun: never one of NextRun's stand-ins, at a valid hour. */
  method SecurityNextRun(sec: Security, chosen: string, after: Minute) returns (r: Minute)
    requires after.Valid()
    ensures r.Valid()
    ensures sec.hour < 24 ==> NextDue(FrequencyOf(sec, chosen), sec.hour, after, r)
  {
    var f := FrequencyOf(sec, chosen);
    ghost var c, n;
    r, c, n := NextRun(ScanText(sec.hour, f), after);
    if sec.hour < 24 {
      ScanParses(sec.hour, f);
      ScanCron(sec.hour, f, c.value);
      var u := FiresInTime(c.value, after);
    }
  }

  // -------------------------------------------------------------------- cadence

  /** Two scans due at the same hour are whole days apart. */
  lemma DueApart(f: Frequency, hour: nat, r: Minute, v: Minute)
    requires hour < 24 && r.Valid() && v.Valid() && Due(f, hour, r) && Due(f, hour, v) && r.Abs() < v.Abs()
    ensures v.Abs() - r.Abs() == 1440 * (v.Day() - r.Day()) && r.Day() < v.Day()
  {
  }

  /** Daily scans run every 24 hours. */
  lemma DailyCadence(hour: nat, r: Minute, r2: Minute)
    requires hour < 24 && r.Valid() && Due(Daily, hour, r) && NextDue(Daily, hour, r, r2)
    ensures r2.Abs() == r.Abs() + 1440
  {
    DueApart(Daily, hour, r, r2);
    var tomorrow := AddDays(r, 1);
    assert Due(Daily, hour, tomorrow);
    assert tomorrow.Abs() == r.Abs() + 1440;
  }

  lemma SameWeekday(a: int, b: int)
    requires WeekdayOf(a) == WeekdayOf(b) && a < b
    ensures a + 7 <= b
  {
  }

  lemma WeekdayRepeats(a: int)
    ensures WeekdayOf(a + 7) == WeekdayOf(a)
  {
  }

  /** Weekly ones every seven days, on a Sunday. */
  lemma WeeklyCadence(hour: nat, r: Minute, r2: Minute)
    requires hour < 24 && r.Valid() && Due(Weekly, hour, r) && NextDue(Weekly, hour, r, r2)
    ensures r2.Abs() == r.Abs() + 7 * 1440 && r2.Weekday() == 0
  {
    var nextWeek := AddDays(r, 7);
    assert Due(Weekly, hour, nextWeek) by { WeekdayRepeats(r.Day()); }
    assert r2.Abs() <= nextWeek.Abs();
    assert r2.Day() >= r.Day() + 7 by {
      DueApart(Weekly, hour, r, r2);
      SameWeekday(r.Day(), r2.Day());
    }
  }

  /** Monthly ones on the 1st of each month in turn. */
  lemma MonthlyCadence(hour: nat, r: Minute, r2: Minute)
    requires hour < 24 && r.Valid() && Due(Monthly, hour, r) && NextDue(Monthly, hour, r, r2)
    ensures r2 == if r.month < 12 then r.(month := r.month + 1) else r.(year := r.year + 1, month := 1)
  {
    var next := if r.month < 12 then r.(month := r.month + 1) else r.(year := r.year + 1, month := 1);
    DueApart(Monthly, hour, r, r2);
    DatesOrdered(r, next);
    assert Due(Monthly, hour, next) && next.Valid();
    assert r2.Abs() <= next.Abs();
    if r2.Abs() == next.Abs() {
      OneMinute(r2, next);
    } else {
      BetweenFirsts(r, r2, next);
      assert false;
    }
  }

  /** No 1st of a month lies between two in succession. */
  lemma BetweenFirsts(r: Minute, v: Minute, next: Minute)
    requires r.Valid() && v.Valid() && next.Valid() && r.day == 1 && v.day == 1
    requires next == if r.month < 12 then r.(month := r.month + 1) else r.(year := r.year + 1, month := 1)
    ensures v.Day() <= r.Day() || next.Day() <= v.Day()
  {
    if v.year < r.year || (v.year == r.year && v.month < r.month) {
      DatesOrdered(v, r);
    } else if next.year < v.year || (next.year == v.year && next.month < v.month) {
      DatesOrdered(next, v);
    }
  }
}
