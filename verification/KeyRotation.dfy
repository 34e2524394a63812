/** cmd/gitbayd/secrets.go: rotating the key that seals stored secrets, while
    the daemon goes on sealing with it and other rotations wait or die.

    A value is sealed under one key and opens under no other; the daemon sees
    the key file as it is. */
module KeyRotation {
  import opened Text

  datatype Key = Key(id: string, secret: seq<nat>)

  /** A value never sealed is stored in clear. */
  datatype Value = Clear(plain: string) | Sealed(key: Key, plain: string)

  type Rows = map<nat, Value>

  /** How far the process holding <path>.lock has come. */
  datatype Phase = Locked | Read(keys: seq<Key>) | Added(next: Key) | Resealed(next: Key) | Checked(next: Key)

  datatype Lock = Free | Held(proc: nat, phase: Phase)

  /** `tx` is the daemon's open write transaction: the rows it will leave. */
  datatype State = State(file: seq<Key>, rows: Rows, tx: Option<Rows>, lock: Lock)

  // ----------------------------------------------------------------- keys and values

  /** Keyring.Open. */
  function Open(file: seq<Key>, v: Value): Option<string> {
    match v
    case Clear(plain) => Some(plain)
    case Sealed(key, plain) => if key in file then Some(plain) else None
  }

  function Current(file: seq<Key>): Key
    requires file != []
  {
    file[|file|-1]
  }

  predicate DistinctIds(keys: seq<Key>) {
    forall i, j | 0 <= i < j < |keys| :: keys[i].id != keys[j].id
  }

  predicate Opens(file: seq<Key>, rows: Rows) {
    forall r <- rows :: Open(file, rows[r]).Some?
  }

  predicate Under(key: Key, rows: Rows) {
    forall r <- rows :: rows[r].Sealed? && rows[r].key == key
  }

  /** What was stored, whatever it is sealed under. */
  function Contents(rows: Rows): map<nat, string> {
    map r | r in rows :: rows[r].plain
  }

  /** ResealSecrets on one value: left alone when under the current key. */
  function ResealValue(cur: Key, v: Value): Value {
    if v.Sealed? && v.key == cur then v else Sealed(cur, v.plain)
  }

  function ResealRows(cur: Key, rows: Rows): Rows {
    map r | r in rows :: ResealValue(cur, rows[r])
  }

  // ------------------------------------------------------------------------- steps

  /** WriteKeys renames a new file over the old, then syncs the directory; a
      failure or a crash falls before the rename or after it. */
  datatype Outcome = Replaced | ReplacedUnsynced | NotReplaced

  datatype Event =
    // the daemon: one immediate transaction at a time, sealing inside it
    | Begin | Store(row: nat, plain: string) | Forget(row: nat) | Commit | Rollback
    // a process of `secrets init` or `secrets rotate`
    | Take(proc: nat)
    | Create(key: Key, outcome: Outcome)
    | ReadFile
    | Add(key: Key, outcome: Outcome)
    | Reseal(ok: bool)
    | Check(ok: bool)
    | Drop(outcome: Outcome)
    | Crash

  predicate OfHolder(e: Event) {
    e.Create? || e.ReadFile? || e.Add? || e.Reseal? || e.Check? || e.Drop? || e.Crash?
  }

  predicate Enabled(e: Event, s: State) {
    match e
    case Begin => s.tx.None? && s.file != []
    case Store(_, plain) => s.tx.Some? && s.file != [] && plain != ""
    case Forget(_) => s.tx.Some?
    case Commit => s.tx.Some?
    case Rollback => s.tx.Some?
    case Take(_) => s.lock.Free?
    case Create(_, _) => s.lock.Held? && s.lock.phase.Locked? && s.file == []
    case ReadFile => s.lock.Held? && s.lock.phase.Locked?
    case Add(_, _) => s.lock.Held? && s.lock.phase.Read?
    case Reseal(ok) => s.lock.Held? && s.lock.phase.Added? && (ok ==> s.tx.None? && s.file != [] && Opens(s.file, s.rows))
    case Check(ok) => s.lock.Held? && s.lock.phase.Resealed? && (ok ==> Under(s.lock.phase.next, s.rows))
    case Drop(_) => s.lock.Held? && s.lock.phase.Checked?
    case Crash => s.lock.Held?
  }

  /** WriteKeys: what the file is afterwards, and whether it said it worked. */
  function WriteKeys(file: seq<Key>, keys: seq<Key>, outcome: Outcome): (seq<Key>, bool) {
    if keys == [] || !DistinctIds(keys) || outcome.NotReplaced? then (file, false)
    else (keys, outcome.Replaced?)
  }

  function At(s: State, phase: Phase): State
    requires s.lock.Held?
  {
    s.(lock := Held(s.lock.proc, phase))
  }

  /** An error or a crash closes the lock file. */
  function Released(s: State): State { s.(lock := Free) }

  function Apply(e: Event, s: State): State
    requires Enabled(e, s)
  {
    match e
    case Begin => s.(tx := Some(s.rows))
    case Store(row, plain) => s.(tx := Some(s.tx.value[row := Sealed(Current(s.file), plain)]))
    case Forget(row) => s.(tx := Some(s.tx.value - {row}))
    case Commit => s.(rows := s.tx.value, tx := None)
    case Rollback => s.(tx := None)
    case Take(p) => s.(lock := Held(p, Locked))
    case Create(key, outcome) => Released(s.(file := WriteKeys(s.file, [key], outcome).0))
    case ReadFile => if s.file == [] then Released(s) else At(s, Read(s.file))
    case Add(next, outcome) =>
      var (file, ok) := WriteKeys(s.file, s.lock.phase.keys + [next], outcome);
      if ok then At(s, Added(next)).(file := file) else Released(s).(file := file)
    case Reseal(ok) =>
      if ok then At(s, Resealed(s.lock.phase.next)).(rows := ResealRows(Current(s.file), s.rows)) else Released(s)
    case Check(ok) => if ok then At(s, Checked(s.lock.phase.next)) else Released(s)
    case Drop(outcome) => Released(s.(file := WriteKeys(s.file, [s.lock.phase.next], outcome).0))
    case Crash => Released(s)
  }

  // -------------------------------------------------------------------- the invariant

  /** Every value opens, stored or about to be; and past the reseal every one
      is under the new key, which the daemon seals with. */
  ghost predicate Safe(s: State) {
    && DistinctIds(s.file)
    && Opens(s.file, s.rows)
    && (s.tx.Some? ==> Opens(s.file, s.tx.value))
    && (s.lock.Held? ==> PhaseSafe(s, s.lock.phase))
  }

  ghost predicate PhaseSafe(s: State, phase: Phase) {
    match phase
    case Locked => true
    case Read(keys) => keys == s.file != []
    case Added(next) => s.file != [] && Current(s.file) == next
    case Resealed(next) => NewKeyOnly(s, next)
    case Checked(next) => NewKeyOnly(s, next)
  }

  ghost predicate NewKeyOnly(s: State, next: Key) {
    && s.file != [] && Current(s.file) == next
    && Under(next, s.rows) && (s.tx.Some? ==> Under(next, s.tx.value))
  }

  lemma MoreKeysOpen(file: seq<Key>, next: Key, rows: Rows)
    requires Opens(file, rows)
    ensures Opens(file + [next], rows)
  {
    forall r <- rows ensures Open(file + [next], rows[r]).Some? { assert Open(file, rows[r]).Some?; }
  }

  lemma NewKeyOpens(next: Key, rows: Rows)
    requires Under(next, rows)
    ensures Opens([next], rows)
  {
  }

  lemma StepSafe(e: Event, s: State)
    requires Safe(s) && Enabled(e, s)
    ensures Safe(Apply(e, s))
  {
    match e {
      case Add(next, outcome) =>
        MoreKeysOpen(s.file, next, s.rows);
        if s.tx.Some? { MoreKeysOpen(s.file, next, s.tx.value); }
      case Create(key, outcome) =>
        MoreKeysOpen(s.file, key, s.rows);
        if s.tx.Some? { MoreKeysOpen(s.file, key, s.tx.value); }
      case Drop(outcome) =>
        NewKeyOpens(s.lock.phase.next, s.rows);
        if s.tx.Some? { NewKeyOpens(s.lock.phase.next, s.tx.value); }
      case Begin =>
      case Store(row, plain) =>
      case Forget(row) =>
      case Commit =>
      case Rollback =>
      case Take(p) =>
      case ReadFile =>
      case Reseal(ok) =>
      case Check(ok) =>
      case Crash =>
    }
  }

  /** Only the daemon changes what is stored. */
  lemma RotationKeepsContents(e: Event, s: State)
    requires Enabled(e, s) && !e.Commit?
    ensures Contents(Apply(e, s).rows) == Contents(s.rows)
  {
  }

  // ------------------------------------------------------------------------ whole runs

  ghost predicate Step(s: State, s': State) {
    exists e :: Enabled(e, s) && s' == Apply(e, s)
  }

  ghost predicate Run(tr: seq<State>) {
    |tr| > 0 &&
    if |tr| == 1 then Safe(tr[0]) else Step(tr[|tr|-2], tr[|tr|-1]) && Run(tr[..|tr|-1])
  }

  /** Whatever rotates, waits, dies and writes, in whatever order: every
      stored value opens at every moment, as what was stored. */
  lemma {:induction false} AlwaysOpens(tr: seq<State>, i: nat, row: nat)
    requires Run(tr) && i < |tr|
    ensures Safe(tr[i])
    ensures row in tr[i].rows ==> Open(tr[i].file, tr[i].rows[row]) == Some(Contents(tr[i].rows)[row])
  {
    if i < |tr| - 1 {
      AlwaysOpens(tr[..|tr|-1], i, row);
    } else if i > 0 {
      AlwaysOpens(tr[..|tr|-1], i - 1, row);
      var s := tr[i-1];
      var e :| Enabled(e, s) && tr[i] == Apply(e, s);
      StepSafe(e, s);
    }
  }

  /** One key left, and everything under it. */
  ghost predicate Rotated(s: State, next: Key) {
    s.file == [next] && Under(next, s.rows) && (s.tx.Some? ==> Under(next, s.tx.value))
  }

  /** A rotation that writes its last file has rotated everything. */
  lemma DropRotates(s: State, outcome: Outcome)
    requires Safe(s) && Enabled(Drop(outcome), s) && !outcome.NotReplaced?
    ensures Rotated(Apply(Drop(outcome), s), s.lock.phase.next)
  {
  }

  /** Neither the reseal nor the check after it ever meets a value it must
      refuse. */
  lemma NothingRefused(s: State)
    requires Safe(s) && s.lock.Held?
    ensures s.lock.phase.Added? && s.tx.None? ==> Enabled(Reseal(true), s)
    ensures s.lock.phase.Resealed? ==> Enabled(Check(true), s)
  {
  }

  lemma OneMore(tr: seq<State>, e: Event) returns (tr': seq<State>)
    requires Run(tr) && Safe(tr[|tr|-1]) && Enabled(e, tr[|tr|-1])
    ensures Run(tr') && tr <= tr' && |tr'| == |tr| + 1 && tr'[|tr|] == Apply(e, tr[|tr|-1])
    ensures Safe(tr'[|tr|])
  {
    var s := tr[|tr|-1];
    StepSafe(e, s);
    tr' := tr + [Apply(e, s)];
    assert tr'[..|tr'|-1] == tr && Step(s, Apply(e, s));
  }

  lemma AddAgain(s: State, proc: nat, next: Key) returns (tr: seq<State>)
    requires Safe(s) && s.lock.Free? && s.tx.None? && s.file != []
    requires forall k <- s.file :: k.id != next.id
    ensures Run(tr) && tr[0] == s
    ensures tr[|tr|-1] == State(s.file + [next], s.rows, None, Held(proc, Added(next))) && Safe(tr[|tr|-1])
  {
    tr := [s];
    tr := OneMore(tr, Take(proc));
    tr := OneMore(tr, ReadFile);
    assert DistinctIds(s.file + [next]);
    tr := OneMore(tr, Add(next, Replaced));
  }

  lemma FinishAgain(s: State, proc: nat, next: Key) returns (tr: seq<State>)
    requires Safe(s) && s.lock.Free? && s.tx.None? && s.file != []
    requires forall k <- s.file :: k.id != next.id
    ensures Run(tr) && tr[0] == s
    ensures Rotated(tr[|tr|-1], next) && Contents(tr[|tr|-1].rows) == Contents(s.rows)
  {
    tr := AddAgain(s, proc, next);
    NothingRefused(tr[|tr|-1]);
    RotationKeepsContents(Reseal(true), tr[|tr|-1]);
    tr := OneMore(tr, Reseal(true));
    NothingRefused(tr[|tr|-1]);
    tr := OneMore(tr, Check(true));
    DropRotates(tr[|tr|-1], Replaced);
    tr := OneMore(tr, Drop(Replaced));
  }

  /** Interrupted anywhere, running it again finishes the job, without losing
      or changing a value. */
  lemma RunAgain(s: State, proc: nat, next: Key)
    requires Safe(s) && s.lock.Free? && s.tx.None? && s.file != []
    requires forall k <- s.file :: k.id != next.id
    ensures exists tr: seq<State> ::
      Run(tr) && tr[0] == s && Rotated(tr[|tr|-1], next) && Contents(tr[|tr|-1].rows) == Contents(s.rows)
  {
    var tr := FinishAgain(s, proc, next);
  }

  // ------------------------------------------------------------------- one rotation

  // -------------------------------------------------------- what the steps are for

  /** Why the reseal and the check come before the last write: the new key alone
      opens what is stored exactly when nothing is sealed under another. */
  lemma DropNeedsReseal(next: Key, rows: Rows)
    ensures Opens([next], rows) <==> forall r <- rows :: rows[r].Clear? || rows[r].key == next
  {
    forall r | r in rows ensures Open([next], rows[r]).Some? <==> rows[r].Clear? || rows[r].key == next {
      assert rows[r].Sealed? ==> (rows[r].key in [next] <==> rows[r].key == next);
    }
  }

  /** What the daemon stores and commits opens as what it stored, and the rest of the
      rows are as they were; what it rolls back is not stored. */
  lemma StoredOpens(s: State, row: nat, plain: string)
    requires Enabled(Begin, s) && plain != ""
    ensures var began := Apply(Begin, s);
      Enabled(Store(row, plain), began)
      && var stored := Apply(Store(row, plain), began);
         && Enabled(Commit, stored) && Enabled(Rollback, stored)
         && var done := Apply(Commit, stored);
            && row in done.rows && Open(done.file, done.rows[row]) == Some(plain)
            && done.rows - {row} == s.rows - {row} && done.tx == None
            && Apply(Rollback, stored) == s
  {}

  /** init, where there is no key file, leaves the one key, or none if the write failed. */
  lemma InitCreates(s: State, key: Key, outcome: Outcome)
    requires Enabled(Create(key, outcome), s)
    ensures var t := Apply(Create(key, outcome), s);
      t.file == (if outcome.NotReplaced? then [] else [key]) && t.lock == Free && t.rows == s.rows
  {}

  class Host {
    var s: State
    ghost var tr: seq<State>

    ghost predicate Valid()
      reads this
    {
      Run(tr) && tr[|tr|-1] == s && Safe(s)
    }

    predicate Holds(me: nat)
      reads this
    {
      s.lock.Held? && s.lock.proc == me
    }

    method Do(e: Event)
      requires Valid() && Enabled(e, s)
      modifies this
      ensures Valid() && s == Apply(e, old(s)) && old(tr) <= tr
    {
      StepSafe(e, s);
      assert Step(s, Apply(e, s));
      s := Apply(e, s);
      ghost var before := tr;
      tr := tr + [s];
      assert tr[..|tr|-1] == before;
    }

    /** Whatever the daemon and the other processes do meanwhile. */
    method Interfere(me: nat)
      requires Valid()
      modifies this
      ensures Valid() && old(tr) <= tr
      ensures old(Holds(me)) ==> s.lock == old(s.lock)
      ensures !old(Holds(me)) ==> !Holds(me)
    {
      var n: nat := *;
      while n > 0
        invariant Valid() && old(tr) <= tr
        invariant if old(Holds(me)) then s.lock == old(s.lock) else !Holds(me)
      {
        var e: Event := *;
        if Enabled(e, s) && !(OfHolder(e) && Holds(me)) && e != Take(me) {
          Do(e);
        }
        n := n - 1;
      }
    }

    /** Between two steps: the others go on, and this process may die. */
    method Pause(me: nat) returns (alive: bool)
      requires Valid() && Holds(me)
      modifies this
      ensures Valid() && old(tr) <= tr
      ensures if alive then s.lock == old(s.lock) else !Holds(me)
    {
      Interfere(me);
      alive := *;
      if !alive { Do(Crash); }
    }

    /** lockKeyFile, then ReadKeys and the first WriteKeys. */
    method AddKey(me: nat) returns (next: Key, ok: bool)
      requires Valid() && !Holds(me)
      modifies this
      ensures Valid() && old(tr) <= tr
      ensures if ok then s.lock == Held(me, Added(next)) else !Holds(me)
    {
      next := *;
      Interfere(me);
      if s.lock.Held? { return next, false; }
      Do(Take(me));
      ok := Pause(me);
      if !ok { return; }
      Do(ReadFile);
      if s.lock.Free? { return next, false; }
      ok := Pause(me);
      if !ok { return; }
      var o: Outcome := *;
      Do(Add(next, o));
      ok := s.lock.Held?;
    }

    /** ResealSecrets and the check of SecretKeyUse: either may fail on its own account. */
    method ResealAll(me: nat, next: Key) returns (ok: bool)
      requires Valid() && s.lock == Held(me, Added(next))
      modifies this
      ensures Valid() && old(tr) <= tr
      ensures if ok then s.lock == Held(me, Checked(next)) else !Holds(me)
    {
      ok := Pause(me);
      if !ok { return; }
      var failed: bool := *;
      NothingRefused(s);
      Do(Reseal(!failed && s.tx.None?));
      if s.lock.Free? { return false; }
      ok := Pause(me);
      if !ok { return; }
      failed := *;
      NothingRefused(s);
      Do(Check(!failed));
      ok := s.lock.Held?;
    }

    /** rotateSecrets: said to have worked, it has left one key, which seals
        every value; and it has let go of the lock in any case. */
    method RotateSecrets(me: nat) returns (ok: bool, next: Key)
      requires Valid() && !Holds(me)
      modifies this
      ensures Valid() && old(tr) <= tr && !Holds(me)
      ensures ok ==> Rotated(s, next)
    {
      next, ok := AddKey(me);
      if !ok { return; }
      ok := ResealAll(me, next);
      if !ok { return; }
      ok := Pause(me);
      if !ok { return; }
      var o: Outcome := *;
      if !o.NotReplaced? { DropRotates(s, o); }
      Do(Drop(o));
      ok := o.Replaced?;
    }
  }
}
