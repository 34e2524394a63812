/** cmd/gitbayd/backup.go, internal/backuplock: one repository archived while
    pushes, ref deletions, pack-refs and prunes go on around the backup.

    Every read the backup makes is one atomic file or directory read; between
    any two of them `Interfere` lets the rest of the server take any number of
    steps. `tr` records every state the repository has been through, so the
    claims of `RunBackup` are about whole interleavings. */
module Backup {
  import opened Text

  /** A file's place under refs/ or objects/, one component per element. */
  type Path = seq<string>

  datatype Head = Symbolic(branch: Path) | Detached(oid: Path)

  /** A bare repository. `objects` maps each object file to the objects it
      links to; `dying` holds the refs a deletion is half way through. */
  datatype Repo = Repo(
    head: Head,
    loose: map<Path, Path>,
    packed: map<Path, Path>,
    objects: map<Path, set<Path>>,
    dying: set<Path>)

  /** Git's reading of a ref: the loose file first, then packed-refs. */
  function ValueOf(s: Repo, r: Path): Option<Path> {
    if r in s.loose then Some(s.loose[r])
    else if r in s.packed then Some(s.packed[r])
    else None
  }

  ghost predicate Exists(s: Repo, r: Path) {
    r !in s.dying && ValueOf(s, r).Some?
  }

  /** Links stay inside the store and every visible ref names an object. A
      packed entry hidden by a loose ref may be stale and name none. */
  ghost predicate WellFormed(s: Repo) {
    && [] !in s.loose && [] !in s.packed && [] !in s.objects
    && (forall o <- s.objects :: s.objects[o] <= s.objects.Keys)
    && (forall r <- s.loose :: s.loose[r] in s.objects)
    && (forall r <- s.packed :: r in s.loose || s.packed[r] in s.objects)
    && (s.head.Detached? ==> s.head.oid in s.objects)
    && (forall r <- s.dying :: r in s.packed ==> r in s.loose && s.packed[r] == s.loose[r])
  }

  /** What the rest of the server does to the repository, one atomic effect each. */
  datatype Event =
    | Idle
    | WriteObjects(added: map<Path, set<Path>>)
    | UpdateRef(ref: Path, oid: Path)
    | SetHead(head: Head)
    | WritePackedRefs(refs: set<Path>)
    | PruneLoose(ref: Path)
    | BeginDelete(ref: Path)
    | EndDelete(ref: Path)
    | PruneObjects(keep: set<Path>)

  predicate Enabled(e: Event, s: Repo, locked: bool, depth: nat) {
    match e
    case Idle => true
    case WriteObjects(added) =>
      && added.Keys !! s.objects.Keys
      && (forall o <- added :: 0 < |o| <= depth && added[o] <= s.objects.Keys + added.Keys)
    case UpdateRef(r, o) => r !in s.dying && o in s.objects && 0 < |r| <= depth
    case SetHead(h) => h.Detached? ==> h.oid in s.objects
    case WritePackedRefs(refs) => refs <= s.loose.Keys
    case PruneLoose(r) => r !in s.dying && r in s.loose && r in s.packed && s.packed[r] == s.loose[r]
    case BeginDelete(r) => r !in s.dying
    case EndDelete(r) => r in s.dying
    case PruneObjects(keep) =>
      // TryShared refuses while the backup holds the lock.
      && !locked
      && (forall o <- s.objects :: o in keep ==> s.objects[o] <= keep)
      && (forall r <- s.loose :: s.loose[r] in keep)
      && (forall r <- s.packed :: r in s.loose || s.packed[r] in keep)
      && (s.head.Detached? ==> s.head.oid in keep)
  }

  function Apply(e: Event, s: Repo): Repo {
    match e
    case Idle => s
    case WriteObjects(added) => s.(objects := s.objects + added)
    case UpdateRef(r, o) => s.(loose := s.loose[r := o])
    case SetHead(h) => s.(head := h)
    case WritePackedRefs(refs) =>
      s.(packed := s.packed + map r | r in refs && r in s.loose :: s.loose[r])
    case PruneLoose(r) => s.(loose := s.loose - {r})
    case BeginDelete(r) => s.(packed := s.packed - {r}, dying := s.dying + {r})
    case EndDelete(r) => s.(loose := s.loose - {r}, dying := s.dying - {r})
    case PruneObjects(keep) => s.(objects := map o | o in s.objects && o in keep :: s.objects[o])
  }

  ghost predicate Step(s: Repo, t: Repo, locked: bool, depth: nat) {
    exists e :: Enabled(e, s, locked, depth) && t == Apply(e, s)
  }

  lemma EventKeepsWellFormed(e: Event, s: Repo, locked: bool, depth: nat)
    requires WellFormed(s) && Enabled(e, s, locked, depth)
    ensures WellFormed(Apply(e, s)) && Step(s, Apply(e, s), locked, depth)
  {
  }

  /** The repository's states, in order, while the backup holds its lock. */
  ghost predicate LockedRun(tr: seq<Repo>, depth: nat) {
    |tr| > 0 ==>
      && WellFormed(tr[|tr|-1])
      && (|tr| > 1 ==> Step(tr[|tr|-2], tr[|tr|-1], true, depth))
      && LockedRun(tr[..|tr|-1], depth)
  }

  lemma {:induction false} StateAt(tr: seq<Repo>, depth: nat, j: nat)
    requires LockedRun(tr, depth) && j < |tr|
    ensures WellFormed(tr[j])
    ensures 0 < j ==> Step(tr[j-1], tr[j], true, depth)
  {
    if j < |tr| - 1 { StateAt(tr[..|tr|-1], depth, j); }
  }

  lemma {:induction false} ObjectsOnlyGrow(tr: seq<Repo>, depth: nat, i: nat, j: nat)
    requires LockedRun(tr, depth) && i <= j < |tr|
    ensures forall o <- tr[i].objects :: o in tr[j].objects && tr[j].objects[o] == tr[i].objects[o]
    decreases j - i
  {
    if i < j {
      ObjectsOnlyGrow(tr, depth, i, j - 1);
      StateAt(tr, depth, j);
    }
  }

  /** One step writes to packed-refs only a value the ref has, and takes an
      entry out only with the ref. */
  lemma PackedStep(s: Repo, t: Repo, depth: nat, r: Path)
    requires WellFormed(s) && Step(s, t, true, depth)
    ensures r in t.packed ==> (r in s.packed && s.packed[r] == t.packed[r]) || ValueOf(s, r) == Some(t.packed[r])
    ensures r in s.packed && r !in t.dying ==> r in t.packed
  {
  }

  /** A ref seen without a loose file at `i`: whatever packed-refs says of it
      later is a value it held meanwhile ... */
  lemma {:induction false} PackedWasHeld(tr: seq<Repo>, depth: nat, r: Path, i: nat, j: nat) returns (k: nat)
    requires LockedRun(tr, depth) && i <= j < |tr|
    requires r !in tr[i].loose && r in tr[j].packed
    ensures i <= k <= j && ValueOf(tr[k], r) == Some(tr[j].packed[r])
    decreases j - i
  {
    k := j;
    if i < j {
      StateAt(tr, depth, j);
      StateAt(tr, depth, j - 1);
      PackedStep(tr[j-1], tr[j], depth, r);
      k := j - 1;
      if ValueOf(tr[k], r) != Some(tr[j].packed[r]) {
        k := PackedWasHeld(tr, depth, r, i, k);
      }
    }
  }

  /** ... and it is in packed-refs unless the ref was deleted. These two are
      why loose refs are read before packed-refs. */
  lemma {:induction false} PackedStays(tr: seq<Repo>, depth: nat, r: Path, i: nat, j: nat)
    requires LockedRun(tr, depth) && i <= j < |tr|
    requires r !in tr[i].loose
    requires forall k :: i <= k <= j ==> Exists(tr[k], r)
    ensures r in tr[j].packed
    decreases j - i
  {
    assert Exists(tr[j], r);
    if i < j {
      PackedStays(tr, depth, r, i, j - 1);
      StateAt(tr, depth, j);
      StateAt(tr, depth, j - 1);
      PackedStep(tr[j-1], tr[j], depth, r);
    }
  }

  /** A walk along links, newest first. */
  ghost predicate IsPath(objects: map<Path, set<Path>>, p: seq<Path>) {
    && |p| > 0
    && (forall i :: 0 <= i < |p| ==> p[i] in objects)
    && (forall i :: 0 < i < |p| ==> p[i] in objects[p[i-1]])
  }

  lemma {:induction false} PathStays(early: map<Path, set<Path>>, late: map<Path, set<Path>>, p: seq<Path>)
    requires forall o <- early :: early[o] <= early.Keys && o in late && late[o] == early[o]
    requires IsPath(late, p) && p[0] in early
    ensures forall i :: 0 <= i < |p| ==> p[i] in early
  {
    if |p| > 1 {
      var q := p[..|p|-1];
      assert IsPath(late, q) by {
        forall i | 0 < i < |q| ensures q[i] in late[q[i-1]] { assert p[i] in late[p[i-1]]; }
      }
      PathStays(early, late, q);
      assert q[|q|-1] in early && p[|p|-1] in late[p[|p|-2]];
      forall i | 0 <= i < |p| ensures p[i] in early {
        if i < |q| { assert p[i] == q[i]; }
      }
    }
  }

  // ---------------------------------------------------------------- the archive

  datatype Kind = Refs | Objects

  datatype Member =
    | HeadFile(head: Head)
    | RefFile(path: Path, oid: Path)
    | PackedRefs(refs: map<Path, Path>)
    | ObjectFile(path: Path, links: set<Path>)

  /** Extraction: members land in archive order, a later one over an earlier. */
  function LooseOf(ms: seq<Member>): map<Path, Path> {
    if ms == [] then map[] else
      var m := ms[|ms|-1];
      var rest := LooseOf(ms[..|ms|-1]);
      if m.RefFile? then rest[m.path := m.oid] else rest
  }

  function PackedOf(ms: seq<Member>): map<Path, Path> {
    if ms == [] then map[] else
      var m := ms[|ms|-1];
      if m.PackedRefs? then m.refs else PackedOf(ms[..|ms|-1])
  }

  function ObjectsOf(ms: seq<Member>): map<Path, set<Path>> {
    if ms == [] then map[] else
      var m := ms[|ms|-1];
      var rest := ObjectsOf(ms[..|ms|-1]);
      if m.ObjectFile? then rest[m.path := m.links] else rest
  }

  function HeadOf(ms: seq<Member>): Option<Head> {
    if ms == [] then None else
      var m := ms[|ms|-1];
      if m.HeadFile? then Some(m.head) else HeadOf(ms[..|ms|-1])
  }

  /** What a restored repository reads a ref as. */
  function Restored(ms: seq<Member>, r: Path): Option<Path> {
    if r in LooseOf(ms) then Some(LooseOf(ms)[r])
    else if r in PackedOf(ms) then Some(PackedOf(ms)[r])
    else None
  }

  predicate Has(s: Repo, kind: Kind, r: Path) {
    match kind
    case Refs => r in s.loose
    case Objects => r in s.objects
  }

  function Files(s: Repo, kind: Kind): set<Path> {
    match kind
    case Refs => s.loose.Keys
    case Objects => s.objects.Keys
  }

  function MemberFor(s: Repo, kind: Kind, r: Path): Member
    requires Has(s, kind, r)
  {
    match kind
    case Refs => RefFile(r, s.loose[r])
    case Objects => ObjectFile(r, s.objects[r])
  }

  predicate Under(d: Path, r: Path) {
    |d| < |r| && r[..|d|] == d
  }

  ghost predicate Archived(ms: seq<Member>, kind: Kind, r: Path) {
    match kind
    case Refs => r in LooseOf(ms)
    case Objects => r in ObjectsOf(ms)
  }

  /** The file `r` was absent at some moment from `from` on. */
  ghost predicate Missed(tr: seq<Repo>, kind: Kind, r: Path, from: nat) {
    exists i :: from <= i < |tr| && !Has(tr[i], kind, r)
  }

  /** What the walk promises of a file: in the archive, or absent at a moment of the walk. */
  ghost predicate Settled(ms: seq<Member>, tr: seq<Repo>, kind: Kind, r: Path, from: nat) {
    Archived(ms, kind, r) || Missed(tr, kind, r, from)
  }

  lemma AllSettledLater(ms: seq<Member>, ms': seq<Member>, tr: seq<Repo>, tr': seq<Repo>, kind: Kind, d: Path, from: nat)
    requires AllSettled(ms, tr, kind, d, from) && tr <= tr'
    requires LooseOf(ms) == LooseOf(ms') && ObjectsOf(ms) == ObjectsOf(ms')
    ensures AllSettled(ms', tr', kind, d, 0)
  {
    forall r | Under(d, r) ensures Settled(ms', tr', kind, r, 0) {
      SettledLater(ms, ms', tr, tr', kind, r, from);
      assert Settled(ms', tr', kind, r, from);
    }
  }

  lemma SettledLater(ms: seq<Member>, ms': seq<Member>, tr: seq<Repo>, tr': seq<Repo>, kind: Kind, r: Path, from: nat)
    requires Settled(ms, tr, kind, r, from) && tr <= tr'
    requires Archived(ms, kind, r) ==> Archived(ms', kind, r)
    ensures Settled(ms', tr', kind, r, from)
  {
    if Missed(tr, kind, r, from) {
      var i :| from <= i < |tr| && !Has(tr[i], kind, r);
      assert tr'[i] == tr[i];
    }
  }

  /** The files of directory `d` under the entries `done` are settled. */
  ghost predicate EntriesSettled(ms: seq<Member>, tr: seq<Repo>, kind: Kind, d: Path, done: set<string>, from: nat) {
    forall r | Under(d, r) && r[|d|] in done :: Settled(ms, tr, kind, r, from)
  }

  lemma OneMoreEntry(ms: seq<Member>, ms': seq<Member>, tr: seq<Repo>, tr': seq<Repo>, kind: Kind,
                     d: Path, x: string, done: set<string>, from: nat, listed: nat)
    requires EntriesSettled(ms, tr, kind, d, done, from)
    requires Grown(ms, ms', tr, tr', kind) && from <= listed
    requires forall r | r == d + [x] || Under(d + [x], r) :: Settled(ms', tr', kind, r, listed)
    ensures EntriesSettled(ms', tr', kind, d, done + {x}, from)
  {
    forall r | Under(d, r) && r[|d|] in done + {x} ensures Settled(ms', tr', kind, r, from) {
      if r[|d|] in done {
        SettledLater(ms, ms', tr, tr', kind, r, from);
      } else {
        var c := d + [x];
        assert r[..|c|] == r[..|d|] + [r[|d|]] == c;
        assert r == c || Under(c, r) by {
          if |r| == |c| { assert r == r[..|c|]; }
        }
        assert Settled(ms', tr', kind, r, listed);
      }
    }
  }

  ghost predicate AllSettled(ms: seq<Member>, tr: seq<Repo>, kind: Kind, d: Path, from: nat) {
    forall r | Under(d, r) :: Settled(ms, tr, kind, r, from)
  }

  function EntriesOf(files: set<Path>, d: Path): set<string> {
    set r | r in files && Under(d, r) :: r[|d|]
  }

  lemma Unlisted(ms: seq<Member>, tr: seq<Repo>, kind: Kind, d: Path, from: nat, listed: nat)
    requires from <= listed < |tr|
    requires EntriesSettled(ms, tr, kind, d, EntriesOf(Files(tr[listed], kind), d), from)
    ensures AllSettled(ms, tr, kind, d, from)
  {
    forall r | Under(d, r) ensures Settled(ms, tr, kind, r, from) {
      if r[|d|] !in EntriesOf(Files(tr[listed], kind), d) {
        assert !Has(tr[listed], kind, r);
      }
    }
  }

  /** Time has passed and the walk has only added members of its kind. */
  ghost predicate Grown(ms: seq<Member>, ms': seq<Member>, tr: seq<Repo>, tr': seq<Repo>, kind: Kind) {
    && tr <= tr' && ms <= ms'
    && PackedOf(ms') == PackedOf(ms) && HeadOf(ms') == HeadOf(ms)
    && (kind == Refs ==> ObjectsOf(ms') == ObjectsOf(ms))
    && (kind == Objects ==> LooseOf(ms') == LooseOf(ms))
    && LooseOf(ms).Keys <= LooseOf(ms').Keys && ObjectsOf(ms).Keys <= ObjectsOf(ms').Keys
  }

  lemma GrownTwice(ms0: seq<Member>, ms1: seq<Member>, ms2: seq<Member>,
                   tr0: seq<Repo>, tr1: seq<Repo>, tr2: seq<Repo>, kind: Kind)
    requires Grown(ms0, ms1, tr0, tr1, kind) && Grown(ms1, ms2, tr1, tr2, kind)
    ensures Grown(ms0, ms2, tr0, tr2, kind)
  {
  }

  /** A member written by the walk holds what its file held at some moment. */
  ghost predicate Truthful(ms: seq<Member>, tr: seq<Repo>) {
    && (forall r <- LooseOf(ms) :: Had(tr, Refs, RefFile(r, LooseOf(ms)[r])))
    && (forall o <- ObjectsOf(ms) :: Had(tr, Objects, ObjectFile(o, ObjectsOf(ms)[o])))
  }

  ghost predicate Had(tr: seq<Repo>, kind: Kind, m: Member)
    requires m.RefFile? || m.ObjectFile?
  {
    exists i :: 0 <= i < |tr| && Has(tr[i], kind, m.path) && MemberFor(tr[i], kind, m.path) == m
  }

  lemma TruthfulLater(ms: seq<Member>, tr: seq<Repo>, tr': seq<Repo>)
    requires Truthful(ms, tr) && tr <= tr'
    ensures Truthful(ms, tr')
  {
    forall kind, m: Member | (m.RefFile? || m.ObjectFile?) && Had(tr, kind, m) ensures Had(tr', kind, m) {
      var i :| 0 <= i < |tr| && Has(tr[i], kind, m.path) && MemberFor(tr[i], kind, m.path) == m;
      assert tr'[i] == tr[i];
    }
  }

  lemma Appended(ms: seq<Member>, m: Member)
    ensures LooseOf(ms + [m]) == if m.RefFile? then LooseOf(ms)[m.path := m.oid] else LooseOf(ms)
    ensures ObjectsOf(ms + [m]) == if m.ObjectFile? then ObjectsOf(ms)[m.path := m.links] else ObjectsOf(ms)
    ensures PackedOf(ms + [m]) == if m.PackedRefs? then m.refs else PackedOf(ms)
    ensures HeadOf(ms + [m]) == if m.HeadFile? then Some(m.head) else HeadOf(ms)
  {
    assert (ms + [m])[..|ms + [m]| - 1] == ms;
  }

  /** HEAD and packed-refs are no loose refs and no objects. */
  lemma StillTruthful(ms: seq<Member>, m: Member, tr: seq<Repo>)
    requires Truthful(ms, tr) && (m.HeadFile? || m.PackedRefs?)
    ensures Truthful(ms + [m], tr)
    ensures LooseOf(ms + [m]) == LooseOf(ms) && ObjectsOf(ms + [m]) == ObjectsOf(ms)
    ensures PackedOf(ms + [m]) == if m.PackedRefs? then m.refs else PackedOf(ms)
    ensures HeadOf(ms + [m]) == if m.HeadFile? then Some(m.head) else HeadOf(ms)
  {
    Appended(ms, m);
  }

  // ------------------------------------------------- what a finished backup is

  ghost predicate Held(tr: seq<Repo>, r: Path, o: Path) {
    exists i :: 0 <= i < |tr| && ValueOf(tr[i], r) == Some(o)
  }

  ghost predicate ExistedThroughout(tr: seq<Repo>, r: Path) {
    forall i :: 0 <= i < |tr| ==> Exists(tr[i], r)
  }

  /** Every restored ref has a value it held during the backup, and so has HEAD. */
  ghost predicate RefsHeld(ms: seq<Member>, tr: seq<Repo>) {
    && (forall r | Restored(ms, r).Some? :: Held(tr, r, Restored(ms, r).value))
    && HeadOf(ms).Some?
    && (exists i :: 0 <= i < |tr| && tr[i].head == HeadOf(ms).value)
  }

  /** A ref that was there all along is restored. */
  ghost predicate RefsRestored(ms: seq<Member>, tr: seq<Repo>) {
    forall r | ExistedThroughout(tr, r) :: Restored(ms, r).Some?
  }

  /** Everything the live store reaches from `o` is archived, links and all. */
  ghost predicate ClosureArchived(ms: seq<Member>, live: map<Path, set<Path>>, o: Path) {
    && o in ObjectsOf(ms)
    && forall p | IsPath(live, p) && p[0] == o :: PathArchived(ms, live, p)
  }

  ghost predicate PathArchived(ms: seq<Member>, live: map<Path, set<Path>>, p: seq<Path>) {
    forall o <- p :: o in ObjectsOf(ms) && o in live && ObjectsOf(ms)[o] == live[o]
  }

  /** The promise of a completed backup whose lock was held through the states `tr`. */
  ghost predicate Consistent(ms: seq<Member>, tr: seq<Repo>) {
    && |tr| > 0
    && RefsHeld(ms, tr)
    && RefsRestored(ms, tr)
    && (forall r | Restored(ms, r).Some? :: ClosureArchived(ms, tr[|tr|-1].objects, Restored(ms, r).value))
    && (HeadOf(ms).value.Detached? ==> ClosureArchived(ms, tr[|tr|-1].objects, HeadOf(ms).value.oid))
  }

  lemma RefArchived(ms: seq<Member>, tr: seq<Repo>, depth: nat, r: Path)
    requires LockedRun(tr, depth) && Truthful(ms, tr) && |tr| > 0
    requires PackedOf(ms) == tr[|tr|-1].packed
    requires Settled(ms, tr, Refs, r, 0)
    ensures Restored(ms, r).Some? ==> Held(tr, r, Restored(ms, r).value)
    ensures ExistedThroughout(tr, r) ==> Restored(ms, r).Some?
  {
    if r in LooseOf(ms) {
      assert Had(tr, Refs, RefFile(r, LooseOf(ms)[r]));
      var i :| 0 <= i < |tr| && Has(tr[i], Refs, r) && MemberFor(tr[i], Refs, r) == RefFile(r, LooseOf(ms)[r]);
      assert ValueOf(tr[i], r) == Restored(ms, r);
    } else {
      var i :| 0 <= i < |tr| && !Has(tr[i], Refs, r);
      if r in tr[|tr|-1].packed {
        var k := PackedWasHeld(tr, depth, r, i, |tr| - 1);
        assert ValueOf(tr[k], r) == Restored(ms, r);
      }
      if ExistedThroughout(tr, r) {
        PackedStays(tr, depth, r, i, |tr| - 1);
      }
    }
  }

  lemma RefsDone(ms: seq<Member>, tr: seq<Repo>, depth: nat, h: nat)
    requires LockedRun(tr, depth) && Truthful(ms, tr) && h < |tr|
    requires PackedOf(ms) == tr[|tr|-1].packed && HeadOf(ms) == Some(tr[h].head)
    requires AllSettled(ms, tr, Refs, [], 0)
    ensures RefsHeld(ms, tr)
    ensures RefsRestored(ms, tr)
  {
    forall r
      ensures Restored(ms, r).Some? ==> Held(tr, r, Restored(ms, r).value)
      ensures ExistedThroughout(tr, r) ==> Restored(ms, r).Some?
    {
      if r == [] {
        StateAt(tr, depth, 0);
        assert !Has(tr[0], Refs, r);
      } else {
        assert Under([], r);
      }
      assert Settled(ms, tr, Refs, r, 0);
      RefArchived(ms, tr, depth, r);
    }
  }

  lemma RefsFinished(ms: seq<Member>, ms': seq<Member>, tr: seq<Repo>, tr': seq<Repo>, depth: nat, h: nat)
    requires LockedRun(tr', depth) && Truthful(ms', tr') && h < |tr| && tr <= tr'
    requires AllSettled(ms, tr, Refs, [], h)
    requires LooseOf(ms) == LooseOf(ms') && ObjectsOf(ms) == ObjectsOf(ms')
    requires PackedOf(ms') == tr'[|tr'|-1].packed && HeadOf(ms') == Some(tr[h].head)
    ensures RefsHeld(ms', tr') && RefsRestored(ms', tr')
  {
    AllSettledLater(ms, ms', tr, tr', Refs, [], h);
    RefsDone(ms', tr', depth, h);
  }

  lemma ArchivedWhole(ms: seq<Member>, tr: seq<Repo>, depth: nat, walk: nat, q: Path)
    requires LockedRun(tr, depth) && Truthful(ms, tr) && walk < |tr|
    requires AllSettled(ms, tr, Objects, [], walk)
    requires q in tr[walk].objects
    ensures q in tr[|tr|-1].objects && q in ObjectsOf(ms) && ObjectsOf(ms)[q] == tr[|tr|-1].objects[q]
  {
    var last := |tr| - 1;
    ObjectsOnlyGrow(tr, depth, walk, last);
    StateAt(tr, depth, walk);
    assert Under([], q);
    assert Settled(ms, tr, Objects, q, walk);
    if q !in ObjectsOf(ms) {
      var i :| walk <= i < |tr| && !Has(tr[i], Objects, q);
      ObjectsOnlyGrow(tr, depth, walk, i);
      assert false;
    }
    assert Had(tr, Objects, ObjectFile(q, ObjectsOf(ms)[q]));
    var i :| 0 <= i < |tr| && Has(tr[i], Objects, q) && MemberFor(tr[i], Objects, q) == ObjectFile(q, ObjectsOf(ms)[q]);
    ObjectsOnlyGrow(tr, depth, i, last);
  }

  /** The store as the object walk found it: closed, still there, all archived. */
  ghost predicate StoreArchived(ms: seq<Member>, early: map<Path, set<Path>>, live: map<Path, set<Path>>) {
    && (forall q <- early :: early[q] <= early.Keys && q in live && live[q] == early[q])
    && (forall q <- early :: q in ObjectsOf(ms) && ObjectsOf(ms)[q] == live[q])
  }

  lemma WalkArchivesStore(ms: seq<Member>, tr: seq<Repo>, depth: nat, walk: nat)
    requires LockedRun(tr, depth) && Truthful(ms, tr) && walk < |tr|
    requires AllSettled(ms, tr, Objects, [], walk)
    ensures StoreArchived(ms, tr[walk].objects, tr[|tr|-1].objects)
  {
    forall q | q in tr[walk].objects
      ensures q in tr[|tr|-1].objects && q in ObjectsOf(ms) && ObjectsOf(ms)[q] == tr[|tr|-1].objects[q]
    {
      ArchivedWhole(ms, tr, depth, walk, q);
    }
    StateAt(tr, depth, walk);
    ObjectsOnlyGrow(tr, depth, walk, |tr| - 1);
  }

  lemma EarlyClosure(ms: seq<Member>, early: map<Path, set<Path>>, live: map<Path, set<Path>>, o: Path)
    requires StoreArchived(ms, early, live) && o in early
    ensures ClosureArchived(ms, live, o)
  {
    forall p | IsPath(live, p) && p[0] == o ensures PathArchived(ms, live, p) {
      PathStays(early, live, p);
    }
  }

  /** A value held before the object walk began is archived with all it
      reaches. This is why refs are read before objects. */
  lemma ClosureOf(ms: seq<Member>, tr: seq<Repo>, depth: nat, k: nat, walk: nat, o: Path)
    requires LockedRun(tr, depth) && Truthful(ms, tr) && k <= walk < |tr|
    requires AllSettled(ms, tr, Objects, [], walk)
    requires o in tr[k].objects
    ensures ClosureArchived(ms, tr[|tr|-1].objects, o)
  {
    ObjectsOnlyGrow(tr, depth, k, walk);
    WalkArchivesStore(ms, tr, depth, walk);
    EarlyClosure(ms, tr[walk].objects, tr[|tr|-1].objects, o);
  }

  lemma Finished(ms: seq<Member>, ms': seq<Member>, tr: seq<Repo>, tr': seq<Repo>, depth: nat)
    requires LockedRun(tr', depth) && Truthful(ms', tr') && |tr| > 0
    requires RefsHeld(ms, tr) && RefsRestored(ms, tr)
    requires Grown(ms, ms', tr, tr', Objects) && AllSettled(ms', tr', Objects, [], |tr| - 1)
    ensures Consistent(ms', tr')
  {
    var walk := |tr| - 1;
    forall r | Restored(ms', r).Some?
      ensures Held(tr', r, Restored(ms', r).value)
      ensures ClosureArchived(ms', tr'[|tr'|-1].objects, Restored(ms', r).value)
    {
      assert Restored(ms, r) == Restored(ms', r);
      var i :| 0 <= i < |tr| && ValueOf(tr[i], r) == Restored(ms, r);
      assert tr'[i] == tr[i];
      StateAt(tr', depth, i);
      ClosureOf(ms', tr', depth, i, walk, Restored(ms', r).value);
    }
    forall r | ExistedThroughout(tr', r) ensures Restored(ms', r).Some? {
      assert ExistedThroughout(tr, r) by {
        forall i | 0 <= i < |tr| ensures Exists(tr[i], r) { assert tr'[i] == tr[i]; }
      }
      assert Restored(ms, r) == Restored(ms', r);
    }
    var i :| 0 <= i < |tr| && tr[i].head == HeadOf(ms).value;
    assert tr'[i] == tr[i];
    StateAt(tr', depth, i);
    if HeadOf(ms').value.Detached? {
      ClosureOf(ms', tr', depth, i, walk, HeadOf(ms').value.oid);
    }
  }

  /** A loose ref's file was there and, later, was not. */
  ghost predicate RefVanished(tr: seq<Repo>) {
    exists r, i, j :: 0 <= i <= j < |tr| && r in tr[i].loose && r !in tr[j].loose
  }

  /** What a walk may fail for: a directory that cannot be read, or a ref, but
      never an object, that vanished. */
  ghost predicate MayFail(kind: Kind, unreadable: set<Path>, tr: seq<Repo>) {
    unreadable != {} || (kind == Refs && RefVanished(tr))
  }

  // ----------------------------------------------------------------- the backup

  class Server {
    var repo: Repo
    var locked: bool
    var members: seq<Member>
    const depth: nat  // components a path may have
    const unreadable: set<Path>  // directories the walk cannot read
    ghost var tr: seq<Repo>  // the states seen since the lock was taken

    ghost predicate Valid()
      reads this
    {
      && WellFormed(repo)
      && (forall r <- repo.loose :: |r| <= depth)
      && (forall o <- repo.objects :: |o| <= depth)
      && (locked ==> |tr| > 0 && tr[|tr|-1] == repo && LockedRun(tr, depth) && Truthful(members, tr))
    }

    constructor (r: Repo, depth: nat, unreadable: set<Path>)
      requires WellFormed(r)
      requires (forall f <- r.loose :: |f| <= depth) && (forall o <- r.objects :: |o| <= depth)
      ensures Valid() && !locked && repo == r
    {
      repo, locked, members, this.depth, this.unreadable := r, false, [], depth, unreadable;
      tr := [r];
    }

    /** Everything else the server does between two reads of the backup. */
    method Interfere()
      requires Valid()
      modifies `repo, `tr
      ensures Valid() && (locked ==> old(tr) <= tr)
    {
      var n: nat := *;
      while n > 0
        invariant Valid() && (locked ==> old(tr) <= tr)
      {
        var e: Event := *;
        if Enabled(e, repo, locked, depth) {
          ghost var before := tr;
          EventKeepsWellFormed(e, repo, locked, depth);
          repo := Apply(e, repo);
          tr := tr + [repo];
          if locked {
            TruthfulLater(members, before, tr);
            assert tr[..|tr|-1] == before;
          }
        }
        n := n - 1;
      }
    }

    /** addFile under the walk: a ref that vanished fails the backup, an
        object that vanished is skipped. */
    method AddFile(kind: Kind, path: Path) returns (ok: bool)
      requires Valid() && locked
      modifies `repo, `tr, `members
      ensures Valid() && Grown(old(members), members, old(tr), tr, kind)
      ensures ok ==> Settled(members, tr, kind, path, |old(tr)| - 1)
      ensures tr[|tr|-1] == repo
      ensures kind == Refs ==>
          if path in repo.loose then ok && members == old(members) + [RefFile(path, repo.loose[path])]
          else !ok && members == old(members)
      ensures kind == Objects ==>
          && ok
          && members == if path in repo.objects then old(members) + [ObjectFile(path, repo.objects[path])] else old(members)
    {
      Interfere();
      if !Has(repo, kind, path) {
        ok := kind == Objects;
        return;
      }
      var m := MemberFor(repo, kind, path);
      Appended(members, m);
      assert Had(tr, kind, m);
      members := members + [m];
      ok := true;
    }

    /** filepath.WalkDir over refs/ or objects/: each directory is listed
        once, and each entry read or entered some time after its listing. */
    method WalkDir(kind: Kind, d: Path) returns (ok: bool)
      requires Valid() && locked && |d| <= depth
      modifies `repo, `tr, `members
      ensures Valid() && Grown(old(members), members, old(tr), tr, kind)
      ensures ok ==> AllSettled(members, tr, kind, d, |old(tr)| - 1)
      ensures ok && kind == Refs ==>
          exists k :: |old(tr)| - 1 <= k < |tr| && forall x | d + [x] in tr[k].loose :: d + [x] in LooseOf(members)
      ensures d in unreadable ==> !ok
      ensures !ok ==> MayFail(kind, unreadable, tr)
      decreases depth - |d|, 3
    {
      Interfere();
      if d in unreadable { return false; }
      var files := Files(repo, kind);
      ghost var listed := |tr| - 1;
      ghost var tr0 := tr;
      ok := WalkEntries(kind, d, files, listed, |old(tr)| - 1);
      GrownTwice(old(members), old(members), members, old(tr), tr0, tr, kind);
      if ok {
        Unlisted(members, tr, kind, d, |old(tr)| - 1, listed);
        assert tr[listed] == tr0[listed];
      }
    }

    /** The entries of one listing, in any order. */
    method WalkEntries(kind: Kind, d: Path, files: set<Path>, ghost listed: nat, ghost from: nat) returns (ok: bool)
      requires Valid() && locked && |d| <= depth
      requires from <= listed < |tr| && Files(tr[listed], kind) == files
      requires forall r <- files :: |r| <= depth
      modifies `repo, `tr, `members
      ensures Valid() && Grown(old(members), members, old(tr), tr, kind)
      ensures ok ==> EntriesSettled(members, tr, kind, d, EntriesOf(files, d), from)
      ensures ok && kind == Refs ==> forall x | d + [x] in files :: d + [x] in LooseOf(members)
      ensures !ok ==> MayFail(kind, unreadable, tr)
      decreases depth - |d|, 2
    {
      var left := EntriesOf(files, d);
      ghost var entries := left;
      while left != {}
        invariant Valid() && left <= entries
        invariant Grown(old(members), members, old(tr), tr, kind)
        invariant EntriesSettled(members, tr, kind, d, entries - left, from)
        invariant kind == Refs ==> forall x <- entries - left :: d + [x] in files ==> d + [x] in LooseOf(members)
        decreases left
      {
        var x :| x in left;
        ghost var tr0, ms0 := tr, members;
        ok := VisitEntry(kind, d, x, files, listed, entries - left, from);
        GrownTwice(old(members), ms0, members, old(tr), tr0, tr, kind);
        if !ok { return; }
        assert entries - (left - {x}) == (entries - left) + {x};
        left := left - {x};
      }
      assert entries - left == entries;
      forall x | d + [x] in files ensures x in entries { assert Under(d, d + [x]) && (d + [x])[|d|] == x; }
      ok := true;
    }

    /** One entry of a directory more. */
    method VisitEntry(kind: Kind, d: Path, x: string, files: set<Path>, ghost listed: nat, ghost done: set<string>,
        ghost from: nat)
      returns (ok: bool)
      requires Valid() && locked && |d| <= depth
      requires from <= listed < |tr| && Files(tr[listed], kind) == files
      requires forall r <- files :: |r| <= depth
      requires EntriesSettled(members, tr, kind, d, done, from)
      modifies `repo, `tr, `members
      ensures Valid() && Grown(old(members), members, old(tr), tr, kind)
      ensures ok ==> EntriesSettled(members, tr, kind, d, done + {x}, from)
      ensures ok && kind == Refs && d + [x] in files ==> d + [x] in LooseOf(members)
      ensures !ok ==> MayFail(kind, unreadable, tr)
      decreases depth - |d|, 1
    {
      ghost var tr0, ms0 := tr, members;
      ok := Visit(kind, d + [x], files, listed);
      if ok { OneMoreEntry(ms0, members, tr0, tr, kind, d, x, done, from, listed); }
    }

    /** The walk's callback on one listed entry. */
    method Visit(kind: Kind, c: Path, files: set<Path>, ghost listed: nat) returns (ok: bool)
      requires Valid() && locked
      requires listed < |tr| && Files(tr[listed], kind) == files
      requires forall r <- files :: |r| <= depth
      requires 0 < |c|
      modifies `repo, `tr, `members
      ensures Valid() && Grown(old(members), members, old(tr), tr, kind)
      ensures ok ==> forall r | r == c || Under(c, r) :: Settled(members, tr, kind, r, listed)
      ensures ok && kind == Refs && c in files ==> c in LooseOf(members)
      ensures !ok ==> MayFail(kind, unreadable, tr)
      decreases depth + 1 - |c|, 0
    {
      ok := true;
      if c in files {
        ghost var before := tr;
        ok := AddFile(kind, c);
        if !ok {
          assert tr[listed] == before[listed] && c in tr[listed].loose && c !in tr[|tr|-1].loose;
          return;
        }
      } else {
        assert !Has(tr[listed], kind, c);
      }
      ghost var tr0, ms0 := tr, members;
      assert Settled(ms0, tr0, kind, c, listed);
      if exists r :: r in files && Under(c, r) {
        ok := WalkDir(kind, c);
        if !ok { return; }
        SettledLater(ms0, members, tr0, tr, kind, c, listed);
      } else {
        forall r | Under(c, r) ensures Settled(members, tr, kind, r, listed) {
          assert !Has(tr[listed], kind, r);
        }
      }
    }

    /** addRegular on HEAD. */
    method AddHead()
      requires Valid() && locked && members == []
      modifies `repo, `tr, `members
      ensures Valid() && old(tr) <= tr && HeadOf(members) == Some(repo.head) && PackedOf(members) == map[]
      ensures members == [HeadFile(repo.head)]
    {
      Interfere();
      StillTruthful(members, HeadFile(repo.head), tr);
      members := members + [HeadFile(repo.head)];
    }

    /** addRegular on packed-refs, which is absent while nothing is packed. */
    method AddPacked()
      requires Valid() && locked && PackedOf(members) == map[]
      modifies `repo, `tr, `members
      ensures Valid() && old(tr) <= tr && PackedOf(members) == repo.packed
      ensures members == old(members) + if repo.packed == map[] then [] else [PackedRefs(repo.packed)]
      ensures HeadOf(members) == HeadOf(old(members))
      ensures LooseOf(members) == LooseOf(old(members)) && ObjectsOf(members) == ObjectsOf(old(members))
    {
      Interfere();
      if repo.packed != map[] {
        StillTruthful(members, PackedRefs(repo.packed), tr);
        members := members + [PackedRefs(repo.packed)];
      }
    }

    /** addRefs up to the loose refs; HEAD was as archived in state `h`. */
    method AddLoose() returns (ok: bool, ghost h: nat)
      requires Valid() && locked && members == []
      modifies `repo, `tr, `members
      ensures Valid() && old(tr) <= tr && PackedOf(members) == map[]
      ensures ok ==> h < |tr| && HeadOf(members) == Some(tr[h].head) && AllSettled(members, tr, Refs, [], h)
      ensures !ok ==> MayFail(Refs, unreadable, tr)
    {
      AddHead();
      h := |tr| - 1;
      ok := WalkDir(Refs, []);
    }

    /** addRefs: HEAD, then the loose refs, then packed-refs. */
    method AddRefs() returns (ok: bool)
      requires Valid() && locked && members == []
      modifies `repo, `tr, `members
      ensures Valid() && old(tr) <= tr
      ensures ok ==> RefsHeld(members, tr) && RefsRestored(members, tr)
      ensures !ok ==> MayFail(Refs, unreadable, tr)
    {
      ghost var h;
      ok, h := AddLoose();
      if !ok { return; }
      ghost var tr0, ms0 := tr, members;
      AddPacked();
      RefsFinished(ms0, members, tr0, tr, depth, h);
    }

    /** runBackup on one repository: the lock, the refs, then everything else. */
    method RunBackup() returns (ok: bool)
      requires Valid() && !locked
      modifies this
      ensures Valid() && !locked
      ensures ok ==> Consistent(members, tr)
      ensures !ok ==> unreadable != {} || RefVanished(tr)
    {
      Interfere();
      locked, members, tr := true, [], [repo];
      ok := AddRefs();
      if ok {
        ghost var tr0, ms0 := tr, members;
        ok := WalkDir(Objects, []);
        if ok { Finished(ms0, members, tr0, tr, depth); }
      }
      locked := false;
    }
  }
}
