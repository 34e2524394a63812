/** sort.Slice, sort.SliceStable and slices.Sort: what any sort of a list
    gives, and the one stable sort. */
module Sorting {

  /** `less` ranks: ties may stay ties, but nothing else is left open. */
  ghost predicate Ranks<T(!new)>(less: (T, T) -> bool) {
    && (forall a, b :: less(a, b) ==> !less(b, a))
    && (forall a, b, c :: !less(a, b) && !less(b, c) ==> !less(a, c))
  }

  ghost predicate Ordered<T>(s: seq<T>, less: (T, T) -> bool) {
    forall i, j | 0 <= i < j < |s| :: !less(s[j], s[i])
  }

  /** After its ties. */
  function Insert<T>(x: T, s: seq<T>, less: (T, T) -> bool): (t: seq<T>)
    ensures |t| == |s| + 1
  {
    if s == [] then [x]
    else if !less(x, s[|s|-1]) then s + [x]
    else Insert(x, s[..|s|-1], less) + [s[|s|-1]]
  }

  function Sort<T>(s: seq<T>, less: (T, T) -> bool): (t: seq<T>)
    ensures |t| == |s|
  {
    if s == [] then [] else Insert(s[|s|-1], Sort(s[..|s|-1], less), less)
  }

  lemma {:induction false} InsertPermutes<T>(x: T, s: seq<T>, less: (T, T) -> bool)
    ensures multiset(Insert(x, s, less)) == multiset(s) + multiset{x}
  {
    if s != [] {
      assert s == s[..|s|-1] + [s[|s|-1]];
      InsertPermutes(x, s[..|s|-1], less);
    }
  }

  lemma {:induction false} SortPermutes<T>(s: seq<T>, less: (T, T) -> bool)
    ensures multiset(Sort(s, less)) == multiset(s)
  {
    if s != [] {
      var init := s[..|s|-1];
      assert s == init + [s[|s|-1]];
      SortPermutes(init, less);
      InsertPermutes(s[|s|-1], Sort(init, less), less);
    }
  }

  lemma SortIn<T>(s: seq<T>, less: (T, T) -> bool, x: T)
    ensures x in Sort(s, less) <==> x in s
  {
    SortPermutes(s, less);
    assert x in multiset(Sort(s, less)) <==> x in multiset(s);
  }

  lemma {:induction false} InsertOrdered<T(!new)>(x: T, s: seq<T>, less: (T, T) -> bool)
    requires Ranks(less) && Ordered(s, less)
    ensures Ordered(Insert(x, s, less), less)
  {
    if s != [] {
      var init, last := s[..|s|-1], s[|s|-1];
      if !less(x, last) {
        forall i | 0 <= i < |s| ensures !less(x, s[i]) {
          if i < |s| - 1 { assert !less(last, s[i]); }
        }
      } else {
        InsertOrdered(x, init, less);
        InsertPermutes(x, init, less);
        var t := Insert(x, init, less);
        forall i | 0 <= i < |t| ensures !less(last, t[i]) {
          assert t[i] in multiset(t);
          assert t[i] == x || t[i] in multiset(init);
          if t[i] in init {
            var k :| 0 <= k < |init| && init[k] == t[i];
            assert s[k] == t[i];
          }
        }
      }
    }
  }

  lemma {:induction false} SortOrdered<T(!new)>(s: seq<T>, less: (T, T) -> bool)
    requires Ranks(less)
    ensures Ordered(Sort(s, less), less)
  {
    if s != [] {
      SortOrdered(s[..|s|-1], less);
      InsertOrdered(s[|s|-1], Sort(s[..|s|-1], less), less);
    }
  }

  // ---------------------------------------------------------------------- stability

  predicate Tied<T>(a: T, b: T, less: (T, T) -> bool) { !less(a, b) && !less(b, a) }

  /** What ties with `x`, in order. */
  function Ties<T>(s: seq<T>, x: T, less: (T, T) -> bool): seq<T> {
    if s == [] then []
    else Ties(s[..|s|-1], x, less) + (if Tied(s[|s|-1], x, less) then [s[|s|-1]] else [])
  }

  lemma TiesMore<T>(s: seq<T>, y: T, x: T, less: (T, T) -> bool)
    ensures Ties(s + [y], x, less) == Ties(s, x, less) + (if Tied(y, x, less) then [y] else [])
  {
    assert (s + [y])[..|s|] == s;
  }

  lemma {:induction false} InsertStable<T(!new)>(y: T, s: seq<T>, x: T, less: (T, T) -> bool)
    requires Ranks(less)
    ensures Ties(Insert(y, s, less), x, less) == Ties(s + [y], x, less)
  {
    TiesMore(s, y, x, less);
    if s != [] && less(y, s[|s|-1]) {
      var init, last := s[..|s|-1], s[|s|-1];
      InsertStable(y, init, x, less);
      TiesMore(init, y, x, less);
      TiesMore(Insert(y, init, less), last, x, less);
      assert s == init + [last];
      TiesMore(init, last, x, less);
      assert !(Tied(y, x, less) && Tied(last, x, less));
    }
  }

  /** Ties keep the order they came in. */
  lemma {:induction false} SortStable<T(!new)>(s: seq<T>, x: T, less: (T, T) -> bool)
    requires Ranks(less)
    ensures Ties(Sort(s, less), x, less) == Ties(s, x, less)
  {
    if s != [] {
      var init, y := s[..|s|-1], s[|s|-1];
      SortStable(init, x, less);
      InsertStable(y, Sort(init, less), x, less);
      TiesMore(Sort(init, less), y, x, less);
      assert s == init + [y];
      TiesMore(init, y, x, less);
    }
  }

  // ---------------------------------------------------------------- two sorts compared

  function Map<T, U>(s: seq<T>, f: T -> U): (t: seq<U>)
    ensures |t| == |s| && forall i | 0 <= i < |s| :: t[i] == f(s[i])
  {
    seq(|s|, i requires 0 <= i < |s| => f(s[i]))
  }

  lemma {:induction false} InsertMaps<T(!new)>(x: T, s: seq<T>, less: (T, T) -> bool, f: T -> T)
    requires forall a, b :: less(f(a), f(b)) == less(a, b)
    ensures Insert(f(x), Map(s, f), less) == Map(Insert(x, s, less), f)
  {
    if s != [] {
      InsertMaps(x, s[..|s|-1], less, f);
      assert Map(s, f)[..|s|-1] == Map(s[..|s|-1], f);
    }
  }

  /** A change that no comparison sees sorts the same way. */
  lemma {:induction false} SortMaps<T(!new)>(s: seq<T>, less: (T, T) -> bool, f: T -> T)
    requires forall a, b :: less(f(a), f(b)) == less(a, b)
    ensures Sort(Map(s, f), less) == Map(Sort(s, less), f)
  {
    if s != [] {
      SortMaps(s[..|s|-1], less, f);
      assert Map(s, f)[..|s|-1] == Map(s[..|s|-1], f);
      InsertMaps(s[|s|-1], Sort(s[..|s|-1], less), less, f);
    }
  }

  function Without<T>(s: seq<T>, k: nat): seq<T>
    requires k < |s|
  {
    s[..k] + s[k+1..]
  }

  lemma WithoutCounts<T>(s: seq<T>, k: nat)
    requires k < |s|
    ensures multiset(Without(s, k)) == multiset(s) - multiset{s[k]}
  {
    assert s == s[..k] + [s[k]] + s[k+1..];
  }

  lemma WithoutOrdered<T>(s: seq<T>, k: nat, less: (T, T) -> bool)
    requires k < |s| && Ordered(s, less)
    ensures Ordered(Without(s, k), less)
  {
  }

  /** Any two sorts of the same list tie place by place. */
  lemma {:induction false} SameRanks<T(!new)>(a: seq<T>, b: seq<T>, less: (T, T) -> bool, i: nat)
    requires Ranks(less) && Ordered(a, less) && Ordered(b, less) && multiset(a) == multiset(b)
    requires i < |a|
    ensures |a| == |b| && Tied(a[i], b[i], less)
    decreases |a|
  {
    assert |a| == |multiset(a)| && |b| == |multiset(b)|;
    var n := |a| - 1;
    assert a[n] in multiset(b);
    var k :| 0 <= k < |b| && b[k] == a[n];
    if k <= i { LastTies(a, b, less, k, i); }
    if i < n {
      WithoutCounts(a, n);
      WithoutCounts(b, k);
      WithoutOrdered(a, n, less);
      WithoutOrdered(b, k, less);
      SameRanks(Without(a, n), Without(b, k), less, i);
      if k <= i { LastTies(a, b, less, k, i + 1); }
    }
  }

  lemma LastTies<T(!new)>(a: seq<T>, b: seq<T>, less: (T, T) -> bool, k: nat, i: nat)
    requires Ranks(less) && Ordered(a, less) && Ordered(b, less) && multiset(a) == multiset(b)
    requires a != [] && k <= i < |b| && b[k] == a[|a|-1]
    ensures Tied(a[|a|-1], b[i], less)
  {
    assert b[i] in multiset(a);
    var j :| 0 <= j < |a| && a[j] == b[i];
    assert Tied(a[|a|-1], a[|a|-1], less);
  }

  lemma MapJoin<T, U>(a: seq<T>, b: seq<T>, f: T -> U)
    ensures Map(a + b, f) == Map(a, f) + Map(b, f)
  {
  }

  lemma {:induction false} MapPermutes<T, U>(a: seq<T>, b: seq<T>, f: T -> U)
    requires multiset(a) == multiset(b)
    ensures multiset(Map(a, f)) == multiset(Map(b, f))
    decreases |a|
  {
    assert |a| == |multiset(a)| && |b| == |multiset(b)|;
    if a != [] {
      var n := |a| - 1;
      assert a[n] in multiset(b);
      var k :| 0 <= k < |b| && b[k] == a[n];
      WithoutCounts(a, n);
      WithoutCounts(b, k);
      MapPermutes(Without(a, n), Without(b, k), f);
      MapWithout(a, n, f);
      MapWithout(b, k, f);
    }
  }

  lemma MapWithout<T, U>(s: seq<T>, k: nat, f: T -> U)
    requires k < |s|
    ensures multiset(Map(s, f)) == multiset(Map(Without(s, k), f)) + multiset{f(s[k])}
  {
    var t := Map(s, f);
    assert Map(Without(s, k), f) == Without(t, k);
    assert t == t[..k] + [t[k]] + t[k+1..];
  }

  // ------------------------------------------------------------------------ repeats

  ghost predicate NoRepeats<T>(s: seq<T>) {
    forall i, j | 0 <= i < j < |s| :: s[i] != s[j]
  }

  lemma {:induction false} Once<T>(s: seq<T>, x: T)
    requires NoRepeats(s)
    ensures multiset(s)[x] <= 1
  {
    if s != [] {
      var init := s[..|s|-1];
      assert s == init + [s[|s|-1]];
      Once(init, x);
      if x == s[|s|-1] { assert x !in init; }
    }
  }

  lemma Twice<T>(t: seq<T>, i: nat, j: nat)
    requires i < j < |t| && t[i] == t[j]
    ensures multiset(t)[t[i]] >= 2
  {
    assert t == t[..i] + [t[i]] + t[i+1..j] + [t[j]] + t[j+1..];
  }

  lemma PermutedNoRepeats<T>(s: seq<T>, t: seq<T>)
    requires NoRepeats(s) && multiset(s) == multiset(t)
    ensures NoRepeats(t)
  {
    forall i, j | 0 <= i < j < |t| ensures t[i] != t[j] {
      if t[i] == t[j] {
        Twice(t, i, j);
        Once(s, t[i]);
      }
    }
  }

  /** A list without repeats has as many elements as members. */
  lemma {:induction false} NoRepeatsSize<T>(s: seq<T>)
    requires NoRepeats(s)
    ensures |set x | x in s| == |s|
  {
    if s != [] {
      var init, x := s[..|s|-1], s[|s|-1];
      NoRepeatsSize(init);
      assert s == init + [x];
      assert (set y | y in s) == (set y | y in init) + {x};
    }
  }

  // ------------------------------------------------------------- ranging over a map

  /** A next key, while there is one. */
  lemma Witness<T>(s: set<T>) returns (x: T)
    requires s != {}
    ensures x in s
  {
    x :| x in s;
  }
}
