/** internal/control/flags.go: how far a mistyped flag is from a known one. */
module Flags {

  type Bytes = string  // bytes, one char each

  // --------------------------------------------------------------- edit scripts

  datatype Edit = Insert(at: nat, c: char) | Delete(at: nat) | Substitute(at: nat, c: char)

  predicate Fits(e: Edit, s: Bytes) {
    match e
    case Insert(i, _) => i <= |s|
    case Delete(i) => i < |s|
    case Substitute(i, _) => i < |s|
  }

  function Apply(e: Edit, s: Bytes): Bytes
    requires Fits(e, s)
  {
    match e
    case Insert(i, c) => s[..i] + [c] + s[i..]
    case Delete(i) => s[..i] + s[i+1..]
    case Substitute(i, c) => s[i := c]
  }

  /** The script turns `a` into `b`, one single-byte edit after another. */
  ghost predicate Turns(a: Bytes, script: seq<Edit>, b: Bytes)
    decreases |script|
  {
    if script == [] then a == b
    else Fits(script[0], a) && Turns(Apply(script[0], a), script[1..], b)
  }

  lemma {:induction false} TurnsBoth(a: Bytes, s: seq<Edit>, b: Bytes, t: seq<Edit>, c: Bytes)
    requires Turns(a, s, b) && Turns(b, t, c)
    ensures Turns(a, s + t, c)
    decreases |s|
  {
    if s == [] {
      assert s + t == t;
    } else {
      assert (s + t)[1..] == s[1..] + t;
      TurnsBoth(Apply(s[0], a), s[1..], b, t, c);
    }
  }

  // ------------------------------------------------------------------- distance

  function Min3(x: nat, y: nat, z: nat): (m: nat)
    ensures m <= x && m <= y && m <= z && m in {x, y, z}
  {
    if x <= y && x <= z then x else if y <= z then y else z
  }

  /** The recurrence the table is filled by. */
  function Distance(a: Bytes, b: Bytes): nat {
    if a == [] then |b|
    else if b == [] then |a|
    else
      var a', b' := a[..|a|-1], b[..|b|-1];
      Min3(Distance(a', b) + 1, Distance(a, b') + 1, Distance(a', b') + (if a[|a|-1] == b[|b|-1] then 0 else 1))
  }

  lemma {:induction false} DistanceSymmetric(a: Bytes, b: Bytes)
    ensures Distance(a, b) == Distance(b, a)
    decreases |a| + |b|
  {
    if a != [] && b != [] {
      DistanceSymmetric(a[..|a|-1], b);
      DistanceSymmetric(a, b[..|b|-1]);
      DistanceSymmetric(a[..|a|-1], b[..|b|-1]);
    }
  }

  lemma {:induction false} DistanceZero(a: Bytes)
    ensures Distance(a, a) == 0
  {
    if a != [] { DistanceZero(a[..|a|-1]); }
  }

  /** Dropping the last byte moves a text by at most one. */
  lemma {:induction false} DropLast(a: Bytes, b: Bytes)
    requires a != []
    ensures Distance(a, b) <= Distance(a[..|a|-1], b) + 1
    ensures Distance(a[..|a|-1], b) <= Distance(a, b) + 1
    decreases |a| + |b|
  {
    var a' := a[..|a|-1];
    if b != [] {
      var b' := b[..|b|-1];
      DropLast(a, b');
      if a' != [] {
        DropLast(a', b);
        assert Distance(a', b) <= Distance(a', b') + 1 by {
          DistanceSymmetric(a', b);
          DistanceSymmetric(a', b');
          DropLast(b, a');
        }
      } else {
        assert Distance(a', b) == |b|;
        assert Distance(a, b) + 1 >= |b| by { AtLeastLength(a, b); }
      }
    }
  }

  /** A text is no nearer than their lengths allow. */
  lemma {:induction false} AtLeastLength(a: Bytes, b: Bytes)
    ensures Distance(a, b) + |a| >= |b| && Distance(a, b) + |b| >= |a|
    decreases |a| + |b|
  {
    if a != [] && b != [] {
      AtLeastLength(a[..|a|-1], b);
      AtLeastLength(a, b[..|b|-1]);
      AtLeastLength(a[..|a|-1], b[..|b|-1]);
    }
  }

  lemma EditInside(a: Bytes, e: Edit, c: char)
    requires Fits(e, a) && (e.Insert? ==> e.at <= |a|)
    ensures Fits(e, a + [c]) && Apply(e, a + [c]) == Apply(e, a) + [c]
  {
  }

  /** One edit changes the distance to anything by at most one. */
  lemma {:induction false} OneEdit(a: Bytes, e: Edit, b: Bytes)
    requires Fits(e, a)
    ensures Distance(a, b) <= Distance(Apply(e, a), b) + 1
    decreases |a| + |b|
  {
    var x := Apply(e, a);
    if e.Insert? && e.at == |a| {
      assert x[..|x|-1] == a;
      DropLast(x, b);
    } else if e.Delete? && e.at == |a| - 1 {
      assert x == a[..|a|-1];
      DropLast(a, b);
    } else if e.Substitute? && e.at == |a| - 1 {
      SubstituteLast(a, e.c, b);
      assert x == a[..|a|-1] + [e.c];
    } else {
      // The edit is inside a', and both end in the same byte.
      var a', c := a[..|a|-1], a[|a|-1];
      var x' := Apply(e, a');
      assert a == a' + [c];
      EditInside(a', e, c);
      OneEdit(a', e, b);
      if b != [] {
        OneEdit(a, e, b[..|b|-1]);
        OneEdit(a', e, b[..|b|-1]);
      }
      SharedLast(a', x', c, b);
    }
  }

  lemma LastStep(a: Bytes, c: char, b: Bytes)
    ensures b == [] ==> Distance(a + [c], b) == |a| + 1
    ensures b != [] ==> var b' := b[..|b|-1];
      Distance(a + [c], b) ==
        Min3(Distance(a, b) + 1, Distance(a + [c], b') + 1, Distance(a, b') + (if c == b[|b|-1] then 0 else 1))
  {
    var ac := a + [c];
    assert ac[..|ac|-1] == a;
  }

  lemma SharedLast(a: Bytes, x: Bytes, c: char, b: Bytes)
    requires |a| <= |x| + 1 && Distance(a, b) <= Distance(x, b) + 1
    requires b != [] ==> Distance(a + [c], b[..|b|-1]) <= Distance(x + [c], b[..|b|-1]) + 1
    requires b != [] ==> Distance(a, b[..|b|-1]) <= Distance(x, b[..|b|-1]) + 1
    ensures Distance(a + [c], b) <= Distance(x + [c], b) + 1
  {
    LastStep(a, c, b);
    LastStep(x, c, b);
    if b != [] {
      var b', cost := b[..|b|-1], if c == b[|b|-1] then 0 else 1;
      MinWithin(Distance(a, b) + 1, Distance(a + [c], b') + 1, Distance(a, b') + cost,
        Distance(x, b) + 1, Distance(x + [c], b') + 1, Distance(x, b') + cost);
    }
  }

  lemma MinWithin(p: nat, q: nat, r: nat, p': nat, q': nat, r': nat)
    requires p <= p' + 1 && q <= q' + 1 && r <= r' + 1
    ensures Min3(p, q, r) <= Min3(p', q', r') + 1
  {
  }

  lemma SubstituteLast(a: Bytes, c: char, b: Bytes)
    requires a != []
    ensures Distance(a, b) <= Distance(a[..|a|-1] + [c], b) + 1
    decreases |b|
  {
    var a' := a[..|a|-1];
    var x := a' + [c];
    assert x[..|x|-1] == a';
    if b != [] {
      SubstituteLast(a, c, b[..|b|-1]);
    }
  }

  /** No script is shorter than the distance. */
  lemma {:induction false} NoShorter(a: Bytes, script: seq<Edit>, b: Bytes)
    requires Turns(a, script, b)
    ensures Distance(a, b) <= |script|
    decreases |script|
  {
    if script == [] {
      DistanceZero(a);
    } else {
      NoShorter(Apply(script[0], a), script[1..], b);
      OneEdit(a, script[0], b);
    }
  }

  /** The edits still work with a byte appended to what they edit. */
  lemma {:induction false} Extended(a: Bytes, script: seq<Edit>, b: Bytes, c: char)
    requires Turns(a, script, b)
    ensures Turns(a + [c], script, b + [c])
    decreases |script|
  {
    if script != [] {
      var e := script[0];
      assert Apply(e, a + [c]) == Apply(e, a) + [c];
      Extended(Apply(e, a), script[1..], b, c);
    }
  }

  lemma First(a: Bytes, e: Edit, s: seq<Edit>, b: Bytes)
    requires Fits(e, a) && Turns(Apply(e, a), s, b)
    ensures Turns(a, [e] + s, b)
  {
    assert ([e] + s)[1..] == s;
  }

  lemma Last(a: Bytes, s: seq<Edit>, b: Bytes, e: Edit)
    requires Turns(a, s, b) && Fits(e, b)
    ensures Turns(a, s + [e], Apply(e, b))
  {
    First(b, e, [], Apply(e, b));
    assert [e] + [] == [e];
    TurnsBoth(a, s, b, [e], Apply(e, b));
  }

  /** Building `b`'s last byte, dropping `a`'s, or changing the one into the other. */
  lemma InsertLast(a: Bytes, s: seq<Edit>, b: Bytes)
    requires b != [] && Turns(a, s, b[..|b|-1])
    ensures Turns(a, s + [Insert(|b| - 1, b[|b|-1])], b)
  {
    var b', e := b[..|b|-1], Insert(|b| - 1, b[|b|-1]);
    Last(a, s, b', e);
    assert Apply(e, b') == b;
  }

  lemma DeleteLast(a: Bytes, s: seq<Edit>, b: Bytes)
    requires a != [] && Turns(a[..|a|-1], s, b)
    ensures Turns(a, [Delete(|a| - 1)] + s, b)
  {
    assert Apply(Delete(|a| - 1), a) == a[..|a|-1];
    First(a, Delete(|a| - 1), s, b);
  }

  lemma Rejoin(a: Bytes)
    requires a != []
    ensures a[..|a|-1] + [a[|a|-1]] == a
  {
  }

  lemma KeepLast(a: Bytes, s: seq<Edit>, b: Bytes)
    requires a != [] && b != [] && a[|a|-1] == b[|b|-1] && Turns(a[..|a|-1], s, b[..|b|-1])
    ensures Turns(a, s, b)
  {
    Rejoin(a);
    Rejoin(b);
    Extended(a[..|a|-1], s, b[..|b|-1], a[|a|-1]);
  }

  lemma ChangeLast(a: Bytes, s: seq<Edit>, b: Bytes)
    requires a != [] && b != [] && Turns(a[..|a|-1], s, b[..|b|-1])
    ensures Turns(a, [Substitute(|a| - 1, b[|b|-1])] + s, b)
  {
    var e := Substitute(|a| - 1, b[|b|-1]);
    var x := Apply(e, a);
    assert x[..|x|-1] == a[..|a|-1];
    KeepLast(x, s, b);
    First(a, e, s, b);
  }

  /** Some script is as short as the distance. */
  lemma {:induction false} Shortest(a: Bytes, b: Bytes) returns (s: seq<Edit>)
    ensures Turns(a, s, b) && |s| == Distance(a, b)
    decreases |a| + |b|
  {
    if a == [] && b == [] {
      s := [];
    } else if b != [] && (a == [] || Distance(a, b) == Distance(a, b[..|b|-1]) + 1) {
      s := Shortest(a, b[..|b|-1]);
      InsertLast(a, s, b);
      s := s + [Insert(|b| - 1, b[|b|-1])];
    } else if b == [] || Distance(a, b) == Distance(a[..|a|-1], b) + 1 {
      s := Shortest(a[..|a|-1], b);
      DeleteLast(a, s, b);
      s := [Delete(|a| - 1)] + s;
    } else {
      s := Shortest(a[..|a|-1], b[..|b|-1]);
      if a[|a|-1] == b[|b|-1] {
        KeepLast(a, s, b);
      } else {
        ChangeLast(a, s, b);
        s := [Substitute(|a| - 1, b[|b|-1])] + s;
      }
    }
  }

  /** The distance is the length of the shortest script. */
  lemma DistanceIsShortest(a: Bytes, b: Bytes)
    ensures exists script :: Turns(a, script, b) && |script| == Distance(a, b)
    ensures forall script :: Turns(a, script, b) ==> Distance(a, b) <= |script|
  {
    var s := Shortest(a, b);
    forall script | Turns(a, script, b) ensures Distance(a, b) <= |script| { NoShorter(a, script, b); }
  }

  lemma {:induction false} TriangleInequality(a: Bytes, b: Bytes, c: Bytes)
    ensures Distance(a, c) <= Distance(a, b) + Distance(b, c)
  {
    var s := Shortest(a, b);
    var t := Shortest(b, c);
    TurnsBoth(a, s, b, t, c);
    NoShorter(a, s + t, c);
  }

  // ---------------------------------------------------------------- editDistance

  lemma TableStep(a: Bytes, b: Bytes, i: nat, j: nat)
    requires 0 < i <= |a| && 0 < j <= |b|
    ensures Distance(a[..i], b[..j]) ==
      Min3(Distance(a[..i-1], b[..j]) + 1, Distance(a[..i], b[..j-1]) + 1,
        Distance(a[..i-1], b[..j-1]) + (if a[i-1] == b[j-1] then 0 else 1))
  {
    assert a[..i][..i-1] == a[..i-1] && b[..j][..j-1] == b[..j-1];
  }

  /** Row `i` of the table, from the row before it. */
  method FillRow(prev: array<nat>, cur: array<nat>, a: Bytes, b: Bytes, i: nat)
    requires 0 < i <= |a| && prev != cur && prev.Length == cur.Length == |b| + 1
    requires forall k | 0 <= k <= |b| :: prev[k] == Distance(a[..i-1], b[..k])
    modifies cur
    ensures forall k | 0 <= k <= |b| :: cur[k] == Distance(a[..i], b[..k])
  {
    cur[0] := i;
    for j := 1 to |b| + 1
      invariant forall k | 0 <= k < j :: cur[k] == Distance(a[..i], b[..k])
    {
      var cost := if a[i-1] == b[j-1] then 0 else 1;
      TableStep(a, b, i, j);
      cur[j] := Min3(prev[j] + 1, cur[j-1] + 1, prev[j-1] + cost);
    }
  }

  /** editDistance: two rows of the table, swapped after each. */
  method EditDistance(a: Bytes, b: Bytes) returns (d: nat)
    ensures d == Distance(a, b)
  {
    var prev, cur := new nat[|b|+1], new nat[|b|+1];
    for j := 0 to |b| + 1
      invariant forall k | 0 <= k < j :: prev[k] == k
    {
      prev[j] := j;
    }
    for i := 1 to |a| + 1
      invariant prev != cur && prev.Length == cur.Length == |b| + 1
      invariant fresh(prev) && fresh(cur)
      invariant forall k | 0 <= k <= |b| :: prev[k] == Distance(a[..i-1], b[..k])
    {
      FillRow(prev, cur, a, b, i);
      prev, cur := cur, prev;
    }
    assert a[..|a|] == a && b[..|b|] == b;
    d := prev[|b|];
  }

  // ----------------------------------------------------------------- nearestFlag

  predicate IsPrefix(p: Bytes, s: Bytes) { p <= s }

  /** The flags an unknown one is a prefix of, and those within two edits. */
  function Prefixed(a: Bytes, known: set<Bytes>): set<Bytes> { set n | n in known && IsPrefix(a, n) }

  function Close(a: Bytes, known: set<Bytes>): set<Bytes> { set n | n in known && Distance(a, n) <= 2 }

  /** What nearestFlag answers: a lone completion of what was typed, failing
      any completion a lone near miss, and otherwise nothing. */
  ghost predicate Nearest(a: Bytes, known: set<Bytes>, r: Bytes) {
    if |Prefixed(a, known)| == 1 then r in Prefixed(a, known)
    else if Prefixed(a, known) == {} && |Close(a, known)| == 1 then r in Close(a, known)
    else r == ""
  }

  lemma OnlyOne<T>(s: set<T>, x: T, y: T)
    requires |s| == 1 && x in s && y in s
    ensures x == y
  {
    assert |s - {x}| == |s| - 1;
    assert x != y ==> y in s - {x};
  }

  /** One answer, whatever order the flags are visited in. */
  lemma NearestUnique(a: Bytes, known: set<Bytes>, r: Bytes, r': Bytes)
    requires Nearest(a, known, r) && Nearest(a, known, r')
    ensures r == r'
  {
    if |Prefixed(a, known)| == 1 { OnlyOne(Prefixed(a, known), r, r'); }
    else if Prefixed(a, known) == {} && |Close(a, known)| == 1 { OnlyOne(Close(a, known), r, r'); }
  }

  /** The sequence has each element of the set, once. */
  ghost predicate Lists(xs: seq<Bytes>, s: set<Bytes>) {
    (forall x :: x in xs <==> x in s) && |xs| == |s|
  }

  /** The lists as one more flag is seen. */
  lemma OneMore(a: Bytes, seen: set<Bytes>, n: Bytes)
    requires n !in seen
    ensures Prefixed(a, seen + {n}) == Prefixed(a, seen) + (if IsPrefix(a, n) then {n} else {})
    ensures Close(a, seen + {n}) == Close(a, seen) + (if Distance(a, n) <= 2 then {n} else {})
    ensures n !in Prefixed(a, seen) && n !in Close(a, seen)
  {
  }

  /** One turn of nearestFlag's loop. */
  method Consider(a: Bytes, n: Bytes, prefixed: seq<Bytes>, near: seq<Bytes>, ghost seen: set<Bytes>)
    returns (prefixed': seq<Bytes>, near': seq<Bytes>)
    requires n !in seen && Lists(prefixed, Prefixed(a, seen)) && Lists(near, Close(a, seen))
    ensures Lists(prefixed', Prefixed(a, seen + {n})) && Lists(near', Close(a, seen + {n}))
  {
    OneMore(a, seen, n);
    prefixed', near' := prefixed, near;
    if IsPrefix(a, n) { prefixed' := prefixed + [n]; }
    var d := EditDistance(a, n);
    if d <= 2 { near' := near + [n]; }
  }

  /** nearestFlag's loop, ranging over the map in any order. */
  method Candidates(a: Bytes, known: set<Bytes>) returns (prefixed: seq<Bytes>, near: seq<Bytes>)
    ensures Lists(prefixed, Prefixed(a, known)) && Lists(near, Close(a, known))
  {
    prefixed, near := [], [];
    var left := known;
    while left != {}
      invariant left <= known
      invariant Lists(prefixed, Prefixed(a, known - left)) && Lists(near, Close(a, known - left))
      decreases left
    {
      var n :| n in left;
      prefixed, near := Consider(a, n, prefixed, near, known - left);
      assert (known - left) + {n} == known - (left - {n});
      left := left - {n};
    }
    assert known - left == known;
  }

  method NearestFlag(a: Bytes, known: set<Bytes>) returns (r: Bytes)
    ensures Nearest(a, known, r)
  {
    var prefixed, near := Candidates(a, known);
    if |prefixed| == 1 { return prefixed[0]; }
    if |prefixed| == 0 && |near| == 1 { return near[0]; }
    r := "";
  }
}
