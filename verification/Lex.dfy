/** Go's order on strings: byte by byte, a proper prefix first. */
module Lex {
  import Sorting

  predicate Less(a: string, b: string) {
    LessFrom(a, b)
  }

  predicate LessFrom(a: string, b: string) {
    if b == "" then false
    else if a == "" then true
    else if a[0] != b[0] then a[0] < b[0]
    else LessFrom(a[1..], b[1..])
  }

  lemma {:induction false} Irreflexive(a: string)
    ensures !Less(a, a)
  {
    if a != "" { Irreflexive(a[1..]); }
  }

  lemma {:induction false} Transitive(a: string, b: string, c: string)
    requires Less(a, b) && Less(b, c)
    ensures Less(a, c)
  {
    if a != "" && a[0] == b[0] == c[0] { Transitive(a[1..], b[1..], c[1..]); }
  }

  lemma {:induction false} Total(a: string, b: string)
    ensures a == b || Less(a, b) || Less(b, a)
  {
    if a != "" && b != "" && a[0] == b[0] {
      Total(a[1..], b[1..]);
      assert a == [a[0]] + a[1..] && b == [b[0]] + b[1..];
    }
  }

  /** At most one of the two, and neither when equal. */
  lemma Asymmetric(a: string, b: string)
    requires Less(a, b)
    ensures a != b && !Less(b, a)
  {
    Irreflexive(a);
    if Less(b, a) { Transitive(a, b, a); }
  }

  // ------------------------------------------------------------------- sorting

  ghost predicate Ascending(s: seq<string>) {
    forall i, j | 0 <= i < j < |s| :: Less(s[i], s[j])
  }

  lemma LessRanks()
    ensures Sorting.Ranks(Less)
  {
    forall a, b | Less(a, b) ensures !Less(b, a) { Asymmetric(a, b); }
    forall a, b, c | !Less(a, b) && !Less(b, c) ensures !Less(a, c) {
      Total(a, b);
      Total(b, c);
      if Less(a, c) {
        if a != b { Transitive(b, a, c); }
      }
    }
  }

  /** slices.Sort. */
  function Sort(s: seq<string>): (t: seq<string>) {
    Sorting.Sort(s, Less)
  }

  lemma SortIn(s: seq<string>)
    ensures forall y :: y in Sort(s) <==> y in s
  {
    forall y ensures y in Sort(s) <==> y in s { Sorting.SortIn(s, Less, y); }
  }

  /** Without repeats, sorted is strictly sorted. */
  lemma SortAscending(s: seq<string>)
    requires Sorting.NoRepeats(s)
    ensures Ascending(Sort(s)) && forall y :: y in Sort(s) <==> y in s
  {
    SortIn(s);
    LessRanks();
    Sorting.SortOrdered(s, Less);
    Sorting.SortPermutes(s, Less);
    Sorting.PermutedNoRepeats(s, Sort(s));
    var t := Sort(s);
    forall i, j | 0 <= i < j < |t| ensures Less(t[i], t[j]) {
      Total(t[i], t[j]);
    }
  }

  /** What is in a strictly sorted list decides it. */
  lemma {:induction false} AscendingUnique(a: seq<string>, b: seq<string>)
    requires Ascending(a) && Ascending(b)
    requires (forall y <- a :: y in b) && (forall y <- b :: y in a)
    ensures a == b
  {
    assert b != [] ==> b[|b|-1] in b;
    if a != [] {
      assert a[|a|-1] in a;
      LastIsGreatest(a);
      LastIsGreatest(b);
      var x, y := a[|a|-1], b[|b|-1];
      if x != y { Asymmetric(x, y); }
      var a', b' := a[..|a|-1], b[..|b|-1];
      assert a == a' + [x] && b == b' + [x];
      forall w <- a' ensures w in b' { assert w in b; }
      forall w <- b' ensures w in a' { assert w in a; }
      AscendingUnique(a', b');
    }
  }

  lemma LastIsGreatest(s: seq<string>)
    requires Ascending(s) && s != []
    ensures forall y <- s :: y == s[|s|-1] || Less(y, s[|s|-1])
    ensures s[|s|-1] !in s[..|s|-1]
  {
    Irreflexive(s[|s|-1]);
  }
}
