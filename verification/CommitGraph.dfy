/** The commit history the merge engine works on: what git's merge-base,
    rev-list and commit-tree promise of it (internal/gitutil). */
module CommitGraph {

  type Id = nat

  datatype Author = Author(name: string, email: string, date: string)

  datatype Committer = Committer(name: string, email: string)

  datatype Commit = Commit(parents: seq<Id>, tree: nat, author: Author, committer: Committer, message: string)

  /** Every commit so far; one names only commits made before it, as its hash covers theirs. */
  type Graph = seq<Commit>

  ghost predicate Acyclic(g: Graph) {
    forall i, p | 0 <= i < |g| && p in g[i].parents :: p < i
  }

  /** git merge-base --is-ancestor: reflexive reachability. */
  predicate Ancestor(g: Graph, a: Id, d: Id)
    requires Acyclic(g)
  {
    a == d || (d < |g| && exists p :: p in g[d].parents && Ancestor(g, a, p))
  }

  lemma ParentIsAncestor(g: Graph, a: Id, d: Id)
    requires Acyclic(g) && d < |g| && a in g[d].parents
    ensures Ancestor(g, a, d) && a < d
  {
    assert Ancestor(g, a, a);
  }

  lemma {:induction false} AncestorOrder(g: Graph, a: Id, d: Id)
    requires Acyclic(g) && Ancestor(g, a, d)
    ensures a <= d
  {
    if a != d {
      var p :| p in g[d].parents && Ancestor(g, a, p);
      AncestorOrder(g, a, p);
    }
  }

  lemma {:induction false} AncestorTransitive(g: Graph, a: Id, b: Id, c: Id)
    requires Acyclic(g) && Ancestor(g, a, b) && Ancestor(g, b, c)
    ensures Ancestor(g, a, c)
  {
    if b != c {
      var p :| p in g[c].parents && Ancestor(g, b, p);
      AncestorTransitive(g, a, b, p);
    }
  }

  /** Adding commits changes nothing below the ones already there. */
  lemma {:induction false} AncestorStable(g: Graph, g': Graph, a: Id, d: Id)
    requires Acyclic(g) && Acyclic(g') && g <= g' && d < |g|
    ensures Ancestor(g, a, d) == Ancestor(g', a, d)
    decreases d
  {
    assert g'[d] == g[d];
    forall p | p in g[d].parents ensures Ancestor(g, a, p) == Ancestor(g', a, p) {
      AncestorStable(g, g', a, p);
    }
  }

  /** The child through which `d` reaches a proper ancestor. */
  lemma {:induction false} LastStep(g: Graph, a: Id, d: Id) returns (q: Id)
    requires Acyclic(g) && Ancestor(g, a, d) && a != d
    ensures q < |g| && a in g[q].parents && Ancestor(g, q, d)
  {
    var p :| p in g[d].parents && Ancestor(g, a, p);
    q := d;
    if p != a {
      q := LastStep(g, a, p);
      AncestorTransitive(g, q, p, d) by { ParentIsAncestor(g, p, d); }
    }
  }

  // ------------------------------------------------------------------- rev-list

  predicate InRange(g: Graph, base: Id, head: Id, c: Id)
    requires Acyclic(g)
  {
    Ancestor(g, c, head) && !Ancestor(g, c, base)
  }

  /** RevListRange's contract, oldest first: exactly the commits `head` has
      and `base` has not, once each, parents before children. */
  ghost predicate IsRange(g: Graph, base: Id, head: Id, cs: seq<Id>)
    requires Acyclic(g)
  {
    && (forall c :: c in cs <==> InRange(g, base, head, c))
    && (forall i, j | 0 <= i < j < |cs| :: cs[i] != cs[j])
    && (forall i, j | 0 <= i < |cs| && 0 <= j < |cs| && cs[i] < |g| && cs[j] in g[cs[i]].parents :: j < i)
  }

  lemma RangeInside(g: Graph, base: Id, head: Id, cs: seq<Id>, i: nat)
    requires Acyclic(g) && IsRange(g, base, head, cs) && head < |g| && i < |cs|
    ensures cs[i] < |g|
  {
    assert InRange(g, base, head, cs[i]);
    AncestorOrder(g, cs[i], head);
  }

  /** Every commit of the range but the last has a child in it, further on. */
  lemma RangeChild(g: Graph, base: Id, head: Id, cs: seq<Id>, i: nat) returns (j: nat)
    requires Acyclic(g) && IsRange(g, base, head, cs) && head < |g| && i < |cs| && cs[i] != head
    ensures i < j < |cs| && cs[j] < |g| && cs[i] in g[cs[j]].parents
  {
    assert InRange(g, base, head, cs[i]);
    var q := LastStep(g, cs[i], head);
    if Ancestor(g, q, base) {
      ParentIsAncestor(g, cs[i], q);
      AncestorTransitive(g, cs[i], q, base);
      assert false;
    }
    assert q in cs;
    j :| 0 <= j < |cs| && cs[j] == q;
  }

  /** A range with no merge commit in it is one line ending at `head`: each
      commit's only parent is the one before it. */
  lemma {:induction false} LinearRange(g: Graph, base: Id, head: Id, cs: seq<Id>, i: nat)
    requires Acyclic(g) && IsRange(g, base, head, cs) && head < |g| && i < |cs|
    requires forall c | c in cs && c < |g| :: |g[c].parents| <= 1
    ensures i == |cs| - 1 <==> cs[i] == head
    ensures i < |cs| - 1 ==> cs[i+1] < |g| && g[cs[i+1]].parents == [cs[i]]
    decreases |cs| - i
  {
    RangeInside(g, base, head, cs, i);
    if i == |cs| - 1 {
      if cs[i] != head {
        var j := RangeChild(g, base, head, cs, i);
      }
    } else {
      LinearRange(g, base, head, cs, |cs| - 1);
      var j := RangeChild(g, base, head, cs, i);
      assert g[cs[j]].parents == [cs[i]];
      if j > i + 1 {
        LinearRange(g, base, head, cs, j - 1);
        assert false;
      }
    }
  }

  lemma RangeStable(g: Graph, g': Graph, base: Id, head: Id, cs: seq<Id>)
    requires Acyclic(g) && Acyclic(g') && g <= g' && base < |g| && head < |g|
    requires IsRange(g, base, head, cs)
    ensures IsRange(g', base, head, cs)
  {
    forall c ensures InRange(g, base, head, c) == InRange(g', base, head, c) {
      AncestorStable(g, g', c, head);
      AncestorStable(g, g', c, base);
    }
    forall i | 0 <= i < |cs| ensures cs[i] < |g| {
      RangeInside(g, base, head, cs, i);
    }
  }

  // ---------------------------------------------------------------- commit-tree

  function IndexOf(g: Graph, c: Commit): (i: nat)
    ensures if c in g then i < |g| && g[i] == c else i == |g|
  {
    if |g| == 0 || g[0] == c then 0 else 1 + IndexOf(g[1..], c)
  }

  /** git commit-tree: content names a commit, so making one that exists returns it. */
  function CommitTree(g: Graph, c: Commit): (r: (Graph, Id))
    ensures g <= r.0 <= g + [c] && r.1 < |r.0| && r.0[r.1] == c
    ensures r.0 == g <==> c in g
  {
    var i := IndexOf(g, c);
    (if i < |g| then g else g + [c], i)
  }

  lemma CommitTreeAcyclic(g: Graph, c: Commit)
    requires Acyclic(g) && forall p <- c.parents :: p < |g|
    ensures Acyclic(CommitTree(g, c).0)
  {
  }
}
