/** Depth-first search over a children relation, as `blocks_in_branch` runs it.  The relation only has to be
    acyclic; it may list a child several times, in which case the search visits it several times. */
module BranchSearch {

  function Kids<H(==)>(children: map<H, seq<H>>, b: H): seq<H> {
    if b in children then children[b] else []
  }

  /** The relation is acyclic, witnessed by a rank that falls along every edge. */
  ghost predicate Ranked<H(!new)>(children: map<H, seq<H>>, rank: H -> nat) {
    forall p, c | p in children && c in children[p] :: rank(c) < rank(p)
  }

  ghost predicate Below<H(!new)>(rank: H -> nat, s: seq<H>, bound: nat) {
    forall c | c in s :: rank(c) < bound
  }

  /** How many visits the search makes from the nodes of `s`: the sizes of their unfolded subtrees. */
  ghost function Visits<H(!new)>(children: map<H, seq<H>>, rank: H -> nat, s: seq<H>, bound: nat): nat
    requires Ranked(children, rank) && Below(rank, s, bound)
    decreases bound, |s|
  {
    if s == [] then 0
    else 1 + Visits(children, rank, Kids(children, s[0]), rank(s[0])) + Visits(children, rank, s[1..], bound)
  }

  lemma {:induction false} VisitsIgnoresBound<H(!new)>(
      children: map<H, seq<H>>, rank: H -> nat, s: seq<H>, m: nat, n: nat)
    requires Ranked(children, rank) && Below(rank, s, m) && Below(rank, s, n)
    ensures Visits(children, rank, s, m) == Visits(children, rank, s, n)
    decreases |s|
  {
    if s != [] {
      VisitsIgnoresBound(children, rank, s[1..], m, n);
    }
  }

  lemma {:induction false} VisitsConcat<H(!new)>(
      children: map<H, seq<H>>, rank: H -> nat, s: seq<H>, t: seq<H>, bound: nat)
    requires Ranked(children, rank) && Below(rank, s, bound) && Below(rank, t, bound)
    ensures Below(rank, s + t, bound)
    ensures Visits(children, rank, s + t, bound) == Visits(children, rank, s, bound) + Visits(children, rank, t, bound)
    decreases |s|
  {
    if s == [] {
      assert s + t == t;
    } else {
      assert (s + t)[1..] == s[1..] + t;
      VisitsConcat(children, rank, s[1..], t, bound);
    }
  }

  ghost predicate IsPath<H(!new)>(children: map<H, seq<H>>, path: seq<H>) {
    && path != []
    && forall i | 0 <= i < |path| - 1 :: path[i + 1] in Kids(children, path[i])
  }

  /** `x` is `root` or one of its descendants. */
  ghost predicate Descends<H(!new)>(children: map<H, seq<H>>, root: H, x: H) {
    exists path :: IsPath(children, path) && path[0] == root && path[|path| - 1] == x
  }

  lemma DescendsSelf<H(!new)>(children: map<H, seq<H>>, root: H)
    ensures Descends(children, root, root)
  {
    assert IsPath(children, [root]);
    assert [root][|[root]| - 1] == root;
  }

  lemma DescendsStep<H(!new)>(children: map<H, seq<H>>, root: H, b: H, child: H)
    requires Descends(children, root, b) && child in Kids(children, b)
    ensures Descends(children, root, child)
  {
    var path :| IsPath(children, path) && path[0] == root && path[|path| - 1] == b;
    assert IsPath(children, path + [child]);
    assert (path + [child])[|path + [child]| - 1] == child;
  }

  /** A set that contains the root and all children of its members contains every descendant. */
  lemma {:induction false} ClosedContainsPath<H(!new)>(children: map<H, seq<H>>, closed: set<H>, path: seq<H>)
    requires IsPath(children, path) && path[0] in closed
    requires forall b, c | b in closed && c in Kids(children, b) :: c in closed
    ensures path[|path| - 1] in closed
    decreases |path|
  {
    if |path| > 1 {
      assert path[0 + 1] in Kids(children, path[0]);
      forall i | 0 <= i < |path[1..]| - 1 ensures path[1..][i + 1] in Kids(children, path[1..][i]) {
        assert path[i + 1 + 1] in Kids(children, path[i + 1]);
      }
      ClosedContainsPath(children, closed, path[1..]);
    }
  }

  /** `blocks_in_branch`: terminates on every acyclic relation and returns exactly the root and its
      descendants. */
  method BlocksInBranch<H(==, !new)>(children: map<H, seq<H>>, root: H, ghost rank: H -> nat) returns (branch: seq<H>)
    requires Ranked(children, rank)
    ensures forall x :: x in branch <==> Descends(children, root, x)
    ensures |branch| == Visits(children, rank, [root], rank(root) + 1)
  {
    ghost var bound := rank(root) + 1;
    var stack := [root];
    branch := [];
    DescendsSelf(children, root);
    while stack != []
      invariant Below(rank, stack, bound)
      invariant |branch| + Visits(children, rank, stack, bound) == Visits(children, rank, [root], bound)
      invariant forall x | x in branch || x in stack :: Descends(children, root, x)
      invariant root in branch || root in stack
      invariant forall b, c | b in branch && c in Kids(children, b) :: c in branch || c in stack
      decreases Visits(children, rank, stack, bound)
    {
      var block := stack[|stack| - 1];
      ghost var rest := stack[..|stack| - 1];
      assert stack == rest + [block];
      stack := stack[..|stack| - 1];
      VisitsConcat(children, rank, rest, [block], bound);
      if block in children {
        ghost var kids := children[block];
        forall c | c in kids ensures Descends(children, root, c) {
          DescendsStep(children, root, block, c);
        }
        VisitsIgnoresBound(children, rank, kids, rank(block), bound);
        VisitsConcat(children, rank, rest, kids, bound);
        stack := stack + children[block];
      }
      branch := branch + [block];
    }
    ghost var found := set x | x in branch;
    forall x | Descends(children, root, x) ensures x in branch {
      var path :| IsPath(children, path) && path[0] == root && path[|path| - 1] == x;
      ClosedContainsPath(children, found, path);
    }
  }
}
