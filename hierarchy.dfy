/**
 * The agent hierarchy: each salesperson may name a parent, and the descendant
 * search that guards invitation acceptance.  The source's search recurses over
 * the children found by `parent_id = ?` queries with no bound; here it carries
 * a fuel equal to the number of salespersons, and `CircularReferenceExact`
 * shows that this fuel loses nothing when the parent links have no cycle.
 */
module Hierarchy {
  import opened Outcomes
  import opened SalesModels

  /** Deepest level an agent may have. */
  const MaxAgentLevel: int := 5

  type Persons = map<nat, Salesperson>

  /** The parent link of `x`; a missing row has none. */
  function ParentOf(sp: Persons, x: nat): Option<nat>
  {
    if x in sp then sp[x].parentId else None
  }

  /** The id reached from `x` after `k` parent hops, if the chain is that long. */
  function Up(sp: Persons, x: nat, k: nat): Option<nat>
    decreases k
  {
    if k == 0 then Some(x)
    else match ParentOf(sp, x)
      case None => None
      case Some(p) => Up(sp, p, k - 1)
  }

  /** `y` is `x` itself or one of its ancestors. */
  ghost predicate Reaches(sp: Persons, x: nat, y: nat)
  {
    exists k: nat :: Up(sp, x, k) == Some(y)
  }

  /** No salesperson is its own ancestor. */
  ghost predicate Acyclic(sp: Persons)
  {
    forall x: nat, k: nat :: x in sp && k >= 1 ==> Up(sp, x, k) != Some(x)
  }

  /**
   * isCircularReference(p, c) with a hop budget: `p` is `c`, or a child of `c`
   * (a row whose parent is `c`) leads to `p` within the remaining budget.
   */
  function CircularFuel(sp: Persons, p: nat, c: nat, fuel: nat): bool
    decreases fuel
  {
    p == c ||
    (fuel > 0 && exists child :: child in sp && sp[child].parentId == Some(c) && CircularFuel(sp, p, child, fuel - 1))
  }

  /**
   * isCircularReference(potentialParent, child), searched to the depth of the
   * whole table: a salesperson is always circular with itself, and otherwise
   * the answer is false unless `child` has children.
   */
  function IsCircularReference(sp: Persons, potentialParent: nat, child: nat): (r: bool)
    ensures potentialParent == child ==> r
    ensures r && potentialParent != child ==> exists c :: c in sp && sp[c].parentId == Some(child)
  {
    CircularFuel(sp, potentialParent, child, |sp|)
  }

  // ---------------------------------------------------------------------------
  // Chains of parent links.

  /** Going i hops then j hops is going i + j hops. */
  lemma {:induction false} UpSplit(sp: Persons, x: nat, i: nat, j: nat)
    ensures Up(sp, x, i + j) == match Up(sp, x, i) { case None => None case Some(y) => Up(sp, y, j) }
    decreases i
  {
    if i > 0 {
      match ParentOf(sp, x)
      case None =>
      case Some(p) => UpSplit(sp, p, i - 1, j);
    }
  }

  /** The last hop of a chain of k + 1 hops leaves a row whose parent is the end. */
  lemma LastHop(sp: Persons, x: nat, k: nat, y: nat)
    requires Up(sp, x, k + 1) == Some(y)
    ensures Up(sp, x, k).Some? && Up(sp, x, k).value in sp && sp[Up(sp, x, k).value].parentId == Some(y)
  {
    UpSplit(sp, x, k, 1);
  }

  /** A budget-bounded search finds only true descendants, within the budget. */
  lemma {:induction false} CircularSound(sp: Persons, p: nat, c: nat, fuel: nat)
    requires CircularFuel(sp, p, c, fuel)
    ensures exists k: nat :: k <= fuel && Up(sp, p, k) == Some(c)
    decreases fuel
  {
    if p == c {
      assert Up(sp, p, 0) == Some(c);
    } else {
      var child :| child in sp && sp[child].parentId == Some(c) && CircularFuel(sp, p, child, fuel - 1);
      CircularSound(sp, p, child, fuel - 1);
      var k: nat :| k <= fuel - 1 && Up(sp, p, k) == Some(child);
      UpSplit(sp, p, k, 1);
      assert Up(sp, p, k + 1) == Some(c);
    }
  }

  /** A descendant k hops below is found by any budget of at least k. */
  lemma {:induction false} CircularComplete(sp: Persons, p: nat, c: nat, k: nat, fuel: nat)
    requires Up(sp, p, k) == Some(c) && k <= fuel
    ensures CircularFuel(sp, p, c, fuel)
    decreases k
  {
    if k > 0 {
      LastHop(sp, p, k - 1, c);
      var child := Up(sp, p, k - 1).value;
      CircularComplete(sp, p, child, k - 1, fuel - 1);
    }
  }

  function Elements(s: seq<nat>): set<nat>
  {
    set x | x in s
  }

  lemma {:induction false} DistinctCardinality(s: seq<nat>)
    requires forall i, j :: 0 <= i < j < |s| ==> s[i] != s[j]
    ensures |Elements(s)| == |s|
  {
    if |s| > 0 {
      var init, last := s[..|s| - 1], s[|s| - 1];
      DistinctCardinality(init);
      assert last !in Elements(init) by {
        forall j | 0 <= j < |init| ensures init[j] != last {
          assert s[j] != s[|s| - 1];
        }
      }
      assert Elements(s) == Elements(init) + {last} by {
        assert s == init + [last];
      }
    }
  }

  lemma SubsetCardinality(a: set<nat>, b: set<nat>)
    requires a <= b
    ensures |a| <= |b|
  {
    assert b == a + (b - a);
  }

  /** Without cycles a chain visits distinct rows, so it is no longer than the table. */
  lemma ChainBound(sp: Persons, p: nat, c: nat, k: nat)
    requires Acyclic(sp) && Up(sp, p, k) == Some(c)
    ensures k <= |sp|
  {
    forall i | 0 <= i < k
      ensures Up(sp, p, i).Some? && Up(sp, p, i).value in sp
    {
      UpSplit(sp, p, i, k - i);
      UpSplit(sp, p, i, 1);
      UpSplit(sp, Up(sp, p, i).value, 1, k - i - 1);
    }
    var chain := seq(k, i requires 0 <= i < k => Up(sp, p, i).value);
    forall i, j | 0 <= i < j < k
      ensures chain[i] != chain[j]
    {
      if chain[i] == chain[j] {
        UpSplit(sp, p, i, j - i);
        assert false;
      }
    }
    DistinctCardinality(chain);
    assert Elements(chain) <= sp.Keys;
    SubsetCardinality(Elements(chain), sp.Keys);
    assert |sp.Keys| == |sp|;
  }

  /** On an acyclic hierarchy isCircularReference(p, c) holds exactly when p is c or a descendant of c. */
  lemma CircularReferenceExact(sp: Persons, p: nat, c: nat)
    requires Acyclic(sp)
    ensures IsCircularReference(sp, p, c) <==> Reaches(sp, p, c)
  {
    if IsCircularReference(sp, p, c) {
      CircularSound(sp, p, c, |sp|);
    }
    if Reaches(sp, p, c) {
      var k: nat :| Up(sp, p, k) == Some(c);
      ChainBound(sp, p, c, k);
      CircularComplete(sp, p, c, k, |sp|);
    }
  }

  // ---------------------------------------------------------------------------
  // Re-parenting one salesperson.

  /** `after` differs from `before` only in the parent link of `node`, which now names `parent`. */
  ghost predicate Relinked(before: Persons, after: Persons, node: nat, parent: nat)
  {
    before.Keys == after.Keys &&
    ParentOf(after, node) == Some(parent) &&
    forall z :: z != node ==> ParentOf(after, z) == ParentOf(before, z)
  }

  /** A chain that avoids `node` is the same before and after the relink. */
  lemma {:induction false} RelinkFrame(before: Persons, after: Persons, node: nat, parent: nat, y: nat, m: nat)
    requires Relinked(before, after, node, parent)
    requires forall i :: 0 <= i < m ==> Up(after, y, i) != Some(node)
    ensures Up(after, y, m) == Up(before, y, m)
    decreases m
  {
    if m > 0 {
      assert Up(after, y, 0) == Some(y);
      match ParentOf(after, y)
      case None =>
      case Some(z) =>
        forall i | 0 <= i < m - 1
          ensures Up(after, z, i) != Some(node)
        {
          assert Up(after, y, i + 1) == Up(after, z, i);
        }
        RelinkFrame(before, after, node, parent, z, m - 1);
    }
  }

  /** If the new parent does not reach `node`, its chain is untouched by the relink. */
  lemma {:induction false} RelinkFromParent(before: Persons, after: Persons, node: nat, parent: nat, m: nat)
    requires Relinked(before, after, node, parent)
    requires !Reaches(before, parent, node)
    ensures Up(after, parent, m) == Up(before, parent, m)
    decreases m
  {
    forall i | 0 <= i < m
      ensures Up(after, parent, i) != Some(node)
    {
      RelinkFromParent(before, after, node, parent, i);
      assert Up(before, parent, i) != Some(node);
    }
    RelinkFrame(before, after, node, parent, parent, m);
  }

  /**
   * Giving `node` a parent that is neither `node` nor one of its descendants
   * keeps the hierarchy free of cycles.
   */
  lemma RelinkAcyclic(before: Persons, after: Persons, node: nat, parent: nat)
    requires Acyclic(before)
    requires Relinked(before, after, node, parent)
    requires !Reaches(before, parent, node)
    ensures Acyclic(after)
  {
    forall x: nat, k: nat | x in after && k >= 1
      ensures Up(after, x, k) != Some(x)
    {
      if Up(after, x, k) == Some(x) {
        if i :| 0 <= i < k && Up(after, x, i) == Some(node) {
          UpSplit(after, x, i, k);
          UpSplit(after, x, k, i);
          assert Up(after, node, k) == Some(node);
          assert Up(after, node, k) == Up(after, parent, k - 1);
          RelinkFromParent(before, after, node, parent, k - 1);
          assert false;
        } else {
          RelinkFrame(before, after, node, parent, x, k);
          assert false;
        }
      }
    }
  }
}
