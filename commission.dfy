/**
 * The multi-level agent commission cascade, as pure specification: which
 * ancestors of a seller get a share of a sale, at which rate, and how their
 * commission totals grow.  The store-changing walk itself is
 * `AgentHandler.ProcessAgentCommission`.
 */
module Commission {
  import opened Outcomes
  import opened SalesModels
  import opened Hierarchy

  /** Shares below this amount end the walk. */
  const MinCommission: real := 0.01

  function Pow2(n: nat): (p: real)
    ensures p >= 1.0
  {
    if n == 0 then 1.0 else 2.0 * Pow2(n - 1)
  }

  /** math.Pow(2, e) for an integer exponent of either sign. */
  function Power2(e: int): (p: real)
    ensures p > 0.0
    ensures e < 0 ==> p * Pow2(-e) == 1.0
  {
    if e >= 0 then Pow2(e) else 1.0 / Pow2(-e)
  }

  /**
   * The rate an ancestor receives on a sale passed up from a salesperson at
   * `currentLevel`: its ParentCommissionRate when it is exactly one level up,
   * otherwise that rate divided by 2^(levelDifference - 1).
   */
  function AncestorRate(currentLevel: int, parent: Salesperson): (rate: real)
    ensures currentLevel - 1 == parent.level ==> rate == parent.parentCommissionRate
    ensures currentLevel - parent.level - 1 > 0 && parent.parentCommissionRate >= 0.0 ==>
              0.0 <= rate && 2.0 * rate <= parent.parentCommissionRate
  {
    if currentLevel - 1 == parent.level then parent.parentCommissionRate
    else
      var d := currentLevel - parent.level - 1;
      if d > 0 && parent.parentCommissionRate >= 0.0 then
        assert Pow2(d) == 2.0 * Pow2(d - 1);
        DivideByAtLeastTwo(parent.parentCommissionRate, Power2(d));
        parent.parentCommissionRate / Power2(d)
      else parent.parentCommissionRate / Power2(d)
  }

  /** A non-negative amount divided by at least two is non-negative and at most half of it. */
  lemma DivideByAtLeastTwo(c: real, divisor: real)
    requires c >= 0.0 && divisor >= 2.0
    ensures 0.0 <= c / divisor && 2.0 * (c / divisor) <= c
  {
    var q := c / divisor;
    assert q * divisor == c;
    assert (divisor - 2.0) * q >= 0.0;
  }

  /**
   * When the ancestor is two or more levels up, every extra level halves its
   * rate; when its stored level is not below the current one (levels go stale
   * after a re-parenting) the division by a negative power of two multiplies
   * the rate instead.
   */
  lemma AncestorRateScale(currentLevel: int, parent: Salesperson)
    requires currentLevel - 1 != parent.level
    ensures var d := currentLevel - parent.level - 1;
            (d > 0 ==> AncestorRate(currentLevel, parent) * Pow2(d) == parent.parentCommissionRate) &&
            (d < 0 ==> AncestorRate(currentLevel, parent) == parent.parentCommissionRate * Pow2(-d))
  {
  }

  /** `sale.SaleAmount * commissionRate`. */
  function ShareAmount(saleAmount: real, rate: real): real
  {
    saleAmount * rate
  }

  /** One ancestor's share, before it becomes a commission row. */
  datatype Share = Share(salespersonId: nat, agentId: nat, agentLevel: int, rate: real, amount: real)

  /**
   * The shares of the walk that starts at `current` (level `level`, parent link
   * `parentId`) and may take `budget` more hops: at most one share per hop, and
   * a failure names a parent id on the chain that has no row.
   */
  function Cascade(sp: Persons, saleAmount: real, current: nat, parentId: Option<nat>, level: int, budget: nat)
    : (r: Result<seq<Share>, nat>)
    ensures r.Success? ==> |r.value| <= budget
    ensures r.Failure? ==> r.error !in sp
    decreases budget
  {
    if parentId.None? || budget == 0 then Success([])
    else if parentId.value !in sp then Failure(parentId.value)
    else
      var parent := sp[parentId.value];
      var rate := AncestorRate(level, parent);
      var amount := ShareAmount(saleAmount, rate);
      if amount < MinCommission then Success([])
      else match Cascade(sp, saleAmount, parentId.value, parent.parentId, parent.level, budget - 1)
        case Failure(missing) => Failure(missing)
        case Success(rest) => Success([Share(current, parentId.value, parent.level, rate, amount)] + rest)
  }

  /**
   * The cascade of a sale by `seller`: at most MaxAgentLevel shares, none at
   * all for a seller without a parent, and a failure names a missing ancestor.
   */
  function CascadeFor(sp: Persons, seller: nat, saleAmount: real): (r: Result<seq<Share>, nat>)
    requires seller in sp
    ensures r.Success? ==> |r.value| <= MaxAgentLevel
    ensures r.Failure? ==> r.error !in sp
    ensures sp[seller].parentId.None? ==> r == Success([])
  {
    Cascade(sp, saleAmount, seller, sp[seller].parentId, sp[seller].level, MaxAgentLevel)
  }

  /** One step of the walk: a present parent whose share reaches the cutoff is paid, then the walk goes on from it. */
  lemma CascadeStep(sp: Persons, saleAmount: real, current: nat, parentId: Option<nat>, level: int, budget: nat)
    requires parentId.Some? && budget > 0 && parentId.value in sp
    requires ShareAmount(saleAmount, AncestorRate(level, sp[parentId.value])) >= MinCommission
    ensures var parent := sp[parentId.value];
            var rate := AncestorRate(level, parent);
            Cascade(sp, saleAmount, current, parentId, level, budget)
              == match Cascade(sp, saleAmount, parentId.value, parent.parentId, parent.level, budget - 1)
                 case Failure(missing) => Failure(missing)
                 case Success(rest) => Success([Share(current, parentId.value, parent.level, rate, ShareAmount(saleAmount, rate))] + rest)
  {
  }

  /**
   * Every share is paid to an existing row, passed up from the previous
   * payee (the seller first), at the ancestor rate for the level it comes
   * from, and reaches the cutoff.
   */
  lemma {:induction false} CascadeRow(sp: Persons, saleAmount: real, current: nat, parentId: Option<nat>,
                                      level: int, budget: nat, i: nat)
    requires Cascade(sp, saleAmount, current, parentId, level, budget).Success?
    requires i < |Cascade(sp, saleAmount, current, parentId, level, budget).value|
    ensures var rows := Cascade(sp, saleAmount, current, parentId, level, budget).value;
            var s := rows[i];
            var fromLevel := if i == 0 then level else rows[i - 1].agentLevel;
            s.agentId in sp &&
            s.salespersonId == (if i == 0 then current else rows[i - 1].agentId) &&
            (if i == 0 then parentId else ParentOf(sp, rows[i - 1].agentId)) == Some(s.agentId) &&
            s.agentLevel == sp[s.agentId].level &&
            s.rate == AncestorRate(fromLevel, sp[s.agentId]) &&
            s.amount == ShareAmount(saleAmount, s.rate) &&
            s.amount >= MinCommission
    decreases budget
  {
    var parent := sp[parentId.value];
    CascadeStep(sp, saleAmount, current, parentId, level, budget);
    if i > 0 {
      CascadeRow(sp, saleAmount, parentId.value, parent.parentId, parent.level, budget - 1, i - 1);
    }
  }

  /**
   * The walk ends early only where the loop breaks: after the last payee
   * there is no parent, or the next share falls below the cutoff.
   */
  lemma {:induction false} CascadeStops(sp: Persons, saleAmount: real, current: nat, parentId: Option<nat>,
                                        level: int, budget: nat)
    requires Cascade(sp, saleAmount, current, parentId, level, budget).Success?
    requires |Cascade(sp, saleAmount, current, parentId, level, budget).value| < budget
    ensures var rows := Cascade(sp, saleAmount, current, parentId, level, budget).value;
            var lastId := if rows == [] then current else rows[|rows| - 1].agentId;
            var next := if rows == [] then parentId else ParentOf(sp, lastId);
            var lastLevel := if rows == [] then level else rows[|rows| - 1].agentLevel;
            next.None? || (next.value in sp && ShareAmount(saleAmount, AncestorRate(lastLevel, sp[next.value])) < MinCommission)
    decreases budget
  {
    if parentId.Some? && budget > 0 && parentId.value in sp {
      var parent := sp[parentId.value];
      if ShareAmount(saleAmount, AncestorRate(level, parent)) >= MinCommission {
        CascadeStep(sp, saleAmount, current, parentId, level, budget);
        var rest := Cascade(sp, saleAmount, parentId.value, parent.parentId, parent.level, budget - 1).value;
        CascadeStops(sp, saleAmount, parentId.value, parent.parentId, parent.level, budget - 1);
        if rest != [] {
          CascadeRow(sp, saleAmount, parentId.value, parent.parentId, parent.level, budget - 1, |rest| - 1);
        }
      }
    }
  }

  /** The i-th share goes to the seller's ancestor i + 1 hops up. */
  lemma {:induction false} CascadeFollowsParents(sp: Persons, saleAmount: real, current: nat, parentId: Option<nat>,
                                                 level: int, budget: nat, i: nat)
    requires current in sp && parentId == sp[current].parentId
    requires Cascade(sp, saleAmount, current, parentId, level, budget).Success?
    requires i < |Cascade(sp, saleAmount, current, parentId, level, budget).value|
    ensures Up(sp, current, i + 1) == Some(Cascade(sp, saleAmount, current, parentId, level, budget).value[i].agentId)
    decreases budget
  {
    var parent := sp[parentId.value];
    var rest := Cascade(sp, saleAmount, parentId.value, parent.parentId, parent.level, budget - 1);
    if i > 0 {
      CascadeFollowsParents(sp, saleAmount, parentId.value, parent.parentId, parent.level, budget - 1, i - 1);
    }
  }

  // ---------------------------------------------------------------------------
  // Crediting the ancestors.

  /** `total_commission = total_commission + amount` for one share. */
  function CreditOne(sp: Persons, s: Share): Persons
  {
    if s.agentId in sp then sp[s.agentId := sp[s.agentId].(totalCommission := sp[s.agentId].totalCommission + s.amount)]
    else sp
  }

  /** The shares credited in order. */
  function Credit(sp: Persons, rows: seq<Share>): Persons
    decreases |rows|
  {
    if rows == [] then sp else CreditOne(Credit(sp, rows[..|rows| - 1]), rows[|rows| - 1])
  }

  /** The sum of the shares that go to `agent`. */
  function AmountFor(rows: seq<Share>, agent: nat): real
    decreases |rows|
  {
    if rows == [] then 0.0
    else AmountFor(rows[..|rows| - 1], agent) + (if rows[|rows| - 1].agentId == agent then rows[|rows| - 1].amount else 0.0)
  }

  /** Crediting adds no salesperson and removes none. */
  lemma {:induction false} CreditKeys(sp: Persons, rows: seq<Share>)
    ensures Credit(sp, rows).Keys == sp.Keys
    decreases |rows|
  {
    if rows != [] {
      CreditKeys(sp, rows[..|rows| - 1]);
    }
  }

  /**
   * Crediting changes nothing but commission totals: every salesperson's total
   * grows by exactly the sum of its shares.
   */
  lemma {:induction false} CreditTotals(sp: Persons, rows: seq<Share>)
    ensures Credit(sp, rows).Keys == sp.Keys
    ensures forall a :: a in sp ==>
              Credit(sp, rows)[a] == sp[a].(totalCommission := sp[a].totalCommission + AmountFor(rows, a))
    decreases |rows|
  {
    if rows != [] {
      CreditTotals(sp, rows[..|rows| - 1]);
    }
  }

  /** On an acyclic hierarchy no ancestor receives two shares of one sale. */
  lemma CascadeAgentsDistinct(sp: Persons, seller: nat, saleAmount: real)
    requires Acyclic(sp) && seller in sp
    requires CascadeFor(sp, seller, saleAmount).Success?
    ensures var rows := CascadeFor(sp, seller, saleAmount).value;
            forall i, j :: 0 <= i < j < |rows| ==> rows[i].agentId != rows[j].agentId
  {
    var rows := CascadeFor(sp, seller, saleAmount).value;

    forall i, j | 0 <= i < j < |rows|
      ensures rows[i].agentId != rows[j].agentId
    {
      CascadeFollowsParents(sp, saleAmount, seller, sp[seller].parentId, sp[seller].level, MaxAgentLevel, i);
      CascadeFollowsParents(sp, saleAmount, seller, sp[seller].parentId, sp[seller].level, MaxAgentLevel, j);
      if rows[i].agentId == rows[j].agentId {
        UpSplit(sp, seller, i + 1, j - i);
        assert false;
      }
    }
  }
}
