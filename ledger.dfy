/**
 * The bookkeeping of a salesperson's batch of keys, shared by the batch
 * handler and the salesperson's own key generation: the assignment's
 * keys_generated grows by the count, one pending sale row is recorded, and the
 * salesperson's running totals grow by the sale amount and its commission.
 */
module Ledger {
  import opened Tables
  import opened SalesModels
  import opened Database

  /** count × price, the source's float64 product taken on reals. */
  function SaleAmount(count: int, price: real): (amount: real)
    ensures count >= 0 && price >= 0.0 ==> amount >= 0.0
    ensures count == 0 ==> amount == 0.0
    ensures count == 1 ==> amount == price
  {
    count as real * price
  }

  /** A positive limit that `count` more keys would exceed; a limit of 0 means unlimited. */
  predicate OverLimit(p: SalespersonProduct, count: int)
    ensures p.keyGenLimit <= 0 ==> !OverLimit(p, count)
    ensures p.keyGenLimit > 0 ==> (!OverLimit(p, count) <==> p.keysGenerated + count <= p.keyGenLimit)
  {
    p.keyGenLimit > 0 && p.keysGenerated + count > p.keyGenLimit
  }

  /** The salesperson updated by `UpdateColumns` on total_sales and total_commission; no row, no change. */
  function Credited(persons: Table<Salesperson>, id: nat, sale: SalespersonSale): Table<Salesperson>
    requires persons.Valid()
  {
    if id in persons.rows then
      var sp := persons.rows[id];
      persons.Put(id, sp.(totalSales := sp.totalSales + sale.saleAmount,
                          totalCommission := sp.totalCommission + sale.commission))
    else persons
  }

  /** The three tables after the bookkeeping of `count` keys sold as `sale` under assignment `pid`. */
  function Booked(products: Table<SalespersonProduct>, sales: Table<SalespersonSale>, persons: Table<Salesperson>,
                  pid: nat, count: int, sale: SalespersonSale)
    : (Table<SalespersonProduct>, Table<SalespersonSale>, Table<Salesperson>)
    requires products.Valid() && sales.Valid() && persons.Valid() && pid in products.rows
  {
    var p := products.rows[pid];
    (products.Put(pid, p.(keysGenerated := p.keysGenerated + count)),
     sales.Insert(sale).0,
     Credited(persons, sale.salespersonId, sale))
  }

  /**
   * The store after the bookkeeping: the same assignments and salespersons,
   * one more sale, and every other table as it was.
   */
  function BookSale(s: Store, pid: nat, count: int, sale: SalespersonSale): (r: Store)
    requires s.products.Valid() && s.sales.Valid() && s.salespersons.Valid() && pid in s.products.rows
    ensures r.products.rows.Keys == s.products.rows.Keys
    ensures r.salespersons.rows.Keys == s.salespersons.rows.Keys
    ensures r.sales.rows.Keys == s.sales.rows.Keys + {s.sales.next}
    ensures r == s.(products := r.products, sales := r.sales, salespersons := r.salespersons)
  {
    var booked := Booked(s.products, s.sales, s.salespersons, pid, count, sale);
    s.(products := booked.0, sales := booked.1, salespersons := booked.2)
  }

  /**
   * The three writes of the transaction: `UpdateColumn("keys_generated",
   * keys_generated + count)` on the assignment, the sale insert, and the
   * `UpdateColumns` on the salesperson's totals.
   */
  method BookRows(products: Table<SalespersonProduct>, sales: Table<SalespersonSale>, persons: Table<Salesperson>,
                  pid: nat, count: int, sale: SalespersonSale)
    returns (products': Table<SalespersonProduct>, sales': Table<SalespersonSale>, persons': Table<Salesperson>)
    requires products.Valid() && sales.Valid() && persons.Valid() && pid in products.rows
    ensures (products', sales', persons') == Booked(products, sales, persons, pid, count, sale)
  {
    var assignment := products.rows[pid];
    products' := products.Put(pid, assignment.(keysGenerated := assignment.keysGenerated + count));
    sales' := sales.Insert(sale).0;
    persons' := persons;
    if sale.salespersonId in persons.rows {
      var sp := persons.rows[sale.salespersonId];
      persons' := persons.Put(sale.salespersonId, sp.(totalSales := sp.totalSales + sale.saleAmount,
                                                      totalCommission := sp.totalCommission + sale.commission));
    }
  }

  /** The bookkeeping keeps every invariant of the store. */
  lemma BookSaleValid(s: Store, pid: nat, count: int, sale: SalespersonSale)
    requires s.Valid() && pid in s.products.rows
    ensures BookSale(s, pid, count, sale).Valid()
  {
    var after := BookSale(s, pid, count, sale);
    var prods := after.products.rows;
    forall i, j | i in prods && j in prods && i != j
      ensures !SameProduct(prods[i], prods[j].salespersonId, prods[j].softwareId, prods[j].keyTypeId)
    {
      assert !SameProduct(s.products.rows[i], s.products.rows[j].salespersonId,
                          s.products.rows[j].softwareId, s.products.rows[j].keyTypeId);
    }
    var persons := after.salespersons.rows;
    forall i, j | i in persons && j in persons && i != j
      ensures persons[i].username != persons[j].username && persons[i].agentCode != persons[j].agentCode
    {
      assert s.salespersons.rows[i].username != s.salespersons.rows[j].username;
    }
  }

  /**
   * What the bookkeeping writes and what it leaves: the assignment's
   * keys_generated grows by the count and nothing else of it changes, the
   * sale is the one new sale row, the salesperson's totals grow by its amount
   * and its commission, and no other row of any table changes.
   */
  lemma BookSaleEffect(s: Store, pid: nat, count: int, sale: SalespersonSale)
    requires s.products.Valid() && s.sales.Valid() && s.salespersons.Valid() && pid in s.products.rows
    ensures var after := BookSale(s, pid, count, sale);
            var p := s.products.rows[pid];
            after.products.rows == s.products.rows[pid := p.(keysGenerated := p.keysGenerated + count)] &&
            after.sales.rows == s.sales.rows[s.sales.next := sale] && s.sales.next !in s.sales.rows &&
            after.salespersons.rows.Keys == s.salespersons.rows.Keys &&
            (forall id :: id in s.salespersons.rows && id != sale.salespersonId ==>
               after.salespersons.rows[id] == s.salespersons.rows[id]) &&
            (sale.salespersonId in s.salespersons.rows ==>
               var before := s.salespersons.rows[sale.salespersonId];
               after.salespersons.rows[sale.salespersonId] ==
                 before.(totalSales := before.totalSales + sale.saleAmount,
                         totalCommission := before.totalCommission + sale.commission)) &&
            after == s.(products := after.products, sales := after.sales, salespersons := after.salespersons)
  {
  }

  /** One row at most assigns a product to a salesperson, so a row found for the triple is the only one. */
  lemma ProductUnique(s: Store, pid: nat, salespersonId: nat, softwareId: nat, keyTypeId: nat)
    requires s.Valid() && pid in s.products.rows && SameProduct(s.products.rows[pid], salespersonId, softwareId, keyTypeId)
    ensures forall q :: q in s.products.rows && SameProduct(s.products.rows[q], salespersonId, softwareId, keyTypeId) ==> q == pid
  {
  }

  /**
   * The quota is kept: a positive limit that the count did not exceed before
   * the batch bounds keys_generated after it.
   */
  lemma BookSaleKeepsQuota(s: Store, pid: nat, count: int, sale: SalespersonSale)
    requires s.products.Valid() && s.sales.Valid() && s.salespersons.Valid() && pid in s.products.rows
    requires s.products.rows[pid].keyGenLimit > 0 && !OverLimit(s.products.rows[pid], count)
    ensures var p := BookSale(s, pid, count, sale).products.rows[pid];
            p.keysGenerated == s.products.rows[pid].keysGenerated + count && p.keysGenerated <= p.keyGenLimit
  {
  }
}
