/**
 * The salesperson handlers: a salesperson minting keys of a product assigned
 * to it (its quota, the sale and the commission recorded in one transaction),
 * assigning a product to a salesperson, the partial update of a salesperson,
 * and the login flow with its rate limiter.  The authenticated salesperson id,
 * the clock readings and the random bytes of the code generators are
 * parameters; bcrypt is a parameter too: the password check is a function and
 * a new password arrives already hashed.
 */
module SalespersonHandler {
  import opened Outcomes
  import opened Tables
  import opened Clock
  import opened Keys
  import opened Catalog
  import opened SalesModels
  import opened Database
  import opened Ledger
  import CodeGenerator
  import LoginLimiting

  datatype Error =
    | InvalidRequest
    | InvalidSalespersonId
    | SalespersonNotFound
    | SoftwareNotFound
    | KeyTypeNotFound
    | NotBound
    | NoPermission
    | LimitExceeded
    | StoreConflict          // a write the unique indexes reject
  {
    /** The HTTP status the handler responds with. */
    function HttpStatus(): int {
      match this
      case SalespersonNotFound => 404
      case SoftwareNotFound => 404
      case KeyTypeNotFound => 404
      case NoPermission => 403
      case LimitExceeded => 403
      case StoreConflict => 500
      case _ => 400
    }
  }

  // ---------------------------------------------------------------------------
  // GenerateKeysForSalesperson.

  datatype GenerateRequest = GenerateRequest(
    softwareId: nat,
    keyTypeId: nat,
    count: int,
    customerName: string,
    customerPhone: string,
    customerEmail: string,
    notes: string)

  /**
   * What one key consumes: the clock reading and the four random characters
   * of its activation code, generated first, then those of its card code.
   */
  datatype SlotEntropy = SlotEntropy(
    keyCodeNanos: int,
    keyCodeRandom: seq<CodeGenerator.Byte>,
    codeNanos: int,
    codeRandom: seq<CodeGenerator.Byte>)
  {
    predicate WellSized() {
      |keyCodeRandom| == 4 && |codeRandom| == 4
    }
  }

  ghost predicate EntropyFor(count: nat, entropy: seq<SlotEntropy>) {
    |entropy| == count && forall i :: 0 <= i < |entropy| ==> entropy[i].WellSized()
  }

  /** The active assignment of the requested product to the salesperson. */
  predicate ActiveProduct(p: SalespersonProduct, salespersonId: nat, req: GenerateRequest) {
    SameProduct(p, salespersonId, req.softwareId, req.keyTypeId) && p.isActive
  }

  predicate HasActiveProduct(s: Store, salespersonId: nat, req: GenerateRequest) {
    exists pid :: pid in s.products.rows && ActiveProduct(s.products.rows[pid], salespersonId, req)
  }

  predicate ActiveProductOverLimit(s: Store, salespersonId: nat, req: GenerateRequest) {
    exists pid :: pid in s.products.rows && ActiveProduct(s.products.rows[pid], salespersonId, req) &&
                  OverLimit(s.products.rows[pid], req.count)
  }

  /**
   * The first check the request fails, in the handler's order, or None.  A
   * request passes exactly when both ids are given and the count is positive
   * (there is no upper bound), the salesperson, the software and the key type
   * exist (neither is required to be enabled), the pair is bound, and the
   * salesperson holds an active assignment whose quota the count does not
   * exceed.
   */
  function GenerateCheck(s: Store, salespersonId: nat, req: GenerateRequest): (e: Option<Error>)
    ensures e.None? <==>
              req.softwareId != 0 && req.keyTypeId != 0 && req.count > 0 &&
              salespersonId in s.salespersons.rows &&
              req.softwareId in s.software.rows && req.keyTypeId in s.keyTypes.rows &&
              Bound(s, req.softwareId, req.keyTypeId) &&
              HasActiveProduct(s, salespersonId, req) && !ActiveProductOverLimit(s, salespersonId, req)
    ensures e == Some(InvalidRequest) <==> req.softwareId == 0 || req.keyTypeId == 0 || req.count <= 0
  {
    if req.softwareId == 0 || req.keyTypeId == 0 || req.count <= 0 then Some(InvalidRequest)
    else if salespersonId !in s.salespersons.rows then Some(SalespersonNotFound)
    else if req.softwareId !in s.software.rows then Some(SoftwareNotFound)
    else if req.keyTypeId !in s.keyTypes.rows then Some(KeyTypeNotFound)
    else if !Bound(s, req.softwareId, req.keyTypeId) then Some(NotBound)
    else if !HasActiveProduct(s, salespersonId, req) then Some(NoPermission)
    else if ActiveProductOverLimit(s, salespersonId, req) then Some(LimitExceeded)
    else None
  }

  /**
   * The key of one slot whose codes draw the counter values `counter + 1`
   * (activation code) and `counter + 2` (card code): created by the
   * salesperson, no creator type and no salesperson id recorded, unused.
   */
  function SalesKey(salespersonId: nat, req: GenerateRequest, keyType: KeyType, software: Software,
                    counter: int, e: SlotEntropy): Key
  {
    SlotKey(salespersonId, req, keyType, software,
            CodeGenerator.CompositeCode("CODE", e.codeNanos, counter + 2, e.codeRandom),
            CodeGenerator.CompositeCode("KEY", e.keyCodeNanos, counter + 1, e.keyCodeRandom))
  }

  /** The key the loop builds from a card code and an activation code. */
  function SlotKey(salespersonId: nat, req: GenerateRequest, keyType: KeyType, software: Software,
                   code: string, keyCode: string): Key
  {
    Key(code, keyCode, req.keyTypeId, keyType.name, keyType.hours, keyType.price, req.softwareId, software.name,
        Unused, salespersonId, "", 0, None, "", None, None, None, false)
  }

  /** The keys of a request, slot `i` drawing counter values after `counter + 2i`. */
  function SalesKeys(salespersonId: nat, req: GenerateRequest, keyType: KeyType, software: Software,
                     counter: int, entropy: seq<SlotEntropy>): seq<Key>
  {
    seq(|entropy|, i requires 0 <= i < |entropy| =>
      SalesKey(salespersonId, req, keyType, software, counter + 2 * i, entropy[i]))
  }

  predicate SharesCode(a: Key, b: Key) {
    a.code == b.code || a.keyCode == b.keyCode
  }

  /** The unique indexes reject `k` after the keys `rows` and `prior`. */
  predicate Taken(rows: map<nat, Key>, prior: seq<Key>, k: Key) {
    (exists id :: id in rows && SharesCode(rows[id], k)) ||
    (exists j :: 0 <= j < |prior| && SharesCode(prior[j], k))
  }

  /** The insert of `batch[i]`, after the earlier keys of the batch, is rejected. */
  predicate Clashes(rows: map<nat, Key>, batch: seq<Key>, i: nat)
    requires i < |batch|
  {
    Taken(rows, batch[..i], batch[i])
  }

  /** The first slot from `from` on whose insert is rejected, or |batch| when there is none. */
  function FirstClash(rows: map<nat, Key>, batch: seq<Key>, from: nat): (c: nat)
    requires from <= |batch|
    ensures from <= c <= |batch|
    ensures forall k :: from <= k < c ==> !Clashes(rows, batch, k)
    ensures c < |batch| ==> Clashes(rows, batch, c)
    decreases |batch| - from
  {
    if from == |batch| then from
    else if Clashes(rows, batch, from) then from
    else FirstClash(rows, batch, from + 1)
  }

  /** The sale the request records, at the assignment's rate. */
  function SalesSale(salespersonId: nat, req: GenerateRequest, amount: real, rate: real): SalespersonSale {
    SalespersonSale(salespersonId, 0, req.softwareId, req.keyTypeId,
                    req.customerName, req.customerPhone, req.customerEmail,
                    amount, rate, amount * rate, Pending, req.notes)
  }

  function SaleUnder(s: Store, salespersonId: nat, req: GenerateRequest, keyType: KeyType, pid: nat): SalespersonSale
    requires pid in s.products.rows
  {
    SalesSale(salespersonId, req, SaleAmount(req.count, keyType.price), s.products.rows[pid].commissionRate)
  }

  /** The store after the transaction: the keys inserted in order, then the bookkeeping on assignment `pid`. */
  function KeysSold(s: Store, salespersonId: nat, req: GenerateRequest, keyType: KeyType, batch: seq<Key>, pid: nat): Store
    requires s.Valid() && pid in s.products.rows
  {
    BookSale(s.(keys := s.keys.InsertAll(batch)), pid, req.count, SaleUnder(s, salespersonId, req, keyType, pid))
  }

  datatype Generated = Generated(keys: seq<Key>, sale: SalespersonSale)

  /**
   * GenerateKeysForSalesperson: the checks in order, then one transaction
   * that inserts the keys one by one, at the first rejected insert rolls
   * everything back, and otherwise books the sale.  The counter advances by
   * two per key minted, rollback or not.
   */
  method GenerateKeysForSalesperson(db: Db, counter: CodeGenerator.Counter, salespersonId: nat,
                                    req: GenerateRequest, entropy: seq<SlotEntropy>)
    returns (r: Result<Generated, Error>)
    requires db.store.Valid()
    requires req.count > 0 ==> EntropyFor(req.count, entropy)
    modifies db, counter
    ensures db.store.Valid()
    ensures var s := old(db.store);
            var check := GenerateCheck(s, salespersonId, req);
            if check.Some? then
              r == Failure(check.value) && db.store == s && counter.value == old(counter.value)
            else
              var keyType := s.keyTypes.rows[req.keyTypeId];
              var batch := SalesKeys(salespersonId, req, keyType, s.software.rows[req.softwareId],
                                     old(counter.value), entropy);
              var c := FirstClash(s.keys.rows, batch, 0);
              if c < |batch| then
                r == Failure(StoreConflict) && db.store == s && counter.value == old(counter.value) + 2 * (c + 1)
              else
                counter.value == old(counter.value) + 2 * req.count && r.Success? && r.value.keys == batch &&
                forall pid :: pid in s.products.rows && ActiveProduct(s.products.rows[pid], salespersonId, req) ==>
                  r.value.sale == SaleUnder(s, salespersonId, req, keyType, pid) &&
                  db.store == KeysSold(s, salespersonId, req, keyType, batch, pid)
  {
    var check, pid := CheckGenerate(db.store, salespersonId, req);
    if check.Some? {
      return Failure(check.value);
    }
    var keyType := db.store.keyTypes.rows[req.keyTypeId];
    var software := db.store.software.rows[req.softwareId];
    var keys, fits := MintSalesKeys(counter, db.store.keys.rows, salespersonId, req, keyType, software, entropy);
    if !fits {
      return Failure(StoreConflict);
    }
    var sale := SellKeys(db, salespersonId, req, keyType, keys, pid);
    r := Success(Generated(keys, sale));
  }

  /** The checks of GenerateKeysForSalesperson in order, with the active assignment found. */
  method CheckGenerate(s: Store, salespersonId: nat, req: GenerateRequest) returns (e: Option<Error>, pid: nat)
    requires s.Valid()
    ensures e == GenerateCheck(s, salespersonId, req)
    ensures e.None? ==>
              pid in s.products.rows && ActiveProduct(s.products.rows[pid], salespersonId, req) &&
              forall q :: q in s.products.rows && ActiveProduct(s.products.rows[q], salespersonId, req) ==> q == pid
  {
    pid := 0;
    if req.softwareId == 0 || req.keyTypeId == 0 || req.count <= 0 {
      return Some(InvalidRequest), 0;
    }
    if salespersonId !in s.salespersons.rows {
      return Some(SalespersonNotFound), 0;
    }
    if req.softwareId !in s.software.rows {
      return Some(SoftwareNotFound), 0;
    }
    if req.keyTypeId !in s.keyTypes.rows {
      return Some(KeyTypeNotFound), 0;
    }
    var binding := FindWhere(s.bindings.rows, (b: SoftwareKeyType) => IsBinding(b, req.softwareId, req.keyTypeId));
    if binding.None? {
      return Some(NotBound), 0;
    }
    var product := FindWhere(s.products.rows, (p: SalespersonProduct) => ActiveProduct(p, salespersonId, req));
    if product.None? {
      return Some(NoPermission), 0;
    }
    pid := product.value;
    ProductUnique(s, pid, salespersonId, req.softwareId, req.keyTypeId);
    var assignment := s.products.rows[pid];
    if assignment.keyGenLimit > 0 && assignment.keysGenerated + req.count > assignment.keyGenLimit {
      return Some(LimitExceeded), pid;
    }
    e := None;
  }

  /**
   * The minting loop: each slot generates its activation code, then its card
   * code, and is inserted; the loop stops at the first insert the unique
   * indexes reject.  `fits` tells whether every key went in.
   */
  method MintSalesKeys(counter: CodeGenerator.Counter, rows: map<nat, Key>, salespersonId: nat,
                       req: GenerateRequest, keyType: KeyType, software: Software, entropy: seq<SlotEntropy>)
    returns (keys: seq<Key>, fits: bool)
    requires forall i :: 0 <= i < |entropy| ==> entropy[i].WellSized()
    modifies counter
    ensures var batch := SalesKeys(salespersonId, req, keyType, software, old(counter.value), entropy);
            var c := FirstClash(rows, batch, 0);
            fits == (c == |batch|) &&
            counter.value == old(counter.value) + 2 * (if fits then |batch| else c + 1) &&
            (fits ==> keys == batch)
  {
    ghost var batch := SalesKeys(salespersonId, req, keyType, software, counter.value, entropy);
    ghost var start := counter.value;
    keys := [];
    var i := 0;
    while i < |entropy|
      invariant 0 <= i <= |entropy|
      invariant counter.value == start + 2 * i
      invariant keys == batch[..i]
      invariant forall k :: 0 <= k < i ==> !Clashes(rows, batch, k)
    {
      var key := MintSlot(counter, salespersonId, req, keyType, software, start, entropy, i);
      TakenSlot(rows, batch, i, keys, key);
      if Taken(rows, keys, key) {
        return keys, false;
      }
      keys := keys + [key];
      i := i + 1;
    }
    assert keys == batch;
    FirstClashIs(rows, batch, i);
    fits := true;
  }

  /** One slot of the minting loop: the activation code, then the card code, then the key. */
  method MintSlot(counter: CodeGenerator.Counter, salespersonId: nat, req: GenerateRequest, keyType: KeyType,
                  software: Software, ghost start: int, entropy: seq<SlotEntropy>, i: nat)
    returns (key: Key)
    requires i < |entropy| && entropy[i].WellSized() && counter.value == start + 2 * i
    modifies counter
    ensures counter.value == old(counter.value) + 2
    ensures key == SalesKeys(salespersonId, req, keyType, software, start, entropy)[i]
  {
    var keyCode := CodeGenerator.GenerateSalespersonKeyCode(counter, entropy[i].keyCodeNanos, entropy[i].keyCodeRandom);
    var code := CodeGenerator.GenerateSalespersonCode(counter, entropy[i].codeNanos, entropy[i].codeRandom);
    key := SlotKey(salespersonId, req, keyType, software, code, keyCode);
  }

  lemma TakenSlot(rows: map<nat, Key>, batch: seq<Key>, i: nat, keys: seq<Key>, key: Key)
    requires i < |batch| && keys == batch[..i] && key == batch[i] && forall k :: 0 <= k < i ==> !Clashes(rows, batch, k)
    ensures Taken(rows, keys, key) ==> FirstClash(rows, batch, 0) == i
    ensures !Taken(rows, keys, key) ==> forall k :: 0 <= k < i + 1 ==> !Clashes(rows, batch, k)
  {
    if Taken(rows, keys, key) { FirstClashIs(rows, batch, i); }
  }

  /** The first clash is the slot before which none occurs and at which one does. */
  lemma FirstClashIs(rows: map<nat, Key>, batch: seq<Key>, i: nat)
    requires i <= |batch| && forall k :: 0 <= k < i ==> !Clashes(rows, batch, k)
    requires i < |batch| ==> Clashes(rows, batch, i)
    ensures FirstClash(rows, batch, 0) == i
  {
  }

  /** Keys no insert of which is rejected are accepted by the unique indexes as one batch. */
  lemma NoClashFits(rows: map<nat, Key>, batch: seq<Key>)
    requires FirstClash(rows, batch, 0) == |batch|
    ensures BatchFits(rows, batch)
  {
    forall i, j | 0 <= i < j < |batch|
      ensures batch[i].code != batch[j].code && batch[i].keyCode != batch[j].keyCode
    {
      assert !Clashes(rows, batch, j);
      assert batch[..j][i] == batch[i];
    }
    forall i, id | 0 <= i < |batch| && id in rows
      ensures rows[id].code != batch[i].code && rows[id].keyCode != batch[i].keyCode
    {
      assert !Clashes(rows, batch, i);
    }
  }

  /** The transaction of GenerateKeysForSalesperson once every key is accepted. */
  method SellKeys(db: Db, salespersonId: nat, req: GenerateRequest, keyType: KeyType, batch: seq<Key>, pid: nat)
    returns (sale: SalespersonSale)
    requires db.store.Valid() && FirstClash(db.store.keys.rows, batch, 0) == |batch| && pid in db.store.products.rows
    modifies db
    ensures db.store.Valid()
    ensures sale == SaleUnder(old(db.store), salespersonId, req, keyType, pid)
    ensures db.store == KeysSold(old(db.store), salespersonId, req, keyType, batch, pid)
  {
    NoClashFits(db.store.keys.rows, batch);
    InsertKeysValid(db.store, batch);
    var keys := db.store.keys.InsertAll(batch);
    BookSaleValid(db.store.(keys := keys), pid, req.count, SaleUnder(db.store, salespersonId, req, keyType, pid));
    var assignment := db.store.products.rows[pid];
    sale := SalesSale(salespersonId, req, SaleAmount(req.count, keyType.price), assignment.commissionRate);
    var products, sales, persons := BookRows(db.store.products, db.store.sales, db.store.salespersons, pid, req.count, sale);
    db.store := db.store.(keys := keys, products := products, sales := sales, salespersons := persons);
  }

  /**
   * Every key minted for a salesperson is unused (so not valid at any
   * instant), names the salesperson as its creator and records neither a
   * creator type nor a salesperson id, and copies the key type's name, hours
   * and price and the software's name.
   */
  lemma SalesKeysShape(salespersonId: nat, req: GenerateRequest, keyType: KeyType, software: Software,
                       counter: int, entropy: seq<SlotEntropy>)
    ensures var keys := SalesKeys(salespersonId, req, keyType, software, counter, entropy);
            |keys| == |entropy| &&
            forall i :: 0 <= i < |keys| ==>
              keys[i].status == Unused && (forall t :: !keys[i].IsValid(t)) &&
              keys[i].creatorId == salespersonId && keys[i].creatorType == "" && keys[i].salespersonId == 0 &&
              keys[i].typeId == req.keyTypeId && keys[i].typeName == keyType.name &&
              keys[i].hours == keyType.hours && keys[i].price == keyType.price &&
              keys[i].softwareId == req.softwareId && keys[i].softwareName == software.name &&
              keys[i].userId.None? && keys[i].expiredAt.None?
  {
  }

  /**
   * The shared counter keeps the codes of one request apart: when the clock
   * readings of each kind render to base-36 strings of one length (as
   * readings within one batch do), no two keys of the batch share a card code
   * or an activation code, so only keys already stored can reject an insert.
   */
  lemma SalesKeysDistinct(salespersonId: nat, req: GenerateRequest, keyType: KeyType, software: Software,
                          counter: int, entropy: seq<SlotEntropy>)
    requires forall i :: 0 <= i < |entropy| ==> entropy[i].WellSized()
    requires forall i, j :: 0 <= i < |entropy| && 0 <= j < |entropy| ==>
               |CodeGenerator.FormatInt36(entropy[i].codeNanos)| == |CodeGenerator.FormatInt36(entropy[j].codeNanos)| &&
               |CodeGenerator.FormatInt36(entropy[i].keyCodeNanos)| == |CodeGenerator.FormatInt36(entropy[j].keyCodeNanos)|
    ensures var keys := SalesKeys(salespersonId, req, keyType, software, counter, entropy);
            forall i, j :: 0 <= i < j < |keys| ==> !SharesCode(keys[i], keys[j])
  {
    var keys := SalesKeys(salespersonId, req, keyType, software, counter, entropy);
    forall i, j | 0 <= i < j < |keys|
      ensures !SharesCode(keys[i], keys[j])
    {
      SlotsDistinct(salespersonId, req, keyType, software, counter + 2 * i, entropy[i], counter + 2 * j, entropy[j]);
    }
  }

  /** The keys of two slots drawing different counter values share no code. */
  lemma SlotsDistinct(salespersonId: nat, req: GenerateRequest, keyType: KeyType, software: Software,
                      c1: int, e1: SlotEntropy, c2: int, e2: SlotEntropy)
    requires e1.WellSized() && e2.WellSized() && c1 != c2
    requires |CodeGenerator.FormatInt36(e1.codeNanos)| == |CodeGenerator.FormatInt36(e2.codeNanos)|
    requires |CodeGenerator.FormatInt36(e1.keyCodeNanos)| == |CodeGenerator.FormatInt36(e2.keyCodeNanos)|
    ensures !SharesCode(SalesKey(salespersonId, req, keyType, software, c1, e1),
                        SalesKey(salespersonId, req, keyType, software, c2, e2))
  {
    var k1 := SalesKey(salespersonId, req, keyType, software, c1, e1);
    var k2 := SalesKey(salespersonId, req, keyType, software, c2, e2);
    if k1.code == k2.code {
      CodeGenerator.CompositeCodeInjective("CODE", e1.codeNanos, c1 + 2, e1.codeRandom,
                                           e2.codeNanos, c2 + 2, e2.codeRandom);
    }
    if k1.keyCode == k2.keyCode {
      CodeGenerator.CompositeCodeInjective("KEY", e1.keyCodeNanos, c1 + 1, e1.keyCodeRandom,
                                           e2.keyCodeNanos, c2 + 1, e2.keyCodeRandom);
    }
  }

  /**
   * After a successful request: keys_generated of the assignment grew by the
   * count and stays within a positive limit, the sale amounts to count × price
   * with the commission at the assignment's rate and status pending, and the
   * salesperson's totals grew by exactly those amounts.
   */
  lemma SoldBookkeeping(s: Store, salespersonId: nat, req: GenerateRequest, batch: seq<Key>, pid: nat)
    requires s.Valid() && GenerateCheck(s, salespersonId, req).None?
    requires pid in s.products.rows && ActiveProduct(s.products.rows[pid], salespersonId, req)
    ensures var keyType := s.keyTypes.rows[req.keyTypeId];
            var after := KeysSold(s, salespersonId, req, keyType, batch, pid);
            var p := s.products.rows[pid];
            var amount := SaleAmount(req.count, keyType.price);
            var sale := after.sales.rows[s.sales.next];
            after.products.rows[pid].keysGenerated == p.keysGenerated + req.count &&
            (p.keyGenLimit > 0 ==> after.products.rows[pid].keysGenerated <= p.keyGenLimit) &&
            after.sales.rows == s.sales.rows[s.sales.next := sale] &&
            sale.saleAmount == amount && sale.commissionRate == p.commissionRate &&
            sale.commission == amount * p.commissionRate && sale.status == Pending && sale.keyId == 0 &&
            after.salespersons.rows[salespersonId].totalSales == s.salespersons.rows[salespersonId].totalSales + amount &&
            after.salespersons.rows[salespersonId].totalCommission ==
              s.salespersons.rows[salespersonId].totalCommission + amount * p.commissionRate
  {
    var keyType := s.keyTypes.rows[req.keyTypeId];
    var inserted := s.(keys := s.keys.InsertAll(batch));
    BookSaleEffect(inserted, pid, req.count, SaleUnder(s, salespersonId, req, keyType, pid));
    assert !OverLimit(s.products.rows[pid], req.count);
  }

  // ---------------------------------------------------------------------------
  // AssignProductToSalesperson.

  datatype AssignRequest = AssignRequest(
    salespersonId: nat,
    softwareId: nat,
    keyTypeId: nat,
    commissionRate: real,
    keyGenLimit: int)

  /** The assignment row the handler responds with, and whether it was created. */
  datatype Assignment = Assignment(id: nat, product: SalespersonProduct, created: bool)

  predicate Assigns(p: SalespersonProduct, req: AssignRequest) {
    SameProduct(p, req.salespersonId, req.softwareId, req.keyTypeId)
  }

  /** An existing assignment after the upsert: active again; rate and limit replaced only by positive values. */
  function Reassigned(p: SalespersonProduct, req: AssignRequest): SalespersonProduct {
    p.(isActive := true,
       commissionRate := if req.commissionRate > 0.0 then req.commissionRate else p.commissionRate,
       keyGenLimit := if req.keyGenLimit > 0 then req.keyGenLimit else p.keyGenLimit)
  }

  /** A new assignment: active, with the requested rate and limit as given, no keys generated. */
  function NewAssignment(req: AssignRequest): SalespersonProduct {
    SalespersonProduct(req.salespersonId, req.softwareId, req.keyTypeId, req.commissionRate, req.keyGenLimit, 0, true)
  }

  /** The first check of AssignProductToSalesperson the request fails, or None. */
  function AssignCheck(s: Store, req: AssignRequest): (e: Option<Error>)
    ensures e.None? <==>
              req.salespersonId != 0 && req.softwareId != 0 && req.keyTypeId != 0 &&
              req.salespersonId in s.salespersons.rows && req.softwareId in s.software.rows &&
              req.keyTypeId in s.keyTypes.rows && Bound(s, req.softwareId, req.keyTypeId)
  {
    if req.salespersonId == 0 || req.softwareId == 0 || req.keyTypeId == 0 then Some(InvalidRequest)
    else if req.salespersonId !in s.salespersons.rows then Some(SalespersonNotFound)
    else if req.softwareId !in s.software.rows then Some(SoftwareNotFound)
    else if req.keyTypeId !in s.keyTypes.rows then Some(KeyTypeNotFound)
    else if !Bound(s, req.softwareId, req.keyTypeId) then Some(NotBound)
    else None
  }

  /** The store after the upsert: the assignment of the triple updated if there is one, created otherwise. */
  ghost function Assigned(s: Store, req: AssignRequest): Store
    requires s.Valid()
  {
    if exists pid :: pid in s.products.rows && Assigns(s.products.rows[pid], req) then
      var pid :| pid in s.products.rows && Assigns(s.products.rows[pid], req);
      s.(products := s.products.Put(pid, Reassigned(s.products.rows[pid], req)))
    else
      s.(products := s.products.Insert(NewAssignment(req)).0)
  }

  /** AssignProductToSalesperson: the checks in order, then the upsert. */
  method AssignProductToSalesperson(db: Db, req: AssignRequest) returns (r: Result<Assignment, Error>)
    requires db.store.Valid()
    modifies db
    ensures db.store.Valid()
    ensures var s := old(db.store);
            var check := AssignCheck(s, req);
            if check.Some? then
              r == Failure(check.value) && db.store == s
            else
              db.store == Assigned(s, req) && r.Success? &&
              (forall pid :: pid in s.products.rows && Assigns(s.products.rows[pid], req) ==>
                 r.value == Assignment(pid, Reassigned(s.products.rows[pid], req), false)) &&
              ((forall pid :: pid in s.products.rows ==> !Assigns(s.products.rows[pid], req)) ==>
                 r.value == Assignment(s.products.next, NewAssignment(req), true))
  {
    if req.salespersonId == 0 || req.softwareId == 0 || req.keyTypeId == 0 {
      return Failure(InvalidRequest);
    }
    if req.salespersonId !in db.store.salespersons.rows {
      return Failure(SalespersonNotFound);
    }
    if req.softwareId !in db.store.software.rows {
      return Failure(SoftwareNotFound);
    }
    if req.keyTypeId !in db.store.keyTypes.rows {
      return Failure(KeyTypeNotFound);
    }
    var binding := FindWhere(db.store.bindings.rows, (b: SoftwareKeyType) => IsBinding(b, req.softwareId, req.keyTypeId));
    if binding.None? {
      return Failure(NotBound);
    }
    var existing := FindWhere(db.store.products.rows, (p: SalespersonProduct) => Assigns(p, req));
    if existing.Some? {
      var pid := existing.value;
      ProductUnique(db.store, pid, req.salespersonId, req.softwareId, req.keyTypeId);
      var updated := Reassigned(db.store.products.rows[pid], req);
      AssignedValid(db.store, req);
      db.store := db.store.(products := db.store.products.Put(pid, updated));
      return Success(Assignment(pid, updated, false));
    }
    AssignedValid(db.store, req);
    var created := NewAssignment(req);
    var (products, id) := db.store.products.Insert(created);
    db.store := db.store.(products := products);
    r := Success(Assignment(id, created, true));
  }

  /** The upsert keeps every invariant of the store, one row per triple included. */
  lemma AssignedValid(s: Store, req: AssignRequest)
    requires s.Valid()
    ensures Assigned(s, req).Valid()
  {
    var after := Assigned(s, req).products.rows;
    if exists pid :: pid in s.products.rows && Assigns(s.products.rows[pid], req) {
      forall i, j | i in after && j in after && i != j
        ensures !SameProduct(after[i], after[j].salespersonId, after[j].softwareId, after[j].keyTypeId)
      {
        assert !SameProduct(s.products.rows[i], s.products.rows[j].salespersonId,
                            s.products.rows[j].softwareId, s.products.rows[j].keyTypeId);
      }
    } else {
      var n := s.products.next;
      forall i, j | i in after && j in after && i != j
        ensures !SameProduct(after[i], after[j].salespersonId, after[j].softwareId, after[j].keyTypeId)
      {
        if i == n {
          assert !Assigns(s.products.rows[j], req);
        } else if j != n {
          assert !SameProduct(s.products.rows[i], s.products.rows[j].salespersonId,
                              s.products.rows[j].softwareId, s.products.rows[j].keyTypeId);
        }
      }
    }
  }

  /**
   * After the upsert the salesperson holds exactly one assignment of the
   * product, and it is active: the permission check of key generation
   * passes for it.  A positive rate or limit in the request is the one
   * stored.
   */
  lemma AssignGrantsPermission(s: Store, req: AssignRequest, gen: GenerateRequest)
    requires s.Valid() && AssignCheck(s, req).None?
    requires gen.softwareId == req.softwareId && gen.keyTypeId == req.keyTypeId
    ensures var after := Assigned(s, req);
            HasActiveProduct(after, req.salespersonId, gen) &&
            forall pid :: pid in after.products.rows && Assigns(after.products.rows[pid], req) ==>
              after.products.rows[pid].isActive &&
              (req.commissionRate > 0.0 ==> after.products.rows[pid].commissionRate == req.commissionRate) &&
              (req.keyGenLimit > 0 ==> after.products.rows[pid].keyGenLimit == req.keyGenLimit)
  {
    var after := Assigned(s, req);
    AssignedValid(s, req);
    if exists pid :: pid in s.products.rows && Assigns(s.products.rows[pid], req) {
      var pid :| pid in s.products.rows && Assigns(s.products.rows[pid], req);
      ProductUnique(s, pid, req.salespersonId, req.softwareId, req.keyTypeId);
      assert after.products.rows[pid] == Reassigned(s.products.rows[pid], req);
      assert ActiveProduct(after.products.rows[pid], req.salespersonId, gen);
      ProductUnique(after, pid, req.salespersonId, req.softwareId, req.keyTypeId);
    } else {
      var n := s.products.next;
      assert after.products.rows[n] == NewAssignment(req);
      assert ActiveProduct(after.products.rows[n], req.salespersonId, gen);
      ProductUnique(after, n, req.salespersonId, req.softwareId, req.keyTypeId);
    }
  }

  /** Repeating an assignment changes nothing more: the upsert is idempotent. */
  lemma AssignIdempotent(s: Store, req: AssignRequest)
    requires s.Valid()
    ensures Assigned(Assigned(s, req), req) == Assigned(s, req)
  {
    AssignedValid(s, req);
    var once := Assigned(s, req);
    if exists pid :: pid in s.products.rows && Assigns(s.products.rows[pid], req) {
      var pid :| pid in s.products.rows && Assigns(s.products.rows[pid], req);
      ProductUnique(s, pid, req.salespersonId, req.softwareId, req.keyTypeId);
      assert once.products.rows[pid] == Reassigned(s.products.rows[pid], req);
      ProductUnique(once, pid, req.salespersonId, req.softwareId, req.keyTypeId);
      assert Reassigned(once.products.rows[pid], req) == once.products.rows[pid];
      assert once.products.Put(pid, once.products.rows[pid]) == once.products;
    } else {
      var n := s.products.next;
      assert once.products.rows[n] == NewAssignment(req);
      ProductUnique(once, n, req.salespersonId, req.softwareId, req.keyTypeId);
      assert Reassigned(NewAssignment(req), req) == NewAssignment(req);
      assert once.products.Put(n, once.products.rows[n]) == once.products;
    }
  }

  // ---------------------------------------------------------------------------
  // UpdateSalesperson.

  /** The request body; empty strings and a non-positive rate mean "not supplied". */
  datatype SalespersonUpdate = SalespersonUpdate(
    name: string,
    phone: string,
    email: string,
    status: string,
    avatar: string,
    commissionRate: real,
    password: string)

  /** The salesperson after the `Updates` of the supplied fields; `passwordHash` is bcrypt of the new password. */
  function Patched(sp: Salesperson, u: SalespersonUpdate, passwordHash: string): Salesperson {
    sp.(name := if u.name != "" then u.name else sp.name,
        phone := if u.phone != "" then u.phone else sp.phone,
        email := if u.email != "" then u.email else sp.email,
        status := if u.status != "" then u.status else sp.status,
        avatar := if u.avatar != "" then u.avatar else sp.avatar,
        commissionRate := if u.commissionRate > 0.0 then u.commissionRate else sp.commissionRate,
        password := if u.password != "" then passwordHash else sp.password)
  }

  /** An update that supplies nothing. */
  predicate EmptyUpdate(u: SalespersonUpdate) {
    u.name == "" && u.phone == "" && u.email == "" && u.status == "" && u.avatar == "" &&
    u.commissionRate <= 0.0 && u.password == ""
  }

  /** UpdateSalesperson: the id is parsed, the row must exist, and only the supplied fields are written. */
  method UpdateSalesperson(db: Db, id: Option<int>, u: SalespersonUpdate, passwordHash: string)
    returns (r: Result<Salesperson, Error>)
    requires db.store.Valid()
    modifies db
    ensures db.store.Valid()
    ensures var s := old(db.store);
            if id.None? then r == Failure(InvalidSalespersonId) && db.store == s
            else if !HasRow(s.salespersons, id.value) then r == Failure(SalespersonNotFound) && db.store == s
            else
              var updated := Patched(s.salespersons.rows[id.value], u, passwordHash);
              r == Success(updated) && db.store == s.(salespersons := s.salespersons.Put(id.value, updated))
  {
    if id.None? {
      return Failure(InvalidSalespersonId);
    }
    if !HasRow(db.store.salespersons, id.value) {
      return Failure(SalespersonNotFound);
    }
    var sp := db.store.salespersons.rows[id.value];
    var updated := Patched(sp, u, passwordHash);
    PatchedKeepsIdentity(sp, u, passwordHash);
    PatchedValid(db.store, id.value, u, passwordHash);
    db.store := db.store.(salespersons := db.store.salespersons.Put(id.value, updated));
    r := Success(updated);
  }

  /**
   * A partial update touches only the profile: the username, the agent code,
   * the place in the hierarchy, the totals and the last login are kept, and
   * an update that supplies nothing changes nothing.
   */
  lemma PatchedKeepsIdentity(sp: Salesperson, u: SalespersonUpdate, passwordHash: string)
    ensures var p := Patched(sp, u, passwordHash);
            p.username == sp.username && p.agentCode == sp.agentCode && p.parentId == sp.parentId &&
            p.level == sp.level && p.childrenCount == sp.childrenCount &&
            p.parentCommissionRate == sp.parentCommissionRate && p.creatorId == sp.creatorId &&
            p.totalSales == sp.totalSales && p.totalCommission == sp.totalCommission &&
            p.lastLoginAt == sp.lastLoginAt
    ensures EmptyUpdate(u) ==> Patched(sp, u, passwordHash) == sp
  {
  }

  /** Applying the same update twice is the same as applying it once. */
  lemma PatchedIdempotent(sp: Salesperson, u: SalespersonUpdate, passwordHash: string)
    ensures Patched(Patched(sp, u, passwordHash), u, passwordHash) == Patched(sp, u, passwordHash)
  {
  }

  lemma PatchedValid(s: Store, id: nat, u: SalespersonUpdate, passwordHash: string)
    requires s.Valid() && id in s.salespersons.rows
    ensures s.(salespersons := s.salespersons.Put(id, Patched(s.salespersons.rows[id], u, passwordHash))).Valid()
  {
    var after := s.salespersons.Put(id, Patched(s.salespersons.rows[id], u, passwordHash)).rows;
    forall i, j | i in after && j in after && i != j
      ensures after[i].username != after[j].username && after[i].agentCode != after[j].agentCode
    {
      PatchedKeepsIdentity(s.salespersons.rows[id], u, passwordHash);
      assert s.salespersons.rows[i].username != s.salespersons.rows[j].username;
    }
  }

  // ---------------------------------------------------------------------------
  // SalespersonLogin and handleLoginFailure.

  datatype LoginResult =
    | EmptyCredentials                               // 400
    | TooManyAttempts(minutes: int)                  // 429, before any lookup
    | LoginFailed(locked: bool, minutes: int, remainingAttempts: int)  // 401, the failure recorded
    | AccountDisabled                                // 403
    | LoggedIn(id: nat)
  {
    function HttpStatus(): int {
      match this
      case EmptyCredentials => 400
      case TooManyAttempts(_) => 429
      case LoginFailed(_, _, _) => 401
      case AccountDisabled => 403
      case LoggedIn(_) => 200
    }
  }

  /** The response of handleLoginFailure, from the records after the failure was recorded. */
  function FailureResponse(after: map<string, LoginLimiting.Attempt>, username: string,
                           maxAttempts: int, lockDuration: int): LoginResult
    requires username in after
  {
    var count := after[username].count;
    if count >= maxAttempts then LoginFailed(true, LoginLimiting.WholeMinutes(lockDuration), 0)
    else LoginFailed(false, 0, if maxAttempts - count < 0 then 0 else maxAttempts - count)
  }

  /** handleLoginFailure: records the failure, then reports the lock or the attempts left. */
  method HandleLoginFailure(limiter: LoginLimiting.LoginLimiter, username: string, now: nat) returns (r: LoginResult)
    modifies limiter
    ensures limiter.attempts ==
              LoginLimiting.AfterFailure(old(limiter.attempts), username, now, limiter.maxAttempts, limiter.lockDuration)
    ensures r == FailureResponse(limiter.attempts, username, limiter.maxAttempts, limiter.lockDuration)
  {
    var locked, minutes := limiter.RecordFailedLogin(username, now);
    if locked {
      return LoginFailed(true, minutes, 0);
    }
    var remaining := limiter.GetRemainingAttempts(username);
    r := LoginFailed(false, 0, remaining);
  }

  predicate HasUsername(sp: Salesperson, username: string) {
    sp.username == username
  }

  /**
   * SalespersonLogin: empty credentials are refused; a locked username is
   * refused before the lookup and the password check; an unknown username or
   * a wrong password records a failure; a disabled account is refused without
   * recording one; a successful login forgets the failures and stamps the
   * last login.
   */
  method SalespersonLogin(db: Db, limiter: LoginLimiting.LoginLimiter, username: string, password: string,
                          now: nat, passwordMatches: (string, string) -> bool)
    returns (r: LoginResult)
    requires db.store.Valid()
    modifies db, limiter
    ensures db.store.Valid()
    ensures var s := old(db.store);
            var before := old(limiter.attempts);
            if username == "" || password == "" then
              r == EmptyCredentials && db.store == s && limiter.attempts == before
            else if username in before && now < before[username].lockUntil then
              r == TooManyAttempts((before[username].lockUntil - now) / NanosPerMinute + 1) &&
              db.store == s && limiter.attempts == before
            else if forall id :: id in s.salespersons.rows ==> !HasUsername(s.salespersons.rows[id], username) then
              db.store == s &&
              limiter.attempts == LoginLimiting.AfterFailure(before, username, now, limiter.maxAttempts, limiter.lockDuration) &&
              r == FailureResponse(limiter.attempts, username, limiter.maxAttempts, limiter.lockDuration)
            else
              forall id :: id in s.salespersons.rows && HasUsername(s.salespersons.rows[id], username) ==>
                var sp := s.salespersons.rows[id];
                if !passwordMatches(sp.password, password) then
                  db.store == s &&
                  limiter.attempts == LoginLimiting.AfterFailure(before, username, now, limiter.maxAttempts, limiter.lockDuration) &&
                  r == FailureResponse(limiter.attempts, username, limiter.maxAttempts, limiter.lockDuration)
                else if sp.status != StatusActive then
                  r == AccountDisabled && db.store == s && limiter.attempts == before
                else
                  r == LoggedIn(id) && limiter.attempts == before - {username} &&
                  db.store == s.(salespersons := s.salespersons.Put(id, sp.(lastLoginAt := Some(now))))
  {
    if username == "" || password == "" {
      return EmptyCredentials;
    }
    var locked, minutes := limiter.IsLocked(username, now);
    if locked {
      return TooManyAttempts(minutes);
    }
    var found := FindWhere(db.store.salespersons.rows, (sp: Salesperson) => HasUsername(sp, username));
    if found.None? {
      r := HandleLoginFailure(limiter, username, now);
      return;
    }
    var id := found.value;
    var sp := db.store.salespersons.rows[id];
    if !passwordMatches(sp.password, password) {
      r := HandleLoginFailure(limiter, username, now);
      return;
    }
    if sp.status != StatusActive {
      return AccountDisabled;
    }
    limiter.ResetAttempts(username);
    StampValid(db.store, id, now);
    db.store := db.store.(salespersons := db.store.salespersons.Put(id, sp.(lastLoginAt := Some(now))));
    r := LoggedIn(id);
  }

  lemma StampValid(s: Store, id: nat, now: nat)
    requires s.Valid() && id in s.salespersons.rows
    ensures s.(salespersons := s.salespersons.Put(id, s.salespersons.rows[id].(lastLoginAt := Some(now)))).Valid()
  {
    var after := s.salespersons.Put(id, s.salespersons.rows[id].(lastLoginAt := Some(now))).rows;
    forall i, j | i in after && j in after && i != j
      ensures after[i].username != after[j].username && after[i].agentCode != after[j].agentCode
    {
      assert s.salespersons.rows[i].username != s.salespersons.rows[j].username;
    }
  }
}
