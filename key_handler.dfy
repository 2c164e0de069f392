/**
 * The key handlers: minting a batch of keys (with the salesperson's quota and
 * sale bookkeeping), activating a key against its software, voiding a key, the
 * CSV field escaper of the export and the export's ownership rule.  Request
 * bodies are parsed into the request parameters; the clock reading `now` and
 * the random bytes of the code generators are parameters too.
 */
module KeyHandler {
  import opened Outcomes
  import opened Tables
  import opened Clock
  import opened Keys
  import opened Catalog
  import opened SalesModels
  import opened Database
  import opened Ledger
  import CodeGenerator
  import KeyCodes

  datatype Error =
    | InvalidCount
    | InvalidCreatorType
    | SalespersonIdRequired
    | InvalidKeyType
    | KeyTypeInactive
    | InvalidSoftware
    | SoftwareInactive
    | NotBound
    | NoPermission
    | LimitExceeded
    | CodeRequired
    | SoftwareIdRequired
    | KeyNotFound
    | KeyNotUnused
    | WrongSoftware
    | SoftwareNotFound
    | InvalidKeyId
    | AlreadyVoid
    | StoreConflict          // a write the unique indexes reject
  {
    /** The HTTP status the handler responds with. */
    function HttpStatus(): int {
      match this
      case NoPermission => 403
      case LimitExceeded => 403
      case KeyNotFound => 404
      case StoreConflict => 500
      case _ => 400
    }
  }

  // ---------------------------------------------------------------------------
  // BatchCreateKeys.

  /** At most this many keys per batch. */
  const MaxBatch: int := 1000
  const AdminCreator: string := "admin"
  const SalespersonCreator: string := "salesperson"
  /** The notes of the sale a salesperson's batch records ("generated in bulk through the API"). */
  const BatchNotes: string := "通过API批量生成"

  datatype BatchRequest = BatchRequest(
    typeId: nat,
    softwareId: nat,
    count: int,
    creatorId: nat,
    creatorType: string,
    salespersonId: nat)

  /** The randomness one key consumes: bytes and padding draws for its card code and for its activation code. */
  datatype KeyEntropy = KeyEntropy(
    codeBytes: seq<CodeGenerator.Byte>,
    codeDraws: seq<nat>,
    keyCodeBytes: seq<CodeGenerator.Byte>,
    keyCodeDraws: seq<nat>)
  {
    predicate WellSized() {
      |codeBytes| == 16 && |codeDraws| >= 16 && |keyCodeBytes| == 6 && |keyCodeDraws| >= 8
    }
  }

  /** An empty creator type stands for the administrator. */
  function CreatorTypeOf(creatorType: string): string {
    if creatorType == "" then AdminCreator else creatorType
  }

  /** The active assignment of the requested product to the requesting salesperson. */
  predicate ActiveProductFor(p: SalespersonProduct, req: BatchRequest) {
    SameProduct(p, req.salespersonId, req.softwareId, req.typeId) && p.isActive
  }

  predicate HasActiveProduct(s: Store, req: BatchRequest) {
    exists p :: p in s.products.rows && ActiveProductFor(s.products.rows[p], req)
  }

  predicate ActiveProductOverLimit(s: Store, req: BatchRequest) {
    exists p :: p in s.products.rows && ActiveProductFor(s.products.rows[p], req) && OverLimit(s.products.rows[p], req.count)
  }

  /**
   * The first check of BatchCreateKeys the request fails, in the order the
   * handler makes them, or None.  A request passes exactly when the count is
   * within 1..1000, the creator type is known, a salesperson names itself, the
   * key type and the software exist and are enabled, they are bound (whether
   * the binding is enabled is not looked at), and a salesperson holds an
   * active assignment of the product whose quota the batch does not exceed.
   */
  function BatchCheck(s: Store, req: BatchRequest): (e: Option<Error>)
    ensures e.None? <==>
              1 <= req.count <= MaxBatch &&
              (CreatorTypeOf(req.creatorType) == AdminCreator || CreatorTypeOf(req.creatorType) == SalespersonCreator) &&
              (CreatorTypeOf(req.creatorType) == SalespersonCreator ==> req.salespersonId != 0) &&
              req.typeId in s.keyTypes.rows && s.keyTypes.rows[req.typeId].IsEnabled() &&
              req.softwareId in s.software.rows && s.software.rows[req.softwareId].IsEnabled() &&
              Bound(s, req.softwareId, req.typeId) &&
              (CreatorTypeOf(req.creatorType) == SalespersonCreator ==>
                HasActiveProduct(s, req) && !ActiveProductOverLimit(s, req))
    ensures req.count <= 0 || req.count > MaxBatch ==> e == Some(InvalidCount)
  {
    var creatorType := CreatorTypeOf(req.creatorType);
    if req.count <= 0 || req.count > MaxBatch then Some(InvalidCount)
    else if creatorType != AdminCreator && creatorType != SalespersonCreator then Some(InvalidCreatorType)
    else if creatorType == SalespersonCreator && req.salespersonId == 0 then Some(SalespersonIdRequired)
    else if req.typeId !in s.keyTypes.rows then Some(InvalidKeyType)
    else if !s.keyTypes.rows[req.typeId].IsEnabled() then Some(KeyTypeInactive)
    else if req.softwareId !in s.software.rows then Some(InvalidSoftware)
    else if !s.software.rows[req.softwareId].IsEnabled() then Some(SoftwareInactive)
    else if !Bound(s, req.softwareId, req.typeId) then Some(NotBound)
    else if creatorType == SalespersonCreator && !HasActiveProduct(s, req) then Some(NoPermission)
    else if creatorType == SalespersonCreator && ActiveProductOverLimit(s, req) then Some(LimitExceeded)
    else None
  }

  /**
   * The checks of BatchCreateKeys in the handler's order, with the active
   * assignment a salesperson's batch is booked against.
   */
  method CheckBatch(s: Store, req: BatchRequest) returns (e: Option<Error>, product: Option<nat>)
    requires s.Valid()
    ensures e == BatchCheck(s, req)
    ensures e.None? && CreatorTypeOf(req.creatorType) == AdminCreator ==> product.None?
    ensures e.None? && CreatorTypeOf(req.creatorType) == SalespersonCreator ==>
              product.Some? && product.value in s.products.rows && ActiveProductFor(s.products.rows[product.value], req) &&
              forall pid :: pid in s.products.rows && ActiveProductFor(s.products.rows[pid], req) ==> pid == product.value
  {
    product := None;
    if req.count <= 0 || req.count > MaxBatch {
      return Some(InvalidCount), None;
    }
    var creatorType := req.creatorType;
    if creatorType == "" {
      creatorType := AdminCreator;
    }
    if creatorType != AdminCreator && creatorType != SalespersonCreator {
      return Some(InvalidCreatorType), None;
    }
    if creatorType == SalespersonCreator && req.salespersonId == 0 {
      return Some(SalespersonIdRequired), None;
    }
    if req.typeId !in s.keyTypes.rows {
      return Some(InvalidKeyType), None;
    }
    var keyType := s.keyTypes.rows[req.typeId];
    if keyType.status != Active || !keyType.isActive {
      return Some(KeyTypeInactive), None;
    }
    if req.softwareId !in s.software.rows {
      return Some(InvalidSoftware), None;
    }
    var software := s.software.rows[req.softwareId];
    if software.status != Active || !software.isActive {
      return Some(SoftwareInactive), None;
    }
    var binding := FindWhere(s.bindings.rows, (b: SoftwareKeyType) => IsBinding(b, req.softwareId, req.typeId));
    if binding.None? {
      return Some(NotBound), None;
    }
    e := None;
    if creatorType == SalespersonCreator {
      product := FindWhere(s.products.rows, (p: SalespersonProduct) => ActiveProductFor(p, req));
      if product.None? {
        return Some(NoPermission), None;
      }
      var assignment := s.products.rows[product.value];
      ProductUnique(s, product.value, req.salespersonId, req.softwareId, req.typeId);
      if assignment.keyGenLimit > 0 && assignment.keysGenerated + req.count > assignment.keyGenLimit {
        return Some(LimitExceeded), None;
      }
    }
  }

  /** The key the loop builds for one slot: type and software copied in, status "unused", the rest zero. */
  function MintedKey(req: BatchRequest, keyType: KeyType, software: Software, code: string, keyCode: string): Key
  {
    Key(code, keyCode, req.typeId, keyType.name, keyType.hours, keyType.price, req.softwareId, software.name,
        Unused, req.creatorId, CreatorTypeOf(req.creatorType), req.salespersonId,
        None, "", None, None, None, false)
  }

  /** The key of one slot, with the codes its randomness produces. */
  function SlotKey(req: BatchRequest, keyType: KeyType, software: Software, e: KeyEntropy): Key
    requires e.WellSized()
  {
    MintedKey(req, keyType, software, KeyCodes.UniqueCode(e.codeBytes, e.codeDraws),
              KeyCodes.UniqueKeyCode(e.keyCodeBytes, e.keyCodeDraws))
  }

  ghost predicate EntropyFor(count: int, entropy: seq<KeyEntropy>) {
    0 <= count <= |entropy| && forall i :: 0 <= i < |entropy| ==> entropy[i].WellSized()
  }

  /**
   * The batch: `count` keys, each unused (so not valid at any instant), with
   * the key type's name, hours and price, the request's software and creator,
   * a 19-character card code and an 8-character activation code.
   */
  function Minted(req: BatchRequest, keyType: KeyType, software: Software, entropy: seq<KeyEntropy>): (keys: seq<Key>)
    requires EntropyFor(req.count, entropy)
    ensures |keys| == req.count
    ensures forall i :: 0 <= i < |keys| ==>
              keys[i].status == Unused && keys[i].typeId == req.typeId && keys[i].typeName == keyType.name &&
              keys[i].hours == keyType.hours && keys[i].price == keyType.price &&
              keys[i].softwareId == req.softwareId && keys[i].softwareName == software.name &&
              keys[i].creatorId == req.creatorId && keys[i].creatorType == CreatorTypeOf(req.creatorType) &&
              keys[i].salespersonId == req.salespersonId && keys[i].userId.None?
    ensures forall i :: 0 <= i < |keys| ==> |keys[i].code| == 19 && |keys[i].keyCode| == 8
    ensures forall i, now :: 0 <= i < |keys| ==> !keys[i].IsValid(now)
  {
    seq(req.count, i requires 0 <= i < req.count => SlotKey(req, keyType, software, entropy[i]))
  }

  /**
   * The `keys[i] = models.Key{...}` loop: fills a fresh array slot by slot,
   * each slot drawing a card code and an activation code (two counter steps).
   */
  method MintKeys(counter: CodeGenerator.Counter, req: BatchRequest, keyType: KeyType, software: Software,
                  entropy: seq<KeyEntropy>) returns (keys: array<Key>)
    requires EntropyFor(req.count, entropy)
    modifies counter
    ensures fresh(keys) && keys[..] == Minted(req, keyType, software, entropy)
    ensures counter.value == old(counter.value) + 2 * req.count
  {
    keys := new Key[req.count];
    ghost var minted := Minted(req, keyType, software, entropy);
    for i := 0 to req.count
      invariant counter.value == old(counter.value) + 2 * i
      invariant keys[..i] == minted[..i]
    {
      var k := MintSlot(counter, req, keyType, software, entropy[i]);
      assert k == minted[i];
      keys[i] := k;
      assert keys[..i + 1] == keys[..i] + [k];
      assert minted[..i + 1] == minted[..i] + [minted[i]];
    }
    assert keys[..] == keys[..req.count];
  }

  /** One slot of the loop: a card code, an activation code, and the key built around them. */
  method MintSlot(counter: CodeGenerator.Counter, req: BatchRequest, keyType: KeyType, software: Software,
                  e: KeyEntropy) returns (key: Key)
    requires e.WellSized()
    modifies counter
    ensures key == SlotKey(req, keyType, software, e)
    ensures counter.value == old(counter.value) + 2
  {
    var code := KeyCodes.GenerateUniqueCode(counter, e.codeBytes, e.codeDraws);
    var keyCode := KeyCodes.GenerateUniqueKeyCode(counter, e.keyCodeBytes, e.keyCodeDraws);
    key := MintedKey(req, keyType, software, code, keyCode);
  }

  /** The sale row a salesperson's batch records; it names no single key. */
  function BatchSale(req: BatchRequest, amount: real, rate: real): SalespersonSale {
    SalespersonSale(req.salespersonId, 0, req.softwareId, req.typeId, "", "", "",
                    amount, rate, amount * rate, Pending, BatchNotes)
  }

  /** The sale a salesperson's batch records under assignment `pid`. */
  function BatchSaleUnder(s: Store, req: BatchRequest, keyType: KeyType, pid: nat): SalespersonSale
    requires pid in s.products.rows
  {
    BatchSale(req, SaleAmount(req.count, keyType.price), s.products.rows[pid].commissionRate)
  }

  /** The store after the batch insert and, for a salesperson's batch, the bookkeeping on its assignment. */
  function BatchCommitted(s: Store, req: BatchRequest, keyType: KeyType, batch: seq<Key>, product: Option<nat>): Store
    requires s.Valid() && (product.Some? ==> product.value in s.products.rows)
  {
    var inserted := s.(keys := s.keys.InsertAll(batch));
    if product.None? then inserted
    else BookSale(inserted, product.value, req.count, BatchSaleUnder(s, req, keyType, product.value))
  }

  /**
   * BatchCreateKeys: runs the checks in order, mints the batch, and stores it
   * with the bookkeeping in one transaction.  The counter is advanced by the
   * minting even when the unique indexes then reject the batch.
   */
  method BatchCreateKeys(db: Db, counter: CodeGenerator.Counter, req: BatchRequest, entropy: seq<KeyEntropy>)
    returns (r: Result<seq<Key>, Error>)
    requires db.store.Valid()
    requires req.count <= MaxBatch ==> EntropyFor(if req.count < 0 then 0 else req.count, entropy)
    modifies db, counter
    ensures db.store.Valid()
    ensures var s := old(db.store);
            var check := BatchCheck(s, req);
            if check.Some? then
              r == Failure(check.value) && db.store == s && counter.value == old(counter.value)
            else
              var keyType := s.keyTypes.rows[req.typeId];
              var batch := Minted(req, keyType, s.software.rows[req.softwareId], entropy);
              counter.value == old(counter.value) + 2 * req.count &&
              if !BatchFits(s.keys.rows, batch) then
                r == Failure(StoreConflict) && db.store == s
              else
                r == Success(batch) &&
                (CreatorTypeOf(req.creatorType) == AdminCreator ==>
                   db.store == BatchCommitted(s, req, keyType, batch, None)) &&
                (CreatorTypeOf(req.creatorType) == SalespersonCreator ==>
                   forall pid :: pid in s.products.rows && ActiveProductFor(s.products.rows[pid], req) ==>
                     db.store == BatchCommitted(s, req, keyType, batch, Some(pid)))
  {
    var check, product := CheckBatch(db.store, req);
    if check.Some? {
      return Failure(check.value);
    }
    var keyType := db.store.keyTypes.rows[req.typeId];
    var software := db.store.software.rows[req.softwareId];
    var keys := MintKeys(counter, req, keyType, software, entropy);
    var batch := keys[..];
    if !BatchFits(db.store.keys.rows, batch) {
      return Failure(StoreConflict);
    }
    StoreBatch(db, req, keyType, batch, product);
    r := Success(batch);
  }

  /**
   * The transaction of BatchCreateKeys: the batch insert, then, for a
   * salesperson's batch, the second lookup of the assignment (the unique
   * product triple makes it the row already checked) and its bookkeeping.
   */
  method StoreBatch(db: Db, req: BatchRequest, keyType: KeyType, batch: seq<Key>, product: Option<nat>)
    requires db.store.Valid() && BatchFits(db.store.keys.rows, batch)
    requires product.Some? ==>
               product.value in db.store.products.rows && ActiveProductFor(db.store.products.rows[product.value], req)
    modifies db
    ensures db.store.Valid()
    ensures db.store == BatchCommitted(old(db.store), req, keyType, batch, product)
  {
    BatchCommittedValid(db.store, req, keyType, batch, product);
    var keys := db.store.keys.InsertAll(batch);
    if product.None? {
      db.store := db.store.(keys := keys);
      return;
    }
    ProductUnique(db.store, product.value, req.salespersonId, req.softwareId, req.typeId);
    var again := FindWhere(db.store.products.rows,
                           (p: SalespersonProduct) => SameProduct(p, req.salespersonId, req.softwareId, req.typeId));
    assert again == product;
    var pid := again.value;
    var sale := BatchSale(req, SaleAmount(req.count, keyType.price), db.store.products.rows[pid].commissionRate);
    var products, sales, persons := BookRows(db.store.products, db.store.sales, db.store.salespersons, pid, req.count, sale);
    db.store := db.store.(keys := keys, products := products, sales := sales, salespersons := persons);
  }

  /** A batch the unique indexes accept, and its bookkeeping, keep every invariant of the store. */
  lemma BatchCommittedValid(s: Store, req: BatchRequest, keyType: KeyType, batch: seq<Key>, product: Option<nat>)
    requires s.Valid() && BatchFits(s.keys.rows, batch)
    requires product.Some? ==> product.value in s.products.rows
    ensures BatchCommitted(s, req, keyType, batch, product).Valid()
  {
    InsertKeysValid(s, batch);
    var inserted := s.(keys := s.keys.InsertAll(batch));
    if product.Some? {
      BookSaleValid(inserted, product.value, req.count, BatchSaleUnder(s, req, keyType, product.value));
    }
  }

  /**
   * A salesperson's quota holds after a batch: when the assignment has a
   * positive limit, keys_generated does not exceed it afterwards.
   */
  lemma BatchKeepsQuota(s: Store, req: BatchRequest, keyType: KeyType, batch: seq<Key>, pid: nat)
    requires s.Valid() && BatchCheck(s, req).None? && CreatorTypeOf(req.creatorType) == SalespersonCreator
    requires pid in s.products.rows && ActiveProductFor(s.products.rows[pid], req)
    requires s.products.rows[pid].keyGenLimit > 0
    ensures var p := BatchCommitted(s, req, keyType, batch, Some(pid)).products.rows[pid];
            p.keysGenerated == s.products.rows[pid].keysGenerated + req.count && p.keysGenerated <= p.keyGenLimit
  {
    assert !OverLimit(s.products.rows[pid], req.count);
  }

  /**
   * The bookkeeping of a salesperson's batch: the new sale row amounts to
   * count × price with the commission at the assignment's rate, and the
   * salesperson's totals rise by exactly those amounts; a batch of an
   * administrator records nothing beside the keys.
   */
  lemma BatchBookkeeping(s: Store, req: BatchRequest, keyType: KeyType, batch: seq<Key>, pid: nat)
    requires s.Valid() && pid in s.products.rows
    ensures var after := BatchCommitted(s, req, keyType, batch, Some(pid));
            var rate := s.products.rows[pid].commissionRate;
            var amount := req.count as real * keyType.price;
            after.sales.rows == s.sales.rows[s.sales.next := after.sales.rows[s.sales.next]] &&
            after.sales.rows[s.sales.next].saleAmount == amount &&
            after.sales.rows[s.sales.next].commission == amount * rate &&
            after.sales.rows[s.sales.next].status == Pending &&
            (req.salespersonId in s.salespersons.rows ==>
               after.salespersons.rows[req.salespersonId].totalSales ==
                 s.salespersons.rows[req.salespersonId].totalSales + amount &&
               after.salespersons.rows[req.salespersonId].totalCommission ==
                 s.salespersons.rows[req.salespersonId].totalCommission + amount * rate)
    ensures var after := BatchCommitted(s, req, keyType, batch, None);
            after == s.(keys := after.keys)
  {
  }

  // ---------------------------------------------------------------------------
  // ActivateKey.

  /** What ActivateKey responds with. */
  datatype Activation = Activation(keyId: nat, expiredAt: int, hours: int, softwareName: string)

  predicate IsKeyPair(k: Key, code: string, keyCode: string) {
    k.code == code && k.keyCode == keyCode
  }

  predicate KeyPairHeld(rows: map<nat, Key>, code: string, keyCode: string) {
    exists kid :: kid in rows && IsKeyPair(rows[kid], code, keyCode)
  }

  /**
   * The key after activation: used, used and activated at `now`, expiring
   * `hours` hours later, bound to the device and the activating user.  It is
   * valid exactly up to its expiry, and keeps its codes, type and software.
   */
  function Activated(k: Key, deviceInfo: string, activatorId: nat, now: int): (a: Key)
    ensures a.status == Used && a.expiredAt == Some(now + k.hours * NanosPerHour)
    ensures a.code == k.code && a.keyCode == k.keyCode && a.typeId == k.typeId && a.softwareId == k.softwareId
    ensures forall t :: a.IsValid(t) <==> t <= now + k.hours * NanosPerHour
  {
    k.(status := Used, usedAt := Some(now), activatedAt := Some(now),
       expiredAt := Some(now + k.hours * NanosPerHour), deviceInfo := deviceInfo, userId := Some(activatorId))
  }

  /** What ActivateKey does with the key the pair identifies, in the order of its checks. */
  ghost predicate ActivateOutcome(before: Store, kid: nat, softwareId: nat, deviceInfo: string, activatorId: nat,
                                  now: int, r: Result<Activation, Error>, after: Store)
    requires before.Valid() && kid in before.keys.rows
  {
    var k := before.keys.rows[kid];
    if k.status != Unused then r == Failure(KeyNotUnused) && after == before
    else if k.softwareId != softwareId then r == Failure(WrongSoftware) && after == before
    else if softwareId !in before.software.rows then r == Failure(SoftwareNotFound) && after == before
    else if !before.software.rows[softwareId].IsEnabled() then r == Failure(SoftwareInactive) && after == before
    else
      var a := Activated(k, deviceInfo, activatorId, now);
      r == Success(Activation(kid, a.expiredAt.value, k.hours, before.software.rows[softwareId].name)) &&
      after == before.(keys := before.keys.Put(kid, a))
  }

  method ActivateKey(db: Db, code: string, keyCode: string, softwareId: nat, deviceInfo: string,
                     activatorId: nat, now: int) returns (r: Result<Activation, Error>)
    requires db.store.Valid()
    modifies db
    ensures db.store.Valid()
    ensures r.Failure? ==> db.store == old(db.store)
    ensures code == "" || keyCode == "" ==> r == Failure(CodeRequired)
    ensures code != "" && keyCode != "" && softwareId == 0 ==> r == Failure(SoftwareIdRequired)
    ensures code != "" && keyCode != "" && softwareId != 0 && !KeyPairHeld(old(db.store.keys.rows), code, keyCode) ==>
              r == Failure(KeyNotFound)
    ensures code != "" && keyCode != "" && softwareId != 0 ==>
              forall kid :: kid in old(db.store.keys.rows) && IsKeyPair(old(db.store.keys.rows)[kid], code, keyCode) ==>
                ActivateOutcome(old(db.store), kid, softwareId, deviceInfo, activatorId, now, r, db.store)
  {
    if code == "" || keyCode == "" {
      return Failure(CodeRequired);
    }
    if softwareId == 0 {
      return Failure(SoftwareIdRequired);
    }
    var found := FindWhere(db.store.keys.rows, (k: Key) => IsKeyPair(k, code, keyCode));
    if found.None? {
      return Failure(KeyNotFound);
    }
    var kid := found.value;
    KeyPairIdentifies(db.store, code, keyCode, kid);
    var key := db.store.keys.rows[kid];
    if key.status != Unused {
      return Failure(KeyNotUnused);
    }
    if key.softwareId != softwareId {
      return Failure(WrongSoftware);
    }
    if softwareId !in db.store.software.rows {
      return Failure(SoftwareNotFound);
    }
    var software := db.store.software.rows[softwareId];
    if software.status != Active || !software.isActive {
      return Failure(SoftwareInactive);
    }
    var activated := Activated(key, deviceInfo, activatorId, now);
    PutKeyValid(db.store, kid, activated);
    db.store := db.store.(keys := db.store.keys.Put(kid, activated));
    r := Success(Activation(kid, now + key.hours * NanosPerHour, key.hours, software.name));
  }

  /** The code is unique, so a matching pair identifies one key. */
  lemma KeyPairIdentifies(s: Store, code: string, keyCode: string, kid: nat)
    requires s.Valid() && kid in s.keys.rows && IsKeyPair(s.keys.rows[kid], code, keyCode)
    ensures forall other :: other in s.keys.rows && IsKeyPair(s.keys.rows[other], code, keyCode) ==> other == kid
  {
  }

  /** Rewriting a key without touching its codes keeps the unique indexes. */
  lemma PutKeyValid(s: Store, kid: nat, k: Key)
    requires s.Valid() && kid in s.keys.rows
    requires k.code == s.keys.rows[kid].code && k.keyCode == s.keys.rows[kid].keyCode
    ensures s.(keys := s.keys.Put(kid, k)).Valid()
  {
    var rows := s.keys.rows[kid := k];
    forall i, j | i in rows && j in rows && i != j
      ensures rows[i].code != rows[j].code && rows[i].keyCode != rows[j].keyCode
    {
      assert s.keys.rows[i].code != s.keys.rows[j].code && s.keys.rows[i].keyCode != s.keys.rows[j].keyCode;
    }
  }

  /**
   * A key activates once: after a successful activation the same key is
   * refused as not unused, whatever the second request says.
   */
  lemma ActivateOnce(before: Store, kid: nat, softwareId: nat, deviceInfo: string, activatorId: nat, now: int,
                     r: Result<Activation, Error>, after: Store,
                     softwareId2: nat, deviceInfo2: string, activatorId2: nat, now2: int,
                     r2: Result<Activation, Error>, after2: Store)
    requires before.Valid() && kid in before.keys.rows
    requires ActivateOutcome(before, kid, softwareId, deviceInfo, activatorId, now, r, after) && r.Success?
    ensures after.Valid() && kid in after.keys.rows
    ensures after.keys.rows[kid].status == Used && after.keys.rows[kid].expiredAt.Some?
    ensures ActivateOutcome(after, kid, softwareId2, deviceInfo2, activatorId2, now2, r2, after2) ==>
              r2 == Failure(KeyNotUnused) && after2 == after
  {
    var k := before.keys.rows[kid];
    PutKeyValid(before, kid, Activated(k, deviceInfo, activatorId, now));
  }

  // ---------------------------------------------------------------------------
  // VoidKey.

  /**
   * VoidKey: a positive path id of an existing key that is not void yet; the
   * key becomes void, nothing else of it changes, and it is returned.
   */
  method VoidKey(db: Db, id: Option<int>) returns (r: Result<Key, Error>)
    requires db.store.Valid()
    modifies db
    ensures db.store.Valid()
    ensures id.None? || id.value <= 0 ==> r == Failure(InvalidKeyId) && db.store == old(db.store)
    ensures id.Some? && id.value > 0 && id.value !in old(db.store.keys.rows) ==>
              r == Failure(KeyNotFound) && db.store == old(db.store)
    ensures id.Some? && id.value > 0 && id.value in old(db.store.keys.rows) ==>
              var k := old(db.store.keys.rows)[id.value];
              if k.status == Void then
                r == Failure(AlreadyVoid) && db.store == old(db.store)
              else
                r == Success(k.(status := Void)) &&
                db.store == old(db.store).(keys := old(db.store.keys).Put(id.value, k.(status := Void)))
    ensures r.Success? ==> forall now :: !r.value.IsValid(now)
  {
    if id.None? || id.value <= 0 {
      return Failure(InvalidKeyId);
    }
    var kid: nat := id.value;
    if kid !in db.store.keys.rows {
      return Failure(KeyNotFound);
    }
    var key := db.store.keys.rows[kid];
    if key.status == Void {
      return Failure(AlreadyVoid);
    }
    var voided := key.(status := Void);
    PutKeyValid(db.store, kid, voided);
    db.store := db.store.(keys := db.store.keys.Put(kid, voided));
    r := Success(voided);
  }

  // ---------------------------------------------------------------------------
  // The CSV field escaper (section 2 of RFC 4180, rules 6 and 7).

  /** A character that forces a field into quotes. */
  predicate Special(c: char) {
    c == ',' || c == '"' || c == '\n'
  }

  predicate NeedsQuoting(s: string) {
    exists i :: 0 <= i < |s| && Special(s[i])
  }

  /** `strings.ReplaceAll(s, "\"", "\"\"")`. */
  function DoubleQuotes(s: string): (r: string)
    ensures |r| >= |s|
    ensures '"' !in s ==> r == s
  {
    if s == [] then []
    else (if s[0] == '"' then "\"\"" else [s[0]]) + DoubleQuotes(s[1..])
  }

  /**
   * escapeCSVField: a field without comma, quote or newline is written as it
   * is; any other field is enclosed in quotes with its quotes doubled.
   */
  function EscapeCSVField(field: string): (r: string)
    ensures !NeedsQuoting(field) ==> r == field
    ensures NeedsQuoting(field) ==>
              |r| >= |field| + 2 && r[0] == '"' && r[|r| - 1] == '"' && r[1..|r| - 1] == DoubleQuotes(field)
  {
    if NeedsQuoting(field) then "\"" + DoubleQuotes(field) + "\"" else field
  }

  /** The inside of a quoted field: a doubled quote stands for one quote, a lone quote is malformed. */
  function Unquote(t: string): Option<string>
    decreases |t|
  {
    if t == [] then Some([])
    else if t[0] != '"' then
      match Unquote(t[1..])
      case None => None
      case Some(rest) => Some([t[0]] + rest)
    else if |t| >= 2 && t[1] == '"' then
      match Unquote(t[2..])
      case None => None
      case Some(rest) => Some("\"" + rest)
    else None
  }

  /** How a CSV reader takes one field back: quoted, or plain text without special characters. */
  function ParseCSVField(f: string): Option<string> {
    if |f| >= 2 && f[0] == '"' && f[|f| - 1] == '"' then Unquote(f[1..|f| - 1])
    else if NeedsQuoting(f) then None
    else Some(f)
  }

  lemma {:induction false} UnquoteDoubled(s: string)
    ensures Unquote(DoubleQuotes(s)) == Some(s)
    decreases |s|
  {
    if s != [] {
      var d := DoubleQuotes(s[1..]);
      UnquoteDoubled(s[1..]);
      if s[0] == '"' {
        assert DoubleQuotes(s) == "\"\"" + d;
        assert DoubleQuotes(s)[2..] == d;
        assert s == "\"" + s[1..];
      } else {
        assert DoubleQuotes(s) == [s[0]] + d;
        assert DoubleQuotes(s)[1..] == d;
        assert s == [s[0]] + s[1..];
      }
    }
  }

  /** A CSV reader gets every escaped field back as it was. */
  lemma EscapeRoundTrip(field: string)
    ensures ParseCSVField(EscapeCSVField(field)) == Some(field)
  {
    var e := EscapeCSVField(field);
    if NeedsQuoting(field) {
      UnquoteDoubled(field);
      assert e[1..|e| - 1] == DoubleQuotes(field);
    } else if |field| >= 1 {
      assert !Special(field[0]);
    }
  }

  // ---------------------------------------------------------------------------
  // The ownership rule of ExportKeys.

  /** The caller the export treats as the administrator. */
  const AdminCallerId: nat := 1

  /**
   * The salesperson whose keys an export lists: the caller's own keys, unless
   * the caller is the administrator and asks for another salesperson's (a
   * query id that is absent or not a number reads as 0).
   */
  function ExportOwner(caller: nat, query: int): (owner: nat)
    ensures owner == caller || (caller == AdminCallerId && owner == query)
    ensures caller == AdminCallerId && query > 0 ==> owner == query
    ensures query <= 0 ==> owner == caller
  {
    if query > 0 && query != caller then
      if caller == AdminCallerId then query else caller
    else caller
  }

  /** The keys an export lists. */
  function ExportedKeys(rows: map<nat, Key>, caller: nat, query: int): (ids: set<nat>)
    ensures forall id :: id in ids <==> id in rows && rows[id].salespersonId == ExportOwner(caller, query)
  {
    set id | id in rows && rows[id].salespersonId == ExportOwner(caller, query)
  }

  /** Nobody but the administrator sees another salesperson's keys. */
  lemma ExportOnlyOwnKeys(rows: map<nat, Key>, caller: nat, query: int)
    requires caller != AdminCallerId
    ensures forall id :: id in ExportedKeys(rows, caller, query) ==> rows[id].salespersonId == caller
  {
  }
}
