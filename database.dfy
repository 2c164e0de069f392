/**
 * The store the handlers work on: one table per model, the unique indexes the
 * schema declares, and the one uniqueness rule the handlers keep themselves
 * (one binding row per software/key-type pair, one product row per
 * salesperson/software/key-type triple).  A handler either returns an error
 * with the store as it was, or commits all of its writes; a transaction is a
 * working copy of the store that is assigned back on commit.
 */
module Database {
  import opened Outcomes
  import opened Tables
  import opened Keys
  import opened Catalog
  import opened SalesModels

  datatype Store = Store(
    keys: Table<Key>,
    keyTypes: Table<KeyType>,
    software: Table<Software>,
    bindings: Table<SoftwareKeyType>,
    salespersons: Table<Salesperson>,
    products: Table<SalespersonProduct>,
    sales: Table<SalespersonSale>,
    commissions: Table<AgentCommission>,
    invitations: Table<AgentInvitation>)
  {
    ghost predicate Valid() {
      keys.Valid() && keyTypes.Valid() && software.Valid() && bindings.Valid() &&
      salespersons.Valid() && products.Valid() && sales.Valid() && commissions.Valid() &&
      invitations.Valid() &&
      KeyCodesUnique(keys.rows) &&
      IdsStored(keyTypes.rows, software.rows) &&
      BindingsUnique(bindings.rows) &&
      SalespersonsUnique(salespersons.rows) &&
      ProductsUnique(products.rows) &&
      InviteCodesUnique(invitations.rows)
    }
  }

  /** The unique indexes on keys.code and keys.key_code. */
  ghost predicate KeyCodesUnique(rows: map<nat, Key>) {
    forall i, j :: i in rows && j in rows && i != j ==>
      rows[i].code != rows[j].code && rows[i].keyCode != rows[j].keyCode
  }

  /** Key types and software carry their own primary key. */
  ghost predicate IdsStored(keyTypes: map<nat, KeyType>, software: map<nat, Software>) {
    (forall id :: id in keyTypes ==> keyTypes[id].id == id) &&
    (forall id :: id in software ==> software[id].id == id)
  }

  ghost predicate BindingsUnique(rows: map<nat, SoftwareKeyType>) {
    forall i, j :: i in rows && j in rows && i != j ==>
      rows[i].softwareId != rows[j].softwareId || rows[i].keyTypeId != rows[j].keyTypeId
  }

  /** The unique indexes on salespersons.username and salespersons.agent_code (the empty code included). */
  ghost predicate SalespersonsUnique(rows: map<nat, Salesperson>) {
    forall i, j :: i in rows && j in rows && i != j ==>
      rows[i].username != rows[j].username && rows[i].agentCode != rows[j].agentCode
  }

  ghost predicate ProductsUnique(rows: map<nat, SalespersonProduct>) {
    forall i, j :: i in rows && j in rows && i != j ==>
      !SameProduct(rows[i], rows[j].salespersonId, rows[j].softwareId, rows[j].keyTypeId)
  }

  /** The unique index on salesperson_agent_invitations.invite_code. */
  ghost predicate InviteCodesUnique(rows: map<nat, AgentInvitation>) {
    forall i, j :: i in rows && j in rows && i != j ==> rows[i].inviteCode != rows[j].inviteCode
  }

  predicate SameProduct(p: SalespersonProduct, salespersonId: nat, softwareId: nat, keyTypeId: nat) {
    p.salespersonId == salespersonId && p.softwareId == softwareId && p.keyTypeId == keyTypeId
  }

  predicate IsBinding(b: SoftwareKeyType, softwareId: nat, keyTypeId: nat) {
    b.softwareId == softwareId && b.keyTypeId == keyTypeId
  }

  /** Some binding row pairs the software with the key type (whether it is enabled is not looked at). */
  predicate Bound(s: Store, softwareId: nat, keyTypeId: nat) {
    exists b :: b in s.bindings.rows && IsBinding(s.bindings.rows[b], softwareId, keyTypeId)
  }

  /**
   * The unique indexes accept the batch: no new code or activation code is
   * stored already, and no two keys of the batch share one.
   */
  predicate BatchFits(rows: map<nat, Key>, batch: seq<Key>) {
    (forall i, id :: 0 <= i < |batch| && id in rows ==>
      rows[id].code != batch[i].code && rows[id].keyCode != batch[i].keyCode) &&
    (forall i, j :: 0 <= i < j < |batch| ==> batch[i].code != batch[j].code && batch[i].keyCode != batch[j].keyCode)
  }

  /** Inserting keys the unique indexes accept keeps every invariant of the store. */
  lemma InsertKeysValid(s: Store, batch: seq<Key>)
    requires s.Valid() && BatchFits(s.keys.rows, batch)
    ensures s.(keys := s.keys.InsertAll(batch)).Valid()
  {
    var rows := s.keys.InsertAll(batch).rows;
    var n := s.keys.next;
    forall i, j | i in rows && j in rows && i != j
      ensures rows[i].code != rows[j].code && rows[i].keyCode != rows[j].keyCode
    {
      if i in s.keys.rows && j in s.keys.rows {
      } else if i in s.keys.rows {
        assert rows[j] == batch[j - n];
      } else if j in s.keys.rows {
        assert rows[i] == batch[i - n];
      } else {
        assert rows[i] == batch[i - n] && rows[j] == batch[j - n];
        if i < j {
          assert batch[i - n].code != batch[j - n].code;
        } else {
          assert batch[j - n].code != batch[i - n].code;
        }
      }
    }
  }

  function EmptyStore(): (s: Store)
    ensures s.Valid()
  {
    Store(EmptyTable(), EmptyTable(), EmptyTable(), EmptyTable(), EmptyTable(),
          EmptyTable(), EmptyTable(), EmptyTable(), EmptyTable())
  }

  /** The open database connection every handler shares. */
  class Db {
    var store: Store

    constructor ()
      ensures store == EmptyStore()
    {
      store := EmptyStore();
    }
  }

  /** `First(&row, id)` on a primary key parsed with strconv.Atoi: negative ids match nothing. */
  predicate HasRow<T>(t: Table<T>, id: int) {
    id >= 0 && id in t.rows
  }
}
