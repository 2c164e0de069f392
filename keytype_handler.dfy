/**
 * The key-type handlers: create with a unique name, update the columns a body
 * supplies, delete unless a key still has the type, and switch the type on
 * and off.  A path id arrives as the result of strconv.ParseUint(.., 10, 32):
 * None when it does not parse as a 32-bit unsigned number.
 */
module KeyTypeHandler {
  import opened Outcomes
  import opened Tables
  import opened Keys
  import opened Catalog
  import opened Database

  datatype Error =
    | NameMissing
    | NameTaken
    | InvalidId
    | KeyTypeNotFound
    | KeyTypeInUse
  {
    function HttpStatus(): int {
      match this
      case KeyTypeNotFound => 404
      case _ => 400
    }
  }

  // ---------------------------------------------------------------------------
  // CreateKeyType.

  predicate NamedKeyType(kt: KeyType, name: string) {
    kt.name == name
  }

  predicate NameInUse(s: Store, name: string) {
    exists id :: id in s.keyTypes.rows && NamedKeyType(s.keyTypes.rows[id], name)
  }

  /** No two key types share a name; only the create handler's check keeps it. */
  ghost predicate KeyTypeNamesUnique(s: Store) {
    forall i, j :: i in s.keyTypes.rows && j in s.keyTypes.rows && i != j ==>
      s.keyTypes.rows[i].name != s.keyTypes.rows[j].name
  }

  /** The row CreateKeyType stores: an empty status becomes "active", and it is enabled. */
  function NewKeyType(kt: KeyType, id: nat): KeyType {
    kt.(id := id, status := DefaultStatus(kt.status, Active), isActive := true)
  }

  function CreateKeyTypeCheck(s: Store, kt: KeyType): (e: Option<Error>)
    ensures e.None? <==> kt.name != "" && !NameInUse(s, kt.name)
  {
    if kt.name == "" then Some(NameMissing)
    else if NameInUse(s, kt.name) then Some(NameTaken)
    else None
  }

  /** CreateKeyType: a non-empty name no other type has, the defaults, then the insert. */
  method CreateKeyType(db: Db, kt: KeyType) returns (r: Result<KeyType, Error>)
    requires db.store.Valid()
    modifies db
    ensures db.store.Valid()
    ensures var s := old(db.store);
            var check := CreateKeyTypeCheck(s, kt);
            if check.Some? then r == Failure(check.value) && db.store == s
            else
              r == Success(NewKeyType(kt, s.keyTypes.next)) &&
              db.store == s.(keyTypes := s.keyTypes.Insert(r.value).0)
  {
    if kt.name == "" {
      return Failure(NameMissing);
    }
    var existing := FindWhere(db.store.keyTypes.rows, (x: KeyType) => NamedKeyType(x, kt.name));
    if existing.Some? {
      return Failure(NameTaken);
    }
    var created := kt;
    if created.status == "" {
      created := created.(status := Active);
    }
    created := created.(isActive := true, id := db.store.keyTypes.next);
    db.store := db.store.(keyTypes := db.store.keyTypes.Insert(created).0);
    r := Success(created);
  }

  /**
   * A created key type is enabled unless the body asked for another status,
   * keeps the body's hours and price, and creation keeps the names unique.
   */
  lemma CreateKeyTypeEffect(s: Store, kt: KeyType)
    requires s.Valid() && CreateKeyTypeCheck(s, kt).None?
    ensures var created := NewKeyType(kt, s.keyTypes.next);
            var after := s.(keyTypes := s.keyTypes.Insert(created).0);
            created.isActive && (created.IsEnabled() <==> kt.status == "" || kt.status == Active) &&
            created.name == kt.name && created.hours == kt.hours && created.price == kt.price &&
            (KeyTypeNamesUnique(s) ==> KeyTypeNamesUnique(after))
  {
    var created := NewKeyType(kt, s.keyTypes.next);
    var after := s.(keyTypes := s.keyTypes.Insert(created).0);
    if KeyTypeNamesUnique(s) {
      forall i, j | i in after.keyTypes.rows && j in after.keyTypes.rows && i != j
        ensures after.keyTypes.rows[i].name != after.keyTypes.rows[j].name
      {
        if i == s.keyTypes.next {
          assert !NamedKeyType(s.keyTypes.rows[j], kt.name);
        } else if j == s.keyTypes.next {
          assert !NamedKeyType(s.keyTypes.rows[i], kt.name);
        }
      }
    }
  }

  // ---------------------------------------------------------------------------
  // UpdateKeyType.

  /** The body of UpdateKeyType: a map from column to value; a column the body leaves out is None. */
  datatype KeyTypeUpdate = KeyTypeUpdate(
    name: Option<string>,
    description: Option<string>,
    hours: Option<int>,
    price: Option<real>,
    status: Option<string>,
    isActive: Option<bool>,
    isUniversal: Option<bool>,
    creatorId: Option<nat>,
    sellerId: Option<nat>)

  function Pick<T>(update: Option<T>, current: T): T {
    if update.Some? then update.value else current
  }

  /** `Updates(map)`: every column in the map is written, zero values included. */
  function Updated(kt: KeyType, u: KeyTypeUpdate): KeyType {
    kt.(name := Pick(u.name, kt.name), description := Pick(u.description, kt.description),
        hours := Pick(u.hours, kt.hours), price := Pick(u.price, kt.price),
        status := Pick(u.status, kt.status), isActive := Pick(u.isActive, kt.isActive),
        isUniversal := Pick(u.isUniversal, kt.isUniversal),
        creatorId := Pick(u.creatorId, kt.creatorId), sellerId := Pick(u.sellerId, kt.sellerId))
  }

  function WithKeyType(s: Store, id: nat, kt: KeyType): Store
    requires s.keyTypes.Valid() && id in s.keyTypes.rows
  {
    s.(keyTypes := s.keyTypes.Put(id, kt))
  }

  /** UpdateKeyType: the id parsed, the row found, then the supplied columns written. */
  method UpdateKeyType(db: Db, id: Option<nat>, u: KeyTypeUpdate) returns (r: Result<KeyType, Error>)
    requires db.store.Valid()
    modifies db
    ensures db.store.Valid()
    ensures var s := old(db.store);
            if id.None? then r == Failure(InvalidId) && db.store == s
            else if id.value !in s.keyTypes.rows then r == Failure(KeyTypeNotFound) && db.store == s
            else
              r == Success(Updated(s.keyTypes.rows[id.value], u)) && db.store == WithKeyType(s, id.value, r.value)
  {
    if id.None? {
      return Failure(InvalidId);
    }
    if id.value !in db.store.keyTypes.rows {
      return Failure(KeyTypeNotFound);
    }
    var updated := Updated(db.store.keyTypes.rows[id.value], u);
    db.store := db.store.(keyTypes := db.store.keyTypes.Put(id.value, updated));
    r := Success(updated);
  }

  /**
   * An update writes exactly the columns the body supplies: the id and the
   * associations are kept, a column left out keeps its value, an empty body
   * changes nothing, and applying the same body twice is applying it once.
   */
  lemma UpdatedColumns(kt: KeyType, u: KeyTypeUpdate)
    ensures var k := Updated(kt, u);
            k.id == kt.id && k.software == kt.software &&
            (u.name.None? ==> k.name == kt.name) && (u.name.Some? ==> k.name == u.name.value) &&
            (u.hours.None? ==> k.hours == kt.hours) && (u.hours.Some? ==> k.hours == u.hours.value) &&
            (u.price.None? ==> k.price == kt.price) && (u.price.Some? ==> k.price == u.price.value) &&
            (u.isActive.None? ==> k.isActive == kt.isActive) && (u.isActive.Some? ==> k.isActive == u.isActive.value) &&
            (u.status.None? ==> k.status == kt.status) && (u.status.Some? ==> k.status == u.status.value)
    ensures u == KeyTypeUpdate(None, None, None, None, None, None, None, None, None) ==> Updated(kt, u) == kt
    ensures Updated(Updated(kt, u), u) == Updated(kt, u)
  {
  }

  /**
   * The update does not look at the other rows: a body naming another type's
   * name gives two types that name.
   */
  lemma UpdateCanDuplicateName(s: Store, id: nat, other: nat, u: KeyTypeUpdate)
    requires s.Valid() && id in s.keyTypes.rows && other in s.keyTypes.rows && id != other
    requires u.name == Some(s.keyTypes.rows[other].name)
    ensures !KeyTypeNamesUnique(WithKeyType(s, id, Updated(s.keyTypes.rows[id], u)))
  {
    var after := WithKeyType(s, id, Updated(s.keyTypes.rows[id], u));
    assert after.keyTypes.rows[id].name == after.keyTypes.rows[other].name;
  }

  // ---------------------------------------------------------------------------
  // DeleteKeyType.

  predicate OfType(k: Key, keyTypeId: nat) {
    k.typeId == keyTypeId
  }

  predicate TypeInUse(s: Store, keyTypeId: nat) {
    exists k :: k in s.keys.rows && OfType(s.keys.rows[k], keyTypeId)
  }

  /** Every key names a key type that exists. */
  ghost predicate TypesReferenced(s: Store) {
    forall k :: k in s.keys.rows ==> s.keys.rows[k].typeId in s.keyTypes.rows
  }

  /** DeleteKeyType: refused while a key has the type; the binding rows of the type are not touched. */
  method DeleteKeyType(db: Db, id: Option<nat>) returns (r: Result<(), Error>)
    requires db.store.Valid()
    modifies db
    ensures db.store.Valid()
    ensures var s := old(db.store);
            if id.None? then r == Failure(InvalidId) && db.store == s
            else if id.value !in s.keyTypes.rows then r == Failure(KeyTypeNotFound) && db.store == s
            else if TypeInUse(s, id.value) then r == Failure(KeyTypeInUse) && db.store == s
            else r.Success? && db.store == s.(keyTypes := s.keyTypes.Delete({id.value}))
  {
    if id.None? {
      return Failure(InvalidId);
    }
    if id.value !in db.store.keyTypes.rows {
      return Failure(KeyTypeNotFound);
    }
    var keyTypeId := id.value;
    var inUse := FindWhere(db.store.keys.rows, (k: Key) => OfType(k, keyTypeId));
    if inUse.Some? {
      return Failure(KeyTypeInUse);
    }
    db.store := db.store.(keyTypes := db.store.keyTypes.Delete({keyTypeId}));
    r := Success(());
  }

  /**
   * The guard keeps every key's type in place: deleting a type no key has
   * leaves every key naming an existing type, and the type is gone.
   */
  lemma DeleteKeepsReferences(s: Store, id: nat)
    requires s.Valid() && TypesReferenced(s) && id in s.keyTypes.rows && !TypeInUse(s, id)
    ensures TypesReferenced(s.(keyTypes := s.keyTypes.Delete({id})))
    ensures id !in s.keyTypes.Delete({id}).rows
  {
    forall k | k in s.keys.rows
      ensures s.keys.rows[k].typeId in s.keyTypes.Delete({id}).rows
    {
      assert !OfType(s.keys.rows[k], id);
    }
  }

  // ---------------------------------------------------------------------------
  // ActivateKeyType and DeactivateKeyType.

  function Activated(kt: KeyType): (a: KeyType)
    ensures a.IsEnabled()
  {
    kt.(isActive := true, status := Active)
  }

  function Deactivated(kt: KeyType): (d: KeyType)
    ensures !d.IsEnabled()
  {
    kt.(isActive := false, status := Inactive)
  }

  /** ActivateKeyType: the flag set and status "active", on an existing row. */
  method ActivateKeyType(db: Db, id: Option<nat>) returns (r: Result<KeyType, Error>)
    requires db.store.Valid()
    modifies db
    ensures db.store.Valid()
    ensures var s := old(db.store);
            if id.None? then r == Failure(InvalidId) && db.store == s
            else if id.value !in s.keyTypes.rows then r == Failure(KeyTypeNotFound) && db.store == s
            else r == Success(Activated(s.keyTypes.rows[id.value])) && db.store == WithKeyType(s, id.value, r.value)
  {
    if id.None? {
      return Failure(InvalidId);
    }
    if id.value !in db.store.keyTypes.rows {
      return Failure(KeyTypeNotFound);
    }
    var updated := db.store.keyTypes.rows[id.value].(isActive := true, status := Active);
    db.store := db.store.(keyTypes := db.store.keyTypes.Put(id.value, updated));
    r := Success(updated);
  }

  /** DeactivateKeyType: the flag cleared and status "inactive", on an existing row. */
  method DeactivateKeyType(db: Db, id: Option<nat>) returns (r: Result<KeyType, Error>)
    requires db.store.Valid()
    modifies db
    ensures db.store.Valid()
    ensures var s := old(db.store);
            if id.None? then r == Failure(InvalidId) && db.store == s
            else if id.value !in s.keyTypes.rows then r == Failure(KeyTypeNotFound) && db.store == s
            else r == Success(Deactivated(s.keyTypes.rows[id.value])) && db.store == WithKeyType(s, id.value, r.value)
  {
    if id.None? {
      return Failure(InvalidId);
    }
    if id.value !in db.store.keyTypes.rows {
      return Failure(KeyTypeNotFound);
    }
    var updated := db.store.keyTypes.rows[id.value].(isActive := false, status := Inactive);
    db.store := db.store.(keyTypes := db.store.keyTypes.Put(id.value, updated));
    r := Success(updated);
  }

  /**
   * The switches are the body updates {is_active, status} with fixed values,
   * touch nothing else, and each undoes the other on a row in its state.
   */
  lemma SwitchesAreUpdates(kt: KeyType)
    ensures Activated(kt) == Updated(kt, KeyTypeUpdate(None, None, None, None, Some(Active), Some(true), None, None, None))
    ensures Deactivated(kt) == Updated(kt, KeyTypeUpdate(None, None, None, None, Some(Inactive), Some(false), None, None, None))
    ensures kt.status == Active && kt.isActive ==> Activated(Deactivated(kt)) == kt
    ensures kt.status == Inactive && !kt.isActive ==> Deactivated(Activated(kt)) == kt
  {
  }
}
