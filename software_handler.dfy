/**
 * The software handlers: creating a software record, switching it on and off,
 * binding a key type to it and unbinding it, and listing its key types with
 * the flag of their binding.  A path id arrives as the result of
 * strconv.Atoi: None when it does not parse.
 */
module SoftwareHandler {
  import opened Outcomes
  import opened Tables
  import opened Catalog
  import opened Database

  datatype Error =
    | NameMissing
    | VersionMissing
    | DescriptionMissing
    | NameTaken
    | InvalidId
    | SoftwareNotFound       // 404, for a path id
    | SoftwareMissing        // 400, for an id in a bind request
    | KeyTypeMissing         // 400, for an id in a bind request
    | AlreadyBound
    | BindingNotFound
  {
    function HttpStatus(): int {
      match this
      case SoftwareNotFound => 404
      case BindingNotFound => 404
      case _ => 400
    }
  }

  // ---------------------------------------------------------------------------
  // CreateSoftware.

  predicate NamedSoftware(sw: Software, name: string) {
    sw.name == name
  }

  predicate NameInUse(s: Store, name: string) {
    exists id :: id in s.software.rows && NamedSoftware(s.software.rows[id], name)
  }

  /** No two software rows share a name; the handler's own check keeps it, no index does. */
  ghost predicate SoftwareNamesUnique(s: Store) {
    forall i, j :: i in s.software.rows && j in s.software.rows && i != j ==>
      s.software.rows[i].name != s.software.rows[j].name
  }

  /** The row CreateSoftware stores: an empty status becomes "active", and it is enabled. */
  function NewSoftware(sw: Software, id: nat): Software {
    sw.(id := id, status := DefaultStatus(sw.status, Active), isActive := true)
  }

  /** The first check of CreateSoftware the body fails, or None. */
  function CreateSoftwareCheck(s: Store, sw: Software): (e: Option<Error>)
    ensures e.None? <==> sw.name != "" && sw.version != "" && sw.description != "" && !NameInUse(s, sw.name)
  {
    if sw.name == "" then Some(NameMissing)
    else if sw.version == "" then Some(VersionMissing)
    else if sw.description == "" then Some(DescriptionMissing)
    else if NameInUse(s, sw.name) then Some(NameTaken)
    else None
  }

  /** CreateSoftware: the three required fields, the name check, the defaults, then the insert. */
  method CreateSoftware(db: Db, sw: Software) returns (r: Result<Software, Error>)
    requires db.store.Valid()
    modifies db
    ensures db.store.Valid()
    ensures var s := old(db.store);
            var check := CreateSoftwareCheck(s, sw);
            if check.Some? then r == Failure(check.value) && db.store == s
            else
              r == Success(NewSoftware(sw, s.software.next)) &&
              db.store == s.(software := s.software.Insert(r.value).0)
  {
    if sw.name == "" {
      return Failure(NameMissing);
    }
    if sw.version == "" {
      return Failure(VersionMissing);
    }
    if sw.description == "" {
      return Failure(DescriptionMissing);
    }
    var existing := FindWhere(db.store.software.rows, (x: Software) => NamedSoftware(x, sw.name));
    if existing.Some? {
      return Failure(NameTaken);
    }
    var created := sw;
    if created.status == "" {
      created := created.(status := Active);
    }
    created := created.(isActive := true, id := db.store.software.next);
    db.store := db.store.(software := db.store.software.Insert(created).0);
    r := Success(created);
  }

  /**
   * A created software is enabled unless the body asked for another status,
   * keeps the body's other fields, and gets a name no other row has, so
   * creation keeps the names unique.
   */
  lemma CreateSoftwareEffect(s: Store, sw: Software)
    requires s.Valid() && CreateSoftwareCheck(s, sw).None?
    ensures var created := NewSoftware(sw, s.software.next);
            var after := s.(software := s.software.Insert(created).0);
            created.isActive && (created.IsEnabled() <==> sw.status == "" || sw.status == Active) &&
            created.name == sw.name && created.version == sw.version && created.description == sw.description &&
            created.announcement == sw.announcement && created.creatorId == sw.creatorId &&
            (SoftwareNamesUnique(s) ==> SoftwareNamesUnique(after))
  {
    var created := NewSoftware(sw, s.software.next);
    var after := s.(software := s.software.Insert(created).0);
    if SoftwareNamesUnique(s) {
      forall i, j | i in after.software.rows && j in after.software.rows && i != j
        ensures after.software.rows[i].name != after.software.rows[j].name
      {
        if i == s.software.next {
          assert !NamedSoftware(s.software.rows[j], sw.name);
        } else if j == s.software.next {
          assert !NamedSoftware(s.software.rows[i], sw.name);
        }
      }
    }
  }

  // ---------------------------------------------------------------------------
  // ActivateSoftware and DeactivateSoftware.

  function Activated(sw: Software): (a: Software)
    ensures a.IsEnabled()
  {
    sw.(status := Active, isActive := true)
  }

  function Deactivated(sw: Software): (d: Software)
    ensures !d.IsEnabled()
  {
    sw.(status := Inactive, isActive := false)
  }

  /** The store after writing `status` and `is_active` of an existing row. */
  function WithSoftware(s: Store, id: nat, sw: Software): Store
    requires s.software.Valid() && id in s.software.rows
  {
    s.(software := s.software.Put(id, sw))
  }

  /** ActivateSoftware: status "active" and the flag set, on an existing row. */
  method ActivateSoftware(db: Db, id: Option<int>) returns (r: Result<Software, Error>)
    requires db.store.Valid()
    modifies db
    ensures db.store.Valid()
    ensures var s := old(db.store);
            if id.None? then r == Failure(InvalidId) && db.store == s
            else if !HasRow(s.software, id.value) then r == Failure(SoftwareNotFound) && db.store == s
            else
              r == Success(Activated(s.software.rows[id.value])) &&
              db.store == WithSoftware(s, id.value, r.value)
  {
    if id.None? {
      return Failure(InvalidId);
    }
    if !HasRow(db.store.software, id.value) {
      return Failure(SoftwareNotFound);
    }
    var sw := db.store.software.rows[id.value];
    var updated := sw.(status := Active, isActive := true);
    db.store := db.store.(software := db.store.software.Put(id.value, updated));
    r := Success(updated);
  }

  /** DeactivateSoftware: status "inactive" and the flag cleared, on an existing row. */
  method DeactivateSoftware(db: Db, id: Option<int>) returns (r: Result<Software, Error>)
    requires db.store.Valid()
    modifies db
    ensures db.store.Valid()
    ensures var s := old(db.store);
            if id.None? then r == Failure(InvalidId) && db.store == s
            else if !HasRow(s.software, id.value) then r == Failure(SoftwareNotFound) && db.store == s
            else
              r == Success(Deactivated(s.software.rows[id.value])) &&
              db.store == WithSoftware(s, id.value, r.value)
  {
    if id.None? {
      return Failure(InvalidId);
    }
    if !HasRow(db.store.software, id.value) {
      return Failure(SoftwareNotFound);
    }
    var sw := db.store.software.rows[id.value];
    var updated := sw.(status := Inactive, isActive := false);
    db.store := db.store.(software := db.store.software.Put(id.value, updated));
    r := Success(updated);
  }

  /**
   * Switching a software on or off touches only its two flags, and each
   * switch undoes the other: deactivating an active software, or activating
   * an inactive one, gives the row back.
   */
  lemma SwitchesInverse(sw: Software)
    ensures Activated(sw).(status := sw.status, isActive := sw.isActive) == sw
    ensures Deactivated(sw).(status := sw.status, isActive := sw.isActive) == sw
    ensures sw.status == Active && sw.isActive ==> Activated(Deactivated(sw)) == sw
    ensures sw.status == Inactive && !sw.isActive ==> Deactivated(Activated(sw)) == sw
    ensures Activated(Activated(sw)) == Activated(sw) && Deactivated(Deactivated(sw)) == Deactivated(sw)
  {
  }

  // ---------------------------------------------------------------------------
  // BindKeyType and UnbindKeyType.

  /** The first check of BindKeyType the request fails, or None. */
  function BindCheck(s: Store, softwareId: nat, keyTypeId: nat): (e: Option<Error>)
    ensures e.None? <==>
              softwareId in s.software.rows && keyTypeId in s.keyTypes.rows && !Bound(s, softwareId, keyTypeId)
  {
    if softwareId !in s.software.rows then Some(SoftwareMissing)
    else if keyTypeId !in s.keyTypes.rows then Some(KeyTypeMissing)
    else if Bound(s, softwareId, keyTypeId) then Some(AlreadyBound)
    else None
  }

  function Bind(s: Store, softwareId: nat, keyTypeId: nat, creatorId: nat): Store
    requires s.bindings.Valid()
  {
    s.(bindings := s.bindings.Insert(SoftwareKeyType(softwareId, keyTypeId, true, creatorId)).0)
  }

  /** BindKeyType: both ends must exist and the pair must not be bound yet; the new binding is enabled. */
  method BindKeyType(db: Db, softwareId: nat, keyTypeId: nat, creatorId: nat) returns (r: Result<SoftwareKeyType, Error>)
    requires db.store.Valid()
    modifies db
    ensures db.store.Valid()
    ensures var s := old(db.store);
            var check := BindCheck(s, softwareId, keyTypeId);
            if check.Some? then r == Failure(check.value) && db.store == s
            else
              r == Success(SoftwareKeyType(softwareId, keyTypeId, true, creatorId)) && r.value.IsEnabled() &&
              db.store == Bind(s, softwareId, keyTypeId, creatorId)
  {
    if softwareId !in db.store.software.rows {
      return Failure(SoftwareMissing);
    }
    if keyTypeId !in db.store.keyTypes.rows {
      return Failure(KeyTypeMissing);
    }
    var existing := FindWhere(db.store.bindings.rows, (b: SoftwareKeyType) => IsBinding(b, softwareId, keyTypeId));
    if existing.Some? {
      return Failure(AlreadyBound);
    }
    var binding := SoftwareKeyType(softwareId, keyTypeId, true, creatorId);
    BindValid(db.store, softwareId, keyTypeId, creatorId);
    db.store := db.store.(bindings := db.store.bindings.Insert(binding).0);
    r := Success(binding);
  }

  lemma BindValid(s: Store, softwareId: nat, keyTypeId: nat, creatorId: nat)
    requires s.Valid() && !Bound(s, softwareId, keyTypeId)
    ensures Bind(s, softwareId, keyTypeId, creatorId).Valid()
  {
    var after := Bind(s, softwareId, keyTypeId, creatorId).bindings.rows;
    var n := s.bindings.next;
    forall i, j | i in after && j in after && i != j
      ensures after[i].softwareId != after[j].softwareId || after[i].keyTypeId != after[j].keyTypeId
    {
      if i == n {
        assert !IsBinding(s.bindings.rows[j], softwareId, keyTypeId);
      } else if j == n {
        assert !IsBinding(s.bindings.rows[i], softwareId, keyTypeId);
      }
    }
  }

  /** The rows `Where("software_id = ? AND key_type_id = ?").Delete` removes. */
  function PairRows(s: Store, softwareId: nat, keyTypeId: nat): set<nat> {
    IdsWhere(s.bindings.rows, (b: SoftwareKeyType) => IsBinding(b, softwareId, keyTypeId))
  }

  function Unbind(s: Store, softwareId: nat, keyTypeId: nat): Store
    requires s.bindings.Valid()
  {
    s.(bindings := s.bindings.Delete(PairRows(s, softwareId, keyTypeId)))
  }

  /** UnbindKeyType: deletes every row of the pair; no row deleted is a 404. */
  method UnbindKeyType(db: Db, softwareId: nat, keyTypeId: nat) returns (r: Result<(), Error>)
    requires db.store.Valid()
    modifies db
    ensures db.store.Valid()
    ensures r == Failure(BindingNotFound) <==> !Bound(old(db.store), softwareId, keyTypeId)
    ensures r.Success? || r == Failure(BindingNotFound)
    ensures db.store == Unbind(old(db.store), softwareId, keyTypeId)
    ensures !Bound(db.store, softwareId, keyTypeId)
  {
    var ids := IdsWhere(db.store.bindings.rows, (b: SoftwareKeyType) => IsBinding(b, softwareId, keyTypeId));
    db.store := db.store.(bindings := db.store.bindings.Delete(ids));
    if ids == {} {
      assert !Bound(old(db.store), softwareId, keyTypeId);
      return Failure(BindingNotFound);
    }
    r := Success(());
  }

  /** Unbinding a pair bound just now gives the binding rows back as they were. */
  lemma UnbindAfterBind(s: Store, softwareId: nat, keyTypeId: nat, creatorId: nat)
    requires s.Valid() && BindCheck(s, softwareId, keyTypeId).None?
    ensures Bound(Bind(s, softwareId, keyTypeId, creatorId), softwareId, keyTypeId)
    ensures Unbind(Bind(s, softwareId, keyTypeId, creatorId), softwareId, keyTypeId).bindings.rows == s.bindings.rows
    ensures Unbind(Bind(s, softwareId, keyTypeId, creatorId), softwareId, keyTypeId).(bindings := s.bindings) ==
              s.(bindings := s.bindings)
  {
    var bound := Bind(s, softwareId, keyTypeId, creatorId);
    var n := s.bindings.next;
    assert IsBinding(bound.bindings.rows[n], softwareId, keyTypeId);
    assert PairRows(bound, softwareId, keyTypeId) == {n} by {
      forall i | i in PairRows(bound, softwareId, keyTypeId)
        ensures i == n
      {
      }
    }
  }

  // ---------------------------------------------------------------------------
  // GetSoftwareKeyTypes.

  datatype KeyTypeWithBinding = KeyTypeWithBinding(keyType: KeyType, isDefault: bool)

  /** The is_active of the first of the binding rows `ids` for the key type, or false when none is. */
  function BindingFlag(rows: map<nat, SoftwareKeyType>, ids: seq<nat>, keyTypeId: nat): bool
    requires forall i :: 0 <= i < |ids| ==> ids[i] in rows
    decreases |ids|
  {
    if |ids| == 0 then false
    else if rows[ids[0]].keyTypeId == keyTypeId then rows[ids[0]].isActive
    else BindingFlag(rows, ids[1..], keyTypeId)
  }

  /** An enabled binding row pairs the software with the key type. */
  predicate ActivelyBound(s: Store, softwareId: nat, keyTypeId: nat) {
    exists b :: b in s.bindings.rows && IsBinding(s.bindings.rows[b], softwareId, keyTypeId) &&
                s.bindings.rows[b].isActive
  }

  /**
   * Among the rows of one software, the first row of a key type is its only
   * row, so the flag taken from it is set exactly when an enabled row
   * exists.
   */
  lemma {:induction false} BindingFlagActive(s: Store, ids: seq<nat>, softwareId: nat, keyTypeId: nat)
    requires s.Valid()
    requires forall i :: 0 <= i < |ids| ==> ids[i] in s.bindings.rows && s.bindings.rows[ids[i]].softwareId == softwareId
    ensures BindingFlag(s.bindings.rows, ids, keyTypeId) <==>
              exists i :: 0 <= i < |ids| && s.bindings.rows[ids[i]].keyTypeId == keyTypeId && s.bindings.rows[ids[i]].isActive
    decreases |ids|
  {
    var rows := s.bindings.rows;
    if |ids| > 0 {
      BindingFlagActive(s, ids[1..], softwareId, keyTypeId);
      if rows[ids[0]].keyTypeId == keyTypeId {
        forall i | 0 <= i < |ids| && rows[ids[i]].keyTypeId == keyTypeId
          ensures ids[i] == ids[0]
        {
        }
      } else {
        forall i | 0 < i < |ids|
          ensures ids[i] == ids[1..][i - 1]
        {
        }
      }
    }
  }

  /** The inner loop of GetSoftwareKeyTypes: the first binding of the key type gives the flag. */
  method FirstBindingFlag(rows: map<nat, SoftwareKeyType>, ids: seq<nat>, keyTypeId: nat) returns (isDefault: bool)
    requires forall i :: 0 <= i < |ids| ==> ids[i] in rows
    ensures isDefault == BindingFlag(rows, ids, keyTypeId)
  {
    isDefault := false;
    var i := 0;
    while i < |ids|
      invariant 0 <= i <= |ids|
      invariant BindingFlag(rows, ids[i..], keyTypeId) == BindingFlag(rows, ids, keyTypeId)
    {
      if rows[ids[i]].keyTypeId == keyTypeId {
        isDefault := rows[ids[i]].isActive;
        return;
      }
      assert ids[i..][1..] == ids[i + 1..];
      i := i + 1;
    }
  }

  /**
   * GetSoftwareKeyTypes: every existing key type bound to the software,
   * once, each with the flag of its binding.
   */
  method GetSoftwareKeyTypes(db: Db, id: Option<int>) returns (r: Result<seq<KeyTypeWithBinding>, Error>)
    requires db.store.Valid()
    ensures var s := db.store;
            if id.None? then r == Failure(InvalidId)
            else if !HasRow(s.software, id.value) then r == Failure(SoftwareNotFound)
            else
              r.Success? &&
              (forall i :: 0 <= i < |r.value| ==>
                 var kt := r.value[i].keyType;
                 kt.id in s.keyTypes.rows && s.keyTypes.rows[kt.id] == kt && Bound(s, id.value, kt.id) &&
                 (r.value[i].isDefault <==> ActivelyBound(s, id.value, kt.id))) &&
              (forall kid :: kid in s.keyTypes.rows && Bound(s, id.value, kid) ==>
                 exists i :: 0 <= i < |r.value| && r.value[i].keyType.id == kid) &&
              (forall i, j :: 0 <= i < j < |r.value| ==> r.value[i].keyType.id != r.value[j].keyType.id)
  {
    if id.None? {
      return Failure(InvalidId);
    }
    if !HasRow(db.store.software, id.value) {
      return Failure(SoftwareNotFound);
    }
    var s := db.store;
    var softwareId: nat := id.value;
    var bindingIds := FindAll(s.bindings.rows, (b: SoftwareKeyType) => b.softwareId == softwareId);
    if |bindingIds| == 0 {
      return Success([]);
    }
    var keyTypeIds: seq<nat> := [];
    for i := 0 to |bindingIds|
      invariant |keyTypeIds| == i
      invariant forall k :: 0 <= k < i ==> keyTypeIds[k] == s.bindings.rows[bindingIds[k]].keyTypeId
    {
      keyTypeIds := keyTypeIds + [s.bindings.rows[bindingIds[i]].keyTypeId];
    }
    var typeIds := FindAll(s.keyTypes.rows, (k: KeyType) => k.id in keyTypeIds);
    var result: seq<KeyTypeWithBinding> := [];
    for i := 0 to |typeIds|
      invariant |result| == i
      invariant forall k :: 0 <= k < i ==>
                  result[k] == KeyTypeWithBinding(s.keyTypes.rows[typeIds[k]],
                                                  BindingFlag(s.bindings.rows, bindingIds, typeIds[k]))
    {
      var keyType := s.keyTypes.rows[typeIds[i]];
      var isDefault := FirstBindingFlag(s.bindings.rows, bindingIds, keyType.id);
      result := result + [KeyTypeWithBinding(keyType, isDefault)];
    }
    ListedKeyTypes(s, softwareId, bindingIds, keyTypeIds, typeIds, result);
    r := Success(result);
  }

  /** The facts the listing's contract states, from the queries' results. */
  lemma ListedKeyTypes(s: Store, softwareId: nat, bindingIds: seq<nat>, keyTypeIds: seq<nat>, typeIds: seq<nat>,
                       result: seq<KeyTypeWithBinding>)
    requires s.Valid()
    requires forall b :: b in bindingIds <==> b in s.bindings.rows && s.bindings.rows[b].softwareId == softwareId
    requires |keyTypeIds| == |bindingIds|
    requires forall k :: 0 <= k < |bindingIds| ==> keyTypeIds[k] == s.bindings.rows[bindingIds[k]].keyTypeId
    requires forall t :: t in typeIds <==> t in s.keyTypes.rows && s.keyTypes.rows[t].id in keyTypeIds
    requires forall i, j :: 0 <= i < j < |typeIds| ==> typeIds[i] != typeIds[j]
    requires |result| == |typeIds|
    requires forall k :: 0 <= k < |typeIds| ==>
               result[k] == KeyTypeWithBinding(s.keyTypes.rows[typeIds[k]], BindingFlag(s.bindings.rows, bindingIds, typeIds[k]))
    ensures forall i :: 0 <= i < |result| ==>
              var kt := result[i].keyType;
              kt.id in s.keyTypes.rows && s.keyTypes.rows[kt.id] == kt && Bound(s, softwareId, kt.id) &&
              (result[i].isDefault <==> ActivelyBound(s, softwareId, kt.id))
    ensures forall kid :: kid in s.keyTypes.rows && Bound(s, softwareId, kid) ==>
              exists i :: 0 <= i < |result| && result[i].keyType.id == kid
    ensures forall i, j :: 0 <= i < j < |result| ==> result[i].keyType.id != result[j].keyType.id
  {
    forall i | 0 <= i < |result|
      ensures var kt := result[i].keyType;
              kt.id in s.keyTypes.rows && s.keyTypes.rows[kt.id] == kt && Bound(s, softwareId, kt.id) &&
              (result[i].isDefault <==> ActivelyBound(s, softwareId, kt.id))
    {
      var t := typeIds[i];
      assert t in typeIds;
      var k :| 0 <= k < |keyTypeIds| && keyTypeIds[k] == t;
      assert bindingIds[k] in bindingIds;
      assert IsBinding(s.bindings.rows[bindingIds[k]], softwareId, t);
      BindingFlagActive(s, bindingIds, softwareId, t);
      if ActivelyBound(s, softwareId, t) {
        var b :| b in s.bindings.rows && IsBinding(s.bindings.rows[b], softwareId, t) && s.bindings.rows[b].isActive;
        assert b in bindingIds;
        var j :| 0 <= j < |bindingIds| && bindingIds[j] == b;
      }
    }
    forall kid | kid in s.keyTypes.rows && Bound(s, softwareId, kid)
      ensures exists i :: 0 <= i < |result| && result[i].keyType.id == kid
    {
      var b :| b in s.bindings.rows && IsBinding(s.bindings.rows[b], softwareId, kid);
      assert b in bindingIds;
      var k :| 0 <= k < |bindingIds| && bindingIds[k] == b;
      assert kid in keyTypeIds by {
        assert keyTypeIds[k] == kid;
      }
      assert kid in typeIds;
      var i :| 0 <= i < |typeIds| && typeIds[i] == kid;
      assert result[i].keyType.id == kid;
    }
  }
}
