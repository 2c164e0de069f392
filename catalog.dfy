/**
 * Key types, software and their many-to-many binding rows.  The structs are
 * values (they are what the tables store); a `...Ref` class stands for a Go
 * pointer to one such value, and its methods are the model methods that assign
 * fields through that pointer.  Read-only model methods are member predicates
 * of the datatypes.
 */
module Catalog {
  import opened Outcomes
  import opened Slices

  const Active: string := "active"
  const Inactive: string := "inactive"

  datatype KeyType = KeyType(
    id: nat,
    name: string,
    description: string,
    hours: int,
    price: real,
    status: string,
    isActive: bool,
    isUniversal: bool,
    creatorId: nat,
    sellerId: nat,
    software: seq<Software>)
  {
    /** Enabled: status "active" and the flag set. */
    predicate IsEnabled() {
      status == Active && isActive
    }

    function SoftwareIds(): (ids: seq<nat>)
      ensures |ids| == |software|
      ensures forall i :: 0 <= i < |software| ==> ids[i] == software[i].id
    {
      seq(|software|, i requires 0 <= i < |software| => software[i].id)
    }

    /** HasSoftware: some associated software has this id. */
    predicate HasSoftware(softwareId: nat)
      ensures HasSoftware(softwareId) <==> FirstIndexOf(SoftwareIds(), softwareId) < |software|
    {
      exists i :: 0 <= i < |software| && software[i].id == softwareId
    }
  }

  datatype Software = Software(
    id: nat,
    name: string,
    description: string,
    version: string,
    announcement: string,
    status: string,
    isActive: bool,
    creatorId: nat,
    keyTypes: seq<KeyType>)
  {
    /** Enabled: status "active" and the flag set. */
    predicate IsEnabled() {
      status == Active && isActive
    }

    function KeyTypeIds(): (ids: seq<nat>)
      ensures |ids| == |keyTypes|
      ensures forall i :: 0 <= i < |keyTypes| ==> ids[i] == keyTypes[i].id
    {
      seq(|keyTypes|, i requires 0 <= i < |keyTypes| => keyTypes[i].id)
    }

    /** HasKeyType: some associated key type has this id. */
    predicate HasKeyType(keyTypeId: nat)
      ensures HasKeyType(keyTypeId) <==> FirstIndexOf(KeyTypeIds(), keyTypeId) < |keyTypes|
    {
      exists i :: 0 <= i < |keyTypes| && keyTypes[i].id == keyTypeId
    }
  }

  /** A software_key_types row: the software may sell keys of that type. */
  datatype SoftwareKeyType = SoftwareKeyType(softwareId: nat, keyTypeId: nat, isActive: bool, creatorId: nat)
  {
    predicate IsEnabled() {
      isActive
    }
  }

  /** The status a record gets when the hook finds it empty. */
  function DefaultStatus(status: string, default: string): (s: string)
    ensures status == "" ==> s == default
    ensures status != "" ==> s == status
  {
    if status == "" then default else status
  }

  /** A pointer to a KeyType value. */
  class KeyTypeRef {
    var value: KeyType

    constructor (v: KeyType)
      ensures value == v
    {
      value := v;
    }

    /** BeforeCreate: defaults the status to "active", sets the flag; validation never fails. */
    method BeforeCreate() returns (err: Option<string>)
      modifies this
      ensures value == old(value).(status := DefaultStatus(old(value.status), Active), isActive := true)
      ensures err == None
    {
      if value.status == "" {
        value := value.(status := Active);
      }
      if !value.isActive {
        value := value.(isActive := true);
      }
      err := None;
    }

    method Enable()
      modifies this
      ensures value == old(value).(status := Active, isActive := true)
      ensures value.IsEnabled()
    {
      value := value.(status := Active, isActive := true);
    }

    method Disable()
      modifies this
      ensures value == old(value).(status := Inactive, isActive := false)
      ensures !value.IsEnabled()
    {
      value := value.(status := Inactive, isActive := false);
    }

    /** AddSoftware: appends at the end. */
    method AddSoftware(s: Software)
      modifies this
      ensures value == old(value).(software := old(value.software) + [s])
      ensures |value.software| == |old(value.software)| + 1
      ensures value.HasSoftware(s.id)
    {
      value := value.(software := value.software + [s]);
      assert value.software[|value.software| - 1] == s;
    }

    /** RemoveSoftware: drops the first element with that id, if there is one. */
    method RemoveSoftware(softwareId: nat)
      modifies this
      ensures value == old(value).(software :=
                RemoveAt(old(value.software), FirstIndexOf(old(value.SoftwareIds()), softwareId)))
      ensures !old(value.HasSoftware(softwareId)) ==> value == old(value)
    {
      var i := 0;
      while i < |value.software|
        invariant 0 <= i <= |value.software|
        invariant value == old(value)
        invariant forall j :: 0 <= j < i ==> value.software[j].id != softwareId
      {
        if value.software[i].id == softwareId {
          assert FirstIndexOf(value.SoftwareIds(), softwareId) == i;
          value := value.(software := value.software[..i] + value.software[i + 1..]);
          return;
        }
        i := i + 1;
      }
      assert FirstIndexOf(value.SoftwareIds(), softwareId) == |value.software|;
    }
  }

  /** A pointer to a Software value. */
  class SoftwareRef {
    var value: Software

    constructor (v: Software)
      ensures value == v
    {
      value := v;
    }

    /** BeforeCreate: defaults the status to "active", sets the flag; validation never fails. */
    method BeforeCreate() returns (err: Option<string>)
      modifies this
      ensures value == old(value).(status := DefaultStatus(old(value.status), Active), isActive := true)
      ensures err == None
    {
      if value.status == "" {
        value := value.(status := Active);
      }
      if !value.isActive {
        value := value.(isActive := true);
      }
      err := None;
    }

    method Enable()
      modifies this
      ensures value == old(value).(status := Active, isActive := true)
      ensures value.IsEnabled()
    {
      value := value.(status := Active, isActive := true);
    }

    method Disable()
      modifies this
      ensures value == old(value).(status := Inactive, isActive := false)
      ensures !value.IsEnabled()
    {
      value := value.(status := Inactive, isActive := false);
    }

    /** AddKeyType: appends at the end. */
    method AddKeyType(kt: KeyType)
      modifies this
      ensures value == old(value).(keyTypes := old(value.keyTypes) + [kt])
      ensures |value.keyTypes| == |old(value.keyTypes)| + 1
      ensures value.HasKeyType(kt.id)
    {
      value := value.(keyTypes := value.keyTypes + [kt]);
      assert value.keyTypes[|value.keyTypes| - 1] == kt;
    }

    /** RemoveKeyType: drops the first element with that id, if there is one. */
    method RemoveKeyType(keyTypeId: nat)
      modifies this
      ensures value == old(value).(keyTypes :=
                RemoveAt(old(value.keyTypes), FirstIndexOf(old(value.KeyTypeIds()), keyTypeId)))
      ensures !old(value.HasKeyType(keyTypeId)) ==> value == old(value)
    {
      var i := 0;
      while i < |value.keyTypes|
        invariant 0 <= i <= |value.keyTypes|
        invariant value == old(value)
        invariant forall j :: 0 <= j < i ==> value.keyTypes[j].id != keyTypeId
      {
        if value.keyTypes[i].id == keyTypeId {
          assert FirstIndexOf(value.KeyTypeIds(), keyTypeId) == i;
          value := value.(keyTypes := value.keyTypes[..i] + value.keyTypes[i + 1..]);
          return;
        }
        i := i + 1;
      }
      assert FirstIndexOf(value.KeyTypeIds(), keyTypeId) == |value.keyTypes|;
    }
  }

  /** A pointer to a SoftwareKeyType value. */
  class BindingRef {
    var value: SoftwareKeyType

    constructor (v: SoftwareKeyType)
      ensures value == v
    {
      value := v;
    }

    /** BeforeCreate: sets the flag; Validate always returns nil. */
    method BeforeCreate() returns (err: Option<string>)
      modifies this
      ensures value == old(value).(isActive := true)
      ensures value.IsEnabled() && err == None
    {
      if !value.isActive {
        value := value.(isActive := true);
      }
      err := None;
    }

    method Enable()
      modifies this
      ensures value == old(value).(isActive := true) && value.IsEnabled()
    {
      value := value.(isActive := true);
    }

    method Disable()
      modifies this
      ensures value == old(value).(isActive := false) && !value.IsEnabled()
    {
      value := value.(isActive := false);
    }
  }

  /**
   * Removing the first match takes exactly one occurrence of the id out of the
   * list: afterwards the id is still present exactly when it occurred twice.
   */
  lemma {:induction false} RemoveFirstOccurrence(ids: seq<nat>, id: nat)
    requires id in ids
    ensures multiset(RemoveAt(ids, FirstIndexOf(ids, id)))[id] == multiset(ids)[id] - 1
  {
    var i := FirstIndexOf(ids, id);
    RemoveAtMultiset(ids, i);
  }
}
