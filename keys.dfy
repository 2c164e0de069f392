/**
 * License keys.  A key is a value stored in the keys table; `KeyRef` stands for
 * a Go pointer to one, and its methods are the model methods that assign fields
 * through it.  Instants are integers (nanoseconds), the clock is a parameter.
 */
module Keys {
  import opened Outcomes

  const Unused: string := "unused"
  const Used: string := "used"
  const Void: string := "void"

  datatype Key = Key(
    code: string,
    keyCode: string,
    typeId: nat,
    typeName: string,
    hours: int,
    price: real,
    softwareId: nat,
    softwareName: string,
    status: string,
    creatorId: nat,
    creatorType: string,
    salespersonId: nat,
    userId: Option<nat>,
    deviceInfo: string,
    usedAt: Option<int>,
    expiredAt: Option<int>,
    activatedAt: Option<int>,
    isBlacklisted: bool)
  {
    /** IsValid: a used key whose expiry, if it has one, `now` has not passed. */
    predicate IsValid(now: int)
      ensures IsValid(now) ==> status == Used
      ensures status == Used ==> (IsValid(now) <==> expiredAt.None? || now <= expiredAt.value)
    {
      if status != Used then false
      else if expiredAt.Some? && now > expiredAt.value then false
      else true
    }
  }

  /** A pointer to a Key value. */
  class KeyRef {
    var value: Key

    constructor (v: Key)
      ensures value == v
    {
      value := v;
    }

    /** BeforeCreate: an empty status becomes "unused"; validation never fails. */
    method BeforeCreate() returns (err: Option<string>)
      modifies this
      ensures value == old(value).(status := if old(value.status) == "" then Unused else old(value.status))
      ensures err == None
    {
      if value.status == "" {
        value := value.(status := Unused);
      }
      err := None;
    }

    /** Activate: "used", activated and used at `now`; the expiry is left as it was. */
    method Activate(now: int) returns (err: Option<string>)
      modifies this
      ensures value == old(value).(status := Used, activatedAt := Some(now), usedAt := Some(now))
      ensures value.IsValid(now) <==> (value.expiredAt.None? || now <= value.expiredAt.value)
      ensures err == None
    {
      value := value.(status := Used, activatedAt := Some(now), usedAt := Some(now));
      err := None;
    }

    /** Disable: "void" from any state, after which the key is never valid. */
    method Disable() returns (err: Option<string>)
      modifies this
      ensures value == old(value).(status := Void)
      ensures forall now :: !value.IsValid(now)
      ensures err == None
    {
      value := value.(status := Void);
      err := None;
    }
  }
}
