/**
 * The agent handlers: agent codes, invitations, accepting an invitation (the
 * one operation that links a salesperson under a parent), the commission
 * cascade over the ancestors of a seller, and the commission total of an agent.
 * Header and path ids arrive as the result of strconv.Atoi: None when the text
 * is not a number.
 */
module AgentHandler {
  import opened Outcomes
  import opened Tables
  import opened Clock
  import opened SalesModels
  import opened Hierarchy
  import opened Commission
  import opened Database
  import opened Slices
  import CodeGenerator

  datatype Error =
    | InvalidSalespersonId
    | SalespersonNotFound
    | ContactRequired
    | InvalidEmail
    | InvalidPhone
    | DuplicateInvitation
    | EmptyInviteCode
    | InvitationNotFound
    | InvitationExpired
    | InviterNotFound
    | LevelLimitReached
    | AlreadyHasParent
    | CircularReference
    | StoreConflict          // a write the unique indexes reject
    | ParentNotFound(id: nat)
  {
    /** The HTTP status the handler responds with (500 for the errors of the commission walk). */
    function HttpStatus(): int {
      match this
      case InvalidSalespersonId => 400
      case SalespersonNotFound => 404
      case ContactRequired => 400
      case InvalidEmail => 400
      case InvalidPhone => 400
      case DuplicateInvitation => 409
      case EmptyInviteCode => 400
      case InvitationNotFound => 404
      case InvitationExpired => 400
      case InviterNotFound => 404
      case LevelLimitReached => 400
      case AlreadyHasParent => 400
      case CircularReference => 400
      case StoreConflict => 500
      case ParentNotFound(_) => 500
    }
  }

  /** Invitations expire seven days after they are created. */
  const InvitationLifetime: int := 7 * NanosPerDay

  // ---------------------------------------------------------------------------
  // GenerateAgentCode.

  /** Some salesperson already holds `code` (the unique index on agent_code would reject it). */
  predicate AgentCodeHeld(rows: map<nat, Salesperson>, code: string) {
    exists j :: j in rows && rows[j].agentCode == code
  }

  /**
   * An existing agent code is returned as it is; an empty one is replaced by a
   * fresh six-character code, unless another salesperson already holds it.
   */
  method GenerateAgentCode(db: Db, id: Option<int>, random: seq<CodeGenerator.Byte>) returns (r: Result<string, Error>)
    requires db.store.Valid() && |random| == 6
    modifies db
    ensures db.store.Valid()
    ensures id.None? ==> r == Failure(InvalidSalespersonId) && db.store == old(db.store)
    ensures id.Some? && !HasRow(old(db.store.salespersons), id.value) ==>
              r == Failure(SalespersonNotFound) && db.store == old(db.store)
    ensures id.Some? && HasRow(old(db.store.salespersons), id.value) ==>
              var sp := old(db.store.salespersons);
              var s := sp.rows[id.value];
              var code := CodeGenerator.CodeChars(random);
              if s.agentCode != "" then
                r == Success(s.agentCode) && db.store == old(db.store)
              else if AgentCodeHeld(sp.rows, code) then
                r == Failure(StoreConflict) && db.store == old(db.store)
              else
                r == Success(code) && |code| == 6 &&
                db.store == old(db.store).(salespersons := sp.Put(id.value, s.(agentCode := code)))
    ensures r.Success? ==>
              id.Some? && HasRow(db.store.salespersons, id.value) &&
              r.value == db.store.salespersons.rows[id.value].agentCode && r.value != ""
  {
    if id.None? {
      return Failure(InvalidSalespersonId);
    }
    if !HasRow(db.store.salespersons, id.value) {
      return Failure(SalespersonNotFound);
    }
    var sid: nat := id.value;
    var salesperson := db.store.salespersons.rows[sid];
    if salesperson.agentCode != "" {
      return Success(salesperson.agentCode);
    }
    var agentCode := CodeGenerator.GenerateAgentCode(random);
    var holder := FindWhere(db.store.salespersons.rows, (s: Salesperson) => s.agentCode == agentCode);
    if holder.Some? {
      return Failure(StoreConflict);
    }
    SetAgentCodeValid(db.store, sid, agentCode);
    db.store := db.store.(salespersons := db.store.salespersons.Put(sid, salesperson.(agentCode := agentCode)));
    r := Success(agentCode);
  }

  /** Giving a salesperson a code nobody holds keeps the unique indexes. */
  lemma SetAgentCodeValid(s: Store, id: nat, code: string)
    requires s.Valid() && id in s.salespersons.rows && !AgentCodeHeld(s.salespersons.rows, code)
    ensures s.(salespersons := s.salespersons.Put(id, s.salespersons.rows[id].(agentCode := code))).Valid()
  {
    var rows := s.salespersons.rows;
    var rows' := rows[id := rows[id].(agentCode := code)];
    forall i, j | i in rows' && j in rows' && i != j
      ensures rows'[i].username != rows'[j].username && rows'[i].agentCode != rows'[j].agentCode
    {
      if i != id && j != id {
        assert rows'[i] == rows[i] && rows'[j] == rows[j];
      } else if i == id {
        assert rows'[j] == rows[j];
      } else {
        assert rows'[i] == rows[i];
      }
    }
  }

  // ---------------------------------------------------------------------------
  // CreateAgentInvitation.

  predicate IsDigit(c: char) {
    '0' <= c <= '9'
  }

  /** `^[0-9]{5,15}$`. */
  predicate ValidPhone(phone: string) {
    5 <= |phone| <= 15 && forall i :: 0 <= i < |phone| ==> IsDigit(phone[i])
  }

  /**
   * The duplicate test as the chained query builds it, `status = 'pending'`
   * and then `email = ?` joined by AND, `phone = ?` joined by OR:
   * (pending AND email = e) OR phone = p.
   */
  predicate DuplicateAsWritten(inv: AgentInvitation, email: string, phone: string) {
    (inv.status == Pending && (email != "" ==> inv.email == email)) || (phone != "" && inv.phone == phone)
  }

  /** The duplicate test the handler's error describes: a pending invitation with the same email or the same phone. */
  predicate DuplicateIntended(inv: AgentInvitation, email: string, phone: string) {
    inv.status == Pending && ((email != "" && inv.email == email) || (phone != "" && inv.phone == phone))
  }

  /**
   * As written, a request with only a phone is refused because of any pending
   * invitation at all, and a phone already used by an accepted invitation
   * refuses the request too.
   */
  lemma DuplicateAsWrittenOverblocks()
    ensures var stranger := AgentInvitation(1, None, "QWERTY12", "someone@example.com", "", Pending, None, 0);
            DuplicateAsWritten(stranger, "", "5551234") && !DuplicateIntended(stranger, "", "5551234")
    ensures var settled := AgentInvitation(1, Some(2), "QWERTY34", "", "5551234", Accepted, Some(0), 0);
            DuplicateAsWritten(settled, "", "5551234") && !DuplicateIntended(settled, "", "5551234")
  {
  }

  /**
   * The intended test refuses no more than the written one, and the two agree
   * on pending invitations when the request has an email, and whenever it has
   * no phone.
   */
  lemma DuplicateAgreement(inv: AgentInvitation, email: string, phone: string)
    ensures DuplicateIntended(inv, email, phone) ==> DuplicateAsWritten(inv, email, phone)
    ensures email != "" && inv.status == Pending ==> (DuplicateAsWritten(inv, email, phone) <==> DuplicateIntended(inv, email, phone))
    ensures email != "" && phone == "" ==> (DuplicateAsWritten(inv, email, phone) <==> DuplicateIntended(inv, email, phone))
  {
  }

  /** No two pending invitations share a non-empty email or a non-empty phone. */
  ghost predicate PendingContactsDistinct(rows: map<nat, AgentInvitation>) {
    forall i, j :: i in rows && j in rows && i != j && rows[i].status == Pending ==>
      !DuplicateIntended(rows[j], rows[i].email, rows[i].phone)
  }

  /** The row CreateAgentInvitation stores. */
  function NewInvitation(inviterId: nat, code: string, email: string, phone: string, now: nat): (inv: AgentInvitation)
    ensures inv.status == Pending && inv.inviteeId.None? && inv.acceptedAt.None?
    ensures inv.expiredAt == now + InvitationLifetime && inv.expiredAt > now
  {
    AgentInvitation(inviterId, None, code, email, phone, Pending, None, now + InvitationLifetime)
  }

  /** A row the duplicate test refuses the request for. */
  predicate DuplicateExists(rows: map<nat, AgentInvitation>, email: string, phone: string) {
    exists id :: id in rows && DuplicateIntended(rows[id], email, phone)
  }

  predicate InviteCodeHeld(rows: map<nat, AgentInvitation>, code: string) {
    exists id :: id in rows && rows[id].inviteCode == code
  }

  /**
   * Validates the contact, refuses a duplicate pending invitation and stores a
   * pending invitation with a fresh eight-character code that expires in seven
   * days.  `isEmail` is the email pattern, left uninterpreted.
   */
  method CreateAgentInvitation(db: Db, inviterId: Option<int>, email: string, phone: string,
                               isEmail: string -> bool, now: nat, random: seq<CodeGenerator.Byte>)
    returns (r: Result<nat, Error>)
    requires db.store.Valid() && |random| == 8
    modifies db
    ensures db.store.Valid()
    ensures r.Failure? ==> db.store == old(db.store)
    ensures var invs := old(db.store.invitations);
            var code := CodeGenerator.CodeChars(random);
            if inviterId.None? then r == Failure(InvalidSalespersonId)
            else if email == "" && phone == "" then r == Failure(ContactRequired)
            else if email != "" && !isEmail(email) then r == Failure(InvalidEmail)
            else if phone != "" && !ValidPhone(phone) then r == Failure(InvalidPhone)
            else if !HasRow(old(db.store.salespersons), inviterId.value) then r == Failure(SalespersonNotFound)
            else if DuplicateExists(invs.rows, email, phone) then r == Failure(DuplicateInvitation)
            else if InviteCodeHeld(invs.rows, code) then r == Failure(StoreConflict)
            else
              r == Success(invs.next) &&
              db.store == old(db.store).(invitations := invs.Insert(NewInvitation(inviterId.value, code, email, phone, now)).0)
    ensures PendingContactsDistinct(old(db.store.invitations.rows)) ==> PendingContactsDistinct(db.store.invitations.rows)
  {
    if inviterId.None? {
      return Failure(InvalidSalespersonId);
    }
    if email == "" && phone == "" {
      return Failure(ContactRequired);
    }
    if email != "" && !isEmail(email) {
      return Failure(InvalidEmail);
    }
    if phone != "" && !ValidPhone(phone) {
      return Failure(InvalidPhone);
    }
    if !HasRow(db.store.salespersons, inviterId.value) {
      return Failure(SalespersonNotFound);
    }
    var existing := FindWhere(db.store.invitations.rows, (inv: AgentInvitation) => DuplicateIntended(inv, email, phone));
    if existing.Some? {
      return Failure(DuplicateInvitation);
    }
    var inviteCode := CodeGenerator.GenerateInviteCode(random);
    var clash := FindWhere(db.store.invitations.rows, (inv: AgentInvitation) => inv.inviteCode == inviteCode);
    if clash.Some? {
      return Failure(StoreConflict);
    }
    var invitation := NewInvitation(inviterId.value, inviteCode, email, phone, now);
    InsertInvitationValid(db.store, invitation);
    var (table, id) := db.store.invitations.Insert(invitation);
    db.store := db.store.(invitations := table);
    r := Success(id);
  }

  /** A pending invitation with a code nobody holds and no duplicate keeps the store valid and the contacts distinct. */
  lemma InsertInvitationValid(s: Store, inv: AgentInvitation)
    requires s.Valid() && inv.status == Pending
    requires !InviteCodeHeld(s.invitations.rows, inv.inviteCode)
    requires !DuplicateExists(s.invitations.rows, inv.email, inv.phone)
    ensures s.(invitations := s.invitations.Insert(inv).0).Valid()
    ensures PendingContactsDistinct(s.invitations.rows) ==> PendingContactsDistinct(s.invitations.Insert(inv).0.rows)
  {
    var rows := s.invitations.rows;
    var rows' := s.invitations.Insert(inv).0.rows;
    var n := s.invitations.next;
    assert rows' == rows[n := inv];
    forall i, j | i in rows' && j in rows' && i != j
      ensures rows'[i].inviteCode != rows'[j].inviteCode
    {
      if i == n { assert rows'[j] == rows[j]; }
      else if j == n { assert rows'[i] == rows[i]; }
    }
    if PendingContactsDistinct(rows) {
      forall i, j | i in rows' && j in rows' && i != j && rows'[i].status == Pending
        ensures !DuplicateIntended(rows'[j], rows'[i].email, rows'[i].phone)
      {
        if i == n { assert rows'[j] == rows[j]; }
        else if j == n { assert rows'[i] == rows[i]; assert !DuplicateIntended(rows[i], inv.email, inv.phone); }
      }
    }
  }

  // ---------------------------------------------------------------------------
  // AcceptAgentInvitation.

  predicate IsPendingCode(inv: AgentInvitation, code: string) {
    inv.inviteCode == code && inv.status == Pending
  }

  /** The store after a successful acceptance: the accepter is linked under the inviter, the invitation is closed. */
  function AcceptedStore(before: Store, invId: nat, accepter: nat, now: nat): Store
    requires before.Valid() && invId in before.invitations.rows && accepter in before.salespersons.rows
    requires before.invitations.rows[invId].inviterId in before.salespersons.rows
  {
    var inv := before.invitations.rows[invId];
    var sp := before.salespersons.rows;
    var inviter := sp[inv.inviterId];
    var linked := sp[accepter := sp[accepter].(parentId := Some(inv.inviterId), level := inviter.level + 1)];
    var counted := linked[inv.inviterId := linked[inv.inviterId].(childrenCount := linked[inv.inviterId].childrenCount + 1)];
    before.(salespersons := before.salespersons.(rows := counted),
            invitations := before.invitations.Put(invId, inv.(status := Accepted, inviteeId := Some(accepter), acceptedAt := Some(now))))
  }

  /**
   * The outcome of accepting the pending invitation `invId`, check by check in
   * the handler's order: expired (the only failure that writes), accepter id
   * unreadable, accepter missing, inviter missing, inviter at the level limit,
   * accepter already linked, a cycle; otherwise the accepted store.
   */
  ghost predicate AcceptOutcome(before: Store, invId: nat, accepterId: Option<int>, now: nat,
                                r: Result<nat, Error>, after: Store)
    requires before.Valid() && invId in before.invitations.rows
  {
    var inv := before.invitations.rows[invId];
    var sp := before.salespersons.rows;
    if now > inv.expiredAt then
      r == Failure(InvitationExpired) && after == before.(invitations := before.invitations.Put(invId, inv.(status := Expired)))
    else if accepterId.None? then r == Failure(InvalidSalespersonId) && after == before
    else if !HasRow(before.salespersons, accepterId.value) then r == Failure(SalespersonNotFound) && after == before
    else if inv.inviterId !in sp then r == Failure(InviterNotFound) && after == before
    else if sp[inv.inviterId].level >= MaxAgentLevel then r == Failure(LevelLimitReached) && after == before
    else if sp[accepterId.value].parentId.Some? then r == Failure(AlreadyHasParent) && after == before
    else if IsCircularReference(sp, inv.inviterId, accepterId.value) then r == Failure(CircularReference) && after == before
    else r == Success(inv.inviterId) && after == AcceptedStore(before, invId, accepterId.value, now)
  }

  /**
   * Accepts the pending invitation with code `inviteCode` for the salesperson
   * `accepterId`.  Keeps the parent relation acyclic, and leaves every other
   * salesperson's level as it was.
   */
  method AcceptAgentInvitation(db: Db, inviteCode: string, accepterId: Option<int>, now: nat)
    returns (r: Result<nat, Error>)
    requires db.store.Valid()
    modifies db
    ensures db.store.Valid()
    ensures inviteCode == "" ==> r == Failure(EmptyInviteCode) && db.store == old(db.store)
    ensures inviteCode != "" && (forall id :: id in old(db.store.invitations.rows) ==> !IsPendingCode(old(db.store.invitations.rows[id]), inviteCode)) ==>
              r == Failure(InvitationNotFound) && db.store == old(db.store)
    ensures forall id :: inviteCode != "" && id in old(db.store.invitations.rows) && IsPendingCode(old(db.store.invitations.rows[id]), inviteCode) ==>
              AcceptOutcome(old(db.store), id, accepterId, now, r, db.store)
    ensures Acyclic(old(db.store.salespersons.rows)) ==> Acyclic(db.store.salespersons.rows)
    ensures db.store.salespersons.rows.Keys == old(db.store.salespersons.rows.Keys)
    ensures r.Success? ==> forall y :: y in old(db.store.salespersons.rows) && (accepterId.None? || y != accepterId.value) ==>
              db.store.salespersons.rows[y].level == old(db.store.salespersons.rows[y].level)
    ensures r.Success? ==> forall id :: id in db.store.invitations.rows ==> !IsPendingCode(db.store.invitations.rows[id], inviteCode)
  {
    if inviteCode == "" {
      return Failure(EmptyInviteCode);
    }
    var found := FindWhere(db.store.invitations.rows, (inv: AgentInvitation) => IsPendingCode(inv, inviteCode));
    if found.None? {
      return Failure(InvitationNotFound);
    }
    var invId := found.value;
    var invitation := db.store.invitations.rows[invId];
    CodeIdentifiesInvitation(db.store, invId, inviteCode);
    if now > invitation.expiredAt {
      ExpireValid(db.store, invId);
      db.store := db.store.(invitations := db.store.invitations.Put(invId, invitation.(status := Expired)));
      return Failure(InvitationExpired);
    }
    r := LinkAccepter(db, invId, accepterId, now);
  }

  /**
   * The checks on the accepter and the inviter, and the transaction that links
   * the accepter under the inviter, for the unexpired pending invitation `invId`.
   */
  method LinkAccepter(db: Db, invId: nat, accepterId: Option<int>, now: nat) returns (r: Result<nat, Error>)
    requires db.store.Valid() && invId in db.store.invitations.rows
    requires now <= db.store.invitations.rows[invId].expiredAt
    modifies db
    ensures db.store.Valid()
    ensures AcceptOutcome(old(db.store), invId, accepterId, now, r, db.store)
    ensures Acyclic(old(db.store.salespersons.rows)) ==> Acyclic(db.store.salespersons.rows)
    ensures db.store.salespersons.rows.Keys == old(db.store.salespersons.rows.Keys)
    ensures r.Success? ==> forall y :: y in old(db.store.salespersons.rows) && (accepterId.None? || y != accepterId.value) ==>
              db.store.salespersons.rows[y].level == old(db.store.salespersons.rows[y].level)
    ensures r.Success? ==> forall id :: id in db.store.invitations.rows ==>
              !IsPendingCode(db.store.invitations.rows[id], old(db.store.invitations.rows[invId].inviteCode))
  {
    var invitation := db.store.invitations.rows[invId];
    if accepterId.None? {
      return Failure(InvalidSalespersonId);
    }
    if !HasRow(db.store.salespersons, accepterId.value) {
      return Failure(SalespersonNotFound);
    }
    var a: nat := accepterId.value;
    var sp := db.store.salespersons.rows;
    var salesperson := sp[a];
    if invitation.inviterId !in sp {
      return Failure(InviterNotFound);
    }
    var inviter := sp[invitation.inviterId];
    if inviter.level >= MaxAgentLevel {
      return Failure(LevelLimitReached);
    }
    if salesperson.parentId.Some? {
      return Failure(AlreadyHasParent);
    }
    if IsCircularReference(sp, invitation.inviterId, a) {
      return Failure(CircularReference);
    }
    // The handler's second depth check, newLevel > MaxAgentLevel, cannot fire here.
    var newLevel := inviter.level + 1;
    assert newLevel <= MaxAgentLevel;

    var after := AcceptedStore(db.store, invId, a, now);
    AcceptKeepsValid(db.store, invId, a, now);
    AcceptKeepsAcyclic(db.store, invId, a, now);
    AcceptClosesCode(db.store, invId, a, now, invitation.inviteCode);
    db.store := after;
    r := Success(invitation.inviterId);
  }

  /** The unique index on invite codes: the pending invitation found is the only row with its code. */
  lemma CodeIdentifiesInvitation(s: Store, invId: nat, code: string)
    requires s.Valid() && invId in s.invitations.rows && s.invitations.rows[invId].inviteCode == code
    ensures forall id :: id in s.invitations.rows && s.invitations.rows[id].inviteCode == code ==> id == invId
  {
  }

  /** Marking an invitation expired keeps its code, so the indexes still hold. */
  lemma ExpireValid(s: Store, invId: nat)
    requires s.Valid() && invId in s.invitations.rows
    ensures s.(invitations := s.invitations.Put(invId, s.invitations.rows[invId].(status := Expired))).Valid()
  {
    var inv := s.invitations.rows;
    var inv' := inv[invId := inv[invId].(status := Expired)];
    assert forall y :: y in inv ==> inv'[y].inviteCode == inv[y].inviteCode;
  }

  /**
   * After an acceptance the salespersons are the same rows, only the accepter's
   * level moved, and no pending invitation carries the code any more.
   */
  lemma AcceptClosesCode(before: Store, invId: nat, accepter: nat, now: nat, code: string)
    requires before.Valid() && invId in before.invitations.rows && accepter in before.salespersons.rows
    requires before.invitations.rows[invId].inviterId in before.salespersons.rows
    requires before.invitations.rows[invId].inviteCode == code
    ensures var after := AcceptedStore(before, invId, accepter, now);
            after.salespersons.rows.Keys == before.salespersons.rows.Keys &&
            (forall y :: y in before.salespersons.rows && y != accepter ==>
               after.salespersons.rows[y].level == before.salespersons.rows[y].level) &&
            (forall id :: id in after.invitations.rows ==> !IsPendingCode(after.invitations.rows[id], code))
  {
    CodeIdentifiesInvitation(before, invId, code);
  }

  lemma AcceptKeepsValid(before: Store, invId: nat, accepter: nat, now: nat)
    requires before.Valid() && invId in before.invitations.rows && accepter in before.salespersons.rows
    requires before.invitations.rows[invId].inviterId in before.salespersons.rows
    ensures AcceptedStore(before, invId, accepter, now).Valid()
  {
    var after := AcceptedStore(before, invId, accepter, now);
    var sp, sp' := before.salespersons.rows, after.salespersons.rows;
    assert forall y :: y in sp' <==> y in sp;
    assert forall y :: y in sp ==> sp'[y].username == sp[y].username && sp'[y].agentCode == sp[y].agentCode;
    var inv, inv' := before.invitations.rows, after.invitations.rows;
    assert forall y :: y in inv' <==> y in inv;
    assert forall y :: y in inv ==> inv'[y].inviteCode == inv[y].inviteCode;
  }

  /** The acceptance checks guarantee the acyclicity premise of the relink. */
  lemma AcceptKeepsAcyclic(before: Store, invId: nat, accepter: nat, now: nat)
    requires before.Valid() && invId in before.invitations.rows && accepter in before.salespersons.rows
    requires before.invitations.rows[invId].inviterId in before.salespersons.rows
    requires !IsCircularReference(before.salespersons.rows, before.invitations.rows[invId].inviterId, accepter)
    ensures Acyclic(before.salespersons.rows) ==> Acyclic(AcceptedStore(before, invId, accepter, now).salespersons.rows)
  {
    var sp := before.salespersons.rows;
    var inviterId := before.invitations.rows[invId].inviterId;
    var sp' := AcceptedStore(before, invId, accepter, now).salespersons.rows;
    if Acyclic(sp) {
      CircularReferenceExact(sp, inviterId, accepter);
      assert inviterId != accepter by {
        assert CircularFuel(sp, accepter, accepter, |sp|);
      }
      assert Relinked(sp, sp', accepter, inviterId);
      RelinkAcyclic(sp, sp', accepter, inviterId);
    }
  }

  // ---------------------------------------------------------------------------
  // ProcessAgentCommission.

  /** The commission row written for one share of sale `saleId`. */
  function CommissionRow(saleId: nat, saleAmount: real, s: Share): (c: AgentCommission)
    ensures c.agentId == s.agentId && c.commissionAmount == s.amount && c.status == Pending
  {
    AgentCommission(saleId, s.salespersonId, s.agentId, s.agentLevel, saleAmount, s.rate, s.amount, Pending, None)
  }

  function CommissionRows(saleId: nat, saleAmount: real, shares: seq<Share>): (rows: seq<AgentCommission>)
    ensures |rows| == |shares|
    ensures forall i :: 0 <= i < |shares| ==> rows[i] == CommissionRow(saleId, saleAmount, shares[i])
  {
    seq(|shares|, i requires 0 <= i < |shares| => CommissionRow(saleId, saleAmount, shares[i]))
  }

  /** A walk whose first shares are `done` and whose remainder is `rest`. */
  function Prepend(done: seq<Share>, rest: Result<seq<Share>, nat>): Result<seq<Share>, nat>
  {
    match rest
    case Failure(missing) => Failure(missing)
    case Success(more) => Success(done + more)
  }

  /** The store after the cascade `shares` of sale `saleId` is committed. */
  function Committed(before: Store, saleId: nat, saleAmount: real, shares: seq<Share>): Store
    requires before.Valid()
  {
    before.(salespersons := before.salespersons.(rows := Credit(before.salespersons.rows, shares)),
            commissions := before.commissions.InsertAll(CommissionRows(saleId, saleAmount, shares)))
  }

  /**
   * Walks up from the seller of `sale` (stored under `saleId`), at most
   * MaxAgentLevel hops, writing one pending commission row per ancestor and
   * adding its share to its commission total; ends at the first share below
   * the cutoff.  A missing ancestor rolls everything back.
   */
  method ProcessAgentCommission(db: Db, saleId: nat, sale: SalespersonSale) returns (r: Result<(), Error>)
    requires db.store.Valid()
    modifies db
    ensures db.store.Valid()
    ensures sale.salespersonId !in old(db.store.salespersons.rows) ==> r == Failure(SalespersonNotFound) && db.store == old(db.store)
    ensures sale.salespersonId in old(db.store.salespersons.rows) ==>
              match CascadeFor(old(db.store.salespersons.rows), sale.salespersonId, sale.saleAmount)
              case Failure(missing) => r == Failure(ParentNotFound(missing)) && db.store == old(db.store)
              case Success(shares) => r == Success(()) && db.store == Committed(old(db.store), saleId, sale.saleAmount, shares)
  {
    var sp0 := db.store.salespersons.rows;
    if sale.salespersonId !in sp0 {
      return Failure(SalespersonNotFound);
    }
    if sp0[sale.salespersonId].parentId.None? {
      assert CascadeFor(sp0, sale.salespersonId, sale.saleAmount) == Success([]);
      assert Committed(db.store, saleId, sale.saleAmount, []) == db.store;
      return Success(());
    }
    var outcome := CascadeTransaction(db.store.salespersons, db.store.commissions, saleId, sale.saleAmount, sale.salespersonId);
    if outcome.Failure? {
      return Failure(ParentNotFound(outcome.error));
    }
    var shares := CascadeFor(sp0, sale.salespersonId, sale.saleAmount).value;
    CommittedValid(db.store, saleId, sale.saleAmount, shares);
    db.store := db.store.(salespersons := outcome.value.0, commissions := outcome.value.1);
    r := Success(());
  }

  /**
   * The transaction of ProcessAgentCommission on working copies of the two
   * tables it writes: the tables after every share is written, or the id of
   * the ancestor that could not be read.
   */
  method CascadeTransaction(persons0: Table<Salesperson>, commissions0: Table<AgentCommission>,
                            saleId: nat, saleAmount: real, sellerId: nat)
    returns (r: Result<(Table<Salesperson>, Table<AgentCommission>), nat>)
    requires persons0.Valid() && commissions0.Valid() && sellerId in persons0.rows
    ensures match CascadeFor(persons0.rows, sellerId, saleAmount)
            case Failure(missing) => r == Failure(missing)
            case Success(shares) =>
              r == Success((persons0.(rows := Credit(persons0.rows, shares)),
                            commissions0.InsertAll(CommissionRows(saleId, saleAmount, shares))))
  {
    var sp0 := persons0.rows;
    ghost var whole := CascadeFor(sp0, sellerId, saleAmount);
    var persons := persons0;
    var commissions := commissions0;
    var currentId := sellerId;
    var currentParentId := sp0[sellerId].parentId;
    var currentLevel := sp0[sellerId].level;
    var processed := 0;
    ghost var done: seq<Share> := [];
    PrependNothing(whole);
    while currentParentId.Some? && processed < MaxAgentLevel
      invariant 0 <= processed <= MaxAgentLevel
      invariant persons == persons0.(rows := Credit(sp0, done))
      invariant commissions == commissions0.InsertAll(CommissionRows(saleId, saleAmount, done))
      invariant whole == Prepend(done, Cascade(sp0, saleAmount, currentId, currentParentId, currentLevel, MaxAgentLevel - processed))
      decreases MaxAgentLevel - processed
    {
      var parentId := currentParentId.value;
      ghost var budget := MaxAgentLevel - processed;
      CreditValid(persons0, done);
      var hop, persons', commissions' := PayAncestor(persons, commissions, saleId, saleAmount, currentId, parentId, currentLevel);
      LoopStep(persons0, commissions0, saleId, saleAmount, done, currentId, currentParentId, currentLevel, budget, whole,
               hop, persons', commissions');
      persons, commissions := persons', commissions';
      match hop {
        case Missing =>
          return Failure(parentId);
        case Below =>
          break;
        case Paid(share, next) =>
          done := done + [share];
          currentId := parentId;
          currentParentId := next;
          currentLevel := share.agentLevel;
          processed := processed + 1;
      }
    }
    WalkDone(sp0, saleAmount, done, currentId, currentParentId, currentLevel, MaxAgentLevel - processed, whole);
    r := Success((persons, commissions));
  }

  /** What one hop of the walk found: no parent row, a share below the cutoff, or a share paid and the next link. */
  datatype Hop = Missing | Below | Paid(share: Share, next: Option<nat>)

  /**
   * One iteration of the walk: reads the parent `parentId`, computes its rate
   * and share, and, when the share reaches the cutoff, writes its commission row
   * and credits it.
   */
  method PayAncestor(persons: Table<Salesperson>, commissions: Table<AgentCommission>, saleId: nat, saleAmount: real,
                     currentId: nat, parentId: nat, currentLevel: int)
    returns (hop: Hop, persons': Table<Salesperson>, commissions': Table<AgentCommission>)
    requires persons.Valid() && commissions.Valid()
    ensures parentId !in persons.rows <==> hop.Missing?
    ensures parentId in persons.rows ==>
              var parent := persons.rows[parentId];
              var rate := AncestorRate(currentLevel, parent);
              var amount := ShareAmount(saleAmount, rate);
              (hop.Below? <==> amount < MinCommission) &&
              (hop.Paid? ==>
                 hop.share == Share(currentId, parentId, parent.level, rate, amount) && hop.next == parent.parentId &&
                 persons' == persons.Put(parentId, parent.(totalCommission := parent.totalCommission + amount)) &&
                 commissions' == commissions.Insert(CommissionRow(saleId, saleAmount, hop.share)).0)
    ensures !hop.Paid? ==> persons' == persons && commissions' == commissions
  {
    if parentId !in persons.rows {
      return Missing, persons, commissions;
    }
    var parent := persons.rows[parentId];
    var rate := AncestorRate(currentLevel, parent);
    var amount := ShareAmount(saleAmount, rate);
    if amount < MinCommission {
      return Below, persons, commissions;
    }
    var share := Share(currentId, parentId, parent.level, rate, amount);
    var (table, _) := commissions.Insert(CommissionRow(saleId, saleAmount, share));
    commissions' := table;
    persons' := persons.Put(parentId, parent.(totalCommission := parent.totalCommission + amount));
    hop := Paid(share, parent.parentId);
  }

  /** What PayAncestor returns, on the working copies the loop keeps, is one more step of the walk. */
  lemma LoopStep(persons0: Table<Salesperson>, commissions0: Table<AgentCommission>, saleId: nat, saleAmount: real,
                 done: seq<Share>, currentId: nat, currentParentId: Option<nat>, currentLevel: int, budget: nat,
                 whole: Result<seq<Share>, nat>,
                 hop: Hop, persons': Table<Salesperson>, commissions': Table<AgentCommission>)
    requires persons0.Valid() && commissions0.Valid() && currentParentId.Some? && budget > 0
    requires persons0.(rows := Credit(persons0.rows, done)).Valid()
    requires whole == Prepend(done, Cascade(persons0.rows, saleAmount, currentId, currentParentId, currentLevel, budget))
    requires var persons := persons0.(rows := Credit(persons0.rows, done));
             var commissions := commissions0.InsertAll(CommissionRows(saleId, saleAmount, done));
             var parentId := currentParentId.value;
             (parentId !in persons.rows <==> hop.Missing?) &&
             (parentId in persons.rows ==>
                var parent := persons.rows[parentId];
                var rate := AncestorRate(currentLevel, parent);
                var amount := ShareAmount(saleAmount, rate);
                (hop.Below? <==> amount < MinCommission) &&
                (hop.Paid? ==>
                   hop.share == Share(currentId, parentId, parent.level, rate, amount) && hop.next == parent.parentId &&
                   persons' == persons.Put(parentId, parent.(totalCommission := parent.totalCommission + amount)) &&
                   commissions' == commissions.Insert(CommissionRow(saleId, saleAmount, hop.share)).0)) &&
             (!hop.Paid? ==> persons' == persons && commissions' == commissions)
    ensures hop.Missing? ==> whole == Failure(currentParentId.value)
    ensures hop.Below? ==>
              whole == Success(done) &&
              persons' == persons0.(rows := Credit(persons0.rows, done)) &&
              commissions' == commissions0.InsertAll(CommissionRows(saleId, saleAmount, done))
    ensures hop.Paid? ==>
              persons' == persons0.(rows := Credit(persons0.rows, done + [hop.share])) &&
              commissions' == commissions0.InsertAll(CommissionRows(saleId, saleAmount, done + [hop.share])) &&
              whole == Prepend(done + [hop.share],
                               Cascade(persons0.rows, saleAmount, currentParentId.value, hop.next, hop.share.agentLevel, budget - 1))
  {
    var sp0 := persons0.rows;
    var parentId := currentParentId.value;
    CreditAt(sp0, done, parentId);
    WalkStep(sp0, saleAmount, done, currentId, currentParentId, currentLevel, budget, whole);
    if hop.Paid? {
      var parent0 := sp0[parentId];
      assert hop.share == Share(currentId, parentId, parent0.level, AncestorRate(currentLevel, parent0),
                                ShareAmount(saleAmount, AncestorRate(currentLevel, parent0)));
      PaidStep(persons0, commissions0, saleId, saleAmount, done, hop.share, persons', commissions');
    }
  }

  /** The writes of a paid hop are the working copies after one more share. */
  lemma PaidStep(persons0: Table<Salesperson>, commissions0: Table<AgentCommission>, saleId: nat, saleAmount: real,
                 done: seq<Share>, share: Share, persons': Table<Salesperson>, commissions': Table<AgentCommission>)
    requires persons0.Valid() && commissions0.Valid() && share.agentId in persons0.rows
    requires persons0.(rows := Credit(persons0.rows, done)).Valid()
    requires var persons := persons0.(rows := Credit(persons0.rows, done));
             share.agentId in persons.rows &&
             var parent := persons.rows[share.agentId];
             persons' == persons.Put(share.agentId, parent.(totalCommission := parent.totalCommission + share.amount)) &&
             commissions' == commissions0.InsertAll(CommissionRows(saleId, saleAmount, done))
                               .Insert(CommissionRow(saleId, saleAmount, share)).0
    ensures persons' == persons0.(rows := Credit(persons0.rows, done + [share]))
    ensures commissions' == commissions0.InsertAll(CommissionRows(saleId, saleAmount, done + [share]))
  {
    CreditStep(persons0, done, share);
    CommissionStep(commissions0, saleId, saleAmount, done, share);
  }

  lemma PrependNothing(rest: Result<seq<Share>, nat>)
    ensures Prepend([], rest) == rest
  {
    if rest.Success? {
      assert [] + rest.value == rest.value;
    }
  }

  /**
   * One hop of the walk, as the loop sees it: a missing parent fails the walk,
   * a share below the cutoff ends it, any other share is the next one done.
   */
  lemma WalkStep(sp: Persons, saleAmount: real, done: seq<Share>, current: nat, parentId: Option<nat>, level: int,
                 budget: nat, whole: Result<seq<Share>, nat>)
    requires parentId.Some? && budget > 0
    requires whole == Prepend(done, Cascade(sp, saleAmount, current, parentId, level, budget))
    ensures parentId.value !in sp ==> whole == Failure(parentId.value)
    ensures parentId.value in sp ==>
              var parent := sp[parentId.value];
              var rate := AncestorRate(level, parent);
              var amount := ShareAmount(saleAmount, rate);
              (amount < MinCommission ==> whole == Success(done)) &&
              (amount >= MinCommission ==>
                 whole == Prepend(done + [Share(current, parentId.value, parent.level, rate, amount)],
                                  Cascade(sp, saleAmount, parentId.value, parent.parentId, parent.level, budget - 1)))
  {
    if parentId.value in sp {
      var parent := sp[parentId.value];
      var rate := AncestorRate(level, parent);
      var amount := ShareAmount(saleAmount, rate);
      if amount < MinCommission {
        assert done + [] == done;
      } else {
        var s := Share(current, parentId.value, parent.level, rate, amount);
        CascadeStep(sp, saleAmount, current, parentId, level, budget);
        PrependStep(done, s, Cascade(sp, saleAmount, parentId.value, parent.parentId, parent.level, budget - 1));
      }
    }
  }

  /** The walk has ended when no parent is left or the hop budget is spent. */
  lemma WalkDone(sp: Persons, saleAmount: real, done: seq<Share>, current: nat, parentId: Option<nat>, level: int,
                 budget: nat, whole: Result<seq<Share>, nat>)
    requires parentId.None? || budget == 0 || whole == Success(done)
    requires whole == Prepend(done, Cascade(sp, saleAmount, current, parentId, level, budget))
    ensures whole == Success(done)
  {
    assert done + [] == done;
  }

  /** Crediting changes one row only in its commission total. */
  lemma CreditAt(sp: Persons, done: seq<Share>, id: nat)
    ensures id in Credit(sp, done) <==> id in sp
    ensures id in sp ==> var c := Credit(sp, done)[id];
              c.parentId == sp[id].parentId && c.level == sp[id].level &&
              forall level :: AncestorRate(level, c) == AncestorRate(level, sp[id])
  {
    CreditTotals(sp, done);
  }

  lemma PrependStep(done: seq<Share>, s: Share, rest: Result<seq<Share>, nat>)
    ensures Prepend(done, match rest case Failure(m) => Failure(m) case Success(more) => Success([s] + more))
              == Prepend(done + [s], rest)
  {
    if rest.Success? {
      assert done + ([s] + rest.value) == done + [s] + rest.value;
    }
  }

  /** Committing shares keeps the store valid, and changes only the commission totals. */
  lemma CommittedValid(before: Store, saleId: nat, saleAmount: real, shares: seq<Share>)
    requires before.Valid()
    ensures Committed(before, saleId, saleAmount, shares).Valid()
    ensures var sp := before.salespersons.rows;
            var sp' := Committed(before, saleId, saleAmount, shares).salespersons.rows;
            sp'.Keys == sp.Keys &&
            forall a :: a in sp ==> sp'[a] == sp[a].(totalCommission := sp[a].totalCommission + AmountFor(shares, a))
  {
    CreditTotals(before.salespersons.rows, shares);
  }

  lemma CreditValid(persons: Table<Salesperson>, done: seq<Share>)
    requires persons.Valid()
    ensures persons.(rows := Credit(persons.rows, done)).Valid()
  {
    CreditKeys(persons.rows, done);
  }

  /** Crediting one more share is one more write to the agent's row. */
  lemma CreditStep(persons: Table<Salesperson>, done: seq<Share>, s: Share)
    requires persons.Valid() && s.agentId in persons.rows
    ensures s.agentId in Credit(persons.rows, done)
    ensures var credited := persons.(rows := Credit(persons.rows, done));
            var agent := credited.rows[s.agentId];
            credited.Valid() &&
            credited.Put(s.agentId, agent.(totalCommission := agent.totalCommission + s.amount))
              == persons.(rows := Credit(persons.rows, done + [s]))
  {
    CreditKeys(persons.rows, done);
    assert (done + [s])[..|done|] == done;
  }

  /** Writing one more commission row is inserting one more share's row. */
  lemma CommissionStep(commissions: Table<AgentCommission>, saleId: nat, saleAmount: real, done: seq<Share>, s: Share)
    requires commissions.Valid()
    ensures commissions.InsertAll(CommissionRows(saleId, saleAmount, done)).Insert(CommissionRow(saleId, saleAmount, s)).0
              == commissions.InsertAll(CommissionRows(saleId, saleAmount, done + [s]))
  {
    var rows := CommissionRows(saleId, saleAmount, done + [s]);
    assert rows[..|done|] == CommissionRows(saleId, saleAmount, done);
    assert rows[|done|] == CommissionRow(saleId, saleAmount, s);
  }

  // ---------------------------------------------------------------------------
  // GetAgentCommissions.

  /** The sum of the commission amounts of the rows `ids`, added in order. */
  function SumAmounts(rows: map<nat, AgentCommission>, ids: seq<nat>): real
    requires forall i :: 0 <= i < |ids| ==> ids[i] in rows
    decreases |ids|
  {
    if ids == [] then 0.0
    else SumAmounts(rows, ids[..|ids| - 1]) + rows[ids[|ids| - 1]].commissionAmount
  }

  /**
   * Lists the commission rows of agent `id` and adds up their amounts.  The
   * list comes in no particular order; the total does not depend on it.
   */
  method GetAgentCommissions(db: Db, id: Option<int>) returns (r: Result<(real, seq<nat>), Error>)
    ensures id.None? ==> r == Failure(InvalidSalespersonId)
    ensures id.Some? && !HasRow(db.store.salespersons, id.value) ==> r == Failure(SalespersonNotFound)
    ensures id.Some? && HasRow(db.store.salespersons, id.value) ==> r.Success?
    ensures r.Success? ==>
              var (total, ids) := r.value;
              (forall k :: k in ids <==> k in db.store.commissions.rows && db.store.commissions.rows[k].agentId == id.value) &&
              (forall i, j :: 0 <= i < j < |ids| ==> ids[i] != ids[j]) &&
              total == SumAmounts(db.store.commissions.rows, ids)
  {
    if id.None? {
      return Failure(InvalidSalespersonId);
    }
    if !HasRow(db.store.salespersons, id.value) {
      return Failure(SalespersonNotFound);
    }
    var agent := id.value;
    var rows := db.store.commissions.rows;
    var ids := FindAll(rows, (c: AgentCommission) => c.agentId == agent);
    var total := 0.0;
    var i := 0;
    while i < |ids|
      invariant 0 <= i <= |ids|
      invariant total == SumAmounts(rows, ids[..i])
    {
      assert ids[..i + 1][..i] == ids[..i];
      total := total + rows[ids[i]].commissionAmount;
      i := i + 1;
    }
    assert ids[..|ids|] == ids;
    r := Success((total, ids));
  }

  /** Taking one row out of the list takes its amount out of the sum. */
  lemma {:induction false} SumWithout(rows: map<nat, AgentCommission>, ids: seq<nat>, k: nat)
    requires forall i :: 0 <= i < |ids| ==> ids[i] in rows
    requires k < |ids|
    ensures forall i :: 0 <= i < |RemoveAt(ids, k)| ==> RemoveAt(ids, k)[i] in rows
    ensures SumAmounts(rows, ids) == SumAmounts(rows, RemoveAt(ids, k)) + rows[ids[k]].commissionAmount
    decreases |ids|
  {
    var rest := RemoveAt(ids, k);
    if k < |ids| - 1 {
      var init := ids[..|ids| - 1];
      SumWithout(rows, init, k);
      assert RemoveAt(init, k) == rest[..|rest| - 1];
    } else {
      assert rest == ids[..|ids| - 1];
    }
  }

  lemma NoMembersEmpty(b: seq<nat>)
    requires forall x :: x !in b
    ensures b == []
  {
    forall x ensures multiset(b)[x] == 0 {
      assert x !in b;
    }
    assert multiset(b) == multiset{};
  }

  /** Any two listings of the same rows, each without repeats, give the same total. */
  lemma {:induction false} SumOrderIrrelevant(rows: map<nat, AgentCommission>, a: seq<nat>, b: seq<nat>)
    requires forall i :: 0 <= i < |a| ==> a[i] in rows
    requires forall i :: 0 <= i < |b| ==> b[i] in rows
    requires forall i, j :: 0 <= i < j < |a| ==> a[i] != a[j]
    requires forall i, j :: 0 <= i < j < |b| ==> b[i] != b[j]
    requires forall k :: k in a <==> k in b
    ensures SumAmounts(rows, a) == SumAmounts(rows, b)
    decreases |a|
  {
    if a == [] {
      NoMembersEmpty(b);
    } else {
      var last := a[|a| - 1];
      assert last in a;
      var k :| 0 <= k < |b| && b[k] == last;
      var a' := a[..|a| - 1];
      SumWithout(rows, b, k);
      var b' := RemoveAt(b, k);
      assert forall x :: x in b' <==> x in b && x != b[k];
      assert forall i, j :: 0 <= i < j < |b'| ==> b'[i] != b'[j];
      SumOrderIrrelevant(rows, a', b');
    }
  }
}
