# License keys, resellers and their commissions

A Dafny model of the core of `go_creation`, a license-key service. The core
covers four things:

- **Catalog.** Software titles and key types, bound to each other through
  binding rows.
- **Batches of keys.** An administrator or a salesperson mints batches of
  license keys of a key type for a software title. A minted key moves from
  `unused` to `used` on activation, and to `void` when voided.
- **The reseller hierarchy.** Salespersons hold product assignments with a
  commission rate and a key quota. They invite each other into a hierarchy
  of agents at most five levels deep. ProcessAgentCommission passes a sale's
  commission up that hierarchy. It is a standalone operation: no handler
  calls it, and the sale-booking handlers do not either.
- **Utilities.** The code generators, the login rate limiter and the paging
  of the list handlers.

The database is a value, `Database.Store`. It holds one `Tables.Table` (rows
keyed by an auto-increment id) per table. `Store.Valid()` states the
invariants: the unique indexes of the schema, plus the uniqueness the
handlers themselves keep.

Each HTTP handler is a method on the shared connection `Database.Db`. Its
contract names the outcome of every check, in the handler's order. A failure
leaves the store as it was, which is what the source's rollback provides. A
success commits exactly the writes of the transaction; its new store is
given by a specification function, and lemmas state what that function
preserves.

Go model methods that assign through a pointer receiver are classes wrapping
the value (`Keys.KeyRef`, `Catalog.SoftwareRef`, ...). Pure reads are member
predicates of the datatypes.

Inputs from the outside world are parameters:

- **The clock.** An instant is a nanosecond count, `now: nat`.
- **Randomness.** Random bytes and `rand.Intn` draws are sequences.
- **bcrypt.** The password check is a boolean parameter, and the new hash in
  an update is a string parameter.
- **The email pattern.** It is a predicate parameter.
- **The authenticated caller.** Its id is a parameter.

An id parsed with `strconv.Atoi` arrives as `Option<int>`; `None` stands for
a parse failure.

Money and rates are `real`. `math.Pow(2, e)` is an exact power of two for an
exponent of either sign, and `math.Ceil` of the page count is integer
ceiling division.

## Model

| member | source | states |
|---|---|---|
| `Tables.Table.Insert` | handlers/software_handler.go:73-78 | an insert stores the row under the next fresh id, and every other row stays |
| `Tables.Table.InsertAll` | handlers/key_handler.go:170-175 | a batch insert gives `vs[i]` the id `next + i`, keeps every older row, and adds nothing else |
| `Tables.Table.Put` | handlers/keytype.go:295-299 | a save on an existing id replaces only that row |
| `Tables.Table.Delete` | handlers/software_handler.go:451 | a delete removes exactly the given ids; ids are not handed out again |
| `Tables.FindWhere` | handlers/salesperson_handler.go:550-554 | `First` with a condition: a matching row, or None only when no row matches |
| `Tables.IdsWhere` | handlers/software_handler.go:451 | the ids of exactly the rows satisfying the condition |
| `Tables.FindAll` | handlers/software_handler.go:494-518 | `Find` with a condition: every matching id, each exactly once |
| `Database.InsertKeysValid` | models/key.go:13-14 | keys that the unique indexes on code and key_code accept keep every store invariant |
| `Slices.FirstIndexOf` | models/keytype.go:78-85 | the first index holding the id, or the length when the id is absent (both directions) |
| `Slices.RemoveAt` | models/keytype.go:80-82 | `append(s[:i], s[i+1:]...)`: element i removed, the order of the rest kept; out of range, nothing changes |
| `Slices.RemoveAtMultiset` | models/keytype.go:80-82 | removing an element takes exactly that one element out of the multiset |
| `Keys.Key.IsValid` | models/key.go:84-96 | valid only when used, and a used key is valid exactly when it has no expiry or `now` is not past it |
| `Keys.KeyRef.BeforeCreate` | models/key.go:50-58 | an empty status becomes `unused`, any other status is kept, nothing else changes, no error |
| `Keys.KeyRef.Activate` | models/key.go:62-68 | status `used`; activated and used at `now`; the expiry is untouched, so validity then depends on it alone |
| `Keys.KeyRef.Disable` | models/key.go:74-78 | status `void` from any state; afterwards the key is never valid |
| `Catalog.KeyType.SoftwareIds` | models/keytype.go:93-100 | the ids of the associated software, in order |
| `Catalog.KeyType.HasSoftware` | models/keytype.go:93-100 | true exactly when some associated software has the id |
| `Catalog.KeyType.IsEnabled` | models/keytype.go:64-66 | enabled exactly when the status is active and the flag is set |
| `Catalog.Software.KeyTypeIds` | models/software.go:111-118 | the ids of the associated key types, in order |
| `Catalog.Software.HasKeyType` | models/software.go:111-118 | true exactly when some associated key type has the id |
| `Catalog.Software.IsEnabled` | models/software.go:82-84 | enabled exactly when the status is active and the flag is set |
| `Catalog.SoftwareKeyType.IsEnabled` | models/software_keytype.go:71-73 | a binding is enabled exactly when its flag is set |
| `Catalog.DefaultStatus` | models/keytype.go:36-38 | an empty status becomes the default, any other status stays |
| `Catalog.KeyTypeRef.BeforeCreate` | models/keytype.go:34-45 | status defaults to `active` when empty, is_active is set, no error |
| `Catalog.KeyTypeRef.Enable` | models/keytype.go:49-52 | status `active` and is_active; afterwards IsEnabled holds |
| `Catalog.KeyTypeRef.Disable` | models/keytype.go:56-59 | status `inactive` and not is_active; afterwards IsEnabled fails |
| `Catalog.KeyTypeRef.AddSoftware` | models/keytype.go:71-73 | appends at the end, the length grows by one, and the id is then present |
| `Catalog.KeyTypeRef.RemoveSoftware` | models/keytype.go:78-85 | removes the first element with the id only, keeping the order of the rest; an absent id changes nothing |
| `Catalog.SoftwareRef.BeforeCreate` | models/software.go:52-63 | status defaults to `active` when empty, is_active is set, no error |
| `Catalog.SoftwareRef.Enable` | models/software.go:67-70 | status `active` and is_active; afterwards IsEnabled holds |
| `Catalog.SoftwareRef.Disable` | models/software.go:74-77 | status `inactive` and not is_active; afterwards IsEnabled fails |
| `Catalog.SoftwareRef.AddKeyType` | models/software.go:89-91 | appends at the end, the length grows by one, and HasKeyType of the id then holds |
| `Catalog.SoftwareRef.RemoveKeyType` | models/software.go:96-103 | removes the first element with the id only; an absent id changes nothing |
| `Catalog.BindingRef.BeforeCreate` | models/software_keytype.go:46-54 | is_active is set, so the binding is enabled, and no error |
| `Catalog.BindingRef.Enable` | models/software_keytype.go:58-60 | is_active set; IsEnabled holds |
| `Catalog.BindingRef.Disable` | models/software_keytype.go:64-66 | is_active cleared; IsEnabled fails |
| `Catalog.RemoveFirstOccurrence` | models/software.go:96-103 | removing the first match takes exactly one occurrence of the id out of the list |
| `CodeGenerator.GenerateRandomCode` | utils/code_generator.go:18-39 | exactly `length` characters; character i is `charset[byte_i mod 36]`, so every character is in `A-Z0-9` |
| `CodeGenerator.GenerateInviteCode` | utils/code_generator.go:42-44 | eight charset characters drawn from the eight bytes |
| `CodeGenerator.GenerateAgentCode` | utils/code_generator.go:47-49 | six charset characters drawn from the six bytes |
| `CodeGenerator.Base36` | utils/code_generator.go:57 | base-36 digits of a non-negative number: at least one digit, no sign |
| `CodeGenerator.FormatInt36` | utils/code_generator.go:57 | `strconv.FormatInt(x, 36)`: at least one character, with a leading minus sign exactly for a negative number |
| `CodeGenerator.Base36RoundTrip` | utils/code_generator.go:57 | parsing the base-36 digits gives the number back |
| `CodeGenerator.Base36Injective` | utils/code_generator.go:57 | distinct non-negative counters render as distinct digit strings |
| `CodeGenerator.FormatInt36Injective` | utils/code_generator.go:57 | `strconv.FormatInt(x, 36)` is injective on all integers |
| `CodeGenerator.Counter.constructor` | utils/code_generator.go:15 | the shared counter starts at zero |
| `CodeGenerator.Counter.Next` | utils/code_generator.go:54 | `atomic.AddInt64` increments by exactly one and returns the new value |
| `CodeGenerator.CompositeCodeInjective` | utils/code_generator.go:52-67 | two composite codes with one prefix, equally long timestamps and random parts, are equal only for the same timestamp and counter |
| `CodeGenerator.GenerateSalespersonKeyCode` | utils/code_generator.go:52-58 | `KEY` + base-36 timestamp + base-36 counter + 4 charset characters, with the counter advanced by one |
| `CodeGenerator.GenerateSalespersonCode` | utils/code_generator.go:61-67 | the same shape with the prefix `CODE`, on the same counter |
| `KeyCodes.BlockChars` | handlers/key_handler.go:1053 | a 5-byte block yields the requested number of RFC 4648 base32 characters |
| `KeyCodes.Base32Length` | handlers/key_handler.go:1053 | unpadded base32 (section 6 of RFC 4648) of n bytes has ceil(8n/5) characters |
| `KeyCodes.Base32Alphabetic` | handlers/key_handler.go:1053 | every character of the encoding is in the base32 alphabet |
| `KeyCodes.WithoutMembers` | handlers/key_handler.go:1054-1058 | `ReplaceAll(s, c, "")` keeps exactly the characters other than c |
| `KeyCodes.UnconfusedMembers` | handlers/key_handler.go:1054-1058 | the five deletions leave exactly the characters other than `1 0 O I L` |
| `KeyCodes.WithoutAbsent` | handlers/key_handler.go:1054-1058 | deleting an absent character leaves the string unchanged |
| `KeyCodes.UnconfusedIdentity` | handlers/key_handler.go:1054-1058 | a string with no confusable character comes through the deletions unchanged |
| `KeyCodes.PadCharsetClean` | handlers/key_handler.go:1062 | the padding charset holds no confusable character |
| `KeyCodes.Padded` | handlers/key_handler.go:1060-1067 | padding reaches the target length and keeps the string as its prefix; a long enough string is not padded |
| `KeyCodes.PadTo` | handlers/key_handler.go:1060-1067 | the `for len(str) < n` loop: padded to the target, original prefix kept, every added character from the padding charset |
| `KeyCodes.BuildCode` | handlers/key_handler.go:1053-1070 | encode, delete, pad, cut: exactly the target length, no confusable character, each from base32 or the padding charset; the prefix of the filtered encoding when it is long enough |
| `KeyCodes.Grouped` | handlers/key_handler.go:1071-1072 | `%s-%s-%s-%s` gives 19 characters, dashes at positions 4, 9 and 14, the 16 characters in order elsewhere |
| `KeyCodes.GenerateUniqueCode` | handlers/key_handler.go:1036-1073 | 19 characters in four dash-separated groups of four clean characters; the counter advances by one |
| `KeyCodes.GenerateUniqueKeyCode` | handlers/key_handler.go:1076-1111 | exactly 8 clean characters from base32 or the padding charset; the counter advances by one |
| `KeyCodes.EncodedLengths` | handlers/key_handler.go:1042-1053 | 16 bytes encode to 26 characters and 6 bytes to 10 |
| `Ledger.BookRows` | handlers/salesperson_handler.go:817-866 | the three writes of the transaction are the booked tables |
| `Ledger.SaleAmount` | handlers/key_handler.go:194 | count × price: never negative for a non-negative count and price, zero for no keys, the price for one key |
| `Ledger.OverLimit` | handlers/key_handler.go:128-129 | a limit of 0 never blocks; a positive limit blocks exactly when keys_generated + count exceeds it |
| `Ledger.BookSale` | handlers/key_handler.go:178-232 | the bookkeeping keeps the ids of the assignments and salespersons, adds exactly one sale id, and leaves every other table as it was |
| `Ledger.BookSaleValid` | handlers/key_handler.go:178-232 | the bookkeeping keeps every store invariant |
| `Ledger.BookSaleEffect` | handlers/key_handler.go:178-232 | keys_generated grows by the count; the sale is the one new sale row; the seller's totals grow by its amount and commission; nothing else changes |
| `Ledger.ProductUnique` | handlers/salesperson_handler.go:550-552 | at most one assignment per (salesperson, software, key type), so the row found is the only one |
| `Ledger.BookSaleKeepsQuota` | handlers/salesperson_handler.go:768-775 | a positive limit the count did not exceed still bounds keys_generated after the batch |
| `LoginLimiting.WholeMinutes` | utils/login_limiter.go:92 | `int(d.Minutes())`: minutes truncated toward zero for either sign |
| `LoginLimiting.AfterFailure` | utils/login_limiter.go:71-96 | a failure changes only the entry of its own username |
| `LoginLimiting.FailuresLock` | utils/login_limiter.go:77-95 | a run of failures on a fresh username counts them all, and locks from the maxAttempts-th failure on, until the last one plus the lock duration |
| `LoginLimiting.LoginLimiter.constructor` | utils/login_limiter.go:30-42 | a new limiter has no entries and the given limits |
| `LoginLimiting.LoginLimiter.Default` | utils/login_limiter.go:148 | the default limiter allows 5 attempts and locks for 15 minutes |
| `LoginLimiting.LoginLimiter.RecordFailedLogin` | utils/login_limiter.go:71-96 | creates a missing entry, increments Count by one, sets LastTry; at the threshold it locks and reports the lock minutes, otherwise (false, 0) with LockUntil unchanged; other entries untouched |
| `LoginLimiting.LoginLimiter.IsLocked` | utils/login_limiter.go:100-118 | locked exactly when an entry exists and now is before LockUntil; then the whole minutes left plus one, otherwise 0 |
| `LoginLimiting.LoginLimiter.ResetAttempts` | utils/login_limiter.go:121-126 | removes the entry of the username and no other |
| `LoginLimiting.LoginLimiter.GetRemainingAttempts` | utils/login_limiter.go:129-144 | max(0, maxAttempts - Count), or maxAttempts for an unknown username |
| `LoginLimiting.LoginLimiter.Cleanup` | utils/login_limiter.go:55-66 | deletes exactly the entries whose lock is over and whose last try is more than 24 hours old; keeps the rest unchanged |
| `Hierarchy.UpSplit` | handlers/salesperson_agent_handler.go:344-375 | i parent hops then j hops is i + j hops |
| `Hierarchy.LastHop` | handlers/salesperson_agent_handler.go:361-371 | the last hop of a chain leaves a row whose parent is the end |
| `Hierarchy.IsCircularReference` | handlers/salesperson_agent_handler.go:344-375 | a salesperson is always circular with itself; otherwise the search answers true only when the child has children |
| `Hierarchy.CircularSound` | handlers/salesperson_agent_handler.go:344-375 | the descendant search finds only true descendants, within its budget |
| `Hierarchy.CircularComplete` | handlers/salesperson_agent_handler.go:344-375 | a descendant k hops down is found with any budget of at least k |
| `Hierarchy.ChainBound` | handlers/salesperson_agent_handler.go:344-375 | without cycles, a chain of parent links is no longer than the table |
| `Hierarchy.CircularReferenceExact` | handlers/salesperson_agent_handler.go:344-375 | on an acyclic hierarchy, `isCircularReference(p, c)` holds exactly when p is c or a descendant of c |
| `Hierarchy.RelinkFrame` | handlers/salesperson_agent_handler.go:296 | a chain that avoids the relinked node is the same before and after |
| `Hierarchy.RelinkFromParent` | handlers/salesperson_agent_handler.go:296 | the new parent's chain is untouched when it does not reach the node |
| `Hierarchy.RelinkAcyclic` | handlers/salesperson_agent_handler.go:261-272 | giving a node a parent that is neither the node nor one of its descendants keeps the hierarchy acyclic |
| `Commission.Power2` | handlers/salesperson_agent_handler.go:552 | `math.Pow(2, e)` for an integer exponent is positive, and a negative exponent gives the reciprocal |
| `Commission.AncestorRate` | handlers/salesperson_agent_handler.go:546-554 | the direct parent gets its ParentCommissionRate; an ancestor two or more levels up gets at most half of it, never a negative rate |
| `Commission.AncestorRateScale` | handlers/salesperson_agent_handler.go:546-554 | an ancestor further up gets its rate divided by 2^(levelDiff); a stale level with a negative difference multiplies the rate |
| `Commission.Cascade` | handlers/salesperson_agent_handler.go:533-591 | the walk up the parent links pays at most one share per hop of its budget; a failure names a parent id that has no row |
| `Commission.CascadeFor` | handlers/salesperson_agent_handler.go:496-537 | a sale's cascade pays at most MaxAgentLevel = 5 ancestors, nothing for a seller without a parent (lines 502-504), and a failure names a missing ancestor |
| `Commission.CascadeStep` | handlers/salesperson_agent_handler.go:533-590 | a present parent whose share reaches the cutoff is paid, and the walk continues from it with one hop less |
| `Commission.CascadeRow` | handlers/salesperson_agent_handler.go:546-574 | every share goes to an existing row, comes from the previous payee (the seller first), uses the rate for its level and reaches 0.01 |
| `Commission.CascadeStops` | handlers/salesperson_agent_handler.go:533-562 | a walk that ends early ends at a missing parent link or at a share below 0.01 |
| `Commission.CascadeFollowsParents` | handlers/salesperson_agent_handler.go:587-589 | share i goes to the seller's ancestor i + 1 hops up |
| `Commission.CreditKeys` | handlers/salesperson_agent_handler.go:581-582 | crediting the shares adds or removes no salesperson |
| `Commission.CreditTotals` | handlers/salesperson_agent_handler.go:581-582 | every total_commission grows by exactly the sum of its shares; nothing else changes |
| `Commission.CascadeAgentsDistinct` | handlers/salesperson_agent_handler.go:533-591 | on an acyclic hierarchy, no ancestor receives two shares of one sale |
| `AgentHandler.GenerateAgentCode` | handlers/salesperson_agent_handler.go:23-67 | an existing code is returned unchanged and never overwritten; an empty one gets a fresh six-character code; unknown ids fail with nothing changed |
| `AgentHandler.SetAgentCodeValid` | handlers/salesperson_agent_handler.go:46-57 | a code nobody holds keeps the unique index on agent_code |
| `AgentHandler.DuplicateAsWrittenOverblocks` | handlers/salesperson_agent_handler.go:130-145 | the chained `Where`/`Or` refuses a phone-only request because of any pending invitation, and because of an accepted invitation with the phone |
| `AgentHandler.DuplicateAgreement` | handlers/salesperson_agent_handler.go:130-145 | the intended test refuses no more than the written one, and they agree when the request has an email and no phone |
| `AgentHandler.NewInvitation` | handlers/salesperson_agent_handler.go:154-161 | a new invitation is pending, has no invitee and expires seven days after now |
| `AgentHandler.CreateAgentInvitation` | handlers/salesperson_agent_handler.go:70-176 | the checks in order (id, a contact, email pattern, phone of 5-15 digits, inviter found, no duplicate) and then the pending row inserted; no two pending invitations share a contact |
| `AgentHandler.InsertInvitationValid` | handlers/salesperson_agent_handler.go:154-170 | a fresh code and no duplicate keep the store valid and the pending contacts distinct |
| `AgentHandler.AcceptAgentInvitation` | handlers/salesperson_agent_handler.go:179-340 | the checks in the handler's order (empty code, no pending invitation, expired, ...); acyclicity is kept, no salesperson is added, and no other salesperson's level changes |
| `AgentHandler.LinkAccepter` | handlers/salesperson_agent_handler.go:219-331 | after expiry: accepter id, accepter, inviter, level < 5, no parent yet, no cycle; then the accepter is linked one level below the inviter, children_count + 1, the invitation accepted |
| `AgentHandler.CodeIdentifiesInvitation` | handlers/salesperson_agent_handler.go:199 | the unique invite code identifies the invitation |
| `AgentHandler.ExpireValid` | handlers/salesperson_agent_handler.go:211-213 | marking an invitation expired keeps the store valid |
| `AgentHandler.AcceptClosesCode` | handlers/salesperson_agent_handler.go:296-317 | after acceptance, the same salespersons exist, only the accepter's level moved, and no pending invitation has the code |
| `AgentHandler.AcceptKeepsValid` | handlers/salesperson_agent_handler.go:296-317 | the acceptance writes keep every store invariant |
| `AgentHandler.AcceptKeepsAcyclic` | handlers/salesperson_agent_handler.go:261-272 | once the circular check has passed, linking keeps the hierarchy acyclic |
| `AgentHandler.CommissionRow` | handlers/salesperson_agent_handler.go:565-574 | the row of a share names its agent and amount, with status pending |
| `AgentHandler.CommissionRows` | handlers/salesperson_agent_handler.go:565-578 | one row per share, in the order of the walk |
| `AgentHandler.ProcessAgentCommission` | handlers/salesperson_agent_handler.go:494-602 | an unknown seller or a missing ancestor fails with nothing written; otherwise the cascade's rows are inserted and credited |
| `AgentHandler.CascadeTransaction` | handlers/salesperson_agent_handler.go:506-591 | the loop's working tables end as the whole cascade written, or it fails naming the missing ancestor |
| `AgentHandler.PayAncestor` | handlers/salesperson_agent_handler.go:535-590 | one iteration: a missing parent, a share below the cutoff with nothing written, or the share's row written and the total credited |
| `AgentHandler.LoopStep` | handlers/salesperson_agent_handler.go:533-591 | what one iteration did is one more step of the specified walk |
| `AgentHandler.PaidStep` | handlers/salesperson_agent_handler.go:576-584 | the writes of a paid hop are the working tables after one more share |
| `AgentHandler.WalkStep` | handlers/salesperson_agent_handler.go:536-562 | one hop: a missing parent fails the walk, a small share ends it, any other share is the next one |
| `AgentHandler.WalkDone` | handlers/salesperson_agent_handler.go:533 | the walk is over when no parent is left or five hops are spent |
| `AgentHandler.CommittedValid` | handlers/salesperson_agent_handler.go:576-584 | committing the shares keeps the store valid and changes only commission totals and commission rows |
| `AgentHandler.CreditStep` | handlers/salesperson_agent_handler.go:581-582 | crediting one more share is one more write to its agent's row |
| `AgentHandler.CommissionStep` | handlers/salesperson_agent_handler.go:576 | writing one more commission row is inserting one more share's row |
| `AgentHandler.GetAgentCommissions` | handlers/salesperson_agent_handler.go:449-489 | lists exactly the agent's commission rows and returns the sum of their amounts; unknown ids fail |
| `AgentHandler.SumWithout` | handlers/salesperson_agent_handler.go:480-483 | taking one row out of the list takes its amount out of the sum |
| `AgentHandler.SumOrderIrrelevant` | handlers/salesperson_agent_handler.go:473-483 | the total does not depend on the order `Find` returns the rows in |
| `KeyHandler.BatchCheck` | handlers/key_handler.go:48-135 | the first failing check, or None exactly when: 1 ≤ count ≤ 1000, creator type admin or salesperson (empty is admin), both ends active, the pair bound, and a salesperson holding an active assignment within its quota |
| `KeyHandler.CheckBatch` | handlers/key_handler.go:48-135 | the queries of the checks give BatchCheck, and the active assignment of a salesperson's batch |
| `KeyHandler.Minted` | handlers/key_handler.go:139-155 | count keys, each unused (never valid), copying the type's name, hours and price, with a 19-character code and an 8-character activation code |
| `KeyHandler.MintKeys` | handlers/key_handler.go:139-155 | the loop fills the array with the minted keys and advances the counter by two per key |
| `KeyHandler.MintSlot` | handlers/key_handler.go:141-154 | one slot builds the key from a card code and an activation code |
| `KeyHandler.BatchCreateKeys` | handlers/key_handler.go:29-248 | a failed check or a rejected insert changes nothing; otherwise the batch is inserted and, for a salesperson, the sale is booked |
| `KeyHandler.StoreBatch` | handlers/key_handler.go:157-236 | the transaction's store is the committed batch |
| `KeyHandler.BatchCommittedValid` | handlers/key_handler.go:170-232 | a batch the unique indexes accept, with its bookkeeping, keeps every invariant |
| `KeyHandler.BatchKeepsQuota` | handlers/key_handler.go:127-135 | keys_generated stays within a positive limit after a salesperson's batch |
| `KeyHandler.BatchBookkeeping` | handlers/key_handler.go:178-232 | the sale is count × price at the assignment's rate and is pending; the totals grow by those amounts; an admin batch books nothing |
| `KeyHandler.Activated` | handlers/key_handler.go:335-343 | status used, expiry now + hours, codes and ids kept; valid exactly until the expiry |
| `KeyHandler.ActivateKey` | handlers/key_handler.go:255-375 | fails on an empty code, software id 0, no matching pair, status other than unused, another software, or inactive software, with nothing changed; otherwise the key is activated |
| `KeyHandler.KeyPairIdentifies` | handlers/key_handler.go:286-287 | the unique code makes the matching key the only one |
| `KeyHandler.PutKeyValid` | handlers/key_handler.go:350 | rewriting a key with its codes kept keeps the unique indexes |
| `KeyHandler.ActivateOnce` | handlers/key_handler.go:298-303 | after a successful activation the key is used with an expiry, and a second activation fails |
| `KeyHandler.VoidKey` | handlers/key_handler.go:379-426 | a bad id, a missing key or an already void key fails with nothing changed; otherwise only the status becomes void |
| `KeyHandler.DoubleQuotes` | handlers/key_handler.go:431 | doubling the quotes never shortens, and changes nothing without quotes |
| `KeyHandler.EscapeCSVField` | handlers/key_handler.go:429-434 | unchanged without `,` `"` or a newline; otherwise quoted with the inner quotes doubled (section 2 of RFC 4180) |
| `KeyHandler.UnquoteDoubled` | handlers/key_handler.go:431 | undoubling the quotes inverts doubling them |
| `KeyHandler.EscapeRoundTrip` | handlers/key_handler.go:429-434 | a CSV reader gets every escaped field back unchanged |
| `KeyHandler.ExportOwner` | handlers/key_handler.go:548-565 | the queried salesperson only for caller 1 with a positive query, otherwise the caller |
| `KeyHandler.ExportedKeys` | handlers/key_handler.go:548-565 | exactly the keys of the owner the filter selects |
| `KeyHandler.ExportOnlyOwnKeys` | handlers/key_handler.go:548-565 | a caller other than 1 sees only its own keys |
| `Pagination.SalespersonPaging` | handlers/salesperson_handler.go:111-147 | a non-positive page becomes 1 and a non-positive size becomes 10; offset = (page - 1) × size, never negative |
| `Pagination.CatalogPaging` | handlers/software_handler.go:98-132 | page below 1 becomes 1; a limit outside 1..100 becomes 10 and any other limit stays; offset = (page - 1) × limit |
| `Pagination.Pages` | handlers/software_handler.go:154 | pages = ceil(total / limit): the pages hold every row, the last is not empty, and there are none only for no rows |
| `Pagination.PageWithinPages` | handlers/keytype.go:109-166 | a page shows rows exactly when it is at most the page count |
| `SalespersonHandler.GenerateCheck` | handlers/salesperson_handler.go:690-775 | None exactly when the request is well formed, salesperson, software and key type exist, the pair is bound, and an active assignment within its quota exists; InvalidRequest exactly for a zero id or count ≤ 0 |
| `SalespersonHandler.FirstClash` | handlers/salesperson_handler.go:807-813 | the first slot whose insert the unique indexes reject, after none before it |
| `SalespersonHandler.GenerateKeysForSalesperson` | handlers/salesperson_handler.go:663-887 | a failed check changes nothing; the first rejected insert rolls back (the counter keeps its advance); otherwise exactly the minted keys are inserted and the sale is booked on the active assignment |
| `SalespersonHandler.CheckGenerate` | handlers/salesperson_handler.go:690-775 | the queries of the checks give GenerateCheck, and the active assignment found |
| `SalespersonHandler.MintSalesKeys` | handlers/salesperson_handler.go:787-816 | the loop returns the keys minted up to the first rejected insert, advancing the counter by two per key minted |
| `SalespersonHandler.MintSlot` | handlers/salesperson_handler.go:790-805 | the activation code first, then the card code, then the key |
| `SalespersonHandler.NoClashFits` | handlers/salesperson_handler.go:807-816 | keys no insert of which is rejected fit the unique indexes as one batch |
| `SalespersonHandler.SellKeys` | handlers/salesperson_handler.go:817-866 | the transaction's writes after the keys: the booked store and the sale |
| `SalespersonHandler.SalesKeysShape` | handlers/salesperson_handler.go:794-805 | every key is unused, created by the salesperson with no creator type or salesperson id, and copies the type's name, hours and price |
| `SalespersonHandler.SalesKeysDistinct` | handlers/salesperson_handler.go:790-791 | with equally long timestamps, no two keys of a request share a code |
| `SalespersonHandler.SlotsDistinct` | utils/code_generator.go:54-66 | keys of two slots with different counter values share no code |
| `SalespersonHandler.SoldBookkeeping` | handlers/salesperson_handler.go:817-866 | keys_generated + count within a positive limit; sale = count × price at the assignment's rate, pending; the totals grow by exactly those amounts |
| `SalespersonHandler.AssignCheck` | handlers/salesperson_handler.go:487-547 | None exactly when the ids are non-zero, salesperson, software and key type exist, and the pair is bound |
| `SalespersonHandler.AssignProductToSalesperson` | handlers/salesperson_handler.go:470-607 | a failed check changes nothing; an existing assignment is reactivated with positive rate and limit overwritten; otherwise a new active assignment is created |
| `SalespersonHandler.AssignedValid` | handlers/salesperson_handler.go:550-596 | the upsert keeps every invariant, one assignment per triple included |
| `SalespersonHandler.AssignGrantsPermission` | handlers/salesperson_handler.go:554-594 | afterwards key generation finds an active assignment carrying any positive rate and limit requested |
| `SalespersonHandler.AssignIdempotent` | handlers/salesperson_handler.go:554-594 | assigning twice is assigning once |
| `SalespersonHandler.UpdateSalesperson` | handlers/salesperson_handler.go:195-289 | bad or unknown ids fail with nothing changed; otherwise only the supplied fields of that row are written |
| `SalespersonHandler.PatchedKeepsIdentity` | handlers/salesperson_handler.go:236-266 | an update changes only supplied fields (non-empty strings, a positive rate, a password); an empty update changes nothing |
| `SalespersonHandler.PatchedIdempotent` | handlers/salesperson_handler.go:236-266 | applying the same update twice is applying it once |
| `SalespersonHandler.PatchedValid` | handlers/salesperson_handler.go:236-269 | the update keeps the unique indexes, as it never writes username or agent code |
| `SalespersonHandler.HandleLoginFailure` | handlers/salesperson_handler.go:330-351 | records the failure, then reports the lock minutes or the attempts left |
| `SalespersonHandler.SalespersonLogin` | handlers/salesperson_handler.go:354-467 | empty credentials, then a locked username before any lookup, then an unknown user or a bad password recording a failure, then an inactive account; success resets the attempts and stamps last_login_at |
| `SalespersonHandler.StampValid` | handlers/salesperson_handler.go:446-448 | stamping the login time keeps the store valid |
| `SoftwareHandler.CreateSoftwareCheck` | handlers/software_handler.go:26-60 | None exactly when name, version and description are non-empty and the name is unused |
| `SoftwareHandler.CreateSoftware` | handlers/software_handler.go:17-85 | a failed check changes nothing; otherwise the row with its defaults is inserted |
| `SoftwareHandler.CreateSoftwareEffect` | handlers/software_handler.go:62-66 | a created software is enabled unless another status was asked for, keeps its fields, and creation keeps names unique |
| `SoftwareHandler.Activated` | handlers/software_handler.go:298-301 | status active and flag set, so IsEnabled |
| `SoftwareHandler.Deactivated` | handlers/software_handler.go:346-349 | status inactive and flag cleared, so not IsEnabled |
| `SoftwareHandler.ActivateSoftware` | handlers/software_handler.go:278-323 | bad or missing ids fail with nothing changed; otherwise only that row is activated |
| `SoftwareHandler.DeactivateSoftware` | handlers/software_handler.go:326-371 | bad or missing ids fail with nothing changed; otherwise only that row is deactivated |
| `SoftwareHandler.SwitchesInverse` | handlers/software_handler.go:298-349 | the switches touch only the two flags, each undoes the other, each is idempotent |
| `SoftwareHandler.BindCheck` | handlers/software_handler.go:389-412 | None exactly when both ids are given, both rows exist, and the pair is not bound yet |
| `SoftwareHandler.BindKeyType` | handlers/software_handler.go:374-432 | a failed check changes nothing; otherwise an enabled binding is inserted |
| `SoftwareHandler.BindValid` | handlers/software_handler.go:405-420 | binding an unbound pair keeps one binding per pair |
| `SoftwareHandler.UnbindKeyType` | handlers/software_handler.go:435-471 | deletes every row of the pair; NotFound exactly when none existed; afterwards the pair is unbound |
| `SoftwareHandler.UnbindAfterBind` | handlers/software_handler.go:414-465 | unbinding a pair just bound restores the binding rows, and the rest of the store |
| `SoftwareHandler.BindingFlagActive` | handlers/software_handler.go:532-545 | the flag of the first binding of a key type is set exactly when an enabled binding of the pair exists |
| `SoftwareHandler.FirstBindingFlag` | handlers/software_handler.go:534-540 | the inner loop finds the flag of the first binding of the key type |
| `SoftwareHandler.GetSoftwareKeyTypes` | handlers/software_handler.go:474-552 | every existing key type bound to the software, once each, with IsDefault exactly when an enabled binding exists; bad or missing ids fail |
| `SoftwareHandler.ListedKeyTypes` | handlers/software_handler.go:494-546 | the queries' results give the listing's contract |
| `KeyTypeHandler.CreateKeyTypeCheck` | handlers/keytype.go:26-45 | None exactly when the name is non-empty and unused |
| `KeyTypeHandler.CreateKeyType` | handlers/keytype.go:16-66 | a failed check changes nothing; otherwise the type with its defaults is inserted |
| `KeyTypeHandler.CreateKeyTypeEffect` | handlers/keytype.go:47-54 | a created type is enabled unless another status was asked for, keeps hours and price, and creation keeps names unique |
| `KeyTypeHandler.UpdateKeyType` | handlers/keytype.go:173-222 | bad or missing ids fail with nothing changed; otherwise the supplied columns of that row are written |
| `KeyTypeHandler.UpdatedColumns` | handlers/keytype.go:184-202 | exactly the supplied columns change; an empty body changes nothing; the update is idempotent |
| `KeyTypeHandler.UpdateCanDuplicateName` | handlers/keytype.go:201-202 | the update does not check names, so it can give two types one name |
| `KeyTypeHandler.DeleteKeyType` | handlers/keytype.go:225-272 | bad or missing ids, or a type some key has, fail with nothing changed; otherwise the type row is deleted |
| `KeyTypeHandler.DeleteKeepsReferences` | handlers/keytype.go:245-266 | the guard keeps every key's type in place, and the type is gone |
| `KeyTypeHandler.Activated` | handlers/keytype.go:295-298 | flag set and status active, so IsEnabled |
| `KeyTypeHandler.Deactivated` | handlers/keytype.go:342-345 | flag cleared and status inactive, so not IsEnabled |
| `KeyTypeHandler.ActivateKeyType` | handlers/keytype.go:275-319 | bad or missing ids fail with nothing changed; otherwise only that row is activated |
| `KeyTypeHandler.DeactivateKeyType` | handlers/keytype.go:322-366 | bad or missing ids fail with nothing changed; otherwise only that row is deactivated |
| `KeyTypeHandler.SwitchesAreUpdates` | handlers/keytype.go:295-345 | the switches are the fixed updates of is_active and status, and each undoes the other |

## Left out

- Concurrency: the mutexes, `atomic.AddInt64`, the limiter's cleanup goroutine and ticker, and transaction isolation. Every operation is one sequential step.
- Collation. The database, the connection and every table use `utf8mb4_unicode_ci` (database/database.go:99, 105, 130-132 and 149). Every `=` in a lookup or duplicate check, and every unique index, therefore ignores letter case and trailing spaces. The model compares strings exactly. This covers the code lookup of ActivateKey, the username lookup of SalespersonLogin, the name checks of CreateSoftware and CreateKeyType, the invitation and agent-code lookups, and the unique-index predicates of `Database.Store.Valid`. Where the source finds a row or refuses a duplicate that differs only in case or trailing spaces, the model reports not found or accepts it.
- Database errors other than rejections by a unique index. A failed query, failed commit or failed connection (HTTP 500) is not modelled; a unique-index rejection is modelled as `StoreConflict`, with rollback.
- JWT and bcrypt. `utils/jwt.go`, `handlers/auth_handler.go` and `middleware/auth_middleware.go` are not part of this model. The login's password check is the parameter `passwordMatches`, and the hash written by an update is the parameter `passwordHash`.
- SalespersonLogin: the token row it stores, the deletion of expired tokens, and the token it returns are not modelled. The outcome and the `last_login_at` stamp are.
- The 401 responses when no authenticated salesperson id is present. The id is an input.
- The fallback randomness of the generators, when `crypto/rand` fails, is not modelled, and neither is the randomness itself: random bytes, `rand.Intn` draws and clock readings are parameters.
- The email regular expression is a predicate parameter, `isEmail`. The phone pattern `^[0-9]{5,15}$` is modelled.
- `AddDate(0, 0, 7)` is modelled as exactly seven 24-hour days.
- Floating point. Amounts and rates are exact reals, and `int(d.Minutes())` is exact truncation. A 64-bit overflow of counts and timestamps is not modelled.
- DryRun SQL logging, and the list handlers other than their paging arithmetic: their filters, LIKE matching, ordering and counting. The salesperson list, products, sales and commission statistics handlers are not modelled.
- UpdateSoftware, DeleteSoftware, GetSoftwareByID, GetKeyTypeByID, GetKeyStatus, GetAllKeys, GetKeysBySoftwareID and GetKeyByID are plain reads or writes outside the named core, and are not modelled.
- CreateSoftware and CreateKeyType store the body's association slices as given, and the association writes GORM would make on create are not modelled. A client-supplied id on create is ignored; the row receives the next id.
- DeleteKeyType leaves the binding rows of the type in place, as the source does. The model does not cascade the delete.
- UpdateKeyType takes the nine columns of the key type; unknown keys in the body are not modelled.
- The product index on (salesperson, software, key type) is not unique in the schema. The model's store invariant keeps the triple unique, which the assign handler's upsert preserves; a second row inserted some other way is not modelled.
- The unique index on agent_code (models/salesperson.go:27) also covers the empty code, so two salespersons without codes cannot coexist in the source's database. The model keeps the index as the source does, the empty code included.
- ExportKeys: only the ownership filter is modelled, not the CSV file it writes.
- Hierarchy.IsCircularReference: the search is bounded by the number of salespersons. `Hierarchy.CircularReferenceExact` shows that this bound changes nothing on an acyclic hierarchy.
- CreateAgentInvitation: refuses a request by the intended duplicate test (a pending invitation with the same email or phone), not by the chained query as written; see Findings.
- GetAgentHierarchy is a read outside the named core and is not modelled.
- The second depth check of AcceptAgentInvitation (`newLevel > MaxAgentLevel`, handlers/salesperson_agent_handler.go:275-280) cannot fail once `Level >= MaxAgentLevel` has been refused. The model asserts this at that point.

## Findings

| source | as written | input that shows it | evidently intended | confidence | as-written member | corrected member |
|---|---|---|---|---|---|---|
| handlers/salesperson_agent_handler.go:130-145 | the chained query `Where("status = ?", "pending").Where("email = ?").Or("phone = ?")` reads as (pending AND email = e) OR phone = p, and as pending OR phone = p when only a phone is given | a phone-only request while any unrelated invitation is pending; or a phone used by an accepted invitation | refuse only a pending invitation with the same email or the same phone, as the error message says | not executed | `AgentHandler.DuplicateAsWrittenOverblocks` | `AgentHandler.CreateAgentInvitation` |
