# Booking-Site: ticket, account and form rules in Dafny

This project models the core rules of the Booking-Site event-ticketing system and proves properties of them. Both halves of the system are covered:

- **The Spring backend:**
  - ticket purchase;
  - ticket scanning at the door;
  - the second booking path;
  - the owner-filtered ticket lookups;
  - the repository queries over the ticket and ticket-type tables;
  - registration and the password-reset token lifecycle;
  - user provisioning from a JWT, role extraction, and the granted-authority list;
  - the two admin bookkeeping loops.
- **The React client:**
  - the `useRoles` hook;
  - the `validateForm` functions and the `handleSubmit` guards of the sign-up page and the reset-password page.

Every operation runs sequentially on in-memory tables:

- **Tables.** A Spring Data table is a `seq` of rows.
  - A derived `findBy…`/`countBy…` query is a predicate over rows. The query functions live in `Tables`.
  - A single-result query on a column that is not a key returns `Missing`, `Found(i)` or `NonUnique`. `NonUnique` stands for Spring's `IncorrectResultSizeDataAccessException`.
- **Classes.** Tables that the code writes are classes whose `rows` field the methods reassign: `UserTable`, `TicketTable` and `ResetTokenTable`. The client pages and the hook are classes too, one field per React state variable.
- **Outside calls.** Calls into code outside the core are parameters of the operations: the identity provider, the mail sender, the QR-code hook, `UUID.fromString`, `UUID.nameUUIDFromBytes`, and `jwtDecode`.
  - Each such call returns a value, or a failure where the Java or JavaScript call throws.
- **Inputs supplied by the caller.** The clock is an integer number of seconds. The random token of a reset request is also a parameter.

Modules:

- **Common:**
  - `Option` and `Result`;
  - Java's 32-bit `int` and its wrap-around;
  - the decimal rendering of counters.
- **Tables:** the query semantics shared by every repository.
- **Users:**
  - the `Role` enum;
  - the user table;
  - `findById`, `existsById`, `findByEmail` and `save`.
- **Identity:**
  - the subject-to-user-id rule;
  - `JwtUtil.parseUserId`;
  - `extractRoleFromJwt`.
- **Provisioning:** `UserProvisioningFilter.doFilterInternal`.
- **Authorities:** `JwtAuthenticationConverter.extractAuthorities`.
- **Tickets:**
  - the ticket and ticket-type tables;
  - the queries of TicketRepository and TicketTypeRepository.
- **Purchase:**
  - `TicketTypeServiceImpl.purchaseTicket`, with its capacity test;
  - the purchase endpoint of TicketTypeController.
- **TicketService:** `TicketServiceImpl`.
- **TicketController:** the validation (scan) endpoint and the booking endpoint.
- **ResetTokens:** the password-reset token table (PasswordResetTokenRepository).
- **AuthService:** `registerUser`, `sendPasswordResetEmail` and `resetPassword`.
- **Admin:** `AdminService.syncAllUserRoles` and `createRequiredRealmRoles`.
- **JsText:**
  - JavaScript's `length`, which counts UTF-16 code units;
  - the `\S` class;
  - the unanchored test `/\S+@\S+\.\S+/`.
- **UseRoles:** the `useRoles` hook.
- **SignUpForm:** the sign-up page.
- **ResetPasswordForm:** the reset-password page.

Decisions that shape the model:

- **Ticket ids are table positions.** The `TicketTable` invariant is that row `i` holds the ticket with id `i`. The source uses generated UUID ids. Only their equality matters, and positions make "the next id" explicit.
- **A UUID is its canonical text.** Equal UUIDs therefore have equal strings. The conversions `UUID.fromString` and `nameUUIDFromBytes` are left uninterpreted. `Identity.WellBehaved` states the two facts this model needs about them: canonical text parses to itself, and every result is canonical.
- **The purchase is one atomic step.**
  - A failure of the QR hook rolls the whole purchase back. The method runs inside `@Transactional`, so the exception undoes the first `save`. So no ticket remains after a QR failure: QR generation is not a best-effort step that could fail while the purchase stands.
- **A caught mail failure does not undo the token rows.** `sendPasswordResetEmail` catches every exception, the mail sender's included. That happens after the tokens have been deleted and inserted, so those writes stand.
- **The provisioning filter passes the request on in every case but one.** A JWT without a subject makes `UUID.fromString(null)` throw `NullPointerException`. That exception is not caught, so it escapes the filter (`DoFilterInternal` returns `continued == false`).
- **Upper-casing is a parameter.** `String.toUpperCase()` depends on the JVM's default locale. The role extraction therefore takes the case mapping `upper` as a parameter. `Identity.UpperCasesAscii` states the one fact some lemmas assume of it: it maps ASCII text letter by letter, as every locale but Turkish and Azeri does.
- **The role enum.** It is `ATTENDEE | ORGANIZER | STAFF`. The enum's source is not part of this model, but these three names are the realm roles `AdminService` creates, without their `ROLE_` prefix, and the ones `useRoles` reads.
- **Client strings.** They are sequences of Unicode scalar values, and `length` counts UTF-16 code units (`JsText.Utf16Length`). The regular expression is modelled on characters. That is exact here, because every character `\s` matches lies in the Basic Multilingual Plane, so no surrogate pair can be split around a white-space test.
- **The ticket count is narrowed to `int`.** `countByTicketTypeId` is declared to return `int`, while the count query yields a `long`. Spring's conversion throws when the value does not fit. A purchase against a type with more than 2^31 − 1 rows therefore fails with `CountNotAnInt` before the capacity test, and changes nothing.
- **Field names of the client error maps.** The keys are a datatype of the field names (`Field`), and `Key()` gives the property name used in the page.

## Model

Rows list the members that carry a contract. Definitions without one, such as `Purchase.PurchaseSpecAsWritten`, `Purchase.PurchaseUnder`, `Provisioning.Provisioned`, `AuthService.ResetRequested`, `Authorities.RealmRoles` and `Authorities.DatabaseAuthority`, appear through the rows of the lemmas and members that state something about them.

| member | source | states |
|---|---|---|
| Common.Wrap32 | backend/src/main/java/com/capstone/tickets/services/impl/TicketTypeServiceImpl.java:46 | Java `int` addition: the result equals the exact sum when that fits in 32 bits, and differs from it by a multiple of 2^32 otherwise |
| Common.Decimal | backend/src/main/java/com/capstone/tickets/services/AdminService.java:61-62 | the `%d`/`String.valueOf` rendering of a counter is a non-empty string of digits, one digit exactly for values below ten |
| Common.DecimalRoundTrip | backend/src/main/java/com/capstone/tickets/services/AdminService.java:61-62 | reading a rendered counter back gives the counter: the message states the counts themselves |
| Tables.Matching | backend/src/main/java/com/capstone/tickets/repositories/TicketRepository.java:22 | the positions a derived query selects are exactly the rows satisfying it, strictly increasing (table order) |
| Tables.Filter | backend/src/main/java/com/capstone/tickets/repositories/TicketRepository.java:22 | a list query returns exactly the satisfying rows, in table order, each a row of the table |
| Tables.FilterAppend | backend/src/main/java/com/capstone/tickets/repositories/TicketRepository.java:22 | one more row extends a list query's result by that row exactly when it satisfies the query |
| Tables.FilterKeepsAll | frontend/src/hooks/use-roles.tsx:44 | a filter that every element passes returns its input unchanged |
| Tables.CountWhere | backend/src/main/java/com/capstone/tickets/repositories/TicketRepository.java:20 | a count query is at most the table size and is zero exactly when no row satisfies it |
| Tables.CountWhereAppend | backend/src/main/java/com/capstone/tickets/repositories/TicketRepository.java:20 | one more row adds one to a count exactly when that row is counted |
| Tables.CountWhereUpdate | backend/src/main/java/com/capstone/tickets/repositories/TicketRepository.java:20 | replacing a row by one judged the same way leaves a count unchanged |
| Tables.FindUnique | backend/src/main/java/com/capstone/tickets/repositories/TicketRepository.java:17-18 | an `Optional` query on a non-key column: missing exactly when no row matches, the only matching row when there is one, an error exactly when two rows match |
| Tables.FindUniqueSingle | backend/src/main/java/com/capstone/tickets/repositories/PasswordResetTokenRepository.java:13 | a single-result query finds the one row that satisfies it |
| Tables.FindUniqueUpdate | backend/src/main/java/com/capstone/tickets/controllers/TicketController.java:45-47 | replacing a row by one judged the same way leaves a single-result query's outcome unchanged |
| Tables.FindFirst | backend/src/main/java/com/capstone/tickets/repositories/TicketTypeRepository.java:16-18 | a primary-key lookup: none exactly when no row has the key, otherwise the first row that has it |
| Users.RoleValueOf | backend/src/main/java/com/capstone/tickets/filters/UserProvisioningFilter.java:91-96 | `Role.valueOf`: the role whose name is exactly the text, and no role (the exception) for any other text |
| Users.FindUserById | backend/src/main/java/com/capstone/tickets/services/AdminService.java:69-73 | `findById`: empty exactly when no row has the id, otherwise a row of the table with that id |
| Users.ExistsById | backend/src/main/java/com/capstone/tickets/filters/UserProvisioningFilter.java:52 | `existsById` holds exactly when some row has the id |
| Users.FindUserByEmail | backend/src/main/java/com/capstone/tickets/services/AuthService.java:79 | `findByEmail`: missing exactly when no user has the address, and a found user has it |
| Users.FindUserByIdUnique | backend/src/main/java/com/capstone/tickets/services/AdminService.java:69-76 | under the primary key, `findById` of a row's id returns that row |
| Users.UpsertedSpec | backend/src/main/java/com/capstone/tickets/services/AuthService.java:49 | `save` keeps ids unique, makes the saved user the row for its id, leaves every other id's row as it was, and appends when the id is new |
| Users.UserTable.constructor | backend/src/main/java/com/capstone/tickets/filters/UserProvisioningFilter.java:52 | a user table starts from rows with unique ids |
| Users.UserTable.Save | backend/src/main/java/com/capstone/tickets/filters/UserProvisioningFilter.java:66 | `userRepository.save` replaces the row with the user's id or appends the user, keeping ids unique |
| Identity.ResolveUserId | backend/src/main/java/com/capstone/tickets/filters/UserProvisioningFilter.java:39-50 | the user id is the subject parsed as a UUID when it parses, otherwise the name-based UUID of the subject |
| Identity.ParseUserId | backend/src/main/java/com/capstone/tickets/util/JwtUtil.java:10-22 | the controllers' id rule is the same resolution, and fails exactly when the token has no subject |
| Identity.ResolveUserIdCanonical | backend/src/main/java/com/capstone/tickets/filters/UserProvisioningFilter.java:44-50 | a subject that is a UUID is its own user id, and every resolved id is a canonical UUID |
| Identity.UpperChar | backend/src/main/java/com/capstone/tickets/filters/UserProvisioningFilter.java:92 | on an ASCII character, in a default locale other than Turkish or Azeri, upper-casing maps each lower-case letter to its capital, keeps every other ASCII character, and leaves no lower-case letter |
| Identity.ToUpperAscii | backend/src/main/java/com/capstone/tickets/filters/UserProvisioningFilter.java:92 | on ASCII text, in such a locale, `toUpperCase()` keeps the length and upper-cases character by character, and the result is ASCII |
| Identity.ToUpperAsciiIdempotent | backend/src/main/java/com/capstone/tickets/filters/UserProvisioningFilter.java:92-96 | upper-casing ASCII text twice is upper-casing it once |
| Identity.ExtractRoleFromJwt | backend/src/main/java/com/capstone/tickets/filters/UserProvisioningFilter.java:78-106 | for the default locale's upper-casing `upper`: when the role entry (a string, or a list whose first element is a string) upper-cases to a role name, that role is the result; in every other case the result is ATTENDEE |
| Identity.ExtractRoleCaseInsensitive | backend/src/main/java/com/capstone/tickets/filters/UserProvisioningFilter.java:87-96 | where upper-casing maps ASCII letter by letter, a role named in ASCII in any letter case, as a string or as the head of a list, is the role extracted |
| Identity.TurkishLocaleLosesRole | backend/src/main/java/com/capstone/tickets/filters/UserProvisioningFilter.java:92-96 | under a Turkish default locale, where `organizer` upper-cases with a dotted capital I, the role is ATTENDEE |
| Identity.ExtractRoleDefaultsToAttendee | backend/src/main/java/com/capstone/tickets/filters/UserProvisioningFilter.java:99-104 | a missing or non-map attributes claim, a missing role entry, or an empty role list yields ATTENDEE |
| Provisioning.ProvisionedUnchanged | backend/src/main/java/com/capstone/tickets/filters/UserProvisioningFilter.java:35-37 | requests without an authenticated JWT, and subjects whose user exists, leave the user table unchanged |
| Provisioning.ProvisionedInsertsOne | backend/src/main/java/com/capstone/tickets/filters/UserProvisioningFilter.java:52-66 | for a subject without a user, exactly one row is added: the resolved id, preferred_username, email and the extracted role |
| Provisioning.ProvisionedKeepsKeys | backend/src/main/java/com/capstone/tickets/filters/UserProvisioningFilter.java:52-66 | provisioning keeps user ids unique, and afterwards the subject has a user |
| Provisioning.ProvisionedIdempotent | backend/src/main/java/com/capstone/tickets/filters/UserProvisioningFilter.java:52-71 | running the filter twice on the same request equals running it once |
| Provisioning.DoFilterInternal | backend/src/main/java/com/capstone/tickets/filters/UserProvisioningFilter.java:28-76 | the filter provisions as above and passes the request on, except when a JWT without a subject makes the id parse throw; ids stay unique |
| Authorities.StringList | backend/src/main/java/com/capstone/tickets/config/JwtAuthenticationConverter.java:39-41 | reading a claim as a list of strings succeeds only on a list, element for element |
| Authorities.ExtractAuthorities | backend/src/main/java/com/capstone/tickets/config/JwtAuthenticationConverter.java:32-69 | the authorities are the `ROLE_` realm roles in their order, followed by `ROLE_` plus the stored role when the user is found; a failed or missing lookup adds nothing; every authority is prefixed; the list is empty exactly when both parts are |
| Authorities.DatabaseRoleNotDeduplicated | backend/src/main/java/com/capstone/tickets/config/JwtAuthenticationConverter.java:42-62 | when the realm roles already grant the stored role, it is still appended: no de-duplication |
| Tickets.FindByQrCode | backend/src/main/java/com/capstone/tickets/repositories/TicketRepository.java:17-18 | `findByQrCode(v)`: missing exactly when no ticket holds `v`, otherwise the only ticket holding it |
| Tickets.CountByTicketTypeId | backend/src/main/java/com/capstone/tickets/repositories/TicketRepository.java:20 | the count of ticket rows of a type: at most the table size, zero exactly when no row has the type |
| Tickets.CountByTypeAppend | backend/src/main/java/com/capstone/tickets/repositories/TicketRepository.java:20 | a new ticket adds exactly one to its type's count, whatever its quantity, and nothing to other types |
| Tickets.CountByTypeIgnoresQuantity | backend/src/main/java/com/capstone/tickets/repositories/TicketRepository.java:20 | the count is not weighted by quantity: changing a row without changing its type leaves every count unchanged |
| Tickets.FindByPurchaserId | backend/src/main/java/com/capstone/tickets/repositories/TicketRepository.java:22 | exactly the purchaser's tickets |
| Tickets.FindByIdAndPurchaserId | backend/src/main/java/com/capstone/tickets/repositories/TicketRepository.java:24 | a ticket exactly when one row matches both the id and the purchaser, and that row |
| Tickets.CountTicketsByOrganizer | backend/src/main/java/com/capstone/tickets/repositories/TicketRepository.java:26-27 | tickets whose type belongs to the organizer (inner join): zero exactly when none does, and zero for an organizer without types |
| Tickets.FindByIdWithLock | backend/src/main/java/com/capstone/tickets/repositories/TicketTypeRepository.java:16-18 | the ticket type with that id, or empty exactly when there is none |
| Tickets.FindByIdWithLockUnique | backend/src/main/java/com/capstone/tickets/repositories/TicketTypeRepository.java:16-18 | under the primary key the lookup returns the one row with that id |
| Tickets.CountTypesByOrganizer | backend/src/main/java/com/capstone/tickets/repositories/TicketTypeRepository.java:20-21 | ticket types of the organizer: zero exactly when there are none |
| Tickets.SumTotalAvailableByOrganizer | backend/src/main/java/com/capstone/tickets/repositories/TicketTypeRepository.java:23-24 | the sum of the organizer's capacities: 0 when there are none (COALESCE), non-negative for non-negative capacities |
| Tickets.OrganizerTotalsAppend | backend/src/main/java/com/capstone/tickets/repositories/TicketTypeRepository.java:20-24 | a new type of the organizer adds its capacity to the sum and one to the count; a type of another organizer adds nothing |
| Tickets.TicketTable.constructor | backend/src/main/java/com/capstone/tickets/repositories/TicketRepository.java:14 | the ticket table starts empty with ids equal to positions |
| Tickets.TicketTable.Insert | backend/src/main/java/com/capstone/tickets/services/impl/TicketTypeServiceImpl.java:56 | saving a new ticket gives it the next id and appends it |
| Tickets.TicketTable.Save | backend/src/main/java/com/capstone/tickets/services/impl/TicketServiceImpl.java:48-50 | `save` replaces the row of a stored ticket in place or inserts a new one, and returns the stored row |
| Purchase.SoldOutAgreesWithinRange | backend/src/main/java/com/capstone/tickets/services/impl/TicketTypeServiceImpl.java:46-48 | the 32-bit test and the exact test agree whenever the sum fits in an `int` |
| Purchase.SoldOutAsWrittenAtIntMax | backend/src/main/java/com/capstone/tickets/services/impl/TicketTypeServiceImpl.java:46-48 | with 2147483647 of 2147483647 sold, a single ticket passes the 32-bit test although the exact test rejects it |
| Purchase.SoldOutAsWrittenOverflows | backend/src/main/java/com/capstone/tickets/services/impl/TicketTypeServiceImpl.java:46-48 | with 100 of 100 sold, quantity 2147483600 passes the 32-bit test although the exact test rejects it |
| Purchase.CountTooLargeFails | backend/src/main/java/com/capstone/tickets/services/impl/TicketTypeServiceImpl.java:44 | with more than 2^31 − 1 rows of the type, the purchase as written and the corrected one both fail with the narrowing error and leave the table unchanged |
| Purchase.AsWrittenAgreesWithinRange | backend/src/main/java/com/capstone/tickets/services/impl/TicketTypeServiceImpl.java:31-60 | the purchase as written, with its 32-bit sum, equals the corrected purchase whenever the row count plus the quantity fits in an `int` |
| Purchase.AsWrittenPurchaseBreaksCapacity | backend/src/main/java/com/capstone/tickets/services/impl/TicketTypeServiceImpl.java:43-60 | with all 100 tickets of a type sold, the purchase as written accepts quantity 2147483600, stores the ticket and leaves the type over capacity, while the corrected purchase reports it sold out |
| Purchase.PurchaseSpec | backend/src/main/java/com/capstone/tickets/services/impl/TicketTypeServiceImpl.java:31-60 | with the capacity test corrected to exact arithmetic: quantity ≤ 0 fails first, then an unknown user, then an unknown type, then a row count above 2^31 − 1 (the narrowing to `int` throws); sold out exactly when row count plus quantity exceeds capacity; success exactly when all checks pass and the QR hook returns, adding one PURCHASED row with the type, purchaser, quantity and the hook's code; every failure leaves the table unchanged |
| Purchase.PurchaseTicket | backend/src/main/java/com/capstone/tickets/services/impl/TicketTypeServiceImpl.java:31-60 | the method's result and new table are the ones the corrected `PurchaseSpec` describes |
| Purchase.PurchasePreservesCapacity | backend/src/main/java/com/capstone/tickets/services/impl/TicketTypeServiceImpl.java:43-56 | if no type has more rows than its capacity, that still holds after any corrected purchase |
| Purchase.PurchaseRun | backend/src/main/java/com/capstone/tickets/services/impl/TicketTypeServiceImpl.java:31-60 | helper: defines a run of single-unit purchases by the buyers in order (the table after it and the number that succeeded), which `SingleUnitPurchasesSellOutExactly` is about; its own contract only bounds that number by the number of buyers |
| Purchase.SingleUnitPurchasesSellOutExactly | backend/src/main/java/com/capstone/tickets/services/impl/TicketTypeServiceImpl.java:43-56 | for the corrected purchase: of M single-unit purchases against K rows left, exactly min(M, K) succeed, and the row count grows by that many |
| Purchase.QuantityIsNotCounted | backend/src/main/java/com/capstone/tickets/services/impl/TicketTypeServiceImpl.java:43-54 | the test counts rows, not units: after buying the whole capacity in one ticket a second purchase still succeeds |
| Purchase.RequestedQuantity | backend/src/main/java/com/capstone/tickets/controllers/TicketTypeController.java:30 | the body's quantity, or 1 when the body or its quantity is missing |
| Purchase.PurchaseEndpoint | backend/src/main/java/com/capstone/tickets/controllers/TicketTypeController.java:25-33 | 204 exactly when the purchase for the token's user and the defaulted quantity succeeds, the purchase error otherwise, and a subject-less token fails before any change |
| TicketService.ListTicketsForUser | backend/src/main/java/com/capstone/tickets/services/impl/TicketServiceImpl.java:21-23 | exactly the user's tickets |
| TicketService.GetTicketForUser | backend/src/main/java/com/capstone/tickets/services/impl/TicketServiceImpl.java:26-28 | a ticket exactly when both the id and the purchaser match, otherwise empty |
| TicketService.GetTicketForUserIsOwnersRow | backend/src/main/java/com/capstone/tickets/services/impl/TicketServiceImpl.java:26-28 | the owner gets the row with that id; any other user, or an unknown id, gets nothing |
| TicketService.FindTicketByQrCode | backend/src/main/java/com/capstone/tickets/services/impl/TicketServiceImpl.java:43-45 | the repository lookup by QR value |
| TicketService.SaveTicket | backend/src/main/java/com/capstone/tickets/services/impl/TicketServiceImpl.java:48-50 | the ticket's row is replaced or added, and no other row changes |
| TicketService.BookTickets | backend/src/main/java/com/capstone/tickets/services/impl/TicketServiceImpl.java:31-40 | one row is appended with the request's status, type, purchaser and quantity, without any check |
| TicketService.BookingBreaksCapacity | backend/src/main/java/com/capstone/tickets/services/impl/TicketServiceImpl.java:31-40 | a booking on a type without capacity left still adds a row, breaking the invariant purchases keep |
| TicketController.ValidateSpec | backend/src/main/java/com/capstone/tickets/controllers/TicketController.java:36-52 | not found leaves the table; a ticket with scans left loses exactly one and the response carries the remaining count (never negative); otherwise a rejection with no change; no quantity ever grows |
| TicketController.ValidateTicket | backend/src/main/java/com/capstone/tickets/controllers/TicketController.java:36-52 | the method's response and new table are the ones `ValidateSpec` describes |
| TicketController.FindByQrCodeAfterScan | backend/src/main/java/com/capstone/tickets/controllers/TicketController.java:45-47 | a scan changes only a quantity, so the code finds the same ticket afterwards |
| TicketController.ScanRun | backend/src/main/java/com/capstone/tickets/controllers/TicketController.java:36-52 | helper: defines a run of k scans of one code (the table after it and the number accepted), which `ScansAcceptedExactlyQuantity` is about; its own contract only bounds that number by k |
| TicketController.ScanStep | backend/src/main/java/com/capstone/tickets/controllers/TicketController.java:45-51 | a scan is accepted exactly when a scan is left, takes one, and touches no other ticket |
| TicketController.ScansAcceptedExactlyQuantity | backend/src/main/java/com/capstone/tickets/controllers/TicketController.java:45-51 | a ticket with n ≥ 0 scans accepts exactly min(k, n) of k scans and ends at n − min(k, n) ≥ 0; no other ticket changes |
| TicketController.ExhaustedTicketRejects | backend/src/main/java/com/capstone/tickets/controllers/TicketController.java:49-51 | a used-up ticket gets 400 and is not changed |
| TicketController.ScanPreservesCapacity | backend/src/main/java/com/capstone/tickets/controllers/TicketController.java:45-47 | a scan keeps the capacity invariant |
| TicketController.BookTicketsEndpoint | backend/src/main/java/com/capstone/tickets/controllers/TicketController.java:55-59 | 201 with the ticket the service created |
| ResetTokens.FindByToken | backend/src/main/java/com/capstone/tickets/repositories/PasswordResetTokenRepository.java:13 | missing exactly when no row has the token, otherwise a row with it; ambiguity only when token strings repeat |
| ResetTokens.WithoutEmail | backend/src/main/java/com/capstone/tickets/repositories/PasswordResetTokenRepository.java:17 | `deleteByEmail(e)` removes every token of `e` and keeps every other one |
| ResetTokens.WithoutEmailKeepsAbsent | backend/src/main/java/com/capstone/tickets/repositories/PasswordResetTokenRepository.java:17 | deleting adds no token string |
| ResetTokens.WithoutExpiredBefore | backend/src/main/java/com/capstone/tickets/repositories/PasswordResetTokenRepository.java:15 | exactly the tokens expired strictly before `now` are removed |
| ResetTokens.DeletedTokensNotFound | backend/src/main/java/com/capstone/tickets/repositories/PasswordResetTokenRepository.java:13-17 | after `deleteByEmail(e)`, no token of `e` is found |
| ResetTokens.ResetTokenTable.constructor | backend/src/main/java/com/capstone/tickets/repositories/PasswordResetTokenRepository.java:12 | the token table starts empty |
| ResetTokens.ResetTokenTable.DeleteByEmail | backend/src/main/java/com/capstone/tickets/repositories/PasswordResetTokenRepository.java:17 | the table becomes `WithoutEmail` of itself |
| ResetTokens.ResetTokenTable.DeleteByExpiryDateBefore | backend/src/main/java/com/capstone/tickets/repositories/PasswordResetTokenRepository.java:15 | the table becomes `WithoutExpiredBefore` of itself |
| ResetTokens.ResetTokenTable.Insert | backend/src/main/java/com/capstone/tickets/services/AuthService.java:90-98 | a fresh token is appended |
| ResetTokens.ResetTokenTable.MarkUsed | backend/src/main/java/com/capstone/tickets/services/AuthService.java:141-142 | only the stored token's `used` flag is set |
| AuthService.ResetLink | backend/src/main/java/com/capstone/tickets/services/AuthService.java:101 | the link is the frontend URL, the reset path and the token |
| AuthService.ResetLinkRoundTrip | backend/src/main/java/com/capstone/tickets/services/AuthService.java:101 | reading the token back from the link gives the token sent |
| AuthService.RegisterUser | backend/src/main/java/com/capstone/tickets/services/AuthService.java:33-66 | an identity-provider failure is reported with its message and stores nothing; otherwise the user with the provider's id and the request's name, email and role is saved and echoed with the fixed message |
| AuthService.ResetRequestReplacesTokens | backend/src/main/java/com/capstone/tickets/services/AuthService.java:86-98 | a known address ends with exactly one token, the fresh unused one expiring 24 hours later; other addresses' tokens are untouched; token strings stay unique |
| AuthService.UnknownEmailChangesNothing | backend/src/main/java/com/capstone/tickets/services/AuthService.java:79-84 | for an address without a user nothing is created or deleted |
| AuthService.SendPasswordResetEmail | backend/src/main/java/com/capstone/tickets/services/AuthService.java:74-111 | the token table becomes `ResetRequested`; a mail with the reset link and the user's name is handed over exactly when the address has one user; it never fails |
| AuthService.ResetSpec | backend/src/main/java/com/capstone/tickets/services/AuthService.java:120-145 | an unknown token fails, then an expired one, then a used one, then a failed password update, each with no change; success exactly when all pass, and then only that token becomes used |
| AuthService.ResetPassword | backend/src/main/java/com/capstone/tickets/services/AuthService.java:120-145 | the method's result and new table are the ones `ResetSpec` describes |
| AuthService.SecondResetFails | backend/src/main/java/com/capstone/tickets/services/AuthService.java:133-142 | after a successful reset, a second reset with the same token fails (used, or expired) and changes nothing |
| AuthService.IssuedTokenIsFound | backend/src/main/java/com/capstone/tickets/services/AuthService.java:87-98 | after a request for a known address the fresh token is the only row holding its string |
| AuthService.ResetLifecycle | backend/src/main/java/com/capstone/tickets/services/AuthService.java:74-145 | the e-mailed token resets the password at any time up to its expiry, and only once |
| Admin.SyncUserRole | backend/src/main/java/com/capstone/tickets/services/AdminService.java:68-88 | an unknown user fails without calling the identity provider; otherwise the stored role is sent and the result is whether the call returned |
| Admin.FailedLabels | backend/src/main/java/com/capstone/tickets/services/AdminService.java:43-50 | helper: defines the failure labels of the users whose sync fails, in order, which `SucceededCount` and `SyncAllUserRoles` are stated with; its own contract only bounds their number by the number of users |
| Admin.SucceededCount | backend/src/main/java/com/capstone/tickets/services/AdminService.java:37-51 | successes plus listed failures are the number of users |
| Admin.SyncAttempts | backend/src/main/java/com/capstone/tickets/services/AdminService.java:37-51 | one attempt per user, in order, each that user's `syncUserRole` |
| Admin.SyncStep | backend/src/main/java/com/capstone/tickets/services/AdminService.java:37-51 | one more user adds its attempt, and one to exactly one of the counters |
| Admin.SyncSendsStoredRole | backend/src/main/java/com/capstone/tickets/services/AdminService.java:74-80 | syncing a user of the table calls the provider for that id, with the role of the user's own row |
| Admin.SyncAllUserRoles | backend/src/main/java/com/capstone/tickets/services/AdminService.java:29-63 | every user is attempted once, in order; success and failure counts partition the users; the failed list has the failure count's length and names the failed users; the message states the counts |
| Admin.OutcomesPartition | backend/src/main/java/com/capstone/tickets/services/AdminService.java:101-115 | each role name lands in exactly one of the three lists, whose lengths add up to the number of names |
| Admin.OutcomeListIsFilter | backend/src/main/java/com/capstone/tickets/services/AdminService.java:103-115 | each list built by the loop is the names with that outcome, in their order |
| Admin.CreateRoles | backend/src/main/java/com/capstone/tickets/services/AdminService.java:103-115 | the loop's lists are the names created, already existing and failed, in order |
| Admin.CreateRequiredRealmRoles | backend/src/main/java/com/capstone/tickets/services/AdminService.java:93-127 | each of the three roles is listed under exactly one outcome; success exactly when none failed; the message states the three counts |
| JsText.Utf16Length | frontend/src/pages/signup-page.tsx:41 | `length` lies between the number of characters and twice it, and is zero only for the empty string |
| JsText.Utf16LengthCountsChars | frontend/src/pages/signup-page.tsx:49 | `length` equals the number of characters exactly when none lies outside the Basic Multilingual Plane |
| JsText.EmailPatternTestDecides | frontend/src/pages/signup-page.tsx:45 | the direct test holds exactly when some substring is non-space run, `@`, non-space run, `.`, non-space run |
| JsText.EmailPatternSurvivesContext | frontend/src/pages/signup-page.tsx:45 | the pattern is unanchored: text around a match, spaces included, never undoes it |
| JsText.EmailPatternNeedsAtAndDot | frontend/src/pages/signup-page.tsx:45 | an accepted address has an `@` that is not first, followed later by a `.` that is not last |
| UseRoles.PrefixAdded | frontend/src/hooks/use-roles.tsx:43 | prefixing yields a prefixed name from which the original is recovered |
| UseRoles.NormaliseRoles | frontend/src/hooks/use-roles.tsx:42-43 | same length and order; a prefixed name is kept, any other gets `ROLE_`; every result is prefixed |
| UseRoles.PublishedRolesAreNormalised | frontend/src/hooks/use-roles.tsx:42-44 | the filter after normalisation removes nothing |
| UseRoles.NormaliseIdempotent | frontend/src/hooks/use-roles.tsx:42-43 | normalising twice is normalising once |
| UseRoles.PublishedNameSources | frontend/src/hooks/use-roles.tsx:42-44 | `ROLE_x` is published exactly when the token lists `x` or `ROLE_x` |
| UseRoles.RoleNameIsBare | frontend/src/hooks/use-roles.tsx:46-48 | the three role names carry no prefix |
| UseRoles.FlagFromEitherSpelling | frontend/src/hooks/use-roles.tsx:45-48 | a role's flag is set exactly when the token grants it with or without the prefix |
| UseRoles.BareRoleOnlyOnClient | frontend/src/hooks/use-roles.tsx:42-46 | for a token listing bare `ORGANIZER` the client sets the organizer flag while the server's realm-role filter keeps nothing |
| UseRoles.PayloadRoles | frontend/src/hooks/use-roles.tsx:41 | a missing claim or list reads as empty; a present list, even empty, is used as it is |
| UseRoles.RolesHook.constructor | frontend/src/hooks/use-roles.tsx:21-25 | the hook starts loading, with no roles and no flags |
| UseRoles.RolesHook.RunEffect | frontend/src/hooks/use-roles.tsx:27-58 | while auth loads or without a token: no roles, no flags, loading mirrors auth; a decode error: no roles, no flags; otherwise the normalised roles and the three flags, each set exactly when the role is granted under either spelling; loading ends |
| SignUpForm.SignUpErrors | frontend/src/pages/signup-page.tsx:38-59 | one entry per rejected field with that field's message: username empty or shorter than 3; email empty or not matching the pattern; password empty or shorter than 8; confirmation different; name empty or shorter than 2 |
| SignUpForm.SignUpErrorsByKey | frontend/src/pages/signup-page.tsx:39-59 | a map with exactly those entries is the error map |
| SignUpForm.AcceptedFormShape | frontend/src/pages/signup-page.tsx:41-59 | an accepted form has the required lengths, matching passwords and an address with `@` and a later `.` |
| SignUpForm.SignUpPage.constructor | frontend/src/pages/signup-page.tsx:26-36 | the initial form, with role ATTENDEE, no errors, not loading |
| SignUpForm.SignUpPage.ValidateForm | frontend/src/pages/signup-page.tsx:38-63 | the errors become the form's error map, and the result is true exactly when it is empty |
| SignUpForm.SignUpPage.HandleSubmit | frontend/src/pages/signup-page.tsx:65-88 | no request exactly when validation fails, leaving its errors; otherwise loading starts, errors and message clear, and the request carries the form's fields |
| ResetPasswordForm.ResetErrors | frontend/src/pages/reset-password-page.tsx:35-47 | an entry for a new password shorter than 8, and one for a different confirmation, with their messages; empty exactly when both pass |
| ResetPasswordForm.ResetPasswordPage.constructor | frontend/src/pages/reset-password-page.tsx:18-27 | the token read once, an empty form, no messages |
| ResetPasswordForm.ResetPasswordPage.CheckToken | frontend/src/pages/reset-password-page.tsx:29-33 | a missing or empty token sets the missing-token message; nothing else changes |
| ResetPasswordForm.ResetPasswordPage.ValidateForm | frontend/src/pages/reset-password-page.tsx:35-48 | the errors become the form's error map, and the result is true exactly when both rules pass |
| ResetPasswordForm.ResetPasswordPage.HandleSubmit | frontend/src/pages/reset-password-page.tsx:50-72 | both messages are cleared and the form validated; a request with the token and new password exactly when the form is valid and the token present, and then loading starts |

## Left out

- The identity provider (KeycloakService) is not modelled. Each call is a parameter that returns its result or fails: user creation, role assignment, role creation, password update.
- The mail sender (EmailService) is not modelled either. `SendPasswordResetEmail` returns the mail it hands over.
- The QR-code service is a parameter. It returns the value of the created code, or fails.
- QR images, PDF rendering and the dashboard queries are not modelled, because they are rendering and floating-point aggregation. `sumRevenueByOrganizer` is one of the queries left out for this reason.
- `loginUser` and the login page are outside the modelled flows.
- The pessimistic lock of `findByIdWithLock` and all concurrency are not modelled: every operation is one atomic sequential step. Where a transaction rolls back, the model states the state before the call.
- Database failures inside `sendPasswordResetEmail` are not modelled: an exception from `deleteByEmail` or from the token `save`. The catch would swallow it, but it would mark the transaction rollback-only, so the commit would then throw. When `findByEmail` finds several users, its exception is caught and the table is unchanged, which the model states.
- Pagination of `listTicketsForUser` is not modelled: the model returns all pages together.
- The `getTicketQrCode` endpoint and the `listTickets`/`getTicket` mapping to DTOs are not modelled. They are the image service and the mappers.
- `UUID.nameUUIDFromBytes` (MD5) and `UUID.fromString` are uninterpreted functions.
- `LocalDateTime.now()` is an integer clock parameter. The `createdAt`/`updatedAt` columns are not modelled.
- The reset token's random UUID is a parameter. Its uniqueness against the table is a precondition of `AuthService.SendPasswordResetEmail`.
- A `null` `totalAvailable` is not modelled; it would make the capacity test throw. The same goes for missing or `null` foreign keys in a booking request, which would make the insert fail (the `Ticket` entity and its constraints are not part of this model).
- Purchase.SingleUnitPurchasesSellOutExactly: is proved of the corrected purchase. As written, one extra ticket still sells when a type with `totalAvailable` 2147483647 already has 2147483647 rows, because `2147483647 + 1` wraps to −2147483648 (`SoldOutAsWrittenAtIntMax`).
- Admin.SucceededCount: does not model 32-bit wrap-around of the `int` counters, because that needs more than 2^31 users.
- Identity.ExtractRoleFromJwt: `String.toUpperCase()` in the JVM's default locale is the parameter `upper`; its Unicode case table and its locale are not modelled. So the model does not fix what non-ASCII spellings yield: in Java `organızer` (dotless ı) and `ſtaff` (long s) upper-case to role names, `staﬀ` (the ﬀ ligature) becomes `STAFF` with a longer text, and under a Turkish or Azeri locale `organizer` becomes `ORGANİZER`, which is no role (`TurkishLocaleLosesRole`).
- Identity.UpperChar: covers ASCII characters only, in a locale other than Turkish or Azeri. Java also upper-cases non-ASCII letters (`é` to `É`, `ı` to `I`); that lives in the `upper` parameter.
- Identity.ToUpperAscii: covers ASCII text only, where the length is kept. Java's full mapping can lengthen the text (`ß` to `SS`); that lives in the `upper` parameter.
- Identity.ExtractRoleCaseInsensitive: holds only where `upper` maps ASCII letter by letter (`UpperCasesAscii`), which a Turkish or Azeri default locale does not.
- Purchase.PurchaseSpec: uses the corrected capacity test, not the 32-bit sum of `TicketTypeServiceImpl.java` line 46. The purchase as written is `PurchaseSpecAsWritten` (see Findings).
- Purchase.PurchaseTicket: implements the corrected capacity test, like `PurchaseSpec`.
- Purchase.PurchasePreservesCapacity: holds for the corrected purchase only. `AsWrittenPurchaseBreaksCapacity` shows that the purchase as written breaks it.
- Purchase.PurchaseEndpoint: calls the corrected purchase, so it does not let the overflowing quantity of the finding through.
- UseRoles.RolesHook.RunEffect: a role entry in the payload that is not a string would make `startsWith` throw (`jwtDecode` does not check types). That case is not modelled: the roles are `seq<string>`.
- React state updates are modelled as plain assignments in program order. Batching and re-rendering are not modelled.
- The client's `fetch` calls and everything after the request is formed are not modelled: response handling, navigation, and the auth context's storage.
- The `com.devtiro` duplicate package, SecurityConfig, the mappers, the DTOs and the remaining controllers are framework wiring and are not part of this model.

## Findings

| source | as written | input that shows it | evidently intended | confidence | as-written member | corrected member |
|---|---|---|---|---|---|---|
| backend/src/main/java/com/capstone/tickets/services/impl/TicketTypeServiceImpl.java:46-48 | `purchasedTickets + quantity > totalAvailable` is evaluated in 32-bit `int`, so a huge quantity overflows the sum to a negative number and passes the sold-out test | 100 rows sold of a type with `totalAvailable` 100, request with quantity 2147483600: the sum wraps to −2147483596 and the purchase goes through | reject whenever the exact sum exceeds the capacity | not executed | Purchase.AsWrittenPurchaseBreaksCapacity | Purchase.PurchaseSpec |
