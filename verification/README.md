# Sports-ticket reservations: a verified model

This project models the reservation engine of the sports-ticket API in Dafny and proves what it promises:
no ticket is sold twice, a hold is respected until it runs out, purchases are all or nothing, seat counts
add up, and concurrent transactions leave the tables that some run of the same transactions one at a time
would leave. Around the engine it also models the list view, refresh-token rotation and the mapping of errors
to statuses.

`dafny verify dfyconfig.toml` checks everything.

## How the system is modelled

- `Tables.dfy`: the ticket and reservation rows, the row predicates of the SQL, and `Consistent`, the invariant
  that ties the two tables together. The join with `seats` is folded into the ticket row (`seat_id` is a
  foreign key and seats never change). Times are integers.
- `Transactions.dfy`: create, purchase, cancel and sweep as steps on the two tables. `LIMIT` without `ORDER BY`
  leaves the choice of tickets open, so a create carries the tickets its selections returned, and `Legal` says
  which choices are possible. `now` is a parameter of every command; nothing forces it to increase along a run.
  A sweep carries the reservations missing from its snapshot (none when it runs alone).
- `Invariant.dfy`, `Histories.dfy`, `Phases.dfy`, `Lifetimes.dfy`: what every step keeps, and safety and
  progress over whole runs.
- `LazyExpiry.dfy`: the engine against a system that sweeps before every command and hands out only available
  tickets.
- `Interleaving.dfy`, `SerialRuns.dfy`, `CommitOrder.dfy`, `Convergence.dfy`, `LateCommit.dfy`: open transactions
  with snapshots, row locks, re-checks, commits and rollbacks, following Read Committed as PostgreSQL 15 documents
  it (sections 13.2.1 and 13.3.2), and their equivalence to serial runs.
- `Store.dfy`, `Service.dfy`, `Seed.dfy`: the repository and the service as objects whose methods follow the Go
  loops, with 64-bit wrap-around of the seat total, and the seeding program.
- `Allocation.dfy`, `Placeholders.dfy`, `SeatCounts.dfy`, `Grouping.dfy`: how many tickets a create gets, the
  generated `IN` list, the seat counts, and the grouping of joined rows. `Opening.dfy`: what users meet right
  after seeding.
- `RefreshTokens.dfy`, `Errors.dfy`, `Refusals.dfy`: token rotation, error classification, and the error and
  status of every refused command.

### Two findings

- *Commit order.* An interleaving always equals the serial run of its commits in commit order, except that a
  sweep passes over reservations committed after its snapshot. With complete sweeps the equivalence holds exactly
  when no sweep commits over a lapsed reservation that its snapshot lacked (`SerialWithCompleteSweepsIff`), which
  is guaranteed when every create commits before its own hold runs out (`PunctualInterleavingsAreSerial`).
  `LateCommitHappens` and `NoSerialOrder` give three transactions, one of them a create slower than its hold time,
  whose result no serial order at all can produce. What such sweeps leave behind is bounded exactly: the answers
  are those of complete sweeps if and only if nobody purchases or cancels a reservation that an earlier sweep had
  passed over (`AnswersOfCompleteSweepsIff`), which commits in clock order never do, and then the next sweep makes
  the tables the same (`NextSweepRepairs`, and `LateCommitIsRepaired` for the example).
- *Partial purchase.* A purchase whose transaction started before the hold ran out, but which runs after a later
  create has reclaimed some of the tickets, succeeds with the tickets that are left (`PartialPurchaseHappens`).
  `PurchaseReturnsWhatIsLeft` says exactly which tickets a purchase returns in every run. A run has no such case
  if no create that commits between the two had started after the expiry (`PurchaseIsWholeWithoutLateCreate`), and
  in particular if the clocks are in commit order (`PurchaseIsAllOrNothing`).

The statuses are those of the database enums. The Go constants `reserved`, `purchased` and `canceled` of
`internal/domain/reservations.go` are not used by the SQL and have no counterpart here.

## Model

| member | source | states |
|---|---|---|
| Invariant.ExecKeepsConsistent | internal/repository/reservation_repository.go:38-162 | every create, purchase, cancel and sweep keeps the joint invariant: available means unowned, reserved means owned by a pending reservation, sold by a confirmed one, cancelled and expired own nothing, confirmed owns something, owner and ticket share the game; clocks arbitrary |
| Invariant.TraceKeepsConsistent | internal/repository/reservation_repository.go:38-438 | the joint invariant holds at every point of every run |
| Invariant.AnswerNamesTheChanges | internal/repository/reservation_repository.go:38-162 | the tickets and reservations an answer speaks of are exactly the rows that changed; the tables are left as they were if and only if the command failed, also when it had already updated the reservation row, or was a sweep that expired nothing |
| Invariant.ExecEvolves | internal/repository/reservation_repository.go:38-116 | rows never disappear, statuses only move forward, and an existing reservation never gains a ticket |
| Invariant.TraceEvolves | internal/repository/reservation_repository.go:38-116 | the same between any two points of any run |
| Histories.NoDoubleSale | internal/repository/reservation_repository.go:66-116 | between two successful purchases that return the same ticket there is a successful cancel of the first reservation, whatever happens in between and whatever the clocks |
| Histories.OwnedUntilTaken | internal/repository/reservation_repository.go:38-77 | a ticket stays with its reservation if and only if no command took it: a cancel of that reservation, a sweep that expired it after its expiry, or a create that took this ticket while the reservation was pending and lapsed |
| Histories.NoDoubleBooking | internal/repository/reservation_repository.go:323-340 | when two creates answer with the same ticket, a command in between, or the second create itself, took that ticket from the first reservation: a cancel of it, or a sweep or create that started after its expiry and found it still pending; once the first reservation had bought the ticket, only its cancel frees it |
| Histories.SoldUntilCancelled | internal/repository/reservation_repository.go:66-77 | a sold ticket's row stays as it is until its reservation is cancelled |
| Histories.HoldSafety | internal/repository/reservation_repository.go:323-340 | both ways: a reservation stays pending exactly until it is purchased, cancelled or expired, and a ticket it holds stays with it exactly until it is cancelled, or until a sweep of it or a create on that ticket that started after its expiry |
| Histories.LostTicketStaysLost | internal/repository/reservation_repository.go:38-77 | once a reservation lost a ticket it never owns it again: its own purchase or cancel leaves the ticket alone, and a sweep touches it only because of its current owner |
| Histories.PurchaseReturnsWhatIsLeft | internal/repository/reservation_repository.go:108-116 | in every run a purchase returns exactly its create's tickets less those other creates took in between, hence all of them if and only if none was taken |
| Histories.PurchaseIsWholeWithoutLateCreate | internal/repository/reservation_repository.go:108-154 | a successful purchase returns exactly the tickets of its create if no create that committed in between had started after the hold ran out, whatever the other clocks |
| Histories.PurchaseIsAllOrNothing | internal/repository/reservation_repository.go:108-154 | with clocks in commit order a successful purchase returns exactly the tickets of its create |
| Histories.PurchasedStaysSold | internal/repository/reservation_repository.go:108-116 | after a purchase the reservation owns exactly the purchased tickets, all sold, until it is cancelled |
| Histories.PartialPurchaseHappens | internal/repository/reservation_repository.go:108-154 | without clock order a purchase can succeed with part of its tickets: a concrete run |
| Histories.PurchaseAndCancelSucceedIff | internal/repository/reservation_repository.go:66-116 | with clocks in commit order purchase and cancel succeed exactly when the reservation exists, is the user's, and is pending with its expiry still ahead (or, for cancel, confirmed); they never fail for want of tickets |
| Phases.StatusTellsHistory | internal/repository/reservation_repository.go:38-116 | in every run: confirmed means purchased and not cancelled since, cancelled means a cancel succeeded, expired means a sweep expired it, pending means none of these |
| Phases.OpenHoldSucceedsIff | internal/repository/reservation_repository.go:66-116 | in every run, whatever the clocks, a purchase or cancel of an open hold succeeds exactly for the user who created it, in a transaction that started before the expiry, while other creates have left it a ticket |
| Phases.OpenHoldSucceedsInOrderIff | internal/repository/reservation_repository.go:66-116 | with clocks in commit order the user and the clock alone decide |
| Phases.OpenHoldLapsesIff | internal/repository/reservation_repository.go:38-45 | a complete sweep expires an open hold, and a create of its game and grade may take its tickets, exactly after the expiry; at the expiry itself it can be neither used nor taken |
| Phases.SoldIsCancellableIff | internal/repository/reservation_repository.go:66-77 | a purchased reservation can be cancelled at any time by its user and nobody else, once |
| Lifetimes.StepSpendsChanges | internal/repository/reservation_repository.go:40-110 | every answer tells how many reservations changed status, and every change lowers the measure pending 2, confirmed 1, ended 0 |
| Lifetimes.ChangesBoundedByCreates | internal/repository/reservation_repository.go:38-162 | from tables without reservations, purchases, cancels and expiries together are at most twice the creates |
| Lifetimes.EndedNeverComesBack | internal/repository/reservation_repository.go:40-72 | an ended reservation keeps its row for ever and owns no ticket again |
| LazyExpiry.EligibleIsAvailableAfterSweep | internal/repository/reservation_repository.go:323-340 | what a create may take now is exactly what would be available after a sweep now |
| LazyExpiry.SweptIsCompleteSweep | internal/repository/reservation_repository.go:39-45 | a complete sweep is exactly the row-by-row expiry that the eager system applies |
| LazyExpiry.StepRefinesEager | internal/repository/reservation_repository.go:323-426 | every command answers as in a system that sweeps first and hands out only available tickets; sweeping afterwards gives the same tables if and only if the hold is not negative or the create failed |
| LazyExpiry.RunRefinesEager | internal/repository/reservation_repository.go:38-45 | at every point of a run with clocks in order, sweeping the tables gives the eager system's tables |
| LazyExpiry.OutcomesAreEager | internal/repository/reservation_repository.go:38-438 | in such a run every create, purchase and cancel has the eager system's outcome and its choices |
| LazyExpiry.SweepsDoNotMatter | cmd/server/main.go:174-188 | two runs of the same commands with sweeps placed differently give the same answers, and the same tables after a sweep |
| LazyExpiry.SweepsMayBePlacedAnywhere | cmd/server/main.go:174-188 | sweeps may be added, removed or moved: the same commands with the same ticket choices stay possible |
| Interleaving.LockedTicketsOwnerIsStable | internal/repository/reservation_repository.go:323-340 | while a transaction holds a ticket's lock, no other transaction can commit a change of the ticket or of the reservation that owns it |
| Interleaving.StatementCommitIsSerial | internal/repository/reservation_repository.go:38-162 | a purchase, cancel or sweep that commits, having locked and re-checked its snapshot's rows, publishes what the command would do on the tables of that moment, with the same answer |
| Interleaving.CreateCommitIsSerial | internal/repository/reservation_repository.go:347-438 | so does a create, and the tickets it locked are still a legal choice when it commits |
| Interleaving.ActionKeepsOk | internal/repository/reservation_repository.go:38-438 | every begin, snapshot, row update, row lock, commit and rollback keeps the invariant of all open transactions and the seriality of the commits so far |
| Interleaving.InterleavingsAreSerial | internal/repository/reservation_repository.go:38-438 | every interleaving gives the tables and the answers of its commits run one at a time in commit order |
| SerialRuns.EverySerialRunIsAnInterleaving | internal/repository/reservation_repository.go:38-438 | and conversely: every serial run of successful commands with complete sweeps, whatever their clocks, is performed by an interleaving, with the same tables and answers |
| CommitOrder.SerialWithCompleteSweepsIff | internal/repository/reservation_repository.go:38-56 | with complete sweeps that serial run is the same if and only if no sweep commits over a lapsed reservation missing from its snapshot |
| CommitOrder.PunctualInterleavingsAreSerial | internal/repository/reservation_repository.go:38-438 | if every create commits before its own hold runs out, every interleaving is the serial run of its commits, sweeps complete |
| CommitOrder.NoDoubleSaleInterleaved | docs/adr/002-availability-definition-sli.md:15 | no double sale in any interleaving |
| CommitOrder.NoDoubleBookingInterleaved | docs/adr/002-availability-definition-sli.md:15 | the same in every interleaving: a ticket promised twice was taken from the first reservation by a commit in between, or the second one itself, that cancelled it or started after its expiry; after a purchase only a cancel frees it |
| CommitOrder.PurchaseInterleaved | internal/repository/reservation_repository.go:108-116 | in any interleaving a purchase returns exactly its create's tickets less those other creates took in between, and all of them if none of those creates started after the expiry |
| Convergence.AnswersOfCompleteSweepsIff | internal/repository/reservation_repository.go:38-56 | for every interleaving, whatever the clocks: some serial run of its commits with complete sweeps gives the same answers if and only if nobody purchases or cancels a reservation that an earlier sweep had passed over |
| Convergence.NextSweepRepairs | internal/repository/reservation_repository.go:38-56 | then the tables of the two runs differ at every point by exactly the reservations passed over and still pending, and a sweep no earlier than the ones before makes them the same |
| Convergence.InOrderLeavesMissesUnused | internal/repository/reservation_repository.go:38-56 | commits in the order of their clocks meet that condition |
| Convergence.InOrderInterleavingsConverge | cmd/server/main.go:174-188 | so with commits in clock order every interleaving answers as a serial run with complete sweeps, and a sweep after the last command makes the tables the same |
| LateCommit.LateCommitHappens | internal/repository/reservation_repository.go:38-162 | a concrete interleaving of a slow create, a purchase and a sweep |
| LateCommit.LateCommitMisses | internal/repository/reservation_repository.go:38-56 | its sweep passes over a lapsed reservation, and its tables are not those of complete sweeps in commit order |
| LateCommit.NoSerialOrder | internal/repository/reservation_repository.go:38-162 | no order of these three commands one at a time ends in the same tables |
| LateCommit.LateCommitIsRepaired | internal/repository/reservation_repository.go:38-56 | its answers are nevertheless those of the three commands in commit order, and after any later sweep so are its tables |
| Store.ReservationRepository.SelectAvailableTickets | internal/repository/reservation_repository.go:285-321 | returns distinct eligible tickets, exactly as many as asked for, or reports too few or a negative limit |
| Store.ReservationRepository.CreateReservation | internal/repository/reservation_repository.go:347-438 | the loop over the entries, the insert, the generated update and every rollback together are the create transaction, with some legal choice of tickets |
| Store.ReservationRepository.UpdateReservations | internal/repository/reservation_repository.go:66-73 | the first half of each statement, row by row: exactly the matching reservations get the new status and are returned, once each |
| Store.ReservationRepository.UpdateTickets | internal/repository/reservation_repository.go:75-77 | the second half, row by row: exactly the tickets of the returned reservations are rewritten and returned, once each |
| Store.ReservationRepository.PurchaseReservation | internal/repository/reservation_repository.go:96-162 | the two loops with the purchase's condition, and the rollback when no ticket came back, are the purchase transaction: tables and answer |
| Store.ReservationRepository.CancelReservation | internal/repository/reservation_repository.go:58-94 | the two loops with the cancel's condition, and the rollback when no ticket was affected, are the cancel transaction |
| Store.ReservationRepository.ExpiredReservations | internal/repository/reservation_repository.go:38-56 | the two loops with the sweep's condition are the complete sweep, also when nothing matched |
| Allocation.LegalCreateExists | internal/repository/reservation_repository.go:323-340 | for every request and every table the database has a legal choice |
| Allocation.SelectionSeesTheOffer | internal/repository/reservation_repository.go:323-340 | what a create may take of a game and grade is as many tickets as the seat counts show available plus those a sweep now would free |
| Allocation.CreateSucceedsIff | internal/repository/reservation_repository.go:362-407 | a create succeeds exactly when the user exists, no quantity is negative, some quantity is positive, and each entry by itself fits that number; an empty request fails |
| Allocation.AllocationBounds | internal/repository/reservation_repository.go:363-426 | of each grade the new reservation holds tickets of the right game, at least the largest and at most the sum of that grade's quantities |
| Allocation.AllocationExact | internal/repository/reservation_repository.go:363-426 | with distinct grades it holds exactly the quantity of each |
| Placeholders.BuildInList | internal/repository/reservation_repository.go:388-402 | the loop fills the arguments with the reservation id and then the tickets, and the placeholders with `$2`, `$3`, ... |
| Placeholders.InListRoundTrip | internal/repository/reservation_repository.go:388-402 | reading the joined text against the arguments gives back the tickets in order, never the reservation id's slot, and is a syntax error exactly for no tickets |
| Service.ReservationService.CreateReservation | internal/service/reservation_service.go:98-139 | rejects a non-positive quantity, then a wrapped 64-bit total above the limit, without touching the tables, and otherwise is the repository's create with the expiry computed from the application clock |
| Service.WrappedTotalPasses | internal/service/reservation_service.go:105-121 | the check alone does not bound the total: it wraps around |
| Service.SeatLimitHolds | internal/service/reservation_service.go:105-121 | a create that succeeds asked for no more than the limit in true arithmetic, as long as entries times tickets stay below 2^63 |
| Service.ServiceCreateSucceedsIff | internal/service/reservation_service.go:106-121 | through the service a create succeeds exactly when the request is not empty, quantities are positive, their true sum is within the limit, the user exists and each entry fits the available and reclaimable tickets |
| Service.TotalIsTheNumberOfTickets | internal/service/reservation_service.go:105-113 | with distinct grades the true sum is the number of tickets that the reservation gets |
| Service.SeatLimitOverRuns | internal/service/reservation_service.go:115-121 | in no run does any reservation ever hold more tickets than the limit |
| Seed.SeedTickets | cmd/seed/main.go:173-197 | for any games and seats: exactly one available, unowned ticket for every pair, at the seat's price; the joint invariant holds |
| Opening.FirstCreateSucceedsIff | internal/repository/reservation_repository.go:323-407 | right after seeding, a create succeeds exactly for a known user, without negative quantities, with a positive one, and with no entry above the number of seeded seats of its grade |
| Opening.FirstAnswer | internal/repository/seats_repository.go:25-35 | right after seeding, every row of the seat query counts the seeded seats of its grade and price, all of them available |
| Opening.FirstAnswerIsComplete | internal/repository/seats_repository.go:25-35 | and every seeded seat is in one of the rows |
| SeatCounts.GetSeatsByGameID | internal/repository/seats_repository.go:24-59 | one row for every grade and price that occurs in the game, with the group's total, available, reserved and sold tickets |
| SeatCounts.AnswersMove | internal/repository/seats_repository.go:25-35 | the answers before and after any command: in the row of every grade and price the total stays, and exactly the command's tickets move, from available to reserved (create, less the reclaimed ones), reserved to sold (purchase), reserved or sold to available (cancel), reserved to available (sweep); a failed command moves none |
| SeatCounts.AnswersKeepTheGroups | internal/repository/seats_repository.go:25-35 | the two answers have the same grades and prices |
| SeatCounts.StatusesAddUp | internal/repository/seats_repository.go:25-35 | in every group available, reserved and sold add up to the total |
| SeatCounts.TotalsAddUp | internal/repository/seats_repository.go:25-35 | the totals of an answer add up to the tickets of the game |
| SeatCounts.GroupsNeverChange | internal/repository/seats_repository.go:25-35 | no run changes which tickets form a group, nor its total |
| SeatCounts.CreateMovesCounts | internal/repository/reservation_repository.go:399-402 | a create of k tickets with s reclaimed moves exactly k - s from available to reserved in any group |
| SeatCounts.SweepMovesCounts | internal/repository/reservation_repository.go:38-45 | a sweep adds exactly the reclaimable count to available |
| SeatCounts.PurchaseMovesCounts | internal/repository/reservation_repository.go:108-116 | a purchase moves exactly its tickets from reserved to sold |
| SeatCounts.CancelMovesCounts | internal/repository/reservation_repository.go:66-77 | a cancel moves exactly its tickets to available, from reserved or from sold |
| Grouping.GroupRows | internal/repository/reservation_repository.go:184-228 | the map-and-order loop gives one object per reservation in first-seen order, with the columns of its first row and its tickets in row order |
| Grouping.ApplyEffectiveStatus | internal/service/reservation_service.go:149-152 | the pass through the pointers rewrites every status to the effective one and nothing else |
| Grouping.GetUserReservations | internal/service/reservation_service.go:141-154 | both passes together; an empty result is reported as not found |
| Grouping.GroupsConcatenateToRows | internal/repository/reservation_repository.go:168-228 | for rows sorted by reservation the groups one after the other give back the rows |
| Grouping.TwoPassStatusIff | internal/domain/reservations.go:37-42 | the status after both passes is the effective one at the service's clock unless the repository's reading was past the expiry and the service's is not |
| Grouping.ShownIsSwept | internal/domain/reservations.go:37-42 | the status shown for a reservation is the one that a complete sweep at that moment stores |
| Grouping.ListInRowOrder | internal/repository/reservation_repository.go:184-228 | the list is in the order in which the rows first mention its reservations |
| Grouping.ListAgreesWithTables | internal/repository/reservation_repository.go:168-228 | a reservation is listed exactly when it is the user's and owns a ticket, with its own id, game and expiry, exactly its tickets, and the status a sweep would store: at the repository's reading in its answer, at the service's reading in the final one |
| RefreshTokens.AuthBundle.GenerateRefreshToken | authbundle/auth_bundle.go:239-266 | is the login step: a new token starts a chain |
| RefreshTokens.AuthBundle.ValidateRefreshToken | authbundle/auth_bundle.go:269-292 | accepts exactly the tokens that the database answers for and that are unrevoked and unexpired on both clocks |
| RefreshTokens.AuthBundle.RotateRefreshToken | authbundle/auth_bundle.go:295-316 | validates, revokes and issues; changes nothing when the validation or the revocation fails, and revokes only when the new token cannot be stored |
| RefreshTokens.AuthBundle.HandleRefresh | internal/handler/user_handler.go:43-57 | is the refresh step: two validations, then the rotation |
| RefreshTokens.IssuedTokenWorks | authbundle/auth_bundle.go:239-316 | what a login or refresh hands out is the new token, stored for the right user and valid exactly in time on both clocks; a refreshed token no longer validates, and no other token changes |
| RefreshTokens.OpenUntilSpent | authbundle/auth_bundle.go:113-158 | in any run an open token stays open exactly until a refresh in time spends it or its user's tokens are revoked |
| RefreshTokens.RefreshSucceedsIff | authbundle/auth_bundle.go:295-316 | a refresh succeeds exactly when the token is unspent, both validations are in time, the database revokes and stores, and the new token is fresh |
| RefreshTokens.RevokeUserEndsAll | authbundle/auth_bundle.go:146-158 | revoking a user's tokens ends all of them and nobody else's |
| RefreshTokens.RunKeepsLineage | authbundle/auth_bundle.go:239-316 | at any point of any run every token has at most one successor, a token with a successor is revoked, and every chain has at most one unrevoked token |
| RefreshTokens.ChainHasOneUser | authbundle/auth_bundle.go:310-310 | all tokens of a chain have the same user |
| RefreshTokens.SpentTokenNeverValidates | authbundle/auth_bundle.go:269-316 | a token that has a successor never validates again, at any clock: it is not found, or the database fails |
| RefreshTokens.RefreshSucceedsOnce | authbundle/auth_bundle.go:295-316 | no token is refreshed successfully twice |
| RefreshTokens.OpenTokensBoundedByLogins | authbundle/auth_bundle.go:239-316 | a user's unrevoked tokens never outnumber the user's logins and signups |
| Errors.MostImportantKindDecides | internal/handler/error_handler.go:17-58 | the status is that of the most important kind anywhere in the error tree, or 500 |
| Errors.WrappingKeepsStatus | internal/handler/error_handler.go:17-58 | wrapping to any depth does not change the status |
| Errors.JoinOrderKeepsStatus | internal/handler/error_handler.go:17-58 | neither does the order of joined errors |
| Errors.DatabaseErrorStatus | internal/repository/errors.go:44-65 | the status of any error after the repository's wrapper and any further wrapping |
| Errors.CodeClassStatus | internal/repository/errors.go:28-65 | every class of database codes keeps one status through any wrapping below and above the repository |
| Errors.SentinelStatus | internal/handler/error_handler.go:17-58 | the status of every single cause, in figures, through any wrapping |
| Errors.EarlierKindWins | internal/handler/error_handler.go:17-58 | of two causes in one tree the one earlier in the handler's order decides, whichever comes first in the tree |
| Errors.DriverFaultStatus | internal/repository/errors.go:44-65 | the status of missing rows, ended contexts and connection faults after the repository's wrapper and any wrapping on top |
| Refusals.RefusedForAnEntry | internal/repository/reservation_repository.go:313-319 | a create is refused for the first entry that cannot be served: a negative quantity is an error of the database, a quantity above what is available or reclaimable is too few tickets |
| Refusals.RefusedAsAWhole | internal/repository/reservation_repository.go:376-407 | when every entry can be served, a create is refused only for an unknown user or game, or else for asking for nothing |
| Refusals.RefusalStatus | internal/handler/error_handler.go:17-58 | the status of every refusal of a create, purchase or cancel through any wrapping: not found 404, too few tickets 409, unknown user or game 400, the rest 500 |

## Left out

- HTTP handlers, routing, JSON, cookies, logging, tracing and metrics: plumbing without state of its own.
- The PostgreSQL server and its driver: their snapshot, lock, re-check, commit and rollback rules are the steps of `Interleaving.dfy`; a failing statement is a rollback.
- A row that a selection locks and then rejects on the re-check stays locked in PostgreSQL; here it does not, which only allows more interleavings.
- Deadlocks and fairness: a transaction may always roll back, and nothing is claimed about when it gets its locks.
- The limit on the number of statement parameters.
- SHA-256, bcrypt, JWT signing and random generators: reservation ids are fresh, and hashes do not collide.
- Interleaved refresh requests: validation and revocation are separate statements and the revocation's row count is not checked, so lineage is claimed for sequential requests.
- `created_at`, `updated_at`, triggers, time zones and price formats.
- `GetReservationByID`, games, users and configuration: single lookups and flat checks. The detail view returns the raw status and need not agree with the list.
- SeatCounts.GetSeatsByGameID: the grouping that the query leaves to the database is a counting loop; the order of its rows is left open, as the query has none.
- `RevokeByUserID`: the model has it, and lineage covers runs in which it is used, but nothing in the repository calls it.
