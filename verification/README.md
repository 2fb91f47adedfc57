# Verified model of the feature-debate protocol and its neighbours

A feature debate refines the description of a ticket. Its row holds a seed, a current text, a
status, an in-flight reservation, a running cost and an effort score; below it are numbered rounds
(in review, accepted, rejected). Requests reserve the debate, call an AI provider without a lock and
insert a validated round; users accept, reject, undo, edit the seed, approve or abandon; scorers
come back late, in any order or never; and sweeps on several replicas retry missing scores. Nearly
every database transaction takes the debate-row lock first, so each transaction is one atomic step
here, and all the interesting interleavings happen between steps.

The project models that protocol as a state machine and proves what holds in every state any run can
reach, together with the read side that must agree with it, and some smaller pieces with proofs of
their own: ticket-tree walks, money arithmetic, the last-owner guard and the password-hashing gate.

## Structure

| file | content |
|---|---|
| Prelude.dfy, Text.dfy | Option, Result, truncating division; trimming in Go and in PostgreSQL, byte length |
| Debates.dfy | the rows, and what each transaction does to one debate row |
| Protocol.dfy | the tables, pending requests, scorer jobs and rollups; events, steps and runs |
| Lineage.dfy | the reference meaning of a history, and the main invariant |
| Runs.dfy | what whole runs can do to rounds; closed debates; undo as a rewind |
| Scores.dfy, Sweep.dfy | attribution and confluence of scores; spacing of claims |
| Money.dfy, Cents.dfy | totals, ledger, columns, budget; the cents rollup |
| Descriptions.dfy, Reservations.dfy | the description lock; mutual exclusion under a deadline |
| View.dfy | the versions rail, an older version, the effort chip |
| Store.dfy, Handlers.dfy | the transactions and handlers as methods over mutable tables, proved to be steps and runs of the protocol; a round request among others' events |
| Transactions.dfy | what each transaction means to its caller, said from outside |
| Starts.dfy | starting a debate in two attempts, among others' events |
| Tickets.dfy, Dollars.dfy, Owners.dfy, HashGate.dfy | date expansion and archiving; the dollar parser and printer; the last-owner guard; the Argon2 gate |

A row function (`Debates.AcceptRow`, ...) says what one transaction does to one debate row;
`Protocol.Step` lifts it to the tables and `Protocol.Run` to runs. The methods of
`Store.Database` overwrite fields statement by statement and are proved to commit exactly that step
or to roll back. The handlers, undisturbed, are proved to be runs from whatever world they start in, and
`Handlers.RoundAmongOthers` follows a round request whose steps interleave with any other events.

## Readings

* The clock is one integer that never runs backwards; it stands for `now()` and `time.Now()`.
  A sweep carries its own reading of the time. Uuids are a counter.
* A debate is named by its position. A scorer job names its debate and its round;
  `Runs.RunKeepsOneHome` shows that the round id alone would find the same row.
* The partial unique indexes (one active debate for a ticket, one in-review round for a debate) are
  guards of the two inserts.
* Refiner and scorer replies are arbitrary. A scorer job may come back any number of times and a
  rollup may land late, in any order, or be lost; all of that is more than the program does.
* `\v` in the set `E' \t\n\r\f\v'` that the SQL trims is read as a vertical tab, as the repository means it.
  PostgreSQL's documentation does not list it among the escapes of E-strings; read as the letter v, the CHECK on
  edited_text would make accept fail on an edit of nothing but v's and space, which `Lineage.AcceptIsExact` does not
  show, while `Lineage.ShippedTextsAgreeUnderCheck` holds for either reading.
* The description `StartDebate` snapshots is an arbitrary parameter, which covers a stale read.
* A charge that is negative is not written to the ledger but is added to the total, as in the code;
  this is why some statements ask for non-negative prices, and `Money.LedgerMatchesTotalIff`
  says that they have to.

## Model

| member | source | states |
|---|---|---|
| Lineage.LineageHolds | internal/models/queries.go:2639-2991 | In every state any run can reach, round numbers are exactly 1..n, at most the last round is in review, each round was given the text shipped by the latest accepted round below it (the seed if none), current_text is that text after all rounds, and an approved text is the final one. |
| Lineage.RunKeepsRows | internal/models/queries.go:2639-2991 | The full per-debate invariant survives every interleaving of reservations, slow and stale AI calls, inserts, decisions, undos, seed edits, scores, sweeps, charges and crashes. |
| Lineage.UndoIsExactInverse | internal/models/queries.go:2946-2991 | Undo from N is refused exactly when the debate is closed or has no round N; otherwise rounds 1..N-1 stay as they were, nothing is left pending, and current_text is what round N was given as input. |
| Lineage.UndoTouchesNothingElse | internal/models/queries.go:2946-2991 | An undo that goes through changes the rounds, the text and the shown score of the row, and neither its bill, reservation, lease nor the name of the last scorer. |
| Lineage.AcceptIsExact | internal/models/queries.go:2847-2905 | Accept succeeds exactly for the pending round of an active debate with an edit that is not blank; each sentinel error has its exact condition. Only that round and the text change; the document reads the submitted text byte for byte, or the AI text when the two differ in outer space only, and only in the first case an edit is stored; both shipped-text rules return what the document reads. |
| Lineage.RejectIsExact | internal/models/queries.go:2910-2932 | Reject succeeds exactly for the pending round of an active debate, each error has its condition, nothing changes but the decision, and the text stays what that round was given. |
| Lineage.ShippedTextsAgreeIff | internal/models/models.go:350-358 | The Go rule and the SQL CASE return the same bytes exactly when no stored edit is blank in Unicode only, or the edit equals the AI text anyway. |
| Lineage.ShippedTextsAgree | internal/models/queries.go:2866-2902 | On every round accept can leave behind the two rules agree, because a blank edit is refused under the wider trim; the shipped text is never blank. |
| Lineage.ShippedTextsAgreeUnderCheck | migrations/000037_round_edited_text.up.sql:20-22 | Whatever set of characters the SQL trims: with the CHECK on edited_text over the same set, the SQL rule ships every stored edit, as the Go rule does. |
| Lineage.RecomputeIsTextAfter | internal/models/queries.go:2963-2976 | What undo reads back with one SQL expression is the text the kept history means, seed included. |
| Lineage.MaxNumberIsLength | internal/models/queries.go:2735-2741 | On a history numbered 1..n, MAX(round_number) is n, so the next number is n+1. |
| Runs.RunEvolves | internal/models/queries.go:2712-2991 | Over any run, decided rounds are never rewritten, a pending one changes only by its decision, and the id of a deleted round never names a round again although numbers are reused. |
| Runs.RunKeepsOneHome | internal/models/queries.go:3034-3053 | No round id ever belongs to two debates, so a lookup by id alone finds the round of the debate it was billed to. |
| Runs.ClosedForever | internal/models/queries.go:1463-1542 | After approve or abandon, the status, seed, texts and rounds of a debate never change again; only charges and scores may still arrive. |
| Runs.UndoRewindsAnyRun | internal/models/queries.go:2946-2991 | After any run, from a moment with nothing pending, that undoes none of the rounds of that moment and does not edit a bare seed: undoing the rounds added since puts back that moment's text and, up to scorer prices that came in meanwhile, its rounds; or there is nothing to undo because they are still there. |
| Scores.RunKeepsJobs | internal/handlers/debate.go:868-900 | Every scorer call, from an accept or from a sweep, was given exactly the text its round shipped, for as long as that round lives. |
| Scores.DeletedRoundNeverScored | internal/models/queries.go:3034-3053 | A late score for a round deleted by undo changes nothing in any later state: not a new round that reuses its number, not the total, not the ledger. |
| Scores.ScoreIsFreshest | internal/models/queries.go:3003-3027 | In every reachable state the displayed score, hours, reasoning, provider and model are, column by column, those of one result: the first one delivered for the highest-numbered round scored since the last undo; with none delivered nothing is shown. |
| Scores.ScoreIsExact | internal/models/queries.go:3003-3053 | A result for a live round sets the scorer price of that round and no other, is added to the total, and takes the display exactly when the debate is not abandoned and no round at or above it is the scored one: score, hours, reasoning, provider and model then are those of the result, scored now. |
| Scores.DisplayNamesLiveRound | internal/models/queries.go:2979-2991 | A set last_scored_round_id always names a live accepted round of that debate. |
| Scores.DeliveryOrderIsIrrelevant | internal/handlers/debate.go:919-967 | Two runs whose scorers brought back the same results in different orders name the same scored round, and with one result per round show the same score, hours, reasoning, provider and model. |
| Money.BooksOfARun | internal/models/queries.go:938-955 | In every reachable state a debate's total is the sum of the charges committed to it and its part of the ledger is the sum of the positive ones. |
| Money.LedgerMatchesTotalIff | internal/models/queries.go:2783-2801 | total_cost_micros never exceeds the debate's ledger entries and equals their sum exactly when no charge was negative. |
| Money.ColumnsWithinLedger | internal/models/queries.go:3034-3053 | With non-negative prices, the cost columns of the surviving rounds never exceed the ledger, whatever was undone. |
| Money.LedgerOnlyGrows | internal/models/queries.go:925-955 | No run removes or rewrites a ledger entry. |
| Money.ExceededIff | internal/handlers/debate.go:148-163 | The budget is exceeded exactly when the org has a cap and the whole cents it spent in the month have reached it, equality included. |
| Money.OrgSpendIsMonthly | internal/models/queries.go:907-923 | What counts as spent: each ledger entry of the org from the start of the month, included, to its end, excluded, adds its cost wherever it stands, and any other adds nothing. |
| Money.BudgetStaysExceeded | internal/handlers/debate.go:148-163 | Once the month's budget check says exceeded it says so after every continuation, unless the cap is raised or cleared. |
| Cents.DeltasTelescope | internal/ai/pricing.go:130-133 | For any sequence of charges, the cumulative-floor deltas add up to the whole cents of their sum. |
| Cents.CentsAreConserved | internal/models/queries.go:3172-3188 | In every reachable state, cents written, cents on their way and cents lost together are the whole cents of each debate of the project. |
| Cents.RecordedCentsAreTight | internal/handlers/debate.go:962-965 | With non-negative prices a project is never over-reported, even with late or lost rollups, and once all have landed a project of k debates is under-reported by less than k cents. |
| Descriptions.RunKeepsOneActive | internal/models/queries.go:2466-2507 | At most one debate per ticket is active in every state a run reaches. |
| Descriptions.WhoWritesDescriptions | internal/models/queries.go:1354-1445 | The only events that change a ticket's description are an approve of its active debate and a write while no debate is active on it. |
| Descriptions.DescriptionLocked | internal/models/queries.go:1354-1445 | As long as a debate stays active the guarded ticket writes cannot change its ticket's description. |
| Descriptions.ApproveIffSnapshotWasCurrent | internal/models/queries.go:1463-1505 | Approve of an active debate succeeds exactly when the snapshot taken at start was the description at any earlier active moment; it then writes current_text to that ticket only. |
| Descriptions.StaleStartNeverApproves | internal/models/queries.go:2466-2507 | A new debate reads as the description it was started from, with no rounds and no cost. One inserted with an outdated description can never be approved, and one inserted with the current one never fails for that reason. |
| Descriptions.LockedBetweenAnyTwoMoments | internal/models/queries.go:1354-1505 | The same for any two moments of any run of a fresh deployment. |
| Reservations.TimelyCallsNeverOverlap | internal/models/queries.go:2639-2684 | If every request inserts or clears before its reservation is StaleReservationAge old, two AI calls for one debate are never out at once, in any run including undo, approve, abandon and crash. |
| Reservations.NoOverlapFromGenesis | internal/models/queries.go:2639-2684 | The same from a fresh deployment. |
| Reservations.OverlapIffStale | internal/models/queries.go:2639-2671 | A second call starts beside a pending one exactly when the debate is active and the pending reservation has reached the stale age: the deadline is strict. |
| Reservations.AbandonedHoldsNoReservation | internal/models/queries.go:1513-1542 | An abandoned debate holds no reservation in any reachable state, whatever calls were out. |
| Reservations.InsertIsExact | internal/models/queries.go:2712-2803 | In a reachable debate the insert is refused exactly for a closed debate, else for a changed text, else for a pending suggestion, each with its error, and never for its number; otherwise it appends round n+1 with the current text as input and everything the reply brought, bills it once and leaves the earlier rounds alone. |
| Sweep.ClaimsAreSpaced | internal/models/queries.go:3106-3166 | Across any number of replicas, consecutive claims of one debate are at least min(base * 2^min(j,30), max) apart, j counting earlier claims. |
| Sweep.ClaimsInWindow | internal/models/queries.go:3106-3166 | n further claims after claim i take at least n backoffs of claim i, which bounds the claims in any window. |
| Sweep.ClaimsInAnyWindow | internal/models/queries.go:3106-3166 | In any run and any window of length L, starting at a claim or not, a debate is claimed at most 1 + L / b times, b being the backoff it had reached when the window opened. |
| Sweep.SpacingIsGeometric | internal/models/queries.go:3106-3166 | Before the cap applies, n claims take at least base * (2^n - 1). |
| Sweep.BackoffIsExact | internal/models/queries.go:3106-3166 | The backoff starts at the base, doubles with each earlier claim until the cap, stays there, and no longer doubles after thirty claims. |
| Sweep.LeaseOnlyMovesForward | internal/models/queries.go:3106-3166 | No event of any run moves a lease backwards or drops it. |
| Sweep.LeaseIsBounded | internal/models/queries.go:3106-3166 | In every reachable state a lease ends strictly after the last claim and at most the maximum backoff later, and after exactly the base backoff for the first claim. |
| Sweep.SimultaneousSweepsAreDisjoint | internal/handlers/debate.go:981-995 | Two sweeps reading the same instant never claim the same debate, whatever runs between them. |
| Sweep.ScoredLatestIsNotClaimable | internal/models/queries.go:3003-3027 | A result for the latest accepted round always lands and takes the debate out of reach of the sweep. |
| Sweep.EveryClaimGetsItsJob | internal/models/queries.go:3146-3165 | Every claimed debate gets exactly one job, for its latest accepted round and with the text that round ships; only claimed debates get one, and no more than a batch. |
| View.BuildDebateView | internal/handlers/debate_view.go:72-133 | The rail lists exactly the decided rounds, newest first, with labels counting accepted rounds, staff-only fields, the restore target, and the one latest accepted round marked current; the head names that round, its provider and decision time; the pending card and the edit flag match the rounds. |
| View.NewestFirstOf | internal/handlers/debate_view.go:112-121 | Reversing the slice and flagging the first match leaves exactly one current entry, the latest accepted round, if there is one. |
| View.ReverseAndMark | internal/handlers/debate_view.go:112-121 | The slice comes back reversed, with nothing changed but the flag, which is set on the first accepted entry with the latest id only. |
| View.ReverseInPlace | internal/handlers/debate_view.go:113-115 | Swapping from both ends reverses the slice. |
| View.MarkCurrent | internal/handlers/debate_view.go:116-121 | Only the first accepted entry with the latest id is flagged, and nothing else of any entry changes. |
| View.ShowVersion | internal/handlers/debate.go:1392-1429 | Shows the seed or the shipped text of an accepted round with its label and restore target, and nothing exactly when no accepted round has that id. |
| View.RestoreShowsTheDisplayedText | internal/handlers/debate.go:1404-1421 | At the moment it is shown: undoing to the restore target of a displayed version makes current_text the displayed text, or undo refuses and the text already equals it. |
| View.RailEntriesRestore | internal/handlers/debate_view.go:72-133 | At the moment the rail is built: the same for every accepted entry; the entry marked current shows current_text. |
| View.RailEntryIsVersion | internal/handlers/debate_view.go:72-133 | Opening an accepted entry of the rail shows that version, with the same label and restore target. |
| View.LateRestoreShowsTheDisplayedText | internal/handlers/debate.go:1303-1323 | Whatever others do between showing a version and restoring it: if the debate is still active and the round shown (for the original, the seed) is still there, the restore gives the displayed text, or refuses and the text already equals it. |
| View.LateRestoreIff | internal/models/queries.go:2946-2991 | At any later moment of an active debate, the restore of an earlier page does so exactly when the rounds now below its number still read as displayed. |
| View.ReusedNumberMisleads | internal/handlers/debate.go:1404-1421 | The number alone is not enough: from any active debate whose last round is accepted, show it, undo it, accept another suggestion; the restore of the old page then finds nothing to undo over the text of the new suggestion. |
| View.LabelsFollowRounds | internal/handlers/debate_view.go:87-105 | Version labels start at 1 and grow strictly with accepted rounds, so a label names one version. |
| View.EditOfferedIffTaken | internal/handlers/debate_view.go:131-131 | The page of an active debate offers the seed edit exactly when a well-formed edit would be taken, and the edit then becomes seed and text. |
| View.BuildEffortChip | internal/handlers/debate_view.go:140-160 | Rescoring exactly when the latest accepted round is not the scored one; polling only while active and within the window. |
| View.ClaimableIffRescoringAndDue | internal/models/queries.go:3113-3129 | A debate is claimable exactly when its chip shows rescoring, it is not abandoned, its latest accept is old enough and its lease has elapsed; a polling chip is never claimable when pollWindow <= minAge. |
| View.NothingToScore | internal/handlers/debate_view.go:140-160 | With nothing accepted the chip is quiet and the sweep has nothing to claim. |
| Store.Database.StartDebate | internal/models/queries.go:2466-2507 | One attempt: inserts an active debate around the description read earlier, or answers with the one already active on the ticket. |
| Starts.CanGiveUpIffActive | internal/models/queries.go:2461-2507 | From any world with at most one active debate per ticket, as every reachable one: others can make both attempts miss exactly when a debate is active on the ticket at the first insert; when none is, the loop answers whatever others do. |
| Starts.MissMeansClosed | internal/models/queries.go:2466-2507 | An attempt misses only because the debate it ran into was approved or abandoned between its two statements. |
| Starts.AnswerIsActive | internal/models/queries.go:2466-2507 | Whatever others do in its gaps, the answer of the two-attempt loop is true at the statement that gave it: a new debate, inserted by this call alone and reading as the description, or the debate active on the ticket; giving up has changed nothing. |
| Starts.TwoAttemptsCanMiss | internal/models/queries.go:2461-2465 | From every such world with an active debate: abandoned, started again and abandoned again, it is there at both inserts and gone at both selects. |
| Transactions.StartIsExact | internal/models/queries.go:2466-2507 | The insert adds an active debate that reads as the description, with no rounds and no cost, unless one is active; an unknown ticket is an error. |
| Transactions.ApproveIsExact | internal/models/queries.go:1463-1505 | Approve goes through exactly for an active debate whose ticket reads as when it was started; ticket and record take the current text, nothing else changes, and each error has its condition. |
| Transactions.AbandonIsExact | internal/models/queries.go:1513-1542 | Abandon goes through exactly for an active debate, ends it abandoned without a reservation, and changes nothing else. |
| Transactions.ClosedByItsOwnEvent | internal/models/queries.go:1463-1542 | In every run, a debate is approved only because an approve of it went through and wrote its ticket with the text it was approved with, and abandoned only because an abandon of it did. |
| Transactions.DescriptionWriteIsExact | internal/models/queries.go:1416-1445 | The write goes through exactly when the ticket exists and no debate is active on it; the description then is the text given, and no other ticket, debate or ledger entry differs. |
| Transactions.TicketWriteIsExact | internal/models/queries.go:1354-1393 | The same for the whole-ticket update, which also passes under a lock exactly when it hands the description back unchanged, and then changes nothing. |
| Transactions.UnknownRound | internal/models/queries.go:2847-3053 | A round that is not there is reported as missing by accept, reject and scorer result alike. |
| Transactions.UndoFromNothing | internal/handlers/debate.go:1117-1140 | An undo from a number below 1 is a bad request. |
| Transactions.SeedIsExact | internal/handlers/debate.go:1458-1499 | A blank or overlong text is refused first, then a closed debate, a reservation, existing rounds, each with its error; otherwise the trimmed text becomes seed and document, and nothing else changes. |
| Transactions.AcceptStartsItsJob | internal/handlers/debate.go:804-900 | An accept that goes through starts one scorer call, for its own round and with the text the document has just taken; one that does not changes nothing. |
| Transactions.UsableIff | internal/handlers/debate.go:525-541 | A reply is taken for a suggestion exactly when it was not cut off, is not blank, and is long enough in UTF-8 bytes once trimmed. |
| Transactions.ChargeIsExact | internal/models/queries.go:938-955 | A positive charge is one entry at the end of the ledger, as given; any other is none. |
| Transactions.ScoreIsCommitted | internal/handlers/debate.go:919-960 | A scorer result for a live round prices that round, adds to the total, shows its columns if nothing fresher is shown, and enters the ledger under the org of the debate, and nothing else changes. |
| Transactions.ClaimRowIsExact | internal/models/queries.go:3106-3166 | A claim counts one more attempt and leases the debate from the sweep's clock by min(base * 2^min(attempts,30), max). |
| Transactions.ClaimIsExact | internal/models/queries.go:3106-3166 | A claim leases every debate it names, and no other row or table differs. |
| Transactions.CentsAreAdded | internal/models/queries.go:3172-3188 | The cents of the project grow by the delta, those of every other project stay, and a zero delta writes nothing. |
| Store.Database.ReserveInFlight | internal/models/queries.go:2639-2671 | Takes or steals the reservation and hands out the snapshot, or fails without a trace. |
| Store.Database.ClearInFlight | internal/models/queries.go:2677-2684 | Drops whatever reservation the debate holds. |
| Store.Database.InsertDebateRoundTx | internal/models/queries.go:2712-2803 | Round, ledger entry, total and cleared reservation commit together or not at all; returns the cents delta of the total. |
| Store.Database.RecordDebateSpendTx | internal/models/queries.go:938-955 | Appends exactly one entry, or none for a cost that is not positive. |
| Store.Database.AcceptRound | internal/models/queries.go:2847-2905 | Commits the accept step of the protocol or rolls back with its sentinel error. |
| Store.Database.RejectRound | internal/models/queries.go:2910-2932 | Commits the reject step or rolls back with its sentinel error. |
| Store.Database.UndoRoundsFrom | internal/models/queries.go:2946-2991 | Commits the undo step or rolls back with its sentinel error. |
| Store.Database.UpdateDebateSeed | internal/models/queries.go:3194-3227 | Commits the seed edit or rolls back: only an active, idle debate without rounds takes it. |
| Store.Database.ApproveDebate | internal/models/queries.go:1463-1505 | Writes the ticket and closes the debate together, or neither. |
| Store.Database.AbandonDebate | internal/models/queries.go:1513-1542 | Closes an active debate and drops its reservation. |
| Store.Database.ApplyScoreResult | internal/handlers/debate.go:919-960 | Scorer cost, ledger, conditional score and total commit together, or nothing when the round is gone; returns the cents delta. |
| Store.Database.UpdateTicketDescription | internal/models/queries.go:1416-1445 | Writes a description only while no debate is active on the ticket. |
| Store.Database.UpdateTicket | internal/models/queries.go:1354-1393 | The same guard, except that the unchanged description passes. |
| Store.Database.IncrementProjectCostCents | internal/models/queries.go:3172-3188 | Adds the delta to the project's cents and skips a zero delta. |
| Store.Database.ClaimStaleEffortScores | internal/models/queries.go:3106-3166 | Claims eligible, unlocked rows in lease order: a row left waiting means a full batch of rows leased no later. Advances exactly their leases and returns the shipped text of each. |
| Handlers.CreateRound | internal/handlers/debate.go:416-579 | From whatever world it finds, the undisturbed request is a run of the protocol, and over budget it touches nothing; its answer tells exactly what happened. |
| Handlers.OutcomesAreExact | internal/handlers/debate.go:416-579 | In a reachable debate: not reserved iff closed or held, no suggestion iff granted and the reply unusable, not inserted iff granted and a suggestion is pending, created iff all guards hold; there is no other answer. All but the last leave rounds, text, bill, ledger and cents untouched and no reservation of the request. |
| Handlers.ReserveIsExact | internal/models/queries.go:2639-2671 | A reservation is granted exactly on an active debate without a live one; it then names the new request and the time, the request remembers the current text, and nothing else changes; refused, nothing at all. |
| Handlers.RoundAmongOthers | internal/handlers/debate.go:497-567 | In the middle of any run: whatever others do while its call is out and after its reply, a granted request adds and bills exactly one round, whose input is both the text it reserved and the text at that moment, if the guards hold when the reply comes; otherwise it adds and bills nothing, and its clear drops the reservation. The round stays at its place as it was born unless undone. |
| Handlers.RequestInRun | internal/handlers/debate.go:497-567 | Nothing but its own reply, clear or crash ends or changes a pending request, and its id is never given out again. |
| Handlers.ReserveThenInsert | internal/handlers/debate.go:497-567 | Reservation, call, and insert or clear leave exactly the tables of the run and answer accordingly. |
| Handlers.InsertOrClear | internal/handlers/debate.go:497-567 | Every way out but success clears the reservation; each answer names what happened: an unusable reply, the error of the insert, or a round. |
| Handlers.RoundIsARun | internal/handlers/debate.go:416-579 | From any world, the tables a request leaves are those of the protocol run reserve, wait, reply, clear, rollup, for every reply. |
| Handlers.RoundIsAdded | internal/handlers/debate.go:416-579 | Undisturbed, on an active debate with no live reservation and nothing pending, a usable reply adds one round made from the current text and bills it once. |
| Handlers.ApplyScoreResult | internal/handlers/debate.go:919-967 | The transaction followed by its cents rollup, or nothing when the round is gone. |
| Handlers.RetryStaleEffortScores | internal/handlers/debate.go:981-1029 | From whatever world it finds, a sweep is the run of one claim, then, for each claimed debate whose call succeeds, its result exactly once, some time later, followed by its cents, in some order, and nothing else. |
| Handlers.ResultAmongOthers | internal/handlers/debate.go:919-1029 | A claimed job in the middle of any run: its scorer was given what its round ships if the round still lives, and its result charges and scores the debate as it is at that moment, or changes nothing if the round is gone. |
| Handlers.ScoreClaims | internal/handlers/debate.go:992-994 | The loop over the claims applies every result that came back, once each. |
| Tickets.ExpandTouchesOnlyAncestors | internal/models/queries.go:1265-1306 | On any data, cycles included, the walk changes nothing but dates of the next five ancestors, each left alone or given exactly its hull with the child. |
| Tickets.ExpandIsPrefix | internal/models/queries.go:1265-1306 | On a chain without repeats the walk widens exactly the ancestors before the first one that already contains the child. |
| Tickets.HullIsLeast | internal/models/queries.go:1265-1306 | The range an ancestor is widened to is the least one around its old range and the child's. |
| Tickets.EarlyExitIsFullWalkIff | internal/models/queries.go:1265-1306 | On any chain that ends, the early exit widens all of it exactly when every ancestor beyond its stop, and beyond the fifth, already contains the child. |
| Tickets.EarlyExitRefinesFullWalk | internal/models/queries.go:1265-1306 | With nested ancestors, at most five, every ancestor ends with the hull of its old range and the child's, the whole path is nested, and no other ticket changes. |
| Tickets.EarlyExitCanStopTooSoon | internal/models/queries.go:1265-1306 | Without nesting the early exit can leave a grandparent too narrow. |
| Tickets.EndingChainIsDistinct | internal/models/queries.go:1265-1306 | A parent chain that ends visits no ticket twice. |
| Tickets.TicketTable.ExpandParentDates | internal/models/queries.go:1265-1306 | The loop with its two date checks and early exit is the five-step walk. |
| Tickets.TicketTable.Subtree | internal/models/queries.go:1571-1608 | The deduplicating recursion terminates on any parent map and returns exactly the descendants. |
| Tickets.TicketTable.ArchiveTicket | internal/models/queries.go:1571-1591 | Stamps every descendant and touches nothing else. |
| Tickets.TicketTable.RestoreTicket | internal/models/queries.go:1593-1608 | Clears the stamp of every descendant and touches nothing else. |
| Tickets.RestoreUndoesArchiveIff | internal/models/queries.go:1571-1608 | Restore after archive leaves the whole subtree unarchived; it is the starting table exactly when nothing below was archived before. |
| Dollars.IsAllASCIIDigits | internal/handlers/orgs.go:762-769 | True exactly when every character is 0 to 9. |
| Dollars.PadFraction | internal/handlers/orgs.go:808-811 | Right-pads the decimals to two digits. |
| Dollars.ParseUSDCents | internal/handlers/orgs.go:778-833 | The loop-and-return parser, computing in 64-bit integers, gives the outcome of the specification. |
| Dollars.NothingOverflows | internal/handlers/orgs.go:813-828 | Once the dollars are within the bound, neither the product nor the sum leaves int64. |
| Dollars.ParseMeans | internal/handlers/orgs.go:778-833 | On a string of the grammar the outcome follows from its digits alone: the exact cents, too many decimals, out of range, or beyond int64. |
| Dollars.UnreadableIff | internal/handlers/orgs.go:778-833 | A string is "not a number" exactly when it is outside the grammar, or has at most two decimals and dollars beyond int64. |
| Dollars.AcceptedValueIsExact | internal/handlers/orgs.go:778-833 | An accepted string denotes exactly its decimal value in cents, within 0..100,000,000. |
| Dollars.DollarSignIsOptional | internal/handlers/orgs.go:778-786 | One dollar sign in front, and space before it, after it and at the end, make no difference to the outcome. |
| Dollars.DoubleDollarSign | internal/handlers/orgs.go:778-786 | A second dollar sign is not a number. |
| Dollars.OneDollarSignOnly | internal/handlers/orgs.go:778-786 | Neither is an empty text, nor anything that still starts with a dollar sign. |
| Dollars.PrintedReads | internal/handlers/orgs.go:841-854 | What the printer writes for a non-negative amount is in the grammar, with the right digits. |
| Dollars.NegativesAreUnreadable | internal/handlers/orgs.go:841-854 | A printed negative amount is never read back. |
| Dollars.RoundTripIff | internal/handlers/orgs.go:778-854 | parse(format(c)) = c exactly for c in 0..100,000,000. |
| Owners.RefusedIffItWouldOrphan | internal/models/queries.go:717-789 | The guard refuses exactly the removals and demotions that would take an org from some owner to none. |
| Owners.ChangeIsExact | internal/models/queries.go:717-789 | Seat by seat: a removal that goes through leaves no row, a role change the new role, every other seat is as it was; a missing member is reported exactly for a seat that is not there and not refused as last owner. |
| Owners.StepOnSeats | internal/models/queries.go:416-789 | Every event of the interleaving touches at most its own seat: the founder becomes owner, an invited user gets the invited role unless seated, and a commit makes its change. |
| Owners.StepOnGuards | internal/models/queries.go:692-789 | A guarded transaction enters with the owners of that moment unless another holds an owner row of its org, and it ends by its own commit or rollback only. |
| Owners.EveryOrgHasAnOwner | internal/models/queries.go:692-789 | No interleaving of creations, guarded removals, demotions and promotions (lock first, write later), rollbacks and invitation accepts leaves an org that was ever created without an owner. |
| Owners.RefusalIsExactInAnyRun | internal/models/queries.go:692-789 | However transactions interleave, the decision taken on the owners seen at lock time is still exact at commit time. |
| Owners.OrgMemberships.RemoveOrgMemberGuarded | internal/models/queries.go:717-750 | After success the seat is gone and every other seat as before; the last owner is refused exactly when the org would have none; a missing member is reported exactly for a seat that is not there. |
| Owners.OrgMemberships.UpdateOrgMemberRoleGuarded | internal/models/queries.go:755-789 | After success the seat has the new role and every other seat is as before; a demotion is refused exactly when the org would have no owner; a missing member is reported exactly for a seat that is not there. |
| Owners.OrgMemberships.InsertOrgMembershipIfAbsent | internal/models/queries.go:588-597 | Adds a member, and never changes the role of an existing one. |
| HashGate.RunBalanced | internal/auth/hashgate.go:67-161 | In every interleaving of arrivals, sends, expiries, releases, saturations and resizes, each channel holds exactly as many tokens as its callers still hold, and no more than its capacity. |
| HashGate.NeverMoreThanTheSize | internal/auth/hashgate.go:76-133 | Sized once before serving, the slots out never exceed the size; a size that is not positive leaves the default bound in force. |
| HashGate.ResizeIsSafeIffIdle | internal/auth/hashgate.go:70-83 | For every balanced state and size: after a resize every run keeps the slots out within the new size exactly when, at that moment, nobody waits for the gate, nobody holds a slot and no saturation is filling it. |
| HashGate.ResizingWhileServingExceedsTheSize | internal/auth/hashgate.go:70-83 | An instance: a gate of size 1, resized to 1 while a slot is out, lets two computations run. |
| HashGate.CallersAreAccountedFor | internal/auth/hashgate.go:110-133 | In every run, the callers that arrived and were not cancelled are those still waiting and those answered, each once, with a slot or busy. |
| HashGate.ReleaseNeverBlocks | internal/auth/hashgate.go:120-133 | The token a release wants back is always in its channel. |
| HashGate.GivenBackIsFree | internal/auth/hashgate.go:110-133 | Once the slots of a channel are given back all its capacity is free again. |
| HashGate.EachTokenIsFreedOnce | internal/auth/hashgate.go:120-133 | Over any run and however often it is released, a slot gives back exactly the tokens it held, once; unreleased it gives back none. |
| HashGate.ReleasedIsARun | internal/auth/hashgate.go:143-161 | A complete release is a run of the gate and keeps it balanced. |
| HashGate.SaturationIsUndone | internal/auth/hashgate.go:143-161 | Saturating leaves no room, and its release hands back exactly the room there was. |
| HashGate.HashSlots.SetHashConcurrency | internal/auth/hashgate.go:76-83 | Installs a new channel, or ignores a size that is not positive. |
| HashGate.HashSlots.HashGate | internal/auth/hashgate.go:88-102 | Hands out the current channel, building the default one when there is none. |
| HashGate.HashSlots.AcquireHashSlot | internal/auth/hashgate.go:110-133 | Busy for a cancelled caller before anything is touched; otherwise a slot exactly when there is room and the wait is not over; either way it no longer waits. |
| HashGate.HashSlots.Release | internal/auth/hashgate.go:128-128 | The first call receives one token for each one held, later calls do nothing. |
| HashGate.HashSlots.SaturateForTest | internal/auth/hashgate.go:143-161 | Fills the channel and holds exactly the tokens it sent. |

## Left out

- Store.Database.StartDebate: one attempt, with nobody between its insert and its select; the two-attempt loop among other transactions is `Starts.Start`.
- Handlers.RetryStaleEffortScores: the method is a sweep with nobody in between; `Handlers.ResultAmongOthers` follows each claimed job among others' events.
- Owners.EveryOrgHasAnOwner: the owner rows are read and locked in one step; how READ COMMITTED re-checks rows while a lock is waited for is not modelled.
- HashGate.HashSlots.AcquireHashSlot: the method is one caller on its own; waiting callers interleave in the state machine instead, where real time is an expiry that may come at any moment.
- Protocol.Step: a sweep may claim any eligible batch; that it takes rows in lease order is proved on the method `Store.Database.ClaimStaleEffortScores`.
- Billing of a scorer call whose round was undone meanwhile: the transaction rolls back with its charge, so the total equals the ledger but not every call is billed.
- Who holds a reservation: insert and clear do not compare request ids, so mutual exclusion is proved under the deadline only.
- Whether scorer calls of two sweeps for one debate can be out together: a batch is scored in sequence and a call may outlast its lease (internal/handlers/debate.go:977-994), so only the spacing of claims is proved.
- The per-user round caps and the daily fuse of CreateRound, which only refuse earlier, and provider selection and feedback length checks.
- ComputeCostMicros and its price table: a linear expression over a constant table, with no state.
- The month and category columns of project_costs: the cents of a project are summed over all months.
- Overflow of int64 in totals, and formatting the smallest int64; amounts are unbounded integers except in the dollar parser, where the bound is proved.
- The floating-point interval arithmetic of the backoff: it is exact in the model.
- Deletion of tickets, projects and users with its cascades, and the claim's joins with ticket and project rows.
- The token counts, unified diff, triggering user and created_at of a round, which nothing modelled here reads.
- HTTP handling, templates, logging and error wording, sessions, authentication other than the hashing gate, password hashing itself, storage, mail, websockets, and the AI provider adapters and prompts.
