# tokumai: the account book, proved

tokumai sells answers of language models from inside an enclave. What it knows of anybody is one
account book: prepaid credit, a plan's monthly allowance, holds of requests being answered, which
payment belongs to whom, which notes were minted and spent. The book lives in the enclave's memory
and is written behind, sealed, to a host that may stop, lose its answers, or start over from its
files. This project models that book and the arithmetic beneath it, and proves what the program
relies on, for every input and every run.

Five parts:

1. **The sealed book** (`Journal`, `OldJournal`, `Host`, `Witness`, `Book`, `BookSafety`, `Rollback`,
   `Recovery`). Bytes of the journal, the host's two files, the enclave's queue and writer, folds into
   snapshots, crashes, restarts and the witness's marks, as one state machine. Recovery always gives
   the book after a prefix of the history with everything confirmed in it.
2. **The ledger** (`Sums`, `Ledger`, `LedgerSafety`, `LedgerRuns`, `Holds`, `Pockets`, `TornStart`,
   `Crashes`). A purchase or a grant can be spent by its account until its end. A request holds its
   worst case over several pockets and settles at its cost. Nothing appears or disappears, a hold
   settled is a plain charge, and what a crash between one operation's records makes of that, to the
   unit and over whole runs, for each operation of several records: hold, settlement, and the release
   at a start.
3. **Plans** (`Calendar`, `Slices`, `Plans`, `PlanBook`, `PlanSteps`, `PlanSafety`, `PlanRecord`,
   `PlanEnds`, `Upgrades`, `TierRuns`, `NoteOrPlan`, `Minting`, `PlanRuns`, `Redeem`, `Allowance`). Dates
   in closed form against day-by-day counting, the months of a paid year, one grant per period, what
   upgrades add, moves between accounts, rails and their owners, a payment as a note or as a plan, one
   note to a payment's month, and how long a note pays.
4. **Blind notes** (`NumberTheory`, `Bytes`, `Pss`, `BlindNotes`, `Layouts`, `Signing`). From Fermat's
   little theorem to: a note blinded, signed unread and unblinded verifies, has one signature, and
   tells the signer nothing.
5. **Requests and envelopes** (`Requests`, `Replies`, `Seals`, `Ber`, `BerFaults`, `BerForms`,
   `EnvelopeForms`). A signed request is carried out once, a resend gets the same reply while it is kept,
   how long that is and how often one request is sealed; and the hand-written BER reader, which sees the
   same tree in every form and a message cut off as cut off.

`Wrappers`, `Naturals` and `Names` hold what several parts share.

Code that works step by step is a method proved against a function of the old state; what the program
promises is then proved about the functions.

## What the statements assume

- A host call is executed and answered, executed with its answer lost, or not executed; it never
  runs late, after its own retry. One append is atomic. `put_snapshot` may stop between the rename
  and the removal.
- The seal is ideal: no bytes open at two places. What is sealed opens to what was sealed, so the
  JSON of rows and changes is taken as faithful.
- SHA-384 is any function to 48 bytes; keyed hashes of accounts and payment references are names.
- Account, rail and nonce strings are compared as they are; a minted month is named by (rail, month).
- Prepaid lots with the same expiry are spent oldest first; the query leaves that order open.
- Amounts and times are unbounded naturals. Where the program's width decides something, it is
  written out: the 32-bit period, the 16-bit month, the 64-bit saturating `outstanding`, 64-bit
  record numbers and 32-bit record lengths.

## Where the program and its words differ

- *A period already granted is not granted again* (`plans.rs:157-161`) stops being so in two ways. A
  period's start may outgrow 32 bits of seconds, in 2106 (`PlanSafety.GrantedAgainExactlyPastTheLimit`
  is that limit, `PlanSafety.GrantedTwiceIn2106` a run). And a plan may be moved to an account whose own row names a later period: the moved
  row replaces it, and every period after the moved one up to the account's own can be granted again
  (`PlanRuns.ReopenedByAMove` is the exact set, `PlanRuns.GrantedAgainAfterAMove` a run).
- *An upgrade adds only the step above what the period has had* (`plans.rs:38-43`) is so of a report or a
  tier change exactly when a test made before it passes: the row is the running period's and the
  tier it counts from is no lower than the highest the period has had, or the difference rounds to
  nothing (`Upgrades.AddsTheStepExactly`; over whole runs and with moves
  `TierRuns.TablesAddExactly`). Plans that are never lowered, yearly ones included, always pass inside
  their row's period (`TierRuns.ClimbingRunsAreChecked`), and so do monthly ones whose clock and
  starts do not go back (`TierRuns.ForwardRunsAreChecked`). It fails after a downgrade in a month that
  the beat opened, because the beat records nothing (`TierRuns.DownAndUpAfterTheBeat`,
  `PlanSafety.OpenedByTheBeat`); for a change that comes after a month has begun but before the beat
  (`TierRuns.ChangeBeforeTheBeat`); once a rail reports a higher tier for an older start
  (`PlanSafety.OlderReportBreaksTheBound`); and once the clock goes back
  (`PlanRecord.ClockBackBreaksTheBound`).
- *A payment pays as a note or as a plan* holds in a run exactly when every sighting covers, from the
  start its row keeps, only months that were not minted (`NoteOrPlan.NeverBothExactlyWhenClear`). A
  report that names its start always does; one without a start keeps the plan's known start but looks
  up other months (`NoteOrPlan.StartlessReportPaysTwice`).
- *Sealed once* (`service.rs:259-264`): every delivery that opens, finds no kept reply, and is malformed,
  wrongly signed, outside its clock's window or met by a nonce table that fails is sealed an error of
  its own, since refusals are not kept. Such an error may come before the answer as well as after it
  (`Seals.TooEarlyThenInTime`, `Requests.ResendAfterTheReplyIsGone`);
  `Seals.SealedOnceExactlyWhenNotStray` counts the seals and says when there is at most one.
- A note is marked spent before the plan is credited; `Redeem.WhatANoteOpens` says exactly which
  notes are spent for nothing.
- A stop between a snapshot's rename and its journal's removal is said to leave a journal that still
  belongs to it (`egress/src/lib.rs:319-322`); in fact the next start refuses it when it has records
  (`BookSafety.StartIsRight`). Never a wrong book, but not always a start.
- A hold, a settlement and the release at a start are several records each. A crash that tears them
  loses or pays out exactly what the records before the tear say (`Holds.TornHold`,
  `Holds.TornSettle`, `TornStart.TornRelease`); a torn release leaves the row it tore open, and the next
  start gives its parts back again (`TornStart.TornStartsAddUpExactlyBetweenRows`). The balance over runs
  with any number of such crashes is `Crashes.CrashesBalance`.

## Model

| member | source | states |
|---|---|---|
| Journal.ComputeSplit | crates/enclave/src/state.rs:110-135 | the cursor loop reads exactly the frames of `Split`, in either form of the journal, and refuses a number out of its place |
| Journal.ComputeLastNumber | crates/enclave/src/state.rs:139-157 | the cursor loop that enclave and host share (crates/egress/src/lib.rs:348-366) finds the number of the last whole frame |
| Journal.JournalReadsBack | crates/enclave/src/state.rs:91-135 | any records, numbered from 1, followed by any strict prefix of one more frame, read back as exactly the records, and the last number is their count |
| Journal.AcceptedJournalIsFrames | crates/enclave/src/state.rs:110-157 | conversely every numbered journal that is accepted is the frames of its records and a tail without a whole frame, and the last number is their count |
| OldJournal.MisplacedIsRefused | crates/enclave/src/state.rs:110-135 | a whole record behind the others under any number but the next has the journal refused |
| OldJournal.OldFormReadsBack | crates/enclave/src/state.rs:110-135 | records of the first form, framed by length alone, with any part of one more behind them, read back as exactly those records, and the journal is marked to be folded |
| OldJournal.OldFormIsNotAppendedTo | crates/enclave/src/state.rs:139-146 | the last number is refused if and only if there is a journal and it is not in the current form |
| OldJournal.MagicIsItsName | crates/enclave/src/state.rs:86-88 | the current form begins with its name and a line feed |
| Host.Keeper.AddRecord | crates/egress/src/lib.rs:390-426 | the host's files and its remembered number after a record is offered, whatever the answer |
| Host.KeptReadsBack | crates/egress/src/lib.rs:348-366 | a journal the host built reads back as its records on both sides |
| Host.AppendIsExact | crates/egress/src/lib.rs:384-426 | a record is appended exactly when it is the next one, answered without a write exactly when it lies there already, and refused when it leaves a gap, also after the host restarted |
| Host.WhatCannotBePlaced | crates/egress/src/lib.rs:390-426 | what has no place in front of it and a byte behind, or comes to a journal without a readable number, is refused and nothing looked up or written |
| Witness.ReadMarks | crates/enclave/src/witness.rs:148-182 | the loop over the listed marks keeps the newest by position |
| Witness.NewestIsGreatest | crates/enclave/src/witness.rs:148-182 | the mark chosen is one of those written and none lies beyond it |
| Witness.NewestIsFirstListed | crates/enclave/src/witness.rs:148-182 | of marks as far as each other the first listed counts, with its time |
| Witness.RefusedExactlyWhenCutBack | crates/enclave/src/witness.rs:59-74 | a start is refused if and only if some mark lies beyond the book and no newer acknowledgement names this very place |
| Witness.AcknowledgementUsedExactly | crates/enclave/src/witness.rs:56-74 | a start that goes ahead has used an acknowledgement if and only if some mark lies beyond the book |
| Book.Kept.WriteDown | crates/enclave/src/ledger.rs:407-431 | changes become records at consecutive places, queued in order, and a full journal is folded behind them |
| BookSafety.StepKeepsInvariant | crates/enclave/src/ledger.rs:173-240 | every step (a write of any number of changes, none included, deliver, lost answer, refusal, stop between files, host restart, crash, restart, mark) keeps host, queue, marks and memory on one line of changes |
| BookSafety.HostKeepsTheLine | crates/egress/src/lib.rs:323-426 | in every reachable state the host's journal is exactly the records 1 to k of one generation, once each, in order, sealed over the changes at those places, beside that generation's snapshot or, after a broken-off fold, the next one's |
| BookSafety.StartIsRight | crates/enclave/src/ledger.rs:312-362 | a start that succeeds rebuilds the book after a prefix of the line holding everything confirmed; it fails if and only if a fold was broken off between its files over a journal with records |
| BookSafety.ConfirmedIsNeverLost | crates/enclave/src/ledger.rs:127-160 | what is confirmed at any moment is in the line, the book and the confirmed part of every later state of the run |
| BookSafety.NeverRefusedByTheHost | crates/enclave/src/ledger.rs:173-210 | however often a job was offered before, the host takes it when it runs, and the queue moves on |
| BookSafety.DrainedIsTheBook | crates/enclave/src/ledger.rs:381-390 | with the queue empty, a start from the host's files is the book in memory |
| BookSafety.FoldReadsBack | crates/egress/src/lib.rs:323-346 | once the host has taken a sealed book, a start finds exactly its rows at the beginning of its generation, whatever lay in the files before, and folds again at once |
| BookSafety.WitnessNeverRefusesHonestStart | crates/enclave/src/ledger.rs:211-237 | every mark ever written is at or below every later recovery, so no honest start is refused and no acknowledgement is used |
| Rollback.MarkHoldsBackOlderBooks | crates/enclave/src/ledger.rs:211-237 | once a mark is written, whatever happens afterwards, a start from any place before what was confirmed then is refused, unless an acknowledgement of that very place is newer than the newest mark |
| Rollback.RefusedStartStaysDown | crates/enclave/src/ledger.rs:312-362 | a start that is refused changes nothing |
| Rollback.FoldedAtTwoThousand | crates/enclave/src/ledger.rs:407-431 | a writing is followed by a fold if and only if it brings the journal to 2,000 records; after any writing the generation has fewer |
| Recovery.ReplayIsApplyAll | crates/enclave/src/ledger.rs:312-362 | the book's replay of ledger changes is the ledger's own |
| Recovery.RecoveredLedgerBalances | crates/enclave/src/service.rs:150-165 | after any run of host and enclave, if the recovered line is written by whole operations, whatever unused numbers their holds got, then after the release every account has what was put in less what its answers cost, and no hold is open |
| Recovery.RecoveredAfterAnyCrash | crates/enclave/src/service.rs:150-165 | if the recovered line is any part, from its beginning, of what a run writes that was itself torn any number of times, then after the release every account has what was put in less its answers' costs and, to the unit, what the tears took from it or paid out to it |
| Ledger.InOrder | crates/enclave/src/ledger.rs:681-688 | the query's order: all the rows asked for, once each, soonest expiry first |
| Ledger.Accounts.CreditPrepaid | crates/enclave/src/ledger.rs:610-624 | a purchase is a lot of its own, three years long, written down with its number |
| Pockets.PurchaseLastsThreeYears | crates/enclave/src/ledger.rs:610-652 | after a purchase the balance of every account at every moment is as before, and more by the purchase for its buyer until 36 calendar months on |
| Ledger.Accounts.GrantAllowance | crates/enclave/src/ledger.rs:585-628 | a period's allowance is set, whatever was left |
| Pockets.GrantLastsToItsEnd | crates/enclave/src/ledger.rs:585-652 | after a grant the account's balance at every moment is its live lots and, before the end, the granted amount; nobody else's changes; the row is of the period that begins then |
| Pockets.UpgradeIsSpendable | crates/enclave/src/ledger.rs:595-598 | an addition can be spent as long as the allowance it is added to, counts as granted and leaves the period |
| Pockets.UsedIsTakenOff | crates/enclave/src/ledger.rs:600-603 | what was used is taken off the allowance, down to nothing, and off nothing else |
| Pockets.LapseLeavesTheLots | crates/enclave/src/ledger.rs:605-607 | a lapse leaves the lots, and nothing granted |
| Ledger.Accounts.TakeFromLots | crates/enclave/src/ledger.rs:680-700 | the loop over live lots takes greedily and writes down each take |
| Ledger.Accounts.Hold | crates/enclave/src/ledger.rs:656-711 | the loop takes what the greedy order says and writes it down, or rolls everything back and names what there is |
| Ledger.Accounts.Settle | crates/enclave/src/ledger.rs:715-734 | the loop gives back from the last pocket on, and the row goes |
| Ledger.Accounts.GiveRowBack | crates/enclave/src/ledger.rs:737-747 | all that one row took goes back, part by part |
| Ledger.Accounts.ReleaseOpenHolds | crates/enclave/src/ledger.rs:750-769 | every open hold goes back in full |
| Ledger.GreedyTakes | crates/enclave/src/ledger.rs:668-700 | greedy taking takes what is asked for or all there is |
| Ledger.HoldThenRefund | crates/enclave/src/ledger.rs:715-727 | refunding from the last pocket leaves exactly the greedy charge of the cost |
| LedgerSafety.HoldKeeps | crates/enclave/src/ledger.rs:656-711 | a hold changes nobody's total, overdraws no pocket, and opens one row for the amount |
| LedgerSafety.SettleCharges | crates/enclave/src/ledger.rs:715-734 | settling lowers its account's total by the cost, at most what was held, and nobody else's |
| LedgerSafety.ReleaseKeeps | crates/enclave/src/ledger.rs:750-769 | the release at a start changes nobody's total and leaves no hold |
| LedgerSafety.TakesStayBlack | crates/enclave/src/ledger.rs:668-700 | no take of a hold leaves a pocket below zero |
| LedgerRuns.BooksBalance | crates/enclave/src/ledger.rs:585-769 | over every run of credits, grants, upgrades, lapses, holds, settlements and restarts and any number of accounts: what an account has is what was put in less what its answers cost, and no pocket is below zero |
| LedgerRuns.EveryUnitIsAccountedFor | crates/enclave/src/ledger.rs:585-769 | the same from an empty ledger |
| Holds.PursesAreTheBalance | crates/enclave/src/ledger.rs:630-652 | the pockets a hold goes through add up to the balance, summed in any order |
| Holds.HoldNeedsTheBalance | crates/enclave/src/ledger.rs:701-704 | a hold is granted if and only if the balance covers it, and a refusal names the balance |
| Holds.HoldThenSettleIsACharge | crates/enclave/src/ledger.rs:656-734 | holding A and settling at C leaves the same tables as charging the smaller of the two in greedy order |
| Holds.HoldThenReleaseUndoes | crates/enclave/src/ledger.rs:750-769 | a request that dies after its hold has cost nothing: every pocket is as before |
| Holds.SoonestGoesFirst | crates/enclave/src/ledger.rs:654-700 | a hold touches a pocket only once every live pocket before it, the allowance before lots and a lot before those expiring later, is empty |
| Holds.TornHold | crates/enclave/src/ledger.rs:693-709 | after the first j records of a hold, short of all, its account is short of exactly what the first j parts took, and nobody else of anything; its total is as before if and only if they are none or all |
| Holds.TornSettle | crates/enclave/src/ledger.rs:719-733 | after the first j records of a settlement, short of all, its account has exactly what the first j give-backs gave on top, beside the open hold, and nobody else anything; its total is as before if and only if j is 0 |
| TornStart.TornRelease | crates/enclave/src/ledger.rs:750-769 | after the first j records of the release at a start, every account has its total of before, but for the account of the row the tear falls into, which has gained what the parts before the tear took, while that row stays open |
| TornStart.TornStartsAddUpExactlyBetweenRows | crates/enclave/src/ledger.rs:750-769 | after any number of starts that died in their release, the start that gets through leaves every account its total if and only if every tear fell between two rows |
| Crashes.HarmlessExactly | crates/enclave/src/ledger.rs:656-769 | a tear changes no account's total if and only if it comes before the first record or, in a release, between two rows |
| Crashes.CrashesBalance | crates/enclave/src/ledger.rs:585-769 | over every run with any number of crashes before, between and inside operations, every account has what was put in, less what its answers cost, and to the unit what the tears took or paid out; no pocket is below zero and every part of every open hold took something |
| Crashes.CutIsPrefix | crates/enclave/src/ledger.rs:407-431 | whatever part of a run's records is left, from its beginning, is what a run writes that was torn there |
| Calendar.DateOfDay | crates/core/src/subscription.rs:78-89 | every day number has a date that exists, and the date leads back to the day |
| Calendar.DayOfDate | crates/core/src/subscription.rs:93-100 | every date that exists is the date of its own day number |
| Calendar.CivilIsCounting | crates/core/src/subscription.rs:78-89 | the closed form is day-by-day counting by `days_in_month`, for every timestamp |
| Calendar.MidnightOf | crates/core/src/subscription.rs:78-100 | a timestamp's date leads back to the midnight before it |
| Calendar.DateComesBack | crates/core/src/subscription.rs:93-100 | a date comes back from its timestamp if and only if it lies in 1970 or later |
| Calendar.AddMonthsLands | crates/core/src/subscription.rs:105-111 | that many calendar months on, the same time of day, the day clamped to the month's last |
| Calendar.AddMonthsIncreases | crates/core/src/subscription.rs:105-111 | more months are later, strictly |
| Calendar.AddMonthsReordersExactly | crates/core/src/subscription.rs:102-111 | of two moments the earlier lands later if and only if both land on one date and the earlier has the later time of day |
| Calendar.AddMonthsMayReorder | crates/core/src/subscription.rs:102-111 | it happens: noon of 30 January and midnight of the 31st, one month on |
| Slices.ComputeSlice | crates/core/src/subscription.rs:126-144 | the counting-down loop computes `SliceAt` |
| Slices.SliceMonthIsRight | crates/core/src/subscription.rs:132-139 | the loop stops at month k if and only if now lies in month k of the paid year, a clock behind the rail's in the first |
| Slices.SliceHoldsNow | crates/core/src/subscription.rs:126-144 | a moment of the paid period lies in its slice, and the slice in the paid period |
| Slices.SliceIsConstant | crates/core/src/subscription.rs:126-144 | every moment of a slice gives that slice |
| Slices.SlicesMeet | crates/core/src/subscription.rs:126-144 | consecutive slices meet and the first begins with the paid period |
| Slices.AtMostTwelve | crates/core/src/subscription.rs:126-144 | moments of a paid year whose slices all differ are at most twelve, of any other paid period at most one |
| Slices.SliceExactlyWhen | crates/core/src/subscription.rs:126-144 | there is a slice if and only if the paid period is known and not over; a monthly plan's is the paid period; a clock behind the rail's reads a year's first |
| Slices.EpochBounds | crates/core/src/notes.rs:47-62 | a moment's month is k if and only if it lies from that month's first millisecond to before the next one's; all before 2026 counts as month 0 |
| Slices.SixteenBits | crates/core/src/notes.rs:47-62 | a month's number is the calendar's count from January 2026, held to sixteen bits |
| Slices.ComputeEpochs | crates/core/src/notes.rs:67-79 | the loop that stops at an empty month computes `EpochsCovered` |
| Slices.EpochsNeverDecrease | crates/core/src/notes.rs:67-79 | the months that a period covers never decrease, shortened or not |
| Slices.EpochsExactly | crates/core/src/notes.rs:67-79 | a period covers a month for each of its own begun before its end, twelve or one at most: the one in which that month, or the period itself if sooner, ends |
| Slices.FullYearMintsTwelve | crates/core/src/notes.rs:67-79 | a full paid year from 2026 on covers twelve consecutive months, each the one its slice ends in |
| Plans.SliceIsProper | crates/core/src/subscription.rs:126-144 | a slice is a proper interval of the paid period beginning a whole number of months, fewer than twelve, after it, for any clock |
| PlanBook.Rows.SubscribeOrRenew | crates/enclave/src/plans.rs:162-248 | the tables after a sighting: refusals leave them alone, the loop over the months finds a minted one if there is one |
| PlanBook.Rows.HandOut | crates/enclave/src/plans.rs:221-245 | a new period's allowance, or the step up inside a known one, or nothing |
| PlanBook.Rows.RenewByRail | crates/enclave/src/plans.rs:179-184 | a sighting by rail is a sighting of the owner, or nothing |
| PlanBook.Rows.ChangeTier | crates/enclave/src/plans.rs:252-272 | the tables after a tier change and what it added |
| PlanBook.Rows.RollOne | crates/enclave/src/plans.rs:279-313 | one account after the beat |
| PlanBook.Rows.Roll | crates/enclave/src/plans.rs:277-313 | the beat does to each account its own step, in whatever order, and counts the accounts it changed |
| PlanBook.Rows.MoneyBack | crates/enclave/src/plans.rs:318-332 | the tables after a refund or a chargeback |
| PlanBook.Rows.MovePlan | crates/enclave/src/plans.rs:336-360 | the tables after a plan moved to another account |
| PlanBook.Rows.AdmitMint | crates/enclave/src/notes.rs:91-104 | a month is minted once per payment, the same note again is fine, and no month of a bound rail |
| Minting.AdmittedExactly | crates/enclave/src/notes.rs:91-104 | after any run a mint is accepted if and only if its payment was never bound and every mint accepted for its month named the same fingerprint; it is new if and only if there was none, and the same again changes nothing; a refusal says which |
| Minting.TableIsWhatWasAccepted | crates/enclave/src/notes.rs:91-104 | over every run the table holds a month if and only if a mint of it was accepted, with the fingerprint of every one accepted |
| Minting.OneNoteAMonth | crates/enclave/src/notes.rs:85-104 | over every run at most one fingerprint is ever accepted for a payment's month |
| PlanSteps.RefusedExactly | crates/enclave/src/plans.rs:136-203 | a report is refused for the first that holds of three reasons, each given exactly and in its own words, and accepted otherwise |
| PlanSteps.AcceptedIsLocal | crates/enclave/src/plans.rs:186-248 | an accepted report binds its rail and changes nobody else's plan or row and no minted month; an ended period of an account without a plan changes nothing; it answers whether an allowance was granted |
| PlanSteps.PlanAsReported | crates/enclave/src/plans.rs:205-219 | a report leaves the plan as it said, the known start if it named none, and all that was noted |
| PlanSteps.PaidAsReported | crates/enclave/src/plans.rs:205-313 | from a report on, until something but the beat comes, a plan is paid at a moment if and only if the reported period runs on past that moment, the report and every beat since |
| PlanSteps.GrantFillsTheRow | crates/enclave/src/plans.rs:220-303 | a grant fills the row with the running slice's period and end and its tier's 700,000, 1,500,000 or 4,000,000 TOKU, all of it left |
| PlanSteps.OnlyStepsUpAdd | crates/enclave/src/plans.rs:226-331 | anything but a grant leaves the row its period and end; what a report or tier change adds it adds to the grant and to what is left; nothing else adds |
| PlanSteps.ChangeAnswersWhatItAdds | crates/enclave/src/plans.rs:252-272 | a tier change answers what it added to grant and rest, and changes nothing else but the tier and the record |
| PlanSteps.BeatLeavesThePlan | crates/enclave/src/plans.rs:277-313 | the beat leaves a plan as it was but for being paid and its usage, lapses an ended allowance exactly when no period is running, and counts an account if and only if one began or lapsed |
| PlanSteps.RefundLeaves | crates/enclave/src/plans.rs:318-332 | a refund ends the plan now or when it ended before, and leaves all of it but its allowance |
| PlanSteps.MoneyBackExactly | crates/enclave/src/plans.rs:318-332 | money back ends a plan if and only if the rail's account is still on it, and only that one |
| PlanSteps.MoveExactly | crates/enclave/src/plans.rs:336-360 | a plan moves if and only if its account is on the rail and the other pays for no other plan; it goes as it stands, with its row's period, end, grant and rest; everybody else keeps theirs |
| PlanSafety.OnlyGrantsBegin | crates/enclave/src/plans.rs:220-331 | a row begins anew exactly at a grant, with one tier's allowance; nothing else moves its period or makes a row |
| PlanSafety.NoPeriodTwice | crates/enclave/src/plans.rs:156-331 | over every run of reports, tier changes, beats, refunds, draws, moves away, and moves that bring no older period than the account has, each full grant is for a later period than the one before |
| PlanSafety.AtMostTwelveGrants | crates/enclave/src/plans.rs:277-303 | one paid period hands out at most twelve allowances, in any such run |
| PlanSafety.AtMostOneGrant | crates/enclave/src/plans.rs:191-248 | a monthly payment hands out at most one |
| PlanSafety.GrantedAgainExactlyPastTheLimit | crates/enclave/src/ledger.rs:576-593 | a period just granted is granted again by the next report if and only if its start in seconds outgrows 32 bits, save where the cut value is the largest; for what a move reopens see PlanRuns.ReopenedByAMove |
| PlanSafety.GrantedTwiceIn2106 | crates/enclave/src/ledger.rs:576-593 | one report, sent twice, grants the period beginning with second 2^32 twice |
| PlanSafety.ProrataWithin | crates/core/src/subscription.rs:68-73 | an upgrade never adds more than the step, and all of it for a whole period |
| PlanSafety.MonthlyAllowanceBound | crates/enclave/src/plans.rs:226-272 | over every run of a monthly plan with clock and reported starts not going back, what the current period was granted in all is at most one allowance of the tier recorded for it |
| PlanRecord.StepKeepsRecordExactly | crates/enclave/src/plans.rs:226-303 | from an account whose record of the granted period names its row's period and bounds its grant, one report, tier change, beat, refund or draw keeps that if and only if the step passes a test on account, clock and report made before it |
| PlanRecord.RecordHoldsExactlyOverRecordedSteps | crates/enclave/src/plans.rs:226-303 | over every run, under any clock and for any reported starts, the record names the row's period and bounds its grant at every moment if and only if every step passes that test; a yearly plan's record stops naming it in the second month, which the beat opens unrecorded |
| PlanRecord.ForwardRunsAreRecorded | crates/enclave/src/plans.rs:226-272 | every step of a monthly run whose clock and reported starts do not go back passes it |
| PlanRecord.OlderReportKeepsRecordExactly | crates/enclave/src/plans.rs:226-245 | after a report of a start older than the granted period the record still names the row's period if and only if the report is of no running period or of no higher tier |
| PlanRecord.ClockBackBreaksTheBound | crates/enclave/src/plans.rs:226-272 | a run with rising starts whose clock goes back exceeds the bound |
| PlanSafety.OlderReportBreaksTheBound | crates/enclave/src/plans.rs:226-245 | a run with a higher tier reported for an older start exceeds the bound |
| PlanSafety.OpenedByTheBeat | crates/enclave/src/plans.rs:289-296 | down and up again in a period opened by the beat stays within one allowance if and only if the step between the tiers times the time still to run is less than the length of the period, so that it rounds to nothing |
| Upgrades.AddsTheStepExactly | crates/enclave/src/plans.rs:226-272 | for any account, clock and report: an event adds only to the running period, and at most the pro rata share of the step above the highest tier that period has had, if and only if a test on tiers, periods and time passes before it |
| TierRuns.RunAddsExactly | crates/enclave/src/plans.rs:226-303 | over every run on one account, monthly or yearly, the same of every event |
| TierRuns.TablesAddExactly | crates/enclave/src/plans.rs:226-360 | over every run on the tables, with plans moving between accounts and a row bringing along what its period has had, the same for every account |
| TierRuns.GrantedWithinHad | crates/enclave/src/plans.rs:226-360 | in every run on the tables whose events pass that test no row, wherever it has moved, was granted more than one allowance of the highest tier its period has had |
| TierRuns.ForwardRunsAreChecked | crates/enclave/src/plans.rs:226-272 | every event of a monthly run whose clock and reported starts do not go back passes the test |
| TierRuns.ClimbingRunsAreChecked | crates/enclave/src/plans.rs:226-303 | every event of a run that lowers no tier and stays inside its row's period or opens a later one passes it, for yearly plans in every month too |
| TierRuns.DownAndUpAfterTheBeat | crates/enclave/src/plans.rs:289-296 | for every paid year: in its second month, down a tier and up again adds the whole step once more |
| TierRuns.ChangeBeforeTheBeat | crates/enclave/src/plans.rs:252-303 | for every paid year: a step up after its second month has begun and before the beat is added to the first month's row |
| PlanEnds.ProrataIsTheFloor | crates/core/src/subscription.rs:64-73 | an upgrade adds every whole TOKU of its share of the time still to run, and drops the fraction |
| PlanEnds.UpgradesInSteps | crates/core/src/subscription.rs:64-73 | two upgrades at one moment add no more than one over both steps, and at most one TOKU less |
| PlanEnds.UpgradeAtTheStart | crates/enclave/src/plans.rs:252-272 | an upgrade before the period has begun to run makes its allowance the higher tier's |
| PlanEnds.RefundEnds | crates/enclave/src/plans.rs:315-332 | money back ends the plan at once and lapses its allowance |
| PlanEnds.NothingAfterMoneyBack | crates/enclave/src/plans.rs:315-332 | over every run of beats, tier changes and refunds after it, under a clock that does not go back, nothing is granted or left |
| PlanEnds.AfterTheBeat | crates/enclave/src/plans.rs:274-313 | after the beat a paid plan's period has been granted, and without one no allowance outlives its end |
| PlanEnds.KeptExactly | crates/enclave/src/plans.rs:118-125 | what is kept of the usage is exactly what is younger than 120 days |
| PlanEnds.UsageGoesExactlyWhenOld | crates/enclave/src/plans.rs:118-125 | the beat drops a noted step if and only if its period began 120 days ago or earlier and there has been no chargeback for 180 days |
| PlanEnds.DisputeIsRemembered | crates/enclave/src/plans.rs:318-332 | a chargeback is remembered, any other refund leaves that as it was |
| PlanEnds.EachPeriodNotedOnce | crates/enclave/src/plans.rs:98-116 | over every run an ended period leaves at most one step of usage |
| PlanEnds.EndedPeriodIsNoted | crates/enclave/src/plans.rs:98-116 | whenever a period's allowance ends, by a new period, a lapse or a refund, its step is there |
| PlanEnds.EndedPeriodIsNotedRight | crates/enclave/src/plans.rs:98-116 | the step noted is of the plan's tier as it then stands, a report's new one included, and says none, under half, under 95 in a hundred, or all of what was granted |
| PlanEnds.NotedExactly | crates/enclave/src/plans.rs:98-116 | a step is noted if and only if a period with an allowance ends and none is noted for it |
| NoteOrPlan.PaidPlanIsNotReplaced | crates/enclave/src/plans.rs:136-147 | while an account's plan is paid no sighting and no move puts another rail's plan in its place |
| NoteOrPlan.SightKeepsApartExactly | crates/enclave/src/plans.rs:186-223 | a sighting keeps every minted month and every month paid to a plan apart if and only if none of the months its row covers from the start it keeps is minted |
| NoteOrPlan.NamedStartIsClear | crates/enclave/src/plans.rs:186-201 | a sighting that names its start, or finds no plan, meets that |
| NoteOrPlan.NeverBothExactlyWhenClear | crates/enclave/src/plans.rs:186-223 | over every run of mints, sightings, tier changes, beats, refunds, moves and draws, no (rail, month) is both minted and paid to a plan directly if and only if every sighting met it |
| NoteOrPlan.NeverBoth | crates/enclave/src/plans.rs:186-201 | so it is in every run whose reports name a start; and in every run each plan's rail is its account's |
| NoteOrPlan.StartlessReportPaysTwice | crates/enclave/src/plans.rs:195-223 | a run with a report that names no start, where one month pays both ways |
| NoteOrPlan.StepKeepsOwned | crates/enclave/src/plans.rs:136-147 | every operation keeps each plan's rail with the account that holds the plan |
| PlanRuns.RunOnAccount | crates/enclave/src/plans.rs:277-360 | a run over the tables, moves included, is, account by account, that account's own run |
| PlanRuns.EveryAccountsPeriodsOnce | crates/enclave/src/plans.rs:156-360 | over every run on the tables whose moves bring no account an older period than its own, every account's full grants are for ever later periods, at most twelve for one paid period |
| PlanRuns.MoveHandsOutNothing | crates/enclave/src/plans.rs:334-360 | a moved plan reads as the same period and grant with no more left, opens nothing it would not have opened before, and leaves nothing behind |
| PlanRuns.MoveLowersExactly | crates/enclave/src/plans.rs:334-360 | a move lowers the period of the account it goes to if and only if it brings a row whose period is before that account's own |
| PlanRuns.ReopenedByAMove | crates/enclave/src/plans.rs:334-360 | for every plan reported after a move, a period is granted that the account's own row would have refused if and only if it lies after the moved row's period and not after the account's own |
| PlanRuns.GrantedAgainAfterAMove | crates/enclave/src/plans.rs:318-360 | a run in which an account is granted one period twice because a plan with an older period was moved to it |
| Redeem.Counter.RedeemNotes | crates/enclave/src/notes.rs:223-253 | the loop spends, credits and counts the notes of one request, and stops at a refusal |
| Redeem.EachNoteOnce | crates/enclave/src/notes.rs:227-236 | over every run of requests by any accounts a note is credited at most once |
| Redeem.SpentWasHandedIn | crates/enclave/src/notes.rs:227-236 | over every run a note that counts as spent was handed in by somebody, with its very month and nonce |
| Redeem.WhatANoteOpens | crates/enclave/src/notes.rs:227-249 | a fresh note is refused, and spent all the same, if and only if its account pays another plan directly; it opens a period if and only if it is not refused, its month and the week after it are not over, and no period began this second or later |
| Redeem.ANotePaysItsMonth | crates/enclave/src/notes.rs:227-249 | a fresh note handed in while it pays, on an account that pays nothing else, leaves the plan of its tier, paid at a moment if and only if that is within a week of the end of the note's month, with that tier's allowance from now to then; nobody else's changes |
| Redeem.ItsMonthIsPaid | crates/enclave/src/notes.rs:241-244 | every moment of a note's own month is within that |
| Redeem.OneRequest | crates/enclave/src/notes.rs:223-250 | a request that is not refused has spent all its notes and counts each once, as granted or as handed in before |
| Allowance.Pocket.Spend | crates/core/src/subscription.rs:204-209 | a draw takes the allowance first |
| Allowance.Pocket.GiveBack | crates/core/src/subscription.rs:222-230 | a return goes back to the allowance as far as there is room; only what was never allowance is credited |
| Allowance.LeftWithinGranted | crates/core/src/subscription.rs:146-180 | over every run, left is at most granted, and granted at most left plus what is out |
| Allowance.NoAllowanceBecomesCredit | crates/core/src/subscription.rs:211-230 | over every run in which the device returns no more than it drew, entitlement is credited at most what was drawn from it |
| Allowance.CreditNeedsRoomToCount | crates/core/src/subscription.rs:204-230 | handing everything back after one more draw keeps that law if and only if the draw left what is outstanding within 64 bits |
| Allowance.SaturatedAllowanceBecomesCredit | crates/core/src/subscription.rs:207-229 | a run past 64 bits that breaks it |
| Allowance.DrawAndReturn | crates/core/src/subscription.rs:211-221 | drawing and handing back is without effect if and only if nothing else is out or the allowance covered the draw |
| Allowance.OldCoinsComeToNothing | crates/core/src/subscription.rs:172-230 | after any run and a new period or a lapse, whatever is handed back restores no allowance and is credited exactly as far as it exceeds all that was outstanding |
| Allowance.MonthIsTheLastBegun | crates/core/src/subscription.rs:172-189 | over every run the month is the last period begun, by its first second as far as 32 bits hold it, and its end |
| Allowance.LeftAfter | crates/core/src/subscription.rs:175-230 | what was granted and what is left after each event, the two of an upgrade alike and within 64 bits |
| Allowance.UpgradeKeepsRoom | crates/core/src/subscription.rs:189-192 | an upgrade leaves the room for returns as it was if and only if the grant still fits 64 bits or there was no room |
| NumberTheory.InverseFoundExactly | crates/core/src/notes.rs:264-266 | the extended Euclidean algorithm finds an inverse modulo n if and only if there is one |
| NumberTheory.Fermat | crates/core/src/notes.rs:274-284 | a to the p is a modulo every prime p |
| NumberTheory.ExponentsUndo | crates/core/src/notes.rs:161-167 | modulo p times q, exponents that match modulo p-1 and q-1 undo each other for every message |
| Bytes.ToFixedRoundTrip | crates/core/src/notes.rs:240-246 | a number that fits comes back from its fixed-length bytes |
| Bytes.FromBeRoundTrip | crates/core/src/notes.rs:240-246 | bytes come back from their number at their length |
| Pss.ComputeMgf1 | crates/core/src/notes.rs:178-191 | the growing loop makes the mask of section B.2.1 of RFC 8017 |
| Pss.VerifiesOnlyTheEncoding | crates/core/src/notes.rs:193-238 | with an empty salt, verification accepts the encoding of the message and nothing else (sections 9.1.1 and 9.1.2 of RFC 8017) |
| Pss.EncodingIsSmall | crates/core/src/notes.rs:193-214 | the encoding of 8k-1 bits is k bytes with the first bit clear |
| Layouts.MaskByteIs | crates/core/src/notes.rs:178-191 | byte i of the mask is byte i mod 48 of the hash of the seed and, behind it in four bytes, the counter i / 48 (section B.2.1 of RFC 8017) |
| Layouts.EncodingLayout | crates/core/src/notes.rs:193-214 | the encoding ends with the byte 0xbc, and before it the hash of eight zero bytes and the message's hash (section 9.1.1 of RFC 8017) |
| Layouts.EncodingBits | crates/core/src/notes.rs:193-214 | every bit in front of that is the mask's, turned in the last place, and the first of all is clear |
| Layouts.XorBitIs | crates/core/src/notes.rs:207-209 | exclusive or, bit by bit |
| Layouts.NothingIsCut | crates/core/src/notes.rs:240-246 | a number written to a length loses nothing, and is longer only if it does not fit |
| Layouts.NoteLayout | crates/core/src/notes.rs:100-107 | a note is 36 bytes: version 1, tier, month in two, nonce |
| BlindNotes.ParsesExactlyWhatIsWritten | crates/core/src/notes.rs:92-120 | a note is read from exactly the bytes it is written as |
| BlindNotes.Blind | crates/core/src/notes.rs:250-272 | the loop stops at the first acceptable draw of the stream and blinds with it |
| BlindNotes.OneSignaturePerNote | crates/core/src/notes.rs:304-315 | a signature verifies for a note if and only if it is the note's encoding to the d modulo n, at full length |
| BlindNotes.BlindRound | crates/core/src/notes.rs:250-302 | for every key, note and invertible factor, blind, sign and finalize succeed and give that one signature whatever the factor was (sections 4.2 to 4.5 of RFC 9474) |
| BlindNotes.FinalizeGivesTheSignature | crates/core/src/notes.rs:287-302 | whatever was sent, a finalize that succeeds gives that one signature |
| BlindNotes.EveryNoteFits | crates/core/src/notes.rs:258-284 | for every blinded message and every encoded note coprime to n, exactly one factor maps the note to the message |
| Signing.FactorIsTheDraw | crates/core/src/notes.rs:262-266 | the blinding factor is what was drawn, cut to the modulus |
| Signing.EveryFactorCanBeDrawn | crates/core/src/notes.rs:262-266 | every number above one and below the modulus can be drawn, and is accepted if and only if it has an inverse |
| Signing.AcceptedExactly | crates/core/src/notes.rs:262-268 | a draw is accepted if and only if it comes to two or more and has an inverse |
| Signing.AnyMessageMayComeOut | crates/core/src/notes.rs:258-270 | whatever note is blinded, for any message prime to the modulus some draw leads to it, factor one aside |
| Signing.SignsExactly | crates/core/src/notes.rs:274-284 | the enclave signs if and only if it is given the modulus' length and a number below it, and what it gives, raised to the public exponent, is what it was given |
| Signing.FinalizesExactly | crates/core/src/notes.rs:287-302 | unblinding succeeds if and only if both inputs have the modulus' length, the secret has an inverse, and the answer is the note's signature times the secret |
| Requests.Door.FirstSight | crates/enclave/src/ledger.rs:829-839 | old nonces go, a new one is recorded, and the answer says whether it was new; a table that fails records nothing, with the old ones gone or not |
| Requests.Door.Sealed | crates/enclave/src/service.rs:265-325 | what a request gets, a failing nonce table included, and what becomes of the nonces and the replies |
| Requests.Door.Remember | crates/enclave/src/service.rs:336-352 | the cache stays within its count and bytes; room is made by dropping the oldest, as many as needed and no more; a reply over a quarter of the bytes is not kept |
| Replies.RepliesAfter | crates/enclave/src/service.rs:336-352 | a reply over 16 MiB or of a request not carried out changes nothing; another is kept, those half an hour old go, the rest stay if they are under 20,000 and fit in 64 MiB beside it, and if not the oldest go |
| Replies.EveryReplyWasMade | crates/enclave/src/service.rs:270-352 | over every run every reply kept is the answer of the latest delivery of the same bytes that was carried out |
| Replies.ResendGetsTheSameReply | crates/enclave/src/service.rs:270-278 | over every run a request whose bytes have a reply kept gets exactly that answer, and nothing changes |
| Replies.TheReplyIsStillThere | crates/enclave/src/service.rs:270-352 | after a delivery carried out, the same bytes get the same answer as long as every reply kept since came within half an hour and found room |
| Replies.TheReplyIsGone | crates/enclave/src/service.rs:336-343 | a reply goes when another is kept half an hour or more after it |
| Requests.AtMostOnceExactlyWhenMemoryOutlasts | crates/enclave/src/ledger.rs:829-843 | under a clock that does not go back and whatever the cache forgets and however often the nonce table fails, every signed request is carried out at most once in every run, if and only if nonces are remembered twice as long as a clock may be off |
| Requests.EveryRequestAtMostOnce | crates/enclave/src/service.rs:290-309 | with the program's 20 and 5 minutes |
| Seals.WhatARequestGets | crates/enclave/src/service.rs:279-309 | without a kept reply a request gets an error in the open if it does not open; a sealed one if malformed, wrongly signed, over five minutes off, or the nonce table fails; one in the open if its nonce was recorded in the last twenty minutes; and is carried out only otherwise |
| Seals.OnlyTheSignedIsCarriedOut | crates/enclave/src/service.rs:286-309 | over every run nothing is carried out but what opens, parses, is signed as it should be and is at most five minutes off |
| Requests.ResendAfterTheReplyIsGone | crates/enclave/src/service.rs:290-309 | a request carried out before and sent again after its reply is gone gets a plain error if and only if its clock is still in the window and the nonce table answers, a sealed one otherwise; for refused and malformed requests see Seals |
| Seals.DoorCarriesOutOnce | crates/enclave/src/service.rs:265-325 | over every run of the door, nonces and reply cache together, under a clock that does not go back, each request is carried out at most once |
| Seals.SealedOnceExactlyWhenNotStray | crates/enclave/src/service.rs:259-325 | over every such run a request is sealed once for each delivery that opens, finds no kept reply, and is malformed, wrongly signed, outside its window or met by a failing nonce table, and once more if some delivery of it finds no kept reply and reaches a nonce not known; so at most once if and only if the former never happen, or happen once and the latter never |
| Seals.SealedOnceInsideTheWindow | crates/enclave/src/service.rs:259-309 | a well-formed, signed request that only arrives inside its window, with the nonce table answering, is sealed at most once |
| Seals.TooEarlyThenInTime | crates/enclave/src/service.rs:286-309 | one request, sent before its window and again inside it, is sealed twice: the refusal, then the answer |
| Ber.ReadBer | crates/enclave/src/kms.rs:207-235 | the recursive reader with its inner loop computes `BerAt` |
| Ber.ReadChildren | crates/enclave/src/kms.rs:238-250 | the loop over a value's contents computes `Children` |
| Ber.BerAt | crates/enclave/src/kms.rs:207-235 | on arbitrary bytes the reader ends, and what it returns lies within them |
| Ber.AlwaysAdvances | crates/enclave/src/kms.rs:222-225 | on arbitrary bytes the error of not advancing is never met |
| BerFaults.CutOffEndsEarly | crates/enclave/src/kms.rs:207-235 | a written value of which any part is missing, in any form and at any depth, ends early |
| BerFaults.CutMessageEndsEarly | crates/enclave/src/kms.rs:254-255 | so does a whole message cut off anywhere |
| BerFaults.OnlyTwoFaults | crates/enclave/src/kms.rs:207-235 | a length said in more than four bytes is refused, and on arbitrary bytes reading a value fails only by that or by ending early |
| BerFaults.MissingIsNamed | crates/enclave/src/kms.rs:254-292 | a message without recipients, content or algorithm is refused for just that |
| Ber.ReadsBack | crates/enclave/src/kms.rs:207-235 | wherever a value is written, whatever forms its lengths have (sections 8.1.3 and 8.1.5 of ITU-T X.690), it reads back with the place behind it |
| Ber.KidsReadBack | crates/enclave/src/kms.rs:238-250 | the contents of a constructed value read back as its values, in order |
| Ber.TreeReadsBack | crates/enclave/src/kms.rs:207-250 | every choice of forms, at every level, reads back as the same tree |
| Ber.CmsIgnoresForms | crates/enclave/src/kms.rs:254-292 | the pieces picked out of the envelope, or the fault met, are those of the tree, whatever the forms (section 6.1 of RFC 5652), when the message is refused or the pieces of its content are leaves, empty, or made of values with one form only |
| Ber.EnvelopeReads | crates/enclave/src/kms.rs:254-292 | every message laid out as an envelope, in every form, with anything in front of the recipients and behind the content, gives its own key, IV and content |
| BerForms.OneFormExactlyWhenRigid | crates/enclave/src/kms.rs:207-235 | a tree can be written in one way only if and only if its leaves need all four length bytes and its nodes are too long for a length up front |
| EnvelopeForms.FormsShowExactly | crates/enclave/src/kms.rs:254-292 | for every message and whatever follows it: every choice of forms is read as the same pieces or the same fault if and only if the message is refused, or its content, when it comes in pieces, comes in such pieces |
| BerForms.FormsShowExactlyInNestedPieces | crates/enclave/src/kms.rs:286-292 | content in pieces is read the same in every form if and only if every piece is a leaf, empty, or made of values with one form only; otherwise the same tree has two encodings with different content |
| BerForms.NestedPiecesShowTheirForms | crates/enclave/src/kms.rs:287-290 | two encodings of one small tree that do |

## Left out

- SQLite, threads, locks, sockets and files: tables are maps, the writer is steps, host files are byte sequences.
- ChaCha20-Poly1305, SHA-384, HKDF, ChaCha20, Ed25519 and AES themselves; RSA key generation is a precondition (two different primes, matching exponents, a modulus of full length).
- The sealed exchange with the app (crates/proto), X.509 and COSE verification, and all network clients (Stripe, Apple, model providers, S3, KMS, Nym).
- Pricing and answer shortening, whose floating-point rounding is their point.
- Decoy traffic, operator counters and the app.
- An acknowledgement counting once, and hosts that fork the book by several rewinds: the program does not decide these.
- The journal's old form beyond reading it: it is read, and a start over it folds at once (an empty journal counts as old).
- A book of 2^64 generations or records: the event that would pass the width of its numbers is not enabled.
- Dates past the 64-bit range of `ms_from_civil` (some 290 million years), and month 65,535, which has no end in 16 bits.
- Of a redemption: reading and checking the notes before the spend loop. `Redeem` begins with checked notes.
- PlanSafety.NoPeriodTwice: assumes reported periods end before 2106 and that a move brings the account no older period than its own; `PlanSafety.GrantedAgainExactlyPastTheLimit` and `PlanRuns.ReopenedByAMove` show what happens beyond either.
- PlanSafety.MonthlyAllowanceBound: for monthly plans, clocks and starts that do not go back, and accounts no plan moves to or from; without those limits `TierRuns.GrantedWithinHad` bounds the grant by the highest tier the period has had, in every run whose events pass the test that `TierRuns.TablesAddExactly` shows to be exact.
- Ber.CmsIgnoresForms: for messages that are refused or whose content pieces are leaves, empty, or made of values with one form only; `EnvelopeForms.FormsShowExactly` shows that of every other message the forms show.
- Allowance.NoAllowanceBecomesCredit: for draws within 64 bits outstanding; `Allowance.CreditNeedsRoomToCount` shows the bound is exact.
- Requests.Door.Sealed: time in the reply cache and on the wall is one clock, and two copies of a request do not overlap.
