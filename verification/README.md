# Verification of the request engine's hard state

The request engine keeps its hard state in PL/pgSQL commands that its migrations install, and
ships a few Python tools beside them. This project models the commands and tools with the most
delicate behaviour and proves what they promise over every input, every run and every
interleaving.

A command is modelled twice. The class of its component (`AdoptionStore`, `StaffTables`,
`CleanupStore`, `WebAuthnStore`, `InvitationStore`, `AdmissionState`, `Probe`) changes its
tables in place, guard by guard and row by row, and each method is proved to compute a function
on table values. The lemmas are about those functions and about runs of them. A database error
is a value of `Result` or `Option` and leaves the tables as they were. Clock readings, generated
identifiers and tokens, rows locked by other sessions, and what a command reads of tables outside
its model are parameters.

| files | component |
|---|---|
| `Admission`, `AdmissionClock`, `AdmissionExact` | the shared sliding-window limiter for HTTP authentication, and what it asks of its clock |
| `Adoption`, `AdoptionRuns`, `AdoptionExact` | dual-consent adoption of the controller policy |
| `StaffAuthority`, `StaffAuthorityRuns`, `StaffAuthorityExact` | ceiling-bounded replacement of staff authority, both versions of its last-controller guard |
| `Cleanup`, `CleanupRuns`, `CleanupProgress`, `CleanupExact` | leased cleanup work over immutable retention receipts, and what its workers get done |
| `Deadline`, `WebAuthn`, `WebAuthnFinalizer`, `WebAuthnRuns`, `WebAuthnRetention`, `WebAuthnExact` | the rewrite that adds deadline checks to finalizers, the WebAuthn challenge lifecycle and its retention |
| `Invitations`, `InvitationRuns`, `InvitationExact` | staff invitations: the row guard, the invitation and the acceptance |
| `Roles`, `RolesRoundTrip`, `RolesReading`, `RolesLoading` | the role catalog printer, the loader of its text, and a reader that undoes the printer |
| `SeedCompare`, `SeedPaths` | the recursive JSON comparison, and when the path it prints names one place |
| `LoadProbe`, `LoadProbeExact` | the load probe's worker pool and percentiles |
| `Common`, `Sorting` | shared types, text order and sorting |

The functions on table values are themselves pinned down: the `Exact` files say, in the fields of
the rows and without naming a guard, exactly when each command succeeds, what it leaves and what
its refusals mean.

Runs are peeled from their last event; a run's legality states what the environment owes:
identifiers, tokens and challenges are generated afresh, the clock does not run backwards where a
theorem needs it, every grant change raises its principal's authority revision and every recovery raises
the recovery epoch. Each such assumption appears as a named predicate in the `requires` of the
lemmas that use it (`ClockFrom`, `ReadsAfterCutoffs`, `NewThroughout`, `NotBefore`, `Elsewhere`,
`OthersKeep`, `OthersKeepCounts`, `Legal`). Where such an assumption is what a promise stands or
falls with, a theorem says so in both directions (`KeepsItsPast`, `AllFresh`, `Plain`, `Unnoticed`).

Findings worth knowing:

- The limiter's bound rests on its clock. `AdmissionClock.LimitHoldsExactlyWhen` gives the
  sequences of readings that keep every window within the limit, and
  `AdmissionClock.WaitIsWithinWindowExactlyWhen` when an advertised wait stays within a minute.
- The deadline rewrite counts its anchors but not their order. A success before the first write
  gives a text that cannot be created (`Deadline.CreatedExactlyWhen`); a consume before the first
  write or after the success gives a function from which the private code escapes
  (`Deadline.LateRunIsAnsweredExactlyWhen`).
- The invitation guard compares a new proof only with the one in place, so it lets a proof be
  rotated away and back (`InvitationRuns.GuardAllowsReuse`). Replaced proofs stay refused exactly
  when no rotation reuses one (`InvitationRuns.RotatedProofsStayRefusedExactlyWhen`).
- The conservative staff guard can turn away the repetition of a call it has just accepted;
  `StaffAuthorityRuns.ConservativeRepetition` says exactly when.
- The printed role text is not always loadable; `RolesRoundTrip.LoadRecoversExactlyWhen` gives
  the exact condition.
- The path a JSON difference reports names one place when no key on the way holds a dot or ends in
  an index (`SeedPaths.PlainPathsAreUnambiguous`), and every other key makes it ambiguous
  (`SeedPaths.OtherKeysAreAmbiguous`).
- A staff replacement with a NULL expected revision skips the stale check
  (`StaffAuthorityRuns.MissingRevisionIsCurrent`), and one with a NULL provenance fails exactly when
  it has a row to insert (`StaffAuthorityRuns.MissingProvenanceFailsExactlyWhen`).
- Deleting retained challenges is noticed by a finalizer that selects at a time before the expiry of
  a deleted, still pending row, and by nothing else (`WebAuthnRetention.PassIsNoticedExactlyWhen`).

## Model

| member | source | states |
|---|---|---|
| Admission.AdmissionState.Admit | migrations/versions/0038_shared_http_auth_admission.py:101-151 | the command updates the state row to, and answers, exactly what the specification decides: range, missing row and limit mismatch refused, window pruned and sorted, admission appended or wait returned |
| Admission.Prune | migrations/versions/0038_shared_http_auth_admission.py:131-135 | the in-place pruning yields the sorted times still inside the window |
| Admission.RecentTwice | migrations/versions/0038_shared_http_auth_admission.py:131-135 | what an earlier pruning dropped no later window would have counted |
| Admission.PrunedLogAnswersAsFullLog | migrations/versions/0038_shared_http_auth_admission.py:117-142 | from any row that tracks a full log, a run with a non-decreasing clock gives the same answers as the limiter that keeps every admission |
| Admission.PruningIsInvisible | migrations/versions/0038_shared_http_auth_admission.py:117-142 | the same from the row the migration installs |
| Admission.IdealLogIsAdmissions | migrations/versions/0038_shared_http_auth_admission.py:136-142 | the full log holds exactly the times at which a run answered allowed |
| Admission.ArrayNeverExceedsLimit | migrations/versions/0038_shared_http_auth_admission.py:14-19 | the stored array never outgrows the bound limit, hence never its CHECK, whatever the clock does |
| Admission.DenialWaitsForOldest | migrations/versions/0038_shared_http_auth_admission.py:136-150 | after a denial a later call is allowed exactly once the oldest admission has left the window |
| Admission.RefusalsLeaveRow | migrations/versions/0038_shared_http_auth_admission.py:117-150 | calls that admit nobody leave the row unchanged |
| Admission.RetryAfterIsExact | migrations/versions/0038_shared_http_auth_admission.py:143-150 | a denial's wait is between 1 and 60 seconds, and with nobody admitted in between a retry is allowed exactly from that many whole seconds on |
| AdmissionClock.LimitHoldsExactlyWhen | migrations/versions/0038_shared_http_auth_admission.py:117-142 | for a list of clock readings: every run from the installed row that takes them in order, each any number of times, under any limit, keeps every window within the limit if and only if no reading is followed by one at least a window later and then by one less than a window away from it |
| AdmissionClock.NoWindowExceedsLimit | migrations/versions/0038_shared_http_auth_admission.py:131-142 | over any run whose clock does not go back every interval (t-60s, t] holds at most the bound limit of granted calls |
| AdmissionClock.WitnessBreaksLimit | migrations/versions/0038_shared_http_auth_admission.py:117-142 | wherever three such readings stand, four calls at them let three calls into a window of two |
| AdmissionClock.WaitIsWithinWindowExactlyWhen | migrations/versions/0038_shared_http_auth_admission.py:143-150 | for every denial, whatever the clock has done: the wait is at least 1 second, and at most 60 if and only if some counted admission is not after now |
| AdmissionExact.CallIsRefusedExactlyWhen | migrations/versions/0038_shared_http_auth_admission.py:111-127 | each of the three refusals exactly for its reason: a limit outside 1 to 10000, no state row, a limit other than the bound one; a refusal leaves the row |
| AdmissionExact.CallIsDecided | migrations/versions/0038_shared_http_auth_admission.py:129-150 | a call is allowed exactly when fewer admissions than its limit lie after now less 60 seconds; it then stores them in order and itself, and otherwise answers the least sufficient whole number of seconds |
| AdmissionExact.SurvivorsAreUnique | migrations/versions/0038_shared_http_auth_admission.py:131-135 | the surviving times are determined by the log and the clock |
| Adoption.AdoptionStore.RequestAdoption | migrations/versions/0027_controller_policy_adoption.py:155-255 | consent: guards in order, idempotent lookup, lapsed requests expired, one pending request inserted with revision, policy and recovery snapshot |
| Adoption.AdoptionStore.ExpireLapsed | migrations/versions/0027_controller_policy_adoption.py:234-237 | exactly the organization's overdue pending rows become expired at the next revision |
| Adoption.AdoptionStore.FindKey | migrations/versions/0027_controller_policy_adoption.py:215-226 | the idempotency lookup finds the row of the actor and key when there is one, and only then |
| Adoption.AdoptionStore.CollectMissing | migrations/versions/0032_adopt_column_acls.py:178-198 | the policy grants whose capability the root lacks, in policy order |
| Adoption.AdoptionStore.AddGrants | migrations/versions/0032_adopt_column_acls.py:199-212 | one grant row a missing capability, the revision raised once for each |
| Adoption.AdoptionStore.ApplyAdoption | migrations/versions/0032_adopt_column_acls.py:13-232 | application and replay: every guard in order, grants added, fact appended, request closed |
| AdoptionRuns.TriggeredChangesAreElsewhere | migrations/versions/0027_controller_policy_adoption.py:68-69 | revoking an active grant or inserting a grant, with the revision its trigger raises, and starting a recovery, with the epoch it raises, are among the transactions every run theorem allows |
| AdoptionRuns.ConsentKeepsInv | migrations/versions/0027_controller_policy_adoption.py:228-252 | consenting keeps: one pending request an organization, unique keys, revisions that tell the status, facts and applied requests naming each other |
| AdoptionRuns.WithdrawKeepsInv | migrations/versions/0027_controller_policy_adoption.py:288-308 | withdrawing keeps the same |
| AdoptionRuns.ApplyKeepsInv | migrations/versions/0032_adopt_column_acls.py:92-229 | applying keeps the same |
| AdoptionRuns.FirstApplicationIsFirst | migrations/versions/0032_adopt_column_acls.py:119-134 | an application past its guards meets an organization without any fact, because the only target is no approved source |
| AdoptionRuns.ReachableStates | migrations/versions/0032_adopt_column_acls.py:92-134 | over any run: at most one fact an organization, applied exactly when one fact names the request, pending at revision 1 and closed at 2, one pending request an organization |
| AdoptionRuns.ClosedRequestsNeverChange | migrations/versions/0027_controller_policy_adoption.py:288-308 | closed requests never change, pending ones only by closing, facts only grow |
| AdoptionRuns.ReplayedApplication | migrations/versions/0032_adopt_column_acls.py:92-111 | at any later moment applying again changes nothing and answers the first call's tuple or is refused |
| AdoptionRuns.WithdrawalIsForGood | migrations/versions/0027_controller_policy_adoption.py:264-312 | at every moment after a withdrawal its row is unchanged, nobody can apply it, and withdrawing again changes nothing and answers the same tuple or is refused |
| AdoptionRuns.ConsentStillHolds | migrations/versions/0035_adoption_native_recovery_posture.py:269-306 | an application succeeds only on an unexpired pending consent, and at every moment in between the root held exactly the grants it consented with, at the recorded revision, with no recovery started |
| AdoptionRuns.ApplicationAddsExactly | migrations/versions/0032_adopt_column_acls.py:178-212 | the root's active capabilities become exactly the old ones plus the target policy's, none that was only revoked comes back, everyone else's rows stay, and the fact records precisely what was added |
| AdoptionRuns.AddedRowsCarryPolicy | migrations/versions/0032_adopt_column_acls.py:199-205 | every row added is the root's, with the plane and delegability the target policy gives its capability; old rows stay as they are |
| AdoptionRuns.RepeatedConsent | migrations/versions/0027_controller_policy_adoption.py:215-226 | however long after, repeating a consent's key creates nothing and is refused or told of the same request |
| AdoptionRuns.ReviewPredictsApplication | migrations/versions/0032_adopt_column_acls.py:234-318 | what the platform owner is shown predicts the application: listed revocations make it refuse, otherwise it adds exactly the proposed capabilities |
| AdoptionExact.ApplicationSucceedsExactlyWhen | migrations/versions/0035_adoption_native_recovery_posture.py:256-306 | in a reachable state a first application succeeds if and only if the owner calls, the consent stands, root and approver are two different native identities in force under bindings of their own with no recovery of the root since, and the policy adds something that fits |
| AdoptionExact.ApplicationLeaves | migrations/versions/0032_adopt_column_acls.py:199-229 | every field of the closed request, the root, the appended fact and the answer |
| AdoptionExact.ReplaySucceedsExactlyWhen | migrations/versions/0035_adoption_native_recovery_posture.py:222-255 | a replay succeeds if and only if the approver of then calls with its key and intent under a binding in force, and answers the fact |
| AdoptionExact.LatestIsLast | migrations/versions/0032_adopt_column_acls.py:119-128 | the fact that decides a policy is the last by time and then identifier |
| AdoptionExact.ConsentSucceedsExactlyWhen | migrations/versions/0027_controller_policy_adoption.py:179-240 | with an unused key a consent succeeds if and only if the organization's root calls validly, at its revision, from an approved policy, with its identity in force and nothing unexpired pending |
| AdoptionExact.NewRequestIs | migrations/versions/0027_controller_policy_adoption.py:242-252 | every field of the new request and of the answer, the day it waits included |
| AdoptionExact.ConsentLeaves | migrations/versions/0027_controller_policy_adoption.py:234-237 | lapsed requests of the organization are closed at the next revision and nothing else changes |
| AdoptionExact.RepetitionSucceedsExactlyWhen | migrations/versions/0027_controller_policy_adoption.py:215-226 | a repeated key succeeds if and only if the root calls validly with the intent of then, and answers the row as it stands |
| AdoptionExact.WithdrawalSucceedsExactlyWhen | migrations/versions/0027_controller_policy_adoption.py:264-312 | a withdrawal succeeds if and only if the root names a pending unexpired request at its revision, or one it has withdrawn with this key and intent; and what it leaves |
| AdoptionExact.ReviewShowsExactly | migrations/versions/0032_adopt_column_acls.py:252-283 | the review is shown exactly to an owner, for a waiting request whose controller has kept its revision |
| AdoptionExact.ReviewProposes | migrations/versions/0032_adopt_column_acls.py:291-314 | it proposes the policy capabilities the root lacks and lists those of them once revoked |
| AdoptionExact.ApplicationRefusalsAreTrue | migrations/versions/0032_adopt_column_acls.py:44-182 | a refused application changes nothing, and what its error says is so |
| AdoptionExact.ConsentRefusalsAreTrue | migrations/versions/0027_controller_policy_adoption.py:179-240 | the same for a consent |
| StaffAuthority.StaffTables.WithinCeiling | migrations/versions/0006_staff_controller_continuity.py:86-104 | the loop accepts exactly when the actor may delegate every desired capability |
| StaffAuthority.StaffTables.RevokeOmitted | migrations/versions/0006_staff_controller_continuity.py:150-173 | row by row, exactly the target's active omitted capabilities within the actor's ceiling are revoked, the revision raised once for each |
| StaffAuthority.StaffTables.InsertLacking | migrations/versions/0006_staff_controller_continuity.py:175-217 | the loop appends one non-delegable grant a lacking desired capability, on the plane of the actor's grant |
| StaffAuthority.StaffTables.Check | migrations/versions/0006_staff_controller_continuity.py:38-148 | the guards refuse with the specified error, in their order, for both versions of the continuity guard |
| StaffAuthority.StaffTables.Write | migrations/versions/0006_staff_controller_continuity.py:150-217 | the two loops of writes together give the specified tables |
| StaffAuthority.StaffTables.ReplaceStaffAuthority | migrations/versions/0006_staff_controller_continuity.py:38-221 | the whole command computes the specified tables and answer |
| StaffAuthorityRuns.ReplacementIsSetAlgebra | migrations/versions/0006_staff_controller_continuity.py:150-217 | the target ends with (old minus (actor's ceiling minus desired)) plus desired; nobody else's authority changes; desired was within the ceiling |
| StaffAuthorityRuns.GainsWereDelegable | migrations/versions/0006_staff_controller_continuity.py:86-104 | every capability the target gains was delegable by the actor |
| StaffAuthorityRuns.InsertedRowsCopyActor | migrations/versions/0006_staff_controller_continuity.py:175-217 | each inserted grant copies the plane of a delegable grant of the actor, never the platform's, cannot be handed on, names the actor, and is of a desired capability the target lacked |
| StaffAuthorityRuns.ForecastIsOutcome | migrations/versions/0006_staff_controller_continuity.py:106-145 | for a controller target the exact guard's prediction equals controllerhood after the writes |
| StaffAuthorityRuns.ExactRefinesConservative | migrations/versions/0005_staff_authority_ceiling_replace.py:102-195 | every call the earlier command accepts the later one accepts with the same tables and answer |
| StaffAuthorityRuns.ExtraCallsAreExactly | migrations/versions/0006_staff_controller_continuity.py:106-148 | the calls only the later command accepts are exactly those of a last controller that stays one although the request omits a controller capability |
| StaffAuthorityRuns.ReplaceKeepsInv | migrations/versions/0006_staff_controller_continuity.py:150-217 | at most one active grant a principal and capability, and rows within their organization, are kept |
| StaffAuthorityRuns.ReplaceKeepsController | migrations/versions/0006_staff_controller_continuity.py:146-148 | one replacement, under either guard, leaves a tenant with a controller when it had one |
| StaffAuthorityRuns.TenantKeepsController | migrations/versions/0006_staff_controller_continuity.py:146-148 | so does any run of replacements |
| StaffAuthorityRuns.RepetitionChangesNothing | migrations/versions/0006_staff_controller_continuity.py:58-221 | repeating a call with the revision it answered changes no row and answers the same |
| StaffAuthorityRuns.ConservativeRepetition | migrations/versions/0005_staff_authority_ceiling_replace.py:102-126 | the earlier guard turns that repetition away exactly when the call made the target the last controller through capabilities it does not ask for |
| StaffAuthorityRuns.MissingRevisionIsCurrent | migrations/versions/0006_staff_controller_continuity.py:62-65 | a call without an expected revision does what it does with the current one |
| StaffAuthorityRuns.MissingProvenanceFailsExactlyWhen | migrations/versions/0006_staff_controller_continuity.py:175-217 | a call accepted with a provenance does the same without one if the target holds all that is desired, and is otherwise refused |
| StaffAuthorityRuns.RevisionCountsChanges | migrations/versions/0006_staff_controller_continuity.py:218-221 | the answered revision is the old one plus the number of capabilities lost and gained |
| StaffAuthorityRuns.RunExtends | migrations/versions/0006_staff_controller_continuity.py:150-217 | over any run grant rows are only appended without delegation or revoked once, never reactivated |
| StaffAuthorityRuns.DelegationNeverGrows | migrations/versions/0006_staff_controller_continuity.py:175-217 | over any run the set of principal and delegable capability never grows |
| StaffAuthorityRuns.GainsTraceToTheStart | migrations/versions/0006_staff_controller_continuity.py:86-104 | over any run a principal gains only capabilities somebody could delegate at the start |
| StaffAuthorityExact.ReplaceSucceedsExactlyWhen | migrations/versions/0006_staff_controller_continuity.py:38-148 | under either guard a replacement succeeds if and only if actor and target stand, the revision is the expected one, the request stays within what the actor hands out, the tenant keeps a controller and what is lacking can be inserted |
| StaffAuthorityExact.StaleExactlyWhen | migrations/versions/0006_staff_controller_continuity.py:58-65 | it is called stale exactly when actor and target stand and the revision expected is not the target's |
| StaffAuthorityExact.OldRowsAfter | migrations/versions/0006_staff_controller_continuity.py:150-173 | which old rows are revoked, and how |
| StaffAuthorityExact.NewRowsAfter | migrations/versions/0006_staff_controller_continuity.py:175-217 | every field of the new rows |
| StaffAuthorityExact.RestAfter | migrations/versions/0006_staff_controller_continuity.py:150-221 | wanted capabilities are held, and only the target's revision changes among the principals |
| StaffAuthorityExact.RefusalsAreTrue | migrations/versions/0006_staff_controller_continuity.py:38-148 | what each error says is so |
| Cleanup.CleanupStore.RecordRetention | migrations/versions/0013_temporary_proof_inventory.py:57-76 | inserts, repeats or refuses a receipt as specified, constraints first |
| Cleanup.CleanupStore.FillWork | migrations/versions/0024_temporary_proof_cleanup.py:132-142 | a work row is inserted for each of the first hundred due receipts that have none |
| Cleanup.CleanupStore.ClaimCleanup | migrations/versions/0024_temporary_proof_cleanup.py:118-160 | validates, fills, leases the next claimable item under a new token and answers it |
| Cleanup.Earliest | migrations/versions/0024_temporary_proof_cleanup.py:141-141 | of the due receipts the one before all others in expiry, creation, reference and version |
| Cleanup.Next | migrations/versions/0024_temporary_proof_cleanup.py:149-149 | of the claimable items the one with the least next attempt, then the least identifier |
| CleanupRuns.FirstDueIs | migrations/versions/0024_temporary_proof_cleanup.py:134-141 | the selection is distinct, in order, and leaves out only receipts after all those it takes, when it is full |
| CleanupRuns.FilledIs | migrations/versions/0024_temporary_proof_cleanup.py:132-141 | filling leaves existing work alone and adds fresh, unleased items for distinct due receipts that had none |
| CleanupRuns.NeverDuplicates | migrations/versions/0024_temporary_proof_cleanup.py:73-74 | in a reachable state the two uniqueness constraints on results never stop a finish |
| CleanupRuns.FinishCommitsExactlyWhen | migrations/versions/0024_temporary_proof_cleanup.py:161-187 | a finish answers true if and only if its input is valid and its token is the live lease of open work; it then adds one result, gives up the lease, closes or postpones the work and touches nothing else, and otherwise leaves no trace |
| CleanupRuns.SpentTokenChangesNothing | migrations/versions/0024_temporary_proof_cleanup.py:175-187 | at every moment after a token has committed, a finish with it changes nothing and does not answer true |
| CleanupRuns.ClaimKeepsInv | migrations/versions/0024_temporary_proof_cleanup.py:143-155 | a claim keeps leases, tokens, results, keys and counts consistent |
| CleanupRuns.FinishKeepsInv | migrations/versions/0024_temporary_proof_cleanup.py:174-187 | so does a finish |
| CleanupRuns.TokenCommitsAtMostOnce | migrations/versions/0024_temporary_proof_cleanup.py:118-187 | over any run a lease token commits at most one result, no uniqueness constraint fires, and a receipt has at most one work item |
| CleanupRuns.AttemptsAddUp | migrations/versions/0024_temporary_proof_cleanup.py:151-187 | attempts equals results plus overwritten leases plus one if a lease is set |
| CleanupRuns.SupersededNeverCommits | migrations/versions/0024_temporary_proof_cleanup.py:175-177 | a lease that a later claim overwrote commits nothing at any moment of any run |
| CleanupRuns.ExpiredNeverCommits | migrations/versions/0024_temporary_proof_cleanup.py:175-177 | a lease that ran out without a result commits nothing from then on, even if nobody reclaims the work |
| CleanupRuns.ClaimFencesEarlierLease | migrations/versions/0024_temporary_proof_cleanup.py:143-154 | an answered claim finds any earlier lease of the item run out and supersedes it |
| CleanupRuns.RetryIsRespected | migrations/versions/0024_temporary_proof_cleanup.py:181-186 | unleased work is left alone by every claim of a run before its next attempt is due |
| CleanupRuns.TerminalIsFinal | migrations/versions/0024_temporary_proof_cleanup.py:146-146 | terminal work is never claimed again and its row never changes |
| CleanupRuns.ClaimIsEmptyExactlyWhen | migrations/versions/0024_temporary_proof_cleanup.py:132-150 | a valid claim comes back empty exactly when every due receipt of its mount has work that is closed, not yet due, leased or locked |
| CleanupRuns.ReceiptsAreForGood | migrations/versions/0013_temporary_proof_inventory.py:47-76 | a recorded receipt stays over any run, recording it again changes nothing, other times under its key are refused |
| CleanupProgress.ClaimTakesOne | migrations/versions/0024_temporary_proof_cleanup.py:132-159 | an uncontended claim hands out an open receipt (due, its work missing or claimable) if and only if there is one, and closes that one alone |
| CleanupProgress.ClaimsHandOutAllOpen | migrations/versions/0024_temporary_proof_cleanup.py:118-159 | uncontended claims at one instant hand out distinct open receipts as long as there is one; as many claims as open receipts hand out every one of them |
| CleanupProgress.LiveLeaseCommits | migrations/versions/0024_temporary_proof_cleanup.py:143-187 | whatever happens after a claim, a report before its lease runs out, while no claim has read that time, succeeds if and only if its token has not committed yet |
| CleanupProgress.RoundIs | src/request_engine/platform/secrets/temporary_proof_cleanup_worker.py:75-177 | one round of the worker with valid parameters: the two commands never raise, the round does exactly when the worker's admission or reconciliation does and then leaves at most its lease; it is idle exactly when the claim comes back empty, fenced exactly when the lease ran out before the report, and otherwise adds one result; the item claimed was past its expiry by the grace |
| CleanupExact.ClaimIsRefusedExactlyWhen | migrations/versions/0024_temporary_proof_cleanup.py:125-131 | a claim is refused exactly for a parameter missing or out of range |
| CleanupExact.ClaimHandsOutExactly | migrations/versions/0024_temporary_proof_cleanup.py:132-159 | which item an answered claim hands out, every field of its row and of the answer, and what stays |
| CleanupExact.LapsedLeaseIsReclaimed | migrations/versions/0024_temporary_proof_cleanup.py:145-154 | an uncontended claim with nothing else open hands out work whose lease has run out, under a new token and one attempt higher |
| CleanupExact.SelectionIsOrdered | migrations/versions/0024_temporary_proof_cleanup.py:134-141 | new work is selected by expiry, creation, reference and version, and left out only when a hundred come before |
| CleanupExact.ReferenceIs | migrations/versions/0013_temporary_proof_inventory.py:25-26 | a reference is the prefix, a UUID and a number without leading zeros |
| CleanupExact.RecordsExactlyWhen | migrations/versions/0013_temporary_proof_inventory.py:57-76 | a receipt is recorded exactly when it is in order and new or the same as before |
| Deadline.RewriteIsWeave | migrations/versions/0036_webauthn_finalization_deadline.py:24-51 | with each anchor once, in any order, the three replacements yield the body statement by statement with the checks and block marks at their anchors |
| Deadline.CreatedExactlyWhen | migrations/versions/0036_webauthn_finalization_deadline.py:24-55 | with each anchor once the rewritten function can be created if and only if the first write comes before the success; the other texts close a block they have not opened |
| Deadline.LateRunIsAnsweredExactlyWhen | migrations/versions/0036_webauthn_finalization_deadline.py:28-55 | for every body that can be created, a run that comes to the consume past its deadline answers the failure value on unchanged tables if and only if the consume stands between first write and success, and otherwise fails with the private code |
| Deadline.RewriteKeepsMeaning | migrations/versions/0036_webauthn_finalization_deadline.py:14-55 | for every body with its anchors once, in order, after a write-free prefix: the rewritten run is the original one when neither check fires, and otherwise the failure value with all tables unchanged |
| Deadline.PlainStretch | migrations/versions/0036_webauthn_finalization_deadline.py:28-51 | statements that do not raise the private code behave inside the exception block as outside it |
| Deadline.PrefixWritesNothing | migrations/versions/0036_webauthn_finalization_deadline.py:28-36 | a run of the checks before the first write leaves the tables as they were |
| WebAuthn.WebAuthnStore.CreateChallenge | migrations/versions/0034_webauthn_discoverable_binding.py:111-150 | creation refuses, expires the scope's earlier pending challenges, or fails on a constraint, as specified |
| WebAuthn.WebAuthnStore.FinalizeDiscoverable | migrations/versions/0034_webauthn_discoverable_binding.py:244-336 | the rewritten finalizer run step by step, with its rollback, gives the all-or-nothing specification |
| WebAuthn.WebAuthnStore.DeleteOldest | migrations/versions/0037_native_webauthn_challenge_retention.py:247-258 | the loop deletes the oldest candidates row by row, up to the limit, and counts them |
| WebAuthn.FindChallenge | migrations/versions/0034_webauthn_discoverable_binding.py:269-279 | answers a selectable challenge whenever there is one |
| WebAuthn.Oldest | migrations/versions/0037_native_webauthn_challenge_retention.py:254-254 | of a set of challenges the one with the earliest expiry, then the least identifier |
| WebAuthnFinalizer.BodyFits | migrations/versions/0034_webauthn_discoverable_binding.py:261-335 | the discoverable finalizer's body meets the demands of the rewrite |
| WebAuthnFinalizer.RewrittenBodyIsFinalize | migrations/versions/0036_webauthn_finalization_deadline.py:84-90 | rewriting that body gives exactly the all-or-nothing finalizer with its two deadline checks, for every clock |
| WebAuthnFinalizer.OriginalOutlivesDeadline | migrations/versions/0034_webauthn_discoverable_binding.py:308-335 | the body without the rewrite differs from it exactly when an admitted call finds the deadline past at one of the two checks |
| WebAuthnRetention.RetentionIsInvisible | migrations/versions/0037_native_webauthn_challenge_retention.py:245-259 | retention passes anywhere in a run change no answer of challenge creation, of the discoverable finalizer, or of any finalizer that decides and writes by the challenge it finds and the other tables, given fresh challenges and no select at a time before the cutoff of an earlier pass |
| WebAuthnRetention.RetentionIsUnnoticedExactlyWhen | migrations/versions/0037_native_webauthn_challenge_retention.py:245-259 | over any run, every finalizer takes the challenge it would take without the passes if and only if none of them could take a deleted one; then no answer differs |
| WebAuthnRetention.PassIsNoticedExactlyWhen | migrations/versions/0037_native_webauthn_challenge_retention.py:245-259 | a finalizer selecting at a given time can notice a pass if and only if the pass deleted a pending challenge whose expiry is after that time |
| WebAuthnRetention.PassDeletesOldest | migrations/versions/0037_native_webauthn_challenge_retention.py:245-259 | a pass deletes only retainable challenges, oldest first, as many as it reports; an uncontended one that reports fewer than its batch leaves none at its cutoff |
| WebAuthnRetention.PassesDrain | migrations/versions/0037_native_webauthn_challenge_retention.py:245-259 | uncontended passes with one cutoff delete overdue challenges and nothing else, and leave as many as exceed their batches together |
| WebAuthnRetention.PassesNeeded | migrations/versions/0037_native_webauthn_challenge_retention.py:245-259 | with equal batches no overdue challenge is left if and only if the passes times the batch reach their number |
| WebAuthnRuns.OneCeremonyPerChallenge | migrations/versions/0034_webauthn_discoverable_binding.py:269-335 | over any run no challenge and no digest completes two ceremonies of any of the five finalizers; ceremonies completed equal challenges consumed, and sessions made by the discoverable finalizer equal discoverable challenges consumed, deleted ones included |
| WebAuthnRuns.ScopesStayApart | migrations/versions/0034_webauthn_discoverable_binding.py:137-143 | over any run a purpose other than the discoverable one has at most one pending challenge for each scope |
| WebAuthnRuns.SuccessBinds | migrations/versions/0034_webauthn_discoverable_binding.py:281-335 | a session is made only for the owner of the presented active credential, under the expected native authority and stored user handle, from a pending challenge unexpired at both checks, and nothing else changes |
| WebAuthnRuns.SignCountNeverDecreases | migrations/versions/0034_webauthn_discoverable_binding.py:313-322 | over any run signature counters never go down (compare section 6.1.1 of W3C Web Authentication Level 2) |
| WebAuthnExact.CreateSucceedsExactlyWhen | migrations/versions/0034_webauthn_discoverable_binding.py:118-148 | a challenge is created if and only if the call is whole, its purpose fits its scope and handle, it is unexpired, and identifier and digest are unused |
| WebAuthnExact.CreateLeaves | migrations/versions/0034_webauthn_discoverable_binding.py:137-148 | every field of the new row, and which earlier ones expire |
| WebAuthnExact.FinalizeSucceedsExactlyWhen | migrations/versions/0034_webauthn_discoverable_binding.py:261-312 | a session is made if and only if the call is whole, a challenge waits unexpired at every look, the owner stands and the session is new and unexpired |
| WebAuthnExact.FinalizeLeaves | migrations/versions/0034_webauthn_discoverable_binding.py:313-335 | every field of the credential (the counter as the greater of the two, a noted regression), of the session and of the challenge |
| WebAuthnExact.RetainRunsExactlyWhen | migrations/versions/0037_native_webauthn_challenge_retention.py:232-242 | a pass runs exactly for one to ninety days and one to a thousand rows |
| WebAuthnExact.RetainDeletesExactly | migrations/versions/0037_native_webauthn_challenge_retention.py:243-259 | it deletes only unlocked rows expired, and consumed, for the retention in seconds, and leaves one of those only when full, the oldest going first |
| WebAuthnExact.ErrorsAreTrue | migrations/versions/0034_webauthn_discoverable_binding.py:144-147 | what each database error of a creation says is so |
| WebAuthnExact.FinalizeErrorsAreTrue | migrations/versions/0034_webauthn_discoverable_binding.py:324-332 | a finalizer fails only on the session it would make |
| Invitations.InvitationStore.MaterializeInvitedStaff | migrations/versions/0009_staff_email_invitations.py:296-332 | acceptance makes principal, binding and membership and closes the invitation, or changes nothing |
| Invitations.InvitationStore.CreateInvitation | src/request_engine/modules/tenancy/adapters/db/staff_invitation_commands.py:277-313 | an invitation closes the lapsed ones of its email row by row and inserts the new one, or changes nothing |
| InvitationRuns.GuardLetsAcceptancePass | migrations/versions/0009_staff_email_invitations.py:71-113 | trigger and constraints never stop an acceptance that passed its lock; only the tenant root or a collision can |
| InvitationRuns.RevisionTellsStatus | migrations/versions/0009_staff_email_invitations.py:71-113 | in every reachable state pending exactly when revision equals generation, closed exactly when it is one more |
| InvitationRuns.ClosedIsFinal | migrations/versions/0009_staff_email_invitations.py:82-89 | a closed invitation never changes again |
| InvitationRuns.SameRevisionSameRow | migrations/versions/0009_staff_email_invitations.py:81-108 | over any run an invitation keeps its organization, email, inviter, creation and provenance, its revision and generation never fall, and an unchanged revision means an unchanged row |
| InvitationRuns.OnePendingPerEmail | migrations/versions/0009_staff_email_invitations.py:53-54 | over any run an organization has at most one pending invitation for an email |
| InvitationRuns.InviteSucceedsExactlyWhen | src/request_engine/modules/tenancy/adapters/db/staff_invitation_commands.py:288-313 | an invitation is made if and only if the actor may, its identifier is new, its email, provenance, digest and expiry meet the constraints, and the email has no unexpired invitation pending in the organization |
| InvitationRuns.InviteIsRun | src/request_engine/modules/tenancy/adapters/db/staff_invitation_commands.py:288-313 | in a reachable state an invitation is a legal run of at most two guarded writes |
| InvitationRuns.RefusedExactlyWhenRotatedAway | migrations/versions/0009_staff_email_invitations.py:182-210 | among the proofs an invitation has had, those refused as unavailable without a trace are exactly the ones no longer in place |
| InvitationRuns.RotationReturnsExactlyWhen | migrations/versions/0009_staff_email_invitations.py:99-103 | a rotation that passes the guard makes a replaced proof current again if and only if the invitation has had its digest before |
| InvitationRuns.RotatedProofsStayRefusedExactlyWhen | migrations/versions/0009_staff_email_invitations.py:99-103 | over any run every replaced proof stays replaced if and only if no rotation of the run reuses one |
| InvitationRuns.RotatedProofNeverAccepts | migrations/versions/0009_staff_email_invitations.py:99-103 | over a run whose rotations reuse no proof, one that a resend replaced is refused at every later moment without a trace |
| InvitationRuns.GuardAllowsReuse | migrations/versions/0009_staff_email_invitations.py:99-103 | the guard lets a pending proof be rotated away and back, after which every acceptance that passed its lock before passes it again |
| InvitationRuns.AcceptedHasOneOfEach | migrations/versions/0009_staff_email_invitations.py:296-332 | in every reachable state an accepted invitation has exactly one principal, binding and membership, made together and still there |
| InvitationRuns.RepeatedAcceptance | migrations/versions/0009_staff_email_invitations.py:182-310 | at any later moment accepting again as the same identity succeeds and changes nothing, as another it is refused |
| InvitationRuns.OneAcceptancePerIdentity | migrations/versions/0009_staff_email_invitations.py:314-318 | one identity accepts at most one invitation of an organization |
| InvitationExact.UpdatePassesExactlyWhen | migrations/versions/0009_staff_email_invitations.py:81-113 | an update passes if and only if it closes a pending row or rotates its proof, at the next revision, on the authority that takes |
| InvitationExact.InsertPassesExactlyWhen | migrations/versions/0009_staff_email_invitations.py:71-80 | an insert passes if and only if it is the first revision of a pending row in order, by its inviter, with the email free |
| InvitationExact.AcceptanceSucceedsExactlyWhen | migrations/versions/0009_staff_email_invitations.py:182-318 | in a reachable state an acceptance succeeds if and only if its proof is presented and the invitation is pending, unexpired, its inviter and the root stand and its rows are free, or it was accepted by the same identity |
| InvitationExact.AcceptanceMakes | migrations/versions/0009_staff_email_invitations.py:306-332 | every field of the principal, the binding, the membership and the closed invitation |
| InvitationExact.InviteLeaves | src/request_engine/modules/tenancy/adapters/db/staff_invitation_commands.py:288-313 | the new row, the lapsed ones closed, the others as they were |
| InvitationExact.AcceptanceRefusalsAreTrue | migrations/versions/0009_staff_email_invitations.py:190-310 | what each error of an acceptance says is so |
| Roles.Print | scripts/db/materialize_rebaseline_roles.py:42-83 | the printer's loops give the specified text or the first refusal |
| Roles.PrintRoles | scripts/db/materialize_rebaseline_roles.py:48-49 | one statement a role, stopping at a role with a password |
| Roles.PrintGrants | scripts/db/materialize_rebaseline_roles.py:51-66 | one grant a membership, stopping at non-default options |
| Roles.PrintItems | scripts/db/materialize_rebaseline_roles.py:77-81 | one alteration a setting item, stopping at one that assigns nothing |
| Roles.PrintSettings | scripts/db/materialize_rebaseline_roles.py:68-81 | the alterations of all settings in order |
| Roles.LoadRoleStatements | migrations/baseline/loader.py:113-131 | the loader's loop gives the specified map, or the first unexpected or duplicate statement |
| RolesRoundTrip.QuotedReadsBack | scripts/db/materialize_rebaseline_roles.py:9-14 | a quoted name or literal reads back as itself wherever it stands, unless a quote follows it directly |
| RolesRoundTrip.QuotingIsInjective | scripts/db/materialize_rebaseline_roles.py:9-14 | no two texts are quoted alike |
| RolesRoundTrip.StatementIsRecognised | migrations/baseline/loader.py:22-22 | a printed statement with a one-line unquoted name is recognised under exactly that name |
| RolesRoundTrip.PrintsExactlyWhen | scripts/db/materialize_rebaseline_roles.py:21-81 | the printer refuses exactly password roles, non-default memberships and settings that assign nothing |
| RolesRoundTrip.TailLoads | migrations/baseline/loader.py:125-127 | after the roles the loader goes on exactly when there is no membership and no setting item |
| RolesRoundTrip.LoadRecoversExactlyWhen | migrations/baseline/loader.py:113-131 | loading the printed text gives exactly the map from names to statements if and only if names are non-empty, unquoted, on one line and distinct, expiries are on one line, and there are no memberships and no setting items |
| RolesReading.RoleReadsBack | scripts/db/materialize_rebaseline_roles.py:21-39 | name, every flag, the connection limit and the expiry of a role read back from its line |
| RolesReading.StatementsTell | scripts/db/materialize_rebaseline_roles.py:21-39 | two roles that print alike are equal in everything printed |
| RolesReading.GrantReadsBack | scripts/db/materialize_rebaseline_roles.py:60-66 | parent, member and admin option read back from a grant |
| RolesReading.SettingReadsBack | scripts/db/materialize_rebaseline_roles.py:71-81 | role, database, key and value read back from a setting |
| RolesReading.CatalogReadsBack | scripts/db/materialize_rebaseline_roles.py:42-83 | whatever is printed reads back as all that it tells of roles, memberships and settings, in their order |
| RolesReading.PrintedCatalogsTell | scripts/db/materialize_rebaseline_roles.py:42-83 | two catalogs that print the same text tell the same |
| RolesLoading.LoadSucceedsExactlyWhen | migrations/baseline/loader.py:120-131 | lines are loaded if and only if every significant one is a role statement and no two have a name in common; the map is then that from names to statements |
| RolesLoading.RoleNameIs | migrations/baseline/loader.py:22-22 | a line is recognised under a name exactly when it is a role statement of that name |
| RolesLoading.StripIs | migrations/baseline/loader.py:121-121 | stripping takes Python's blanks off both ends and nothing else |
| SeedCompare.SortedKeysSorts | scripts/db/compare_seed_data_catalogs.py:20-20 | the sorted keys are ascending and exactly the given set |
| SeedCompare.ReportsFirstDifference | scripts/db/compare_seed_data_catalogs.py:16-45 | nothing is reported exactly for equal trees without NaN; otherwise the path leads to a genuine difference of the stated kind, with everything earlier in key and index order equal |
| SeedCompare.FirstIsUnique | scripts/db/compare_seed_data_catalogs.py:16-45 | two trees have at most one first difference, so the report is determined |
| SeedCompare.FirstIsUnequal | scripts/db/compare_seed_data_catalogs.py:16-45 | a first difference shows that the trees are not equal |
| SeedPaths.PlainPathsAreUnambiguous | scripts/db/compare_seed_data_catalogs.py:22-27 | steps whose keys hold no dot and do not end in an index are determined by the path they print |
| SeedPaths.EqualPathsMeanEqualPlaces | scripts/db/compare_seed_data_catalogs.py:16-45 | two reports with the same path are about the same place when the keys on the way are of that kind |
| SeedPaths.OtherKeysAreAmbiguous | scripts/db/compare_seed_data_catalogs.py:16-45 | for every other key, two pairs of trees first differ at different places, the first of them at that key, and are reported with the same path and kind |
| SeedPaths.TypeMismatchExactlyWhen | scripts/db/compare_seed_data_catalogs.py:17-18 | a mismatch of types is reported exactly when the Python types differ |
| LoadProbe.Probe.Gather | scripts/operations/http_load_probe.py:272-332 | the shared counters, changed step by step in whatever order the event loop picks, end as the specified run |
| LoadProbe.StepKeepsInv | scripts/operations/http_load_probe.py:272-329 | every step of every task keeps: each issued request is waiting, running or counted, and nothing is issued after a worker left at the deadline |
| LoadProbe.LimitsHold | scripts/operations/http_load_probe.py:256-329 | under any interleaving requests stay within the cap, activity and peak within the concurrency, and the semaphore never makes a worker wait |
| LoadProbe.EveryRequestIsCounted | scripts/operations/http_load_probe.py:321-332 | at the end issued requests equal latency samples equal the sum of status counts, and a run without a duration has issued exactly its cap |
| LoadProbe.CompletedMeansDeadline | scripts/operations/http_load_probe.py:335-339 | a duration run counts as completed exactly when every worker left through the deadline |
| LoadProbe.TalliesAreOutcomes | scripts/operations/http_load_probe.py:292-314 | statuses and errors are those of the requests that ended, each counted once |
| LoadProbe.TimesHold | scripts/operations/http_load_probe.py:277-329 | under a clock that does not go back samples are durations within the run, and a duration run issues every request before its time is up |
| LoadProbe.ErrorRateIsARate | scripts/operations/http_load_probe.py:334-334 | the error rate lies in [0, 1] and is zero exactly when requests were made and none failed |
| LoadProbe.PercentilesAreOrdered | scripts/operations/http_load_probe.py:222-229 | a higher percentile is never below a lower one |
| LoadProbe.PercentileIsWithinSamples | scripts/operations/http_load_probe.py:222-229 | a percentile lies between the least and the greatest sample |
| LoadProbe.PercentileAtRank | scripts/operations/http_load_probe.py:222-229 | at a percentile that falls on a whole rank the answer is the sample of that rank in sorted order |
| LoadProbe.PercentileIsProportional | scripts/operations/http_load_probe.py:222-229 | between two neighbouring whole ranks the percentile divides the distance of their samples in the proportion its rank divides them |
| LoadProbe.PercentileEnds | scripts/operations/http_load_probe.py:222-229 | the percentile at 0 is the least sample and at 1 the greatest |
| LoadProbe.PercentileIgnoresOrder | scripts/operations/http_load_probe.py:222-229 | percentiles do not depend on the order of the samples |
| LoadProbeExact.TestIssuesExactlyWhen | scripts/operations/http_load_probe.py:321-329 | a worker issues exactly below the cap and before the deadline, and else leaves for the reason that holds first |
| LoadProbeExact.PeakIsGreatest | scripts/operations/http_load_probe.py:274-275 | the peak is the greatest number of requests active at one moment |
| LoadProbeExact.SamplesAreDurations | scripts/operations/http_load_probe.py:276-314 | each sample is the time from a request's entry to its end, in the order of the ends |
| LoadProbeExact.LastIssuedIs | scripts/operations/http_load_probe.py:327-328 | the last issue time is that of the latest request issued |
| LoadProbeExact.TalliesCountOutcomes | scripts/operations/http_load_probe.py:292-314 | each status counts its responses, the three other outcomes count under their names, and everything but a response below 300 is an error |
| LoadProbeExact.FiguresAre | scripts/operations/http_load_probe.py:334-338 | the rate is the errors' share, a counted run is complete, and a percentile is missing exactly without samples |

## Left out

- Roles, access lists, row-level security and ownership, the `list_` and `read_` queries, audit records, correlation identifiers and invitation deliveries: no state that the properties depend on.
- Row locks and advisory locks: each command is one atomic step, except that the finalizers read the clock several times; rows skipped because another session holds them are a parameter.
- The baseline functions `assert_staff_manager`, `assert_other_tenant_controller` and the grant triggers enter as predicates of the tables; plain-text conditions on names and provenance of the staff and adoption commands beyond blankness are not modelled.
- A grant's organization in `StaffAuthority`: it always equals its principal's, so the queries' tests on it are not repeated; other tables that make a principal a usable identity are one set.
- The legacy adoption rows that migration 0035 expires, and adoption text arrays' order, which are modelled as sets.
- Statements that insert several rows at once are modelled row by row; the order shows only in the revision their trigger raises.
- NULL elements inside a desired capability array, NULL flags and NULL signature counters, and NULL parameters of the receipt command.
- Text collation: text is ordered by character codes.
- Deadline.EnforceDeadline: works on a flat list of statements rather than on characters, because a statement carries at most one anchor and none stands inside another; an anchor text hidden inside another statement is not represented.
- Deadline.RewriteKeepsMeaning: assumes that no statement of the body raises the private code itself, which no finalizer does.
- WebAuthnRetention.RetentionIsInvisible: the other four finalizers are any function of the challenge found and the tables beside the challenges, to a refusal, an error or writes with the challenge consumed; tables outside the model enter through that function. The discoverable one is modelled statement by statement.
- WebAuthnRuns.SignCountNeverDecreases: assumes of the rest of the system that it keeps credentials and lowers no counter; the other four finalizers count as part of it.
- Withdrawal of an adoption is modelled on table values only, not in place.
- Invitations.InvitationStore.CreateInvitation: starts behind the idempotency record, whose replay reads the earlier invitation, and leaves out the delivery record, the audit and the staged secret; email and provenance arrive normalized.
- CleanupProgress.RoundIs: the admission checks and the reconciliation with the secret store enter as what they find or that they raise.
- Resending and revoking an invitation are covered as particular guarded updates; the acceptance's reads of organizations, identities, sessions and inviters are flags.
- The manifest and checksum tests of the role loader, and Python's failures on malformed catalogs.
- Floating point: percentiles and rates use exact reals, latencies integer ticks; a JSON float is a real, an infinity or NaN.
- Exceptions that `one_request` does not handle, cancellation, the HTTP exchange itself and the plan validation beyond the ranges of its numbers.
- Passkey cryptography, hashing and the generation of identifiers, tokens and digests, which are fresh values.
- Evidence validators, single-step compare-and-set commands and report builders: they would add only easy members.
