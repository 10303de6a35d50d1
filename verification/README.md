# Verification of the open-eIDAS trust kernel

A Dafny model of the parts of the open-eIDAS certification authority that everything else
trusts, with proofs of what they promise: the signed-action protocol and the operator
registry, the hash-chained journal and its replay, the registry audit, the certificate
store and the issuer, the key generations of the time-stamping unit, and the review of
command-line decisions.

Check it with `dafny verify dfyconfig.toml` (Dafny 4.11).

## What is modelled

- **Journal.** `Json` and `Canonical` give the canonical text of a record (serde's JSON
  followed by the HTML-safe escape) and a decoder after section 7 of RFC 8259. `ChainedLog`
  reads a file, whole or resumed; `LogHandles` holds the handles that open, catch up and
  append; `LogIntegrity` says what the head pins down; `LogRuns` interleaves any number of
  handles; `WireForm` spells out what is written. SHA-256 and the JSON reader are parameters
  of the model (`Codec`), assumed collision-free and faithful;
  `LogIntegrity.TrustIsPossible` shows that the assumptions can be met.
- **Registry.** `Actions` holds the actions and who may sign them, `Marks` the marks of
  local acts, `Registry` every transaction on the tables (operators, keys, invitations,
  pending keys) with the event it writes first, and `RegistryLaws` what each demands and
  changes. `Replay` and `Reconcile` are the comparison of journal and database and its
  repair, `ReplayLaws` and `ReconcileLaws` what they make of the events and of the tables,
  `ReplayRuns` whole runs and rollbacks, `RestoreRuns` histories with any number of losses,
  crashes and repairs. `Enrollment` adds ceremonies in memory and racing registrations, and
  `EnrolTrace` follows each key back to the steps that registered it. An operator is
  identified by its name, which is unique and never changes.
- **Signed actions.** `SignedActions` gives each atomic stretch of a call as a function,
  `SignedRuns` the interleaving of any calls with restarts, failures and outside changes.
  `SignedTrace` follows each signature back to the steps that took it, `IssueTrace` each
  action to those that froze it and each effect to the registry it found; `WholeCalls` says
  when a call runs its effect. `ActionService` is the service over mutable tables, which
  keeps a record of the run its calls make up. `SigningPolicy` treats the number of
  signatures, `LastAdmin` the question of the last administrator, `Overlap` what overlapping
  executions can do to it.
- **Audit.** `ChainSpec` defines chains of confirmation and the memoised search,
  `ChainAudit` runs the search with its stack and memo in place, `ChainSoundness` and
  `ChainExactness` relate the two, `ChainRefusals` shows that its reasons are true.
  `HonestRuns` follows a system nobody tampers with and `HonestAudit` shows that its audit
  passes: so a refusal is a sign of tampering.
- **Certificates.** `CertStore` holds the store in memory and over tables, `CertAgreement`
  relates them, `CertStory` tells what they hold of the calls alone. `RequestStore` and
  `RequestStory` do the same for enrolment requests. `Issuer` issues, revokes and publishes,
  `CrlRuns` interleaves publications, `CrlStory` tells what each list says.
- **Small machines.** `TsuKeys` (key generations), `CliReview` (review window), `CliTrace`
  (what is written on the command line and shown to its reader), `Base64Url` (key
  identities).

Where the source changes state, a class does so here, and each of its methods is proved
equal to a function of the old state; the results are proved about those functions.
SQL statements of one transaction are one map update; the clock, drawn identifiers, random
bytes, the digest of a body, the outcome of signature checks, and whether the journal takes
a write are parameters.

## Where the code does less than its documentation says

- The audit can refuse a well-confirmed key when a key with two executed confirmations lies
  on a cycle of confirmations (`ChainExactness.TwoConfirmationsLoseAKey`); when none does,
  its answer is exact in any order (`ChainExactness.AuditExact`). It takes tampered tables to
  make such a cycle (`HonestAudit.NoCircle`).
- The table of requests refuses a decision nobody answers for, which the store in memory
  lets through (`RequestStore.UpdateAgreesIff`).
- The threshold of an action and its effect are two transactions. Three properly signed
  actions that overlap can leave no administrator (`Overlap.OverlapCanEmpty`); executions
  that do not overlap cannot (`LastAdmin.NeverTheLastAdmin`).
- Two overlapping publications can give the higher number to the list with fewer entries
  (`CrlRuns.OverlapLosesAnEntry`); `CrlRuns.ContainsIff` says exactly when.
- A journal that starts at number 0 cannot be resumed exactly after its first record
  (`ChainedLog.ResumeIsExactIff`). A file whose last line is unterminated is accepted but
  spoilt by the next append (`LogHandles.AppendKeepsVerifyIff`), and a handle does not
  notice that its file was cut (`LogHandles.AppendAfterCutIff`).
- After a restored backup, re-enrolling a key that the journal holds revoked, or
  re-creating locally a lost operator whose role was not administrator, makes journal and
  database diverge again (`ReplayRuns.PlayedCoversIff`, `RestoreRuns.RecreatedOperatorDiverges`).
- The marks `bootstrap-admin` and `recover-admin` share a column with operator names. An
  operator named `recover-admin` can exist, and an invitation he signs activates its key
  without confirmation; under the name `bootstrap-admin` that happens only while no
  administrator holds a key, and such an invitation is refused otherwise
  (`Enrollment.InvitedIsDirectIff`, `Enrollment.NamedLikeTheMark`).
- `retire-key --generation 0` names the key of generation 1 (`TsuKeys.LabelSharedIff`) and
  passes the check that protects the key in service when that is generation 1
  (`TsuKeys.RetiresInServiceIff`, `TsuKeys.RetiringZeroAfterOne`).
- `--since` with `--acknowledge` acknowledges more than it lists: decisions before the date
  escape unless they had been reviewed (`CliReview.DatedEscapesIff`).

## Model

| member | source | states |
|---|---|---|
| Base64Url.CredentialId | crates/oe-actions/src/registry.rs:72-87 | the loop over chunks of three bytes computes the unpadded base64url of section 5 of RFC 4648 |
| Base64Url.RoundTrip | crates/oe-actions/src/registry.rs:70-87 | decoding an identity gives back the raw identifier, for every byte string |
| Base64Url.IdentityIsInjective | crates/oe-actions/src/registry.rs:70-87 | distinct raw identifiers never share an identity |
| Base64Url.EncodedLength | crates/oe-actions/src/registry.rs:72-87 | an identity has four symbols for three bytes, rounded up |
| WireForm.SymbolsAre | crates/oe-actions/src/registry.rs:72-87 | the k-th symbol of an identity is the one that the table of section 5 of RFC 4648 gives for the k-th six bits of the raw identifier, zeros past its end |
| Base64Url.ImageOfEncode | bin/ra-console/web/src/b64url.ts:10-17 | a text the client decodes is an identity the registry writes exactly when its unused bits are zero |
| Json.HtmlEscapeJson | crates/oe-audit/src/lib.rs:140-164 | the byte loop escapes `<`, `>`, `&`, U+2028 and U+2029 and copies the rest |
| Json.StringRoundTrip | crates/oe-audit/src/lib.rs:135-164 | an escaped string is decoded, by the rules of section 7 of RFC 8259, to the original |
| Json.BodyHasNoControl | crates/oe-audit/src/lib.rs:135-138 | a serialised string is one line, free of control characters |
| Json.EscapeIsSafe | crates/oe-audit/src/lib.rs:127-134 | after the escape no raw `<`, `>`, `&`, U+2028 or U+2029 is left, whatever the input |
| Json.EscapeIsIdempotent | crates/oe-audit/src/lib.rs:140-164 | escaping twice is escaping once |
| WireForm.ShortestEscape | crates/oe-audit/src/lib.rs:135-138 | each byte of a text is written in the shortest way that section 7 of RFC 8259 has and that reads back as it, with small hexadecimal letters |
| Canonical.ToJsonIsSerialize | crates/oe-audit/src/lib.rs:135-138 | escaping the serialised text of a whole value is serialising with escaped strings |
| Canonical.CanonicalTextIsInjective | crates/oe-audit/src/lib.rs:98-125 | two values with the same canonical text are equal, so a hash of the text covers the value |
| Canonical.CanonicalTextIsOneSafeLine | crates/oe-audit/src/lib.rs:127-138 | the canonical text of any value is one safe line |
| WireForm.LineIs | crates/oe-audit/src/lib.rs:86-138 | the line of a record, name by name: `seq`, `time`, `event`, `data` unless absent, `prev`, then `hash`; what the hash covers is the same without it |
| WireForm.ScalarsAre | crates/oe-audit/src/lib.rs:98-138 | the three words and whole numbers as section 6 of RFC 8259 writes them, no leading zero; read back, a number is itself |
| ChainedLog.ScanChain | crates/oe-audit/src/lib.rs:220-299 | the reading loop gives the verdict of the chain on the lines of the bytes, and on acceptance has consumed every byte and yielded every record, blank lines skipped |
| ChainedLog.ScanSplits | crates/oe-audit/src/lib.rs:220-299 | reading two stretches one after the other is reading them joined, line numbers included |
| ChainedLog.LinesSplit | crates/oe-audit/src/lib.rs:231-243 | the lines of a terminated prefix stay what they are, whatever is appended |
| ChainedLog.ResumeIsExactIff | crates/oe-audit/src/lib.rs:383-397 | resuming after a verified terminated prefix decides every continuation as a whole scan does, exactly when the prefix is not a chain ending at number 0 |
| ChainedLog.WrittenIsRead | crates/oe-audit/src/lib.rs:405-421 | a written record is one line and is read back as that record |
| LogIntegrity.ScanIsChained | crates/oe-audit/src/lib.rs:254-280 | a scan accepts exactly the files whose lines all read and whose records each point at the one before, follow its number and carry their own hash; the report is that of the chain |
| LogIntegrity.HeadDetermines | crates/oe-audit/src/lib.rs:112-125 | two chains with the same head are the same records |
| LogIntegrity.EqualHeadsEqualRecords | crates/oe-audit/src/lib.rs:254-280 | two accepted files have the same head exactly when they hold the same records in the same order |
| LogIntegrity.FaultIsFirst | crates/oe-audit/src/lib.rs:246-280 | a refusal names the first line at fault, the file being sound up to there, and what is wrong with it: unreadable, pointing elsewhere, misnumbered, or not carrying its own hash |
| LogIntegrity.TrustIsPossible | crates/oe-audit/src/lib.rs:98-125 | some hash and reader meet all the assumptions made on them |
| LogHandles.Log.Open | crates/oe-audit/src/lib.rs:349-379 | a handle opens on what a scan of the whole file reports, or fails as the scan does |
| LogHandles.Log.CatchUp | crates/oe-audit/src/lib.rs:383-397 | re-reads from the verified offset, and nothing if the file is now shorter than that; a refused re-reading leaves the handle as it was |
| LogHandles.Log.Append | crates/oe-audit/src/lib.rs:400-430 | catches up, then writes the next record and moves past it; on error neither file nor handle changes |
| LogHandles.Log.Head | crates/oe-audit/src/lib.rs:434-441 | returns the last number and head after catching up |
| LogHandles.AppendKeepsVerifyIff | crates/oe-audit/src/lib.rs:234-240 | appending to an accepted file leaves it accepted exactly when it was empty or ended with a newline |
| LogHandles.AppendAfterCutIff | crates/oe-audit/src/lib.rs:384-421 | when the file was cut under a handle, the handle notices nothing and appends on the head it remembers; the file verifies exactly when the cut took no record |
| LogRuns.AnyInterleaving | crates/oe-audit/src/lib.rs:340-441 | after any interleaving of open, append and head on one initially empty file, the file is terminated and verifies, its records are the appends in order numbered from 1, each handle summarises a verified prefix, and no further call can fail |
| Actions.ExpectIsExact | crates/oe-actions/src/lib.rs:237-297 | an expectation is met exactly by the body whose kind, target, and action if given, it names, with nothing in the other fields; it is ill-formed exactly when it fills other fields than the target's |
| Actions.ExpectPinsTarget | crates/oe-actions/src/lib.rs:237-297 | no expectation lets two bodies through that differ in kind or in target |
| Registry.Store.RunRegistryAction | crates/oe-actions/src/registry_actions.rs:33-342 | the four registry actions: a dry run changes nothing and answers as the execution would; an execution commits tables and event together or changes nothing |
| Registry.Store.BootstrapAdmin | crates/oe-actions/src/onboarding.rs:81-193 | first administrator: refused with a trace when one is active, else invited or re-invited with earlier invitations ended; `RegistryLaws.CallIff` says exactly when and how |
| Registry.Store.RecoverAdmin | crates/oe-actions/src/onboarding.rs:222-340 | recovery: invites or re-invites an administrator under its own mark, with a written reason, disabling nothing |
| Registry.Store.StoreKey | crates/oe-actions/src/enrollment.rs:246-372 | the closing transaction of a registration consumes the invitation and stores the key, together with its event, or does nothing |
| Registry.Store.AnotherActiveAdminKey | crates/oe-actions/src/registry_actions.rs:228-245 | finds whether an active administrator key other than the given one exists |
| RegistryLaws.CallIff | crates/oe-actions/src/registry_actions.rs:33-342 | each call of the registry succeeds exactly when it is well-formed, permitted by the tables, draws what is free, and the journal takes its event; then exactly the named rows change and exactly that event is added; a refusal changes nothing, but bootstrapping a system with an active administrator, always denied, leaves its trace if the journal takes it |
| RegistryLaws.RefusalIff | crates/oe-actions/src/onboarding.rs:51-153 | each refusal of the registry has its own cause, told of the tables: ill-posed, clashing, not written, or else denied |
| RegistryLaws.BootstrapsNeverMatter | crates/oe-actions/src/onboarding.rs:99-124 | in any run, bootstraps that come while an administrator is active are refused and leave the tables as the run without them does |
| RegistryLaws.OneLiveInvitation | crates/oe-actions/src/onboarding.rs:155-164 | over any run, whatever the clock stamps on its calls: from the latest of those instants on, no operator has two live invitations |
| Replay.ReplayEvents | crates/oe-actions/src/replay.rs:100-163 | the loop over events computes the journal's account of keys, roles and acknowledged losses |
| ReplayLaws.FactsAre | crates/oe-actions/src/replay.rs:100-163 | told of the events alone: a key is known once in force or revoked, revoked once it ever was, and its owner is the last one named for it; an operator has the last role given to him, whatever local invitations came since; a loss is acknowledged once an event says so |
| Replay.FindDivergences | crates/oe-actions/src/replay.rs:167-222 | lists, keys first then roles, each in the order of its map, what the account and the tables disagree on |
| Replay.DivergenceIff | crates/oe-actions/src/replay.rs:186-220 | the list holds a divergence exactly when, in so many words, account and tables differ that way |
| Reconcile.Run | crates/oe-actions/src/replay.rs:235-360 | reconciling refuses a blank reason or an unreported key, then resolves each divergence in order, event before commit |
| ReconcileLaws.ReconciliationIs | crates/oe-actions/src/replay.rs:224-360 | a reconciliation is refused exactly when its reason is blank or it acknowledges what is not reported missing, and then does nothing; else it resolves, in order, what its dry run announces, as long as the journal takes an event for each and the table each role; it changes those keys and roles and no other row, writes one event for each and no other, and its error names the first obstacle |
| Reconcile.ReconcileLeavesExactly | crates/oe-actions/src/replay.rs:224-360 | replaying the extended journal over the reconciled database finds exactly the unresolved list, and after a failure also exactly what was not reached |
| Reconcile.AllSettledIff | crates/oe-actions/src/replay.rs:15-20 | a reconciliation that succeeds ends every divergence exactly when each missing key was acknowledged |
| Reconcile.DryRunChangesNothing | crates/oe-actions/src/replay.rs:233-234 | a dry run changes neither database nor journal and announces what the real one would do |
| ReplayRuns.RunNeverDiverges | crates/oe-actions/src/replay.rs:100-163 | over every run of bootstrap, recovery, registration, invite, confirm, revoke and set-role from an empty system, journal failures included, replayed keys, owners, revocations and roles are those of the database, so nothing diverges |
| ReplayRuns.RollbackFindsExactly | crates/oe-actions/src/replay.rs:167-222 | whenever journal and database were together before the loss, after earlier repairs too: with an earlier database under the kept journal, the divergences are exactly the keys revoked since, the live unacknowledged keys added since, and the surviving operators whose role changed |
| ReplayRuns.RollbackIsRepaired | crates/oe-actions/src/replay.rs:224-360 | after such a rollback, a reconciliation that leaves nothing unresolved brings journal and database back together |
| ReplayRuns.RollbackCanBeRepaired | crates/oe-actions/src/replay.rs:224-360 | and acknowledging exactly the missing keys, with a reason and a working journal, always succeeds in that |
| ReplayRuns.PlayedCoversIff | crates/oe-actions/src/replay.rs:104-160 | a committed transaction keeps journal and database together exactly when it brings back no lost key that the journal holds revoked and recreates no lost operator of another role |
| ReplayRuns.CleanRunCovers | crates/oe-actions/src/replay.rs:104-160 | so any run of such transactions keeps them together, after a repair as before it |
| RestoreRuns.AnyHistory | crates/oe-actions/src/replay.rs:166-217 | over any history of calls, crashes between write and commit, restored databases and reconciliations, complete or not: the database holds nothing the journal does not know, and a replay finds nothing exactly when the two are together |
| RestoreRuns.AlwaysMendable | crates/oe-actions/src/replay.rs:224-360 | from wherever such a history has led, acknowledging exactly the missing keys succeeds and brings the two together |
| RestoreRuns.CrashIsRollback | crates/oe-actions/src/registry_actions.rs:306-342 | what a crash between the write and the commit leaves is a rollback of the one call |
| RestoreRuns.RecreatedOperatorDiverges | crates/oe-actions/src/replay.rs:137-143 | from any history that is together, re-inviting a lost operator whose journal role is no longer administrator makes them diverge |
| SignedRuns.AnyInterleaving | crates/oe-actions/src/lib.rs:784-1084 | in every interleaving an action's effect runs at most once, after its record in the journal, and only with the required number of distinct operators, each with its own consumed challenge for the action, each enabled, with an unrevoked key and an allowed role at the threshold |
| SignedRuns.AdminChangesAreDual | crates/oe-actions/src/registry_actions.rs:49-51 | every effect that gives or takes the administrator role rests on two distinct enabled administrators with unrevoked keys, none the one concerned |
| SignedRuns.ReachedIsQualified | crates/oe-actions/src/lib.rs:866-1006 | when the locked transaction reaches the threshold, its signers are enough, distinct, entitled, and grounded in consumed challenges, and the action was not executed before |
| SignedTrace.SignersVerified | crates/oe-actions/src/lib.rs:784-1006 | in every interleaving, behind each signer at the threshold of an effect: one call took his challenge for the frozen body, unused, in time, with what the caller expected, and then, in that call, his assertion verified, by a key then in force of his own, in a role that fits and while the action was possible |
| SignedTrace.ThresholdIff | crates/oe-actions/src/lib.rs:866-1006 | in every interleaving, a verified signature executes its action exactly when it can be admitted, the distinct operators on record with it reach the frozen number, and all of them still stand; below the number it is kept exactly when the journal takes it; else it leaves no trace |
| IssueTrace.GoesOnIff | crates/oe-actions/src/lib.rs:456-859 | in any state, issuing, co-signing, taking a ceremony and verifying each go on exactly when what they read is right, told of the tables and of what the caller gives |
| IssueTrace.EffectsAreIssued | crates/oe-actions/src/lib.rs:549-653 | in every interleaving, behind each effect: the action was frozen, for the window of its kind, by a call that began for someone who could sign it, while it was possible, with as many signatures as the body, the profile and the registry then asked for, two of them only while two could sign; its threshold has as many distinct signers |
| IssueTrace.ApprovalsAreDual | crates/oe-actions/src/quorum.rs:32-41 | in every interleaving, an approval issued under a profile for two has two distinct signers, and one issued under another profile was frozen with one |
| IssueTrace.PerformIff | crates/oe-actions/src/lib.rs:1010-1070 | an announced registry action is performed exactly when the registry of that moment permits it and the journal takes its event, and then makes exactly the change it names |
| IssueTrace.EffectsAreLawful | crates/oe-actions/src/lib.rs:1062-1070 | in every interleaving each effect is that change, permitted by the registry it found, or none |
| IssueTrace.StepNotes | crates/oe-actions/src/lib.rs:549-1027 | in every interleaving a step writes exactly the event of what it does: a challenge issued on the frozen digest, a signature kept below the threshold, an execution announced, each naming action, challenge, signer and key; any other step writes nothing |
| ActionService.Service.IssueChallenge | crates/oe-actions/src/lib.rs:549-653 | issuing takes the two steps of the protocol on the run so far, whatever others did meanwhile, and answers why it stopped or that the action is frozen; `IssueTrace.GoesOnIff` says when it does |
| SigningPolicy.NoMoreSignersThanHolders | crates/oe-actions/src/quorum.rs:63-94 | distinct entitled signers are never more than the holders counted, so an action refused for want of holders could not succeed |
| SigningPolicy.NoFewerWouldDo | crates/oe-actions/src/quorum.rs:25-61 | an effect that changed the registry had the signatures frozen for it, and where policy still asks for that number there, the action goes through with exactly the numbers that are not less |
| SigningPolicy.GraveActionsAreDual | crates/oe-actions/src/quorum.rs:25-47 | in every interleaving a certificate is revoked, or an administrator invited or made, only on two distinct signatures or more |
| ActionService.Service.IssueChallengeFor | crates/oe-actions/src/lib.rs:657-749 | a further signer gets a challenge on the same frozen action, if it is alive, not yet signed by him, and still possible; the two steps of the protocol on the run so far |
| ActionService.Service.TakeCeremony | crates/oe-actions/src/lib.rs:784-839 | a ceremony is taken once, and only if challenge, action, expiry and expectation allow |
| ActionService.Service.LockedTransaction | crates/oe-actions/src/lib.rs:866-1006 | the transaction under the action's lock consumes, records, counts and decides, or leaves everything as it was |
| ActionService.Service.Execute | crates/oe-actions/src/lib.rs:784-1084 | a whole call takes the five steps of the protocol on the run so far, and reports that the effect ran exactly when `WholeCalls.Runs` holds of the state it started from |
| WholeCalls.RunsIff | crates/oe-actions/src/lib.rs:784-1084 | from any reachable state, a call runs an effect exactly when its challenge can be taken in time and as expected, its assertion verified by a key in force of someone who may sign, for an action still possible, it reaches the frozen number with signatories who all still stand, and the journal takes the announcement; the effect is of that signature |
| ActionService.Service.AlwaysSigned | crates/oe-actions/src/lib.rs:549-1084 | after any calls of the service, whatever others did to the registry: each effect ran once, after its record, and properly signed |
| LastAdmin.ActionEmptiesIff | crates/oe-actions/src/registry_actions.rs:203-305 | a registry action that goes through takes the last active administrator key away exactly when it demotes the owner of all of them |
| LastAdmin.NeverTheLastAdmin | crates/oe-actions/src/registry_actions.rs:228-245 | with each execution in one piece, and bootstraps, recoveries and registrations in between: once a run, from any registry, has an active administrator key, it always has one |
| Overlap.OverlapCanEmpty | crates/oe-actions/src/lib.rs:978-1006 | from any reachable state in which three administrators hold one key each, a run of the protocol performs three properly signed actions that overlap and leaves no administrator |
| Overlap.OverlapFromTheStart | crates/oe-actions/src/lib.rs:978-1006 | such a run from a state in which nothing was issued |
| Enrollment.Desk.BeginRegistration | crates/oe-actions/src/enrollment.rs:163-208 | on a live invitation nothing that is over stays in memory, nor anything of the same invitation; its ceremony opens, for five minutes or until the invitation expires, exactly when fewer than 1024 others are still in time, and those stay as they were |
| Enrollment.Desk.FinishRegistration | crates/oe-actions/src/enrollment.rs:214-376 | one attempt per ceremony, then the closing transaction if the invitation still lives and the attestation holds |
| Enrollment.AnyRun | crates/oe-actions/src/enrollment.rs:163-376 | in every run, racing calls included: at most 1024 ceremonies, one per invitation; at most one key registered per invitation; a key under a local mark came with a consumed invitation that a step of the run opened, local or by an operator so named; any other was confirmed by a step of the run, with its fingerprint, under the name of an operator other than its owner |
| EnrolTrace.RegistrationsTraced | crates/oe-actions/src/enrollment.rs:163-376 | in every run, racing calls and restarts included, behind each registered key: one call read an invitation its enabled operator could use and opened a ceremony; another took that ceremony within five minutes, read the invitation again while it could still be used, had a verified attestation of that key, and stored it in tables that permitted it |
| EnrolTrace.GoesOnIff | crates/oe-actions/src/enrollment.rs:124-376 | in any state, each stretch of a registration goes on exactly when the invitation, the ceremony, the attestation and the tables allow it; a ceremony taken up is gone |
| Enrollment.InvitedIsDirectIff | crates/oe-actions/src/enrollment.rs:246-281 | whatever happens between a signed invitation and its use, the key is active at once exactly when the inviter is named `recover-admin`, or `bootstrap-admin` with no administrator key left; it is refused under the second name otherwise, and waits under any other |
| Enrollment.NamedLikeTheMark | crates/oe-actions/src/onboarding.rs:222-340 | from any quiet state of a run without such an operator: he can be recovered under that name, and whom he invites has an active key that no step confirms |
| ChainAudit.ViewOf | crates/oe-actions/src/audit.rs:54-96 | the journal's view holds exactly the active registrations, the confirmations, and for each action the first body hash logged |
| ChainAudit.Auditor.Check | crates/oe-actions/src/audit.rs:271-288 | the memoised search with its stack and memo in place computes the search function, and leaves the stack as it was |
| ChainAudit.Auditor.CheckUncached | crates/oe-actions/src/audit.rs:290-320 | an anchor must be attested by the journal; any other key needs a confirmation that stands |
| ChainAudit.Auditor.CheckConfirmation | crates/oe-actions/src/audit.rs:322-428 | a confirmation is checked signature by signature, each signer's own chain included |
| ChainAudit.AuditRegistry | crates/oe-actions/src/audit.rs:230-264 | the audit reports on each active key in order; accepted keys have a chain of the reported depth, and verdicts are exact when no key with two confirmations lies on a cycle |
| ChainRefusals.RefusesRightly | crates/oe-actions/src/audit.rs:245-428 | in any order and from any truthful memo: the audit reports on each key in force, in order, and on no other; a refusal is for a reason that is true of the key, down through the signers it blames, a cycle being one of confirmations |
| ChainSoundness.AuditSound | crates/oe-actions/src/audit.rs:266-428 | whatever the order and the memo, an accepted key has a finite chain of the reported depth down to anchors of the journal, through confirmations with enough distinct verified signers none of whom owns the key |
| ChainExactness.AuditExact | crates/oe-actions/src/audit.rs:266-428 | when no key with two confirmations lies on a cycle of confirmations, each verdict says exactly whether the key has a chain and how deep, in any order and from any exact memo |
| ChainExactness.LeastFixedPoint | crates/oe-actions/src/audit.rs:245-320 | the keys with a chain are the least set closed under anchoring and confirmation |
| ChainExactness.OneChain | crates/oe-actions/src/audit.rs:266-320 | with at most one confirmation per key, a key has at most one chain |
| ChainExactness.SameAnswer | crates/oe-actions/src/audit.rs:245-264 | under the same condition two audits in different orders accept the same keys |
| ChainExactness.NoChainOnCycle | crates/oe-actions/src/audit.rs:280-282 | a key met again on the stack has no chain at all, when the keys of the cycle have one confirmation each |
| ChainExactness.OrderIndependent | crates/oe-actions/src/audit.rs:245-264 | with at most one confirmation per key, verdict and depth do not depend on the order of the audit |
| ChainExactness.DepthIsAttained | crates/oe-actions/src/audit.rs:384-427 | the depth is the length of some path to an anchor |
| ChainExactness.DepthIsLongest | crates/oe-actions/src/audit.rs:384-427 | no path to an anchor is longer than the depth |
| ChainExactness.TwoConfirmationsLoseAKey | crates/oe-actions/src/audit.rs:280-286 | with two confirmations on a cycle, a well-confirmed key is refused in one order of audit |
| HonestAudit.ReadRegistry | crates/oe-actions/src/audit.rs:137-228 | the audit reads the keys and, grouped by the key they confirm, the executed confirmations with their evidence |
| HonestAudit.NoCircle | crates/oe-actions/src/audit.rs:280-282 | on tables nobody tampered with, no key is reached from itself through the signers of its confirmations |
| HonestAudit.AuditPasses | crates/oe-actions/src/audit.rs:230-428 | after any run from an empty system, whatever order the database answers in, as long as an assertion that verified in the run verifies again: every key has a chain to an anchor of the journal and the audit accepts every key in force; also on an earlier database under a longer journal |
| Hex.RoundTrip | crates/oe-castore/src/postgres.rs:63-66 | a serial read back from its key is the serial |
| Hex.KeepsOrder | crates/oe-castore/src/lib.rs:30-35 | the order of keys is the order of serials |
| CertStore.Memory.Select | crates/oe-castore/src/lib.rs:358-425 | lists the revoked, the ever issued or the active, sorted by serial |
| CertStore.Postgres.Select | crates/oe-castore/src/postgres.rs:304-379 | the selection ordered by key; one unreadable row fails the call |
| CertAgreement.SaveAgreesIff | crates/oe-castore/src/postgres.rs:266-292 | after a save the stores hold the same exactly when the certificate brings no revocation along; the answers differ only in the name of the error on an unreserved serial |
| CertAgreement.ListsAgree | crates/oe-castore/src/postgres.rs:356-379 | both stores list the same certificates in the same order, that of serials |
| CertAgreement.CallersCannotTell | crates/oe-castore/src/postgres.rs:251-379 | after any calls with freshly issued certificates, every list, lookup and next call agrees, but for NotFound against Conflict on an unreserved serial |
| RequestStore.CreateAgreesIff | crates/oe-castore/src/postgres.rs:381-402 | creating a pending request answers alike in both stores, and leaves them alike exactly when it carries nothing of a decision |
| RequestStore.UpdateAgreesIff | crates/oe-castore/src/postgres.rs:439-476 | a decision answers alike when someone answers for it, the table refusing it otherwise, and leaves the stores alike exactly when it keeps the origin of the request |
| RequestStore.CallersCannotTell | crates/oe-castore/src/postgres.rs:381-476 | after any calls of the enrolment flow both stores hold the same requests, find them alike, and answer the next call alike |
| RequestStore.OneDecisionWins | crates/oe-castore/src/postgres.rs:441-444 | after any calls, of two decisions on the same reading of a request the second is a conflict, in both stores |
| RequestStory.RequestIs | crates/oe-castore/src/lib.rs:427-500 | after any calls a request is what the last accepted call on it said, and is there exactly when one was accepted |
| RequestStory.AnswersTell | crates/oe-castore/src/lib.rs:427-500 | a request is accepted exactly when neither its identifier nor its CSR was ever used, a decision exactly when the request is in the state it was read in; each refusal says which is lacking |
| CertAgreement.RunLivesOn | crates/oe-castore/src/lib.rs:311-401 | a serial goes from reserved to issued to revoked only, an issued certificate is final, and so are the date and reason of a revocation |
| CertAgreement.NeverIssuedTwice | crates/oe-castore/src/lib.rs:336-348 | of two saves of one serial the second fails, in both stores |
| CertStory.BothTell | crates/oe-castore/src/lib.rs:311-401 | after any calls with freshly issued certificates, what both stores hold of a serial is told by its first reservation, the first certificate saved since, and the first revocation since that, with its date and its reason |
| CertStory.ListedIff | crates/oe-castore/src/lib.rs:358-425 | a certificate is listed as revoked from that revocation on, as issued from its first save on, as active in between and until it expires |
| CertStory.AnswersTell | crates/oe-castore/src/lib.rs:311-401 | a serial is reserved once, saved once while it waits, revoked from then on; each refusal says which it lacks |
| Issuer.Issuer.ReserveSerial | crates/oe-ca-core/src/lib.rs:420-443 | reserves the first free of five drawn numbers, or fails with nothing changed |
| Issuer.Issuer.Issue | crates/oe-ca-core/src/lib.rs:263-418 | a certificate comes out exactly for a valid name, from an authority in force, with a free number among five, conforming and written in the journal; it is stored under the first free number, and each refusal has its own cause and leaves at most a reservation |
| Issuer.Issuer.RevokeCertificate | crates/oe-ca-core/src/lib.rs:451-489 | revokes exactly for a named operator, an allowed reason, a motive where one is due, a certificate ever issued, and a journal that takes the event; the first date and reason stay; each refusal has its own cause and changes nothing |
| Issuer.Issuer.PublishCrl | crates/oe-ca-core/src/lib.rs:493-601 | the revoked are read, then the number drawn, then the issued serials; the list is saved only after its event, and the number is spent either way |
| CrlRuns.AnyInterleaving | crates/oe-ca-core/src/lib.rs:493-601 | every saved list covers its entries by its issued serials, and holds exactly the serials revoked before its revoked set was read, with the date and reason they still have |
| CrlStory.CrlTells | crates/oe-ca-core/src/lib.rs:493-601 | in any interleaving, a saved list has exactly the certificates revoked by the calls before its first reading, each with the date and the reason of the first revocation that followed its issuance, and, as issued, exactly the serials issued before its second |
| CrlStory.EntryTells | crates/oe-ca-core/src/lib.rs:505-518 | and its entries publish that date and that reason, under that serial |
| CrlRuns.ContainsIff | crates/oe-ca-core/src/lib.rs:499-501 | a list keeps every entry of another exactly when nothing was revoked between its own reading and the other's |
| CrlRuns.LaterKeepsAll | crates/oe-ca-core/src/lib.rs:493-601 | of two publications that do not overlap, the later has the higher number and keeps every entry |
| CrlRuns.OverlapLosesAnEntry | crates/oe-ca-core/src/lib.rs:499-501 | from any reachable state with a certificate in force, an overlap yields a higher number with an entry missing |
| TsuKeys.Find | bin/tsa-server/src/keys.rs:38-57 | the loop over generations fails on the first unreadable answer and else finds the newest key and the newest that matches |
| TsuKeys.FindIs | bin/tsa-server/src/keys.rs:33-57 | the search fails exactly when some answer is unreadable, and else yields the largest generation present and the largest holding the certificate's key |
| TsuKeys.LabelSharedIff | bin/tsa-server/src/keys.rs:16-22 | two generations share a label exactly when they are equal, or 0 and 1 |
| TsuKeys.LabelReads | bin/tsa-server/src/keys.rs:16-22 | the label of a later generation is the configured name, a dot, and its number in decimal without leading zero |
| TsuKeys.RetiresInServiceIff | bin/tsa-server/src/keys.rs:93-111 | of all destructions after any run, those that take the key of the certificate in service away are exactly the confirmed ones of generation 0 while generation 1 is in service |
| TsuKeys.RetiringZeroAfterOne | bin/tsa-server/src/keys.rs:93-111 | one enrolment, then `retire-key --generation 0`: the key in service is gone, and the next enrolment gives its name to a second key |
| TsuKeys.AnyRun | bin/tsa-server/src/main.rs:506-661 | over any run of enrolments and retirements the key in service stays in the token, at most one key is newer, no label is ever given twice, and no two installed certificates share a key |
| TsuKeys.StepIs | bin/tsa-server/src/keys.rs:69-111 | over any run, exactly what each enrolment does: nothing while the certificate serves or a sixty-fifth key would be needed, else it certifies the key that waits, or the next one; and what each destruction does |
| CliReview.ReadReview | bin/ca-server/src/cli_review.rs:54-112 | reads the last acknowledgement from the end, then lists the command-line decisions after it, or those from a given date, failing on a date that does not read |
| CliReview.ListedIff | bin/ca-server/src/cli_review.rs:66-106 | a review lists exactly the command-line decisions of its window, by number or by date, and fails exactly when a date it needs does not read |
| CliTrace.ReviewSays | bin/ca-server/src/cli_review.rs:54-112 | a review lists its decisions in the order of the journal, once each, and says how far the last review on record reached and that it reaches the last record |
| CliTrace.AcknowledgementSays | bin/ca-server/src/cli_review.rs:118-127 | its acknowledgement says who read, how far, from where and how many |
| CliReview.NothingEscapes | bin/ca-server/src/cli_review.rs:54-127 | in any interleaving of appends, reviews and acknowledgements of reviews already read, out of order too, whose acknowledged reviews were read without a date, every command-line decision is listed by the next review or was listed in an acknowledged one |
| CliTrace.ShownAsWritten | crates/oe-ca-core/src/provenance.rs:86-128 | a decision annotated with its way counts as one of the command line exactly when that is its way, and is shown with the operator, the motive and the subject its author declared and the host and user the system told |
| CliTrace.WrittenIsShown | bin/ca-server/src/cli_review.rs:54-127 | so, in such interleavings, each decision written on the command line is shown as it was written, next or in an acknowledged review |
| CliReview.CarefulRunsLoseNothing | bin/ca-server/src/cli_review.rs:54-127 | with dates too, none escapes as long as each acknowledgement covers only decisions listed in its review or in an acknowledged one |
| CliReview.DatedEscapesIff | bin/ca-server/src/main.rs:1408-1482 | acknowledging a review read with `--since` lets a decision escape exactly when one before that date, within its reach, had not been reviewed |

## Left out

- Cryptography and encodings: signature and attestation checks, X.509 and DER building, PKCS#11; their outcomes are parameters.
- JSON numbers other than integers in journal data, and the ordering of object members by the JSON library: objects are lists of members in a given order.
- ChainedLog.ScanChain: numbers are unbounded, the source's are 64-bit; input and output errors of the file are not modelled.
- ChainedLog.WrittenIsRead: the JSON reader is assumed to give back every record as written, members of `data` included, and to refuse a second object after a record; it is not modelled itself.
- Base64Url.ImageOfEncode: the browser's `atob` also skips white space and accepts `+` and `/`; the decoder modelled accepts the URL-safe alphabet only.
- The text of error messages and of the events' other fields; an error is its kind.
- Registry.Store.RunRegistryAction: passkeys, labels, attestation objects, dates of confirmation and revocation, and the invitation token are not modelled; a pending key is known by its identifier and fingerprint.
- SignedRuns.AnyInterleaving: the effects on certificate requests and certificates are opaque answers, and the guard that closes the service is not modelled.
- HonestAudit.AuditPasses: an assertion that verified once is taken to verify again, and identifiers of actions are never drawn twice; reconciliations and disabled operators are not among its moves.
- LastAdmin.NeverTheLastAdmin: reconciling roles after a loss is not a piece of these runs.
- ActionService.Service.IssueChallenge: the reads before the write are one step here; `SignedRuns` lets anything happen between them and the write.
- LogHandles.AppendAfterCutIff: a cut in the middle of a line is covered only if what is left of the line reads as a record; the JSON reader is not modelled, so nothing is said of half a record followed by a whole one.
- Authorities and their revocation list, in the stores and in `crates/oe-ca-core/src/root.rs`, which repeat the patterns of certificates and lists; the listing of requests by date.
- CertAgreement.ListsAgree: the database is taken to order keys byte by byte, whatever its collation.
- Issuer.Issuer.Issue: the subject, extensions and validity of a certificate are opaque; whether the authority itself is revoked, and whether the certificate conforms to its profile, are answers given.
- TsuKeys.AnyRun: a generated key is assumed new and the certificate file is never lost; generation 0 is not asked for while generation 1 is in service, which `TsuKeys.RetiresInServiceIff` shows to be the one case that fails.
- SQL isolation anomalies, connection failures, migrations, HTTP, configuration and the web front end.
