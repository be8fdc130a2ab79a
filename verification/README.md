# Foldex: a verified model of its backup and authentication core

Foldex keeps each account's tags, folders, links and notes, can export them to
an archive and restore them, and guards the account with rotating sessions,
second factors and a single owner. This project models those parts in Dafny and
proves what they promise, over every input and every run.

`dafny verify dfyconfig.toml` checks the whole project.

Every SQL transaction is one atomic step over maps. Hashes and MACs are
injective, so a token or code stands for its own digest; random tokens, ids and
seeds come from a counter, which makes every fresh value new. Where the Go code
changes state step by step, a class holds the tables and each method is proved
to refine the step of the state machine; the theorems are about the state
machine, for all runs.

| files | part of the system |
|---|---|
| `FolderGraph`, `FolderRepair` | making a forest of any archived folder rows: index, drain, cycle search, drain |
| `Wrappers`, `Sets` | options, results, and counting finite sets |
| `Library`, `RoundTrip`, `RestoreEngine` | export, owner-scoped wipe, staged restore, and why the three together give the account back |
| `RestoreLedger`, `ArchiveSlot`, `RestoreService` | the durable ledger that keeps a retried or concurrent restore from inserting twice, and the slot that keeps a process to one archive at a time |
| `TagNames` | free names for restored copies of tags |
| `SessionModel`, `SessionRuns`, `SessionTheorems`, `SessionAnswers`, `SessionStore` | refresh-token rotation with families, replay detection, grace window and absolute lifetime (section 10.4 of RFC 6749, applied to first-party sessions) |
| `TwoFactorModel`, `TwoFactorFrames`, `ChallengeRuns`, `ChallengeTheorems`, `FactorRuns`, `FactorTheorems`, `CodeTheorems`, `EpochTheorems`, `RequestRuns`, `LoginAnswers`, `FactorAnswers`, `ArtefactAnswers`, `Provenance`, `TwoFactorStore` | login challenges, TOTP (section 5.2 of RFC 6238), mailed and recovery codes, and everything bound to the credential epoch |
| `Ownership`, `OwnershipAnswers`, `OwnershipStore` | bootstrap, roles, the owner's seat and its transfer |
| `ActivityFeed` | two tables paged as one list under a composite cursor |
| `DownloadTickets`, `TicketAnswers` | the bounded in-memory table of backup downloads |
| `Encodings` | the byte strings fed to the archive digest and the code MACs |

Three kinds of statement go together. The theorems are about whole runs. The
`Answers` modules say of each transaction when it succeeds, what each refusal
means and which rows move, in terms of the columns alone and with the constants
written out, so that they do not lean on the tests the transactions share.
`Provenance` traces what is accepted back to the step that handed it out. Where
such a lemma asks for ids below the counter, every run provides it.

## What holds only under a condition

Five promises need a condition, which is proved; for the last four a lemma also
gives a concrete case in which the promise fails.

- The folder tree survives export, wipe and restore if and only if no live
  folder lies inside itself (`RoundTrip.ExportWipeRestore`).
- A bootstrap can be refused for good: it claims the pending administrator of
  the smallest id, and a different row marked as owner makes the single-owner
  index refuse it (`Ownership.BootstrapSucceeds`, `Ownership.BootstrapCanBeStuck`).
  It takes two pending administrators, which no code and no migration makes:
  backend/db/migrations/000017_multi_user_auth.up.sql:305-306 inserts one. Were
  there two, 000032_rbac_four_roles.up.sql:38 marks the one created first, and
  the bootstrap claims the one with the smaller id.
- A client that pages the activity feed with an id and no time can lose rows
  that share a moment (`ActivityFeed.LegacyCursorIsExact`,
  `ActivityFeed.LegacyCursorSkips`).
- A restore call that is writing files while its owner is wiped completes the
  ledger of a later call whose files nobody wrote. A wipe is harmless exactly
  when no call of its owner is between its rows and its ledger mark
  (`RestoreLedger.WipeIsSafeExactly`, `RestoreLedger.StaleCallCompletesNewLedger`),
  and the one archive slot of a process sees to that
  (`ArchiveSlot.SlotKeepsFilesMatch`); two processes on one database have two slots.
- The code MACs are unambiguous only below 2^32 bytes per string
  (`Encodings.MailedIsUnambiguous`, `Encodings.LongStringsCollide`).

One comment of the code is not relied on: the transfer of ownership expects the
single-owner index to be checked once per statement
(backend/internal/auth/repository.go:881-886). PostgreSQL checks a plain unique
index row by row, so the model lets the database refuse a transfer that visits
the promoted row first (`promotedFirst`); every theorem holds either way, and
`Ownership.TransferSucceeds` says when a transfer goes through.

## Model

| member | source | states |
|---|---|---|
| FolderRepair.IndexFolders | backend/internal/backup/db_restore_staged.go:609-620 | the index holds exactly the first row of every id, and one warning is made per repeated id, in order |
| FolderRepair.BuildAdjacency | backend/internal/backup/db_restore_staged.go:622-642 | lists the children of every row exactly and leaves pending exactly the rows whose parent exists |
| FolderRepair.DrainParents | backend/internal/backup/db_restore_staged.go:644-669 | settles, each under its own parent, exactly the waiting rows that reach a settled one by following parents |
| FolderRepair.LeftReachesCycle | backend/internal/backup/db_restore_staged.go:644-669 | what a drain leaves waiting reaches a cycle by following parents |
| FolderRepair.CycleSlice | backend/internal/backup/db_restore_staged.go:690-710 | returns only rows on a cycle, and contains the row it started from when that row is on one |
| FolderRepair.MarkCycles | backend/internal/backup/db_restore_staged.go:671-680 | marks a row if and only if it is on a cycle |
| FolderRepair.DetachCycles | backend/internal/backup/db_restore_staged.go:671-688 | every cycle member loses its parent and is settled, and nothing else changes |
| FolderRepair.NormalizeFolderParents | backend/internal/backup/db_restore_staged.go:598-607 | for every list of rows: a row keeps its parent exactly when it is the first of its id, the parent exists and the row is on no cycle; the result is a forest; one warning per repeated id |
| FolderGraph.RepairedIsForest | backend/internal/backup/db_restore_staged.go:598-607 | with the repaired parents every walk ends at a root, whatever the input graph |
| FolderGraph.ForestIsKept | backend/internal/backup/db_restore_staged.go:644-669 | in a forest no row is on a cycle, so the repair leaves it as it is |
| FolderGraph.RepairIsIdempotent | backend/internal/backup/db_restore_staged.go:598-607 | repairing a repaired archive changes nothing |
| FolderGraph.ParentKeptExactly | backend/internal/backup/db_restore_staged.go:598-607 | the repaired parent of a row, spelled out: kept if no earlier row has its id, some row has the parent's id, and the row is on no cycle |
| FolderGraph.LongWalkMeetsCycle | backend/internal/backup/db_restore_staged.go:690-710 | a walk as long as there are rows meets a cycle, so what the drain cannot settle hangs off one |
| RestoreEngine.Database.StreamSnapshot | backend/internal/backup/db_snapshot.go:29-71 | the archive lists exactly the owner's tags, folders, links and notes, each kind in the order of its ids, and the counts are those of what the owner has |
| RestoreEngine.Database.WipeUser | backend/internal/backup/db_wipe.go:28-93 | removes exactly the owner's rows and reports how many of each kind |
| RestoreEngine.Database.RestoreSkipStaged | backend/internal/backup/db_restore_staged.go:21-89 | adds the rows that win their key, every note and one folder per archived id, under the reserved ids and remapped folders, nothing else; inserted and skipped add up to the archive's tags and links |
| RestoreEngine.Database.ApplyWipeRestore | backend/internal/backup/restore.go:192-205 | the wiped account holds the archive, and every other account's rows are untouched; it reports as wiped what the account had and as inserted what it has now, the same numbers when the archive is its own export |
| RestoreEngine.InsertFolders | backend/internal/backup/db_restore_staged.go:186-203 | inserts one folder per archived id, under the repaired parent, and maps every archived id to it |
| RestoreEngine.InsertNotes | backend/internal/backup/db_restore_staged.go:205-224 | inserts every note, in its mapped folder, under its own reserved id |
| RestoreEngine.MapByKey | backend/internal/backup/db_restore_staged.go:754-788 | every archived id resolves to the live row that holds its key |
| RoundTrip.ExportWipeRestore | backend/internal/backup/restore.go:192-205 | export, wipe and restore: other owners untouched; tags, links and notes return one to one with the same columns in the corresponding folders; the folder tree is isomorphic if and only if no folder lay inside itself |
| RoundTrip.TreeReturns | backend/internal/backup/db_restore_staged.go:186-203 | the restored folders form the exported tree if and only if the live tree was acyclic |
| RoundTrip.RestoreKeepsOthers | backend/internal/backup/db_restore_staged.go:21-89 | restoring any archive in skip mode adds rows of the restoring owner only |
| RoundTrip.RestoreKeepsValid | backend/internal/backup/db_restore_staged.go:21-89 | whatever the archive holds, names and URLs stay unique per owner and every folder reference stays inside its owner |
| RoundTrip.RestoreStaysAcyclic | backend/internal/backup/db_restore_staged.go:186-203 | restoring never puts a folder inside itself, even from an archive that does |
| RoundTrip.AsManyReturn | backend/internal/backup/restore.go:192-205 | after export, wipe and restore the account has as many tags, folders, links and notes as before |
| RoundTrip.GoesInExactly | backend/internal/backup/db_restore_staged.go:21-89 | beside what is there, an archived tag or link goes in exactly when its owner holds its key nowhere and no earlier row has it, with its own columns in its mapped folder; what was there stays |
| Library.CycleIsLive | backend/internal/backup/db_snapshot.go:29-71 | an exported folder row is on a cycle exactly when the live folder lies inside itself |
| RestoreLedger.RunKeepsInv | backend/internal/backup/restore_ledger.go:33-62 | in every interleaving of calls, crashes and wipes a ledger row carries the counts of the one insertion since the owner's last wipe |
| RestoreLedger.RowsGoInOnce | backend/internal/backup/restore.go:100-138 | between two wipes of an owner an archive's rows are inserted at most once, wherever calls stop and however they overlap: a later insertion is of a later epoch |
| RestoreLedger.ReportsAgree | backend/internal/backup/restore.go:252-274 | all calls for an archive that began since the owner's last wipe and returned report the counts of its one insertion |
| RestoreLedger.FilesMatchWithoutSpans | backend/internal/backup/restore.go:237-250 | in every run in which no wipe of an owner falls between the beginning of one of its calls and that call's marking of the ledger, a completed ledger was completed by a call that wrote files under that ledger's own mapping |
| RestoreLedger.WipeIsSafeExactly | backend/internal/backup/restore.go:192-205 | as long as every wipe is made while no call of its owner is between writing its rows and marking their ledger, completed ledgers speak of their own files; and a wipe can be followed by no failure if and only if it is made then |
| RestoreLedger.StaleCallCompletesNewLedger | backend/internal/backup/restore_ledger.go:218-235 | a reachable state in which a call that outlived a wipe has completed the ledger of a later call that wrote no files |
| RestoreLedger.AttemptAnswers | backend/internal/backup/restore.go:100-138 | an attempt writes rows only where it finds no ledger, and then with one; a lost race may be tried again twice, any other failure ends the call |
| RestoreLedger.CompletionAnswers | backend/internal/backup/restore_ledger.go:218-235 | a call reports a success only if its ledger row is still there to be marked |
| ArchiveSlot.SlotKeepsFilesMatch | backend/internal/backup/handler.go:165-188 | with one slot for all archive work of a process, in every run with crashes at any point: one call at a time is under way, a wipe meets none, and completed ledgers speak of their own files |
| ArchiveSlot.SlotRunsProtocol | backend/internal/backup/handler.go:249-258 | what a process with the slot does is a run of the restore protocol, so everything proved of its runs holds |
| ArchiveSlot.SlotAnswers | backend/internal/backup/handler.go:165-188 | only a free slot is taken, only its holder works, and it is free again exactly when the work is over or the process dies |
| RestoreService.Service.LookUp | backend/internal/backup/restore.go:88-98 | the look outside the transaction refines the protocol step |
| RestoreService.Service.ApplyTransaction | backend/internal/backup/restore.go:100-138 | one attempt refines the protocol step: it resumes a ledger found under the lock, or inserts and saves one |
| RestoreService.Service.CompleteLedger | backend/internal/backup/restore_ledger.go:218-235 | marks the row and returns, or fails when the row is gone |
| RestoreService.Service.WriteRows | backend/internal/backup/restore.go:41-52 | at most three attempts; the rows go in once, with the counts of the first attempt that commits after lost races only, and not at all when there is none |
| RestoreService.Service.Restore | backend/internal/backup/restore.go:24-65 | succeeds exactly when the archive's ledger is complete, or the files can be written and its rows are in or one of three attempts puts them in; it reports the counts of that one insertion, and a failed transaction leaves everything as it was |
| TagNames.StripUndoesNumbering | backend/internal/backup/db_restore_staged.go:314-323 | removing a numbered suffix from a numbered name gives back its base, whatever the base ends with |
| TagNames.CandidatesAreNumbered | backend/internal/backup/db_restore_staged.go:290-294 | the names tried are the base and then the base, a space and the attempt's decimal number in parentheses |
| TagNames.CandidatesAreRelevant | backend/internal/backup/db_restore_staged.go:309-344 | a candidate is a live name if and only if it is among the names the query returns |
| TagNames.PreloadIsEnough | backend/internal/backup/db_restore_staged.go:275-307 | allocating against the preloaded names gives the same result as against all live names of the owner |
| TagNames.AllocatedNamesAreFree | backend/internal/backup/db_restore_staged.go:288-305 | allocated names differ from each other and from every live name, and each is the first free one of its base |
| TagNames.CandidatesDiffer | backend/internal/backup/db_restore_staged.go:290-294 | different attempts try different names |
| TagNames.AllocationSucceeds | backend/internal/backup/db_restore_staged.go:288-305 | non-empty bases are all given names while the names concerned and the bases together stay below the number of attempts |
| TagNames.FindsNameExactly | backend/internal/backup/db_restore_staged.go:288-305 | a base finds a name if and only if one of its first 999 candidates is free |
| TagNames.EmptyBaseIsRefused | backend/internal/backup/db_restore_staged.go:302-304 | an empty base that is free counts as unnamed and refuses the whole restore |
| TagNames.AllocateDuplicateTagNames | backend/internal/backup/db_restore_staged.go:275-307 | the loop over the preloaded names computes the allocation over all live names, or reports too many collisions |
| SessionTheorems.AccessDiesWithItsFamily | backend/internal/auth/rotate.go:173-184 | in every run an access token stops resolving at birth + absolute + grace + access, however often its family rotates or is replayed |
| SessionTheorems.BirthsAreKept | backend/internal/auth/repository.go:1397-1410 | a family's birth is written by the login that opens it and never moves |
| SessionTheorems.CeilingIsTight | backend/internal/auth/rotate.go:234-321 | a run in which a token resolves one second before that bound: no smaller bound holds |
| SessionTheorems.ConsumedIsNobodys | backend/internal/auth/rotate.go:102-131 | in every run a consumed refresh token is no session's refresh token |
| SessionTheorems.RotatesAtMostOnce | backend/internal/auth/rotate.go:95-139 | in every run one refresh token takes the live rotation path at most once |
| SessionTheorems.DeadFamilyForever | backend/internal/auth/rotate.go:349-367 | once a whole family is revoked no later step makes one of its sessions live |
| SessionTheorems.ReuseEndsTheFamily | backend/internal/auth/rotate.go:212-232 | a replay answered as reuse ends its family for good, also after its consumed-token trail is purged |
| SessionTheorems.ReuseExactly | backend/internal/auth/rotate.go:205-255 | a replay is answered as reuse exactly outside the grace window, or inside it when the family is at its cap |
| SessionTheorems.FamilyIsCapped | backend/internal/auth/rotate.go:38 | in every run a family has at most five unrevoked sessions |
| SessionTheorems.GraceKeepsEveryToken | backend/internal/auth/rotate.go:234-321 | a replay inside the grace window takes no token away from anyone and, for an active account and a positive access lifetime, hands out one that resolves |
| SessionTheorems.RacingTabsBothWork | backend/internal/auth/rotate.go:234-346 | of any two tabs that present one refresh token, the first answered by the rotation or as a sibling, the second inside the grace window, both hold access tokens that resolve afterwards, with any traffic in between, further tabs included, that leaves their sessions, the other tokens of the family and the account alone, unless the family is full by then |
| SessionAnswers.RotatesExactly | backend/internal/auth/rotate.go:95-197 | a presented token is rotated if and only if it was not rotated away and an unrevoked session holds it within its refresh term and the family's lifetime, for an active account |
| SessionAnswers.RotationMovesTokens | backend/internal/auth/rotate.go:325-347 | a rotation gives one session two tokens never handed out before, for their full terms, keeps account, family and birth, records the token presented, and changes nothing else |
| SessionAnswers.HolderIsRefused | backend/internal/auth/rotate.go:173-197 | a token held in its term by a family past its lifetime, or by a disabled account, gets nothing and ends that family |
| SessionAnswers.TrailAnswers | backend/internal/auth/rotate.go:205-288 | what a token rotated away still gets, decided by its age, by its session and by how many of the family's sessions are unrevoked |
| SessionAnswers.ReplayAddsSibling | backend/internal/auth/rotate.go:290-321 | a racing tab gets a session of its own, with fresh tokens and the family's birth, and nobody's session changes |
| SessionAnswers.ReuseEndsOneFamily | backend/internal/auth/rotate.go:212-232 | a replay revokes exactly its family and forgets exactly its trail |
| SessionAnswers.LateRefreshNeverRotates | backend/internal/auth/rotate.go:155-171 | in every run a refresh token handed out at some moment is not rotated once its refresh term from then on is over |
| SessionAnswers.LateAccessLetsNobodyIn | backend/internal/auth/repository.go:1262-1287 | in every run an access token handed out at some moment lets nobody in once its access term is over |
| SessionAnswers.LoginOpensFamily | backend/internal/auth/repository.go:1300-1410 | a login at the proven epoch opens one session, the first of a new family born now, and any other login opens none |
| SessionAnswers.SignOutEndsExactly | backend/internal/auth/repository.go:1456-1525 | a logout, a sign-out everywhere and a new password end exactly the sessions they are for |
| SessionAnswers.SignedOutForGood | backend/internal/auth/repository.go:1456-1525 | a session ended that way lets nobody in and rotates nothing in any continuation of the run |
| SessionAnswers.DeletionTakesExactly | backend/internal/auth/repository.go:1527-1549 | the sweeper takes exactly the sessions whose refresh term ended longer ago than the retention, a deleted account exactly its own |
| SessionRuns.RunKeepsInv | backend/internal/auth/rotate.go:95-139 | every run keeps: unique tokens, consumed tokens nobody's, births shared by siblings, families capped |
| SessionStore.Repository.RotateOnce | backend/internal/auth/rotate.go:95-139 | hands out new tokens if and only if the token was not rotated away and an unrevoked session holds it within its refresh term and the family's lifetime, for an active account; a token past its term gets nothing and changes nothing |
| SessionStore.Repository.HandleConsumed | backend/internal/auth/rotate.go:205-321 | the answer to a consumed token refines the exchange: replay, refusal or sibling |
| SessionStore.Repository.WriteNewTokens | backend/internal/auth/rotate.go:325-347 | records the presented token as consumed and installs the fresh triple on the same row |
| SessionStore.Repository.RevokeAndPurgeFamily | backend/internal/auth/rotate.go:349-367 | revokes every session of the family and drops its trail |
| SessionStore.Repository.Rotate | backend/internal/auth/rotate.go:79-93 | at most three attempts; a lost attempt leaves nothing behind, the winning one is one exchange, and answers with new tokens exactly under the conditions of RotateOnce |
| SessionStore.Repository.Issue | backend/internal/auth/repository.go:1300-1335 | succeeds exactly for an active account at the proven epoch, with both tokens of one new session, of which the access token resolves |
| SessionStore.Repository.ResolveAccess | backend/internal/auth/repository.go:1262-1287 | lets a token in if and only if an unrevoked session of an active account holds it within its term, and names the disabled account exactly when only that is missing |
| SessionStore.Repository.RevokeFamilyByTokens | backend/internal/auth/repository.go:1472-1496 | revokes exactly the sessions of the families either cookie names, directly or through a consumed token |
| SessionStore.Repository.RevokeAll | backend/internal/auth/repository.go:1499-1519 | revokes exactly the sessions of the account and moves its epoch by one |
| ChallengeRuns.RunKeepsInv | backend/internal/auth/repository_2fa.go:131-247 | in every run: one unspent challenge per account and purpose, counters equal to what its lineage was charged, unspent codes only on challenges no reset link proved, lineages of one key one after the other |
| ChallengeRuns.CreateKeepsInv | backend/internal/auth/repository_2fa.go:131-194 | creating or replacing a challenge keeps all of that |
| ChallengeTheorems.BudgetOutlivesReplacement | backend/internal/auth/repository_2fa.go:131-247 | from any open challenge until its expiry, unless one of the same account, purpose and epoch is completed or consumed, at most 5 guesses and 3 sends are charged in all, and each send comes more than its own configured cooldown, never below 60 seconds, after the one before it, however many replacements are created |
| ChallengeTheorems.LinkIsNotPairedWithMail | backend/internal/auth/twofa_handler.go:405-457 | from a challenge whose first factor was a reset link, no code is mailed and no mailed code completes the login, across replacements |
| ChallengeTheorems.StepCounts | backend/internal/auth/repository_2fa.go:340-384 | a charge on any challenge of a key is a charge on its one open lineage, and nothing else is |
| ChallengeRuns.CooledIsSpaced | backend/internal/auth/repository_2fa.go:440-455 | a send that passes the test comes more than the configured cooldown, never below 60 seconds, after the last send of the lineage, also when that code was moved |
| ChallengeRuns.LoginProofKeepsInv | backend/internal/auth/repository_2fa.go:871-909 | a mailed code completes a login only for a challenge no link proved |
| FactorRuns.RunKeepsFactors | backend/internal/auth/repository_2fa.go:1091-1190 | in every run recovery codes exist only beside a confirmed factor, an unspent step-up code only beside the confirmed e-mail factor, and no two accounts share a TOTP seed |
| FactorRuns.ProofMeansFactor | backend/internal/auth/repository_2fa.go:958-984 | whoever can prove a second factor has one, before and after the proof is spent |
| FactorRuns.DisableKeepsFactors | backend/internal/auth/repository_2fa.go:1091-1154 | both removal paths keep the mutual invariant |
| FactorTheorems.ProofsAreSpentOnce | backend/internal/auth/repository_2fa.go:871-995 | a TOTP step, recovery code, login code or factor code accepted once by any transaction is not accepted again by any other before it is handed out anew |
| FactorTheorems.TimeStepsIncrease | backend/internal/auth/repository_2fa.go:922-935 | the time steps accepted for one seed strictly increase over the run, enrollment confirmation included |
| FactorTheorems.TotpRemovalNeedsProof | backend/internal/auth/repository_2fa.go:1024-1042 | a confirmed authenticator disappears only with its account or against a proof spent in the same step |
| FactorTheorems.EmailRemovalNeedsProof | backend/internal/auth/repository_email_factor.go:267-308 | a confirmed e-mail factor disappears only with its account or against a proof spent in the same step |
| FactorTheorems.SessionNeedsProof | backend/internal/auth/repository_2fa.go:744-869 | a session is opened from a challenge, by a login or by an enrollment before the first session, only while the challenge is live and against a proof of its own account, which is spent with it: a confirmed factor or a code mailed for that challenge, or the time step or mailed code that confirms the factor being enrolled |
| CodeTheorems.OnlyTheLatestLives | backend/internal/auth/repository_2fa.go:459-464 | in every run an account has at most one unspent login code, enrollment code, step-up code, reset link and address change |
| EpochTheorems.OldEpochNeverCommits | backend/internal/auth/repository_2fa.go:351-376 | whatever was minted at an epoch, a challenge, reset link, address change, link redirect or pending factor: once the epoch has moved past it or the account is gone, it is never acted on again, whether or not its row still exists |
| EpochTheorems.EpochMovesExactly | backend/internal/auth/repository_2fa.go:1142-1146 | exactly the credential-changing steps move the epoch, by one, and of no other account |
| EpochTheorems.OneSessionPerChallenge | backend/internal/auth/repository_email_factor.go:235-258 | a challenge that opened a session, by completing a login or by enrolling a factor before the first session, opens no other, and no later step acts on it |
| EpochTheorems.RunKeepsLogins | backend/internal/auth/repository_2fa.go:836-857 | in every run no two sessions came from one challenge, and a challenge a session came from has ended |
| EpochTheorems.CredentialChangeEndsSessions | backend/internal/auth/repository_2fa.go:1142-1154 | a change of credentials ends for good every session of its account but the one it was made from, and no other account's |
| EpochTheorems.RedeemedOnce | backend/internal/auth/repository_2fa.go:1421-1500 | a reset link or address change is redeemed at most once, and a redirect comes back at most once |
| EpochTheorems.OldSessionNeverCommits | backend/internal/auth/repository_email_change.go:243-270 | once a session has ended, no address change, link or authenticator enrollment asked for in it is ever acted on |
| RequestRuns.FiveCodesPerLogin | backend/internal/auth/twofa_handler.go:275-303 | at most five codes are ever tested for one login, the challenge that opened it and all its replacements, however requests interleave and wherever they die |
| RequestRuns.LinkedOnce | backend/internal/auth/oauth_handler.go:333-537 | a redirect links an identity at most once, because only the request that took it back tries |
| LoginAnswers.CreationAnswers | backend/internal/auth/repository_2fa.go:131-194 | a standing account gets a challenge that is the one of its purpose left to use, any other account none, and nobody else's challenge changes |
| LoginAnswers.ReplacementInherits | backend/internal/auth/repository_2fa.go:203-247 | a replacement has the guesses, sends and time left of the challenge it replaces, keeps its provenance, and the codes follow it spent |
| LoginAnswers.SendingAnswers | backend/internal/auth/repository_2fa.go:426-513 | a code is mailed exactly for an open login challenge that no link proved, of an enrolled account, with fewer than three sends, past the cooldown; each other answer names the first reason missing |
| LoginAnswers.MailedCodeStandsAlone | backend/internal/auth/repository_2fa.go:459-472 | the code mailed is the one unspent code of its account, for this challenge and its own lifetime |
| LoginAnswers.CompletionAnswers | backend/internal/auth/repository_2fa.go:814-909 | a login is completed exactly with a proof of its own account while its challenge is open and within its guesses; every other answer leaves the tables as they were |
| LoginAnswers.LoginSpendsAndOpens | backend/internal/auth/repository_2fa.go:814-869 | a completed login spends its proof and its challenge, opens one session of the challenge's account, and moves nothing else |
| FactorAnswers.ProofAnswers | backend/internal/auth/repository_2fa.go:911-995 | a second factor is proved by a later time step, an unused recovery code or a running step-up code of the account, which is used up, and by nothing else |
| FactorAnswers.PasswordAnswers | backend/internal/auth/repository.go:430-521 | a password is added from a live session; with any confirmed factor it takes a proof and spends it, without one it takes none |
| FactorTheorems.PasswordNeedsProof | backend/internal/auth/repository.go:495-521 | a password is added to an account with a confirmed factor only by a step that spends a proof, which no later step accepts again |
| FactorAnswers.TotpRemovalAnswers | backend/internal/auth/repository_2fa.go:1091-1154 | an authenticator is removed exactly from a live session against a proof, with the recovery codes if it was the last factor, and no other account's rows change |
| FactorAnswers.EmailRemovalAnswers | backend/internal/auth/repository_email_factor.go:267-308 | the same of the e-mail factor, with every code it mailed |
| FactorAnswers.RegenerationAnswers | backend/internal/auth/repository_2fa.go:1160-1190 | against a proof exactly the new recovery codes are accepted from then on, and the other accounts' stay |
| FactorAnswers.TotpConfirmationAnswers | backend/internal/auth/repository_2fa.go:744-810 | a secret is confirmed exactly where it is the pending one of the epoch, started in the same session or before any, and its challenge can still be spent |
| FactorAnswers.EmailConfirmationAnswers | backend/internal/auth/repository_email_factor.go:141-258 | the e-mail factor is confirmed exactly with a running code of the account while it is pending for the epoch, and the code is spent with it or not at all |
| FactorAnswers.EmailStartAnswers | backend/internal/auth/repository_email_factor.go:48-129 | the e-mail factor is started exactly by a standing account past the cooldown that has none confirmed, and its code is the one enrollment code left unspent |
| FactorAnswers.StepUpAnswers | backend/internal/auth/repository_email_factor.go:329-398 | a step-up code is mailed exactly from a live session of an account with a confirmed e-mail factor past the cooldown |
| ArtefactAnswers.RedeemingAnswers | backend/internal/auth/repository_2fa.go:1421-1500 | a reset link or address change is acted on exactly while it is unspent and in time, for a standing account and a session that goes on; it is spent, the epoch moves and every session ends |
| ArtefactAnswers.MintingAnswers | backend/internal/auth/repository_oauth.go:110-137 | what is handed out is bound to the account's epoch, its lifetime and, but for a reset link, the session; it spends the older ones of its kind, redirects apart |
| ArtefactAnswers.LinkingAnswers | backend/internal/auth/repository_oauth.go:279-329 | an identity is linked exactly on a redirect that came back, for a standing account in the session that asked for it |
| ArtefactAnswers.ConversionAnswers | backend/internal/auth/repository_oauth.go:355-475 | a conversion is made exactly on an open challenge of its purpose, which is spent while the epoch moves and every session ends |
| ArtefactAnswers.SweepTakesExactly | backend/internal/auth/repository_2fa.go:1547-1568 | the sweeper takes exactly what ended longer ago than the retention, a code also with its challenge |
| Provenance.MailedLoginIsInTime | backend/internal/auth/repository_2fa.go:871-909 | in every run a mailed code completes a login only if it was mailed for this very challenge, less than its lifetime ago |
| Provenance.FactorCodeIsInTime | backend/internal/auth/repository_email_factor.go:198-233 | in every run an enrollment or step-up code is accepted only if it was mailed to the account for that use, less than its lifetime ago |
| Provenance.RecoveryIsOwn | backend/internal/auth/repository_2fa.go:1160-1190 | in every run a recovery code is accepted only of the account an enrollment or a regeneration made it for |
| Provenance.ArtefactIsInTime | backend/internal/auth/repository_email_change.go:209-245 | in every run a link or redirect is acted on less than its lifetime after it was handed out to its account, at the epoch it was handed out at |
| TwoFactorStore.Repository.CreateChallenge | backend/internal/auth/repository_2fa.go:131-194 | refines the transaction, and the challenge created is the only one of its account and purpose left to use |
| TwoFactorStore.Repository.BumpAttempt | backend/internal/auth/repository_2fa.go:340-384 | refines the charge of one guess; a charged challenge is still live and carries at most five |
| TwoFactorStore.Repository.ConsumeChallenge | backend/internal/auth/repository_2fa.go:388-414 | spends a challenge exactly when it is live, and none is live afterwards |
| TwoFactorStore.Repository.CreateChallengeEmailOTP | backend/internal/auth/repository_2fa.go:426-478 | refines the guarded send; at most three are charged, and the code mailed is the only unspent one of the account |
| TwoFactorStore.Repository.ConsumeChallengeProof | backend/internal/auth/repository_2fa.go:871-909 | spends the first of the three proofs a code turns out to be: a later time step of the confirmed authenticator, an unspent mailed code of this challenge in its time, an unused recovery code; or nothing |
| TwoFactorStore.Repository.Complete2FA | backend/internal/auth/repository_2fa.go:814-869 | logs in if and only if the challenge is open, awaits a second factor, was guessed at no more than five times and one of the three proofs is accepted, a mailed code only before it expires; proof and challenge are spent together for one session of the challenge's account |
| TwoFactorStore.Repository.Verify2FA | backend/internal/auth/twofa_handler.go:259-339 | a guess is charged before it is checked and stays charged when the check fails; it logs in if and only if fewer than five were charged and Complete2FA's conditions hold |
| TwoFactorStore.Repository.ConsumeProof | backend/internal/auth/repository_2fa.go:958-984 | spends the proof of the named method, or nothing |
| TwoFactorStore.Repository.ConsumeSecondFactor | backend/internal/auth/repository_2fa.go:1002-1017 | spends a proof on its own |
| TwoFactorStore.Repository.StartTotp | backend/internal/auth/repository_2fa.go:579-633 | refines starting a TOTP enrollment, never over a confirmed one |
| TwoFactorStore.Repository.CompleteTotp | backend/internal/auth/repository_2fa.go:744-810 | confirms exactly the verified seed of its epoch, started in the same session or before the first one, makes the new recovery codes the only ones accepted, and spends a pre-auth challenge for the first session, or does none of it |
| TwoFactorStore.Repository.StartEmail | backend/internal/auth/repository_email_factor.go:48-129 | refines starting the e-mail factor under the cooldown |
| TwoFactorStore.Repository.CompleteEmail | backend/internal/auth/repository_email_factor.go:141-258 | spends the code, confirms the factor, which a session does only for what it started, makes the new recovery codes the only ones accepted, and spends a pre-auth challenge for the first session, or does none of it |
| TwoFactorStore.Repository.SendStepUp | backend/internal/auth/repository_email_factor.go:329-398 | mails a step-up code only for a confirmed e-mail factor, under the cooldown |
| TwoFactorStore.Repository.DisableTotp | backend/internal/auth/repository_2fa.go:1024-1042 | removes the authenticator against a spent proof, the recovery codes with the last factor and every other session, and moves the epoch; a refused removal changes nothing, its proof included |
| TwoFactorStore.Repository.DisableEmail | backend/internal/auth/repository_email_factor.go:267-308 | the same for the e-mail factor, with every code it mailed |
| TwoFactorStore.Repository.Regenerate | backend/internal/auth/repository_2fa.go:1160-1190 | against a spent proof the new recovery codes become the only ones accepted |
| TwoFactorStore.Repository.SetPassword | backend/internal/auth/repository.go:430-521 | with a confirmed authenticator or e-mail factor a password is added if and only if a proof is accepted, and exactly that proof is spent: without one the transaction is refused and changes nothing; the epoch moves and only the session it was set from is left |
| TwoFactorStore.Repository.Mint | backend/internal/auth/repository_oauth.go:110-137 | mints a link redirect, only from a live session, a reset link or an address change at the live epoch, superseding the older of the last two kinds |
| TwoFactorStore.Repository.Redeem | backend/internal/auth/repository_email_change.go:151-245 | acts if and only if the reset link or address change is unspent, in time, of an active account at its epoch, and the session it was asked for in lasts; it moves the epoch and leaves the account without a session |
| TwoFactorStore.Repository.TakeLinkState | backend/internal/auth/repository_oauth.go:144-168 | spends a redirect once |
| TwoFactorStore.Repository.ConvertToProvider | backend/internal/auth/repository_oauth.go:355-475 | spends a live conversion challenge, moves the epoch and leaves the account without a session, or does none of it |
| TwoFactorStore.Repository.LinkIdentity | backend/internal/auth/repository_oauth.go:279-329 | links only on a spent redirect of the live epoch, in the session that asked for it |
| TwoFactorStore.Repository.SetStatus | backend/internal/auth/repository.go:784-803 | enabling or disabling an account moves its epoch |
| SessionStore.Repository.RevokeSession | backend/internal/auth/repository.go:1456-1467 | revokes the session named if it is the caller's own and not over, which is what it reports, and no other |
| SessionStore.Repository.ChangePassword | backend/internal/auth/repository.go:523-568 | moves the epoch by one and revokes exactly the account's sessions other than the one kept |
| Ownership.SeatIsNeverLost | backend/internal/auth/repository.go:608-973 | from the first successful bootstrap on, in every run: exactly one owner, active; a second bootstrap is refused; administrators never zero; the last-administrator guard never has to act |
| Ownership.BootstrapSucceeds | backend/internal/auth/repository.go:354-425 | a bootstrap claims the oldest pending administrator or a new row, and succeeds exactly when nobody is active, the address is free and no other row is the owner |
| Ownership.BootstrapCanBeStuck | backend/internal/auth/repository.go:386-407 | with a pending owner behind a pending administrator of a smaller id, a table only an edited database holds, every bootstrap is refused |
| Ownership.TransferSucceeds | backend/internal/auth/repository.go:891-973 | with an owner in place a transfer succeeds exactly when the holder of the seat makes it to another active account and the database does not visit the promoted row first |
| Ownership.TransferMovesSeat | backend/internal/auth/repository.go:891-973 | a transfer moves the seat and nothing else, moves both epochs and ends both accounts' sessions |
| Ownership.RankNeedsFreshLogin | backend/internal/auth/repository.go:826-837 | in every run no live session of an administrator was opened before the account administered |
| Ownership.RightsChangeMovesEpoch | backend/internal/auth/repository.go:784-803 | whatever changes a role or status, bootstrap apart, moves the account's epoch |
| Ownership.UpdateTouchesOne | backend/internal/auth/repository.go:708-768 | an edit sets what was asked on the account named and on no other, never on or to the owner, and a promotion ends its sessions |
| Ownership.OwnerIsAnAdmin | backend/internal/auth/repository.go:608-633 | with an active owner the guard against losing the last administrator cannot fire |
| OwnershipAnswers.DeletionAnswers | backend/internal/auth/repository.go:843-876 | an account can be deleted exactly when it is not the owner and not the only active administrator, and then it and its sessions are gone and nothing else is |
| OwnershipAnswers.DeletedForGood | backend/internal/auth/repository.go:843-876 | in every continuation of the run a deleted account does not exist, has no session and cannot log in |
| OwnershipAnswers.UpdateAnswers | backend/internal/auth/repository.go:708-768 | an edit is refused for an assigned owner, a pending status, a missing account, the owner, or rights taken from the only administrator, in that order, and otherwise made |
| OwnershipAnswers.CreationAnswers | backend/internal/auth/repository.go:1596-1622 | an account is created exactly with a role below the owner's and an address nobody has, and no other account changes |
| OwnershipAnswers.BootstrapAnswers | backend/internal/auth/repository.go:354-425 | what a bootstrap answers for the row it claims, and that the row keeps its epoch |
| OwnershipAnswers.TransferAnswers | backend/internal/auth/repository.go:891-973 | what a transfer answers, in order, and that it changes two roles, two epochs and two accounts' sessions only |
| OwnershipStore.Repository.FindPlaceholder | backend/internal/auth/repository.go:386-391 | finds the pending administrator with the smallest id, or that there is none |
| OwnershipStore.Repository.Bootstrap | backend/internal/auth/repository.go:354-425 | refines the bootstrap and never loses an owner |
| OwnershipStore.Repository.CreateUser | backend/internal/auth/repository.go:1596-1622 | refines creation: never an owner, never a taken address |
| OwnershipStore.Repository.GuardLastAdmin | backend/internal/auth/repository.go:608-633 | refuses exactly the removal of the last active administrator |
| OwnershipStore.Repository.UpdateUser | backend/internal/auth/repository.go:708-754 | refines the edit with its refusals in order |
| OwnershipStore.Repository.DeleteUser | backend/internal/auth/repository.go:843-876 | succeeds exactly for an account that is not the owner and not the only active administrator; the account goes with its sessions and nothing else does, and a refusal changes nothing |
| OwnershipStore.Repository.TransferOwnership | backend/internal/auth/repository.go:891-973 | reads both rows in id order and refines the transfer |
| ActivityFeed.PageIsPrefix | backend/internal/auth/audit_list.go:217-262 | a page, merged from the first rows of either table, is the beginning of the one sorted list of everything past the cursor |
| ActivityFeed.MergeIsEnough | backend/internal/auth/audit_list.go:311-323 | the first n rows of each source contain the first n of both, in the same order |
| ActivityFeed.WalkIsPrefix | backend/internal/auth/audit_list.go:271-306 | pages of any sizes one after the other are the beginning of the one list, with rows added above the client in between changing nothing |
| ActivityFeed.WalkReachesTheEnd | backend/internal/auth/audit_list.go:271-306 | read to the end, the pages hold every row past the cursor exactly once, in order |
| ActivityFeed.LegacyCursorIsExact | backend/internal/auth/audit_list.go:271-306 | an id-only cursor selects the right rows if and only if no other click shares the row's time and, for an audit row, no row with a smaller id is later and none with a larger id is earlier |
| ActivityFeed.LegacyCursorSkips | backend/internal/auth/audit_list.go:300-303 | two clicks in one moment that an id-only cursor never shows both of |
| ActivityFeed.MergeActivityClicks | backend/internal/auth/audit_list.go:311-323 | the merge is the sorted list of both inputs, cut to the limit |
| ActivityFeed.OwnClicks | backend/internal/auth/audit_list.go:333-365 | negating the ids turns the click query's order and bound into the feed's |
| ActivityFeed.ListOwnActivity | backend/internal/auth/audit_list.go:217-262 | a page is the beginning of the one list past the cursor, newest first, also when the click table is missing; a row past the cursor that is not on it comes after all of a full page |
| ActivityFeed.Limit | backend/internal/auth/audit_list.go:218-220 | a size asked for from 1 to 200 is granted, any other means 50 |
| DownloadTickets.RunKeepsInv | backend/internal/backup/download.go:89-245 | in every run: at most 128 tickets, four active per user, one pending per user and session |
| DownloadTickets.StepFollows | backend/internal/backup/download.go:166-245 | a ticket appears pending and only moves pending to running to finished, or pending to failed |
| DownloadTickets.OpenedAtMostOnce | backend/internal/backup/download.go:166-184 | in every run a ticket is opened at most once |
| DownloadTickets.OpensExactly | backend/internal/backup/download.go:166-184 | opening succeeds exactly while the ticket is pending and in time, for its token, user and session |
| DownloadTickets.RunningIsKept | backend/internal/backup/download.go:146-245 | a running ticket is never evicted, cleaned or replaced, and stays running until its own download ends |
| DownloadTickets.FullMeansAllActive | backend/internal/backup/download.go:146-164 | an issue is refused for a full table only when all 128 tickets are in use |
| TicketAnswers.OpeningAnswers | backend/internal/backup/download.go:166-184 | a download starts exactly with the ticket's token, user and session while the ticket waits in time, and only that ticket moves |
| TicketAnswers.OpenedInTime | backend/internal/backup/download.go:89-184 | in every run a download is opened by the user and session its ticket was issued to, with its token, less than a minute after |
| TicketAnswers.FourAreEnough | backend/internal/backup/download.go:116-128 | an issue is refused for its user exactly when four of the user's tickets run or wait in time elsewhere |
| TicketAnswers.IssueMakesRoom | backend/internal/backup/download.go:146-164 | an issue evicts at most one ticket, only from a full table and the longest finished, and is refused for room exactly when all 128 are in use |
| TicketAnswers.TidyingAnswers | backend/internal/backup/download.go:233-245 | tidying fails exactly the late pending tickets and forgets exactly the results kept for ten minutes |
| DownloadTickets.Downloads.Cleanup | backend/internal/backup/download.go:233-245 | one visit of every ticket in any order expires and forgets exactly the right ones |
| DownloadTickets.Downloads.ReplacePending | backend/internal/backup/download.go:116-125 | drops the caller's own pending ticket and counts the user's active ones |
| DownloadTickets.Downloads.EvictFinished | backend/internal/backup/download.go:146-164 | drops only finished tickets, the longest finished first, and only as many as make room |
| DownloadTickets.Downloads.Issue | backend/internal/backup/download.go:89-144 | refines the issue with both refusals, and keeps the table's bounds |
| DownloadTickets.Downloads.Consume | backend/internal/backup/download.go:166-184 | refines opening a ticket |
| DownloadTickets.Downloads.Finish | backend/internal/backup/download.go:186-197 | only a running ticket completes |
| DownloadTickets.Downloads.Fail | backend/internal/backup/download.go:199-208 | only a pending or running ticket fails |
| DownloadTickets.Downloads.Status | backend/internal/backup/download.go:210-231 | shows a ticket to its owner only, from any of the owner's sessions |
| Encodings.MailedIsUnambiguous | backend/internal/auth/code_mac.go:54-97 | for strings below 2^32 bytes, equal MAC input means equal version, purpose, user, optional challenge and code |
| Encodings.MailedRoundTrip | backend/internal/auth/code_mac.go:54-97 | what is written for a mailed code can be read back whole |
| Encodings.MailedLayout | backend/internal/auth/code_mac.go:54-97 | which bytes hold which field, and how wide, big-endian |
| Encodings.LongStringsCollide | backend/internal/auth/code_mac.go:86-91 | at 2^32 bytes the length prefix wraps and two different codes are written the same |
| Encodings.RecoveryIsUnambiguous | backend/internal/auth/code_mac.go:73-97 | equal MAC input of recovery codes means equal version, user and code |
| Encodings.WriteMailed | backend/internal/auth/code_mac.go:54-97 | the writes in the code's order produce that serialisation |
| Encodings.DigestIdentifiesFiles | backend/internal/backup/archive.go:104-117 | two archives are hashed from the same bytes exactly when they hold the same names with the same hashes |
| Encodings.ArchiveIsUnambiguous | backend/internal/backup/archive.go:104-117 | the same bytes come only from the same entries in the same order |
| Encodings.ListIsUnique | backend/internal/backup/archive.go:105 | a map has one list in byte order of its names |
| Encodings.WriteArchive | backend/internal/backup/archive.go:104-117 | the loop over the sorted names writes that serialisation |

## Left out

- HTTP handlers, cookies, JSON, routing and configuration: only the guards named above are modelled.
- Cryptography, password hashing, TOTP arithmetic, random generation and timing floors: injective digests and fresh values.
- Passwords, address conflicts and the expiry of the calling session in the two-factor transactions: one `ok` input per event stands for them.
- Tokens of the sessions in the two-factor model: there a session is an account and the challenge it came from; `SessionModel` has its tokens, and the two are not joined.
- The mail outbox, templates and locale selection.
- Slug allocation, HTML sanitising, link and note images, click counters and tag links of a restore: `data` stands for the columns that are copied.
- The file phase of a restore: it either works or fails.
- Duplicate mode of a restore except its tag names: it keeps no ledger, and its rows are inserted like the others.
- Serialization failures: a lost attempt leaves nothing behind and is retried as the code retries it.
- IP addresses, user agents, last-seen times and audit writes.
- Invitations, e-mail verification and username changes: they only create ordinary accounts or edit columns that no property here reads.
- The administrative audit trail, its filters and its statistics.
- RestoreService.Service.WriteRows: the pause between two attempts is not modelled.
- RestoreService.Service.Restore: wipe and duplicate mode skip the ledger and are not part of this method; a wipe is the step `RestoreLedger.Wipe`.
- RestoreEngine.Database.StreamSnapshot: tag links and click counts of the export are absent.
- RestoreEngine.Database.WipeUser: tag links and clicks, which go with their rows, are not counted.
- RestoreEngine.Database.RestoreSkipStaged: slugs, tag links and clicks of the staged rows are absent.
- RestoreEngine.Database.ApplyWipeRestore: clearing the owner's ledger rows is `RestoreLedger.Wipe`, a state of its own.
- ArchiveSlot.SlotKeepsFilesMatch: the channel and the temporary file of an upload are one value saying who holds the slot.
- TwoFactorStore.Repository.Redeem: the address itself is not stored, only that it was free.
- TwoFactorStore.Repository.ConvertToProvider: the identity row it writes is absent.
- TwoFactorStore.Repository.LinkIdentity: the identity row it writes is absent.
- SessionStore.Repository.ChangePassword: the test of the current password and its refusals are absent.
- DownloadTickets.Downloads.Consume: returns whether the ticket opened; the reference the handler keeps to the ticket is not modelled, so aliasing between the table and the handler is not captured.
- DownloadTickets.Downloads.Issue: the answer for a duplicate ticket id is left out, because fresh ids never repeat.
- TwoFactorStore.Repository.Complete2FA: a database error on the mailed-code lookup, which the code treats as a miss, is not modelled.
- ActivityFeed.ListOwnActivity: the two queries are inputs, constrained to be what their ORDER BY and LIMIT say.
- TagNames.AllocateDuplicateTagNames: the query is an input, constrained to be the names its condition selects.
