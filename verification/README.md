# ArborPress: a model of its stateful core

ArborPress keeps five promises that no single function can keep on its own. This project models the
code behind each of them in Dafny and proves the promise over all inputs, all runs or all reachable
states.

**Offline restore** (`FileTree`, `RestoreProtocol`, `RestoreRerun`, `RestoreLife`, `RestoreOriginals`,
`RestoreNesting`, `RestoreUnwritten`, `RestoreMachine`). `apply_restore` exchanges live roots one after
another and writes a journal around every rename; `recover_restore` rebuilds the old state from the journal
and from what is on disk. The file system is a map from paths to nodes, and renames move whole subtrees.
There are two journals, the one in memory and the durable one. `RestoreMachine.Instance` runs the code step
by step and records in the ghost field `moments` every state in which the process can die or a step can
fail, also between the two halves of one journal write and in the middle of removing a tree. The lemmas of
the other modules speak about every such moment.

**Database reload** (`ForeignKeyPlan`, `TableClearing`, `RowBatches`, `DatabaseStream`, `DatabaseReload`,
`ImportReferences`). The foreign-key analysis, clearing and deletion, the buffered insertion, the deferred
patches and the typed stream; `ImportReferences` puts them together.

**Refresh-token families** (`OAuthFamilies`, `OAuthVerdicts`, `OAuthStore`). Rotation with reuse detection
(section 6 of RFC 6749, section 4.14 of RFC 9700) as single SQL statements of any number of calls,
interleaved in any order, without row locks. `OAuthVerdicts` says what a presented token needs and what
becomes of one that was traded in before. `OAuthStore` runs one call on its own and is an uninterrupted run
of the same system.

**Comments** (`Comments`, `CommentStatus`, `CommentRules`, `CommentRevisions`, `CommentAppeals`,
`CommentDesk`, `Threads`). Every operation reads some earlier state of the rows and writes to the current
one, so that a run is any interleaving in which only the conditional UPDATEs and the unique constraints
protect the rows. `CommentRules` says of each call, in stored columns, when it succeeds and what it leaves.
`CommentDesk` holds the services as methods that run one at a time and change the rows in place; their
history is one of these runs, and what needs undisturbed calls is concluded for it. `Threads` is the forest
builder.

**Bounded algorithms** (`MediaSegments`, `TwoLevelCache`, `Retention`, `Credentials`).

Some promises hold only under a condition, and the model says which:

- A failed restore whose handler does not roll back writes nothing. What a later recovery does is decided
  by the durable journal alone (`RestoreLife.RecoveryDecides`): where `database-commit-started` or
  `complete` could not be written, it gives the old files back, or refuses, in spite of what was in memory
  (`RestoreUnwritten.CommitMarkNotWritten`, `RestoreUnwritten.CompleteNotWritten`).
- Recovery that is run again after a finished rollback keeps the tree exactly if no root was journalled
  without an original although its target existed before and its staged tree has been moved
  (`RestoreNesting.SecondRunAfterRollback`, `RestoreRerun.SecondRunHarmlessIff`). A SQLite file inside a data
  root that is restored too breaks the condition and is lost (`RestoreNesting.NestedTargetIsLost`).
- Recovery raises exactly if an original is recorded as moved away and nothing is at its rollback place
  (`RestoreLife.RecoveryAtTheEnd`); a recovery that dies between a rename and its journal write leaves such a
  record (`RestoreUnwritten.ResetNotWritten`).
- Values tagged `enum` do not survive the typed stream, and the validator rejects an export exactly if
  it holds one (`DatabaseStream.RoundTrip`, `DatabaseStream.ExportValidates`).
- An insert statement finds its parents exactly if no row of a full child batch refers to a row that
  still waits in the parent's unfinished batch (`RowBatches.InsertsFindParentsIff`); 250 rows that refer to
  one row of an earlier table are enough (`RowBatches.FullBatchComesFirst`). For a whole import this is
  `ImportReferences.ImportServesReferencesIff`.
- A `published_at` that is set stays exactly if nobody decides later, at another instant, on what had been
  read before the comment was published (`CommentStatus.StampFixedIff`, with a run in
  `CommentStatus.StaleRestoreMovesTheStamp`). Calls that run alone never move it
  (`CommentDesk.HistoryKeepsStamp`).
- The public body is that of the revision accepted last exactly as long as no plain review and no won appeal
  accepts a revision that had been accepted before, while another body is public
  (`CommentRevisions.BodyIsLastIff`). A plain review that somebody has overtaken can do so
  (`CommentRevisions.StaleReviewRestoresOldBody`), or prepare it for a later appeal
  (`CommentRevisions.AppealRestoresOldBody`).
- What a decision has declined stays declined until its appeal is won, exactly as long as no such overtaken
  review accepts it (`CommentRevisions.StayDeclinedIff`).
- Both hold where every plain review finds its revision still proposed
  (`CommentRevisions.BodyIsLastAccepted`), and so for calls that run alone (`CommentDesk.HistoryBody`,
  `CommentDesk.HistoryStaysDeclined`).

The module documentation of `arborpress/core/cache.py` gives 30 seconds as lifetime of first-level
entries; the code allows five at most, and the model follows the code.

## Model

| member | source | states |
|---|---|---|
| RestoreProtocol.UndoMidway | arborpress/backups/restore.py:2044-2073 | whatever part of one switch is done, one round of the rollback leads back to the tree before it |
| RestoreProtocol.RollbackRecorded | arborpress/backups/restore.py:2044-2073 | undoing completed switches last in first out restores the original tree, also where targets lie inside each other |
| RestoreProtocol.RollbackFromAnySwitchingState | arborpress/backups/restore.py:1748-1770 | the same from every state of the switching phase, interrupted switches included, and no rename of it meets anything at its destination |
| RestoreProtocol.RecoveryRestoresTheOldTree | arborpress/backups/restore.py:2139-2229 | one uninterrupted recovery ends with the file system as it was before the first move, absent targets absent again |
| RestoreLife.CrashThenRecover | arborpress/backups/restore.py:1707-1854 | at every moment of an apply, recovery ends with all old files under old rows, all new files under new rows, or refuses because a server commit may have happened |
| RestoreLife.CleanupFinishes | arborpress/backups/restore.py:2184-2236 | once `complete` is durable, recovery finishes the cleanup from wherever it stopped and yields the new tree |
| RestoreLife.RecoveryDecides | arborpress/backups/restore.py:2139-2188 | at every moment of an apply the durable journal alone decides: the new tree if its phase is `complete`, a refusal if it announces a server commit, and otherwise the old tree, which then has old rows beside it |
| RestoreLife.UnwrittenCommitMark | arborpress/backups/restore.py:1799-1815 | where the announcement of the commit could not be written, the handler leaves the files alone and recovery gives back the old tree although memory says it must refuse |
| RestoreLife.UnwrittenComplete | arborpress/backups/restore.py:1845-1849 | where `complete` could not be written, recovery gives back the old tree on SQLite and refuses after a server commit; it does not finish the cleanup |
| RestoreUnwritten.CommitMarkNotWritten | arborpress/backups/restore.py:1855-1865 | such a failure of the announcement on a data root with a database file in it, which recovery gives back |
| RestoreUnwritten.CompleteNotWritten | arborpress/backups/restore.py:1845-1865 | such a failure of `complete` on SQLite, after which recovery gives back the old file |
| RestoreUnwritten.CompleteNotWrittenOnServer | arborpress/backups/restore.py:1845-1876 | such a failure of `complete` after a server commit, after which recovery refuses and the new files stay |
| RestoreLife.FailThenHandle | arborpress/backups/restore.py:1877-1882 | when the failure handler rolls back, all old files are back and the server still has the old rows |
| RestoreLife.NewRowsFreezeTheFiles | arborpress/backups/restore.py:1799-1815 | once new rows are committed and until `complete` is durable, neither the handler nor any chain of recoveries touches a file |
| RestoreLife.ApplyMomentIsAlive | arborpress/backups/restore.py:1748-1849 | with places that lie apart, every moment before `complete` keeps each original whole at its target or its rollback path |
| RestoreLife.RepeatedCrashesKeepOriginals | arborpress/backups/restore.py:2044-2073 | any sequence of crashes, also inside recovery, keeps each original at exactly one of the two places |
| RestoreLife.RecoveryAtTheEnd | arborpress/backups/restore.py:2139-2229 | an uninterrupted recovery after any crashes settles every root, or raises at an entry whose target already holds its original, and would then raise there for ever; it raises exactly if an entry is recorded as moved away with nothing at its rollback place |
| RestoreRerun.MissingIff | arborpress/backups/restore.py:2061-2073 | a rollback of separate places raises exactly if such an entry exists, and at the last one |
| RestoreLife.CrashAfterMovingBack | arborpress/backups/restore.py:2071-2073 | from any disk with a moved original, a recovery that dies after the last rename back and before its journal write makes the next one raise |
| RestoreLife.RaisedDiskIsStable | arborpress/backups/restore.py:2066-2070 | what a recovery that raised leaves on disk keeps every original at exactly one place, and every later recovery raises at the same entry and leaves it as it is |
| RestoreUnwritten.ResetNotWritten | arborpress/backups/restore.py:2061-2073 | such a run on a data root, after which recovery raises with the old file in place |
| RestoreOriginals.HandlerKeepsOriginals | arborpress/backups/restore.py:1877-1888 | a crash inside the failure handler leaves a disk from which any chain of recoveries keeps the originals |
| RestoreOriginals.GivingUpKeepsOriginals | arborpress/backups/restore.py:1889-1893 | so does a rollback of the handler that raises midway, with the `recovery-required` journal it then writes |
| RestoreOriginals.EveryOriginalIsSafe | arborpress/backups/restore.py:1748-1770 | after a crash at any moment before `complete` and any chain of recoveries every original is whole: at its target or its rollback place, and at its target if its root is not journalled |
| RestoreLife.NewTreeHoldsWhatWasStaged | arborpress/backups/restore.py:1974-1992 | the finished tree holds at each target what was staged for it, apart from what a later root switched inside |
| RestoreLife.NewTreeKeepsTheRest | arborpress/backups/restore.py:1843-1852 | nothing outside the targets, the rollback places and the staging area changes |
| RestoreRerun.ExactlyOnePlace | arborpress/backups/restore.py:1974-1992 | a pre-existing original is at its target or at its rollback place, never at both |
| RestoreRerun.RollbackKeepsOriginals | arborpress/backups/restore.py:2044-2073 | every state an interrupted rollback can leave keeps every original |
| RestoreRerun.RollbackOutcome | arborpress/backups/restore.py:2044-2073 | how a rollback ends from any state that crashes left: everything settled, or stopped at an entry that is restored already |
| RestoreRerun.RollbackOntoNothing | arborpress/backups/restore.py:2061-2071 | from any state that crashes left, every target is empty when an original is renamed back to it |
| RestoreRerun.StuckIsRestored | arborpress/backups/restore.py:2066-2070 | when recovery raises for a missing rollback path, the target holds its original |
| RestoreRerun.StuckRunIsStable | arborpress/backups/restore.py:2066-2070 | a recovery that raised raises again at the same entry and changes nothing |
| RestoreRerun.SecondRunIsIdle | arborpress/backups/restore.py:2044-2073 | a recovery after a finished rollback finds nothing to do |
| RestoreRerun.SecondRunHarmlessIff | arborpress/backups/restore.py:2056-2065 | on the record of a finished rollback, a second run keeps the tree exactly if no entry looks as if its staged tree had been moved |
| RestoreNesting.SecondRunAfterRollback | arborpress/backups/restore.py:2025-2034 | from every state of the switching phase the first rollback is right with any nesting; the second keeps the tree exactly if no root was journalled without its original after its staged tree was moved |
| RestoreNesting.OverlookedWhenSwitched | arborpress/backups/restore.py:1974-1992 | where all journalled roots have been switched, the staged tree of each has been moved, so that the missing original alone decides |
| RestoreNesting.NestedTargetIsLost | arborpress/backups/restore.py:2056-2064 | a data root and a database file inside it: after the first recovery the original database is at its path, after the second nothing is there |
| RestoreNesting.OverlookedIsLost | arborpress/backups/restore.py:2025-2034 | the same of every such target, from every state of the switching phase: the first rollback gives it back and the second removes it |
| RestoreMachine.Instance.Persist | arborpress/backups/restore.py:1952-1953 | a journal write passes through the old and the new durable journal |
| RestoreMachine.Instance.RemovePath | arborpress/backups/restore.py:1554-1558 | a removed tree may be found half removed, and nothing outside it changes |
| RestoreMachine.Instance.UndoEntry | arborpress/backups/restore.py:2045-2073 | one round of the rollback loop does what the model of the rollback says, through the states it lists |
| RestoreMachine.Instance.RollbackSwaps | arborpress/backups/restore.py:2044-2073 | the loop computes the modelled rollback, and every state in between is one of its crash states |
| RestoreMachine.Instance.SwitchPath | arborpress/backups/restore.py:1974-1992 | a switch refuses an existing rollback path, and otherwise passes through exactly four recorded moments |
| RestoreMachine.Instance.SetAside | arborpress/backups/restore.py:2004-2023 | a sidecar file is moved aside and recorded |
| RestoreMachine.Instance.ApplyRoot | arborpress/backups/restore.py:1748-1770 | switching one root leads from a rested state to the next through recoverable moments only |
| RestoreMachine.Instance.ApplyFiles | arborpress/backups/restore.py:1748-1785 | the same for all roots in turn |
| RestoreMachine.Instance.CommitServerDatabase | arborpress/backups/restore.py:1799-1815 | the commit announcement is durable before the rows are committed, and both are on record at the end |
| RestoreMachine.Instance.RecordSqliteSwitch | arborpress/backups/restore.py:2039-2041 | recording the SQLite switch keeps the state recoverable |
| RestoreMachine.Instance.MakeComplete | arborpress/backups/restore.py:1845-1852 | `complete` is durable before a rollback copy goes, and the new tree remains |
| RestoreMachine.Instance.ApplyRestore | arborpress/backups/restore.py:1707-1854 | an undisturbed apply ends with the new tree and the new rows, and every moment on the way can be recovered |
| RestoreMachine.Instance.HandleFailure | arborpress/backups/restore.py:1855-1901 | from any moment: where it rolls back, old files are back under old rows and the markers are gone; elsewhere it changes neither files nor journal, and the durable journal decides what a later recovery does |
| RestoreMachine.Instance.RecoverRestore | arborpress/backups/restore.py:2139-2229 | the method computes the modelled recovery through its crash states, refuses exactly if a server commit is recorded or announced short of `complete`, and where it raises leaves the journal of the rollback so far, from which the next recovery raises again and every original is kept |
| ForeignKeyPlan.Reaches | arborpress/backups/restore.py:585-596 | the worklist search ends on every graph and decides reachability exactly |
| ForeignKeyPlan.RestorePlan | arborpress/backups/restore.py:564-616 | a plan is returned exactly if every cycle edge is nullable and every other edge points to an earlier table; either error names an edge that breaks this |
| ForeignKeyPlan.PlanCoversCycles | arborpress/backups/restore.py:598-606 | every edge on a directed cycle, self-loops included, is on a deferred nullable column, and every deferred column has such an edge |
| ForeignKeyPlan.KeptEdgesAreAcyclic | arborpress/backups/restore.py:608-615 | the edges that are not deferred form no directed cycle |
| TableClearing.Cleaner.ClearDeferred | arborpress/backups/restore.py:1160-1164 | deferred columns are null in every row, and nothing else changes |
| TableClearing.Cleaner.DeleteAll | arborpress/backups/restore.py:1165-1166 | after each DELETE, in reverse table order, no surviving row refers to a deleted one |
| RowBatches.Inserter.Accept | arborpress/backups/restore.py:1263-1269 | buffered and inserted rows together are always the rows read so far, and inserted ones come in whole batches |
| RowBatches.Inserter.FlushRemainders | arborpress/backups/restore.py:1270-1272 | after the last loop each table holds exactly its rows of the stream, in order |
| RowBatches.StatementFacts | arborpress/backups/restore.py:1263-1272 | at each insert statement for a child, the parent has its full batches, or all of its rows |
| RowBatches.InsertsFindParentsIff | arborpress/backups/restore.py:1211-1272 | every insert finds its parents exactly if no row in a full child batch refers into the parent's unfinished batch |
| RowBatches.FullBatchComesFirst | arborpress/backups/restore.py:1263-1269 | a stream of one parent row and 250 rows that refer to it: every import log has an insert of the child batch while the parent row is not inserted |
| RowBatches.SmallChildOrWholeParent | arborpress/backups/restore.py:1211-1269 | this is so for a child of fewer than 250 rows, or a parent whose row count is a multiple of 250 |
| DatabaseReload.PatchRoundTrip | arborpress/backups/restore.py:1306-1315 | keys and values written to the deferred file are read back unchanged |
| DatabaseReload.NulledKeepsRest | arborpress/backups/restore.py:1236-1241 | a cleared row has all its columns, NULL in the deferred ones and unchanged in the others |
| DatabaseReload.PatchingRestores | arborpress/backups/restore.py:1236-1262 | a row inserted with its cycle columns nulled is the streamed row again after all patches, whatever the patches of other rows do |
| DatabaseReload.TableRestored | arborpress/backups/restore.py:1274-1287 | after all patches every table equals its rows in the stream |
| DatabaseReload.ReadStream | arborpress/backups/restore.py:1217-1269 | reading buffers the cleared rows, writes one patch per row of a table with deferred columns, and counts |
| DatabaseReload.Connection.EmptyTables | arborpress/backups/restore.py:1159-1166 | the clearing statements empty every table without a dangling reference in between |
| DatabaseReload.Connection.Import | arborpress/backups/restore.py:1129-1300 | every well-formed stream with distinct keys ends with each table equal to its rows, so the final count check passes |
| ImportReferences.ImportServesReferencesIff | arborpress/backups/restore.py:1211-1272 | with a plan for the schema and rows in table order, every insert of an import finds every row its own rows refer to, through any foreign key, exactly if no row of a full batch refers through a kept column into an unfinished batch |
| ImportReferences.SmallTablesAreServed | arborpress/backups/restore.py:1211-1269 | this is so where each kept foreign key leaves a table of fewer than 250 rows or enters one of whole batches |
| ImportReferences.ImportDatabase | arborpress/backups/restore.py:1129-1300 | a schema without a plan is refused before a row is touched; otherwise each table ends with its rows, and the inserts on the way find their rows exactly under that condition |
| DatabaseStream.RoundTrip | arborpress/backups/database.py:45-118 | decoding an encoded value gives it back, except for enum members, which fail to decode |
| DatabaseStream.DecodeIff | arborpress/backups/database.py:80-118 | a payload is decoded exactly to what its tag and text stand for, tag by tag, and refused exactly if that is nothing, as for an enum or an unknown tag |
| DatabaseStream.EncodableIff | arborpress/backups/database.py:45-77 | a value can be written unless it is, inside any enum members, a list or object, or a library type in a JSON column |
| DatabaseStream.StreamIff | arborpress/backups/database.py:121-178 | a stream is in order exactly if it begins with a header of this kind and version that declares different tables, and goes on with rows of declared tables, with one meaningful value for each column |
| DatabaseStream.WriteExport | arborpress/backups/database.py:357-405 | the export fails exactly on unencodable values, and otherwise writes header and rows in table order with exact per-table counts |
| DatabaseStream.ValidateStream | arborpress/backups/database.py:121-178 | exactly such a stream is accepted, and the result counts the rows |
| DatabaseStream.ExportValidates | arborpress/backups/database.py:95-115 | the validator accepts an export exactly if it holds no enum member |
| DatabaseStream.CountsAddUp | arborpress/backups/database.py:371-391 | the row records are as many as the exporter's counts together |
| DatabaseStream.ExportThenValidate | arborpress/backups/database.py:121-178 | validating an export returns the sum of the exporter's counts |
| OAuthFamilies.ClaimedAtMostOnce | arborpress/auth/oauth_server.py:423-435 | under every interleaving each refresh token is claimed at most once |
| OAuthFamilies.OneSuccessor | arborpress/auth/oauth_server.py:423-444 | a refresh token has at most one successor of each kind |
| OAuthFamilies.RevokedFamilyIsDead | arborpress/auth/oauth_server.py:342-444 | once a family is revoked, no rotation or bearer check begun later accepts a token of it, even one saved after the sweep |
| OAuthFamilies.ReuseIsNotForgotten | arborpress/auth/oauth_server.py:395-401 | a call that has seen a reuse is about to revoke the family, or has revoked it, at every later time |
| OAuthFamilies.LosingARaceRevokes | arborpress/auth/oauth_server.py:435-441 | a rotation that finds its token traded in goes on to revoke the family and never saves a token |
| OAuthFamilies.ScopesShrink | arborpress/auth/oauth_server.py:416-421 | along every rotation chain scopes only shrink, within one family |
| OAuthFamilies.AcceptedBeforeFamilyEnd | arborpress/auth/oauth_server.py:290-305 | with one clock reading per call no access token is accepted at or after the family's end plus eight minutes; with several readings the bound grows by the time between them |
| OAuthVerdicts.BearerAcceptedIff | arborpress/auth/oauth_server.py:342-373 | in every run a bearer check accepts exactly if the token was a live access token, the family unrevoked, and the grant unrevoked and wide enough, the client enabled and the user active, each when it was read |
| OAuthVerdicts.AcceptedWasLive | arborpress/auth/oauth_server.py:342-373 | every accepted check, however it came about, has found its rows so at three moments in this order |
| OAuthVerdicts.DecidesExactly | arborpress/auth/oauth_server.py:392-421 | the rows that a rotation has read decide whether it goes on to the claim, with which scopes, to the revocation or to a refusal |
| OAuthVerdicts.ReplayRevokes | arborpress/auth/oauth_server.py:395-401 | in every run, a rotation that has read a refresh token traded in before never claims or saves, and ends only with its family revoked and every token revoked that was stored when it swept over them |
| OAuthVerdicts.ReplayGoesOn | arborpress/auth/oauth_server.py:395-401 | each of its next statements brings it nearer to that end |
| OAuthVerdicts.IssuedIsLive | arborpress/auth/oauth_server.py:290-325 | a new family is unrevoked for ninety days, with a live access token of eight minutes and a live refresh token of thirty days |
| OAuthStore.SoloIsRun | arborpress/auth/oauth_server.py:376-456 | a call that runs alone is one run of the interleaved system |
| OAuthStore.TokenStore.RevokeEverything | arborpress/auth/oauth_server.py:395-401 | family and all its tokens are revoked, and nothing else changes |
| OAuthStore.TokenStore.RotateRefresh | arborpress/auth/oauth_server.py:376-456 | answer and rows in each case: an unknown token or a foreign client, a token traded in before, which revokes its family, one that is not live, scopes that are empty or too wide, and success with the two new rows; all as in a solo run of the interleaved system |
| OAuthStore.TokenStore.ConsumeBearer | arborpress/auth/oauth_server.py:342-373 | a check on its own accepts exactly a live access token of an unrevoked family whose grant, client and user stand behind it |
| CommentStatus.StatusFollowsLog | arborpress/comments/moderation.py:259-305 | in every interleaving a comment is approved after approve or restore, rejected after reject, spam after spam, deleted after delete as its latest decision, and pending without any; approved implies both time stamps |
| CommentRules.StatusMoves | arborpress/comments/moderation.py:259-274 | in every interleaving a status moves only along the table of statuses and outcomes, together with its decision, or by a confirmation |
| CommentRules.ModerateRule | arborpress/comments/moderation.py:238-305 | a decision succeeds exactly for a move of the table, with a reason, on an unchanged status, and leaves that move with its record |
| CommentRules.CreateAsked | arborpress/comments/service.py:99-135 | what creation asks of origin, policy, texts, reply target and e-mail, all of it and no more |
| CommentRules.CreateStores | arborpress/comments/service.py:47-65 | the status that spam, guest confirmation and the moderation mode give, with token, stamps and automatic decision |
| CommentRules.ConfirmRule | arborpress/comments/service.py:233-300 | a link works exactly for the comment that waits for it, if it still does at the write; only a policy without moderation publishes it |
| CommentRules.ReissueRule | arborpress/comments/service.py:312-345 | a new link is sent exactly after the interval, for 1 to 168 hours, while nobody has changed the last one |
| CommentRules.AuthorEditsAreRows | arborpress/comments/service.py:378-389 | the count against the cap is the number of stored author edits |
| CommentRules.ReviseRule | arborpress/comments/service.py:357-455 | an edit succeeds exactly within rights, window, cap, length and the one proposal, if no other took its number; what it stores, and when it is public |
| CommentRules.ReviseRemotelyRule | arborpress/comments/service.py:469-523 | the same for a remote edit, which always waits |
| CommentRules.ReviewRule | arborpress/comments/service.py:535-560 | a plain review succeeds exactly if it had read a proposal of an approved comment, and settles it |
| CommentRules.ModerateRevisionRule | arborpress/comments/moderation.py:356-410 | the same with a reason and a decision, if the revision is still a proposal |
| CommentRules.SubmitRule | arborpress/comments/moderation.py:462-512 | an appeal is accepted exactly from the author concerned, within 1 to 90 days, against a rejecting decision that is not replaced and has no appeal |
| CommentRules.JudgeAsked | arborpress/comments/moderation.py:536-605 | when an appeal can be judged: open, with a reason, by somebody who is not barred, and undoable if it is to be overturned |
| CommentRules.JudgeStores | arborpress/comments/moderation.py:573-641 | the closed appeal, the replacing decision, and the revision or comment that is public again |
| CommentRules.StripCuts | arborpress/comments/service.py:107-108 | a stripped text is what lies between the outer blanks |
| CommentStatus.PendingIsNeverReentered | arborpress/comments/moderation.py:266-274 | neither pending status is entered again once left, and decisions are only appended |
| CommentStatus.TokenWhilePending | arborpress/comments/service.py:127-164 | digest and expiry are stored exactly while a comment waits for its confirmation |
| CommentStatus.TokensAreOneShot | arborpress/comments/service.py:266-284 | each issued token confirms at most once over all interleavings |
| CommentStatus.ReissueEndsOlderTokens | arborpress/comments/service.py:327-343 | after a reissue every token issued for that comment before fails |
| CommentStatus.LinksWorkForAWeek | arborpress/comments/service.py:266-284 | a link that works was sent less than 168 hours before, to a comment that was waiting for it, under policies resolved within that limit |
| CommentStatus.StampFixedIff | arborpress/comments/moderation.py:278-290 | a comment published in state i keeps that stamp through state j exactly if every decision in between that had read the rows before i falls on the instant of the stamp |
| CommentStatus.StampFixed | arborpress/comments/moderation.py:594-610 | from any state with a stamp on, it is fixed as long as nobody decides on what had been read before that state |
| CommentStatus.StampStays | arborpress/comments/moderation.py:278-290 | a stamp is never cleared, in any interleaving |
| CommentStatus.StaleRestoreMovesTheStamp | arborpress/comments/moderation.py:278-290 | a run in which a stale restore overwrites the stamp |
| CommentRevisions.OneProposalAtATime | arborpress/comments/service.py:427-455 | a comment has at most one pending revision in every interleaving, and `pending_key` is set exactly on it |
| CommentRevisions.NumbersCountUp | arborpress/comments/service.py:415-440 | revision numbers of a comment are 1 to n in order of creation, each once |
| CommentRevisions.EditCapHolds | arborpress/comments/service.py:378-389 | author edits never exceed the cap of the policy, also with concurrent edits |
| CommentRevisions.BodyFollowsIff | arborpress/comments/service.py:535-560 | every call, whatever it had read, lets the body follow the revision it accepts, or stay without one, exactly if it does not accept an already accepted revision while another body is public |
| CommentRevisions.BodyIsLastIff | arborpress/comments/moderation.py:574-580 | in every interleaving the public body is that of the revision accepted last in all states of a stretch exactly if no call in it does that |
| CommentRevisions.BodyIsLastAccepted | arborpress/comments/service.py:447-453 | so it is, through moderator edits, reviews and overturned appeals, where every plain review finds its revision still proposed |
| CommentRevisions.StaleReviewRestoresOldBody | arborpress/comments/service.py:535-560 | a run in which the second of two reviews puts an accepted body back over the newer one of a moderator |
| CommentRevisions.AppealRestoresOldBody | arborpress/comments/moderation.py:574-580 | a run in which a plain review accepts what a decision has declined meanwhile, and the won appeal then puts that body back over a newer one |
| CommentRevisions.StayDeclinedIff | arborpress/comments/moderation.py:574-592 | in every interleaving what decisions declined stays declined until the one appeal is won, exactly if no plain review accepts a revision declined since it was read |
| CommentAppeals.WonAppealsAreRecorded | arborpress/comments/moderation.py:573-641 | an appeal is the author's own; a won one is on record as a later restoring decision that replaces the appealed one, and any other has no replacement |
| CommentAppeals.JudgedAtMostOnce | arborpress/comments/moderation.py:624-641 | an appeal is judged at most once over all interleavings |
| CommentAppeals.SelfReviewOnlyAlone | arborpress/comments/moderation.py:550-571 | an appeal marked as judged by the one who decided was judged when no other active moderator existed, by the count of the service or by the answer of the admin route |
| CommentAppeals.SomebodyCanJudge | arborpress/auth/permissions.py:203-229 | where the one who decided is turned away there is another moderator, whose call leaves the rows that the first one would leave without the rule, but for the name on the new decision and the mark of self review |
| CommentDesk.Desk.ParentChainRepeats | arborpress/comments/service.py:221-230 | the cycle check of a reply never fires, because replies come after what they answer |
| CommentDesk.Desk.CreateComment | arborpress/comments/service.py:78-207 | a comment is refused, or stored with the status, token and stamps that policy and origin call for, and with its automatic decision; the call is added to the history, which replays to the rows |
| CommentDesk.Desk.ConfirmGuestComment | arborpress/comments/service.py:233-309 | a live token of a waiting comment is used up, and the comment gets the status of the post's policy; the call is added to the history, which replays to the rows |
| CommentDesk.Desk.IssueGuestConfirmation | arborpress/comments/service.py:312-354 | the token of a waiting comment is replaced by one that lives 1 to 168 hours, but not before the interval is over; the call is added to the history, which replays to the rows |
| CommentDesk.Desk.ModerateComment | arborpress/comments/moderation.py:238-305 | a move of the table of statuses and outcomes is made together with its decision, and a call that fails has no such move or no reason and changes nothing; the call is added to the history, which replays to the rows |
| CommentDesk.Desk.CreateCommentRevision | arborpress/comments/service.py:357-466 | an edit within rights, window and cap is public at once or waits, under the next number; the call is added to the history, which replays to the rows |
| CommentDesk.Desk.CreateRemoteCommentRevision | arborpress/comments/service.py:469-532 | an edit by the remote author is stored as waiting, whatever the policy says about trust; the call is added to the history, which replays to the rows |
| CommentDesk.Desk.ReviewCommentRevision | arborpress/comments/service.py:535-560 | a waiting revision of an approved comment becomes the body or is declined; the call is added to the history, which replays to the rows |
| CommentDesk.Desk.ModerateCommentRevision | arborpress/comments/moderation.py:356-410 | the same together with a decision on record; the call is added to the history, which replays to the rows |
| CommentDesk.Desk.SubmitCommentAppeal | arborpress/comments/moderation.py:462-512 | the author appeals once, within the window, against a decision that is not replaced; the call is added to the history, which replays to the rows |
| CommentDesk.Desk.ReviewCommentAppeal | arborpress/comments/moderation.py:526-641 | an open appeal is closed; if it is won, the comment or revision is public and a new decision replaces the old one; the call is added to the history, which replays to the rows |
| CommentDesk.HistoryIsRun | arborpress/comments/service.py:535-560 | calls that run one after another are a run of the interleaved system in which each call reads the rows it writes to |
| CommentDesk.HistoryKeepsStamp | arborpress/comments/moderation.py:278-290 | with such calls `published_at` never changes once it is set |
| CommentDesk.HistoryBody | arborpress/comments/service.py:447-453 | with such calls the public body is that of the revision accepted last, and the one first posted without any |
| CommentDesk.HistoryStaysDeclined | arborpress/comments/moderation.py:356-410 | with such calls what a decision declined stays declined until its appeal is won |
| CommentDesk.DeskIsConsistent | arborpress/comments/service.py:415-455 | at every desk the status is that of the log, tokens exist while confirmation is pending, a comment has one proposal, and revisions count up without a gap |
| CommentDesk.CreatedThreadsHaveNoCycles | arborpress/comments/service.py:118-125 | whichever created comments are listed, one is a root only because its parent is not listed |
| Threads.WouldCycle | arborpress/comments/threads.py:40-53 | the walk ends on all inputs and says whether the chain of parents never ends |
| Threads.BuildCommentThread | arborpress/comments/threads.py:17-37 | the nodes built are those of the forest below, and the last sorting pass changes nothing |
| Threads.EachCommentOnce | arborpress/comments/threads.py:27-34 | every comment is in the forest at exactly one level; it is a root exactly if its parent is not listed or its chain never ends |
| Threads.SiblingsInOrder | arborpress/comments/threads.py:35-37 | roots and replies are in order of time and id without duplicates |
| Threads.OrderDoesNotMatter | arborpress/comments/threads.py:19-25 | the forest does not depend on the order of the input |
| MediaSegments.PartitionMedia | arborpress/backups/archive.py:213-234 | the groups concatenate to the input, each fits or is one oversized file, and no split that obeys these rules has fewer groups |
| TwoLevelCache.MemoryBackend.Get | arborpress/core/cache.py:151-160 | an entry is served up to its expiry and dropped after it |
| TwoLevelCache.MemoryBackend.DeletePrefix | arborpress/core/cache.py:175-180 | exactly the keys with the prefix go |
| TwoLevelCache.TwoLevelBackend.constructor | arborpress/core/cache.py:483-486 | the lifetime of first-level entries is the one given, but at least one and at most five seconds |
| TwoLevelCache.TwoLevelBackend.Get | arborpress/core/cache.py:488-496 | a read answers the value of an unexpired first-level entry, and without one what the shared store has, which it copies for the short lifetime |
| TwoLevelCache.AnswersIff | arborpress/core/cache.py:488-496 | a read answers a value exactly if one of the two has it in this order |
| TwoLevelCache.TwoLevelBackend.Set | arborpress/core/cache.py:498-500 | a write reaches both levels |
| TwoLevelCache.AnswersAreRecent | arborpress/core/cache.py:483-508 | what is answered at time u was in the shared store at some moment between u - 5 seconds and u |
| TwoLevelCache.SingleWriterReadsItsWrites | arborpress/core/cache.py:488-508 | with a single writer an answer is never older than the last set, delete or flush, or than what the shared store held at the start |
| TwoLevelCache.UndisturbedReadsAreExact | arborpress/core/cache.py:488-508 | if besides the shared store drops nothing, every answer is the last write, and a miss means that there is none |
| TwoLevelCache.FlushNamespace | arborpress/core/cache.py:514-526 | every memory store behind a backend loses exactly the namespace, every outside store is flushed |
| TwoLevelCache.OtherInstancesKeepTheirKeys | arborpress/core/cache.py:595-605 | flushing one instance prefix removes all of its keys and no key of another instance |
| Retention.PlanPrune | arborpress/backups/retention.py:97-151 | refused exactly without a limit or with a negative one; otherwise the plan divides the verified sets, and removed are exactly those that are neither newest nor pinned and beyond every limit given |
| Retention.BackupRoot.Prune | arborpress/backups/retention.py:154-178 | returns the plan as above or the refusal; a dry run changes nothing, and otherwise exactly the planned sets go, with their state files and no others; the pinned ids stay the same |
| Retention.NeverEmpty | arborpress/backups/retention.py:147-148 | the newest set survives every prune |
| Retention.PlanningAgainRemovesNothing | arborpress/backups/retention.py:135-151 | planning once more at the same instant removes nothing |
| Retention.LargerLimitsKeepMore | arborpress/backups/retention.py:137-144 | the plan is monotone in both limits |
| Credentials.CountedFactors | arborpress/auth/policy.py:42-69 | which stored rows count as usable, column by column |
| Credentials.WebAuthnRemovalIff | arborpress/auth/policy.py:117-135 | a WebAuthn credential may go exactly if a usable one confirms it and one stays, of two the confirming one |
| Credentials.TotpRemovalIff | arborpress/auth/policy.py:137-163 | a TOTP device may go exactly if WebAuthn confirms it, or a usable device does and one that can confirm stays |
| Credentials.RemovalReason | arborpress/auth/policy.py:113-163 | which reason a refusal gives, and how many factors are reported |
| Credentials.RemovalTakesTheRow | arborpress/auth/policy.py:100-163 | an allowed removal takes exactly the row that was named, if it is the user's own, and a refused one nothing |
| Credentials.DiscardKeepsUsable | arborpress/auth/sessions.py:251-279 | discarding staged credentials leaves both usable sets of every user as they are |
| Credentials.RunsKeepFloors | arborpress/auth/policy.py:42-69 | no run of allowed removals, discards and enrolments empties a usable WebAuthn set, nor its union with TOTP |
| Credentials.AuthRows.DiscardRecoveryEnrollments | arborpress/auth/sessions.py:224-300 | exactly the staged rows and the open enrolments of one recovery go |
| Credentials.AuthRows.InvalidateRecoverySession | arborpress/auth/sessions.py:303-320 | exactly the staged rows of the recovery go, exactly the recovery and its open enrolments are consumed, and only its own session ends |
| Credentials.AuthRows.AppendRecoveryCredentialId | arborpress/auth/sessions.py:174-221 | an id is bound exactly to a live recovery of the same user and session, once |

## Left out

- Archive bytes, compression, encryption and digests: staged trees are abstract, and digests are taken to be injective.
- Permissions, symbolic links, fsync and device checks of the file system; renames are durable in program order.
- The maintenance marker, which is a second file beside the journal: the model has one durable record for both, so it leaves out the failure between the two writes that precedes every move.
- `_validate_journal_paths`: the configured paths are taken not to change during a restore.
- The reports in `restore-history` inside the data root, which an apply, its failure handler and a recovery write: trees are stated without them.
- `plan_restore`, staging, theme checks and the merging of configuration files, which precede the first journal write.
- Alembic revisions, database column types and the checks of the header against them; sequence and auto-increment resets.
- DatabaseReload.Connection.Import: deferred columns are taken not to be part of a primary key, and rows to have distinct keys, as the tables' constraints demand.
- DatabaseStream.RoundTrip: the texts of numbers, dates, UUIDs and base64 come from Python's own libraries; each codec is a parameter that is taken to read back what it wrote.
- The export is a list of records here; encoding them as lines of JSON is not modelled.
- OAuthFamilies works on values instead of objects, because its rows are shared by interleaved calls; OAuthStore has the update in place.
- ID tokens, signing keys, authorization codes and redirects of the OAuth server; `token_response` is one step of the interleaved system, since nobody else knows its family before it returns.
- OAuthFamilies.AcceptedBeforeFamilyEnd: the plain bound needs one clock reading per call; for several readings the bound is stated with the time between the check and the insert.
- OAuthFamilies: a bearer check reads the grant, client and user rows in one statement, and a rotation reads the user row when it decides.
- Comments: all reads of one operation see one earlier state, and each operation has one clock reading.
- Comments: bodies are stripped of blanks, tabs, carriage returns and line feeds only, not of every Unicode space.
- `validate_reason` is a condition that an operation is given; author names, addresses, quotes, audit events, notifications, votes and federation are left out.
- Comments: deletion of posts and users with its cascading changes.
- CommentRevisions.BodyIsLastAccepted: asks that a plain review finds its revision still proposed, which the row lock of `review_comment_revision` provides on server databases; BodyIsLastIff and StayDeclinedIff say what happens without it.
- Threads: ids are numbers, whose order stands for the order of the id strings.
- TwoLevelCache: each operation is atomic, and the encodings of the outside stores are not modelled.
- Retention: which directories count as backup sets, and verifying them.
- Credentials: sign-in, step-up and enrolment ceremonies, which produce the evidence the model is given.
