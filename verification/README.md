# A verified model of the mail pipeline

The repository is an email pipeline. An IMAP listener finds new and vanished mail, a rules
engine acts on new mail through a retrying stream, a scheduler runs deferred actions, and two
learners turn moves made by hand into new rules. This project models the protocols between
these parts and the dense algorithms inside them, and proves what they keep over every input,
every interleaving and every run. `dafny verify dfyconfig.toml` checks all of it.

How the modules are built:

- Code that updates state is a class or a method with a loop, proved against a function on
  values. Code that only computes is a function.
- A protocol is a `World`, `Window` or `Stream` with a datatype of steps. `Next` is total (a
  step that is not enabled changes nothing), `Run` folds it, an invariant is proved step by
  step, and the main theorems speak about every run. Histories that the code does not keep
  (rows ever written, UIDs ever seen) are part of the world, so that the theorems can compare
  what the code remembers with what happened.
- A function that a method is proved against is itself fixed by lemmas written on the fields and
  texts alone (`HandlingByCircumstance`, `DecryptByShape`, `EffectsByAction`, `EachCallAlone`,
  `LearnsUnlessMentioned`, the laws of `KeywordLaws` and the texts of `LearnedRules`), so that a
  change made to the function and the method alike does not go unnoticed.
- The network, the clock, the database's failures, crashes, eviction order and library
  functions are parameters or fields of a step, so every theorem holds for all of them.

| module | subject |
|---|---|
| `ExpungeTracking` | EXPUNGE numbers mapped to UIDs during IDLE |
| `FeedbackLoop` | executor, listener, sweeper and user around `rule_applied_moves` |
| `StreamConsumer` | ack, nak, term, redelivery and the idempotency table |
| `DeferredActions` | deferred rows, scheduler passes and cancelling |
| `UidPoll` | the UID watermark poll |
| `KeyRotation` | versioned ciphertexts and table-wide key rotation |
| `RuleEngine`, `ScheduledDispatch` | capture mode behind `schedule()`, and what a scheduled action becomes downstream |
| `RuleOrder` | reordering and first-match evaluation |
| `LuaLiterals`, `LearnedRules`, `RuleWeights`, `ReadBackExactly` | learned rules printed as Lua, what their text runs, and exactly when they are read back |
| `KeywordExtraction`, `KeywordLaws`, `RuleLearning` | keywords, what a learned rule does to its own message, and learning at most once |
| `FolderSearch`, `DetectorScan` | batch and one-message folder search, and the polling detector's scans |
| `TokenRevocation` | logout, blacklist and sweeper |
| `AiCache` | the bounded TTL cache of AI answers |
| `MimeParts` | MIME part addressing |
| `Utf8` | UTF-8 repair |
| `Common` | options and substrings, shared by the others |

## Where the code does not do what one might expect

The code is modelled as it is. Each of these has a lemma with the failing input or family and,
where a condition on the input decides, that condition.

- A deferred action is stored with its target as its action, and `deferred_action` is never
  read, so it reaches the executor as itself only when its target spells its own name
  (`ScheduledDispatch.DeferredReachesExecutorIff`).
- The polling detector reads only the first mark of a UID in `processed_messages`. It learns from
  every rule-driven move whose UID has no mark or a first one that does not say "move": a rule's
  archive, a move seen before it is marked, and a move by the scheduler or the run-rule handler alone, which never mark
  (`FeedbackLoop.DetectorLearnsIff`, `UnmarkedMoveTeaches`, `ArchivedOrScheduledTeaches`). For
  complex senders it adds a rule at every move (`RuleLearning.DetectorRepeatsComplexSenders`).
- A header search matches substrings, so the one-message folder search can name a folder that
  does not hold the message (`FolderSearch.SubstringServerMisleads`, exactly when:
  `SearchesAgreeIff`), and acting by Message-ID can act on another message than the one whose
  move was recorded (exactly when: `FeedbackLoop.ActsOnOwnMessageIff`).
- The comment on `Decrypt` promises that anything that is neither versioned nor base64 passes
  through as plaintext. A legacy plaintext passes exactly when it does not read like a version
  prefix; otherwise it is an error that no rotation mends (`KeyRotation.PlaintextPassesIff`,
  `PlaintextRotates`).
- The idempotency table does not cover deferred rows. A stream message writes more than one row
  exactly when two of its handlings get past the check and defer
  (`StreamConsumer.RowRepeatsIff`; a crash-free run that does: `DeferredRowMayRepeat`).
- A message that is itself an image is fetched under the empty section number, which names the
  whole message with its header. The listed paths are the section numbers of their leaves exactly
  when the message is multipart or nothing is listed (`MimeParts.ListedAreSectionsIff`).
- Cancelling a deferred action inside a pass comes too late for rows already fetched
  (`DeferredActions.CancelTooLateIff`).
- One EXPUNGE beyond the channel's 64 places makes the tracked list name a message the server no
  longer has (`ExpungeTracking.OverflowLosesTrack`).
- Two Message-IDs share cache keys exactly when one continues the other with a colon
  (`AiCache.MessagesCollideIff`).
- A bracketed piece inside a word of the subject joins what it separated, and the learned rule
  misses its own message (`KeywordExtraction.JoinedWordIsNotFound`, a whole family of subjects).
- Sender, folder and subject go unescaped into comments, and the engine runs the whole text as one
  chunk. A rule without keywords runs its own `if` first exactly when every later line of the
  truncated subject is blank or a short comment; otherwise it runs the subject's line
  (`ReadBackExactly.DisabledRuleRuns`, for instance `SecondLineIsRun`; `SenderRuleRuns` for the
  other printer).
- Only quotes are escaped in literals. In the fragment of Lua that holds one rule, a sender rule is
  read back exactly when the sender has no backslash and no line break and the folder no quote
  either, and a keyword rule exactly when that holds of every keyword and of the folder
  (`ReadBackExactly.SenderRuleReadsBackIff`, `KeywordRuleReadsBackIff`). A keyword with a backslash
  before a `t` looks for a tab and misses its teacher (`RuleLearning.MisreadKeywordMisses`).
- A legacy password that was sealed under a key other than the current one passes for a plaintext,
  and rotation then encrypts the stored text (`KeyRotation.LegacyBase64Iff`).
- A learned rule for a longer address silences the lesson of a shorter one
  (`RuleLearning.LongerLessonSilences`).

## Model

| member | source | states |
|---|---|---|
| `ExpungeTracking.Worker.MapSeqNumsToUIDs` | internal/imaplistener/movedetect.go:60-90 | the loop computes the mapping and the new tracked list; returned plus remaining is the old list as a multiset |
| `ExpungeTracking.MapConcat` | internal/imaplistener/movedetect.go:60-90 | mapping a concatenation of notifications is mapping the parts in turn |
| `ExpungeTracking.NothingLostOrInvented` | internal/imaplistener/movedetect.go:60-90 | for every list and every numbers, in range or not, returned plus remaining is the list |
| `ExpungeTracking.RunKeepsTracking` | internal/imaplistener/listener.go:232-357 | in every interleaving of expunges, arrivals and receipts, a client that missed nothing holds a prefix of the mailbox and has been given exactly the expunged snapshot UIDs, in order |
| `ExpungeTracking.IdleWindowIsExact` | internal/imaplistener/listener.go:232-357 | with nothing dropped, what is mapped from the numbers collected so far is a prefix of the expunged snapshot UIDs; once the channel is drained it is all of them, the tracked list is a prefix of the mailbox, and everything after it is new |
| `ExpungeTracking.OverflowLosesTrack` | internal/imaplistener/listener.go:179-191 | one expunge more than the channel's capacity leaves a tracked list whose first UID is gone from the server |
| `FeedbackLoop.MoveLedger.RecordRuleAppliedMove` | internal/db/db.go:907-913 | exactly one new row, under an id no row has |
| `FeedbackLoop.MoveLedger.IsRuleAppliedMove` | internal/db/db.go:917-928 | true exactly when a row of this account and message is younger than 24 hours |
| `FeedbackLoop.MoveLedger.CleanOldRuleAppliedMoves` | internal/db/db.go:939-947 | exactly the rows older than 24 hours go, and the result counts them |
| `FeedbackLoop.Executor.ExecuteMove` | internal/imapactions/executor.go:293-316 | create the folder, flag, then move; a failed creation or flag does not stop the move |
| `FeedbackLoop.Executor.ExecuteDelete` | internal/imapactions/executor.go:268-287 | succeeds exactly if the flag and one of the two expunges do; the fallback expunges everything marked as deleted |
| `FeedbackLoop.Executor.ExecuteAction` | internal/imapactions/executor.go:173-209 | each action issues exactly its own commands, moves are issued for move and archive only and to the right folder, an unknown action is refused without effect, and without a connection nothing happens |
| `FeedbackLoop.EffectsByAction` | internal/imapactions/executor.go:173-316 | the commands and the outcome of every action under every answer of the server, written out |
| `FeedbackLoop.FlagNames` | internal/imapactions/executor.go:319-339 | the flag each name stands for |
| `FeedbackLoop.Executor.RecordFirst` | internal/imapactions/executor.go:359-370 | a row exactly for move and archive with a Message-ID, seen by the check; a failed write leaves the table alone |
| `FeedbackLoop.Executor.ExecuteActionForRule` | internal/imapactions/executor.go:359-373 | every move of a message with a Message-ID comes after the row that names this message and folder and that the check sees, unless the row could not be written, which does not stop the action |
| `FeedbackLoop.Executor.ExecuteActionByMessageID` | internal/imapactions/executor.go:212-266 | acts on the first message reported, and does nothing when none is |
| `FeedbackLoop.Executor.ExecuteActionByMessageIDForRule` | internal/imapactions/executor.go:377-390 | row before move on the scheduler's path, unless the write fails; the moved message is covered by the row unless a decoy stands first |
| `FeedbackLoop.ActsOnOwnMessageIff` | internal/imapactions/executor.go:230-247 | acting by Message-ID acts on a message that has it exactly when no other match stands before the first such message |
| `FeedbackLoop.SweepIsInvisible` | internal/sched/scheduler.go:69-76 | the check's answer on the swept table equals its answer on every row ever written |
| `FeedbackLoop.RunKeepsInv` | internal/imapactions/executor.go:359-390 | every interleaving keeps: rows missing from the table are too old to be seen, every covered move has its row in the history, nothing was learned early |
| `FeedbackLoop.NoFeedback` | internal/imaplistener/movedetect.go:213-243 | in every interleaving, whatever the listener learned from a rule-driven move whose row was stored under its own Message-ID was checked 24 hours or more after that |
| `FeedbackLoop.LearnsExactlyByHistory` | internal/imaplistener/movedetect.go:95-253 | in every reachable state, when and only when the listener learns from a vanished message, in terms of the unswept history |
| `FeedbackLoop.SweeperNeverMatters` | internal/db/db.go:939-947 | erasing all sweeps from a run changes nothing outside the table |
| `FeedbackLoop.RunKeepsMarks` | internal/db/db.go:753-789 | in every run `processed_messages` holds the first mark of each UID, and every mark was written for a job of the consumer |
| `FeedbackLoop.DetectorLearnsIff` | internal/movedetect/movedetect.go:662-678 | in every reachable state, for every vanished message with a Message-ID, the polling detector learns, nothing else standing in the way, exactly when the first mark of its UID is absent or does not say "move" |
| `FeedbackLoop.UnmarkedMoveTeaches` | internal/movedetect/movedetect.go:662-678 | in every reachable state a move that is not marked yet teaches the detector |
| `FeedbackLoop.ArchivedOrScheduledTeaches` | internal/sched/scheduler.go:84-144 | in every reachable state a message that rules only archived, or on which only the scheduler or the run-rule handler acted, teaches the detector |
| `FeedbackLoop.ListenerDeclinesDetectorLearns` | internal/api/handlers/rules.go:565-568 | for an archive, an unmarked move, a move by the run-rule handler and what the scheduler can be given, a run in which the listener declines and the detector learns |
| `StreamConsumer.Consumer.MarkProcessed` | internal/db/db.go:782-789 | an existing row keeps its action |
| `StreamConsumer.Consumer.HandleMessage` | internal/rulesengine/consumer.go:150-338 | every branch, failure and crash point of one handling agrees with the step function the run theorems are about |
| `StreamConsumer.HandlingByCircumstance` | internal/rulesengine/consumer.go:150-338 | what one handling answers and changes, in terms of the message and the circumstances alone: a failed delete, move, archive, flag or notify changes nothing and is answered with Nak; nothing is marked or acknowledged otherwise than for a known, unmatched, deferred or successfully handled message |
| `StreamConsumer.FinishedAreSuccesses` | internal/rulesengine/consumer.go:302-338 | over every run, from any state, the actions counted as finished on a UID are the handlings whose action succeeded |
| `StreamConsumer.ProcessedHasWriter` | internal/db/db.go:782-789 | every row of `processed_messages` was written by a step whose action succeeded on that UID, and holds that action |
| `StreamConsumer.SettledIsNotDelivered` | internal/rulesengine/consumer.go:53-90 | a message whose Ack or Term arrived is never delivered again |
| `StreamConsumer.AnswerSettlesIff` | internal/rulesengine/consumer.go:150-338 | an answer settles its message exactly if it is an Ack or a Term and arrives |
| `StreamConsumer.EveryRun` | internal/rulesengine/consumer.go:53-128 | finished actions are conserved (marked, lost, unmarked or blind), no message is attempted more often than delivered or more than three times, every Ack is justified from then on |
| `StreamConsumer.AtMostOneAction` | internal/rulesengine/consumer.go:150-338 | absent a crash between action and mark and failing database calls, each UID gets exactly one successful immediate action if marked and none otherwise, and an Ack for an action means it is marked |
| `StreamConsumer.ProcessedIsFinal` | internal/db/db.go:753-789 | a processed row keeps its action for good and, while the check works, no later delivery acts on the UID or writes a deferred row for it |
| `StreamConsumer.DeferredRowsAreDeferrals` | internal/rulesengine/consumer.go:266-280 | over every run, from any state, the rows a stream message wrote are exactly its handlings that get past the check and defer |
| `StreamConsumer.RowRepeatsIff` | internal/rulesengine/consumer.go:266-280 | in every run a message writes more than one row exactly when two such handlings occur, and at most one if it was delivered once |
| `StreamConsumer.DeferredRowMayRepeat` | internal/rulesengine/consumer.go:266-280 | a crash-free run with one redelivery writes the same deferred row twice |
| `DeferredActions.DeferredTable.CreateDeferredAction` | internal/db/db.go:645-652 | one pending row under a new id |
| `DeferredActions.DeferredTable.CancelDeferredAction` | internal/db/db.go:711-724 | found exactly if the table holds the id, pending, with this tenant; then that row goes, and no row of another tenant changes |
| `DeferredActions.DeferredTable.MarkDeferredActionDone` | internal/db/db.go:676-684 | only the status of that row changes |
| `DeferredActions.DeferredTable.ProcessPending` | internal/sched/scheduler.go:84-144 | an undisturbed pass attempts exactly the rows that are pending with execute_at passed, in order, once, and changes exactly those whose outcome could be stored |
| `DeferredActions.EveryRun` | internal/sched/scheduler.go:84-144 | over every interleaving, scheduler deaths inside a pass included: no attempt before execute_at, every created row is in the table or cancelled and not both, attempts exceed lost marks by at most one |
| `DeferredActions.AttemptedAtMostOnce` | internal/sched/scheduler.go:84-144 | if no mark is lost, each row is attempted at most once in the whole run, however often the scheduler dies between attempts |
| `DeferredActions.SettledForGood` | internal/db/db.go:654-724 | a row that left the pending state never changes again and never returns |
| `DeferredActions.CancelledByItsTenant` | internal/db/db.go:711-724 | in every run a row is cancelled only by a step of its own tenant |
| `DeferredActions.DueIsReached` | internal/db/db.go:654-674 | whatever is pending and due when a pass begins can be attempted |
| `DeferredActions.CancelledBeforePass` | internal/db/db.go:711-724 | a row cancelled before a pass begins is not attempted in it or later |
| `DeferredActions.CancelTooLateIff` | internal/sched/scheduler.go:84-144 | a cancelled row can still be attempted exactly when the current pass has fetched it and not reached it |
| `UidPoll.Worker.TrackMax` | internal/imaplistener/listener.go:601-606 | the running maximum covers the batch |
| `UidPoll.Worker.HandOver` | internal/imaplistener/listener.go:547-619 | the batch loop cuts the list into the specified batches and finds its maximum |
| `UidPoll.Worker.PollNewMessages` | internal/imaplistener/listener.go:547-619 | one poll hands over the batches of the UIDs above the watermark and moves the watermark |
| `UidPoll.ChunksCover` | internal/imaplistener/listener.go:587-595 | the batches joined are the list; none is empty or over 50 |
| `UidPoll.PollHands` | internal/imaplistener/listener.go:547-619 | a poll hands over exactly the part of the mailbox above the watermark, each UID once |
| `UidPoll.PollWatermark` | internal/db/db.go:511-528 | the watermark moves to the largest UID present or stays, and never falls |
| `UidPoll.EveryUidHandedOver` | internal/imaplistener/listener.go:547-619 | in every run a UID is handed over at least once exactly if some poll saw it, even if watermark writes fail, and exactly once if they are stored |
| `UidPoll.WatermarkNeverFalls` | internal/db/db.go:523-528 | between any two points of a run the watermark does not decrease |
| `KeyRotation.AtoiReadsPrintInt` | internal/crypto/crypto.go:199-212 | every 64-bit version number, negative ones included, is read back from its decimal form |
| `KeyRotation.ParsePrint` | internal/crypto/crypto.go:199-212 | the parser undoes the printer for every version and data |
| `KeyRotation.ParsesIff` | internal/crypto/crypto.go:199-212 | a text reads as versioned exactly when it is "v", a number, a colon and the data |
| `KeyRotation.AtoiAccepts` | internal/crypto/crypto.go:199-212 | a number is an optional sign and digits, within 64 bits |
| `KeyRotation.NewVersionedEncryptor` | internal/crypto/crypto.go:39-60 | succeeds exactly when the current version is present and no key is empty; the result holds the hash of every key |
| `KeyRotation.RoundTrip` | internal/crypto/crypto.go:84-143 | what was encrypted for an account decrypts for it, for every version, nonce and plaintext, and needs no rotation |
| `KeyRotation.VersionSelectsKey` | internal/crypto/crypto.go:119-173 | what one encryptor wrote, any other with the key of that version reads, and one rotation moves it to the other's current version and key; an encryptor without the version refuses it by name |
| `KeyRotation.DecryptByShape` | internal/crypto/crypto.go:119-196 | what Decrypt returns for every stored value, in terms of its prefix, the keys and the library functions |
| `KeyRotation.EncryptedForm` | internal/crypto/crypto.go:84-112 | what Encrypt writes: the current version and the plaintext sealed under the key derived for the account |
| `KeyRotation.RotationKeepsMeaning` | internal/db/db.go:1013-1040 | rotating a row leaves what Decrypt returns, errors included, unchanged |
| `KeyRotation.RotationSettles` | internal/crypto/crypto.go:146-156 | a row counts exactly when it changes, a second rotation leaves it, undecryptable rows stay |
| `KeyRotation.OldKeysCanGo` | internal/crypto/crypto.go:119-196 | what was decryptable before rotation decrypts afterwards, to the same plaintext, under the current key alone |
| `KeyRotation.PlaintextPassesIff` | internal/crypto/crypto.go:114-143 | a legacy plaintext passes through exactly when it does not read like a version prefix, and is a base64 error otherwise |
| `KeyRotation.PlaintextRotates` | internal/db/db.go:983-1043 | one that does is an error under every set of keys and no rotation moves it; any other is encrypted by its first rotation and decrypts under the current key alone |
| `KeyRotation.LookalikePasswordsFail` | internal/crypto/crypto.go:199-212 | every printed version number, also with a plus sign, before something that is not base64 is an error |
| `KeyRotation.LegacyBase64Iff` | internal/crypto/crypto.go:119-143 | unversioned base64 decrypts to its plaintext exactly when it opens so under the current key; sealed under another it is returned as stored, and after rotation no Decrypt gives the plaintext |
| `KeyRotation.TableKeepsMeaning` | internal/db/db.go:983-1043 | no password of the table changes meaning, whichever updates the database refuses |
| `KeyRotation.SecondRotationFindsNothing` | internal/db/db.go:983-1043 | a second rotation changes no row, and old keys can go for the whole table |
| `KeyRotation.Accounts.RowsToRotate` | internal/db/db.go:983-1011 | collects exactly the rows that need rotation |
| `KeyRotation.Accounts.RotateOne` | internal/db/db.go:1013-1040 | one row becomes its goal and counts exactly if it changed |
| `KeyRotation.Accounts.RotateRows` | internal/db/db.go:1013-1040 | in whatever order the rows come, the loop reaches the goal table |
| `KeyRotation.Accounts.RotateEncryptionKeys` | internal/db/db.go:983-1043 | the table after rotation keeps every meaning, undecryptable and refused rows stay, every other row needs the current key alone, and the result counts the rows that changed |
| `RuleEngine.Interpreter.Invoke` | internal/engine/engine.go:349-519 | one action call on the shared globals agrees with the value-level step, errors included |
| `RuleEngine.Interpreter.InvokeAll` | internal/engine/engine.go:349-519 | a body agrees with the value-level run, stopping at the first error |
| `RuleEngine.CallOutcome` | internal/engine/engine.go:349-519 | from any globals, when a call fails and what it leaves captured, read off its text |
| `RuleEngine.BodyOutcome` | internal/engine/engine.go:352-397 | from any globals, a body of nested schedules fails exactly if some schedule captures nothing, and what it leaves is the last capture of its text |
| `RuleEngine.RuleMeansItsLastCall` | internal/engine/engine.go:349-537 | a rule fails exactly when some nested schedule captures nothing; otherwise capture mode is off at the end and the result is that of the last top-level call alone on a fresh state |
| `RuleEngine.NestedScheduleDecides` | internal/engine/engine.go:352-397 | what a body captures is decided by its last nested schedule, whatever follows it |
| `RuleEngine.EachCallAlone` | internal/engine/engine.go:398-519 | the result of every action call by itself, field by field |
| `RuleEngine.EachCallScheduled` | internal/engine/engine.go:352-397 | the result of a schedule around every action call, and the error of one that captures nothing |
| `ScheduledDispatch.DeferredReachesExecutorIff` | internal/rulesengine/consumer.go:266-280 | engine and consumer together, for schedule, defer_action, move_after and delete_after: the row names the intended target as action and as target, so the action arrives as itself exactly when its target spells its name, and a scheduled delete, archive or keep and every delete_after are refused as unknown |
| `ScheduledDispatch.CapturedTargets` | internal/engine/engine.go:349-519 | actions without a parameter are captured with an empty target, at any nesting depth |
| `RuleOrder.RuleTable.ReorderRules` | internal/db/db.go:728-749 | succeeds exactly when the tenant owns every named rule; otherwise no priority changes |
| `RuleOrder.OnlyPrioritiesChange` | internal/db/db.go:728-749 | a reorder adds and removes no rule and touches nothing but priorities of named rules |
| `RuleOrder.PositionsBecomePriorities` | internal/db/db.go:728-749 | a rule named once gets ten times its position |
| `RuleOrder.EvaluateAll` | internal/engine/engine.go:117-130 | returns the first match and its result, skip if there is none |
| `RuleOrder.FirstMatchIsFirst` | internal/engine/engine.go:117-130 | the match has no match before it; no match means none in the list |
| `RuleOrder.UserOrderDecides` | internal/db/db.go:576-594 | after a complete reorder, listing by priority and id and evaluating picks the earliest active, approved rule of the user's order that neither errors nor skips, and none only if there is none |
| `LuaLiterals.LiteralCost` | internal/movedetect/infer.go:19-26 | every character of a Lua literal's value costs at least one character of text, a special one two |
| `LuaLiterals.EscapedReadsBackIff` | internal/movedetect/infer.go:19-26 | a literal with escaped quotes is read back exactly when its value has no backslash and no line break |
| `LuaLiterals.RawReadsBackIff` | internal/movedetect/infer.go:19-26 | a literal printed as it is is read back exactly when its value has no quote either |
| `LuaLiterals.EscapesAre` | internal/movedetect/infer.go:19-26 | the escapes of section 2.1 of the Lua 5.1 manual |
| `LearnedRules.SenderRuleReadsBack` | internal/movedetect/infer.go:19-26 | the printed sender rule, read as Lua, compares with that sender and moves to that folder |
| `LearnedRules.KeywordRuleReadsBack` | internal/movedetect/infer.go:29-55 | the printed keyword rule, read as Lua, tests exactly those keywords, for lists of plain keywords of any length |
| `LearnedRules.SenderRuleText` | internal/movedetect/infer.go:19-26 | the text of a sender rule |
| `LearnedRules.KeywordRuleText` | internal/movedetect/infer.go:42-55 | the text of a keyword rule, and how further keywords are joined |
| `LearnedRules.DisabledRuleText` | internal/movedetect/infer.go:32-40 | the text of a rule without keywords |
| `RuleWeights.BodyTakes` | internal/movedetect/infer.go:19-55 | whatever is read as a literal has the ink of its value and one more for every quote, backslash or line break in it |
| `RuleWeights.KeywordsTake` | internal/movedetect/infer.go:42-49 | whatever is read as keyword conditions has at least the ink of their tokens and literals |
| `RuleWeights.KeywordsInk` | internal/movedetect/infer.go:42-49 | printed keyword conditions have exactly that ink less one for every unescaped backslash or line break |
| `ReadBackExactly.KeywordRuleReadsBackIff` | internal/movedetect/infer.go:29-55 | for every non-empty list the printed keyword rule reads back as those keywords and that folder exactly when the folder is clean and no keyword has a backslash or line break |
| `ReadBackExactly.BackslashRuleIsMisread` | internal/movedetect/infer.go:42-49 | a keyword with a backslash before a `t` gives a rule that looks for a tab |
| `ReadBackExactly.DisabledRuleRuns` | internal/engine/engine.go:87-92 | the first code of a rule without keywords is its own `if` exactly when every line of the truncated subject after the first is blank or a short comment, and otherwise the subject from the first other line on |
| `ReadBackExactly.SecondLineIsRun` | internal/movedetect/infer.go:29-40 | a subject of two lines without keywords whose second line is the first code the rule runs |
| `ReadBackExactly.SenderRuleRuns` | internal/engine/engine.go:87-92 | the first code of a sender rule is its own `if` exactly when the later lines of sender and folder are blank or comments, and otherwise those lines |
| `ReadBackExactly.RuleFollowed` | internal/movedetect/infer.go:19-55 | in the fragment of one rule: blanks and comments before the printed rule change nothing, and with any other code before it the text is outside the fragment |
| `ReadBackExactly.CallReadsBackIff` | internal/movedetect/infer.go:19-55 | the printed argument of the move is read back exactly when the folder has no backslash, quote or line break |
| `ReadBackExactly.SenderRuleReadsBackIff` | internal/movedetect/infer.go:19-26 | in the fragment of one rule the printed sender rule is the one for that sender and folder exactly when the sender has no backslash and no line break and the folder no quote either |
| `ReadBackExactly.DisabledRuleReadsBackIff` | internal/movedetect/infer.go:29-40 | the printed rule without keywords is, in the fragment of one rule, the one that never matches exactly when the folder is clean and the later lines of the truncated subject are blank or short comments; with a clean folder and any other subject the text is outside the fragment |
| `ReadBackExactly.OneLineIsQuiet` | internal/movedetect/movedetect.go:875-880 | a subject on one line meets that condition, truncated or not |
| `LuaLiterals.QuietLinesAreSkipped` | internal/movedetect/infer.go:29-40 | the reader skips exactly the texts all of whose lines are blank or short comments |
| `KeywordExtraction.RemovePrefixes` | internal/movedetect/infer.go:112-119 | the prefix loop computes its specification for every prefix list |
| `KeywordExtraction.SelectWords` | internal/movedetect/infer.go:152-170 | the filter loop computes its specification for every word list |
| `KeywordExtraction.ExtractKeywords` | internal/movedetect/infer.go:112-177 | the loops compute the keywords the lemmas below are about |
| `KeywordLaws.PrefixesInTurn` | internal/movedetect/infer.go:112-119 | prefixes are trimmed one after the other |
| `KeywordLaws.OnePrefix` | internal/movedetect/infer.go:112-119 | what trimming one prefix leaves, and the list of prefixes |
| `KeywordLaws.BracketsGo` | internal/movedetect/infer.go:122-125 | a bracketed piece on one line goes, whatever follows |
| `KeywordLaws.OpenBracketStays` | internal/movedetect/infer.go:122-125 | a bracket that is not closed on its line stays |
| `KeywordLaws.FieldsSplit` | internal/movedetect/infer.go:127-128 | the fields of a text are those before a space and those after it |
| `KeywordLaws.TrimIs` | internal/movedetect/infer.go:152-156 | trimming takes cut characters from both ends until none can be taken |
| `KeywordLaws.SelectInTurn` | internal/movedetect/infer.go:152-170 | words are selected one by one and in order |
| `KeywordLaws.OneWord` | internal/movedetect/infer.go:152-170 | a word counts if, lower-cased and trimmed, it has three bytes or more, is no stop word and is not all digits |
| `KeywordLaws.StopWordsAre` | internal/movedetect/infer.go:130-150 | the words that never become keywords |
| `KeywordLaws.ThreeAreKept` | internal/movedetect/infer.go:171-177 | the first three are kept |
| `KeywordLaws.BytesAreUtf8` | internal/movedetect/infer.go:158-160 | the bytes counted are those of the UTF-8 encoding |
| `KeywordLaws.ComplexIff` | internal/movedetect/infer.go:58-109 | what makes an address complex, written on its lower-cased text and the part before the first at sign |
| `KeywordLaws.HexIff` | internal/movedetect/infer.go:92-102 | the test for identifiers adds nothing to the test for eight hexadecimal digits |
| `KeywordLaws.LongestPrefix` | internal/movedetect/movedetect.go:875-880 | truncation keeps the longest prefix that fits |
| `KeywordExtraction.FieldsAreWords` | internal/movedetect/infer.go:127-128 | every field is non-empty, free of spaces and a substring |
| `KeywordExtraction.StrippedWordStood` | internal/movedetect/infer.go:122-125 | where bracketed pieces stand apart, every word left after removing them already stood in the text |
| `KeywordExtraction.KeywordIsPlain` | internal/movedetect/infer.go:112-177 | a keyword never has a line break, so only a backslash can keep it from being printed |
| `KeywordExtraction.StandingIsFound` | internal/engine/engine.go:164-171 | a keyword whose word stands in the subject is found there by the engine's case-insensitive `contains` |
| `KeywordExtraction.KeywordsAreFound` | internal/movedetect/infer.go:112-177 | where bracketed pieces stand apart, every keyword stands in the subject and is found |
| `KeywordExtraction.NoKeywordsIff` | internal/movedetect/infer.go:152-177 | no keyword is found exactly when no word of the subject is significant |
| `KeywordExtraction.StrippingJoins` | internal/movedetect/infer.go:122-125 | removing a bracketed piece joins the texts around it |
| `KeywordExtraction.JoinedWordIsNotFound` | internal/movedetect/infer.go:112-177 | for every two pieces of a word around a bracketed piece the joined word is the only keyword, and if its first character occurs nowhere else in the subject it is not found there |
| `RuleLearning.JoinedConditions` | internal/movedetect/infer.go:42-49 | the joined condition texts are the printer's condition |
| `RuleLearning.BuildConditions` | internal/movedetect/infer.go:42-47 | the loop yields one condition text per keyword, in order |
| `RuleLearning.InferFromSubject` | internal/movedetect/infer.go:29-55 | the method prints the rule the read-back lemmas are about |
| `RuleLearning.LearnedRuleMovesItsTeacher` | internal/movedetect/infer.go:11-55 | the learned rule, read as Lua, moves the very message that taught it to that folder, or is disabled, exactly when the sender is complex and no keyword was found; it tests the sender exactly when the sender is not complex; one keyword that was not joined is enough |
| `RuleLearning.KeywordRuleMovesTeacherIff` | internal/movedetect/infer.go:29-55 | for plain keywords and a clean folder the rule moves its teacher if and only if some keyword occurs in the lower-cased subject |
| `RuleLearning.MisreadKeywordMisses` | internal/movedetect/infer.go:42-49 | a keyword with a backslash before a `t` makes the rule miss every subject without a tab, its teacher's included |
| `RuleLearning.StandingApartIsEnough` | internal/movedetect/infer.go:122-125 | brackets that stand apart meet the condition on joined words |
| `RuleLearning.BracketFreeIsEnough` | internal/movedetect/infer.go:122-125 | a bracket-free subject meets the bracket condition of that theorem |
| `RuleLearning.RuleBook.HasSimilarRule` | internal/movedetect/movedetect.go:713-730 | true exactly when some rule's text contains sender and folder and, for the detector, the sender is not complex |
| `RuleLearning.RuleBook.LearnFromMove` | internal/imaplistener/movedetect.go:387-436 | adds exactly the inferred rule, unless a rule's text contains both sender and folder and the learner asks |
| `RuleLearning.LearnsUnlessMentioned` | internal/imaplistener/movedetect.go:395-426 | the same on values, for both learners |
| `RuleLearning.FirstLessonIsLearned` | internal/movedetect/movedetect.go:679-689 | the first move of a sender that is not complex leaves one standing rule, whoever learns |
| `RuleLearning.MovedIsMentioned` | internal/movedetect/movedetect.go:713-730 | after every move of such a sender some rule's text contains both sender and folder |
| `RuleLearning.SenderRuleMentions` | internal/movedetect/infer.go:19-26 | every sender rule mentions its sender and folder as they are, quotes included |
| `RuleLearning.LessonsAreConserved` | internal/movedetect/movedetect.go:662-710 | over every run, standing rules of a lesson are those created minus those a user deleted or rewrote |
| `RuleLearning.OneRulePerLesson` | internal/imaplistener/movedetect.go:395-426 | over every run of both learners and the users, a sender that is not complex and a folder have at most one standing learned rule, and creations exceed losses by at most one |
| `RuleLearning.DetectorRepeatsComplexSenders` | internal/movedetect/movedetect.go:713-730 | for a complex sender n detector moves add n rules |
| `RuleLearning.LongerLessonSilences` | internal/movedetect/movedetect.go:713-730 | a rule learned for a longer address and folder makes both learners refrain for those contained in them |
| `FolderSearch.ScanFolder` | internal/movedetect/movedetect.go:611-642 | one folder adds exactly its own targets not found before, and `remaining` equals targets minus found |
| `FolderSearch.FindMessagesInFoldersBatch` | internal/movedetect/movedetect.go:588-659 | every target found is mapped to the first folder that can be selected and has it, every other is in none; the early break loses nothing |
| `FolderSearch.FindMessageInFolders` | internal/movedetect/movedetect.go:550-580 | returns the first folder that can be selected and searched and where the search reports something |
| `FolderSearch.SearchesAgreeIff` | internal/movedetect/movedetect.go:550-659 | batch and one-message search agree on a Message-ID exactly when no decoy folder precedes its first holder and that holder can be searched |
| `FolderSearch.ExactServerAgrees` | internal/movedetect/movedetect.go:550-659 | with a server that matches whole IDs they agree for every folder list |
| `FolderSearch.SubstringServerMisleads` | internal/movedetect/movedetect.go:550-580 | two folders on which they differ |
| `DetectorScan.MoveWorker.SearchTargets` | internal/movedetect/movedetect.go:342-353 | exactly the non-empty Message-IDs of vanished UIDs, each with a UID that carries it |
| `DetectorScan.MoveWorker.RecordMoves` | internal/movedetect/movedetect.go:363-407 | one move per found Message-ID with an eligible destination, no other, none twice |
| `DetectorScan.MoveWorker.Scan` | internal/movedetect/movedetect.go:283-434 | the first scan reports nothing; later ones take exactly the vanished UIDs as missing and record exactly sound moves, leaving none out |
| `DetectorScan.MissingAtMostOnce` | internal/movedetect/movedetect.go:283-434 | over every run each UID is classed as missing once if some scan saw it and the last did not, and never otherwise |
| `TokenRevocation.Blacklist.BlacklistToken` | internal/db/auth.go:183-188 | an existing row keeps its expiry |
| `TokenRevocation.Blacklist.CleanExpiredTokens` | internal/db/auth.go:202-205 | exactly the expired rows go |
| `TokenRevocation.Blacklist.Logout` | internal/api/handlers/auth.go:195-214 | revokes exactly non-empty valid tokens, with their own expiry |
| `TokenRevocation.Blacklist.Authenticate` | internal/api/middleware/auth.go:20-60 | the chain of early returns accepts exactly what the decision predicate does, with the token's own claims |
| `TokenRevocation.AcceptedIff` | internal/api/middleware/auth.go:20-60 | in every reachable state a token is accepted exactly when it has three dot-free parts, is genuine, unexpired and never logged out, or the lookup fails |
| `TokenRevocation.TwoDotsIff` | internal/api/middleware/auth.go:20-60 | two dots mean three dot-free parts |
| `TokenRevocation.LogoutIsFinal` | internal/api/handlers/auth.go:195-214 | after a stored logout the token is refused in every later state, whatever sweeps run |
| `AiCache.KiroCache.FindOldest` | internal/engine/kiro.go:93-118 | in any map order the scan ends on an entry no other is older than |
| `AiCache.KiroCache.Set` | internal/engine/kiro.go:93-118 | the key holds the value, and a full cache loses one oldest entry |
| `AiCache.EveryRun` | internal/engine/kiro.go:78-118 | in every run a hit is the most recent value set for its key and at most the TTL old, and with non-empty keys the size limit holds |
| `AiCache.RecentValueSurvives` | internal/engine/kiro.go:93-118 | a value newer than all others is present until as many sets as the cache's size have followed |
| `AiCache.RecentValueHits` | internal/engine/kiro.go:78-118 | such a value answers every lookup until its TTL has passed and none after |
| `AiCache.KeysAreNonEmpty` | internal/engine/kiro.go:73-75 | no key is empty |
| `AiCache.CacheKeyIsInjective` | internal/engine/kiro.go:73-75 | for colon-free tags and Message-IDs the key determines its parts |
| `AiCache.HitIsLastAnswer` | internal/engine/kiro.go:73-118 | in every run a hit for a colon-free tag and Message-ID and a question is the most recent answer stored for that same tag, Message-ID and question, at most the TTL old, whatever was evicted |
| `AiCache.MessagesCollideIff` | internal/engine/kiro.go:73-75 | two Message-IDs can share a key under one tag exactly when one continues the other with a colon |
| `AiCache.Classify` | internal/engine/kiro.go:163-206 | a hit answers without the API; an answer is stored under the message's own key, a failure is not |
| `MimeParts.ListedResolves` | internal/imaplistener/listener.go:862-891 | a listed path is the place of an eligible image leaf with the listed type, name and size |
| `MimeParts.ImageIsListed` | internal/imaplistener/listener.go:862-891 | every JPEG, PNG, GIF or WebP leaf of at most 5 MiB is listed under its own place |
| `MimeParts.SectionOfIsTheAddress` | internal/imaplistener/listener.go:903-909 | every leaf has exactly one section number by section 6.4.5 of RFC 3501: 1 if it is the whole message, its place otherwise |
| `MimeParts.AskedRightlyIff` | internal/imaplistener/listener.go:903-909 | a listed part is asked for under the section number of its leaf exactly when the message is multipart; otherwise the whole message is asked for |
| `MimeParts.ListedAreSectionsIff` | internal/imaplistener/listener.go:862-891 | for every message: all listed paths are the section numbers of their leaves if and only if the message is multipart or nothing is listed |
| `MimeParts.RootImageIsAskedWrongly` | internal/imaplistener/listener.go:674 | a message that is itself an eligible image is asked for as the whole message, header included |
| `MimeParts.PartsAreOrdered` | internal/imaplistener/listener.go:862-891 | the list is in strict left-to-right order |
| `MimeParts.PathsDiffer` | internal/imaplistener/listener.go:862-891 | no two listed parts share a path |
| `MimeParts.PartsEqual` | internal/imaplistener/listener.go:955-965 | true exactly for equal paths |
| `MimeParts.FindPart` | internal/imaplistener/listener.go:933-953 | the first part with this path |
| `MimeParts.FirstFourAreRequested` | internal/imaplistener/listener.go:898-900 | the first four listed parts are requested |
| `MimeParts.UsefulInTurn` | internal/imaplistener/listener.go:933-949 | sections are taken in order, those with bytes and the path of a requested part |
| `MimeParts.FetchImageAttachments` | internal/imaplistener/listener.go:893-953 | every requested non-empty section becomes one attachment, in order, named and typed by the one part it can belong to; with a truthful server its data is the content of that leaf if the message is multipart, and the whole message otherwise |
| `Utf8.EncodeDecoded` | internal/imaplistener/movedetect.go:513-530 | encoding a decoded character gives its bytes back |
| `Utf8.DecodeEncoded` | internal/imaplistener/movedetect.go:513-530 | every scalar value is decoded from its encoding, whatever follows |
| `Utf8.ValidIffEncoding` | internal/imaplistener/movedetect.go:513-530 | the well-formedness test accepts exactly the encodings of scalar sequences |
| `Utf8.SanitizeUTF8` | internal/imaplistener/movedetect.go:513-530 | terminates with well-formed output, the identity on well-formed input, at most three times as long, and loses nothing but the bad bytes |
| `Utf8.RepairNext` | internal/imaplistener/movedetect.go:519-528 | one round moves bytes from input to output without changing the outcome |
| `Utf8.RepairRune` | internal/imaplistener/movedetect.go:520-527 | what one round writes, and how far it moves on |
| `Utf8.RepairIsValid` | internal/imaplistener/movedetect.go:513-530 | the repair of any byte string is well-formed |
| `Utf8.ValidIsKept` | internal/imaplistener/movedetect.go:513-530 | a well-formed beginning, genuine replacement characters included, is kept byte for byte whatever follows |
| `Utf8.BadByteIsReplaced` | internal/imaplistener/movedetect.go:519-528 | a byte that starts no character is replaced alone: what stands before it is kept and what follows is repaired in turn |
| `Utf8.RepairIsShort` | internal/imaplistener/movedetect.go:513-530 | at most three times the length of the input |
| `Utf8.RepairIsIdempotent` | internal/imaplistener/movedetect.go:513-530 | repairing twice is repairing once, and repair changes nothing exactly on well-formed strings |

## Left out

- FeedbackLoop.NoFeedback: about the listener only, because the polling detector does not read `rule_applied_moves`; a move whose row could not be stored, or was stored under another Message-ID, is not covered, and `ActsOnOwnMessageIff` says when the latter happens; the listener's own lookups succeed.
- FeedbackLoop.Executor.ExecuteAction: the cache of connections is left out; connecting, selecting and searching either succeed or fail as a whole.
- DetectorScan.MoveWorker.Scan: fetches are complete and the table of detected moves accepts every row.
- ExpungeTracking.IdleWindowIsExact: covers the window from a snapshot with an empty channel to the end of IDLE; notifications queued outside it are not drained by the in-loop rebuild and are not modelled.
- StreamConsumer.EveryRun: the stream server's acknowledgement timers are not modelled; a message that is not settled may be redelivered at any moment, at most three times in all.
- DeferredActions.EveryRun: one scheduler; two schedulers on one table could fetch the same rows.
- UidPoll.EveryUidHandedOver: is about handing to publishBatch; the watermark also moves past messages that publishBatch fails to publish, and UIDVALIDITY changes are not modelled.
- KeyRotation.RoundTrip: AES-GCM, HKDF, SHA-256 and base64 are abstract functions with the two round-trip laws; failures of the random source are not modelled.
- RuleEngine.RuleMeansItsLastCall: models action calls only; a protected call that catches a failing schedule leaves the capture flag set and is not part of the fragment, and neither are the interpreter, its sandbox and its timeout.
- ReadBackExactly.DisabledRuleReadsBackIff: about a fragment of Lua in which a text is one rule; `None` means outside that fragment, and such a text may be a chunk that the engine runs, whose effect is not modelled beyond what it runs first (`DisabledRuleRuns`). The same holds of `RuleFollowed`. Truncation of the quoted subject is modelled on whole characters, while the code may cut one in half inside the comment.
- ReadBackExactly.DisabledRuleRuns: for folder names on one line; a line break in the folder's name lets out the rest of the name before the subject.
- LuaLiterals.EscapedReadsBackIff: a long comment is outside the modelled fragment and is not skipped, and a backslash before a two-character line break is read as two line breaks.
- RuleLearning.LearnedRuleMovesItsTeacher: strings are sequences of characters and lower-casing is a character mapping with two laws; strings that are not well-formed UTF-8 are not modelled.
- RuleLearning.OneRulePerLesson: checking and creating are one step, as when one learner runs at a time for a tenant, and the rule listing succeeds.
- TokenRevocation.AcceptedIff: distinct signed tokens are assumed to have distinct hashes; signatures, API keys and the tenant set-up after acceptance are not modelled.
- AiCache.EveryRun: keys are strings as built by cacheKey; the lock around the map is taken to make get and set atomic.
- MimeParts.FetchImageAttachments: media types are compared in lower case as given, an attached message is one leaf as in the code, and the fetch itself and its error paths are foreign code.
- FolderSearch.FindMessagesInFoldersBatch: a folder that cannot be selected or fetched completely is modelled as one without those messages.
- IMAP dialing, login, OAuth refresh, TLS, the NATS client, the Postgres driver, Telegram: foreign code, present only as outcomes of steps.
- The monolithic worker in `internal/imap` and scheduler in `internal/scheduler`: they repeat the same algorithms.
- `isActionable` and `isFakeInvoice` use the cache the way `classify` does and would add nothing.
- Frontend, editor extension, deployment files, HTTP parsing, configuration, prompts, logging, plain table access, metadata queries, exempt-folder lists, password rules: only easy members.
