# A model of the stampyx mail API

This project models the logic of stampyx-api, a multi-tenant mail service that sits between its own
database, an IMAP server and the Sieve scripts the delivery agent runs, and proves what that logic keeps.
`dafny verify dfyconfig.toml` checks all of it.

The service keeps three things in step that live in three places:

* **Rules and scripts.** A user's filter rules are rows of a table. They are compiled to a Sieve script
  (RFC 5228, with RFC 5232 `setflag` and RFC 3894 `:copy`) that is staged, compiled and renamed into
  place. The rule editor also previews a condition as an SQL pattern over the messages already stored.
* **Messages.** The `received_message` table is a cache of the IMAP server. Folder listings refresh it,
  delivery notifications extend it, and moves, removals, renames and deletions change both sides, with
  network calls that may fail at any point. Thread ids are computed from the cache as it was before.
* **Standing.** Accounts, domains and mailboxes decide what the mail plane serves; a warmup curve limits
  what an account may send; a lock limits how often a login to a mailbox may fail; attachments share a
  budget per mailbox.

## How it is laid out

| files | subject |
|---|---|
| `Prelude`, `Addresses`, `Wildcard`, `KeepBest` | shared vocabulary; splitting an address at its last at sign; the one wildcard language behind Sieve `:matches` and SQL LIKE; the keep-the-best loop behind both de-duplications |
| `SieveCompiler`, `SieveSyntax`, `SieveRoundTrip` | the compiler from rules to script text; a lexer and parser for the Sieve grammar; the proof that every script reads back as the tree intended |
| `SieveMeaning`, `RulePreview`, `MailPreview` | an interpreter for scripts against a direct reading of the rules; the preview's SQL pattern and the `:matches` tests against what the operator says, text by text; the preview of a row against the script on its message |
| `RuleStore`, `ScriptStore`, `MailFiling` | the rule table and its requests; the script files, the writer and the reconciler while mailboxes come and go; from an edited rule to a filed message |
| `Projection`, `Conversation` | the cached table, its upsert and prune; the conversation view |
| `Threads`, `ThreadRounds`, `ThreadedSync`, `Delivery` | how thread ids travel up reply links over syncs, in one folder or any order of folders, in one fixed order of several, and on tables; delivery notifications |
| `Folders`, `ImapServer`, `Mailroom`, `MailOutcomes`, `MailroomRuns`, `MailService` | folder paths and the subtree statements; the IMAP server; every operation on both; what a caller sees of each; runs of them; the service methods and bulk operations |
| `Warmup`, `MailboxAuth`, `Attachments`, `Tenancy` | the send counter under concurrency; logins, lockout and sessions; the attachment budget; accounts, domains, mailboxes and the mail-plane views |

Tables are finite maps held in class fields. Each class method is proved equal to an effect function on
values, network answers and failures being parameters. What such a function means is stated without it: whom
an operation refuses, which rows and messages it changes and how, and which it leaves alone. The main properties
are lemmas over every run. Row ids and tokens, random in the service, are numbers never handed out before.

## Where the code does not do what its surroundings say

* `src/rules/sieve.test.ts:134-141` intends that a literal `*` or `?` in a starts_with or ends_with value is
  not a pattern. The compiler writes `\*`, but inside a quoted string RFC 5228, section 2.4.2, reads `\*` as
  `*`, and a wildcard it is. `EscapedStarIsStillAPattern` gives the example, `CompiledTestExactness` the exact
  values for which a compiled test means its operator, `CompiledTestNeverMisses` what still holds otherwise.
* The preview folds letters as the database does, and `compose.yaml` runs a UTF-8 one; the script folds ASCII letters
  only (RFC 5228, section 2.7.3). A `contains` rule on a capital accented letter is previewed on texts with the small one
  and never fires on them (`AccentsAreNotFolded`). `PreviewAgreesWithScript` says exactly, for every such folding,
  which values are previewed rightly.
* The preview of a sender rule searches the bare address that `src/messages/imap.client.ts:180-186` takes from the envelope,
  the script the whole From header with its display name. No value a rule may have is previewed rightly on all
  mail (`SenderPreviewExactness`); `NamedSenderExactness` says on which mail from a named sender it is.
* `src/rules/sieve.writer.ts:80-87` takes any compiler error with `not found` in it for a missing compiler. A script with a
  real fault whose message quotes such a value is installed (`QuotedValueInstallsFaultyScript`);
  `FaultyScriptIsInstalledExactly` says when.
* The subtree statements of `src/folders/folder.repository.ts` put the folder path into a LIKE pattern
  unescaped. `SubtreeExactness` and `RenameIsSafeExactly` say exactly which paths that is right for,
  `UnderscoreTakesSibling` gives an example of one it is not.
* A folder name may contain the hierarchy delimiter when that is not a slash or backslash.
  `PathShowsItsParts` and `RenameShowsNewName` say exactly when the folder list shows the name asked for.
* Thread ids of two messages that reply to each other need not converge. In a mailbox of one folder, synced from nothing, they swap
  threads at every sync, for ever (`Threads.MutualRepliesNeverSettle`, on tables `ThreadedSync.MutualRowsNeverSettle`).
  Started from any other threads they swap exactly when the two differ (`MutualRepliesSwapThreads`); two such
  messages that are delivered share a thread at once and keep it (`DeliveredPairIsSteady`). In general a message of a
  one-folder mailbox keeps its thread from the n-th sync from nothing on exactly when its reply chain has ended by then
  (`SteadyExactlyWhenChainEnds`), and from any start ever comes to rest exactly when its chain runs into a round
  of messages that started in one thread (`RestsExactlyWhenRoundAgrees`). With several folders synced in one order only
  those of the round count whose folder does not come before their reply's (`RestsExactlyWhenLateRoundAgrees`): a
  pair split over two folders settles, a longer cycle need not.
* `src/messages/message.service.ts:89-98` sends a read flag to the server only when the row's uid is stored. A row
  delivered without one is marked in the cache alone, and the next sync of the folder takes the mark back
  (`UnlocatedMarkIsLost`). `MarkReadAgreesExactly` and `MarkSurvivesSyncExactly` say exactly when a mark holds.
* `src/messages/imap.client.ts:212-234` ignores what its calls answer. A move, removal or discarded draft that the server
  says NO to is taken for done: the row goes and the message stays where it was (`RefusedCallLosesRow`).
* `src/mailboxes/mailbox.service.ts:151-169` leaves the script of a deleted mailbox in place and swallows the failure of
  a new mailbox's first script, so an address created again may run the former holder's rules
  (`RecreatedAddressKeepsFormerScript`). `HolderRunsOwnRulesOnceServed` says exactly until when.
* Wrong passwords given to a password change (`src/auth/mailbox-auth.service.ts:101-116`) are not counted: the bound of
  `FailedLoginRate` is one on logins, and `WrongChangesAreUnbounded` shows that none holds here.
* The five-week volume bound needs no promise that the earliest verified domain is kept: deleting or
  verifying domains after the first verification never raises it (`FiveWeekVolume`).

## Model

| member | source | states |
|---|---|---|
| SieveCompiler.GenerateSieve | src/rules/sieve.ts:77-109 | the loop over the filtered, sorted rules yields the specified script |
| SieveCompiler.SortIsStable | src/rules/sieve.ts:93-95 | the rules come out in ascending position, rules of one position in their given order |
| SieveCompiler.StableSortIsUnique | src/rules/sieve.ts:93-95 | any stable sort by position gives the same list |
| SieveCompiler.ScriptIgnoresInputOrder | src/rules/sieve.ts:77-109 | with distinct positions the script is the same for every order of the input |
| SieveRoundTrip.EscapedTextReadsBack | src/rules/sieve.ts:8-14 | quoted-string decoding inverts backslash escaping, whatever characters beyond the quote and backslash are escaped too |
| SieveRoundTrip.ReadsQuote | src/rules/sieve.ts:8-10 | a quoted value is read as exactly the original string, so no value closes its literal |
| SieveRoundTrip.ReadsQuoteMatch | src/rules/sieve.ts:12-14 | after decoding, a match key denotes prefix, value and suffix for every value |
| SieveRoundTrip.ReadsNotify | src/rules/sieve.ts:73-75 | the notification statement reads as one pipe of the script with the folder as its argument |
| SieveRoundTrip.ReadsCondition | src/rules/sieve.ts:29-50 | a condition reads as one header test on the field's header with the operator's tag and key |
| SieveRoundTrip.ReadsBody | src/rules/sieve.ts:52-71 | an action body reads as exactly its statements |
| SieveRoundTrip.ReadsRule | src/rules/sieve.ts:93-104 | the lines of a rule read as one conditional, or as nothing when the rule is skipped |
| SieveRoundTrip.ScriptReadsBack | src/rules/sieve.ts:77-109 | for all rules and options, parsing the script gives the intended tree: require, spam block, one conditional per emitted rule with its original strings, closing pipe |
| SieveMeaning.RuleTestMeans | src/rules/sieve.ts:29-50 | the emitted test is true of a message exactly when the rule's condition, as compiled, matches it |
| SieveMeaning.FiresOnItsHeader | src/rules/sieve.ts:16-27 | a rule fires exactly when it can be compiled and a header named from, subject or to, for a sender, subject or recipient rule, is accepted |
| SieveMeaning.RuleBodyRuns | src/rules/sieve.ts:52-71 | executing the body has the rule's effect: file and notify and stop, flag and go on, redirect and stop, or discard and stop |
| SieveMeaning.SpamRuns | src/rules/sieve.ts:85-90 | a message flagged as spam is filed in the junk folder, reported and nothing more |
| SieveMeaning.RulesRun | src/rules/sieve.ts:93-104 | the conditionals run as the direct evaluator: first match that moves, forwards or discards ends the run |
| SieveMeaning.ScriptMeans | src/rules/sieve.ts:52-109 | for every rule list, option and message, interpreting the script has exactly the effects of the direct evaluator |
| SieveMeaning.OneRuleActsOnItsHeader | src/rules/sieve.ts:16-71 | on mail that is no spam the script of one rule does what its action says if a header of its field is accepted, and otherwise keeps and reports the mail in the inbox |
| SieveMeaning.OtherHeadersDoNotMatter | src/rules/sieve.ts:16-109 | a script treats two messages alike that agree on being spam and in the headers its active rules are about |
| SieveMeaning.ScriptReportsOneCopy | src/rules/sieve.ts:52-75 | every run stores at most one copy and sends exactly one notification per stored copy, naming its folder; forward and discard store and notify nothing |
| Wildcard.EscapedPatterns | src/rules/rule.service.ts:162-178 | an escaped value anchored whole, at the start, at the end or anywhere matches exactly the texts that equal, start with, end with or contain it |
| Wildcard.FoldEscape | src/rules/rule.repository.ts:92-101 | case folding commutes with the escaping |
| Wildcard.PrefixPatternExactness | src/rules/sieve.ts:43-44 | an unescaped value followed by the wildcard matches exactly the texts it starts just when it has no special character |
| Wildcard.SuffixPatternExactness | src/rules/sieve.ts:45-46 | the wildcard followed by an unescaped value matches exactly the texts it ends just when it has no special character but possibly a final backslash |
| RulePreview.PreviewIsExact | src/rules/rule.service.ts:162-178 | the preview pattern accepts exactly the texts the operator names, for every value and every case folding that leaves the pattern characters alone |
| RulePreview.CompiledTestExactness | src/rules/sieve.ts:38-46 | a compiled test accepts exactly the texts its operator names if and only if the value is exact for the operator |
| RulePreview.CompiledTestNeverMisses | src/rules/sieve.ts:43-46 | without a backslash in the value, a compiled test accepts every text its operator names |
| RulePreview.PreviewAgreesWithScript | src/rules/rule.service.ts:98-127 | whatever letters the database folds, pattern characters apart, preview and script agree on every text if and only if the value is exact for the operator and the database folds onto its letters the same characters as ASCII folding |
| RulePreview.AccentsAreNotFolded | src/rules/rule.repository.ts:92-101 | counterexample: a database that folds a capital accented letter counts the small one, which the script passes by |
| MailPreview.SubjectPreviewExactness | src/rules/rule.service.ts:98-127 | for the subject, preview of the row and script on the message agree on all mail if and only if value and letters are such |
| MailPreview.SenderPreviewExactness | src/messages/imap.client.ts:180-186 | for the sender they agree on all mail if and only if the value is empty, which no rule's is, and the operator is not equals |
| MailPreview.NamedSenderExactness | src/messages/imap.client.ts:180-186 | with such a value, on mail from a named sender: an equals rule is previewed rightly just when it names neither address nor header, a contains rule when the header matches only if the address does, an ends_with rule not ending in a bracket when the address does not match, as it never fires |
| MailPreview.NamelessAgrees | src/messages/imap.client.ts:180-186 | on mail from a sender without a name they agree just when they agree on the address as a text |
| RulePreview.EscapedStarIsStillAPattern | src/rules/sieve.test.ts:134-141 | counterexample: the starts_with value `a*c` matches `abc` |
| RulePreview.ScriptMeansWhatIsWritten | src/rules/sieve.ts:77-109 | with exact values the script does to every message what the rules say as written |
| RulePreview.OneRuleExactness | src/rules/sieve.ts:29-50 | for a single active rule that condition is also necessary |
| RuleStore.ChecksAcceptPermutations | src/rules/rule.service.ts:71-77 | the three checks of reorder accept exactly the permutations of the mailbox's rules |
| RuleStore.ReorderShowsRequestedOrder | src/rules/rule.repository.ts:71-91 | after a reorder listFor shows the requested order numbered 1..n, the rules otherwise unchanged and other mailboxes untouched |
| RuleStore.PositionsKeptEver | src/rules/rule.service.ts:28-96 | over every run of create, update, reorder and delete positions stay distinct per mailbox and at least 1 |
| RuleStore.StepKeepsPositions | src/rules/rule.service.ts:28-96 | no single request breaks that, accepted or refused |
| RuleStore.MailboxesAreIsolated | src/rules/rule.service.ts:28-96 | a request touches no rule of another mailbox |
| RuleStore.CreatedRule | src/rules/rule.service.ts:28-42 | a create adds the rule, column by column as given, at the end of its mailbox's list, and changes no other |
| RuleStore.UpdatedRule | src/rules/rule.service.ts:44-61 | an update rewrites a rule of the mailbox as given at the position it has, and no other; it is refused for any other id |
| RuleStore.DeletedRule | src/rules/rule.service.ts:87-96 | a delete takes a rule of the mailbox away, and no other |
| RuleStore.ReorderedExactly | src/rules/rule.service.ts:63-85 | a reorder is accepted just when it names each rule of the mailbox once |
| RuleStore.ListIsUnique | src/rules/rule.repository.ts:11-17 | with distinct positions listFor has one answer |
| RuleStore.RuleRepository.ListFor | src/rules/rule.repository.ts:11-17 | each rule of the mailbox once, ascending by position |
| RuleStore.RuleRepository.NextPosition | src/rules/rule.repository.ts:29-36 | one past the highest position, or 1 |
| RuleStore.RuleRepository.ReorderRows | src/rules/rule.repository.ts:71-82 | zeroing and renumbering leaves each listed rule at the number of its last place in the list |
| RuleStore.RuleRepository.CreateRule | src/rules/rule.service.ts:28-42 | adds the rule at the next position and keeps the invariant |
| RuleStore.RuleRepository.UpdateRule | src/rules/rule.service.ts:44-61 | rewrites an owned rule without its position, else not found |
| RuleStore.RuleRepository.Reorder | src/rules/rule.service.ts:63-85 | renumbers when the ids list the mailbox's rules exactly once, else refuses and changes nothing |
| RuleStore.RuleRepository.DeleteRule | src/rules/rule.service.ts:87-96 | removes an owned rule, else not found |
| ScriptStore.PathsDistinct | src/rules/sieve.writer.ts:42-49 | different mailboxes have different script files |
| ScriptStore.StagingIsNoScript | src/rules/sieve.writer.ts:54 | no staging file is the script file of any mailbox |
| ScriptStore.WriteIsAtomic | src/rules/sieve.writer.ts:46-58 | whatever step fails, a write replaces its own script whole or not at all and touches no other |
| ScriptStore.WriteLeavesStagingOnly | src/rules/sieve.writer.ts:46-58 | a write that fails leaves at most its staging file, with the whole script once it was written, and one that succeeds leaves none; every other file is as it was |
| ScriptStore.PathOf | src/rules/sieve.writer.ts:42-49 | the script of an address lies at root, domain and local part, with the extension of scripts |
| ScriptStore.PassesExactly | src/rules/sieve.writer.ts:80-87 | the three texts that make a compiler error pass |
| ScriptStore.SieveWriter.Write | src/rules/sieve.writer.ts:46-58 | the steps in order, each able to fail, leave the specified disk |
| ScriptStore.SieveWriter.Current | src/rules/sieve.writer.ts:25-33 | current means readable and equal to the script of the rules |
| ScriptStore.ErrorTextDecides | src/rules/sieve.writer.ts:60-87 | whatever the compiler found, an error text that reads as a missing compiler makes no difference to a write and any other leaves every script as it was |
| ScriptStore.FaultyScriptIsInstalledExactly | src/rules/sieve.writer.ts:46-87 | a script the compiler finds fault with is in place after a write if and only if it was before, or every other step works and the fault reads as a missing compiler |
| ScriptStore.QuotedValueInstallsFaultyScript | src/rules/sieve.writer.ts:80-87 | counterexample: a fault quoting a value with `not found` in it installs the faulty script |
| ScriptStore.SieveReconciler.Reconcile | src/rules/sieve.reconciler.ts:21-49 | every active mailbox once, with its own address and the script of the rules listed for it, gets its turn; the disk and the count of scripts written are those of the turns |
| ScriptStore.ReconcileIsolatesFailures | src/rules/sieve.reconciler.ts:25-44 | each mailbox ends with the script of its rules unless its own write failed, and then with the file it had; other failures do not matter |
| ScriptStore.WritesAreCounted | src/rules/sieve.reconciler.ts:21-49 | a reconciliation counts the scripts that were out of date or unreadable and were written |
| ScriptStore.SecondReconcileIsIdle | src/rules/sieve.reconciler.ts:21-49 | after a reconciliation whose writes all succeed, another one writes nothing |
| ScriptStore.MailboxIsCreated | src/mailboxes/mailbox.service.ts:37-71 | a mailbox is created at an address no other has, without rules, its first script being that of none |
| ScriptStore.MailboxIsDeleted | src/mailboxes/mailbox.service.ts:151-157 | a deleted mailbox goes with its rules and nothing else; its file stays |
| ScriptStore.ScriptsAreAlwaysWhole | src/rules/rule.service.ts:129-135 | over every run of mailbox creations and deletions, requests and reconciliations with arbitrary failures, a script on disk is the whole script of a rule list that a mailbox then at its address had at an earlier or the present moment |
| ScriptStore.ScriptComesFromLastService | src/rules/sieve.writer.ts:35-58 | it is the script that the last event to write or confirm it put there: the rules, at that moment, of the mailbox then at the address |
| ScriptStore.HolderRunsOwnRulesOnceServed | src/mailboxes/mailbox.service.ts:151-169 | a mailbox runs rules of its own, no older than its hold on the address, once the address has been written or confirmed since; until then the file the address had before it |
| ScriptStore.RecreatedAddressKeepsFormerScript | src/mailboxes/mailbox.service.ts:151-169 | counterexample: after deletion, and creation whose first write fails, the new mailbox has no rules and the former script is in place |
| MailFiling.MailIsAlwaysFiled | src/rules/rule.service.ts:28-135 | whatever failed and whoever came and went, interpreting the script on disk files a message as the rules that a mailbox at the address had at some moment say |
| MailFiling.ReorderedMailIsFiled | src/rules/rule.service.ts:63-85 | after a reorder whose write succeeds, mail is filed by the same rules in the requested order |
| KeepBest.BestIsBest | src/messages/message.service.ts:583-620 | one row per key, each the first of the best score, no key lost |
| KeepBest.BestKeepsOrder | src/messages/message.service.ts:583-620 | the rows kept stand in the order their keys first appeared |
| KeepBest.KeepBestOfEach | src/messages/message.service.ts:608-620 | the loop over an insertion-ordered map keeps exactly those rows |
| Projection.UsableMessages | src/messages/message.service.ts:471-480 | exactly one usable message per non-empty Message-ID of a listing, of the highest uid |
| Projection.BatchFacts | src/messages/message.service.ts:487-505 | the upsert batch never names a key twice and covers exactly the usable messages, each row with every column from its message |
| Projection.UpsertAllEffect | src/messages/message.repository.ts:79-95 | an upsert of distinct keys merges each matching row, adds the others and keeps the key unique |
| Projection.SyncMirrors | src/messages/message.service.ts:487-505 | after a sync the folder has one row per usable message with its uid, flag, recipient, subject and reply link; a new row has its sender and date too, and no spam score; surviving rows keep id, sender, receivedAt and spam score; other folders and mailboxes are untouched |
| Projection.MessageStore.ThreadsOf | src/messages/message.repository.ts:110-130 | answers for each asked parent with a threaded row the thread of one such row |
| Projection.MessageStore.Upsert | src/messages/message.repository.ts:79-95 | the batch is inserted or merged row by row on the unique key |
| Projection.MessageStore.PruneFolder | src/messages/message.repository.ts:97-107 | afterwards the folder holds exactly the messages it held and was to keep, an empty list keeping none, and every other folder and mailbox what it held |
| Projection.MessageStore.SyncFolder | src/messages/message.service.ts:451-506 | a failed listing changes nothing, any other leaves the synced table |
| Conversation.ConversationView | src/messages/message.service.ts:376-402 | a thread that lists the opened row is shown with all its messages and nothing else, each once, by the opened row or a copy from its folder when there is one; otherwise the opened row is shown alone |
| Conversation.ShownAreTopRanked | src/messages/message.service.ts:583-606 | each row shown has the highest rank among the copies of its message |
| Conversation.FetchThreadBodies | src/messages/message.service.ts:405-449 | a row whose uid is looked up and cannot be reached fails the call; otherwise each row gets exactly the body found under its own uid in its own folder, a failed folder costing only its own rows theirs |
| Conversation.BodyUnderUid | src/messages/message.service.ts:514-526 | a body is read under the stored uid, else under the one the search found; only a row without a stored uid can fail to be located |
| Conversation.ThreadBodies | src/messages/message.service.ts:391-396 | the bodies of the last 25 rows shown, and of no other, are read |
| Threads.ThreadsConverge | src/messages/message.service.ts:482-504 | after n + 1 rounds over all folders in any order, every message whose top is within n links has it as thread |
| Threads.SettledThreadsStay | src/messages/message.service.ts:482-504 | once every chain has settled, no further sync changes a thread |
| Threads.FromAnything | src/messages/message.service.ts:482-504 | in one folder, from any filing, the n-th sync gives each message its top when that is less than n links up, else the thread its n-th ancestor started in |
| Threads.FromNothing | src/messages/message.service.ts:482-504 | in one folder the n-th sync from nothing gives the n-th ancestor, capped at the top |
| Threads.SteadyExactlyWhenChainEnds | src/messages/message.service.ts:482-504 | in one folder, a message keeps one thread from sync n on in every run from nothing if and only if its reply chain ends within n links |
| Threads.RestsExactlyWhenRoundAgrees | src/messages/message.service.ts:482-504 | in one folder, from any filing, a message's thread ever comes to rest if and only if its reply chain runs into a round whose messages all started in one thread, a chain that ends being such a round |
| Threads.MutualRepliesSwapThreads | src/messages/message.service.ts:502-503 | in one folder, two messages replying to each other change thread at every sync after the first if and only if they started in different threads |
| Threads.MutualRepliesNeverSettle | src/messages/message.service.ts:502-503 | counterexample: in one folder, synced from nothing, two messages replying to each other change thread at every sync after the first |
| ThreadRounds.RoundsCarry | src/messages/message.service.ts:482-504 | several folders synced in one order: after n rounds a message has the thread its n-th late ancestor started with, each late ancestor being the next one up whose folder does not come before its reply's |
| ThreadRounds.RestsExactlyWhenLateRoundAgrees | src/messages/message.service.ts:482-504 | there, a message's thread ever comes to rest if and only if its late ancestors run into a round that started in one thread |
| ThreadRounds.MutualRepliesAcrossFoldersSettle | src/messages/message.service.ts:502-503 | two messages replying to each other from different folders share one thread from the first round on |
| ThreadRounds.CycleOfThreeSettlesExactly | src/messages/message.service.ts:502-503 | a cycle of three, two in one folder and the third in a later one, settles if and only if the two whose replies are late started in one thread |
| ThreadRounds.FirstPassRounds | src/messages/message.service.ts:482-504 | one round from any filing leaves a filing these start from |
| ThreadedSync.SyncRefiles | src/messages/message.repository.ts:110-130 | a sync of the table files each message under the thread its parent's row had before |
| ThreadedSync.ConversationsConverge | src/messages/message.service.ts:451-506 | on tables, from any projection: after n + 1 rounds every row whose top is within n links carries it |
| ThreadedSync.NthSyncGivesNthAncestor | src/messages/message.service.ts:451-506 | on tables: in a mailbox of one folder that starts without rows, the n-th sync gives every row its n-th ancestor, capped at the top |
| ThreadedSync.MutualRowsNeverSettle | src/messages/message.service.ts:451-506 | counterexample on tables: there, rows of a message in a mutual pair carry the other message's id after odd syncs and their own after even ones |
| ThreadedSync.FurtherSyncsChangeNothing | src/messages/message.service.ts:451-506 | when no reply chain is longer than n links, after n + 1 rounds any further sync leaves the table exactly as it is |
| ThreadedSync.SyncIsFixpoint | src/messages/message.service.ts:451-506 | a sync that finds the folder current and moves no thread leaves the table as it was |
| Delivery.MailController.MailReceived | src/internal/mail.controller.ts:41-92 | an address that names no mailbox is refused and changes nothing; otherwise the row is inserted under its parent's thread and announced, or reported as recorded already with nothing changed |
| Delivery.MailController.ResolveMailbox | src/internal/mail.controller.ts:123-145 | the mailbox at the address split at its last at sign, or none without a local part or without a row |
| Delivery.ResolvesExactly | src/internal/mail.controller.ts:123-145 | an address names exactly the mailbox of which it is the local part, an at sign and the domain |
| Delivery.MailController.ThreadOf | src/internal/mail.controller.ts:146-159 | the thread column of some row with the Message-ID, or nothing |
| Delivery.OneAnnouncementEach | src/internal/mail.controller.ts:53-87 | exactly one row and one announcement per distinct mailbox, folder and Message-ID under any redeliveries |
| Delivery.DeliveryRecords | src/internal/mail.controller.ts:53-92 | a delivery adds and announces the row of its message, column by column and unread, just when its place is free, and changes no row |
| Delivery.ReportIsMessage | src/internal/mail.controller.ts:41-92 | the message recorded is the one reported, column by column |
| Delivery.DeliveriesReachTheTop | src/internal/mail.controller.ts:48-51 | when parents arrive first, every row carries its topmost ancestor at once |
| Delivery.DeliveredThreadsSurviveSync | src/messages/message.service.ts:482-504 | after any run that delivers parents first, a sync whose listing holds only delivered messages changes no thread and leaves every row at its topmost ancestor |
| Delivery.DeliveredPairIsSteady | src/internal/mail.controller.ts:48-51 | two messages replying to each other that are delivered share a thread at once, and a sync of them moves neither |
| Folders.SubtreeExactness | src/folders/folder.repository.ts:43-48 | the subtree clause selects exactly the folder and what lies below it if and only if path and delimiter are free of LIKE's special characters |
| Folders.RenameMovesSubtree | src/folders/folder.repository.ts:50-62 | with such a path exactly the subtree moves, suffixes kept, and all other rows stay |
| Folders.RenamedExactly | src/folders/folder.repository.ts:50-62 | whatever the path, exactly the mailbox's rows the clause selects have it cut off and the target put before the rest |
| Folders.DeleteRemovesSubtree | src/folders/folder.repository.ts:64-66 | with such a path exactly the subtree's rows are deleted |
| Folders.RenameKeepsKeysUnique | src/folders/folder.repository.ts:50-62 | keys stay unique when nothing else lay under the target |
| Folders.RenameBack | src/folders/folder.repository.ts:50-62 | renaming there and back restores the table when nothing lay under the target |
| Folders.UnderscoreTakesSibling | src/folders/folder.repository.ts:46 | counterexample: renaming `a_` takes `ab/x` along |
| Folders.RenameRows | src/folders/folder.repository.ts:50-62 | refused by the unique index, and then nothing changes, never so for a plain path with nothing else under the target; otherwise for a plain path exactly the rows under it now lie under the target |
| Folders.DeleteRows | src/folders/folder.repository.ts:64-66 | no row of the folder itself is left, and for a plain path exactly the rows under it are gone |
| Folders.PathShowsItsParts | src/folders/folder.service.ts:40-49 | a path put together from a parent and a name is listed with them if and only if the name is free of the delimiter |
| Folders.PathIsItsParts | src/folders/folder.service.ts:44-49 | every path is its listed parent and name put together |
| Folders.RenameShowsNewName | src/folders/folder.service.ts:118-123 | after a rename the list shows the unchanged parent and the new name if and only if the name is free of the delimiter; only the name already shown renames to itself |
| ImapServer.RenameTreeMoves | src/messages/imap.client.ts:276-280 | unless a folder would land on one that stays, the server's rename takes every folder below along with its messages and makes no others |
| ImapServer.MoveMailConserves | src/messages/imap.client.ts:212-216 | a server move neither loses nor copies a message |
| Mailroom.BackedIsLocated | src/messages/message.service.ts:514-526 | a row that is no phantom is always located when the search gets through |
| Mailroom.MoveAndRemoveRelocate | src/messages/message.service.ts:100-137 | move, and remove outside the trash, leave the message newest in the target, drop the row and change no other message |
| MailOutcomes.ForeignRowsAreNotFound | src/messages/message.service.ts:553-561 | no operation finds a row of another mailbox or touches anything when asked for one |
| MailOutcomes.RemoveDestroys | src/messages/message.service.ts:114-137 | without a trash folder, or from the trash, the row is gone and of all mail exactly the located copy |
| MailOutcomes.DiscardDestroys | src/messages/message.service.ts:316-337 | the draft's row is gone and of all mail exactly its copy |
| MailOutcomes.ReadMarks | src/messages/message.service.ts:74-87 | reading stores the located copy's uid and marks the row, and an unread message on the server; nothing else changes |
| MailOutcomes.ReadWithoutFlag | src/messages/message.service.ts:74-87 | when the flag cannot be set the request fails and the row is not marked |
| MailOutcomes.PutIsNewest | src/messages/imap.client.ts:264-268 | a message filed on the server is its folder's newest, and nothing else changes |
| MailOutcomes.UnreachableSearchChangesNothing | src/messages/message.service.ts:514-526 | a row that cannot be looked for is left alone |
| MailOutcomes.UnreachableCallKeepsMessage | src/messages/message.service.ts:74-137 | a fetch, move or removal that cannot be made keeps row and message, storing the uid found |
| MailOutcomes.RefusedCallLosesRow | src/messages/imap.client.ts:212-234 | a call the server answers NO to drops the row and leaves the message |
| MailOutcomes.MissingMessage | src/messages/message.service.ts:74-137 | a row whose message is not found is dropped by move and remove, kept by discard and marked by read |
| MailOutcomes.MissingFolder | src/messages/imap.client.ts:249-260 | a row whose folder the server lacks stays, and can only be marked, when its uid is not stored |
| MailOutcomes.MoveNowhereLosesRow | src/messages/message.service.ts:100-112 | a move to a folder the server lacks drops the row and leaves the message |
| MailOutcomes.FoldersRefused | src/folders/folder.service.ts:106-149 | rename and delete refuse an unknown folder, one with a special use and the inbox in any spelling, and change nothing then |
| MailOutcomes.FolderStays | src/folders/folder.service.ts:118-130 | the name a folder has, and a rename the server does not carry out, change nothing |
| MailOutcomes.FolderIsRenamed | src/folders/folder.service.ts:106-130 | a rename carried out puts the whole tree of a plain path, rows and folders with their mail, under the same parent and the new name, and nothing else anywhere |
| MailOutcomes.IndexHoldsThroughRename | src/folders/folder.service.ts:106-130 | whatever the path, a rename never makes two rows share a place; one that would is refused with the rows unchanged, the server having been renamed already |
| MailOutcomes.FolderIsDeleted | src/folders/folder.service.ts:132-149 | a deletion is refused while rules use the folder; carried out, it takes the folder from the server and, for a plain path, exactly the rows at it or below |
| Mailroom.MarkReadAgreesExactly | src/messages/message.service.ts:89-98 | after a mark, with or without a stored uid, row and last copy agree on the flag if and only if that copy was the one flagged or had the flag already |
| Mailroom.ReadKeeps | src/messages/message.service.ts:74-87 | reading a message makes no phantom, whichever of its calls fails |
| Mailroom.MoveKeeps | src/messages/message.service.ts:100-112 | a move makes no phantom, whichever of its calls fails |
| Mailroom.RemoveKeeps | src/messages/message.service.ts:114-137 | a removal makes no phantom, whichever of its calls fails |
| Mailroom.DiscardKeeps | src/messages/message.service.ts:316-337 | discarding a draft makes no phantom, whichever of its calls fails |
| Mailroom.RenameKeeps | src/folders/folder.service.ts:106-130 | a rename of a plain path makes no phantom and never meets the unique index |
| Mailroom.DeleteKeeps | src/folders/folder.service.ts:132-149 | deleting a folder makes no phantom, for every path |
| MailroomRuns.SyncShowsServer | src/messages/message.service.ts:451-506 | after a sync each row of the folder is the last copy of its message on the server with that copy's flags and headers, and every identified message has a row |
| MailroomRuns.AnnouncedRow | src/internal/mail.controller.ts:53-92 | a delivery announced for a free place adds its row, column by column, and touches no other row and no message |
| MailroomRuns.MarkSurvivesSyncExactly | src/messages/message.service.ts:89-98 | a mark is still there after the next sync of the folder if and only if it reached the last copy or that copy had the flag already |
| MailroomRuns.UnlocatedMarkIsLost | src/messages/message.service.ts:89-98 | counterexample: a message delivered without a uid and marked read is unread again after the next sync |
| MailroomRuns.NoPhantomsEver | src/messages/message.service.ts:100-193 | over every run of requests, deliveries and failing calls, every row names a message its folder holds, under the stored uid when there is one |
| MailroomRuns.RenameIsSafeExactly | src/folders/folder.service.ts:106-130 | renaming a path is safe for every mailbox if and only if path and delimiter are plain or the path is the inbox, which is refused |
| MailService.BulkPartitions | src/messages/message.service.ts:171-193 | processed and failed are the ids whose own call succeeded and failed, each in the batch's order |
| MailService.BulkLosesNoId | src/messages/message.service.ts:171-193 | every id of the batch is in one of the two lists, as often as it was asked for |
| MailService.BulkIsOneByOne | src/messages/message.service.ts:139-193 | one more id in a batch is one more single call, in the world the calls before it left |
| MailService.EachProcessedOnce | src/messages/message.service.ts:171-193 | in a bulk move or remove no id is processed twice and exactly the processed rows are gone |
| MailService.Service.ResolveUid | src/messages/message.service.ts:514-526 | answers the stored uid, or the last one found and stores it |
| MailService.Service.MarkRead | src/messages/message.service.ts:89-98 | server flag first, then the row; not found or unreachable change nothing |
| MailService.Service.Read | src/messages/message.service.ts:74-87 | locates, fetches and marks read unless it was |
| MailService.Service.Move | src/messages/message.service.ts:100-112 | server move first, then the row is deleted |
| MailService.Service.Remove | src/messages/message.service.ts:114-137 | into the trash, or destroyed when there is no trash or the message is in it, then the row is deleted |
| MailService.Service.DiscardDraft | src/messages/message.service.ts:316-337 | removes the located draft and its row |
| MailService.Service.RenameFolder | src/folders/folder.service.ts:106-130 | refuses unknown and system folders, renames server and rows otherwise, and then may still fail at the listing it answers with |
| MailService.Service.DeleteFolder | src/folders/folder.service.ts:132-149 | refuses unknown, system and used folders, deletes folder and rows otherwise |
| MailService.Service.BulkMove | src/messages/message.service.ts:150-159 | one move per id in order, no id processed twice |
| MailService.Service.BulkRemove | src/messages/message.service.ts:161-169 | one removal per id in order, no id processed twice |
| MailService.Service.BulkMarkRead | src/messages/message.service.ts:139-148 | one marking per id in order |
| Warmup.CurveIsMonotone | src/warmup/curve.ts:1-13 | the curve never goes down, no cap counting as the highest |
| Warmup.CapByTheClock | src/warmup/curve.ts:1-13 | 20, 50, 100, 200 and 400 in the five weeks after the first verification, none from 35 days on, and 20 without one |
| Warmup.EarliestExactly | src/warmup/warmup.service.ts:82-92 | what is read as the first verification is the earliest of the account's, or none when it has none |
| Warmup.RequestProceeds | src/warmup/warmup.service.ts:43-80 | step by step a request reads the cap, then the date, counts one up unless the cap is reached, and submits; no other request moves |
| Warmup.ElapsedAtMostCalendar | src/warmup/warmup.service.ts:94-96 | whole days elapsed never exceed the calendar days begun |
| Warmup.CapHoldsUnderInterleaving | src/warmup/warmup.service.ts:43-80 | under any interleaving of read, date and upsert steps a day's counter is the number of its successes, which return 1, 2, 3 and so on, none above the cap it read, and sends are backed by successes |
| Warmup.RefusalChangesNothing | src/warmup/warmup.service.ts:57-77 | an allowance is refused just when one more would exceed the cap read, and then no counter changes |
| Warmup.FiveWeekVolume | src/warmup/warmup.service.ts:82-102 | over the 35 calendar days from the first verification on, allowances and the submissions drawing on them total at most 5390 |
| Warmup.SubmittedUnderVolume | src/messages/message.service.ts:206-229 | submissions drawing on a range of days never exceed the allowances consumed on them |
| Warmup.CurveSumTotal | src/warmup/curve.ts:1-13 | the curve adds up to 5390 over 35 days |
| Warmup.WarmupService.FirstVerified | src/warmup/warmup.service.ts:82-92 | the earliest verification among the account's domains, or none |
| Warmup.WarmupService.Upsert | src/warmup/warmup.service.ts:57-63 | one statement inserts 1, increments below the cap or refuses |
| Warmup.WarmupService.ConsumeAllowance | src/warmup/warmup.service.ts:43-80 | called alone: the upsert under the cap of the days since the first verification |
| MailboxAuth.LockMeansTenFailures | src/mailboxes/mailbox.repository.ts:78-103 | in every run a lock is set if and only if at least ten failures are recorded |
| MailboxAuth.LockedOpensForNobody | src/auth/mailbox-auth.service.ts:51-60 | while the lock is ahead of the check every login is answered as locked and changes nothing, whatever the password |
| MailboxAuth.TenFailuresLockOut | src/auth/mailbox-auth.service.ts:51-69 | over every run: after a failure that leaves ten or more, no login checked within fifteen minutes of its recording opens the mailbox unless something reset the counters in between |
| MailboxAuth.LoginOpensExactly | src/auth/mailbox-auth.service.ts:35-74 | a login opens exactly a usable, unlocked mailbox with the right password, under a token of its own, and clears the counters |
| MailboxAuth.RefusedLoginCounts | src/auth/mailbox-auth.service.ts:62-69 | a refused login counts exactly when a password was tried and wrong, and locks from the tenth on |
| MailboxAuth.RefusedLogin | src/auth/mailbox-auth.service.ts:51-69 | a refused login opens and closes no session |
| MailboxAuth.UnknownLogin | src/auth/mailbox-auth.service.ts:35-50 | a login into no mailbox is answered like a wrong password |
| MailboxAuth.OthersAreUntouched | src/auth/mailbox-auth.service.ts:35-116 | no event touches the standing or the sessions of a mailbox it is not about |
| MailboxAuth.RefreshOpensExactly | src/auth/mailbox-auth.service.ts:76-95 | a refresh opens exactly for an unexpired token of a usable mailbox, and exchanges that token for a later one |
| MailboxAuth.TokenExpires | src/auth/mailbox-auth.service.ts:76-95 | over every run no token opens anything its lifetime after it was handed out |
| MailboxAuth.PasswordChangeCloses | src/auth/mailbox-auth.service.ts:101-116 | the right password closes every session of the mailbox and no other; a reset by the account closes none |
| MailboxAuth.MailboxesComeAndGo | src/mailboxes/mailbox.service.ts:37-157 | a new mailbox starts without failures and replaces none; a deleted one takes its address and sessions along, and nothing else |
| MailboxAuth.FailedLoginRate | src/auth/mailbox-auth.service.ts:51-69 | between resets, when logins into the mailbox do not overlap each other, its failed logins recorded within a window of the first number at most what was left of ten, at least one, and one more per fifteen minutes |
| MailboxAuth.WrongChangesAreUnbounded | src/auth/mailbox-auth.service.ts:101-116 | any number of wrong passwords given to a password change is answered alike and moves no counter, lock or session |
| Addresses.SplitAddress | src/auth/mailbox-auth.service.ts:36-45 | an address is split where it was put together, and one without a local part is refused |
| Addresses.JoinSplit | src/internal/mail.controller.ts:123-133 | an address that is split is the one its parts join to |
| MailboxAuth.TokenOpensOnce | src/auth/mailbox-auth.service.ts:76-116 | a refresh token opens at most one session, and none after a logout with it or a password change |
| MailboxAuth.MailboxAuthService.Login | src/auth/mailbox-auth.service.ts:35-74 | unknown, locked, unusable, wrong and right in this order, with the counters and session each leaves |
| MailboxAuth.MailboxAuthService.RegisterFailedLogin | src/mailboxes/mailbox.repository.ts:85-96 | counts the failure; from the tenth on the mailbox is locked for exactly the next fifteen minutes, before that a failure changes no lock |
| MailboxAuth.MailboxAuthService.ClearFailedLogins | src/mailboxes/mailbox.repository.ts:98-103 | afterwards no lock holds at any time and all ten attempts are there again |
| MailboxAuth.MailboxAuthService.Refresh | src/auth/mailbox-auth.service.ts:76-95 | a live token of a usable mailbox is replaced by a new one, else nothing changes |
| MailboxAuth.MailboxAuthService.Logout | src/auth/mailbox-auth.service.ts:97-99 | the token is refused at every later time, and every other token is worth what it was |
| MailboxAuth.MailboxAuthService.ChangePassword | src/auth/mailbox-auth.service.ts:101-116 | with the right password the counters are cleared and every session of the mailbox is gone |
| Attachments.BudgetHolds | src/attachments/attachment.service.ts:31-95 | over every sequential run the drafts of each mailbox total at most the limit, and every row has its file |
| Attachments.ClaimNeverTooLarge | src/attachments/attachment.service.ts:97-118 | the size check of claim never fires; a claim is refused if and only if an id is repeated or is no draft of the mailbox |
| Attachments.ClaimedExactly | src/attachments/attachment.service.ts:97-118 | in any state a claim is refused as bad just when its ids are not distinct drafts of the mailbox, and as too large just when they are and exceed the limit |
| Attachments.UploadedExactly | src/attachments/attachment.service.ts:31-74 | an upload is accepted just when there is a file that fits and is written; it is a draft of its size, and the drafts weigh as much more |
| Attachments.RemovedExactly | src/attachments/attachment.service.ts:82-95 | a removal takes exactly a draft of the mailbox away |
| Attachments.SentExactly | src/messages/message.service.ts:206-247 | a send is accepted just when its ids are distinct drafts of the mailbox and the message goes out, and binds exactly those |
| Attachments.BoundAtMostOnce | src/attachments/attachment.repository.ts:59-68 | no attachment is bound by two sends, and a bound one stays bound to its message |
| Attachments.TotalWithout | src/attachments/attachment.service.ts:124-128 | the sum of sizes does not depend on the order of the rows |
| Attachments.AttachmentService.Sum | src/attachments/attachment.service.ts:124-128 | the fold adds up the sizes |
| Attachments.AttachmentService.Upload | src/attachments/attachment.service.ts:31-74 | refuses a missing or too large file, writes the file before its row |
| Attachments.AttachmentService.Remove | src/attachments/attachment.service.ts:82-95 | removes a draft row before its file, else not found |
| Attachments.AttachmentService.Claim | src/attachments/attachment.service.ts:97-118 | as many drafts as ids within the limit, else refused |
| Attachments.AttachmentService.Send | src/messages/message.service.ts:206-247 | claims first and binds only what has gone out |
| Tenancy.TablesStaySound | src/mailboxes/mailbox.service.ts:37-157 | over every run of requests, references hold, a mailbox on a custom domain belongs to that domain's account, names and addresses are unique, and an account has at most one platform address, never a reserved one |
| Tenancy.TenantsAreIsolated | src/mailboxes/mailbox.service.ts:37-157 | a tenant's request touches no account, and no domain or mailbox of another account or of the platform |
| Tenancy.MailboxStaysUntilRemoved | src/mailboxes/mailbox.service.ts:151-157 | a mailbox goes exactly by a deletion of itself, its domain or its account by who may, and nothing else rewrites it |
| Tenancy.DomainStaysUntilRemoved | src/domains/domain.service.ts:57-95 | so a domain, which becomes verified only by an accepted verification in its account's name |
| Tenancy.AccountStaysUntilRemoved | src/admin/admin.service.ts:86-96 | an account goes exactly by a deletion another one orders, and has the status last set |
| Tenancy.NewRowsAreCreated | src/database/schema.ts:49-110 | a new row comes only from its creation, with the columns created, under a new id the reply names |
| Tenancy.CreateMailboxExactly | src/mailboxes/mailbox.service.ts:37-71 | when a mailbox is created, and which refusal is given otherwise |
| Tenancy.CreateOnPlatformExactly | src/mailboxes/mailbox.service.ts:94-141 | when a platform address is given, when the present one is answered, and which refusal is given otherwise |
| Tenancy.UnknownAccountGetsNone | src/mailboxes/mailbox.service.ts:94-141 | an account that is not there is given no platform address |
| Tenancy.CreateDomainExactly | src/domains/domain.service.ts:36-55 | when a domain is created, and which refusal is given otherwise |
| Tenancy.VerifiedExactly | src/domains/domain.service.ts:63-87 | an own domain verified before is answered so again; one that was not is verified when the record is found, and a conflict otherwise |
| Tenancy.SeededExactly | src/domains/platform.service.ts:27-57 | a platform domain is seeded, verified and owned by nobody, under a free name; a name a custom domain has is a conflict |
| Tenancy.ProvisionedExactly | src/accounts/account.repository.ts:23-44 | a new account has the status it is provisioned with |
| Tenancy.NotFoundExactly | src/domains/domain.service.ts:57-95 | when deletions, verifications and status changes are answered as not found |
| Tenancy.ServedExactly | drizzle/0002_platform_domains_and_mailbox_auth.sql:26-36 | a domain is served exactly when active and verified and, unless it is a platform domain, of an active account |
| Tenancy.UsersExactly | drizzle/0002_platform_domains_and_mailbox_auth.sql:38-48 | an email is listed exactly for an active mailbox of an active account on an active, verified domain |
| Tenancy.VerifiedMeansAsked | src/domains/domain.service.ts:57-87 | in every reachable state a verified custom domain was verified in its account's name before |
| Tenancy.UsersAreServedEver | drizzle/0002_platform_domains_and_mailbox_auth.sql:31-48 | in every reachable state each email in v_dovecot_users is an address on a domain in v_postfix_domains |
| Tenancy.EmailNamesOneMailbox | drizzle/0002_platform_domains_and_mailbox_auth.sql:38-48 | an email in v_dovecot_users names one mailbox |
| Tenancy.SuspensionCutsTheAccount | drizzle/0002_platform_domains_and_mailbox_auth.sql:26-48 | suspending an account takes exactly its mailboxes and custom domains out of the views in one write |
| Tenancy.DeletionCutsTheAccount | src/database/schema.ts:49-79 | deleting an account takes exactly its mailboxes and domains, and no other account's mailbox |
| Tenancy.Tenants.CreateDomain | src/domains/domain.service.ts:36-55 | a name registered already is a conflict, otherwise an unverified custom domain of the account |
| Tenancy.Tenants.DeleteDomain | src/domains/domain.service.ts:89-95 | an owned domain goes with its mailboxes, else not found |
| Tenancy.Tenants.CreateMailbox | src/mailboxes/mailbox.service.ts:37-71 | only on the account's own domain and only at a free local part |
| Tenancy.Tenants.CreateOnPlatform | src/mailboxes/mailbox.service.ts:94-141 | one platform address per account, the same one again on repetition, never a reserved or taken one |
| Tenancy.Tenants.DeleteMailbox | src/mailboxes/mailbox.service.ts:151-157 | an owned mailbox goes, else not found |
| Tenancy.Tenants.SetStatus | src/accounts/account.repository.ts:46-54 | changes the account's status and nothing else |
| Tenancy.Tenants.DeleteAccount | src/admin/admin.service.ts:86-96 | the account goes with its domains and mailboxes, unless it is the administrator's own or not found |

## Left out

- Controllers other than the delivery one, guards, request validation, logging, metrics, health and configuration: they keep no state of their own that the rest depends on.
- The real IMAP, SMTP, DNS, Keycloak, sievec, file system and PostgreSQL: replaced by stores whose calls succeed or fail; a call that fails has no effect on the server. Database statements do not fail.
- Mail composition, parsing and sanitising, password hashing, token signing and DKIM: done by libraries.
- Races other than the warmup one: rule creation, uploads and session refresh read and then write without a lock, so their properties are for requests one after the other.
- Time as the service and the database read it separately: one non-decreasing clock is assumed.
- A lone backslash at the end of a `:matches` key, which RFC 5228 leaves undefined: it stands for itself.
- Strings are sequences of characters; UTF-16 code units and Unicode normalisation are not modelled, the default comparator folds ASCII letters, and the database folds one character to one.
- Sieve beyond what scripts use: nested tests, multi-line strings and bracketed comments are not in the parser.
- `path.join` normalisation of dots in addresses: a path is its parts joined by slashes, and domain names hold no slash.
- ThreadRounds.RestsExactlyWhenLateRoundAgrees: does not cover a message of whose ancestors several folders hold copies, since a lookup may then answer with any copy; it starts after one full round, and `ThreadsConverge` covers copies and any start for chains that end.
- From headers with several senders, a missing From header, and the trimming and lower-casing of a notification's sender: a message has one sender.
- That opening a thread marks the opened message read: the request is the one `Mailroom.MarkReadAgreesExactly` is about.
- The IMAP search for a Message-ID matches whole values here; IMAP defines a substring match.
- An IMAP server that merges two folders on a rename: one that would land a folder on another that stays is taken to refuse.
- The sent-message rows of `mailSent` and `recordSent`: a table of its own that nothing modelled here reads.
- Folder creation checks, live counts and rule counts in the folder list, paging and the preview's sample: each reads stored rows or refuses a name, and changes no row.
- Renaming a folder leaves rules that file into it pointing at the old path; rules and folders are not connected in the model.
