# ShipTrip: verified model

This project models six parts of the ShipTrip backend and its tools, and proves
what they promise over all inputs and all runs.

* **Chat threads** (`ChatPages`, `ChatCursor`, `ChatStore`, `ChatReaders`,
  `ChatSafety`, `ChatServer`). Sends are transactions of several steps: lock the
  match row, check eligibility, look for a replay, take an id from a sequence
  that all threads share, insert, commit or roll back. Steps of any number of
  sends interleave with any number of readers, whose fetches are a SELECT and,
  later, a delivery that stamps receipts. The invariant says what a client knows
  about its thread, pages in flight included; the theorems follow for every run.
  `ChatServer` has the two loops of the view as methods over mutable rows.
* **PO to MO** (`PoCatalog`, `Utf8`, `MoFile`, `PoCompiler`, `PoToMo`). The line
  parser with its hidden entry state, the writer with its offset arithmetic, and
  an independent reader that follows the section "The Format of GNU MO Files" of
  the GNU gettext manual. UTF-8 is that of RFC 3629.
* **Settings revisions** (`Policy`, `PolicyHeap`, `Settings`, `SettingsTable`,
  `SettingsWriters`, `Commission`). The nested policy is a tree of mutable dictionaries, copied and
  written in place along dotted paths; the two writers of revisions change a
  table of rows. Values and runs are in `Policy` and `Settings`, the objects and
  loops in `PolicyHeap` and `SettingsTable`; `SettingsWriters` lets the two
  writers overlap, read what may be stale at commit, and proves them serial.
* **Administrators** (`AdminRoles`, `AdminServices`, `AdminRaces`, `AdminPanel`,
  `Invitations`). Invitations, role changes, access toggles and the audit log as
  one state machine, the same among concurrent requests whose actors may be out of
  date, and the services as methods of a class that compute its steps.
* **Geography manifest** (`Geography`, `GeographyAlgeria`, `GeographyMappings`,
  `GeographyAliases`, `GeographyValidation`, `GeographyBuild`). The passes as
  methods over a mutable manifest, against declarative meanings. The coverage
  counts are parameters; `GeographyValidation.LAUNCH` holds those of the launch.
* **Codes and money** (`RowLocks`, `AccessCodes`, `Decimal`, `Money`). A generic
  serializability theorem for transactions that lock what they touch, with what
  each operation found; the attempt budget and the single use of invitations over
  the committed log; and the printer and conversions of amounts.

An event that is not enabled, such as taking a lock that somebody holds, leaves a
state machine as it is; waiting appears as such an event. Database rows are maps
and sequences, time is a number passed in, and errors are values.

Results that differ from what one might expect of the code:

* A supplied airport mapping that is primary and served but switched off counts as
  covering its airport, so no row is derived and validation then fails
  (`GeographyMappings.ExactlyOneIff`, `GeographyValidation.SwitchedOffRow`).
* An alias whose language is only blanks is stored with an empty language and
  looked up under it, while an empty language of a stored row counts as "und"; the
  pass can therefore repeat a name (`GeographyAliases.BlankLanguageRepeats`, and
  `NamesStayUniqueIff` for exactly when).
* The services lock the account they change but not their actor. Two superusers who
  disable each other at the same time leave no active superuser
  (`AdminRaces.TwoDisableEachOther`, and `RootThroughoutIff` for exactly when).
* The check that the Algerian reconciliation consumed every ONS code cannot fail,
  because both lists have the same length (`GeographyAlgeria.EveryCodeConsumed`).
* The explicit demotion at the end of a role change never applies, because the
  assignment has already done it (`AdminPanel.Panel.ChangeAdminRole`).

Check the project with `dafny verify dfyconfig.toml`.

## Model

| member | source | states |
|---|---|---|
| ChatPages.ThreadContents | backend/monolith/apps/chat/views.py:105-158 | The rows read for a thread between two ids are exactly its committed rows with those ids, once each, by ascending id. |
| ChatPages.ThreadSize | backend/monolith/apps/chat/views.py:105-158 | The listing of a thread between two ids is exactly as long as there are committed rows with those ids. |
| ChatPages.DescendingMeaning | backend/monolith/apps/chat/views.py:126-137 | Reading newest first with one probe row, dropping the probe and turning the rest round gives the last `page_size` rows in ascending order, and `has_more` tells whether older rows were left out. |
| ChatPages.AscendingMeaning | backend/monolith/apps/chat/views.py:138-145 | Reading oldest first with one probe row gives the first `page_size` rows, and `has_more` tells whether any follow. |
| ChatPages.LatestRead | backend/monolith/apps/chat/views.py:127-158 | A `latest` page is the contiguous end of the thread, with as many rows as the thread has up to `page_size`; `has_more` holds exactly when the thread has more than that. |
| ChatPages.BeforeRead | backend/monolith/apps/chat/views.py:127-158 | A `before_id` page is the contiguous stretch that ends just below the cursor, with as many rows as the thread has below it up to `page_size`; `has_more` holds exactly when there are more. |
| ChatPages.AfterRead | backend/monolith/apps/chat/views.py:127-158 | An `after_id` page is the contiguous stretch that starts just above the cursor, with as many rows as the thread has above it up to `page_size`; `has_more` holds exactly when there are more. |
| ChatPages.PageRead | backend/monolith/apps/chat/views.py:115-125 | Page `p` of the numbered listing exists exactly for the first page or one that begins inside the thread, and is the stretch from position `(p - 1) * page_size` on, of at most `page_size` rows; `has_more` holds exactly when rows follow. |
| ChatCursor.ParsePrinted | backend/monolith/apps/chat/views.py:160-169 | The decimal form of a number is accepted as an id exactly when the number fits the database range and is positive or zero is allowed, and then gives that number back. |
| ChatCursor.QueryRead | backend/monolith/apps/chat/views.py:171-222 | What a client writes for a cursor read is what the server reads; it is refused exactly for a page size outside 1 to 200 or an id out of range, with the matching error. |
| ChatCursor.AcceptedCanonical | backend/monolith/apps/chat/views.py:171-222 | Whatever options are accepted have a page size of 1 to 200 and can be written canonically and read back the same. |
| ChatCursor.OptionsIff | backend/monolith/apps/chat/views.py:171-222 | Options are accepted exactly as the parameters ask: page size 50 where none is given, else one number of 1 to 200; at most one of `latest`, `after_id` and `before_id`, none of them with a page number, and none given twice. |
| ChatCursor.ExclusiveIff | backend/monolith/apps/chat/views.py:173-185 | Two cursor parameters are refused as exclusive, and one with a page number as combined with it, exactly when that is what was given. |
| ChatStore.SendKeeps | backend/monolith/apps/chat/views.py:232-302 | Every lock, gate, replay lookup, id allocation, commit and rollback step of every sender keeps: one lock per thread, one row per (match, sender, client id), rows waiting to commit above everything their thread shows, one publish request per row. |
| ChatStore.SendShows | backend/monolith/apps/chat/views.py:232-302 | A step changes the message table only by committing one row whose id is above every id its thread has shown, with one publish request. |
| ChatStore.RetryAnswer | backend/monolith/apps/chat/views.py:251-276 | A lookup under the key of a committed row answers with that row for the same body and with a conflict for another, ends the transaction and changes neither table nor bus. |
| ChatServer.ChatTable.FindPrevious | backend/monolith/apps/chat/views.py:251-262 | The lookup loop finds the committed row of lowest id that has the request's match, sender and client id, or reports that there is none. |
| ChatServer.ChatTable.Post | backend/monolith/apps/chat/views.py:232-302 | One uninterrupted send equals its five protocol steps. "Created" adds one row with the next id and the match, sender, body and client id of the request, and one publish request; it is answered only if nothing was sent under the key, a replay or conflict only if something was; refused exactly for an ineligible sender; any other answer changes neither table nor bus. |
| ChatServer.SentTwice | backend/monolith/apps/chat/views.py:264-290 | After a send that created a row with the request's body and client id, a second send under the same key changes nothing and is answered with that row, or with a conflict for another body. |
| ChatServer.ChatTable.MarkFetchedRead | backend/monolith/apps/chat/views.py:224-230 | The loop stamps exactly the returned counterparty rows that had no receipt, and no other row. |
| ChatServer.PostEffect | backend/monolith/apps/chat/views.py:232-302 | The five protocol steps of one sender, run without interruption, come to the declarative effect of a send. |
| ChatReaders.CommitKeepsClient | backend/monolith/apps/chat/views.py:127-158 | A commit in any thread disturbs nothing that any client knows about its own thread, pages in flight included. |
| ChatReaders.AskOk | backend/monolith/apps/chat/views.py:105-158 | Whatever page a SELECT returns on the current table, on any of the four paths, satisfies what the client will assume about it when it arrives. |
| ChatReaders.AbsorbOk | backend/monolith/apps/chat/views.py:127-158 | Taking in a page, however late it arrives, keeps the client's held messages equal to the thread between its two cursors. |
| ChatReaders.RespondKeepsReceipts | backend/monolith/apps/chat/views.py:224-230 | Delivering a page keeps the correspondence: a message has a receipt exactly when a fetch returned it to the other party. |
| ChatReaders.RunKeeps | backend/monolith/apps/chat/views.py:105-302 | Every interleaving of senders and readers keeps the whole invariant. |
| ChatSafety.CursorNeverMisses | backend/monolith/apps/chat/views.py:127-158 | In every run, a client that starts at `after_id=0` and moves only to the returned `latest_id` holds exactly the committed messages up to its cursor: in order, no gap, no duplicate. |
| ChatSafety.BackfillComplete | backend/monolith/apps/chat/views.py:127-158 | In every run, a client that opened with `latest` and followed `before_id` until `has_more` was false holds the whole thread up to its cursor, beginning with exactly the messages committed at its first read. |
| ChatSafety.FirstIsTheThread | backend/monolith/apps/chat/views.py:127-158 | What a client remembers as its first read is exactly the committed thread when that SELECT ran. |
| ChatSafety.PollCatchesUp | backend/monolith/apps/chat/views.py:138-145 | A caught-up client whose poll comes back without `has_more` then shows exactly the thread as it was when the poll ran, once. |
| ChatSafety.BackfillStep | backend/monolith/apps/chat/views.py:126-137 | Sends never add to what is left to fetch going back; each `before_id` reply takes its nonempty page off it. |
| ChatSafety.BackfillTerminates | backend/monolith/apps/chat/views.py:126-137 | However sends and other readers interleave, a client gets at most as many `before_id` replies as there were messages left. |
| ChatSafety.BackfillProceeds | backend/monolith/apps/chat/views.py:126-137 | While `has_more` holds the client can ask again, is answered, and has strictly less left. |
| ChatSafety.UnreadIsNeverReturned | backend/monolith/apps/chat/views.py:318-339 | In every reachable state a party's unread messages are exactly the counterparty messages that no fetch, on either path, has returned to that party. |
| ChatSafety.ReceiptStep | backend/monolith/apps/chat/views.py:224-230 | A receipt appears only while its message is being delivered to the other party, with that time, and never changes. |
| ChatSafety.ReceiptsPermanent | backend/monolith/apps/chat/views.py:224-230 | Over any run a receipt stays, with its first time. |
| ChatSafety.SendsAreIdempotent | backend/monolith/apps/chat/models.py:41-48 | In every run there is at most one committed row per (match, sender, client id), at most one of the transactions begun under one key is answered "created", and the publish requests are the committed rows, one each. |
| ChatSafety.AnswersTell | backend/monolith/apps/chat/views.py:264-302 | In every run a transaction begun for a request and ended was answered by what the table holds: "created" and "replayed" by a committed row with the match, sender, body and client id of the request, a conflict only where a row with its key has another body. |
| ChatSafety.OneCreates | backend/monolith/apps/chat/views.py:251-290 | In every run two transactions begun for requests under one key are not both answered "created". |
| ChatSafety.RowsPermanent | backend/monolith/apps/chat/views.py:264-290 | Over any run a committed row stays as it is. |
| ChatSafety.LookupReturnsRow | backend/monolith/apps/chat/views.py:251-276 | A lookup that runs any time after a row with its key was committed gets that row, or a conflict for another body; nothing is written or published. |
| ChatSafety.RetryReturnsRow | backend/monolith/apps/chat/views.py:251-276 | In every run, after a transaction begun for a request was answered "created", any eligible lookup for a request under the same key answers with the row of that answer if the body is the same and with a conflict otherwise; nothing is written or published. |
| ChatSafety.VisibleInIdOrder | backend/monolith/apps/chat/views.py:232-246 | In every run the ids of one thread become visible in increasing order, although all threads share one sequence and transactions overlap. |
| Utf8.DecodeEncoded | tools/compile_po.py:65-68 | UTF-8 decoding (section 3 of RFC 3629) inverts encoding on every text. |
| Utf8.EncodeOrder | tools/compile_po.py:61-72 | Byte order of encodings is code point order of texts (section 1 of RFC 3629), prefixes included. |
| MoFile.PackableIff | tools/compile_po.py:74-100 | The values handed to the 32-bit packer all fit exactly when the last offsets do. |
| MoFile.Descriptors | tools/compile_po.py:74-100 | In the written file each id and each translation has a descriptor with its length and position, and the content is there, followed by NUL, inside the file. |
| MoFile.RegionsTile | tools/compile_po.py:74-100 | After header and tables, every string with its NUL starts where the previous one ended, ids before translations, and the last one ends the file: no overlap, no hole. |
| MoFile.WrittenIsReadable | tools/compile_po.py:74-100 | A reader that follows the format finds the count, both tables and every string. |
| MoFile.HeaderWritten | tools/compile_po.py:74-83 | The file begins with the little-endian magic bytes, revision 0, the number of strings, the two table positions and an empty hash table. |
| PoCompiler.SortKeys | tools/compile_po.py:61 | The insertion sort gives the catalogue's keys, each once, ascending by code point. |
| PoCompiler.BuildBlobs | tools/compile_po.py:62-72 | The loop grows both blobs to the NUL-separated strings and both offset lists to their lengths and starts. |
| PoCompiler.PackTable | tools/compile_po.py:84-95 | The records are packed exactly when every length and position is below 2^32, and are then the descriptor table. |
| PoCompiler.Layout | tools/compile_po.py:74-100 | Header, two tables and two blobs are put at the positions the descriptors name; it fails exactly when a value does not fit. |
| PoCompiler.CompilePo | tools/compile_po.py:59-102 | The file written for a catalogue is the laid-out file for its sorted keys; it fails exactly when an offset does not fit 32 bits. |
| PoCompiler.ReadsBack | tools/compile_po.py:59-102 | A reader following header, id table and string table recovers exactly the catalogue. |
| PoCompiler.SearchFinds | tools/compile_po.py:61-72 | Binary search by bytes over ids sorted by code point is sound and complete. |
| PoCompiler.LookupCorrect | tools/compile_po.py:59-102 | Looking a key up in the written file gives its translation if the catalogue has one and nothing otherwise. |
| PoCatalog.Catalog | tools/compile_po.py:17-56 | The parser loop with its mutable entry state and its `finish` closure computes the fold of the per-line step over the lines of the text, errors included. |
| PoCatalog.UnquoteQuoted | tools/compile_po.py:33-52 | Reading a quoted text back gives the text. |
| PoCatalog.RawRead | tools/compile_po.py:38-50 | A text without quotes and backslashes, between quotes, reads as itself. |
| PoCatalog.LiteralShape | tools/compile_po.py:38-50 | What is read as a literal is, after blanks, a quote at the beginning and one at the end. |
| PoCatalog.StripMeaning | tools/compile_po.py:31-32 | Stripping takes off the blanks at both ends of a line, all of them and nothing else. |
| PoCatalog.LineRefusedIff | tools/compile_po.py:31-55 | A line is a syntax error exactly when it is not blank, not a comment, not one of the two keywords with a literal, and not a literal that continues an open text. |
| PoCatalog.CatalogMeaning | tools/compile_po.py:21-31 | A key is in the catalogue exactly when some entry gives it a nonempty translation, and the last such entry decides. |
| PoCatalog.OnlyEssential | tools/compile_po.py:33-40 | Comment lines anywhere and blanks around a line make no difference to the parse. |
| PoCatalog.TakePrinted | tools/compile_po.py:33-52 | A printed entry, cut into any number of continuation lines, stores the entry before it and leaves exactly its own two texts open: nothing leaks over. |
| PoCatalog.ParsePrinted | tools/compile_po.py:17-56 | Printing entries with any cuts, comments anywhere and blank lines between entries, then parsing, gives exactly the map in which the last duplicate wins and empty translations are dropped. |
| PoCatalog.SplitJoined | tools/compile_po.py:31 | Lines without a line break in them are cut exactly where they were joined. |
| PoCatalog.CutAt | tools/compile_po.py:31 | A text is cut at each of the ten line break characters, a carriage return together with a newline after it, and a last piece counts only if it is not empty. |
| PoCatalog.ParsePrintedText | tools/compile_po.py:17-56 | Whatever characters the entries hold, Unicode line separators included, the text printed for them is cut back into its lines and parses to their catalogue. |
| PoToMo.CompileFile | tools/compile_po.py:17-102 | From the text of a file to the bytes: a syntax error, an offset that does not fit, or the laid-out file of the parsed catalogue. |
| PoToMo.TranslationFound | tools/compile_po.py:17-102 | A key that a printed entry translates is found in the compiled file with its last nonempty translation; every other key is reported absent. |
| Policy.SetBeneath | backend/monolith/apps/admin_panel/console_views.py:2938-2950 | A written value is read back at its path and beneath it. |
| Policy.SetApart | backend/monolith/apps/admin_panel/console_views.py:2945-2950 | A write leaves every path that is neither above nor below it as it was. |
| Policy.SetKeepsKeys | backend/monolith/apps/admin_panel/console_views.py:2945-2950 | Overwriting an existing path changes no set of keys above it. |
| Policy.SetAllMeaning | backend/monolith/apps/admin_panel/console_views.py:2966-2968 | Updates of existing prefix-free paths all succeed; the result equals the policy except at the paths, where it holds the new values, and no object above a path gains or loses a key. |
| Policy.GetsThroughIff | backend/monolith/apps/admin_panel/console_views.py:2966-2992 | The three passes over the paths (old values, writes, new values) go through exactly when every path exists and none is a prefix of another. |
| PolicyHeap.DigPath | backend/monolith/apps/admin_panel/console_views.py:2938-2942 | The loop over nested mutable dictionaries returns the cell the path leads to, or fails exactly when the path is not there. |
| PolicyHeap.WritePath | backend/monolith/apps/admin_panel/console_views.py:2945-2950 | The in-place write changes one dictionary, and the tree as a whole becomes the value-level write; on failure nothing changes. |
| PolicyHeap.DeepCopy | backend/monolith/apps/admin_panel/console_views.py:2965 | The copy has the same contents and shares no dictionary with the original. |
| PolicyHeap.WriteAll | backend/monolith/apps/admin_panel/console_views.py:2967-2968 | The writes turn the tree into the value-level update; cells read before them keep their values when no path leads below another, although they may be references into the tree that is written. |
| PolicyHeap.Edit | backend/monolith/apps/admin_panel/console_views.py:2965-2968 | Copy, old values and writes touch only new dictionaries and succeed exactly when the paths exist and can be written. |
| PolicyHeap.Report | backend/monolith/apps/admin_panel/console_views.py:2992-3003 | The audit values written out after the edit are the old values of the active policy and the new ones, references notwithstanding. |
| Settings.ActivatedMeaning | backend/monolith/apps/core/business_settings.py:24-55 | Activation is refused exactly for a retired row or a policy that fails the privacy assertion; otherwise that row alone is active, the one before is retired, and nothing else changes. |
| Settings.ConsoleSaveIff | backend/monolith/apps/admin_panel/console_views.py:2953-3004 | A console save goes through exactly when there is an active revision, every path exists in its policy, no path leads below another, and the checks accept the edited policy and rate. |
| Settings.ConsoleSaveMeaning | backend/monolith/apps/admin_panel/console_views.py:2953-3004 | The new active revision has the next version and the time, the old policy except at the given paths, the same pricing version and the given or the old rate; the old revision is retired unchanged; the audit record has that version, the old and new rate if one was given, and the old and new values. |
| Settings.ApiPostIff | backend/monolith/apps/admin_panel/views.py:1002-1039 | An API post goes through exactly when the checks accept it, the rate is at most 100%, and an activated policy passes the privacy assertion. |
| Settings.ApiPostMeaning | backend/monolith/apps/admin_panel/views.py:1002-1039 | It appends a revision with the next version and the posted rate, pricing version and policy, active from now on or a draft as asked; an active one before is retired only by activation; the audit record holds what was posted. |
| Settings.RunKeeps | backend/monolith/apps/admin_panel/views.py:1002-1039 | Over every run of console saves and API posts: versions strictly increase, at most one revision is active and exactly one once one exists, no revision changes except by being retired, and the audit list only grows. |
| Settings.RetiredForGood | backend/monolith/apps/core/business_settings.py:24-55 | Between any two moments of a run, what was retired stays retired as it was, and the active revision is the same or has a strictly higher version. |
| SettingsWriters.WritersSerialize | backend/monolith/apps/admin_panel/console_views.py:2953-3004 | However the two writers overlap, reading the active row under its lock and the latest version at any earlier moment, the revisions and the audit list are what the committed saves make one after the other, each taken whole, and every one of them added its revision. |
| SettingsWriters.StaleRefused | backend/monolith/apps/core/models.py:67 | In every interleaving a save whose reading of the latest version has become stale is refused by the unique version and changes nothing. |
| SettingsTable.Table.FindActive | backend/monolith/apps/core/business_settings.py:15-21 | The active row, or none exactly when there is none. |
| SettingsTable.Table.Activate | backend/monolith/apps/core/business_settings.py:24-55 | The loop over the rows computes the activation, or fails and changes nothing. |
| SettingsTable.Table.ConsoleSave | backend/monolith/apps/admin_panel/console_views.py:2953-3004 | The transaction on rows, audit list and policy objects computes the value-level save, rolls back on every refusal, and leaves the loaded policy object and everything below it unchanged. |
| SettingsTable.Table.ApiPost | backend/monolith/apps/admin_panel/views.py:1002-1039 | The API writer computes the value-level post and rolls back on every refusal. |
| Commission.ExactCeiling | backend/monolith/apps/core/business_settings.py:58-73 | The fee is the exact ceiling of reward times rate over 10,000, and that determines it. |
| Commission.EconomicsIff | backend/monolith/apps/core/business_settings.py:58-73 | A quote exists exactly for a positive reward, and holds the reward, the rate, the exact ceiling as fee and their sum as total. |
| Commission.FeeBounds | backend/monolith/apps/core/business_settings.py:58-73 | At a rate of at most 100% the fee lies between nothing and the reward, and is nothing exactly at rate 0. |
| Commission.FeeMonotone | backend/monolith/apps/core/business_settings.py:58-73 | The fee is monotone in reward and rate. |
| Commission.SplittingCost | backend/monolith/apps/core/business_settings.py:58-73 | Charging k rewards apart costs between 0 and k - 1 cents more than charging their sum. |
| Commission.TotalDeterminesReward | backend/monolith/apps/core/business_settings.py:58-73 | At a fixed rate the sender total determines the reward. |
| AdminRoles.AssignedRoles | backend/monolith/apps/admin_panel/permissions.py:285-323 | After an assignment the account has exactly the given roles and no legacy group, keeps its business groups, is staff for any role, and changes its superuser flag only when elevated. |
| AdminRoles.ManagersAreSuperusers | backend/monolith/apps/admin_panel/permissions.py:110-194 | Managing administrators or permissions is granted to Super Admin alone, so with membership implying the flag only active superusers can do it. |
| AdminRoles.SeparatedDuties | backend/monolith/apps/admin_panel/permissions.py:110-194 | Each permission belongs to Super Admin and exactly the roles named for it: money to Finance, identity and safety to Trust, business objects to Ops, and users, settings and administrators to none below. |
| AdminServices.StepAudited | backend/monolith/apps/admin_panel/services.py:103-313 | Every operation appends at most one record, whose replay is its effect on the accounts and whose `before` is the state it found. |
| AdminServices.AuditReproduces | backend/monolith/apps/admin_panel/services.py:169-313 | In every run, folding the audit log from the start state reproduces each account's role set, staff, superuser and active flags, and each recorded `before` is the fold of the records before it. |
| AdminServices.AuditAppendOnly | backend/monolith/apps/admin_panel/services.py:63-91 | Over any run of the services what is in the log stays, in place; records are only added at the end. |
| AdminPanel.Panel.SaveRecord | backend/monolith/apps/admin_panel/models.py:67-70 | Saving a record under a key that is there already is refused and changes nothing; any other record is added. |
| AdminPanel.Panel.DeleteRecord | backend/monolith/apps/admin_panel/models.py:72-73 | Deleting is always refused and changes nothing. |
| AdminServices.ProvisionedFacts | backend/monolith/apps/admin_panel/services.py:169-236 | An acceptance leaves the account with exactly the invited role and its business groups, the e-mail address of the invitation, staff and active, and superuser exactly if it was one or the role is Super Admin. |
| AdminServices.ReassignedFacts | backend/monolith/apps/admin_panel/services.py:239-279 | A role change leaves exactly the new role, the business groups, staff, and the superuser flag exactly for Super Admin. |
| AdminServices.IdentityInvariants | backend/monolith/apps/admin_panel/services.py:103-313 | In every run of services that load their actor as they start, from a sound system: Super Admin membership implies the superuser flag, each account given a role has exactly that one and no legacy group, and at least one active, unbanned, staff superuser remains. |
| AdminServices.RootLostIff | backend/monolith/apps/admin_panel/services.py:239-313 | Whatever account the actor was loaded with, an operation leaves no active, unbanned, staff superuser exactly when it is granted and disables or demotes the only one. |
| AdminRaces.RacesKeep | backend/monolith/apps/admin_panel/services.py:103-313 | However requests overlap and however out of date their actors are: Super Admin membership implies the superuser flag, each account given a role has exactly that one, and the audit log reproduces every account. |
| AdminRaces.RootThroughoutIff | backend/monolith/apps/admin_panel/services.py:239-313 | A root is there at every moment of an interleaved run exactly when no granted operation disables or demotes the only one. |
| AdminRaces.OnlyStaleActorsTakeIt | backend/monolith/apps/admin_panel/services.py:239-313 | In every interleaving the last root is taken only by another account, which was a root when its request loaded it and is none any more. |
| AdminRaces.TwoDisableEachOther | backend/monolith/apps/admin_panel/services.py:282-313 | Two superusers who disable each other in overlapping requests leave no root. |
| AdminRaces.RoleAsInvited | backend/monolith/apps/admin_panel/services.py:102-236 | In every interleaved run that starts without invitations, the account an acceptance provisions has exactly the role that a granted creation before it asked for, under the same key, for that e-mail address and until an expiry still to come; it is a superuser only by that role or as before. |
| AdminServices.OnlySuperusersAct | backend/monolith/apps/admin_panel/services.py:94-99 | In every system whose Super Admin members are superusers, inviting, changing roles and toggling access succeed only for an active, unbanned, staff superuser. |
| AdminServices.OnlySuperusersElevate | backend/monolith/apps/admin_panel/services.py:102-313 | Whatever groups the actor has, only an active, unbanned, staff superuser invites a Super Admin, gives that role or changes the access of a superuser. |
| AdminServices.CreateIff | backend/monolith/apps/admin_panel/services.py:102-146 | With Super Admin members being superusers, an invitation is created exactly for a known role, a lifetime, an e-mail address and a new key, by an active, unbanned, staff superuser. |
| AdminServices.AcceptIff | backend/monolith/apps/admin_panel/services.py:169-236 | An acceptance goes through exactly for an unused, unrevoked, unexpired invitation, when the account with its e-mail address is the one signed in or, where there is none, a usable password makes a new one. |
| AdminServices.ChangeIff | backend/monolith/apps/admin_panel/services.py:239-279 | With Super Admin members being superusers, a role change goes through exactly for a known role and an existing account, by an active, unbanned, staff superuser; no superuser gives up the role by it. |
| AdminServices.AccessIff | backend/monolith/apps/admin_panel/services.py:282-313 | With Super Admin members being superusers, an access change goes through exactly for an existing staff account, by an active, unbanned, staff superuser who does not disable their own. |
| AdminPanel.Panel.AssignAdminRoles | backend/monolith/apps/admin_panel/permissions.py:285-310 | The step-by-step group and flag changes compute the assignment. |
| AdminPanel.Panel.CreateAdminInvitation | backend/monolith/apps/admin_panel/services.py:102-146 | The service computes its protocol step for the actor as loaded, with the error the source raises; granted, the new invitation has the given role and e-mail address, expires after the given lifetime, and is unused and unrevoked, with its audit record; every other one and every account stay. |
| AdminPanel.Panel.RevokeAdminInvitation | backend/monolith/apps/admin_panel/services.py:149-166 | The service computes its protocol step for the actor as loaded, with the error the source raises; granted, the invitation is not active afterwards, and every other one and every account stay. |
| AdminPanel.Panel.AcceptAdminInvitation | backend/monolith/apps/admin_panel/services.py:169-236 | The service computes its protocol step, with the error the source raises; a refusal changes nothing, and other accounts and invitations stay. |
| AdminPanel.Panel.ChangeAdminRole | backend/monolith/apps/admin_panel/services.py:239-279 | The service computes its protocol step for the actor as loaded; every other account and every invitation stay, and the explicit demotion at its end is shown never to apply. |
| AdminPanel.Panel.SetAdminAccess | backend/monolith/apps/admin_panel/services.py:282-313 | The service computes its protocol step for the actor as loaded, with the error the source raises; granted, exactly the active flag of that account is as asked, and all else stays. |
| RowLocks.Serializable | backend/monolith/apps/admin_panel/services.py:169-200 | Any interleaving of transactions that lock each row they touch until they end leaves every row as the committed operations, done one after the other in commit order, make it; and each of them had found exactly what those before it had made of its row. |
| RowLocks.FinalRowStays | backend/monolith/apps/accounts/models.py:113-127 | A committed row that no operation changes any more stays as it is through any continuation of the run, transactions still open included. |
| RowLocks.NothingUnaccounted | backend/monolith/apps/accounts/models.py:113-127 | In every run the operations made on a row are those committed, those lost to a rollback and those of the one transaction that holds the row. |
| RowLocks.RowInvariant | backend/monolith/apps/admin_panel/models.py:187-205 | What every operation keeps of a row holds of every committed row in every interleaving. |
| Invitations.SingleUseHolds | backend/monolith/apps/admin_panel/models.py:173-205 | In every interleaving of locked transactions at most one committed operation found an invitation active, so it is never accepted twice nor both accepted and revoked, and none did if it was settled before; the row is used exactly if it was or an acceptance found it active, and then holds that one's time and account. |
| Invitations.NeverBoth | backend/monolith/apps/admin_panel/models.py:173-205 | No run makes a row both used and revoked, whatever the rows it starts from. |
| Invitations.SettledIsFinal | backend/monolith/apps/admin_panel/models.py:173-205 | Once committed as used or revoked, an invitation stays as it is through any continuation of any run. |
| Invitations.TermsHold | backend/monolith/apps/admin_panel/models.py:151-205 | In every interleaving the e-mail address, role and expiry of an invitation are those it had at first or those of the committed operation that issued it. |
| AccessCodes.BudgetHolds | backend/monolith/apps/accounts/models.py:106-127 | In every interleaving of locked transactions the committed operations that compared a guess with a code number exactly the attempts it has gained, at most the maximum; no comparison follows a right one, so at most one is right; and the code is used exactly if it was or one was right. |
| AccessCodes.ComparisonsForgotten | backend/monolith/apps/accounts/models.py:113-127 | Comparisons made exceed the attempts stored exactly when some were rolled back or belong to the transaction that still holds the code, and by that many. |
| AccessCodes.ComparedIff | backend/monolith/apps/accounts/models.py:106-127 | A committed guess was compared exactly when the code it found was unused, not expired and below the maximum of attempts. |
| AccessCodes.ExpiryStays | backend/monolith/apps/accounts/models.py:113-127 | No run moves the expiry of a code. |
| AccessCodes.UsedIsFinal | backend/monolith/apps/accounts/models.py:113-127 | Once a right guess is committed, the code stays as it is through any continuation of any run. |
| AccessCodes.ResetCommits | backend/monolith/apps/accounts/views.py:211-246 | A reset request among any other transactions that got the locks of its two rows: at its commit a right guess on an active code uses it and sets the password; a wrong one still commits its attempt and leaves the password; no other row changes, and the log says what was found. |
| AccessCodes.Account.NewestUnused | backend/monolith/apps/accounts/views.py:225-229 | The code that is tried is an unused one of the account that no unused one is newer than, or none exactly when all are used. |
| AccessCodes.CodeRecord.Verify | backend/monolith/apps/accounts/models.py:113-127 | The method computes the guess on its row and answers yes exactly for a match on an active code. |
| AccessCodes.ResetConfirm | backend/monolith/apps/accounts/views.py:211-246 | The guess is spent on the newest unused code of the account, if there is one; 204 exactly for a right guess on it while it is active, and only then a new password; a failed guess is counted; no other code changes. |
| Money.AmountRecovered | backend/monolith/apps/admin_panel/console_presenters.py:303-315 | The printed text has the form said in `AmountPrinted`, and dropping the grouping commas and the point from it gives the amount back, for every integer and exponent. |
| Money.AmountPrinted | backend/monolith/apps/admin_panel/console_presenters.py:303-315 | The text is a minus exactly for a negative amount, the grouped whole part, for a positive exponent e a point and exactly e digits, a blank, and the currency or a dash; the whole part and the digits are quotient and remainder of the amount by 10 to the power e. |
| Money.PartsRead | backend/monolith/apps/admin_panel/console_presenters.py:303-315 | An independent reader that keeps the point finds in the text the sign, the whole part, the fraction and the number of its digits. |
| Money.PrintsDistinct | backend/monolith/apps/admin_panel/console_presenters.py:303-315 | Distinct amounts at one exponent and currency never print alike, and an unknown amount prints as none of them. |
| Money.NumberShape | backend/monolith/apps/admin_panel/console_presenters.py:303-315 | The printed number is the whole part with a comma exactly before every third digit from the right and, for a positive exponent, a point and exactly that many digits. |
| Money.ScaledExactly | backend/monolith/apps/admin_panel/console_forms.py:22-28 | The conversion gives a number of units exactly for the value that is that many units; every other value is refused. |
| Money.PresentersInverted | backend/monolith/apps/admin_panel/console_presenters.py:318-327 | The conversion inverts the euro, basis-point and micro presenters. |
| Money.ConversionsInverted | backend/monolith/apps/admin_panel/console_forms.py:294-318 | Whatever the form accepts is shown back unchanged. |
| GeographyAlgeria.IndexOns | tools/geography/normalize_sources.py:775-782 | The indexes by (wilaya, name) and by name hold exactly the ONS rows; it fails exactly for two equal names in one wilaya. |
| GeographyAlgeria.FindOnsCode | tools/geography/normalize_sources.py:824-856 | The lookup returns the code that the rules for wilayas 49 to 58, for composed codes and for names unique in the country give, said over the rows; none exactly when no code meets them. |
| GeographyAlgeria.OnsCodeIff | tools/geography/normalize_sources.py:824-856 | In wilayas 49 to 58 a commune has a code exactly if that is the one ONS row of the wilaya under its reviewed name; elsewhere the code of mother wilaya (or own) and post code tail if it exists, and otherwise the one row of the country under that name. |
| GeographyAlgeria.ComposedDigits | tools/geography/normalize_sources.py:839-841 | A composed code is four digits: tens and ones of the wilaya, then tens and ones of the tail. |
| GeographyAlgeria.LegalNameIff | tools/geography/normalize_sources.py:753-822 | The name a commune is given is the spelling of its wilaya's legal list, where there is one, and otherwise its own. |
| GeographyAlgeria.CommunePlaced | tools/geography/normalize_sources.py:861-891 | The place of each commune has its ONS code, its name by the rule, and as parent its own wilaya under a legal list and otherwise that of its ONS row. |
| GeographyAlgeria.WilayaPlaced | tools/geography/normalize_sources.py:775-795 | The place of each wilaya has its two-digit code and its name, and no parent. |
| GeographyAlgeria.ArabicMeaning | tools/geography/normalize_sources.py:892-903 | The Arabic names added for communes are exactly those of the communes that have one, for their codes. |
| GeographyAlgeria.WilayaNamesMeaning | tools/geography/normalize_sources.py:796-807 | The Arabic names added for wilayas are exactly those of the wilayas that have one, for their codes. |
| GeographyAlgeria.ReconcileCommunes | tools/geography/normalize_sources.py:824-914 | The loop places and names every commune, and fails exactly when one does not resolve or repeats a code. |
| GeographyAlgeria.ReconciledIff | tools/geography/normalize_sources.py:824-872 | The communes reconcile exactly when each one resolves and no two to the same code. |
| GeographyAlgeria.RenamedIff | tools/geography/normalize_sources.py:754-768 | The wilaya step goes through exactly when every legal list is nonempty and has its wilaya in the supplement. |
| GeographyAlgeria.RenamedNames | tools/geography/normalize_sources.py:754-768 | The first wilaya under each legal list carries the name the list starts with, and no other wilaya is renamed. |
| GeographyAlgeria.ParseAlgeria | tools/geography/normalize_sources.py:727-922 | The parser returns exactly when the counts (69 and 1541), the legal lists, the ONS names, the reconciliation, its coverage and the closing comparison are all in order, and then appends exactly the wilaya and commune rows. |
| GeographyAlgeria.OneToOne | tools/geography/normalize_sources.py:809-914 | When the parser returns, every ONS code is the source id of the place of exactly one commune. |
| GeographyAlgeria.EveryCodeConsumed | tools/geography/normalize_sources.py:910-914 | With as many communes as ONS codes the check that every code was consumed cannot fail. |
| GeographyAlgeria.LegalLists | tools/geography/normalize_sources.py:809-922 | When the parser returns, the names placed under each wilaya of the law are its legal list, and every supplement commune of that wilaya is placed there with a legal name. |
| GeographyMappings.DeriveAirportMappings | tools/geography/normalize_sources.py:1095-1160 | The pass keeps the supplied rows as a prefix and appends the derived rows; it fails exactly when they are not defined. |
| GeographyMappings.SucceedsIff | tools/geography/normalize_sources.py:1109-1142 | The pass succeeds exactly when every airport is covered or has its locality. |
| GeographyMappings.LocalityForIff | tools/geography/normalize_sources.py:1124-1142 | With an override the locality is the last one listed under the key it names; without one it is the only one of the airport's country that the municipality hint names. |
| GeographyMappings.AddedRows | tools/geography/normalize_sources.py:1143-1160 | Each appended row is the served row of an uncovered airport and its locality. |
| GeographyMappings.DerivedFields | tools/geography/normalize_sources.py:1143-1160 | A derived row names the airport and the locality, is the active primary served row, and has the review as its source. |
| GeographyMappings.ExactlyOneIff | tools/geography/normalize_sources.py:1095-1160 | After the pass an airport has exactly one active primary served row if and only if it was covered with exactly one active row, or was not covered and is listed once; a switched-off supplied row counts as covering and therefore fails. |
| GeographyMappings.ExactlyOnePrimary | tools/geography/normalize_sources.py:1095-1160 | With unique place keys and supplied primary rows that are active and at most one per airport, every airport ends with exactly one active primary served row. |
| GeographyMappings.SecondPassAddsNothing | tools/geography/normalize_sources.py:1102-1112 | A second pass succeeds and appends nothing. |
| GeographyAliases.AddReviewedServedLocalityAliases | tools/geography/normalize_sources.py:1163-1231 | The nested loops append one alternate name per alias; they fail exactly when an alias has no served locality or searchable name, or repeats an identity or a name. |
| GeographyAliases.NameForIff | tools/geography/normalize_sources.py:1171-1216 | A row is made for an alias exactly when its mapping is served, its locality exists and its stripped name is searchable; its fields, with the language folded and the position of the alias in its identity, are said one by one. |
| GeographyAliases.AcceptedIff | tools/geography/normalize_sources.py:1176-1231 | The rows are accepted exactly when every alias has one and each stands apart, by identity and by (place, language, name), from those before it. |
| GeographyAliases.TasksMeaning | tools/geography/normalize_sources.py:1167-1171 | The aliases visited are exactly those of the mappings, each with its position. |
| GeographyAliases.AddedNamesProject | tools/geography/normalize_sources.py:1189-1229 | Every appended row is an alias of a served mapping, under its stripped searchable name, for the existing locality the mapping leads to. |
| GeographyAliases.IdsStayUnique | tools/geography/normalize_sources.py:1176-1216 | The source identities of the alternate names are unique after the pass exactly when they were before. |
| GeographyAliases.NamesStayUniqueIff | tools/geography/normalize_sources.py:1180-1219 | Uniqueness of (place, language, normalised name) is kept exactly when, in the manifest given to the pass, no alias with a blank language shares place and normalised name with a row that has no language or is "und", or with another alias that reads as "und". |
| GeographyAliases.BlankLanguageRepeats | tools/geography/normalize_sources.py:1205-1219 | A concrete manifest in which an alias whose language is one space breaks that uniqueness. |
| GeographyValidation.CheckPlaces | tools/geography/normalize_sources.py:1234-1312 | The checks on places pass exactly when keys are unique, the coverage counts are met, the eleven new wilayas are there, parents exist in the same country, and every airport is in order. |
| GeographyValidation.CheckMappings | tools/geography/normalize_sources.py:1326-1392 | The checks on mappings pass exactly when identities are unique, airport and locality exist in one country, the relationship is known, and each airport has exactly one active primary served row. |
| GeographyValidation.CheckPrimaries | tools/geography/normalize_sources.py:1364-1392 | The counting loop and the two set checks pass exactly when every airport has exactly one active primary served row. |
| GeographyValidation.ValidateManifest | tools/geography/normalize_sources.py:1234-1392 | It returns without raising exactly for a valid manifest, as said declaratively. |
| GeographyValidation.DerivedRowOk | tools/geography/normalize_sources.py:1114-1160 | A derived row passes validation exactly when airport and locality are of one country, and only a reviewed override can name another. |
| GeographyValidation.DerivedPassesPrimaries | tools/geography/normalize_sources.py:1095-1160 | Over supplied primary rows that are active and at most one per airport, the completed mappings pass the exactly-one check for every airport. |
| GeographyValidation.CompletedOkIff | tools/geography/normalize_sources.py:1313-1392 | The completed mappings are valid exactly when the supplied rows are valid with identities unlike each other and the derived ones, every airport they cover has one active primary served row among them, and every other airport has its locality in its own country. |
| GeographyValidation.SwitchedOffRow | tools/geography/normalize_sources.py:1102-1112 | A concrete manifest whose one supplied row is in order by itself but switched off: the pass adds nothing and the airport has no active primary row. |
| GeographyValidation.LaunchAirports | tools/geography/normalize_sources.py:1287-1296 | Places that pass under the launch coverage hold exactly 161 airports. |
| GeographyBuild.Finish | tools/geography/normalize_sources.py:1500-1503 | The three closing passes return exactly when each does, keep what was supplied as a prefix, and what they return is valid. |
| GeographyBuild.ValidMeans | tools/geography/normalize_sources.py:1364-1392 | In a valid manifest every airport has one active primary served row and no second, and it leads to an existing locality of the same country. |

## Left out

- HTTP, serializers, templates, throttling and query building: a request arrives as its validated values.
- Services that are called but are not part of this model (chat eligibility, the message bus, the settings serializer, the location-privacy assertion, password policy) are parameters: a truth value or an uninterpreted predicate.
- Hashing and token generation: whether a guess matches, and which invitation a token names, are parameters.
- Database isolation below explicit row locks and commit visibility; message deletion through a match; manual edits of rows.
- Waiting on the database: a settings save that would wait for a row or an index entry, and then be refused, appears as one that is not enabled yet or is rolled back.
- Policy values other than numbers, flags, texts and nested objects: a list or null would be one more scalar that no path leads through.
- The order of the keys of a dictionary, and the texts of error messages.
- E-mail addresses are given as stored, stripped and in lower case.
- Roles are given as values: the parsing of role labels and role permissions granted outside the role groups are not part of this model.
- E-mail verification codes: `EmailVerificationCode` has the same `issue`, `is_active` and `verify` as the modelled password reset code.
- PO string literals are double-quoted with the escapes for quote, backslash, newline, return, tab, vertical tab and form feed, and with two or four hexadecimal digits; other Python literal syntax, lone surrogates and the decoding of the file are not modelled.
- Decimal arithmetic is exact: the 28-digit context of Python's `Decimal` is not modelled.
- Geography downloads and the reading of PDF, ZIP, CSV, XLSX and JSON files: the passes start from parsed rows. Name normalisation, case folding and stripping are functions passed in; a field that a mapping row leaves out is modelled, one that is present as null is not. Source versions, most metadata and coordinates of Algerian places are left out of the rows.
- GeographyAlgeria.ParseAlgeria: a wilaya or post code that is not a number is an error before the model starts, except the last three characters of a post code, which may fail to be one.
- GeographyAliases.NamesStayUniqueIff: assumes that case folding and stripping leave a folded and stripped language as it is.
- Read-only finance, people and payout-review pages, technical bulk bans, and process supervision.
