# SQ Hub: verified models

SQ Hub is the login portal and the WhatsApp sending service (Kirim SQ) of a group of applications.
This project models the parts of it whose state lives longest and proves what holds of them over
whole runs. Every module is one component:

- `CardRegistry`, `CardMerge`, `CardRuns`, `CardRights`, `CardRequests`, `CardReads`, `CardNumbers`,
  `CardMigration`, `CardService`: the module cards of Kirim SQ. Four tables (modules with one card each, numbers with an owner and
  settings, routes of a module on a number, engine events of a number) and every request that changes
  them, including the two that read before their transaction. `CardRegistry` gives each request as a
  function from tables to tables or an error, `CardService` is the same requests statement by statement
  on mutable rows, `CardRequests` says what each of them answers and leaves in every column, told from
  the rows and the fields given, `CardReads` the same of the two-part ones across any run in between, and
  the others prove what every interleaving keeps.
- `HubSessions`, `HubSessionProofs`, `HubRequests`, `HubIdentities`, `HubStore`: login transactions and
  sessions, with each request cut into its store statements and any other request in between.
- `Messages`, `Reactions`, `MessageChanges`: edits, deletions and reactions on one stored message, where
  the officer's request and the engine's echo of it may be stored in either order.
- `SendPolicy`, `SendClock`, `SendRate`: when a message may leave a number, and how many may.
- `AccessRegistry`, `AccessRequests`: applications, grants, the audit log, and the lists people see.
- `Migrations`: any number of migration runners on one database.
- `ChartModel`: series colours and line gaps of the governance charts.
- `Base64Url`, `DataKeys`, `Envelope`, `SealedForms`: sealed values and files under key rotation.
- `BusinessHours`: opening hours and the form the engine is given.
- `Sorting`, `TextOrder`, `Common`: shared.

Times are integers in the unit of the component (milliseconds, or seconds for sessions). One database
transaction is one step. Clocks, random numbers, fresh identifiers and the answers of other systems
are arguments of the steps that use them.

Where the code does something else than its documentation or a reader might expect, the model follows
the code and a lemma says exactly when the expected property holds:

- An owner change does not look at the number's status. A card can come to show a switched-off number
  in that way and in no other (`CardRuns.StepLive`, `CardRuns.RunLive`, `CardRuns.OwnerChangeCanShowInactive`).
- A change of engine or tenant during a reconnect is to win over it. The write compares the row with what was
  read, so exactly a change that is still there wins; one that was changed back is not noticed
  (`CardReads.ReconnectGoesThroughIff`; `CardReads.ChangedBackIsNotNoticed` is such a run).
- A session lookup is a read followed by an unconditional write of the time it was seen, so a lookup
  that has read and not yet written revives a session that went idle in between
  (`HubSessionProofs.RefusedForeverIff`; `HubSessionProofs.IdleSessionIsRevived` is such a run).
- The service compares issuers without trailing slashes, the store compares them as they are. Logins all
  come from the one configured issuer, and as long as that stays the two checks agree: a login that is to
  replace a session goes through exactly for the same account and a session that has not ended
  (`HubIdentities.OneIssuerLoginReplacesIff`). Only if the configuration changed the issuer by a slash while
  sessions are alive can a login pass the first check and fail at the second
  (`HubSessionProofs.ReplacementSucceedsIff`; `HubSessionProofs.TrailingSlashIsRefusedByTheStore` is that run).
- Whatever comes between an officer's edit and its echo, both orders leave the same text, the same kept
  bodies and the same deletion (`Messages.EditOrdersConverge`). Two things can differ or be lost: who is
  credited (`Messages.EditAttributionIff`, `Messages.DeleteAttributionIff`), and a newer text, which a late
  echo turns into a kept body (`Messages.NewerTextIsReplacedIff`). For reactions only the credit can
  (`Reactions.ReactionCreditIff`).
- Every start of the server seeds one application, `hcis`, without an entry in the audit log. So its status
  and address are in the log exactly when no seed came after its last upsert or the seed wrote the same
  address (`AccessRegistry.ApplicationIsTheLogIff`; `AccessRegistry.SeedIsNotInTheLog` shows both failures).
  Everything else is in the log: all other applications, all governance fields, all grants.
- Access targets in the audit log are joined with bars. Grants can be read back from the log in every run
  exactly for issuers none of which, followed by a bar, begins another (`AccessRegistry.GrantsAreTheLogIff`).
- The gap between two sends is kept in memory only, so a restart of the worker may shorten one gap. What a
  minute can hold is `SendRate.MinuteHoldsExactly`: with `n` sends that follow a restart, up to the smaller
  of the rate and `30 + n`, each of these numbers in some run.
- The comment on the chart colours says a series keeps its colour when another is absent. That holds
  exactly when no two home slots of the chart collide (`ChartModel.AbsenceChangesNothingIff`;
  `ChartModel.AbsenceCanRecolour` shows two keys that do); what always holds is that keys sorting later
  change nothing.

## Model

| member | source | states |
|---|---|---|
| CardRuns.RunKeepsValid | apps/api/src/modules/kirim/cards.ts:88-189 | In every interleaving of connect, take back, borrow, disconnect, owner change, merge, switch-off, reconnect, engine reports and operator changes, no card or route points at a missing row and every filled card can send at least one kind of message |
| CardRuns.StepKeepsValid | apps/api/src/modules/kirim/cards.ts:246-262 | Each single transaction keeps that invariant, the second half of a two-part request included, however old its read is |
| CardRuns.StepLive | apps/api/src/modules/kirim/admin.ts:252-262 | From cards that all show working numbers, a step leads to a card on a switched-off number if and only if it is an owner change on a switched-off number to a module with an empty card |
| CardRuns.RunLive | apps/api/src/modules/kirim/admin.ts:214-276 | No card shows a switched-off number at any point of a run if and only if no step of the run is such an owner change |
| CardRuns.OwnerChangeCanShowInactive | apps/api/src/modules/kirim/admin.ts:252-255 | Such a step exists |
| CardRuns.ChangeOwnerKeepsValid | apps/api/src/modules/kirim/admin.ts:252-262 | The card following the owner never leaves either module with a card it cannot send through |
| CardRuns.LetGoKeepsValid | apps/api/src/modules/kirim/cards.ts:172-189 | Disconnecting a borrowed number on a stale read keeps the invariant, whatever the card shows by then |
| CardMerge.MergeUnitesKinds | apps/api/src/modules/kirim/admin.ts:487-492 | After a merge each module may send on the surviving number exactly the kinds it could on either |
| CardMerge.MergeLeavesOthers | apps/api/src/modules/kirim/admin.ts:486-508 | Rights on every other number, and that number itself, are unchanged by a merge |
| CardMerge.MergeKeepsRoles | apps/api/src/modules/kirim/cards.ts:270-309 | Every module is empty, owner or borrower after a merge as before, and shows the survivor exactly if it showed either number |
| CardMerge.MergeRemovesSource | apps/api/src/modules/kirim/admin.ts:479-493 | No card, route, event or row refers to the removed number |
| CardMerge.MergeMovesEvents | apps/api/src/modules/kirim/admin.ts:478-479 | The survivor has the engine events of both numbers, every other number its own |
| CardMerge.MergeTakesSession | apps/api/src/modules/kirim/admin.ts:502-505 | The survivor carries on the engine session, keeps its owner and data, and is switched off only if both numbers were |
| CardMerge.MergeKeepsValid | apps/api/src/modules/kirim/admin.ts:455-509 | A merge keeps the card invariant |
| CardMerge.MergedRoute | apps/api/src/modules/kirim/admin.ts:488-492 | Exactly which routes exist after a merge |
| CardRights.TakeBackEffect | apps/api/src/modules/kirim/cards.ts:124-139 | Taking an own number back makes the module its owner on the card, wakes a switched-off number, drops every borrowed route, and changes no route on its own numbers and nothing of other modules |
| CardRights.BorrowEffect | apps/api/src/modules/kirim/cards.ts:143-165 | Borrowing gives exactly the chosen kinds, leaves no other borrowed number, and changes no route on its own numbers and nothing of other modules |
| CardRights.OwnCardIsKept | apps/api/src/modules/kirim/cards.ts:336-341 | A card on a number of its own is displaced by neither request |
| CardRights.ConnectEffect | apps/api/src/modules/kirim/cards.ts:88-117 | A new number appears only on an empty card, is the module's only number unless it asked for a different one, and touches no other row |
| CardRights.LetGoEffect | apps/api/src/modules/kirim/cards.ts:181-188 | Letting go takes the module off that number and changes nothing else, a card that moved on included |
| CardRights.OwnerChangeEffect | apps/api/src/modules/kirim/admin.ts:252-262 | The new owner's empty card shows the number, the old owner becomes a borrower if it has a route and empty if not, and every right elsewhere is unchanged |
| CardRights.SwitchedOffOnlyUnshared | apps/api/src/modules/kirim/admin.ts:564-583 | A working number is switched off only by the deactivate request, never while another active module uses it, only confirmed when it is in use, and comes off every card |
| CardRights.RemovedOnlyByMerge | apps/api/src/modules/kirim/admin.ts:461-501 | A number disappears only by a merge into a number of the same phone and owner created before it, or at the same time with the smaller id, and only without data of its own |
| CardRights.BorrowerKeepsSending | apps/api/src/modules/kirim/admin.ts:515-520 | In any interleaving, an active module on another module's number keeps its card filled and loses no kind of message, unless it acts itself, its operator switch is used, or it is made the owner of its card's number |
| CardRequests.ConnectAnswer | apps/api/src/modules/kirim/cards.ts:88-102 | A connect is refused to a module that is off, then to a filled card, then to a module with a number of its own that did not say it is a different one, and to nobody else |
| CardRequests.ConnectRows | apps/api/src/modules/kirim/cards.ts:103-111 | Every column of the new number, and the card; no other row changes |
| CardRequests.TakeBackAnswer | apps/api/src/modules/kirim/cards.ts:124-134 | Which refusal a take back gets, in order, and exactly when it is accepted |
| CardRequests.BorrowAnswer | apps/api/src/modules/kirim/cards.ts:143-159 | The same for borrowing |
| CardRequests.ReleaseAnswer | apps/api/src/modules/kirim/cards.ts:336-348 | Exactly which routes are let go before a card takes a number, and when that is refused |
| CardRequests.LetGoAnswer | apps/api/src/modules/kirim/cards.ts:181-183 | Letting go is refused only to a module that is off, and takes exactly the routes and the card on that number |
| CardRequests.CreateAnswer | apps/api/src/modules/kirim/admin.ts:184-200 | Which refusal a new number gets, or every column of its row |
| CardRequests.StepsAreRequests | apps/api/src/modules/kirim/cards.ts:246-262 | A step of a run commits what its request answers, or is rolled back and leaves every row |
| CardRequests.SwitchOffAnswer | apps/api/src/modules/kirim/admin.ts:564-582 | A number shared by another active module is not switched off, one in use only when confirmed; else exactly the status and the cards on it change |
| CardRequests.CutAnswer | apps/api/src/modules/kirim/admin.ts:534-536 | A number that is gone or shared is not cut; else its status is disconnected if it was read on JalurPesan and is not switched off, and nothing else changes |
| CardRequests.ReconnectAnswer | apps/api/src/modules/kirim/admin.ts:351-361 | The write of a reconnect goes through if and only if the number is there, is on, is on JalurPesan and has the tenant that was read; then it waits for pairing, on the new tenant if there is one, and nothing else changes |
| CardRequests.UpdateAnswer | apps/api/src/modules/kirim/admin.ts:214-242 | Which refusal an update of a number gets, in order, and exactly when it is accepted, told from the fields given and the row |
| CardRequests.UpdateEffect | apps/api/src/modules/kirim/admin.ts:243-251 | Of an accepted update every given field is stored and every absent one kept; another engine means connected or not installed again, unless the number is switched off |
| CardRequests.UpdateFrame | apps/api/src/modules/kirim/admin.ts:252-262 | Nothing but that number changes, and of the cards only those of the old and the new owner, as told here |
| CardRequests.MergeAnswer | apps/api/src/modules/kirim/admin.ts:455-477 | Which refusal a merge gets, in order, and exactly when it is accepted; the survivor was created first, or at the same time with the smaller id |
| CardRequests.MergeRow | apps/api/src/modules/kirim/admin.ts:486-505 | Every column of the surviving number, every other number there is, and every card after a merge |
| CardRequests.EngineReportDoes | apps/api/src/modules/kirim/repository.ts:373-390 | An engine report sets phone and status of its number alone, and neither switches one off nor wakes one |
| CardRequests.NumberWritesDo | apps/api/src/modules/kirim/admin.ts:542-546 | Pausing and storing data write their one column |
| CardRequests.OtherRowWritesDo | apps/api/src/modules/kirim/cards.ts:246-258 | An engine event is recorded once; a module is switched or registered without touching its card |
| CardReads.ReconnectGoesThroughIff | apps/api/src/modules/kirim/admin.ts:319-361 | With any run of other requests in between, a reconnect goes through if and only if the number could be reconnected when read and, when written, is there, on, and has the engine and tenant it was read with; the exact row it leaves |
| CardReads.UntouchedReconnectGoesThrough | apps/api/src/modules/kirim/admin.ts:352-361 | So it goes through whatever else happens, unless somebody changes the engine of the number, merges it, moves its tenant or switches it off |
| CardReads.OthersSpareEngine | apps/api/src/modules/kirim/admin.ts:214-276 | Those are the only steps that can change what a reconnect compares |
| CardReads.ChangedBackIsNotNoticed | apps/api/src/modules/kirim/admin.ts:354-356 | A tenant that was changed and changed back is not noticed: a run in which somebody did change it and the reconnect goes through |
| CardReads.CutGoesThroughIff | apps/api/src/modules/kirim/admin.ts:522-540 | With any run in between, a number is cut if and only if it was there, unshared and on JalurPesan when read, and is there, unshared and on when written |
| CardReads.DisconnectDoes | apps/api/src/modules/kirim/cards.ts:172-189 | With any run in between, disconnecting a card lets go of a number that was borrowed when read and cuts one that was its own |
| CardReads.DisconnectOfEmptyCard | apps/api/src/modules/kirim/cards.ts:175-176 | Disconnecting an empty card is refused at the read |
| CardReads.AbandonDoes | apps/api/src/modules/kirim/admin.ts:344-350 | A request whose engine call failed is never written |
| CardNumbers.RunKeepsConfigured | apps/api/src/modules/kirim/admin.ts:214-276 | In every interleaving every number satisfies the table's own checks, so no request is left to be refused by them |
| CardNumbers.FormAcceptsIff | apps/api/src/modules/kirim/admin.ts:51-62 | Which times and rates the form of an update accepts |
| CardNumbers.EveryNumberHasAWindow | apps/api/src/modules/kirim/admin.ts:240-242 | In every reachable state each number has a moment of every day at which a notification may leave it, a rate from 1 to 60, and a tenant if its engine needs one |
| CardMigration.FilledCardsHold | apps/api/migrations/0013_kirim_module_cards.sql:53-70 | The cards the migration fills satisfy the invariant and show working numbers |
| CardMigration.FilledCardIff | apps/api/migrations/0013_kirim_module_cards.sql:53-70 | Exactly which card each module gets: its only working number, else, without any, the only working number it has a route on |
| CardMigration.ReachableCardsCanSend | apps/api/src/modules/kirim/cards.ts:353-358 | From the migrated tables on, every reachable card that has a role can send, and a card is empty exactly if it shows nothing |
| CardService.ModuleCards.Release | apps/api/src/modules/kirim/cards.ts:336-351 | Refuses a card on another own number, otherwise removes exactly the routes on numbers the module neither owns nor takes |
| CardService.ModuleCards.ConnectNew | apps/api/src/modules/kirim/cards.ts:88-117 | Commits the connect function of the old rows or rolls back with its error, keeping the invariant |
| CardService.ModuleCards.TakeBackOwn | apps/api/src/modules/kirim/cards.ts:124-139 | The same for taking an own number back |
| CardService.ModuleCards.BorrowNumber | apps/api/src/modules/kirim/cards.ts:143-165 | The same for borrowing |
| CardService.ModuleCards.LetGoOf | apps/api/src/modules/kirim/cards.ts:181-188 | The same for the write half of disconnecting a borrowed number |
| CardService.ModuleCards.SetStatus | apps/api/src/modules/kirim/repository.ts:373-390 | A switched-off number keeps its status unless the caller may wake it |
| CardService.ModuleCards.FollowOwner | apps/api/src/modules/kirim/admin.ts:252-262 | The two card updates together are the simultaneous card change of an owner change |
| CardService.ModuleCards.UpdateNumber | apps/api/src/modules/kirim/admin.ts:214-276 | Checks, row update, status and cards commit the update of the old rows, every column of it, or change nothing, keeping the invariant |
| CardService.ModuleCards.MoveRoutes | apps/api/src/modules/kirim/admin.ts:488-492 | Insert-unless-there and delete leave exactly the moved routes |
| CardService.ModuleCards.DeleteNumber | apps/api/src/modules/kirim/admin.ts:486-494 | A number with data of its own cannot be deleted |
| CardService.ModuleCards.WriteMerge | apps/api/src/modules/kirim/admin.ts:478-498 | The writes in order are the merge of the old rows, or stop at the delete exactly when the duplicate has data |
| CardService.ModuleCards.UseExisting | apps/api/src/modules/kirim/admin.ts:455-509 | Commits the merge of the old rows or changes nothing; when another transaction stores data on the duplicate after its tables were counted, the answer is that of a merge asked for after that |
| CardService.ModuleCards.SwitchOff | apps/api/src/modules/kirim/admin.ts:564-583 | Commits the deactivate function of the old rows or changes nothing |
| CardService.ModuleCards.Cut | apps/api/src/modules/kirim/admin.ts:534-539 | The write half of disconnecting by the owner, checked again under the lock |
| CardService.ModuleCards.Reconnect | apps/api/src/modules/kirim/admin.ts:351-361 | The write half of reconnecting; a number changed since it was read wins |
| HubSessionProofs.RunKeepsInv | apps/api/src/modules/hub-auth/repository.ts:113-206 | Every run keeps links, expiry, empty tokens of revoked sessions and one session per transaction |
| HubSessionProofs.ChainsNeverFork | apps/api/src/modules/hub-auth/repository.ts:172-204 | Of two replacement chains from one session, one is the beginning of the other |
| HubSessionProofs.ChainsNeverJoin | apps/api/src/modules/hub-auth/repository.ts:172-204 | Two chains that begin at fresh logins and end in one session are the same |
| HubSessionProofs.ChainShares | apps/api/src/modules/hub-auth/repository.ts:180-206 | A chain is one identity with one expiry, and all but its last member are revoked |
| HubSessionProofs.ReplacementNeverExtends | apps/api/src/modules/hub-auth/repository.ts:206 | In every run from an empty store, each member of a chain expires exactly the maximum time after its first login, however often it was renewed |
| HubSessionProofs.TransactionsAreOneShot | apps/api/src/modules/hub-auth/service.ts:156-207 | Two sessions never come from one login transaction, in any interleaving of callbacks |
| HubRequests.ConsumeDoes | apps/api/src/modules/hub-auth/service.ts:156-159 | Coming back with a transaction token removes the row either way, and the login goes on if and only if the row was there and its expiry is still ahead |
| HubRequests.SessionsComeFromTimelyLogins | apps/api/src/modules/hub-auth/service.ts:156-207 | In every run from an empty store a session exists only if its transaction was taken back less than the transaction time after it was begun, and it was made after that |
| HubRequests.BeginReplacementDoes | apps/api/src/modules/hub-auth/service.ts:116-134 | A transaction that is to replace a session expects the identity read from it and expires the transaction time from now |
| HubRequests.FirstLoginDoes | apps/api/src/modules/hub-auth/service.ts:175-207 | Every column of the session a first login makes, its refresh token included, or no row changes |
| HubRequests.ReplacingLoginDoes | apps/api/src/modules/hub-auth/repository.ts:151-307 | Every column of both sessions and both audit events of a replacing login, or no row changes |
| HubRequests.NormalizedEqualIff | apps/api/src/modules/hub-auth/service.ts:179-184 | The service takes two issuers for the same if and only if they differ in slashes at the end at most |
| HubRequests.LookupReads | apps/api/src/modules/hub-auth/repository.ts:310-333 | A lookup finds exactly sessions that are neither revoked, expired nor idle too long |
| HubRequests.LookupNotes | apps/api/src/modules/hub-auth/repository.ts:335-338 | Its second statement writes the time and nothing else, and the request goes on with the row it read |
| HubRequests.RefreshDoes | apps/api/src/modules/hub-auth/repository.ts:354-364 | A rotated token reaches exactly the session it was rotated for, unless revoked by then |
| HubRequests.LogoutDoes | apps/api/src/modules/hub-auth/repository.ts:366-408 | The first logout revokes, takes the token away and is recorded; a second changes nothing |
| HubSessionProofs.RevokedHoldsNoToken | apps/api/src/modules/hub-auth/service.ts:282-312 | In every interleaving of reading, refreshing, writing, replacement and logout, a revoked session holds no refresh token |
| HubSessionProofs.RefusedForeverIff | apps/api/src/modules/hub-auth/repository.ts:309-338 | A session is refused in every continuation if and only if it is revoked, past its absolute time, or idle too long with no lookup half way |
| HubSessionProofs.RefusedOnceIsRefusedForever | apps/api/src/modules/hub-auth/repository.ts:309-352 | While no lookup is half way, refused now is refused forever, idle sessions included |
| HubSessionProofs.IdleSessionIsRevived | apps/api/src/modules/hub-auth/repository.ts:335-338 | A run in which a session is refused as idle and then accepted again |
| HubSessionProofs.ReplacementSucceedsIff | apps/api/src/modules/hub-auth/service.ts:175-207 | A replacing login succeeds if and only if the service's identity check and the store's exact condition both hold; otherwise no session changes |
| HubSessionProofs.TrailingSlashIsRefusedByTheStore | apps/api/src/modules/hub-auth/service.ts:182-184 | For every account, a run in which the service takes the identity for the same, the store does not, and nothing changes; it needs an issuer that was reconfigured by a slash in between |
| HubIdentities.OneIssuerLoginReplacesIff | apps/api/src/modules/hub-auth/oidc-provider.ts:82-150 | In every run whose logins come from one issuer the two identity checks agree, and a replacing login goes through if and only if it is the same account and the session is neither revoked nor expired |
| HubStore.HubAuthStore.CreateTransaction | apps/api/src/modules/hub-auth/repository.ts:78-111 | Adds the row under a new token and nothing else |
| HubStore.HubAuthStore.ConsumeTransaction | apps/api/src/modules/hub-auth/repository.ts:113-149 | Deletes and returns the row at once, so a second call finds nothing |
| HubStore.HubAuthStore.InsertSession | apps/api/src/modules/hub-auth/repository.ts:151-307 | Revokes the replaced session, inherits its expiry and inserts the new one, or rolls everything back |
| HubStore.HubAuthStore.GetSession | apps/api/src/modules/hub-auth/repository.ts:309-352 | Finds exactly the accepted sessions and notes that they were seen |
| HubStore.HubAuthStore.UpdateRefreshToken | apps/api/src/modules/hub-auth/repository.ts:354-364 | Writes nothing to a revoked session |
| HubStore.HubAuthStore.RevokeSession | apps/api/src/modules/hub-auth/repository.ts:366-410 | Revokes once, drops the refresh token, and leaves other sessions alone |
| Messages.HistoryKeepsEveryBody | apps/api/src/modules/kirim/message-state.ts:74-104 | For every run of edits with a text and deletions, of officers and from the engine: kept bodies plus the current one are the original plus the requested ones, adjacent repeats removed, cut at the first deletion |
| Messages.NoBodyIsLost | apps/api/src/modules/kirim/message-state.ts:74-94 | The same for every run, blank edits included: adjacent repeats aside, every text given before the first deletion is kept, in order |
| Messages.HistoryOnlyGrows | apps/api/src/modules/kirim/actions.ts:338-352 | In every run no row and no deletion is removed or given another text or time, only "made on the phone" becomes someone else's, and the first new row keeps the body that was there |
| Messages.EditOrdersConverge | apps/api/src/modules/kirim/actions.ts:151-159 | Officer first or echo first, with any changes of anyone in between: same body, same kept bodies, same deletion |
| Messages.EditAttributionIff | apps/api/src/modules/kirim/actions.ts:338-346 | With anything in between, other officers included: the two orders agree on who made what if and only if nothing in between ended on another text, the echo's row is first handed to this officer, and every other row to the same one in both |
| Messages.EngineEditAttributionIff | apps/api/src/modules/kirim/actions.ts:338-346 | With engine reports only in between, the same told from the times: the echo's row is the latest and at most five minutes old |
| Messages.NewerTextIsReplacedIff | apps/api/src/modules/kirim/message-state.ts:80-92 | A late echo takes a newer text away if and only if nobody deleted the message and the last text in between is another one; the newer text is then a kept body |
| Messages.DeleteOrdersConverge | apps/api/src/modules/kirim/actions.ts:193-199 | Both orders delete with the same bodies, whatever is in between; with engine reports in between, same attribution if and only if the deletion is at most five minutes old |
| Messages.DeleteAttributionIff | apps/api/src/modules/kirim/actions.ts:347-351 | With anything in between, the two orders of a deletion agree if and only if this officer is the first of all who ask while the echo is at most five minutes old |
| MessageChanges.EngineEditDoes | apps/api/src/modules/kirim/message-state.ts:74-93 | Every column an edit writes, or nothing for a deleted message and a text it has |
| MessageChanges.EngineDeleteDoes | apps/api/src/modules/kirim/message-state.ts:96-104 | The first deletion is stored with its time and name, a later one changes nothing |
| MessageChanges.OfficerEditDoes | apps/api/src/modules/kirim/actions.ts:152-157 | An officer's edit is stored like any other; with nothing to edit, the row changed last is put in the officer's name if it came from the phone less than five minutes ago |
| MessageChanges.OfficerDeleteDoes | apps/api/src/modules/kirim/actions.ts:194-196 | The same for a deletion |
| Messages.Latest | apps/api/src/modules/kirim/actions.ts:344 | The row the ordering picks: greatest time, and of equals the last inserted |
| Messages.MessageRow.StoreEdit | apps/api/src/modules/kirim/message-state.ts:74-94 | The row after the statements is the edit function of the row before, and the answer says whether anything changed |
| Messages.MessageRow.StoreDelete | apps/api/src/modules/kirim/message-state.ts:96-104 | The first deletion stands and keeps the body |
| Messages.MessageRow.FindLatest | apps/api/src/modules/kirim/actions.ts:344 | A scan finds that row |
| Messages.MessageRow.StoreOfficerEdit | apps/api/src/modules/kirim/actions.ts:151-159 | Edit, or put the echo's attribution right |
| Messages.MessageRow.StoreOfficerDelete | apps/api/src/modules/kirim/actions.ts:193-199 | Delete, or put the echo's attribution right |
| Reactions.AlwaysWellKept | apps/api/src/modules/kirim/message-state.ts:106-138 | After any sequence of reactions there is one entry per reactor and at most 1024 |
| Reactions.LastWordStands | apps/api/src/modules/kirim/message-state.ts:113-138 | While no more than 1024 reactors are present, the list is the map in which each reactor's last word stands |
| Reactions.LastWordIs | apps/api/src/modules/kirim/message-state.ts:118-122 | What a reactor has in that map is its last input, taken back if that was empty |
| Reactions.OverflowEvictsOldest | apps/api/src/modules/kirim/message-state.ts:136-137 | A new reactor on a full list removes exactly the entry changed longest ago |
| Reactions.ChangeMovesToEnd | apps/api/src/modules/kirim/message-state.ts:128-137 | A changed emoji moves the reactor to the end and keeps all others in order |
| Reactions.RepeatChangesNothing | apps/api/src/modules/kirim/message-state.ts:122-127 | The same input twice is the same as once |
| MessageChanges.TakingBackDoes | apps/api/src/modules/kirim/message-state.ts:119-121 | An empty reaction takes exactly the reactor's entry out |
| MessageChanges.RepeatingDoes | apps/api/src/modules/kirim/message-state.ts:122-127 | The emoji that is there already gets the officer's name at most |
| MessageChanges.ReactingDoes | apps/api/src/modules/kirim/message-state.ts:128-137 | Any other emoji goes behind everybody else's as it was given, and the last 1024 entries stay |
| MessageChanges.OwnReactionsAre | apps/api/src/modules/kirim/actions.ts:226-230 | The officer's reaction and its echo are this number's own, with and without the officer's name |
| Reactions.ReactionOrdersConverge | apps/api/src/modules/kirim/actions.ts:227-233 | Officer first or echo first, with any reactions of anyone in between: the same reactors in the same order with the same emoji, and everything of other reactors the same |
| Reactions.ReactionCreditIff | apps/api/src/modules/kirim/message-state.ts:122-137 | With anyone's reactions in between, the orders are the same up to time if and only if the reaction was taken back or the own entry still has its emoji and officer when the echo comes |
| Reactions.ReactionCreditWhileItFits | apps/api/src/modules/kirim/message-state.ts:106-137 | While no more than 1024 reactors are present, that can be told from this number's own inputs alone |
| Reactions.OwnStaysWhileItFits | apps/api/src/modules/kirim/message-state.ts:106-137 | While no more than 1024 reactors are present the own entry is not evicted |
| SendPolicy.TextOrderIsTimeOrder | apps/api/src/modules/kirim/admin.ts:33 | Of clock times, text order is time order |
| SendPolicy.SecondsAddNothing | apps/api/src/modules/kirim/worker.ts:60 | The time the database hands over with seconds means the same |
| SendPolicy.AdminCheckGivesRealWindow | apps/api/src/modules/kirim/admin.ts:240-242 | The admin check on text leaves every number a window in every day |
| SendPolicy.WindowNamesNextOpening | apps/api/src/modules/kirim/policy.ts:17-27 | Open exactly at open instants; otherwise the instant named is open, within a day, and no instant before it is |
| SendPolicy.NextOpeningIsOpenIff | apps/api/src/modules/kirim/policy.ts:25-26 | The instant a closed window names is ahead, within a day, and it is open if and only if the start is before the end |
| SendPolicy.DecisionIsExact | apps/api/src/modules/kirim/policy.ts:33-56 | Send iff permitted now and in time; wait for the first permitted instant; expire iff no permitted instant is left |
| SendClock.WrittenTimeIs | apps/api/src/modules/kirim/policy.ts:7-11 | A time written HH:MM or HH:MM:SS is read as its hours, minutes and seconds in milliseconds |
| SendClock.OnlyWrittenTimesAreRead | apps/api/src/modules/kirim/policy.ts:8-9 | Nothing but two or three two-digit numbers with colons is read |
| SendClock.ClockTimeIff | apps/api/src/modules/kirim/admin.ts:33 | The form accepts exactly the minutes of a day |
| SendClock.WindowIsByTheClock | apps/api/src/modules/kirim/policy.ts:17-25 | The window is open exactly while the time on the WIB clock, as text, is at or after the start and before the end |
| SendClock.DecisionIsByTheClock | apps/api/src/modules/kirim/policy.ts:33-56 | The whole decision told from what the WIB clock reads |
| SendClock.DayStartIsMidnight | apps/api/src/modules/kirim/policy.ts:93-96 | The day of an instant starts at WIB midnight, at most a day before it |
| SendPolicy.AdvanceStatusIs | apps/api/src/modules/kirim/policy.ts:79-83 | Only a step forward is a change, and it leads to what the receipt says |
| SendPolicy.ReceiptsInAnyOrder | apps/api/src/modules/kirim/policy.ts:79-84 | After any receipts in any order only which kinds arrived matters, and nothing moves back |
| SendRate.GapIsTwoToSixSeconds | apps/api/src/modules/kirim/policy.ts:70-73 | The gap is between two and six seconds for every random number, ends included |
| SendRate.GapIsEvenlySpread | apps/api/src/modules/kirim/policy.ts:70-73 | Each millisecond in between is the gap for one 4001st part of the random numbers |
| SendRate.MaySendIff | apps/api/src/modules/kirim/worker.ts:66-82 | The worker sends exactly while fewer messages than the rate left in the sixty seconds before the check, and not before the gap is over, unless it was restarted |
| SendRate.RateHoldsInEveryMinute | apps/api/src/modules/kirim/worker.ts:66-84 | In every run no half-open minute holds more sends than the rate in force at the last of them |
| SendRate.ConstantRateHolds | apps/api/src/modules/kirim/policy.ts:65-67 | With rates up to a bound throughout, no half-open minute holds more than the bound |
| SendRate.GapsAddUp | apps/api/src/modules/kirim/worker.ts:67-82 | Each further send in a minute is two seconds later, except across a restart |
| SendRate.AtMostThirtyAMinute | apps/api/src/modules/kirim/policy.ts:70-73 | At most thirty sends in a half-open minute, plus one for each restart in it |
| SendRate.MinuteHoldsExactly | apps/api/src/modules/kirim/worker.ts:66-84 | At one rate, a minute with `n` sends after a restart can hold `k` sends if and only if `n <= k`, `k <= rate` and `k <= 30 + n` |
| AccessRegistry.RefsDiffer | apps/api/src/modules/application-access/repository.ts:410-412 | Under issuers none of which, with a bar, begins another, two targets are equal only for the same person and application |
| AccessRegistry.RefsUniqueIff | apps/api/src/modules/application-access/repository.ts:410-412 | That condition on the issuers is also necessary |
| AccessRegistry.TablesAreTheLog | apps/api/src/modules/application-access/repository.ts:105-257 | In every reachable state, server starts included: each grant and all governance fields are what replaying the audit log gives; status and address are too, but for a seed since the last upsert, which gives the address, and the status active to an application never upserted |
| AccessRegistry.ApplicationIsTheLogIff | apps/api/src/db/seed.ts:9-20 | An application's status and address are in the log if and only if no seed of it came after its last upsert, or that seed wrote the same address |
| AccessRegistry.SeedIsNotInTheLog | apps/api/src/db/seed.ts:9-20 | A first start leaves no event, and a restart takes an upserted address away |
| AccessRegistry.GrantsAreTheLogIff | apps/api/src/modules/application-access/repository.ts:239-247 | The grants of every run can be read back from the log if and only if no issuer, followed by a bar, begins another |
| AccessRequests.CheckAnswer | apps/api/src/modules/application-access/repository.ts:287-317 | Which of the five answers the access check gives, told from the rows |
| AccessRequests.WorkspaceOrder | apps/api/src/modules/hub-auth/workspace-repository.ts:19-41 | The workspace goes by name, and by key where names are equal |
| AccessRequests.UpsertDoes | apps/api/src/modules/application-access/repository.ts:105-158 | Every column of the row and of the event an upsert writes; every other row stays |
| AccessRequests.SeedDoes | apps/api/src/db/seed.ts:10-21 | The one row a start of the server writes, and no event |
| AccessRequests.SetAccessDoes | apps/api/src/modules/application-access/repository.ts:168-250 | The grant and the event with its target, or nothing for an unknown application |
| AccessRequests.LaunchableIff | apps/api/src/modules/application-access/launcher.ts:22-33 | Which row the launcher leaves out as SQ Hub itself |
| AccessRegistry.WorkspaceIsTheCheck | apps/api/src/modules/hub-auth/workspace-repository.ts:19-41 | The workspace lists an application exactly when the access check allows it, each once, by name and key |
| AccessRegistry.LauncherIsTheWorkspace | apps/api/src/modules/application-access/launcher.ts:16-33 | The launcher is that list in its own order without SQ Hub, nothing missing and nothing added |
| AccessRegistry.AccessTables.UpsertApplication | apps/api/src/modules/application-access/repository.ts:105-166 | Inserts or updates the one row with that key, keeps its governance fields unless they are given, and records it |
| AccessRegistry.AccessTables.SeedApplication | apps/api/src/db/seed.ts:9-20 | Inserts the row or overwrites its name and address, keeps status, governance fields and every grant, and logs nothing |
| AccessRegistry.AccessTables.StoreAccess | apps/api/src/modules/application-access/repository.ts:168-257 | An unknown application changes nothing, not even the log; otherwise grant and event are stored together |
| Migrations.SchemaIsAPrefix | apps/api/src/db/migrate.ts:26-68 | Whatever the runners do and wherever they die, the schema is the scripts of a beginning of the sorted list, each applied once, in order |
| Migrations.HandleKeepsPrefix | apps/api/src/db/migrate.ts:32-60 | One locked transaction skips or applies exactly the next missing file, and never finds a changed checksum in an unedited list |
| Migrations.LaterFilesExtend | apps/api/src/db/migrate.ts:22-24 | A list with more files at its end starts from the same prefix |
| Migrations.PassedMeansApplied | apps/api/src/db/migrate.ts:43-53 | From any database, a runner is past a file only if exactly this text is recorded for it |
| Migrations.SuccessMeansAllApplied | apps/api/src/db/migrate.ts:26-68 | A runner that ends well has every file recorded with this text and lost no earlier record |
| Migrations.AgainChangesNothing | apps/api/src/db/migrate.ts:45-53 | Running again changes nothing |
| Migrations.LaunchedAloneIsTheLoop | apps/api/src/db/migrate.ts:26-68 | A runner left alone on whatever database the others left does what the loop does, and ends well exactly if the loop does |
| Migrations.CrashedIsGone | apps/api/src/db/migrate.ts:26-68 | A runner that died does nothing any more, and its death changes nothing else |
| Migrations.Database.Migrate | apps/api/src/db/migrate.ts:26-68 | The loop does what the specification says, the error included |
| TextOrder.TextLessIff | apps/api/src/modules/kirim/admin.ts:241 | Text order is decided at the first difference, or by which text ends first |
| ChartModel.SlotFor | apps/web/src/governance/chartModel.ts:15-19 | Cutting the hash to 32 bits after every character gives the key read in base 31, cut once |
| ChartModel.HomeIsTheSum | apps/web/src/governance/chartModel.ts:15-19 | The home slot is the sum of the key's units by their places in base 31, cut to 32 bits, over five |
| ChartModel.UnitIs | apps/web/src/governance/chartModel.ts:17 | The unit of a character is itself, or the first of the pair that stands for it |
| ChartModel.SeriesColours | apps/web/src/governance/chartModel.ts:26-36 | The two loops compute the colour function |
| ChartModel.ProbeTakesFirstFree | apps/web/src/governance/chartModel.ts:31 | Probing takes the first free slot of the circle |
| ChartModel.OrderDoesNotMatter | apps/web/src/governance/chartModel.ts:21-25 | Only which keys there are, and how often, decides the colours |
| ChartModel.FiveGetDifferentColours | apps/web/src/governance/chartModel.ts:29-34 | Up to five entries get different colours |
| ChartModel.DifferentColoursIff | apps/web/src/governance/chartModel.ts:29-34 | Without repeated keys, which the contract of a chart guarantees (apps/api/src/modules/governance/contract.ts, lines 64 and 76), the colours differ if and only if there are five keys at most |
| ChartModel.RepeatsCanShare | apps/web/src/governance/chartModel.ts:29-34 | For keys the contract refuses: one repeated five times uses up the palette, and the next may share its colour |
| ChartModel.RepeatedExample | apps/web/src/governance/chartModel.ts:29-34 | Such keys, refused by the contract |
| ChartModel.LaterSeriesChangeNothing | apps/web/src/governance/chartModel.ts:29-34 | Keys that sort later change no colour that is there |
| ChartModel.AbsenceChangesNothingIff | apps/web/src/governance/chartModel.ts:21-25 | Colours survive the absence of any other series if and only if no two home slots collide |
| ChartModel.AbsenceCanRecolour | apps/web/src/governance/chartModel.ts:21-25 | Two keys of one chart for which it fails |
| ChartModel.LineSegments | apps/web/src/governance/chartModel.ts:162-178 | The segments joined are the values that are there with their places; each is without gaps, and there is a gap between any two |
| ChartModel.SplitIsUnique | apps/web/src/governance/chartModel.ts:161-178 | There is only one such split |
| Base64Url.EncodeDecode | apps/api/src/modules/kirim/crypto.ts:42 | What is encoded decodes to itself and holds no separator |
| Base64Url.DigitIsTheTable | apps/api/src/modules/kirim/crypto.ts:41 | The digits written are those of table 2 of RFC 4648 |
| Base64Url.ValueIsTheTables | apps/api/src/modules/kirim/config.ts:129 | The digits read are those of tables 1 and 2 of RFC 4648 |
| Base64Url.BlockHasTheBits | apps/api/src/modules/kirim/crypto.ts:41 | Three bytes are four digits with the same bits, one or two at the end are filled up with zeros |
| Base64Url.EncodeInBlocks | apps/api/src/modules/kirim/crypto.ts:41 | Text is written block by block |
| Base64Url.PlainIsReadBack | apps/api/src/modules/kirim/config.ts:129 | Bytes in the plain alphabet with padding are read back as well |
| DataKeys.SplitJoin | apps/api/src/modules/kirim/crypto.ts:42-46 | Splitting gives back exactly the parts that were joined |
| DataKeys.ParseDataKeys | apps/api/src/modules/kirim/config.ts:122-136 | Accepts exactly the lists without a fault, giving distinct valid ids with 32-byte keys in order; otherwise reports the first faulty entry |
| DataKeys.WrittenListIsAccepted | apps/api/src/modules/kirim/config.ts:121-136 | Every list of keys can be written down so that it reads back as itself |
| SealedForms.ValidKidIff | apps/api/src/modules/kirim/config.ts:130 | A key id is one to thirty-two characters of a fixed alphabet |
| SealedForms.FaultIs | apps/api/src/modules/kirim/config.ts:126-135 | What is wrong with an entry, in the order it is looked for |
| SealedForms.TrimIs | apps/api/src/modules/kirim/config.ts:123 | Trimming leaves what stands between the white space at either end |
| SealedForms.EntriesOfParts | apps/api/src/modules/kirim/config.ts:123 | The list is cut at its commas, and a part of white space is no entry |
| SealedForms.KeyOfIs | apps/api/src/modules/kirim/config.ts:127-129 | The first colon parts id and key; without one there is no id |
| SealedForms.PlainKeyIsRead | apps/api/src/modules/kirim/config.ts:127-129 | A key written in the plain alphabet is read as well |
| Envelope.KeyIsFound | apps/api/src/modules/kirim/crypto.ts:26 | With distinct ids, a key is found under its id exactly if it is in the list |
| Envelope.SealedOpensIff | apps/api/src/modules/kirim/crypto.ts:34-67 | A sealed value opens to the original under any list with that key if and only if its id is not empty and has no dot |
| Envelope.RotationKeepsValues | apps/api/src/modules/kirim/crypto.ts:34-67 | What one configured list sealed, every later one that keeps the key opens |
| Envelope.OpensIff | apps/api/src/modules/kirim/crypto.ts:46-67 | An envelope opens to a value if and only if its parts are those of sealing that value under a known key |
| SealedForms.KeyForIs | apps/api/src/modules/kirim/crypto.ts:26 | Of two keys under one id the later is used |
| SealedForms.SealedReads | apps/api/src/modules/kirim/crypto.ts:34-42 | A sealed value reads v1, key id, nonce, ciphertext and tag between dots, or why there is none |
| SealedForms.OpenAnswer | apps/api/src/modules/kirim/crypto.ts:44-62 | Why an envelope does not open: its form, its key, or the cipher, looked at in that order |
| Envelope.FrameComesApart | apps/api/src/modules/kirim/crypto.ts:78-91 | A sealed file splits back into exactly its parts, an empty one included |
| SealedForms.SealedFileReads | apps/api/src/modules/kirim/crypto.ts:65-73 | A sealed file byte by byte |
| SealedForms.OpenFileAnswer | apps/api/src/modules/kirim/crypto.ts:75-94 | When a file is refused for its form, and when for its key |
| Envelope.RotationKeepsFiles | apps/api/src/modules/kirim/crypto.ts:70-101 | The same rotation property for files |
| Envelope.FileOpensIff | apps/api/src/modules/kirim/crypto.ts:81-101 | Every file: one long enough for its key id opens to data if and only if, with that id cut to seven bits, it is the frame some known key gives that data; a shorter one opens if and only if its last bytes are the tag of nothing, and then to nothing |
| BusinessHours.NeighbourCheckIsNoOverlap | apps/api/src/modules/kirim/business.ts:65-68 | The check of neighbours after sorting passes if and only if no minute lies in two ranges |
| BusinessHours.RangeOkIff | apps/api/src/modules/kirim/business.ts:62-64 | A range is a minute of the day and a later one, or the day's end, written HH:MM and 24:00 |
| BusinessHours.RequestIsAcceptedIff | apps/api/src/modules/kirim/business.ts:54-77 | The form accepts exactly one to seven different days with one to six ranges each, of which none overlap |
| BusinessHours.EngineDayIsTight | apps/api/src/modules/kirim/business.ts:112-121 | The engine's interval holds every open minute, begins and ends with one, and is 24 hours exactly if the first and the last minute of the day are open |
| BusinessHours.EngineDayIsSmallest | apps/api/src/modules/kirim/business.ts:106-109 | No smaller interval covers the day's ranges |
| BusinessHours.EngineDaysAreTheRequested | apps/api/src/modules/kirim/business.ts:110-122 | Each requested day once, in the order of the week, and no other |

## Left out

- CardRuns.RunKeepsValid: the command-line `route add` and `route remove`, which may take away a card's last route by design, are not actions of the model.
- CardRuns.RunKeepsValid: a number is addressed by its id; in the source codes stand for ids one to one, except that a code in a web address is looked up again at each read.
- CardRuns.RunKeepsValid: one transaction is one step; the row and advisory locks that make it so are not modelled.
- CardRights.ConnectEffect: the label, the search for a free code and the resolution of an application to its module row (with its own refusals) are arguments.
- CardService.ModuleCards.Reconnect: the engine calls before the transaction and the choice of a free engine tenant are not modelled; their result is an argument.
- HubSessionProofs.RefusedForeverIff: the database clock and the clock of the process are one clock.
- HubSessions: a session is addressed by its id everywhere, where the source also uses the hash of its token; both are unique and never change. Tokens are never guessed.
- HubSessions: cookies, identity provider calls and what the vault does to a refresh token; a failed call is a dropped request.
- Messages: the order in which the history is shown (by time, not by insertion), the time windows and ownership checks before an edit, and webhooks.
- Reactions: where a reaction came from (`dari`) travels with the reactor; malformed stored entries are not modelled.
- SendRate.RateHoldsInEveryMinute: one worker process per database, the counted sends are those of the worker, and the clocks of process and database agree.
- SendRate.GapIsTwoToSixSeconds: real arithmetic in place of floating point.
- SendPolicy: retry delays and webhook delays, which are tables.
- AccessRegistry.TablesAreTheLog: names and times of applications are not in the log and not compared; the columns the WhatsApp module keeps on an application are not modelled.
- AccessRegistry.WorkspaceIsTheCheck: text is ordered character by character; the database's collation is another total order. Timestamps are left out.
- Migrations.SchemaIsAPrefix: a script stands for its checksum, and its effect on the schema for one entry; scripts that commit on their own are outside the model.
- ChartModel.OrderDoesNotMatter: the order of text is an argument, any total order; the source compares UTF-16 units.
- ChartModel.SlotFor: characters are code points; a lone surrogate cannot be written.
- Envelope.OpensIff: the cipher is an argument that locks and unlocks exactly, under nonces of any length but none; real cryptography, nonces that repeat and the text encoding of the plaintext are outside the model.
- Base64Url.EncodeDecode: decoding ignores characters that are no digits and stops at padding, as the runtime documents; nothing is stated about such texts.
- BusinessHours.EngineDaysAreTheRequested: the time zone is passed through and its name is not checked; days are numbers, one to seven for Monday to Sunday.
- Chat labels, quick replies, the catalogue, phone number masking, webhook signatures, tables and number formats of the charts: single expressions without state.
- Platform administration proposals, staff lifecycle, the web pages and the other HTTP clients: not modelled.
