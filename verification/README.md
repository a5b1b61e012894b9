# Proofs about fir's credential store, extension bridge and search

This project models the stateful core of fir in Dafny and proves what holds over every input, every interleaving and
every run. Code that changes fields in place is a class or a method with the source's loops, proved against a
specification function; what the source promises is then proved about those functions. Code that runs in several
goroutines or processes is a transition system whose steps are the source's critical sections, and its properties are
proved for every run.

| file | what it models |
|---|---|
| `Wrappers.dfy` | the optional value the modules share |
| `Text.dfy` | splitting, joining, the bytewise order and decimal printing, with the laws the rest uses |
| `Generations.dfy`, `ProductLine.dfy` | reading a model id into shape and version vector; comparing generations; picking the newest |
| `Slots.dfy` | the slot keys `provider` and `provider#account`, and the search for a free `accountN` |
| `Credentials.dfy` | credentials, account identity, the refresh window, metadata carried over a refresh |
| `AuthData.dfy`, `AuthPolicy.dfy` | the credential map: batches, promotion, login, store, logout, and the default-account invariant |
| `AuthStorage.dfy` | the `AuthStorage` object and the file, method by method, with failing I/O and foreign writes |
| `SharedFile.dfy` | any number of processes over one locked `auth.json`, step by step |
| `RefreshTokens.dfy` | refresh tokens over those runs (section 6 of RFC 6749): when none is ever spent twice, and what each writer has to do with it |
| `AuthRuns.dfy` | staleness, cache and file over runs, and the link from the object's methods to `SharedFile` and `AuthPolicy` |
| `Fleet.dfy` | any number of `AuthStorage` objects over one file, interleaved outside the lock, refining `SharedFile` |
| `AccountModels.dfy` | what a named account's provider does to the model list |
| `BridgeCalls.dfy`, `CallDeadline.dfy` | pending calls of the extension bridge (section 5 of the JSON-RPC 2.0 specification) and their deadline |
| `Ownership.dfy` | who holds which extension process while starts, stops and reloads race |
| `Wiring.dfy` | callbacks handed to running extensions while others start |
| `AuthConflicts.dfy` | auth providers: registration by all extensions at once, conflict resolution, which edits the registry while it scans, and reloads |
| `ParallelSearch.dfy` | the worker pool of the session search against a sequential scan |
| `Handoff.dfy` | messages carried over a context handoff |

I/O enters as data: an `Io` value says whether a locked section works, a `seq<Content>` holds the writes of other
processes that land at a point without the lock, a grant is an argument, clocks are integers, and a change stamp of the
file is the number of writes so far (every write is assumed to change the stamp).

## Where the code and its comments differ

The model follows the code. Each difference has a lemma with a concrete input, or an exact condition.

- `LoginAccountOpts` (pkg/auth/authstorage.go:793-795) says a new identity cannot collide with a stored account. It evicts one
  exactly when the slot the identity spells is taken (`NewIdentityEvictsExactly`); `DemotedAccountEvicted` is a case.
- `refreshOAuthLocked` (pkg/auth/refresh.go:160-163) says two processes never consume one token. With nobody at work, refreshes
  will never do so if and only if no OAuth slot holds a spent token and no two share one (`NeverRespendsExactly`), and a write
  leaves it so if and only if it is clean (`WriteIsSafeExactly`). Removals and logins are clean; `SetDefaultAccount` is so exactly
  when the two credentials it moves are usable (`PromotionIsCleanExactly`), which it could check under the lock by comparing
  them with the file (`CheckedPromotionIsClean`). It does not, and `StalePromotionRun` is a run from the start, without a forced
  refresh, in which two processes spend one token.
- A write adopts the new stamp after the lock is released. The next staleness check then misses a write of another process
  exactly when a readable one slipped in between and left something else (`SetAdoptsStampExactly`).
- `Reload` keeps the cache on a corrupt file; a locked refresh empties it (`CorruptReadKeepsCache`, `CorruptRefreshEmptiesCache`).
- "A provider that still holds accounts must keep a default" (pkg/auth/authstorage.go:922-927): each operation keeps that exactly
  when `Safe` holds; an explicit account name and a default logout with two others left are the exceptions (`StepKeepsExactly`), with
  instances in `NamedFirstLogin` and `LogoutLeavesTwo`.
- A refresh keeps the identity exactly as `RefreshIdentity` says; a grant with a blank identity key moves the account to
  another identity (`BlankIdentityMovesAccount`).
- `resolveAuthConflicts`: an extension that declares one id twice is taken for its own rival and ends up without it
  (`ConflictsResolved` is an if-and-only-if, `DoubleDeclarationLosesId` an instance).
- `ReloadOne` registers again without resolving conflicts. Every id is still served by its winner if and only if the reload is
  refused, as it is of a builtin, or harmless (`ReloadKeepsWinnersExactly`); `ReloadStealsId` is a harmful one.
- `ReloadOne` drops every bridge of the name but stops only the last one. A process is orphaned exactly when two run under
  that name (`ReloadTakeExactly`), which a reload during a start brings about (`HastyReloadOrphans`).
- `SetNotifyFn` and `SetSetStatusFn` reach the bridges after the lock is released. Installing a callback settles right, however the
  setters under way go on, if and only if those that still have one of the manager's bridges to reach carry the same callback
  (`InstallIsSafeExactly`); `OverlappingSettersDisagree` is a run in which an older setter has the last word.
- A handoff whose new session cannot be created (pkg/modes/interactive/commands.go:690-694, pkg/modes/acp/methods.go:303-306) has
  consumed its request: what was queued is gone (`QueueIsConserved` says when all arrives), a message newer than the request is
  taken for delivered (`FailureForgetsNewer`), and one delivered before may be carried again, exactly when `FailureReplaysExactly`
  says so; `FailedHandoffReplays` is a run.

## Model

| member | source | states |
|---|---|---|
| `ProductLine.DottedDigitsMeaning` | pkg/ai/family.go:329-341 | the character-by-character test holds exactly of non-empty digit groups joined by single dots |
| `ProductLine.SegmentExactly` | pkg/ai/family.go:296-301 | a segment carries a version if and only if it is dot-joined digit groups, alone or behind a single ASCII letter |
| `ProductLine.StampExactly` | pkg/ai/family.go:307-310 | a digit group counts as a version number if and only if it is a number below 1000 as printed in decimal |
| `Text.ValueIsPositional` | pkg/ai/family.go:311-314 | digits count by position, the first ones most |
| `Text.LessExactly` | pkg/ai/family.go:365-367 | the order of ids and names is by the first byte that differs, a proper prefix first |
| `ProductLine.ReadVersion` | pkg/ai/family.go:299-311 | the numbers of a version segment are read in order, and one stamp-like group makes the whole segment unreadable |
| `ProductLine.ReadProductLine` | pkg/ai/family.go:291-326 | the scan over the segments, with its run flag, computes the specified line or reports that there is none |
| `ProductLine.OrderableExactly` | pkg/ai/family.go:283-326 | an id is orderable if and only if some segment carries a version and none carries a stamp |
| `ProductLine.ReadBack` | pkg/ai/family.go:269-326 | for an id without `#`: putting one version text in place of each `#` of the shape gives the id back, the digit groups of those texts are the vector printed in decimal, and every element is below 1000 |
| `ProductLine.SameShapeSameText` | pkg/ai/family.go:269-326 | two ids of one shape are that shape with their own version texts put in, and those texts' digit groups are their vectors |
| `ProductLine.SameLineSameGroups` | pkg/ai/family.go:269-326 | ids of one shape and one vector have the same digit groups, so they differ in separators only |
| `ProductLine.ShapeCollapses` | pkg/ai/family.go:309-323 | no two adjacent pieces of a shape are both `#`: adjacent pure versions always become one |
| `ProductLine.NewestInProductLine` | pkg/ai/family.go:353-370 | the scan over the candidates computes the specified choice |
| `ProductLine.StripDottedPrefixes` | pkg/ai/family.go:50-64 | the restarting loop stops, and leaves what follows the last strippable dot of the original id |
| `ProductLine.PrefixesAreStripped` | pkg/ai/family.go:50-64 | of `us.ai.m-1` only `m-1` is left |
| `ProductLine.VersionDotsStay` | pkg/ai/family.go:50-64 | `m-3.5` is left as it is |
| `Generations.CompareGenerations` | pkg/ai/family.go:216-233 | the loop over positions computes the recursive comparison of two vectors of any lengths |
| `Generations.CompareIsLexicographic` | pkg/ai/family.go:214-233 | comparing is lexicographic order on the vectors padded with zeros, in all three outcomes |
| `Generations.CompareAntisymmetric` | pkg/ai/family.go:214-233 | swapping the arguments negates the result |
| `Generations.CompareTransitive` | pkg/ai/family.go:214-233 | "not newer" is transitive, and strict if either step is |
| `Generations.NewestIsRight` | pkg/ai/family.go:347-370 | the choice is the anchor unless some candidate of its line is strictly newer, and otherwise the smallest id among those of the greatest generation |
| `Generations.NewestUnique` | pkg/ai/family.go:347-370 | only one id meets that description |
| `Generations.NewestIgnoresOrder` | pkg/ai/family.go:347-370 | permuting or repeating candidates does not change the choice |
| `Generations.NewestIdempotent` | pkg/ai/family.go:347-370 | choosing again from the chosen id gives the same id |
| `Generations.NewestMonotone` | pkg/ai/family.go:347-370 | more candidates never move the choice to an older generation or another line |
| `Slots.SplitSlotKey` | pkg/auth/accounts.go:44-61 | splitting undoes composing for a provider without `#`, with "default" read as the empty account |
| `Slots.SlotKeySplit` | pkg/auth/accounts.go:44-61 | composing undoes splitting exactly for keys other than `p#` and `p#default` |
| `Slots.SlotKeyInjective` | pkg/auth/accounts.go:44-51 | two provider and account pairs never share a slot |
| `Slots.AheadShrinks` | pkg/auth/accounts.go:246-250 | each taken `accountN` the counter passes leaves strictly fewer taken slots ahead: the loop's measure |
| `Slots.FirstFree` | pkg/auth/accounts.go:246-250 | the result is not taken and every smaller counter from the start is |
| `Slots.NextNumberedSlot` | pkg/auth/authstorage.go:912-917 | the unbounded loop stops at a slot nothing occupies, which splits back into the provider and that account |
| `Credentials.Sanitize` | pkg/auth/authstorage.go:853-855 | only `#` is replaced, character for character, and none is left |
| `Credentials.MergeMissing` | pkg/auth/refresh.go:268-277 | whatever order the map is ranged over, the previous entries are added and the new ones win |
| `Credentials.CarryAccountMetadata` | pkg/auth/refresh.go:263-282 | the imperative merge computes the specified credential |
| `Credentials.NeedsRefreshExactly` | pkg/auth/refresh.go:139-147 | a credential is due if and only if it has an expiry that has passed or falls within a positive window |
| `Credentials.IdentityFrom` | pkg/auth/authstorage.go:827-837 | the identity is the first text under accountId, account_id, email, label |
| `Credentials.LabelIsFrom` | pkg/auth/authstorage.go:840-850 | the label is the first text under label, email, accountId, account_id |
| `Credentials.RefreshedExactly` | pkg/auth/refresh.go:254-282 | a refreshed credential has the grant's tokens, expiry and account data, the previous label, and the previous account data if and only if the grant names no account |
| `Credentials.LiftKeepsIdentity` | pkg/auth/authstorage.go:701-747 | lifting the legacy project column does not affect the account identity |
| `Credentials.RefreshIdentity` | pkg/auth/refresh.go:254-282 | exactly which label and identity a refreshed credential has, for every previous credential and grant |
| `Credentials.IdentityStable` | pkg/auth/refresh.go:254-282 | over any number of refreshes the label is kept, and the identity too if the grants name it or bring no identity key |
| `Credentials.QuietKeeps` | pkg/auth/refresh.go:263-282 | one such refresh keeps the identity |
| `Credentials.BlankIdentityMovesAccount` | pkg/auth/refresh.go:267-277 | a grant with a blank account id moves the account from its id to its email |
| `AuthData.BatchPointwise` | pkg/auth/authstorage.go:457-472 | an ordered batch applied to any map leaves each named slot as its change says and no other slot changed |
| `AuthData.HasDefaultIsBare` | pkg/auth/authstorage.go:875-887 | scanning the listing for an empty account is the same as looking for the bare slot, when all keys are canonical |
| `AuthData.MCPSlot` | pkg/auth/accounts.go:38-51 | a slot of a provider is an MCP key if and only if the provider is |
| `AuthData.FreeSlotIsFree` | pkg/auth/accounts.go:223-251 | the slot for a demoted credential is free or just vacated, is not the bare slot, and belongs to the provider |
| `AuthData.DemotedKeepsItsName` | pkg/auth/accounts.go:237-245 | a demoted credential goes to the slot of its identity, else of its label, if that is free or just vacated |
| `AuthData.BatchIsPromotion` | pkg/auth/accounts.go:188-218 | the written batch gives the same map as the in-memory moves, also when the demoted credential goes back into the vacated slot |
| `AuthData.BatchOnAnyMap` | pkg/auth/accounts.go:188-218 | on any file, however different from the cache, the batch gives the in-memory result in the slots it names and changes no other |
| `AuthData.PromotionMoves` | pkg/auth/accounts.go:160-221 | the named credential becomes the default, the old default is in a free or vacated slot, and every other slot is as before |
| `AuthData.AccountsAfterPromotion` | pkg/auth/accounts.go:160-221 | which slots the provider has afterwards, and that the uninvolved ones hold what they held |
| `AuthData.PromotionKeepsWallet` | pkg/auth/accounts.go:160-221 | the provider's multiset of credentials is unchanged |
| `AuthData.PromotionLeavesOthers` | pkg/auth/accounts.go:160-221 | the accounts of every other provider are untouched |
| `AuthPolicy.SetSlotExactly` | pkg/auth/authstorage.go:922-927 | writing one slot keeps all defaults if and only if it is the bare slot or the provider has a default |
| `AuthPolicy.AssignedBelongs` | pkg/auth/authstorage.go:859-919 | whatever slot a login is assigned is a canonical slot of that provider; it is bare, or a default exists, if and only if the name given is empty or "default", or a default exists |
| `AuthPolicy.NamedLoginIsApart` | pkg/auth/authstorage.go:872-875 | a login under a name goes to the slot of that name and changes no other, so a default stays |
| `AuthPolicy.FirstLoginIsDefault` | pkg/auth/authstorage.go:877-887 | without a name the first login becomes the default |
| `AuthPolicy.IdentifiedLogin` | pkg/auth/authstorage.go:889-904 | with a default, the default's own identity goes to the default and a new one to the slot it spells |
| `AuthPolicy.NamelessLogin` | pkg/auth/authstorage.go:906-919 | with a default and neither name nor identity, `add` gives a slot nobody has and otherwise the default is replaced |
| `AuthPolicy.LoginStores` | pkg/auth/authstorage.go:815-817 | what is stored has the grant's tokens, expiry, account data and label |
| `AuthPolicy.StoreIsApart` | pkg/auth/authstorage.go:953-989 | with a default, a named store goes to the slot of its name and an unnamed one to a slot nobody has, leaving the default alone |
| `AuthPolicy.StoredAsDefault` | pkg/auth/authstorage.go:966-988 | a store under the name "default" goes to the default |
| `AuthPolicy.StoreKeeps` | pkg/auth/authstorage.go:953-989 | storing an account always keeps the defaults |
| `AuthPolicy.PromoteKeeps` | pkg/auth/accounts.go:175-221 | a promotion gives its provider a default and keeps everybody else's |
| `AuthPolicy.SurvivorPromoted` | pkg/auth/authstorage.go:928-943 | after logging out a default with one other account, that account's credential is in the bare slot, unchanged |
| `AuthPolicy.LogoutDefaultExactly` | pkg/auth/authstorage.go:920-943 | logging out a stored default keeps the invariant if and only if at most two accounts were stored |
| `AuthPolicy.LogoutRemoves` | pkg/auth/authstorage.go:928-943 | a default logout with none or more than one other account removes that slot and nothing else |
| `AuthPolicy.LogoutExactly` | pkg/auth/authstorage.go:920-943 | the same for a logout of any key |
| `AuthPolicy.NamedFirstLogin` | pkg/auth/authstorage.go:872-887 | a first login under a name leaves its provider without a default |
| `AuthPolicy.LogoutLeavesTwo` | pkg/auth/authstorage.go:926-943 | logging out a default with two other accounts left leaves none |
| `AuthPolicy.StepKeepsExactly` | pkg/auth/authstorage.go:859-989 | login, store, promotion and logout each keep a default for every provider if and only if a condition on the call and the stored accounts holds beforehand |
| `AuthPolicy.DefaultsKeptOverRuns` | pkg/auth/authstorage.go:859-989 | over any sequence of such operations every provider that holds an account has a credential in its bare slot |
| `AuthPolicy.RefreshedAccountIsFound` | pkg/auth/authstorage.go:889-904 | after any number of quiet refreshes, a login with the identity of the one account that carries it is assigned the same slot |
| `AuthPolicy.ReloginReplacesItself` | pkg/auth/authstorage.go:889-900 | logging in with a known identity overwrites a slot that carries that identity |
| `AuthPolicy.NewIdentityEvictsExactly` | pkg/auth/authstorage.go:901-904 | a new identity changes no stored slot if and only if the slot it spells is free |
| `AuthPolicy.DemotedAccountEvicted` | pkg/auth/authstorage.go:901-904 | a concrete run in which a demoted account is evicted by a new identity |
| `AuthStorage.BeforeTransitive` | pkg/auth/accounts.go:110-118 | the listing order, default first and then by account, is transitive |
| `AuthStorage.InsertByAccount` | pkg/auth/accounts.go:110-118 | inserting keeps the listing sorted, without repetition, and adds just the key |
| `AuthStorage.AuthFile.Write` | pkg/auth/authstorage.go:136-143 | a write replaces the content and changes the stamp |
| `AuthStorage.AuthFile.Foreign` | pkg/auth/authstorage.go:166-177 | writes of other processes: the last one stands, and each changed the stamp |
| `AuthStorage.AuthStorage.constructor` | pkg/auth/authstorage.go:266-274 | a new store is an empty one reloaded |
| `AuthStorage.AuthStorage.Reload` | pkg/auth/authstorage.go:334-361 | the stamp is from before the locked read; a corrupt file leaves the cache, a failed lock the stamp too |
| `AuthStorage.AuthStorage.ReloadIfStale` | pkg/auth/authstorage.go:383-393 | reloads exactly when the stamp differs from the adopted one |
| `AuthStorage.AuthStorage.PersistChanges` | pkg/auth/authstorage.go:457-479 | one locked read-modify-write of the batch on what the file holds, with every failure path, and the stamp adopted last |
| `AuthStorage.AuthStorage.PersistProviderChange` | pkg/auth/authstorage.go:428-450 | the one-slot form is the batch of one change |
| `AuthStorage.AuthStorage.Set` | pkg/auth/authstorage.go:492-499 | cache and file take the same one-slot change |
| `AuthStorage.AuthStorage.Remove` | pkg/auth/authstorage.go:502-514 | cache and file lose the slot |
| `AuthStorage.AuthStorage.AccountsForProvider` | pkg/auth/accounts.go:92-120 | lists each account of the provider once, default first, then by account id |
| `AuthStorage.AuthStorage.FreeSlotLocked` | pkg/auth/accounts.go:228-251 | computes the specified free slot |
| `AuthStorage.AuthStorage.SetDefaultAccount` | pkg/auth/accounts.go:175-221 | cache gets the moves, the file the batch, errors change nothing, and the demoted slot is returned |
| `AuthStorage.AuthStorage.FindIdentity` | pkg/auth/authstorage.go:890-900 | returns a first account of the listing that carries the identity, if there is one |
| `AuthStorage.AuthStorage.AssignSlot` | pkg/auth/authstorage.go:859-919 | the slot is one the login policy allows: that of an explicit name, the bare one for a first login, a new one for a forced add |
| `AuthStorage.AuthStorage.LoginAccount` | pkg/auth/authstorage.go:804-822 | the credential, with its label, is stored in the assigned slot |
| `AuthStorage.AuthStorage.StoreAccount` | pkg/auth/authstorage.go:953-989 | the account is stored in the slot of the store policy, labelled with the given name |
| `AuthStorage.AuthStorage.Logout` | pkg/auth/authstorage.go:928-943 | removal, then promotion of a sole survivor of a default logout, each as its own locked write, with the error return |
| `AuthStorage.LogoutFailsExactly` | pkg/auth/authstorage.go:928-943 | a default logout with one survivor fails if and only if the provider id is empty or the survivor is spelled "default" |
| `AuthStorage.LogoutCache` | pkg/auth/authstorage.go:928-943 | whatever the file does, the cache after a logout is what the logout policy says |
| `AuthStorage.AuthStorage.RefreshOAuthLocked` | pkg/auth/refresh.go:173-252 | every outcome of the locked refresh: cache, file, stamp, recorded errors, and the token presented |
| `AuthStorage.RefreshPresentsExactly` | pkg/auth/refresh.go:184-217 | from any cache, a locked refresh presents the token on file if and only if it is forced or the expiry on file has passed or falls within the window, and writes if the grant succeeds |
| `AuthStorage.DeclinedRefreshSyncs` | pkg/auth/refresh.go:192-243 | one with nothing to do sets the cache to what it read and leaves the file |
| `AuthStorage.WrittenRefreshRotates` | pkg/auth/refresh.go:206-243 | one that writes leaves the granted tokens in file and cache and every other slot as the file had it |
| `AuthStorage.FailedRefreshKeepsCache` | pkg/auth/refresh.go:224-230 | one that fails keeps the cache and remembers the error for the slot |
| `AuthStorage.FailedLoadBlocksWrites` | pkg/auth/authstorage.go:428-431 | after a load that failed at the lock nothing is written until one succeeds |
| `AuthStorage.ListingDefault` | pkg/auth/authstorage.go:875-884 | scanning a listing for an empty account id decides whether there is a default |
| `AuthStorage.ListingSize` | pkg/auth/authstorage.go:938-941 | a listing has as many entries as the provider has accounts |
| `AuthRuns.LoadersNeverMiss` | pkg/auth/authstorage.go:334-393 | for a process that only loads, under any foreign writes: an adopted stamp equal to the current one means that a parseable file is what is cached |
| `AuthRuns.StaleCheckCatchesUp` | pkg/auth/authstorage.go:383-393 | after any such run one undisturbed check makes the cache the file, or keeps it if the file is corrupt |
| `AuthRuns.CacheIsLastParseableRead` | pkg/auth/authstorage.go:326-361 | over any such run the cache is the last parseable content that a locked read of a load found in the file |
| `AuthRuns.CorruptReadKeepsCache` | pkg/auth/authstorage.go:326-361 | the cache after a reload, for every failure, and unchanged by a corrupt read |
| `AuthRuns.CorruptRefreshEmptiesCache` | pkg/auth/refresh.go:184-235 | a locked refresh of a corrupt file leaves an empty cache and no grant spent |
| `AuthRuns.SetAdoptsStampExactly` | pkg/auth/authstorage.go:443-449 | after a write the next staleness check does nothing, and misses another process's write if and only if a readable one that differs slipped in before the stamp was taken |
| `AuthRuns.SetStaysInSync` | pkg/auth/authstorage.go:428-450 | undisturbed, a one-slot change leaves cache and file equal |
| `AuthRuns.DefaultStaysInSync` | pkg/auth/accounts.go:175-221 | undisturbed, a promotion leaves cache and file equal |
| `AuthRuns.RefreshStaysInSync` | pkg/auth/refresh.go:173-252 | undisturbed, a refresh leaves cache and file equal, whatever its outcome |
| `AuthRuns.CallsArePolicySteps` | pkg/auth/authstorage.go:804-989 | each public call on an object in sync is the policy step on cache and file alike |
| `AuthRuns.FileKeepsDefaults` | pkg/auth/authstorage.go:920-943 | over any run of safe calls the file keeps a default for every provider that holds an account |
| `AuthRuns.RefreshIsAnEvent` | pkg/auth/refresh.go:184-220 | for any I/O outcome and later writes, the object's refresh presents a token, and commits, exactly as the locked section of the process model does |
| `AuthRuns.PersistIsAnEvent` | pkg/auth/authstorage.go:457-472 | for any I/O outcome and later writes, the object's batch write is the committed write of the process model |
| `AuthRuns.AdoptionComesLater` | pkg/auth/authstorage.go:443-449 | a write with others landing before the stamp is adopted is the write, then theirs, then the adoption |
| `AuthRuns.RefreshAdoptionComesLater` | pkg/auth/refresh.go:230-242 | the same for a refresh that writes |
| `AuthRuns.ReadComesLater` | pkg/auth/authstorage.go:337-350 | a load with others landing between stamp and read is the stamp, then theirs, then the read |
| `Fleet.FleetRefines` | pkg/auth/refresh.go:155-164 | for every interleaving of any number of objects there is a run of the process model with the same file, tokens and history |
| `Fleet.FleetHoldsLastWrite` | pkg/auth/authstorage.go:428-478 | in every such interleaving each slot holds what the last committed write naming it left, however stale caches and stamps are |
| `Fleet.FleetChains` | pkg/auth/refresh.go:184-220 | and successive rotations of a slot spend what the one before was granted |
| `Fleet.FleetNeverRespends` | pkg/auth/refresh.go:160-163 | if stored tokens come straight from grants and promotions move what the file holds, no token is spent twice by any of the objects |
| `Fleet.PresentedIsTheObjects` | pkg/auth/refresh.go:192-204 | the token presented is the one the object's locked refresh presents |
| `Fleet.PresentedTwiceOnlyOnFailure` | pkg/auth/refresh.go:160-163 | among such objects a token is presented a second time only if the grant it was first presented for failed |
| `Fleet.PresentedAgainExactly` | pkg/auth/refresh.go:201-209 | after a presentation some forced refresh would present the token again if and only if the grant failed |
| `SharedFile.WriteCommits` | pkg/auth/authstorage.go:166-197 | a write under the lock is one well-formed event on the file as it is at that moment |
| `SharedFile.NextKeepsInv` | pkg/auth/refresh.go:155-220 | every step of every process keeps lock, file and history consistent |
| `SharedFile.RunIsSerial` | pkg/auth/refresh.go:155-164 | in every interleaving the file is the committed writes one after another, and each rotation spent what the file held at its turn |
| `SharedFile.MutualExclusion` | pkg/auth/authstorage.go:147-163 | two processes are never inside the lock together |
| `SharedFile.CommitPointwise` | pkg/auth/authstorage.go:428-472 | a committed write changes the slots it names and no other |
| `SharedFile.LastWriterWins` | pkg/auth/authstorage.go:428-472 | after any history each slot holds what the last write naming it put there, or what it held at the start |
| `SharedFile.DiskHoldsLastWrite` | pkg/auth/authstorage.go:428-478 | in every interleaving, whatever stale caches the writers have, no writer reverts another one's slot |
| `SharedFile.GrantsFormAChain` | pkg/auth/refresh.go:184-220 | successive rotations of a slot form a chain: each spends exactly the token the previous one stored |
| `SharedFile.GrantsAreNeeded` | pkg/auth/refresh.go:192-204 | without force no grant is spent while the credential read under the lock has neither expired nor is to expire within the window |
| `RefreshTokens.BatchSoundExactly` | pkg/auth/authstorage.go:457-472 | a batch leaves no spent and no shared token on disk if and only if a condition on what it writes holds |
| `RefreshTokens.NextKeepsTokens` | pkg/auth/refresh.go:155-220 | every clean step keeps tokens unspent and distinct |
| `RefreshTokens.NoTokenSpentTwice` | pkg/auth/refresh.go:160-163 | in every interleaving with clean writers no refresh token is spent twice, and none on disk is a spent one |
| `RefreshTokens.SpentIsRespent` | pkg/auth/refresh.go:184-220 | from any state a spent token in an OAuth slot is spent again by the next refresh of the slot, forced or due |
| `RefreshTokens.SharedIsRespent` | pkg/auth/refresh.go:184-220 | two slots that share a token: one refresh of each spends it twice |
| `RefreshTokens.NeverRespendsExactly` | pkg/auth/refresh.go:160-163 | with nobody at work, refreshes will never spend a token twice, however they interleave, if and only if no OAuth slot holds a spent token and no two hold one token |
| `RefreshTokens.WriteIsSafeExactly` | pkg/auth/authstorage.go:428-472 | a write keeps that if and only if it is clean |
| `RefreshTokens.SetIsCleanExactly` | pkg/auth/authstorage.go:492-499 | storing one credential is clean if and only if its token is unspent and in no other slot |
| `RefreshTokens.RemovalIsClean` | pkg/auth/authstorage.go:502-514 | a removal always is |
| `RefreshTokens.MintedSetIsClean` | pkg/auth/authstorage.go:810-820 | so is a login, whose token is neither on disk nor spent |
| `RefreshTokens.PromotionIsCleanExactly` | pkg/auth/accounts.go:187-218 | from any cache a promotion is clean if and only if the two credentials it moves are unspent, in no other slot, and do not share a token |
| `RefreshTokens.CheckedPromotionIsClean` | pkg/auth/accounts.go:187-218 | it is if those two credentials are still what the file holds, however stale the rest of the cache |
| `RefreshTokens.CurrentPromotionIsClean` | pkg/auth/accounts.go:175-221 | so it is from a cache that matches the file |
| `RefreshTokens.HonestRunsNeverRespend` | pkg/auth/refresh.go:160-163 | no token is spent twice in any run of refreshes, removals, logins and such promotions |
| `RefreshTokens.StalePromotionRespends` | pkg/auth/accounts.go:187-218 | from any state, a promotion from a cache with a spent token and the next refresh of the default, forced or due, spend that token a second time |
| `RefreshTokens.StalePromotionRun` | pkg/auth/accounts.go:187-218 | a run from the start, without a forced refresh, in which two processes spend one token |
| `RefreshTokens.PromotionIsRenaming` | pkg/auth/accounts.go:175-221 | each slot after a promotion holds what one slot held before, and no two took it from the same one |
| `AccountModels.Table` | pkg/auth/accounts.go:325-330 | the loop builds a table of the last present answer for each id |
| `AccountModels.ModifyModels` | pkg/auth/accounts.go:296-343 | the three loops compute the specified list, "no change" included, for any base provider |
| `AccountModels.MergeBack` | pkg/auth/accounts.go:331-342 | the merge changes the account's own indexes and nothing else |
| `AccountModels.AccountsDoNotInterfere` | pkg/auth/accounts.go:291-343 | for any base provider every index keeps its provider and id, and models of others are untouched |
| `AccountModels.OwnModelAfter` | pkg/auth/accounts.go:322-342 | an own model takes the last present answer with its id, under the slot key, and stays as it is if there is none |
| `AccountModels.ShownIsOwn` | pkg/auth/accounts.go:303-312 | the base provider is shown the account's own models and no other |
| `AccountModels.ShownKeepsOrder` | pkg/auth/accounts.go:303-312 | and in their order, each once |
| `AccountModels.ModifiedExactly` | pkg/auth/accounts.go:313-321 | there is a change if and only if the account has a model and the base provider reports one |
| `AccountModels.AccountsCommute` | pkg/models/modelregistry.go:787-796 | two named accounts give the same list in either order of application |
| `BridgeCalls.Bridge.constructor` | pkg/extension/bridge.go:121-134 | an open, empty table with ids after the handshake's |
| `BridgeCalls.Bridge.TakeID` | pkg/extension/bridge.go:905 | a fresh id, one above the last |
| `BridgeCalls.Bridge.Register` | pkg/extension/bridge.go:908-918 | the channel is entered under its id, or the closed bridge refuses |
| `BridgeCalls.Bridge.Forget` | pkg/extension/bridge.go:920-925 | only that id leaves the table |
| `BridgeCalls.Bridge.RouteResponse` | pkg/extension/bridge.go:742-765 | exactly one delivery, to the registered channel, if the id is pending, and the id is gone |
| `BridgeCalls.Bridge.FailAllPending` | pkg/extension/bridge.go:781-795 | the table is emptied and latched closed, and each pending channel gets one delivery, in whatever order the map is ranged over |
| `BridgeCalls.NextKeepsInv` | pkg/extension/bridge.go:742-983 | every step keeps one response slot per call: in the table, in flight, or sent |
| `BridgeCalls.RunKeepsInv` | pkg/extension/bridge.go:742-983 | so it holds over every interleaving of calls, responses, failures, timeouts, cancellations and closes |
| `BridgeCalls.IdsAreUnique` | pkg/extension/bridge.go:905 | no two calls share an id |
| `BridgeCalls.PendingChannelIsEmpty` | pkg/extension/bridge.go:756-765 | a channel still in the table is empty and has nothing on its way |
| `BridgeCalls.SendsNeverBlock` | pkg/extension/bridge.go:772-775 | every send under way has room, and no channel is ever sent to twice |
| `BridgeCalls.ResponsesReachTheirCaller` | pkg/extension/bridge.go:742-765 | a caller gets a routed response only if it carries the caller's own id |
| `BridgeCalls.OutcomesAreCaused` | pkg/extension/bridge.go:742-983 | every outcome has its cause earlier in the run: a reply was routed under the caller's id with that payload, a connection error needs a close, a write error a failed write, a timeout or cancellation the caller's giving up |
| `BridgeCalls.NobodyIsForgotten` | pkg/extension/bridge.go:767-780 | a waiting caller has a response, or one on its way, or its entry in the open table; closed with nothing in flight it has a response |
| `BridgeCalls.ClosedDrains` | pkg/extension/bridge.go:777-795 | after a close the sends in flight only become fewer, and no new caller starts to wait except one already sending |
| `BridgeCalls.CloseReachesEveryPending` | pkg/extension/bridge.go:781-795 | a close delivers to every pending id |
| `CallDeadline.AwaitResponse` | pkg/extension/bridge.go:954-982 | the select loop computes the specified wait for every history of events |
| `CallDeadline.WaitIsGood` | pkg/extension/bridge.go:947-982 | while it waits the loop knows the last activity, and the timer is never set beyond it plus the timeout |
| `CallDeadline.TimeoutMeansSilence` | pkg/extension/bridge.go:969-981 | a timeout is reported only after at least the timeout without activity |
| `CallDeadline.RearmsAreBounded` | pkg/extension/bridge.go:970-976 | every re-arm delay is in (0, timeout], and re-arms never outnumber activity updates |
| `CallDeadline.SilenceEndsTheWait` | pkg/extension/bridge.go:969-981 | a timer firing once the timeout has passed in silence ends the wait, and one firing earlier does not |
| `CallDeadline.EndedBy` | pkg/extension/bridge.go:954-969 | a response answers a call that still waits and a cancellation cancels it, whatever the timeout |
| `CallDeadline.EndedOnlyBy` | pkg/extension/bridge.go:954-981 | and every end has such an event, or a firing timer, as its cause |
| `CallDeadline.NoDeadline` | pkg/extension/bridge.go:927-945 | without a positive timeout only a response or a cancellation ends the call |
| `Ownership.Manager.constructor` | pkg/extension/manager.go:95-103 | a manager that holds nothing, is not stopped and has no callbacks |
| `Ownership.Manager.Open` | pkg/extension/manager.go:193-199 | a start clears the stop flag only |
| `Ownership.Manager.Adopt` | pkg/extension/manager.go:471-510 | a started process is wired with the current callbacks and appended in one section, or refused when the manager was stopped meanwhile |
| `Ownership.Manager.SetNotifyFn` | pkg/extension/manager.go:116-127 | the manager's notify callback is replaced and spread to all its bridges |
| `Ownership.Manager.SetSetStatusFn` | pkg/extension/manager.go:134-145 | the same for the status callback |
| `Ownership.SpreadReaches` | pkg/extension/manager.go:116-145 | spreading gives every bridge of the list the callback, or clears it, and touches no other |
| `Wiring.NobodyMissesTheCallback` | pkg/extension/manager.go:456-510 | in any interleaving of setters, starts and stops in which every install is allowed, every bridge holds the manager's callback once no setter is under way |
| `Wiring.InstallIsSafeExactly` | pkg/extension/manager.go:116-145 | at any moment of any run, an install settles right in every continuation without another if and only if each setter that still has one of the manager's bridges to reach carries the same callback |
| `Wiring.InstalledExactly` | pkg/extension/manager.go:116-127 | straight after an install every bridge holds or awaits the callback, and no setter will undo that, if and only if it was allowed |
| `Wiring.OverlappingSettersDisagree` | pkg/extension/manager.go:116-127 | a run of two overlapping setters that leaves a bridge with the older callback for good |
| `Ownership.Manager.TakeAll` | pkg/extension/manager.go:536-542 | a stop takes all bridges and latches the flag |
| `Ownership.Manager.TakeNamed` | pkg/extension/manager.go:718-731 | a reload removes every bridge of the name and hands over the last of them |
| `Ownership.ReloadTakeExactly` | pkg/extension/manager.go:718-731 | a reload leaves every process with one holder if and only if at most one runs under the name |
| `Ownership.NextKeepsPartition` | pkg/extension/manager.go:425-576 | every step keeps each live process with exactly one holder; a reload does when at most one bridge has the name |
| `Ownership.NextKeepsNames` | pkg/extension/manager.go:683-686 | running names stay distinct under the stated order of starts and reloads |
| `Ownership.OwnershipIsAPartition` | pkg/extension/manager.go:425-791 | with stops interleaved anywhere, every live process has exactly one holder at every moment |
| `Ownership.StopLeavesNoOrphan` | pkg/extension/manager.go:471-492 | stopped, with every start, stop and reload over, no process is left |
| `Ownership.StoppedCanFinish` | pkg/extension/manager.go:536-576 | from every reachable stopped state there is a step that leaves strictly less to do |
| `Ownership.HastyReloadOrphans` | pkg/extension/manager.go:718-790 | a concrete run in which a reload during a start leads to an orphaned process |
| `AuthConflicts.FilterOut` | pkg/extension/bridge_auth.go:201-218 | just the entries of the id are dropped |
| `AuthConflicts.AuthHost.Filter` | pkg/extension/bridge_auth.go:201-218 | the filtering loop computes that |
| `AuthConflicts.AuthHost.UnregisterAuthProvider` | pkg/extension/bridge_auth.go:197-219 | the id leaves the registry, whoever owned it, and both lists of the bridge |
| `AuthConflicts.AuthHost.ReregisterAuthProvider` | pkg/extension/bridge_auth.go:223-238 | the bridge becomes the owner if it still holds the id |
| `AuthConflicts.AuthHost.RegisterAuthProviders` | pkg/extension/bridge_auth.go:164-178 | each declared provider enters the list of its kind and becomes the active one |
| `AuthConflicts.RegisteredKinds` | pkg/extension/bridge_auth.go:167-176 | providers with a flow enter the generic list, the others the extension's own |
| `AuthConflicts.AuthHost.UnregisterAuthProviders` | pkg/extension/bridge_auth.go:182-193 | all declared ids leave the registry, whoever owned them, and the bridge's lists are empty |
| `AuthConflicts.AuthHost.SettleOne` | pkg/extension/manager.go:889-930 | one declaration against the best so far, with its branches by scope and name |
| `AuthConflicts.AuthHost.ResolveAuthConflicts` | pkg/extension/manager.go:870-934 | the nested loops compute the specified state |
| `AuthConflicts.BeatsOrder` | pkg/extension/manager.go:851-917 | winning is by scope, project before global before package before builtin before any other, and then by name: a strict total order on distinct names |
| `AuthConflicts.ScopesRanked` | pkg/extension/manager.go:851-864 | the priorities rank project, global, package, builtin, others in that order |
| `AuthConflicts.SettledOk` | pkg/extension/manager.go:882-934 | after any part of the scan: who is best, who still holds each id, and who is active |
| `AuthConflicts.ConflictsResolved` | pkg/extension/manager.go:866-934 | for any order of bridges no loser holds the id, and the highest scope, then first name, owns it if and only if it declares it once |
| `AuthConflicts.OwnerByScope` | pkg/extension/manager.go:851-934 | with ids declared once, the owner is a project extension if one declares the id, else a global one, else a package's, else a builtin, and the first by name of its scope; nobody else holds the id |
| `AuthConflicts.WinnerExists` | pkg/extension/manager.go:851-917 | a declared id has exactly one winner |
| `AuthConflicts.UndeclaredUntouched` | pkg/extension/manager.go:866-934 | ids nobody declares are left as they were |
| `AuthConflicts.DoubleDeclarationLosesId` | pkg/extension/manager.go:886-931 | an extension alone with an id it declares twice loses it |
| `AuthConflicts.RegistrationsInterleave` | pkg/extension/bridge_auth.go:164-178 | however the registrations of starting extensions interleave, in the end each holds what it declares and some declarer of each id is active |
| `AuthConflicts.StartGivesWinnersExactly` | pkg/extension/manager.go:866-934 | after a start every declared id is served by its winner if and only if every winner declares its id once |
| `AuthConflicts.AuthHost.ReloadOne` | pkg/extension/manager.go:698-790 | a discovered builtin is refused with nothing touched; otherwise the running one's ids are unregistered and the discovered one registers its own |
| `AuthConflicts.OnlyBuiltinsRefused` | pkg/extension/manager.go:714-771 | a discovered builtin changes nothing, any other takes the place of what ran, and one that is gone leaves none of its ids registered |
| `AuthConflicts.ReloadKeepsIdExactly` | pkg/extension/manager.go:714-790 | a reload leaves one id with its winner if and only if it is refused, or what comes up wins the id it declares, and nobody else declares the one it gives up |
| `AuthConflicts.ReloadKeepsWinnersExactly` | pkg/extension/manager.go:714-790 | and all ids if and only if that holds of each |
| `AuthConflicts.WinnersServeOverRuns` | pkg/extension/manager.go:683-791 | over any run of such reloads, refused ones among them, every id is served by its winner |
| `AuthConflicts.ReloadStealsId` | pkg/extension/manager.go:714-790 | reloading a global extension, unchanged, takes the id from the project's that wins it |
| `ParallelSearch.GrepFile` | cmd/fir/sessions.go:397-425 | undisturbed exactly the matching lines of the file within the cap, each with its number from 1 and its snippet, in order; cancelled a prefix of them |
| `ParallelSearch.MatchesExactly` | cmd/fir/sessions.go:404-414 | the matches of a file are exactly its matching lines, with increasing line numbers |
| `ParallelSearch.ScanExactly` | cmd/fir/sessions.go:404-421 | capped, exactly those with fewer than `perFile` matching lines before them |
| `ParallelSearch.NextKeepsInv` | cmd/fir/sessions.go:356-395 | every step of feeder, workers and collector keeps each file in one place and the output in order |
| `ParallelSearch.RunKeepsInv` | cmd/fir/sessions.go:356-395 | so it holds over every schedule and any number of workers |
| `ParallelSearch.SearchIsSequential` | cmd/fir/sessions.go:275-284 | what is emitted is always a prefix of the sequential scan cut at the limit, and all of it at the end |
| `ParallelSearch.EmittedExactly` | cmd/fir/sessions.go:356-425 | what is emitted are hits of the search by file and line, none left out on the way; done, all of them or the first `limit` |
| `ParallelSearch.WorkersNeverBlock` | cmd/fir/sessions.go:385-389 | a worker with a result can always hand it over |
| `ParallelSearch.NothingEmittedAfterCancel` | cmd/fir/sessions.go:385-391 | once cancelled nothing more is emitted, so no partial result is |
| `ParallelSearch.NeverStuck` | cmd/fir/sessions.go:356-395 | every reachable state but the last has an enabled step |
| `ParallelSearch.StepsFinish` | cmd/fir/sessions.go:356-395 | every step leaves strictly less work |
| `ParallelSearch.RunsAreBounded` | cmd/fir/sessions.go:356-395 | a run has at most seven steps for each file, one for each hit, one for each worker and three; and one that cannot go on is done and has emitted the sequential scan |
| `Handoff.UnansweredUserMessages` | pkg/extension/session_bridge.go:536-562 | the backward and forward scans compute the plain messages that no answer follows |
| `Handoff.Session.TakeQueuedMessages` | pkg/session/agentsession.go:771-777 | steering then follow-ups, in order, and both queues empty |
| `Handoff.SessionBridge.constructor` | pkg/extension/session_bridge.go:62-64 | no request pending and nothing carried yet |
| `Handoff.SessionBridge.RestartSession` | pkg/extension/session_bridge.go:494-517 | the queues move into the request behind those of a superseded one; unsupported it changes nothing |
| `Handoff.SessionBridge.TakePendingRestart` | pkg/extension/session_bridge.go:622-647 | the request is handed over once, with what history adds before and after, and its keys and prompt are remembered |
| `Handoff.UnansweredExactly` | pkg/extension/session_bridge.go:530-562 | a message is taken out of history if and only if it is plain and no answer comes after it |
| `Handoff.AnswersExactly` | pkg/extension/session_bridge.go:538-546 | only a completed assistant message with a non-blank character answers; an aborted, failed or blank one does not |
| `Handoff.UnansweredInFields` | pkg/extension/session_bridge.go:530-562 | a message is taken if and only if it is a user's, unanswered, does not begin with the machinery mark or repeat the last prompt, and was not carried before with that content and time |
| `Handoff.SplitKeepsOrder` | pkg/extension/session_bridge.go:631-640 | splitting at the time of the request, for any list: the positions fall into two groups by time, each kept in order, and nothing is added, lost or repeated |
| `Handoff.UnansweredIsCarried` | pkg/extension/session_bridge.go:622-640 | every unanswered plain message is carried: older ones with the note before the queued batch, newer ones as they are after it, each with all its content |
| `Handoff.RequestCarries` | pkg/extension/session_bridge.go:503-516 | a request counts from its own time and carries what is queued then, behind what a superseded one had |
| `Handoff.HandoffIsNotCarried` | pkg/extension/session_bridge.go:642-646 | after a handoff neither its prompt nor what it carried is taken out of history |
| `Handoff.NoteOnce` | pkg/extension/session_bridge.go:569-588 | the note keeps the timestamp, leaves all the user wrote behind it, text or blocks, and is put on once |
| `Handoff.NextKeepsInv` | pkg/extension/session_bridge.go:494-647 | every event but a failing consumption as above keeps the account of what was taken and delivered |
| `Handoff.RunKeepsInv` | pkg/extension/session_bridge.go:494-647 | so it holds over every run of such events |
| `Handoff.QueueIsConserved` | pkg/extension/session_bridge.go:504-515 | over any run, with requests superseding one another and consumptions failing: what was taken off the queues is what was consumed, once and in order, and then what is pending; and it all arrived if and only if no failing consumption had anything |
| `Handoff.NothingIsReplayed` | pkg/extension/session_bridge.go:549-559 | a message delivered by one handoff is never carried out of history by a later one, if no failing consumption finds a delivered message in history that it does not carry |
| `Handoff.FailureKeepsFreshExactly` | pkg/extension/session_bridge.go:641-646 | and a failing consumption keeps the invariant behind that if and only if it finds none |
| `Handoff.FailureReplaysExactly` | pkg/extension/session_bridge.go:641-646 | after a failing consumption the next handoff carries a delivered message again if and only if history shows one, unanswered, that is neither machinery nor among those the failing one was to carry |
| `Handoff.FailureForgetsNewer` | pkg/extension/session_bridge.go:632-646 | a message newer than the request of a failing consumption is not carried by the next one |
| `Handoff.FailedHandoffReplays` | pkg/modes/acp/methods.go:289-318 | a run in which a failed handoff makes the next one carry a delivered message again |

## Left out

- JSON, file, lock, clock, HTTP and pipe I/O are parameters or transitions, as said above; Windows' lock, which does nothing, is outside the claims.
- In the process model every grant brings a never-seen refresh token, and a write after a grant succeeds; a crash between the two is not modelled. `AuthStorage.AuthStorage.RefreshOAuthLocked` does model a failing write.
- Deleting `auth.json`, which gives it a constant stamp, and the in-memory backend, which has none.
- `AuthStorage.AuthStorage.AccountsForProvider`: sorts by insertion, where the source calls the library's sort; the contract fits any sort by that order.
- The audit log, error texts and logging; errors are counted only.
- `GetApiKey`'s order of sources, runtime overrides, and the loops of `RefreshAccounts` around the locked refresh: branching with no invariant beyond those proved.
- The in-process mutexes of `AuthStorage`: in `Fleet` a call is one step but for the stamp taken before a read and adopted after a write; other goroutines of one process are further objects there.
- `Fleet.FleetRefines`: writes that reach the file succeed, as in the process model; `AuthRuns.PersistIsAnEvent` says what a failing one leaves.
- `normaliseModelID` but for its prefix-stripping loop, and `ExtractFamily`: regular expressions, and not idempotent.
- Strings are sequences of bytes, one `char` each; `strings.TrimSpace` in the handoff knows the ASCII spaces only.
- `AccountModels.ModifyModels`: models are values, so what a base provider does to the copies it is shown is not modelled.
- The key of a carried message is taken to be its content and timestamp; that their JSON encodings differ when they do is assumed.
- Message content in the handoff is text or a list of blocks; other kinds of content are not modelled.
- `Handoff.NothingIsReplayed`: new messages are assumed not to repeat content and timestamp of a delivered one; a message that does is taken for the delivered one and dropped.
- `AuthConflicts.AuthHost.UnregisterAuthProvider`: callback servers, which it also stops.
- `AuthConflicts.RegistrationsInterleave`: entering the bridge's list and the registry is one step; only the bridge itself looks at the list in between.
- `Ownership.OwnershipIsAPartition`: a start begins for names that are not running, starting or being torn down by a reload, and a reload with no start of its name in flight; `Ownership.HastyReloadOrphans` shows why.
- `AuthConflicts.AuthHost.ReloadOne`: a start rolled back because the manager was stopped meanwhile unregisters what it had registered; everything is being torn down then.
- `Fleet.PresentedTwiceOnlyOnFailure`: a write that fails after its grant; `AuthStorage.AuthStorage.RefreshOAuthLocked` says what it presents and leaves.
- `Ownership.Manager.Adopt`: tools and provider records; `Ownership.Manager.SetNotifyFn` is not interleaved with others there, which `Wiring` does.
- `BridgeCalls.NobodyIsForgotten`: says what can still happen, not that the scheduler lets it happen.
- `ParallelSearch.SearchIsSequential`: the order in which `collectSearchFiles` lists the files is an input, and a cancelled grep may return any prefix.
- Provider registries, the model catalogue, settings, the trust store, discovery and the fork server.
