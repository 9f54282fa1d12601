# Stripe CLI: verified models

A Dafny model of the parts of the Stripe CLI whose behaviour is exact and hard to see from one
function, with proofs about all inputs, all runs and all interleavings. `dafny verify dfyconfig.toml`
checks everything.

| module | what it models |
|---|---|
| `FormData`, `FormRoundTrip`, `FormOrder` | the fixture compiler: nested JSON becomes bracketed form entries |
| `FixtureRun`, `FixtureQueries` | running a fixture file: `${name:path}` queries against earlier responses; what each text and each plain request becomes |
| `OAuthStore`, `OAuthRefresh`, `OAuthRotation`, `OAuthOrigins`, `OAuthRepeats`, `OAuthResults`, `OAuthAvailability`, `OAuthClearing`, `OAuthTally` | double-checked locking around a single-use refresh token (section 6 of RFC 6749), stored in a keyring that may come and go: mutual exclusion, when a token is submitted twice, which token a caller gets, what a rejected token leaves, what the numbers count |
| `PluginState`, `PluginRestarts` | plugin metadata and the installed list, changed with snapshot and rollback under arbitrary faults, in one process and across processes |
| `PluginVersions`, `PluginResolution` | ordering, merging, choosing and resolving plugin releases; from which source |
| `Keyring` | the OS keyring backed by a file |
| `KeychainOverlay`, `KeychainRaces` | recent writes remembered over a keychain that shows them late |
| `ConfigTree`, `Profiles`, `ProfileSwitches` | removing and setting keys in nested settings; copying and removing profiles; switching between accounts |
| `SessionLoop` | the reconnect loop of `listen` and `logs tail`, sharing a counter with its watchers |
| `Truncate` | cutting UTF-8 at a code-point boundary |
| `WrapText` | greedy word wrapping |
| `SchemaParams`, `SchemaTypes`, `SchemaOrders`, `FirstSentence` | flattening request schemas into flags, in any order; which schemas become one; the first sentence of a description |
| `Signature` | noticing that the authorized accounts have changed |
| `Text` | the string operations they share |

Go visits a map in any order. Maps are therefore lists of fields in the order of the visit, or loops
that pick any remaining key, and results are proved not to depend on the choice. Operations that
change state are class methods (`PluginState.Host`, `Keyring.FallbackStore`, `KeychainOverlay.Overlay`,
`Profiles.Config` and others), each proved against a specification function; the laws are lemmas
about those functions and about whole runs of them, and it is the laws that the table lists. Clocks,
servers, faults and goroutine scheduling are parameters or steps. The credential store is the keyring
with its backing file, and each access to it meets them in a condition of its own; where a law needs
the availability of the keyring to stay the same, it says so.

Some promises do not hold of the code as it stands. For each there is an input or a run that shows
the failure, and a lemma that says exactly when the promise holds:

- a caller that waits for another's refresh can return the token it read before waiting, although
  the comment at `pkg/config/profile.go:28-30` says that others re-use the result
  (`OAuthResults.ReturnedIsStoredIff`, `OAuthResults.WaiterReturnsStaleToken`);
- a refresh token that was exchanged can be submitted again, after a failed local write, because the
  401 retry takes no mutex, or because its replacement went to the file behind a keyring that did not
  answer. In general two calls submit the same token exactly when they fetched what one step stored
  (`OAuthOrigins.ResubmittedIff`); without overlap and landings, when nothing has been put in the half
  since an exchanging call fetched from it (`OAuthRepeats.NothingPutSinceIff`); after an exchange of a
  token from the same half, when that was followed by a failed or misplaced replacement
  (`OAuthRepeats.LeftBehindIff`); and with constant availability, when the last successful refresh failed
  to replace or remove its token (`OAuthAvailability.SteadyResubmittedIff`). Runs:
  `OAuthRotation.FailedWriteResubmits`, `OAuthRotation.RetryResubmits`,
  `OAuthAvailability.ShadowedResubmits`;
- a rollback can report success although the config file is not the old one, so that the next
  process finds other plugins recorded (`PluginRestarts.FailedDiskIff`,
  `PluginRestarts.ProcessesConsistentIff`, `PluginRestarts.RestoredYetInconsistent`);
- a removed credential can come back when the keyring was unavailable (`Keyring.RemovedReadsMissingIff`);
- overlapping calls can miss a write, or answer with a value that was overwritten
  (`KeychainOverlay.OverlappingReadsIff`, `KeychainRaces.ReadsSetValueIff`, `KeychainRaces.ReadsKeychainIff`);
- switching accounts gives the requested account the fields that only the active one has, leaves
  live-mode keys behind, and merges into a profile that is stored under the active display name
  (`ProfileSwitches.SwitchConservesIff`, `ProfileSwitches.RunConservesIff`, `ProfileSwitches.KeyLeaks`,
  `ProfileSwitches.LiveKeysFollowIff`, `ProfileSwitches.NothingLostIff`);
- a failed install can leave a truncated binary over the one that was there
  (`PluginState.FailedInstallKeepsBinariesIff`);
- a reset of the attempt counter can be lost, and the message can speak of 0 failed attempts
  (`SessionLoop.GivesUpIff`, `SessionLoop.LostReset`, `SessionLoop.MessageIff`);
- mixed version strings can be ordered in a circle (`PluginVersions.CompareTransitiveIff`);
- two visits of a schema can give different flags (`SchemaOrders.OneTableIff`);
- `removeKey` overwrites a value that stands where the key needs a table (`ConfigTree.RemoveKeyExactIff`).

The comment above `ParseToFormData` (`pkg/parsers/parsers.go:96-102`) speaks of arrays as well, but a
top-level slice has another kind than the code tests for and contributes no entries; the model
follows the code.

## Model

| member | source | states |
|---|---|---|
| FormData.ParseToFormData | pkg/parsers/parsers.go:103-133 | the entry point returns the specified form entries, or the error, for every parameter tree and every order of its fields |
| FormData.ParseMapForFormData | pkg/parsers/parsers.go:138-222 | the loop over a map, with its key naming by parent and index, computes the specified entries |
| FormData.ParseArrayForFormData | pkg/parsers/parsers.go:228-267 | the loop over an array with its running object index; floats, booleans and nulls inside an array are passed over |
| FormData.CleanEntries | pkg/parsers/parsers.go:120-132 | entries are trimmed and blank ones dropped |
| FormRoundTrip.RoundTrip | pkg/parsers/parsers.go:103-267 | a decoder written independently of the encoder recovers the parameters from the form entries, up to exactly what the encoder drops (nulls, empty containers, non-string non-integer array scalars), for every field order |
| FormRoundTrip.ExactIffLossless | pkg/parsers/parsers.go:103-267 | the recovered tree is the whole parameter tree if and only if it holds nothing that is dropped |
| FormRoundTrip.EncodingFailsIff | pkg/parsers/parsers.go:138-267 | for any parameters, encoding fails if and only if some string, at any depth, does not resolve |
| FormRoundTrip.ParseEntryInverse | pkg/parsers/parsers.go:147-155 | an entry's bracketed key can be parsed back into its path, and its value is kept |
| FormRoundTrip.DecodeValue | pkg/parsers/parsers.go:138-267 | decoding the entries of one value gives back that value |
| FormOrder.OrderIndependent | pkg/parsers/parsers.go:138-222 | two visits of the same maps in different orders produce the same entries up to order, and fail alike |
| FormOrder.SameNumberedSameForm | pkg/parsers/parsers.go:228-267 | the form entries of a list depend only on its scalars and objects in order, at any depth of direct nesting, and on the objects' numbers, which start again in every nested list |
| FormOrder.NestedArraysFlatten | pkg/parsers/parsers.go:253-260 | so any list whose nested lists hold no object has the entries of the flat list, and no decoder can recover the nesting |
| FixtureRun.IsNameIn | pkg/fixtures/fixtures.go:482-489 | the scan of the skip list is membership |
| FixtureRun.Fixture.RunOne | pkg/fixtures/fixtures.go:300-315 | one turn of the loop: send, keep the response, or stop at an unexpected failure |
| FixtureRun.Fixture.Execute | pkg/fixtures/fixtures.go:298-318 | the loop performs the specified run from the current responses; names are returned, with blanks for skipped requests, if and only if it did not stop |
| FixtureRun.SentInOrder | pkg/fixtures/fixtures.go:298-328 | the requests sent are exactly the non-skipped ones, once each and in order, up to the first unexpected failure |
| FixtureRun.SentAnswered | pkg/fixtures/fixtures.go:298-328 | every request sent got the server's answer to it; all but the one the run stopped at were answered with success or the expected error |
| FixtureRun.ResolvesIff | pkg/parsers/parsers.go:293-359 | the undeclared-name error occurs if and only if a text refers to a name other than .env that has no response, whether or not it has a default |
| FixtureRun.ScopeDecides | pkg/fixtures/fixtures.go:364-403 | a request goes out only if all its texts (path, parameters, key, headers) are in scope, and then it cannot meet the undeclared-name error |
| FixtureRun.ScopeSound | pkg/fixtures/fixtures.go:298-318 | a static check of the file decides: an undeclared-name error is always about the first ill-scoped request; no ill-scoped request and none after it is sent; a file with one never runs to its end |
| FixtureRun.RunIsReplayed | pkg/fixtures/fixtures.go:300-315 | every request of a run was prepared from the responses collected just before it |
| FixtureRun.PreparedFromEarlier | pkg/fixtures/fixtures.go:311-315 | so each request is a function of the responses to the requests sent before it, and of nothing else |
| FixtureRun.LatestResponse | pkg/fixtures/fixtures.go:315 | a name stands for the body of the latest request of that name |
| FixtureRun.QueryReadsLatest | pkg/parsers/parsers.go:346-356 | a query resolves to the field of that latest response, or to its default, or to its own text |
| FixtureRun.PartsInPlace | pkg/parsers/parsers.go:65-94 | the pieces of a path keep their places, each query resolved |
| FixtureRun.WireIsResolvedRequest | pkg/fixtures/fixtures.go:364-429 | what is sent is the request with every query resolved: the path with its pieces in place, the v2 document or a form from which the parameters can be decoded, the key, and each header under its own name |
| FixtureRun.PayloadIsResolved | pkg/parsers/parsers.go:444-516 | the v2 body is a given document if and only if that document is the parameters with every string resolved, each nonempty string of an object read again as JSON, and nothing else changed |
| FixtureRun.PayloadResolves | pkg/parsers/parsers.go:444-516 | it is built if and only if all its strings resolve and none in an object to the empty text; the undeclared-name error and the crash on an empty text each occur only for their own reason |
| FixtureQueries.PlainIsItself | pkg/parsers/parsers.go:293-359 | a text without a query stands for itself, whatever has been answered |
| FixtureQueries.QueryResolvesTo | pkg/parsers/parsers.go:293-359 | a generator resolves to what is generated; a query of the environment to the text with the match replaced by the variable if it is set, else to the default, else to the text; a query of a response likewise |
| FixtureQueries.ReplacesMatches | pkg/parsers/parsers.go:320 | replacing cuts the text at the occurrences of the match, from the left, and puts the value at each |
| FixtureQueries.PlainRequestIsSent | pkg/fixtures/fixtures.go:364-429 | a request whose texts hold no query is sent with its path, key and headers as written and with form entries from which its own parameters can be decoded, all of them if and only if form data drops none |
| FixtureQueries.PlainDocumentIsSent | pkg/fixtures/fixtures.go:408-416 | one that takes a v2 document is sent if and only if no string in an object is empty, with its own parameters, strings in objects read again as JSON |
| FixtureQueries.NotSent | pkg/fixtures/fixtures.go:375-381 | it is stopped for a path that is none of the API's, or for a v2 path without a secret key |
| FixtureQueries.StopsAfterIff | pkg/fixtures/fixtures.go:311-330 | a run stops after a request that was sent if and only if its answer is neither a success nor an API error of the type that the request names |
| FixtureQueries.LeavesResponse | pkg/fixtures/fixtures.go:315 | an expected error leaves an empty response under the name |
| FixtureQueries.ReturnedNames | pkg/fixtures/fixtures.go:299-308 | the names returned are those of the requests, with a blank for each that is skipped |
| OAuthRefresh.StepKeepsInv | pkg/config/profile.go:849-869 | every step of every caller, and every late write that lands, keeps mutual exclusion and the request budget |
| OAuthRefresh.RunKeepsInv | pkg/login/oauth_refresh.go:24-80 | so does every interleaving of any number of callers, each access meeting the keyring and its file in a condition of its own |
| OAuthRefresh.OneRefreshInFlight | pkg/config/profile.go:857-867 | at most one refresh is in flight |
| OAuthRefresh.RequestsBounded | pkg/config/profile.go:857-867 | token requests are at most the entries of the expiry into the 60 s window, as read with the keyring up and as read with it down, plus failed refreshes, grants without a lifetime and expiries stored where the near one can still be read |
| OAuthRefresh.SteadyRequestsBounded | pkg/config/profile.go:857-867 | while the availability of the keyring does not change: at most the entries of that one reading, plus failed refreshes and grants without a lifetime |
| OAuthTally.TallyCounts | pkg/config/profile.go:857-867 | in every run these numbers are what they are called: requests sent, calls that ended in an error, grants without a lifetime, entries of each reading into the last minute, expiries stored beside the near one |
| OAuthTally.ChecksIff | pkg/config/profile.go:857-861 | either check goes on towards a refresh if and only if it finds an expiry less than 60 seconds away, and otherwise the call returns what it read |
| OAuthTally.FetchIff | pkg/login/oauth_refresh.go:29-35 | a call goes on to submit exactly the token that it finds, and fails without one |
| OAuthTally.StoredExpiry | pkg/login/oauth_refresh.go:72-77 | the expiry that a call stores is the lifetime of its own grant from the moment it is computed, in whole seconds |
| OAuthTally.TakenOnce | pkg/login/oauth_refresh.go:43-54 | a token that the server took, with or without a response, is not exchanged later |
| OAuthTally.TakenIff | pkg/login/oauth_refresh.go:43-54 | the tokens that are spent are those that the server took, with or without a response, and not one that it refused |
| OAuthTally.AccessStored | pkg/login/oauth_refresh.go:56-59 | where a call goes on after writing the profile, the granted access token is in the keyring, or in the file if that failed |
| OAuthTally.RefreshStored | pkg/login/oauth_refresh.go:61-64 | so it is for the replacement |
| OAuthTally.ExpiryStored | pkg/login/oauth_refresh.go:72-77 | and for the expiry |
| OAuthTally.OthersKeepLock | pkg/config/profile.go:857-867 | in every interleaving, calls without the mutex included, nobody releases or takes the lock of another |
| OAuthRotation.StoredTokenExcused | pkg/login/oauth_refresh.go:24-80 | in every interleaving, with or without the mutex, however the keyring comes and goes: the call that exchanged a refresh token which is still in one half of the store is about to replace it, failed to, or replaced it elsewhere |
| OAuthRotation.ResubmittedEscaped | pkg/login/oauth_refresh.go:56-80 | where refreshes do not overlap, the call whose exchanged token is submitted again failed to store its replacement, or replaced it elsewhere than in the half that the fetch reads; a failed write of the expiry or a failed clearing never matters |
| OAuthRotation.ReplacementLeavesIff | pkg/keyring/keyring.go:148-174 | where a replacement leaves the old token: in the half that the write does not reach, or in a timed-out write that has still to land |
| OAuthRotation.NoResubmission | pkg/login/oauth_refresh.go:24-80 | so without overlap, failed and misplaced replacements an exchanged refresh token is never submitted again |
| OAuthRotation.MutexPreventsOverlap | pkg/config/profile.go:857-867 | the mutex keeps refreshes from overlapping |
| OAuthRotation.FailedWriteResubmits | pkg/login/oauth_refresh.go:56-64 | a run in which a failed local write leads to a second submission |
| OAuthRotation.RetryResubmits | pkg/requests/base.go:355-376 | a run in which the 401 retry, which takes no mutex, leads to a second submission although every write succeeds |
| OAuthOrigins.SameTokenIff | pkg/login/oauth_refresh.go:28-43 | in every interleaving two calls submit the same refresh token if and only if what they fetched was stored by the same step, or was there at first; the steps decide that, through writes, removals and landings of either half |
| OAuthOrigins.StoredTokenExchangedIff | pkg/login/oauth_refresh.go:24-80 | so a stored refresh token has been exchanged if and only if some call exchanged what it had fetched of the same origin |
| OAuthOrigins.ResubmittedIff | pkg/login/oauth_refresh.go:24-80 | and a submission repeats an exchanged token if and only if some call exchanged what it had fetched of the same origin, before this fetch or, overlapping, after it |
| OAuthOrigins.ResubmittedAloneIff | pkg/login/oauth_refresh.go:56-80 | where refreshes do not overlap only the first case is left, and each such call failed to replace its token, or replaced it elsewhere than in the half that the fetch reads |
| OAuthRepeats.LeftBehindIff | pkg/login/oauth_refresh.go:56-80 | what a failed or misplaced replacement leads to, without overlap: if the last exchange before a fetch was of a token from the same half, and no late write lands there in between, the call submits an exchanged token if and only if that exchange was followed by a failed write, a write to the other half, or a removal that did not reach this one; and it is that token |
| OAuthRepeats.NothingPutSinceIff | pkg/keyring/keyring.go:137-174 | after any number of exchanges from either half, without overlap and landings, and with no token in both halves at first: a submission repeats an exchanged token if and only if nothing has been put in the half it was fetched from since an exchanging call fetched from that half |
| OAuthRepeats.ReplacesElsewhereIff | pkg/keyring/keyring.go:148-174 | a replacement that is reported as done leaves an exchanged token in a half exactly if the half had it and the write or removal missed the half, or a late write still holds it |
| OAuthResults.ReturnedIsStoredIff | pkg/config/profile.go:849-869 | in every interleaving, a call that leaves without a refresh of its own returns the token it read when it began; a reader finds it in the store at that moment if and only if the half it gets to was last written with it, or not written and held it |
| OAuthResults.ResultProvenance | pkg/config/profile.go:849-869 | the step a call leaves with decides which token it returns: after a check the one it read, after its own refresh the one that refresh was granted |
| OAuthResults.WaiterReturnsStaleToken | pkg/config/profile.go:851-867 | a run in which a waiter returns the old token after another caller's refresh has succeeded |
| OAuthAvailability.ShadowedResubmits | pkg/keyring/keyring.go:137-160 | a run with the mutex in which every write is reported as done, yet the next caller submits the exchanged token, and two requests follow one entry into the window, because the keyring did not answer for two writes |
| OAuthAvailability.SteadyResubmittedIff | pkg/login/oauth_refresh.go:56-80 | while the availability does not change and refreshes do not overlap: a submission repeats an exchanged token if and only if the last refresh that had succeeded before the fetch then failed to replace its token or, where there is no replacement, to remove it |
| OAuthAvailability.MisplacedRefreshesIff | pkg/config/profile.go:857-867 | after an expiry was stored where the near one can still be read, a check under the lock that gets to that half goes on to a refresh if and only if the half has not been written since, or was last written with an expiry that is near by then |
| OAuthAvailability.SteadyNoResubmission | pkg/login/oauth_refresh.go:24-80 | so, where no refresh fails to replace or remove its token, one exchanged in a successful refresh is never submitted again |
| OAuthAvailability.SteadyReturnedIff | pkg/config/profile.go:849-869 | while the availability does not change, a call without a refresh of its own returns the stored token if and only if the last write since it began, if any, wrote that same token |
| OAuthAvailability.WaiterIsCurrentIff | pkg/config/profile.go:857-861 | so a waiter returns the stored token if and only if no write changed it between its beginning and its check under the lock, where no grant repeats the token it read |
| OAuthStore.SteadyRead | pkg/keyring/keyring.go:137-160 | with constant availability a read of an entry is that of the one map which the two halves refine |
| OAuthStore.ReadFailsIff | pkg/keyring/keyring.go:137-146 | a read fails exactly if the keyring gives no value and the file cannot be used |
| OAuthStore.UnderWayIff | pkg/keyring/keyring.go:148-174 | a write is under way afterwards exactly if it timed out, whether or not it was reported as done |
| OAuthClearing.RejectedLeaves | pkg/login/oauth_refresh.go:44-52 | after invalid_grant a call removes the access token with the profile and, if writing that succeeds, the refresh token and the expiry, and does nothing else; when it has failed each entry is absent from each half exactly where its removal reached that half, apart from what other calls and landings did since |
| OAuthClearing.RejectedClears | pkg/login/oauth_credentials.go:112-127 | which steps of the call these are |
| OAuthClearing.RejectedLeavesNothing | pkg/login/oauth_credentials.go:112-127 | so where every removal works and nothing is put back, nothing is left |
| OAuthClearing.RejectedProfile | pkg/login/oauth_credentials.go:112-116 | the profile then has no access token, unless another call has set one since |
| PluginState.Filter | pkg/plugins/utilities.go:273-294 | the loop removes every occurrence of the name and keeps the order of the rest |
| PluginState.RollbackRestores | pkg/plugins/utilities.go:164-206 | a rollback that reports no error has restored exactly the old pair of metadata and list |
| PluginState.RollbackFailsIff | pkg/plugins/utilities.go:164-206 | a rollback reports a failure if and only if the metadata cannot be put back, or rewriting a list that was not empty ends in a failed reload |
| PluginState.RefusedIff | pkg/plugins/utilities.go:60-77 | a name that is no single file name is refused by every operation, and no other |
| PluginState.PersistAtomic | pkg/plugins/utilities.go:298-323 | for every pattern of faults: the new pair, or exactly the old one unless rollback itself failed |
| PluginState.UninstallAtomic | pkg/plugins/plugin.go:378-433 | the same for uninstalling |
| PluginState.DoAtomic | pkg/plugins/plugin.go:291-433 | the same for installing, uninstalling and recording, against one atomic store |
| PluginState.RunRefines | pkg/plugins/plugin.go:291-433 | in the memory of one process, any run of operations with any faults refines a run on one atomic store in which failed operations have no effect |
| PluginState.RunConsistent | pkg/plugins/utilities.go:141-323 | in the memory of one process, over any run, every recorded plugin has metadata and none is recorded twice |
| PluginRestarts.DoLeaves | pkg/plugins/plugin.go:291-433 | what any operation leaves in the metadata directory and in the config file, for every pattern of faults: the new pair, the old one, or what its failed or refused undoing left |
| PluginRestarts.FailedDiskIff | pkg/plugins/utilities.go:164-206 | for installing, uninstalling and recording: when, and only when, an operation that does not succeed leaves the old config file on disk |
| PluginRestarts.RestoredDiskIff | pkg/plugins/utilities.go:195-206 | the same for recording when rollback reports no error |
| PluginRestarts.RestoredUninstallDiskIff | pkg/plugins/plugin.go:413-430 | the same for both rollbacks of uninstalling |
| PluginRestarts.SurvivesIff | pkg/config/config.go:151-157 | one command in a process of its own: the next process finds what one atomic store would hold if and only if the faults allow it |
| PluginRestarts.KeepsCoverIff | pkg/config/config.go:151-157 | the next process finds metadata for every recorded plugin, none recorded twice, if and only if the faults allow it |
| PluginRestarts.ProcessesRefineIff | pkg/cmd/plugin/install.go:150 | a run of processes, each starting from the config file, refines one atomic store at every point if and only if every operation's faults are of the surviving kinds |
| PluginRestarts.ProcessesConsistentIff | pkg/cmd/plugin/uninstall.go:61 | over a run of processes every recorded plugin has metadata at every point if and only if every operation's faults are of the covering kinds |
| PluginRestarts.RestoredYetInconsistent | pkg/plugins/utilities.go:195-206 | for every consistent state and new name: faults after which rollback reports no error, yet the next process finds a plugin recorded without metadata |
| PluginRestarts.RestoredYetForgotten | pkg/plugins/plugin.go:413-430 | for every recorded plugin: faults after which uninstalling was rolled back without error, yet the next process does not find it recorded |
| PluginState.FailedReloadLosesSettings | pkg/config/config.go:621-645 | a reload that fails after the write makes rollback write out a config without any other setting |
| PluginState.FailedInstallKeepsBinariesIff | pkg/plugins/plugin.go:291-485 | exactly when an install that does not succeed leaves the binaries as they were, for every fault of the download, of the write in place and of the cleaning up |
| PluginState.InstalledBinaries | pkg/plugins/plugin.go:138-172 | a successful installation leaves the new binary in place and those of other plugins as they were; another version of the plugin stays if and only if the sweep cannot remove it |
| PluginState.FailedInstallFrame | pkg/plugins/plugin.go:347-369 | a failed one leaves every other binary as it was |
| PluginState.UninstalledBinaries | pkg/plugins/plugin.go:378-434 | uninstalling removes the binaries of the plugin and no others, all of them exactly when the directory can be removed |
| PluginVersions.CompareOpposite | pkg/plugins/utilities.go:748-779 | comparing the other way round gives the opposite answer, for any strings |
| PluginVersions.CompareTransitive | pkg/plugins/utilities.go:748-779 | transitive, with strictness, on three strings of which no one that is no version lies between two versions that are not in that order |
| PluginVersions.CompareTransitiveIff | pkg/plugins/utilities.go:748-779 | the comparison is transitive on a list of strings if and only if no string that is no version lies between two of its versions in an order that is not theirs |
| PluginVersions.MixedTripleIff | pkg/plugins/utilities.go:773-778 | what that means for two versions and one such string |
| PluginVersions.MixedVersionsCycle | pkg/plugins/utilities.go:773-778 | an example of three strings in a circle |
| PluginVersions.SortPluginReleases | pkg/plugins/utilities.go:957-969 | sorting yields a permutation, in order whenever the comparison is an order on the versions |
| PluginVersions.LookUpLatestVersion | pkg/plugins/plugin.go:203-215 | the scan returns the version of the last release listed for the platform |
| PluginVersions.GetRelease | pkg/plugins/plugin.go:222-231 | a release is found if and only if there is one for version, system and architecture |
| PluginVersions.LatestIsMaximum | pkg/plugins/plugin.go:201-215 | in a sorted list the latest version is a maximum among the platform's releases |
| PluginVersions.SortedLatestIsMaximum | pkg/plugins/utilities.go:943-969 | after sorting, every release for the platform is at most the latest version |
| PluginVersions.PluginList.FindPluginIndex | pkg/plugins/utilities.go:1002-1009 | the first plugin with the same magic cookie, or -1 |
| PluginVersions.PluginList.AddPluginToList | pkg/plugins/utilities.go:992-1000 | the releases are added under the plugin's cookie and nothing else changes anywhere |
| PluginVersions.PluginList.MergePluginLists | pkg/plugins/utilities.go:984-990 | merging conserves the multiset of releases under every cookie, keeps the existing plugins in place and the cookies distinct |
| PluginVersions.MergeKeepsReleases | pkg/plugins/utilities.go:681-709 | the releases, and so the latest version, come from the primary side unmixed |
| PluginVersions.InstallFindsVersionIff | pkg/plugins/utilities.go:650-666 | the chosen plugin has a requested version if and only if one of the two sources does |
| PluginVersions.UpgradePicksGreater | pkg/plugins/utilities.go:668-679 | the chosen plugin's latest version is the greater of the two |
| PluginVersions.ResolutionSound | pkg/plugins/utilities.go:506-596 | every successful install, upgrade or auto-install resolution names the requested plugin and a version with a release for this platform: the requested or the latest one |
| PluginVersions.LatestCachedSound | pkg/plugins/utilities.go:711-736 | the same for the cached fallback, which does not look the release up again |
| PluginVersions.InstallResolvesIff | pkg/plugins/utilities.go:506-552 | a requested version resolves if and only if the endpoint or one of the caches has it |
| PluginResolution.LatestResolves | pkg/plugins/utilities.go:553-600 | an upgrade, an installation without a version and an automatic one take the latest version that the endpoint lists here, and only without one the greater of the two cached ones, with the releases of that source; they fail exactly when no source has one |
| PluginResolution.RequestedResolves | pkg/plugins/utilities.go:503-551 | a requested version resolves exactly when some source has it, from the endpoint before the caches, from the only cache that has it before the preferred one |
| PluginResolution.RefusedResolutions | pkg/plugins/utilities.go:506-515 | nothing resolves for an invalid name, and without credentials only an automatic installation from the caches |
| PluginResolution.LatestIsLast | pkg/plugins/plugin.go:203-215 | the latest version is that of the last release for this system and architecture |
| PluginResolution.MergeCompletes | pkg/plugins/utilities.go:681-709 | merging fills each empty field from the other side and takes none over; name and releases stay |
| PluginResolution.EndpointCompleted | pkg/plugins/plugin.go:233-252 | the endpoint's plugin is taken as it is, but for commands that only a cached one has |
| Keyring.NoInventedValues | pkg/keyring/keyring.go:137-174 | under any availability, a value read was there initially or was set |
| Keyring.RemovedIsGoneIff | pkg/keyring/keyring.go:162-174 | a key removed while the keyring is up stays gone until the next Set if and only if no timed-out write of it is under way |
| Keyring.ConstantRefinesMap | pkg/keyring/keyring.go:137-174 | while every call succeeds, or every call fails or times out, the two stores refine one map, whenever late writes land |
| Keyring.ReadsLastSetIff | pkg/keyring/keyring.go:137-160 | exactly when a read returns the value last set although availability has changed and late writes have landed |
| Keyring.RemovedReadsMissingIff | pkg/keyring/keyring.go:162-174 | exactly when a removed key reads as missing, whatever late writes have landed |
| Keyring.InsecureIff | pkg/keyring/keyring.go:39-42 | insecure storage is reported if and only if some write was not taken by the keyring |
| Keyring.SetReachesIff | pkg/keyring/keyring.go:148-160 | a Set can reach the keyring if and only if the keyring was up or the call timed out |
| Keyring.RemoveReachesIff | pkg/keyring/keyring.go:162-174 | and so can a Remove |
| Keyring.LandsOnce | pkg/keyring/keyring.go:148-174 | a late write lands once, and the others are still to land |
| KeychainOverlay.ReadsOwnWritesIff | pkg/plugins/core_cli_helper.go:198-302 | every sequential Get between a Set and the next Set or Delete returns the value set, if and only if the visibility delay is zero or delay plus check latency is at most 1500 ms |
| KeychainOverlay.OverlappingReadsIff | pkg/plugins/core_cli_helper.go:234-302 | overlapping Gets are always answered with the value set if and only if the visibility delay is zero, or the check latency is zero and the delay at most 1500 ms |
| KeychainOverlay.OverlappingReadsMiss | pkg/plugins/core_cli_helper.go:234-302 | two overlapping Gets lose the guarantee for any delay and any latency |
| KeychainOverlay.DeletedIsTransparent | pkg/plugins/core_cli_helper.go:286-326 | with nothing pending, the overlay adds nothing |
| KeychainOverlay.LatestCallDecides | pkg/plugins/core_cli_helper.go:220-326 | after any run, for 1500 ms after a Set its value is the answer whatever the keychain shows, and after a Delete what the keychain shows; no call touches another key |
| KeychainOverlay.DisabledIsTransparent | pkg/plugins/core_cli_helper.go:220-223 | where the overlay is switched off every answer is the keychain's |
| KeychainRaces.UninterruptedGet | pkg/plugins/core_cli_helper.go:286-302 | a Get whose check and clearing nothing interrupts is the atomic one |
| KeychainRaces.ReadsLastRemembered | pkg/plugins/core_cli_helper.go:220-326 | however Gets, Sets and Deletes overlap: a Get answers with the value remembered last until that expires, a Get that found agreement clears it, a Delete forgets it or a check comes after its expiry, and from then on with what the keychain shows |
| KeychainRaces.ReadsSetValueIff | pkg/plugins/core_cli_helper.go:220-302 | so the value of a Set is answered if and only if it is the one remembered last and still pending, or the keychain shows it |
| KeychainRaces.ReadsKeychainIff | pkg/plugins/core_cli_helper.go:305-312 | a Get to which the keychain shows its latest value answers with that if and only if it is the one remembered last, or that one is no longer pending |
| KeychainRaces.KeychainHasLatest | pkg/plugins/core_cli_helper.go:305-331 | what the keychain has in the end is what was stored last, unless it was erased since |
| KeychainRaces.CrossedSets | pkg/plugins/core_cli_helper.go:305-312 | after two Sets that write in one order and remember in the other, all Gets answer with the overwritten value until it expires, and then with the one in the keychain |
| KeychainRaces.OlderReadClears | pkg/plugins/core_cli_helper.go:286-302 | a Get of an older value clears the newer one |
| ConfigTree.RemoveKeyExactIff | pkg/config/config.go:648-718 | removeKey deletes exactly the addressed entry and changes no other path, if and only if every proper prefix of the key is a table |
| ConfigTree.DeletedEntry | pkg/config/config.go:692-718 | what every path shows after the descent and the delete |
| ConfigTree.DamagedPrefix | pkg/config/config.go:692-718 | otherwise a prefix that was no table has become one |
| ConfigTree.OverlaidEntry | pkg/config/config.go:243-251 | what every path shows after a table was set and written: its own entry, or that of the file, unless a value hides it |
| ConfigTree.DeleteAuthFields | pkg/config/profile.go:220-232 | the loop, with its IsSet guard, removes exactly the fields whose removal does not fail, one after the other |
| ConfigTree.AuthFieldsExactlyRemoved | pkg/config/profile.go:127-150 | afterwards every such auth field of that one profile is missing and every other path of the settings is as before, whichever removals fail |
| Profiles.CopyFields | pkg/config/config.go:236-243 | the loop copies every field but plugin sections, in any order |
| Profiles.Config.RemoveProfile | pkg/config/config.go:398-456 | every matching profile is removed with its live-mode key, in any order, or else the table of that name |
| Profiles.RemovalIs | pkg/config/config.go:398-456 | the empty name and those of settings remove nothing; any other removes every profile stored under it or carrying it, with its live-mode key, and leaves the rest as it was |
| Profiles.ReservedIff | pkg/config/config.go:366-391 | a name is refused if and only if it is that of a machine-wide setting or lies below one, in any case of letters |
| Profiles.CopyFailsIff | pkg/config/config.go:213-234 | a copy needs two different names and a profile under the first, and changes nothing otherwise |
| Profiles.SwitchStops | pkg/config/config.go:340-355 | a switch that cannot save the active account changes nothing, and one that finds no profile of the name leaves only that copy |
| ProfileSwitches.SwitchSucceedsIff | pkg/config/config.go:340-364 | a switch succeeds if and only if the name is that of a stored or the active account; the settings it then leaves, each copy lying over the table that was there, and that a failed one has saved the active account |
| ProfileSwitches.SwitchLeaves | pkg/config/config.go:340-364 | every account keeps its name, nothing but profiles changes, and the only account that changes is the requested one, by what shows through of the table that was under default |
| ProfileSwitches.SwitchConservesIff | pkg/config/config.go:236-251 | a switch conserves all accounts if and only if the requested one has every field that is under default, at every depth and other than plugin sections |
| ProfileSwitches.RunConservesIff | pkg/config/config.go:340-364 | a run of switches, failed ones included, conserves all accounts at every point if and only if, of the accounts as they are before the run, each requested one covers the one asked for last before it, and fits over what is left of the plugin sections under default |
| ProfileSwitches.RunCleanIff | pkg/config/config.go:340-364 | which is so if and only if each requested account has every field that is under default when it is requested |
| ProfileSwitches.RunStaysKeyed | pkg/config/config.go:340-364 | over any run every account keeps its name, and the last name asked for that an account has is active |
| ProfileSwitches.RunConserves | pkg/config/config.go:340-364 | so where all accounts have the same fields every run conserves them |
| ProfileSwitches.SwitchBackRestoresIff | pkg/config/config.go:340-364 | switching away and back restores the active account if and only if it has every field of the other one |
| Profiles.TableRemovalExact | pkg/config/config.go:432-477 | a name that no profile carries, with or without periods, removes exactly the table it addresses and nothing beside it, and is reported as not found if and only if there is none |
| ProfileSwitches.KeyLeaks | pkg/config/config.go:236-251 | an example: after switching to b and back, b has the live-mode key field of a |
| ProfileSwitches.LeftoverStays | pkg/config/config.go:236-251 | any field of the active account that the requested one lacks becomes a field of the requested one |
| ProfileSwitches.LiveKeysFollowIff | pkg/config/config.go:425-430 | live-mode keys do not move: every account keeps its own across a switch to another if and only if the keys held for default and under the two names were the same |
| ProfileSwitches.NothingLostIff | pkg/config/config.go:340-364 | a switch that succeeds loses no account and no other entry if and only if nothing but a copy of the active account lives under the active display name, and the requested account has every field that is under default |
| ProfileSwitches.FailureLosesNothingIff | pkg/config/config.go:340-345 | a switch that fails loses nothing if and only if a profile under the active display name already has the fields of the active account |
| SessionLoop.RunKeepsInv | pkg/proxy/proxy.go:159-232 | the invariant holds in every interleaving of the loop with its watchers, the increment split into its read and its write |
| SessionLoop.ReconnectSafety | pkg/proxy/proxy.go:159-232 | sessions never exceed 3*(1 + resets), the code after the loop is not reached, so nil means cancellation |
| SessionLoop.CounterIsStreak | pkg/logtailing/tailer.go:107-184 | the counter is the number of increments since the last reset that took effect |
| SessionLoop.GivesUpIff | pkg/proxy/proxy.go:209-222 | an expired session ends the command if and only if that number is three |
| SessionLoop.WarnedOnceIff | pkg/logtailing/tailer.go:124-130 | the account-filter warning is shown exactly once if any session asks for it, else never |
| SessionLoop.BoundReached | pkg/proxy/proxy.go:161-207 | for every number of resets some run reaches the bound |
| SessionLoop.LostReset | pkg/proxy/proxy.go:183-204 | a run in which the third session connects, the reset is overwritten and the command still gives up |
| SessionLoop.MessageIff | pkg/proxy/proxy.go:209-222 | the message of an expired session shows 0 failed attempts if and only if a watcher reset the counter between the comparison and the message, and otherwise 3 |
| SessionLoop.MisleadingMessage | pkg/proxy/proxy.go:216 | a run that reports 0 failed attempts |
| SessionLoop.ReturnsIff | pkg/proxy/proxy.go:159-222 | the command returns without an error exactly when it was cancelled, with an authentication error exactly when a session could not be created, and with an expired session exactly when it says so |
| SessionLoop.CountsSteps | pkg/proxy/proxy.go:161-207 | sessions, watchers and resets are counted as they happen |
| Truncate.TruncateBytes | pkg/proxy/proxy.go:534-557 | for any bytes, the loop finds the last position within the budget that is not inside a code point |
| Truncate.BoundaryIff | pkg/proxy/proxy.go:559-561 | a byte is no continuation byte if and only if a code point starts there (section 3 of RFC 3629) |
| Truncate.TruncatesCodePoints | pkg/proxy/proxy.go:534-557 | text keeps as many whole code points as fit in n, or in n-3 with the ellipsis; the result is valid UTF-8 of at most n bytes |
| Truncate.LongestValidPrefix | pkg/proxy/proxy.go:534-557 | no valid prefix within the budget is longer |
| Truncate.EncodedMeans | pkg/proxy/proxy.go:534-557 | the encoding of a code point can be undone and takes the number of bytes that section 3 of RFC 3629 gives |
| WrapText.WrapText | pkg/cmd/templates.go:218-250 | the help text is wrapped to max(20, width - indent) columns |
| WrapText.WriteWords | pkg/cmd/templates.go:231-248 | the loop over the words writes the specified text |
| WrapText.LineWidthIsMaximum | pkg/cmd/templates.go:222-229 | the line width is the greater of 20 and what is left beside the indentation |
| WrapText.WrapsIntoFittingLines | pkg/cmd/templates.go:218-250 | the text is the words in order, cut into lines that each fit or are a single word |
| WrapText.FewestLines | pkg/cmd/templates.go:231-248 | no other such partition of the words has fewer lines |
| WrapText.WrapAgain | pkg/cmd/templates.go:219 | the words are kept, so wrapping is idempotent |
| SchemaParams.ParamTable.AddDenormalizedParams | pkg/gen/gen_resources_cmds.go:478-505 | the recursion makes the writes of one order of visiting, at every object, to the shared table, and adds exactly the required depth-1 keys to the candidates |
| SchemaParams.ParamTable.MarkMostCommon | pkg/gen/gen_resources_cmds.go:523-542 | exactly the marked keys are flagged, in any order |
| SchemaParams.GetOperationParams | pkg/gen/gen_resources_cmds.go:379-460 | the flags of an operation: a POST produces the table of some order of visiting its body; any other verb lists its query parameters |
| SchemaParams.ProducedIsFlattened | pkg/gen/gen_resources_cmds.go:379-542 | in whatever order, exactly the flattened entries are written |
| SchemaParams.LastListedWins | pkg/gen/gen_resources_cmds.go:436-460 | the last query parameter of a name gives the flag of that name |
| SchemaParams.FlagIsListed | pkg/gen/gen_resources_cmds.go:436-460 | and every flag of such an operation comes from one |
| SchemaParams.ChoicesIff | pkg/gen/gen_resources_cmds.go:546-574 | the choices of a flag are exactly the nonempty strings of the enum list |
| SchemaParams.KeysDistinct | pkg/gen/gen_resources_cmds.go:479-480 | different leaves never share a dotted key, for period-free names |
| SchemaParams.FlattenedExact | pkg/gen/gen_resources_cmds.go:379-542 | for period-free names the keys are exactly the dotted paths of the leaves, each holding its leaf, MostCommon as described |
| SchemaParams.MarkedIff | pkg/gen/gen_resources_cmds.go:507-542 | MostCommon holds if and only if the root is in x-stripeMostCommon and the path is that root, or one step below it and required there or curated by a clearable object |
| SchemaParams.RequiredIff | pkg/gen/gen_resources_cmds.go:466-470 | Required holds if and only if every object on the path and the leaf are required |
| SchemaTypes.TypeIsFirst | pkg/gen/resource_utils.go:135-168 | the type of a schema is that of the first of its branches, depth first, that is a scalar other than the string that can only be empty, or an array of non-objects; it has none if and only if there is no such branch |
| SchemaTypes.ObjectIsFirst | pkg/gen/resource_utils.go:56-76 | a schema resolves to the first object at or below it, the anyOf branches before the oneOf branches |
| SchemaTypes.QueryFlagIff | pkg/gen/gen_resources_cmds.go:436-460 | a name is a flag of a query if and only if some query parameter of that name has a type, and the last of them describes it |
| SchemaTypes.TableKeyIff | pkg/gen/gen_resources_cmds.go:379-505 | a path is a key of a body's table if and only if its property is offered and it leads to a schema with a type but no object, or, at the top, to a clearable object |
| SchemaTypes.ClearableFlag | pkg/gen/gen_resources_cmds.go:408-413 | a clearable object is a flag of its own kind, never required and without a description, surfaced exactly if the body calls it common |
| SchemaTypes.LeafIff | pkg/gen/gen_resources_cmds.go:478-505 | and the schema it leads to describes the flag |
| SchemaTypes.ChoicesOf | pkg/gen/gen_resources_cmds.go:546-574 | the choices are the usable values of the enum list in their order |
| SchemaOrders.LeafWins | pkg/gen/gen_resources_cmds.go:379-542 | some order of visiting lets any leaf be the one that is kept under its key |
| SchemaOrders.OneTableIff | pkg/gen/gen_resources_cmds.go:379-542 | all orders of visiting produce the same table if and only if leaves that share a dotted key are the same parameter |
| SchemaOrders.OrderDoesNotMatter | pkg/gen/gen_resources_cmds.go:379-542 | so all orders agree on a schema without periods in its names |
| SchemaOrders.PeriodsCollide | pkg/gen/gen_resources_cmds.go:479-480 | a schema with a period in a name on which two orders differ |
| Signature.AccountsSignature | pkg/login/oauth_reauth.go:124-136 | the loop writes the sorted accounts with their sorted modes |
| Signature.SignatureCanonical | pkg/login/oauth_reauth.go:122-136 | signatures are equal if and only if the accounts are equal up to reordering accounts and modes, for distinct IDs, IDs and names without a vertical bar, modes without comma and semicolon and not the single empty mode |
| Signature.SameTableIffReordered | pkg/login/oauth_reauth.go:122-136 | what equality up to reordering means, account by account |
| Signature.AmbiguousFields | pkg/login/oauth_reauth.go:130-134 | the conditions on bars, commas and the empty mode are needed |
| Signature.AmbiguousMode | pkg/login/oauth_reauth.go:130-134 | and so is the one on semicolons: one account that reads as two |
| Signature.RepeatedIdsMatter | pkg/login/oauth_reauth.go:125-127 | so are distinct IDs: accounts sharing one have another signature in another order |
| Signature.WaitForAccountsChange | pkg/login/oauth_reauth.go:96-120 | polling stops at the first event that is not an unchanged list, and returns what that event says |
| Signature.QuietIff | pkg/login/oauth_reauth.go:115-117 | a poll is passed over if and only if the accounts are the same up to order |
| FirstSentence.FirstSentence | pkg/gen/resource_utils.go:14-51 | the index loop with its early exits computes the specified sentence |
| FirstSentence.CutsAtFirstBoundary | pkg/gen/resource_utils.go:22-50 | the paragraph is cut at its first sentence boundary and nowhere else; a final etc. keeps its period |
| FirstSentence.SentencePrefix | pkg/gen/resource_utils.go:14-51 | the result is a prefix of the first paragraph, and that of the input |
| FirstSentence.Idempotent | pkg/gen/resource_utils.go:14-51 | the first sentence of the first sentence is itself, for every string |
| FirstSentence.WordBeforeIff | pkg/gen/resource_utils.go:125-128 | the word before a period is the stretch without delimiters that nothing extends |
| FirstSentence.NeverCutsAbbreviation | pkg/gen/resource_utils.go:98-101 | the text is never cut after e.g or i.e, in any letter case |
| FirstSentence.BoundaryIff | pkg/gen/resource_utils.go:22-50 | where a sentence ends, character by character: the period, what may stand before it, what has to follow, and the two abbreviations in any case of letters |
| FirstSentence.AbbreviationIff | pkg/gen/resource_utils.go:98-128 | when the word before a period is e.g, i.e or etc |
| FirstSentence.ParagraphIs | pkg/gen/resource_utils.go:18-21 | the first paragraph is the text up to its first empty line, without the spaces and tabs before it |

## Left out

- FirstSentence.FirstSentence: lower-casing is that of ASCII, because the listed abbreviations are ASCII.
- PluginVersions.SortPluginReleases: nothing is said about the order of versions on which the comparison is no order, because any result is then out of order somewhere; nor about aliasing of the release slices.
- Signature.SignatureCanonical: lists with repeated IDs are not covered, because an unstable sort may then write the same list in two ways.
- SessionLoop.ReconnectSafety: a watcher may reset at any time after it was started; that it does so only after a connection is not used.
- ProfileSwitches.SwitchConservesIff: a successful switch is to a name without periods and capitals; writing the config file succeeds; the redaction of live-mode values when the config is read again is not part of it.
- ConfigTree.DeleteAuthFields: profile names that viper would fold or split are excluded.
- FixtureRun.Fixture.Execute: a v2 body is built from a copy of the parameters, whereas the code writes through its argument map, so a second run of the same object is not modelled.
- FormRoundTrip.RoundTrip: arrays that mix objects with scalars, and keys that are numerals or hold brackets or equals signs, are outside its domain, because their form entries are ambiguous.
- FixtureRun.WireIsResolvedRequest: the account and version headers, the upper-casing of the verb and the credentials are not part of the request.
- FixtureRun.QueryReadsLatest: the two generator queries for time and identifiers are constants of a run.
- ConfigTree.RemoveKeyExactIff: nested maps are values, so aliasing of the tables that are updated in place is not captured; encoding as TOML and reading back is the identity, and tables without entries, which viper does not write, are not told from absent ones in the source.
- OAuthRefresh.OneRefreshInFlight: the mutex serialises one process; a second CLI process is like a caller that takes no mutex, which `OAuthRotation` covers, except that it has a `p.UAT` of its own. Entries of the credential store do not affect each other, and the active-context entry is left out.
- The regular expressions of queries and ANSI escapes, path joining, gjson, mergo (`buildRewrites`), viper, TOML and version parsing are parameters or taken as described above.
- OAuthRepeats.LeftBehindIff: late writes that land in between, and a last exchange of a token from the other half, are covered by `OAuthOrigins.ResubmittedAloneIff` instead.
- Keyring.ConstantRefinesMap: in `Keyring` the file always works; `OAuthStore` lets it fail.
- PluginRestarts.ProcessesRefineIff: commands follow one another; two plugin commands at the same time are not modelled.
- Upper-case profile names, which viper folds.
- The generated templates, and the descriptions that `x-stripeEnum` gives its values, which the code does not copy either.
- Updating `.env` after a fixture run, and the edit, override, add and remove flags of fixtures.
- HTTP, websocket, operating-system keyring and process back ends, RPC bridges, checksums, telemetry and terminal output.
- The `slow_down` rule of the device-code login.
