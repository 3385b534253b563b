# Siriusec: verified models

Dafny models of the parts of Siriusec whose correctness depends on interleaving, on an invariant kept over
many calls, or on two operations undoing each other. To check every file, use
`dafny verify dfyconfig.toml`.

| file | what it models |
|---|---|
| `ConnectPlan.dfy`, `Connect.dfy` | the racing `connect` of the API client: planner, workers, closer and caller as a step system over every interleaving |
| `IdentityFile.dfy` | the identity file encoder and decoder, on bytes |
| `Nodes.dfy` | label matching, and `GetNodesWithLabels` against any paginated server |
| `Presence.dfy` | the keys of a backend range (`PageKeys`), and the paginating server of the presence service over such a range (`PresenceNodes`) |
| `Semaphore.dfy` | the lease semaphore as a value (`SemaphoreSpec`) and as an object over a backing array (`SemaphoreObject`) |
| `PluginData.dfy` | the plugin data store and its compare-and-set update |
| `CertAuthority.dfy` | key sets of a certificate authority as values and as shared objects, and the rotation schedule |
| `AccessRoles.dfy` | normalising and recovering the role list of an access request |
| `Pipelines.dfy` | splitting, merging and joining the pipeline file |
| `OpenRecorder.dfy` | the probes that record open system calls, whole (`OpenRecorder`) and taken apart into the kernel operations that interleave (`OpenRecorderKernel`) |
| `StreamWatcher.dfy` | the event watcher: receiver, readers of its error, cancellation |
| `Bytes.dfy`, `Options.dfy` | byte strings with `bytes.TrimSpace` and `bytes.HasPrefix`; an optional value |

Where a loop or an object in the source changes things step by step, the model has a method with the same
loop or object, proved equal to a function; the theorems are about that function. The three concurrent
components (`connect`, the watcher, the probes) are step systems: a run is a list of step labels, and a
theorem about every run is a theorem about every schedule.

How the source's world is represented:

- Time is an integer, zero being Go's zero time; durations of the rotation schedule wrap at 64 bits.
- A nil slice or map is the empty one.
- Calls into code outside the model are inputs: the outcome of each dial and each credential lookup, each
  answer of the node server, each message or error of the event stream, whether the event ring has room, and
  the YAML codec.
- Strings are compared by code point, which is the byte order of their UTF-8 encodings; backend keys, and the node
  names in them, are strings of bytes, one character each.
- `sort.Strings` is the function `StringOrder.Sort`, proved to give the sorted permutation.

Where code and documentation disagree the model follows the code:

- The comment in `connect` says that "no connection methods found" should never be reached. A validated
  configuration gets that answer only after the parent context was cancelled, and then every configuration
  that names a dialer or an address can get it, from any moment at which the caller has heard nothing, even
  if attempts connected (`Connect.NoMethodsFoundIff`, `Connect.NoMethodsFoundFrom`).
- `MatchAgainst` is documented as "has ALL of them"; a required label with an empty value also matches a node
  without that key (`NodeLabels.MatchesVersusHasAll`).
- `nextKey` is documented as the next possible key, and the presence service uses it to name the page after a node
  and to read on. It is the end of the range of all keys that start with the given one, so a node whose name
  extends another node's can be passed over: "web" and "web-2", with a page that fills at "web", is a run in which
  the client succeeds without "web-2" (`PresenceNodes.WebHidesWeb2`). The service answers like a listing exactly
  when no matching node's name extends another's, or has no next key (`PresenceNodes.PresencePaginatesIff`).
- A caller of the watcher's `Error` that saw `Done` can get the bare context error although the receive failed
  first: in any state exactly as long as the receiver neither holds the lock nor has recorded its error
  (`StreamWatcher.ContextErrorFrom`).
- The rotation schedule doubles the grace period in 64 bits, so periods over half the range give phases out of
  order, and one of them still passes the validator (`RotationSchedule.ScheduleOrderedIff`,
  `RotationSchedule.SchedulePassesIff`).

## Model

| member | source | states |
|---|---|---|
| `ConnectPlan.PlanEmptyIff` | api/client/client.go:184-240 | the planner has nothing to do exactly when no credential yields an error or an attempt; a configuration with a credential and a dialer or an address always yields work |
| `ConnectPlan.PlanOfOne` | api/client/client.go:185-241 | the actions for one credential, position by position: a failed TLS or SSH setting is the only error; otherwise the configured dialer, the credential's dialer or its error, and for each address the auth server and, with SSH settings, then proxy and tunnel |
| `ConnectPlan.PlanConcat` | api/client/client.go:184 | the credentials are taken one after the other |
| `ConnectPlan.PlanMembers` | api/client/client.go:184-241 | exactly which attempts and errors the plan holds, on the fields of the configuration |
| `ConnectPlan.PlanCounts` | api/client/client.go:184-241 | how often it holds each |
| `Connect.ClientOwnership` | api/client/client.go:144-276 | in every interleaving at most one client reaches the caller, it was dialed and is never closed, no client is closed twice, and once all goroutines have ended every other dialed client has been closed exactly once |
| `Connect.ChannelSafety` | api/client/client.go:147-248 | in every interleaving nothing panics, the wait group counts exactly the unfinished planner and workers, and errChan is closed only when no goroutine can send on it |
| `Connect.Progress` | api/client/client.go:144-276 | until every goroutine has ended some goroutine can move, whether or not anyone cancels from outside |
| `Connect.Termination` | api/client/client.go:144-276 | no run takes more than six steps an action of the planner and twelve more, so with Progress every maximal run ends with no goroutine left |
| `Connect.UncancelledOutcome` | api/client/client.go:250-275 | if the parent context is never cancelled, a client is returned exactly when some attempt connected, and an aggregate error holds the multiset of all failures, one for each action of the planner, every attempt having failed |
| `Connect.MethodsFound` | api/client/client.go:263-269 | a configuration with credentials is told "no connection methods found" only if the parent context was cancelled |
| `Connect.NoMethodsFoundIff` | api/client/client.go:263-269 | which configurations can be told so: after a cancellation exactly those with a dialer or an address; without one exactly those of them that have no credentials |
| `Connect.NoMethodsFoundFrom` | api/client/client.go:250-275 | a run can still end in that answer exactly when a dialer or address is configured and the caller has neither received an error nor settled on another answer |
| `Connect.CancelledCanFindNoMethods` | api/client/client.go:151-175 | from every such state a continuation in which each goroutine drops its error or closes its client and all of them end |
| `Connect.AnyTargetCanWin` | api/client/client.go:158-178 | each way to connect that a configuration allows, on any address, can be the one whose client is returned |
| `Connect.SelectsAreFree` | api/client/client.go:153-174 | in every state of every run each ready case of a select can happen: a waiting caller can take a cancellation, an error or a client, and every dial can end either way |
| `Connect.CancelReturnsAtOnce` | api/client/client.go:272-273 | a caller that waits when the context is cancelled can return at once |
| `Connect.HistoryIsRun` | api/client/client.go:163-176 | who connected, who failed with which error, who was handed over and how often each client was closed is what the steps of the run did |
| `Connect.RunInv` | api/client/client.go:144-276 | the invariant behind these: control, ownership and error accounting hold in every state of every run |
| `IdentityFile.EncodeIdentityFile` | api/identityfile/identityfile.go:164-202 | the writes in sequence produce the encoding that the theorems are about |
| `IdentityFile.DecodeIdentityFile` | api/identityfile/identityfile.go:206-274 | the two nested scanning loops compute the decoding that the theorems are about, with both errors |
| `IdentityFile.RoundTripIff` | api/identityfile/identityfile.go:164-274 | an identity is read back unchanged exactly when it is canonical: clean single lines, clean single PEM blocks, slots filled in order, in any number and order of CA entries |
| `IdentityFile.DecodeCanonical` | api/identityfile/identityfile.go:206-274 | every identity that the decoder accepts is canonical |
| `IdentityFile.DecodeEncodeDecode` | api/identityfile/identityfile.go:164-274 | for every accepted text, decoding, encoding and decoding again gives the same identity |
| `IdentityFile.FinalNewlinesIgnored` | api/identityfile/identityfile.go:193-202 | fields with or without their final newline encode alike and are read back as the canonical identity |
| `IdentityFile.EncodeLayout` | api/identityfile/identityfile.go:164-202 | the order of the fields in the file, line by line |
| `IdentityFile.EncodeMore` | api/identityfile/identityfile.go:177-188 | authorities of both kinds are written in their order |
| `IdentityFile.DecodeLayout` | api/identityfile/identityfile.go:206-274 | a file with one line or block of each kind: which line is the certificate, which an authority, and which block is key, certificate and authority; a line of no kind is ignored |
| `IdentityFile.Prefixes` | api/identityfile/identityfile.go:234-246 | the bytes that lines of each kind start with |
| `IdentityFile.SameLines` | api/identityfile/identityfile.go:206-220 | only the trimmed lines of a text matter |
| `Bytes.TrimSpaceMeans` | api/identityfile/identityfile.go:218 | trimming takes off white space characters at both ends and nothing else |
| `Bytes.SpaceEncodings` | api/identityfile/identityfile.go:218 | white space is that of Unicode, in UTF-8 |
| `IdentityFile.DecodeErrors` | api/identityfile/identityfile.go:249-272 | a text is refused for a long line exactly when it has one, and otherwise as a PEM fragment exactly when some BEGIN line has no END line after it |
| `NodeLabels.CombineLabels` | api/types/server.go:267-276 | the combined labels, in whatever order the maps are visited: command labels hide static ones |
| `NodeLabels.MatchAgainst` | api/types/server.go:291-301 | true exactly when every required label has the node's value: that of its command label, else its static one, else empty |
| `NodeLabels.MatchesMeans` | api/types/server.go:267-301 | the same of the predicate that the theorems filter with |
| `NodeLabels.MatchesVersusHasAll` | api/types/server.go:287-301 | when that is the documented "has all of them", and an input where it is not |
| `NodePagination.GetNodesWithLabels` | api/client/client.go:1342-1381 | against any conforming server a success is exactly the matching nodes of the full list in order; the loop ends; at most ten requests are rejected and at most eleven more than the nodes are made; "too large" only after a request for one node was rejected; page sizes are those left by the rejections |
| `NodePagination.ChunkRunsOut` | api/client/client.go:1356-1363 | halving from the default size leaves nothing after exactly ten rejections, the last at size one |
| `PageKeys.ComputeNextKey` | lib/backend/backend.go:238-250 | the loop from the last byte computes the next key that the theorems are about |
| `PageKeys.NextKeyMeans` | lib/backend/backend.go:238-255 | the next key byte by byte from the last one back |
| `PageKeys.NextKeyBounds` | lib/backend/backend.go:235-264 | at or after the next key of a key comes exactly what comes after that key without starting with it |
| `PresenceNodes.IterateAll` | lib/backend/backend.go:94-110 | reading batches and going on after the last key collects the next matches, up to the page size, if no match has a name that extends another name |
| `PresenceNodes.PresenceConforms` | lib/services/local/presence.go:257-304 | then, if every match has a next key, the pages meet what the client relies on, whatever is rejected for its size and whichever requests fail |
| `PresenceNodes.PresencePaginatesIff` | lib/services/local/presence.go:257-304 | for given labels the service paginates exactly under that condition: otherwise no choice of keys makes its answers those of a listing |
| `PresenceNodes.PresencePaginatesAlwaysIff` | lib/services/local/presence.go:257-304 | for all labels exactly when no name is a proper prefix of another and every name has a next key |
| `PresenceNodes.WebHidesWeb2` | lib/services/local/presence.go:298-301 | the two pages that list "web" and leave out "web-2" |
| `SemaphoreSpec.RunSound` | api/types/semaphore.go:118-196 | over every run from a configured semaphore lease IDs are distinct, no held lease outlives the semaphore, its expiry never goes back, and no more leases are held than some successful acquire allowed |
| `SemaphoreSpec.SoundStep` | api/types/semaphore.go:118-196 | each operation keeps that, and a refused one changes nothing |
| `SemaphoreSpec.LeaseSurvives` | api/types/semaphore.go:118-196 | no run loses a lease that it neither cancels nor lets expire |
| `SemaphoreSpec.AcquireThenCancel` | api/types/semaphore.go:118-184 | a granted lease is held, and cancelling it gives back the leases there were |
| `SemaphoreSpec.CancelRemovesOnly` | api/types/semaphore.go:173-184 | cancelling cuts the named lease out of the list, the others staying as they are and in order |
| `SemaphoreSpec.ExpireTwice` | api/types/semaphore.go:187-196 | expiring at one time and then at a later one is expiring once at the later |
| `SemaphoreSpec.AcquireAnswer` | api/types/semaphore.go:118-135 | exactly when an acquire is granted, and when each of the three errors is given |
| `SemaphoreSpec.AcquireEffect` | api/types/semaphore.go:137-152 | the lease that is granted and the state with it |
| `SemaphoreSpec.KeepAliveMeans` | api/types/semaphore.go:156-170 | done exactly when the lease is contained; its reference gets the new expiry, later or earlier, and nothing else changes but the semaphore's expiry |
| `SemaphoreSpec.CancelMeans` | api/types/semaphore.go:173-184 | done exactly when the lease is contained; its first reference is cut out |
| `SemaphoreSpec.RemoveExpiredMeans` | api/types/semaphore.go:187-196 | exactly the leases that expire later than now stay |
| `SemaphoreSpec.WithinSomeLimit` | api/types/semaphore.go:123-128 | the leases held fit the limit of some acquire that the run granted |
| `SemaphoreObject.ConfigureSemaphore` | api/types/semaphore.go:56-68 | when a request configures a semaphore, and that it is empty with the request's expiry |
| `SemaphoreObject.SemaphoreV3.Contains` | api/types/semaphore.go:105-115 | membership by kind, name and lease ID |
| `SemaphoreObject.SemaphoreV3.Acquire` | api/types/semaphore.go:118-153 | the object, appending in place or into a larger array, does what the value does, refusals included |
| `SemaphoreObject.SemaphoreV3.KeepAlive` | api/types/semaphore.go:156-170 | the element updated in place is the one the value updates, and the expiry only grows |
| `SemaphoreObject.SemaphoreV3.Cancel` | api/types/semaphore.go:173-184 | moving the tail down in the shared array is removing one element of the sequence |
| `SemaphoreObject.SemaphoreV3.RemoveExpiredLeases` | api/types/semaphore.go:187-196 | filtering over the array being read is filtering the sequence |
| `PluginData.PluginDataV3.Update` | api/types/plugin_data.go:147-190 | an update succeeds exactly when kind, resource and expectations match, has one effect whatever the order of its keys, and otherwise changes nothing |
| `PluginData.PluginDataV3.CheckExpectations` | api/types/plugin_data.go:195-217 | both branches decide whether every expected field has its value in the total map |
| `PluginData.NewPluginData` | api/types/plugin_data.go:43-57 | a new store is empty and needs a name and a kind |
| `PluginData.UpdatedLookup` | api/types/plugin_data.go:174-188 | the effect is pointwise override of the total map, and nothing empty is ever stored |
| `PluginData.UpdatedMeans` | api/types/plugin_data.go:174-188 | exactly what a successful update leaves stored, on the maps themselves |
| `PluginData.RunRefines` | api/types/plugin_data.go:43-217 | from a new store every run is sparse and refines the same run of a total map that starts empty |
| `PluginData.SparseIsCanonical` | api/types/plugin_data.go:178-188 | sparse stores with the same total map are equal |
| `PluginData.AtMostOneWins` | api/types/plugin_data.go:158-163 | of any number of updates with the same expectations that each change an expected key, at most one succeeds |
| `CertAuthoritySpec.StripCommutes` | api/types/authority.go:168-187 | looking keys up in the stripped authority gives the stripped keys, under both schemas |
| `CertAuthoritySpec.StrippedLists` | api/types/authority.go:335-366 | the trusted lists of a stripped authority hold no private key and keep every length and public part; stripping twice is stripping once |
| `CertAuthoritySpec.WriteBackKeepsTrust` | api/types/authority.go:301-333 | writing an authority's own keys back into the new schema changes no trusted list, empty or refused sides included |
| `CertAuthoritySpec.OldLayout` | api/types/authority.go:276-325 | an old-schema authority with two keys of each type has the first as active and the second as additional keys |
| `CertAuthoritySpec.OldPositions` | api/types/authority.go:276-325 | the same for old lists of any lengths, a missing signing key included |
| `CertAuthoritySpec.NewSchemaWins` | api/types/authority.go:301-366 | a key set of the new schema that holds any key wins as a whole, each side by itself; trusted lists are active keys and then additional ones |
| `CertAuthoritySpec.NothingSecretLeft` | api/types/authority.go:170-187 | no private key is left anywhere in a stripped authority, reachable by a getter or not, and all public parts are |
| `CertAuthoritySpec.ValidKeysMeans` | api/types/authority.go:676-724 | a key set is refused exactly when some pair has no public part |
| `CertAuthorityObject.Authority.WithoutSecrets` | api/types/authority.go:162-187 | the stripped copy shares no key pair with the original, which stays as it was |
| `CertAuthorityObject.Authority.RemoveCASecrets` | api/types/authority.go:170-187 | overwriting the old pairs in place and replacing the new sets is stripping the value |
| `CertAuthorityObject.Keys.WithoutSecrets` | api/types/authority.go:660-672 | a stripped deep copy of a key set |
| `CertAuthorityObject.Authority.GetOldKeySet` | api/types/authority.go:276-299 | the old-schema keys of an index, as fresh copies |
| `CertAuthorityObject.Authority.GetActiveKeys` | api/types/authority.go:301-308 | the new-schema set itself if it holds any key, else a copy of the old one |
| `CertAuthorityObject.Authority.GetAdditionalTrustedKeys` | api/types/authority.go:318-325 | the same for additional trusted keys |
| `CertAuthorityObject.Authority.SetActiveKeys` | api/types/authority.go:310-316 | a set with a pair that lacks its public part is refused and changes nothing; any other is stored as it is |
| `CertAuthorityObject.Authority.SetAdditionalTrustedKeys` | api/types/authority.go:327-333 | the same for additional trusted keys |
| `CertAuthorityObject.Authority.WriteBack` | api/types/authority.go:301-333 | reading both key sets of the object and setting them again changes no trusted list |
| `CertAuthorityObject.Authority.GetTrustedSSHKeyPairs` | api/types/authority.go:335-344 | active and then additional pairs, as fresh copies |
| `CertAuthorityObject.Authority.GetTrustedTLSKeyPairs` | api/types/authority.go:346-355 | active and then additional pairs, as fresh copies |
| `CertAuthorityObject.Authority.GetTrustedJWTKeyPairs` | api/types/authority.go:357-366 | active and then additional pairs, as fresh copies |
| `RotationSchedule.ScheduleOrderedIff` | api/types/authority.go:564-573 | a positive grace period gives ordered phases exactly when its double fits in 64 bits, and ends at now plus the period |
| `RotationSchedule.SchedulePassesIff` | api/types/authority.go:564-593 | exactly which start times and periods pass the validator at that time, all later than the zero time with a fitting double among them |
| `RotationSchedule.ScheduleMeans` | api/types/authority.go:564-573 | when there is a schedule, and each of its three phases |
| `RotationSchedule.ValidatorMeans` | api/types/authority.go:576-593 | what any schedule must satisfy to pass |
| `AccessRoles.Deduplicate` | api/utils/slices.go:65-78 | the loop keeps the first occurrence of each value |
| `AccessRoles.DedupOrder` | api/utils/slices.go:65-78 | the survivors are in the order of their first occurrences |
| `AccessRoles.NormalEqualIff` | api/types/access_request.go:312-314 | two role lists normalise alike exactly when they name the same roles; normalising is idempotent |
| `AccessRoles.AccessRequestV3.CheckAndSetDefaults` | api/types/access_request.go:285-317 | exactly when a request is accepted; a missing state becomes pending even if it is not; only an accepted request has its roles normalised |
| `AccessRoles.AccessRequestV3.GetOriginalRoles` | api/types/access_request.go:207-223 | the shortcut and the rebuild, in any order of the mapping's keys |
| `AccessRoles.OriginalRolesRecoveredIff` | api/types/access_request.go:207-223 | for any normalised current list the original list comes back exactly if it is the current one, or is not empty and has another length |
| `AccessRoles.OriginalRolesRecovered` | api/types/access_request.go:207-223 | from the original roles' mapping and a normalised selection of them both paths give the original list |
| `Separator.JoinSplit` | dronegen/main.go:108 | joining the split of any file gives the file |
| `Separator.SplitJoinIff` | dronegen/main.go:91 | splitting gives back joined chunks exactly when none holds or runs into a separator, which overlaps itself |
| `Separator.JoinMeans` | dronegen/main.go:91 | the bytes that joining puts between chunks |
| `Pipelines.ParsePipelines` | dronegen/main.go:107-122 | the chunks but signatures, in order, or a failure if one does not parse |
| `Pipelines.WritePipelines` | dronegen/main.go:37-94 | the loops merge as specified: success exactly when every chunk parses, every replacement encodes and every generated name occurs; only the first chunk of a generated name changes |
| `Pipelines.WrittenFile` | dronegen/main.go:63-91 | a written file has, for the first chunk of each generated name, its comment and the encoded pipeline, and the old bytes of every other chunk |
| `Pipelines.MergeFails` | dronegen/main.go:44-88 | when nothing is written, for each of the three reasons, and which names are reported missing |
| `Pipelines.ParseMeans` | dronegen/main.go:107-122 | chunk by chunk: signatures go, any other chunk must parse and keeps its bytes |
| `Pipelines.ByNameMeans` | dronegen/main.go:52-60 | unnamed generated pipelines are skipped and the last of each name counts |
| `Pipelines.MergeNothing` | dronegen/main.go:63-91 | with nothing to replace and no signature the file is rewritten byte for byte |
| `Pipelines.MergeIdempotent` | dronegen/main.go:48-91 | merging again into the merged file changes nothing, if generated text is a chunk that names its pipeline |
| `OpenRecorder.MapExact` | bpf/enhancedrecording/disk.bpf.c:57-97 | for every sequence of whole probes the map holds exactly the threads inside a call whose enter was stored, with that call's process and flags, within its capacity |
| `OpenRecorder.Conservation` | bpf/enhancedrecording/disk.bpf.c:69-97 | the ring holds, in order, records made from each exit and its own enter, and delivered and lost add up to the completed calls, up to wrap-around of the counter |
| `OpenRecorder.MissedIff` | bpf/enhancedrecording/disk.bpf.c:74-78 | when threads alternate, an exit finds no entry exactly when the map was full when its call began |
| `OpenRecorder.EnterMeans` | bpf/enhancedrecording/disk.bpf.c:57-67 | the process is the upper half of the identifier; an entry is overwritten, and a new one needs one of 8192 places |
| `OpenRecorder.ExitMeans` | bpf/enhancedrecording/disk.bpf.c:69-97 | nothing without an entry; else the entry goes and its record is delivered or counted |
| `OpenRecorderKernel.LookupMissesIff` | bpf/enhancedrecording/disk.bpf.c:57-78 | the same for the lookup in every interleaving, with the map at the moment of the update that began the call |
| `OpenRecorderKernel.InterleavingRefines` | bpf/enhancedrecording/disk.bpf.c:57-97 | map update, lookup, read, output, count and deletion interleaved in any way do what an order of whole probes does, with the same map at every moment; ring and counter run ahead by the exits under way; no entry is read after it was freed |
| `OpenRecorderKernel.InterleavingMapExact` | bpf/enhancedrecording/disk.bpf.c:57-97 | in every such interleaving the map holds exactly the threads between a stored enter and the end of its exit, with that enter's data |
| `OpenRecorderKernel.InterleavingConserves` | bpf/helpers.h:50-64 | delivered and lost add up to the completed calls and the exits already past ring and counter, until the counter wraps |
| `OpenRecorderKernel.RingOrderCanDiffer` | bpf/enhancedrecording/disk.bpf.c:91-94 | two threads whose map entries go in the other order than their records came, so the ring order is not that of the whole probes |
| `OpenRecorderKernel.InterleavingAtRest` | bpf/enhancedrecording/disk.bpf.c:69-97 | with no exit under way the ring holds exactly the records of the whole probes |
| `OpenRecorderKernel.ProbesAreReal` | bpf/enhancedrecording/disk.bpf.c:57-97 | the whole probes have the arguments and the ring's answers of the operations they consist of |
| `StreamWatcher.DeliveredIsPrefix` | api/client/streamwatcher.go:83-101 | in every interleaving the events handed out are an in-order prefix of the decoded stream |
| `StreamWatcher.EventsMeans` | api/client/streamwatcher.go:83-101 | the decoded stream is the events up to the first message that does not convert |
| `StreamWatcher.EverythingCanBeDelivered` | api/client/streamwatcher.go:83-101 | some run hands out the whole decoded stream |
| `StreamWatcher.ErrorAfterDone` | api/client/streamwatcher.go:62-76 | a caller that saw Done gets an error, and the receiver's if the receiver took the lock before any cancellation |
| `StreamWatcher.AnswersTell` | api/client/streamwatcher.go:62-69 | what each answer tells, and that before any cancellation there is no error |
| `StreamWatcher.ReceivedIsReal` | api/client/streamwatcher.go:62-101 | a receive error that a caller gets was returned by a receive or a failed conversion |
| `StreamWatcher.ChoicesAreFree` | api/client/streamwatcher.go:62-101 | whatever is ready can happen: no select and no lock prefers anyone |
| `StreamWatcher.ContextErrorFrom` | api/client/streamwatcher.go:62-101 | in every state of every run an idle caller can still see Done and get the bare context error exactly when the receiver neither holds the lock nor has recorded its error |
| `StreamWatcher.UnsettledErrorCanHide` | api/client/streamwatcher.go:62-101 | the continuation that shows it from every such state, whatever the receiver is doing and whether or not anyone has cancelled |
| `StreamWatcher.LateCancel` | api/client/streamwatcher.go:85-88 | cancelling between a failed receive and the lock reaches such a state with a receive error |

## Left out

- AccessRoles.AccessRequestV3.CheckAndSetDefaults: whether the check of the metadata passes is an input.
- CertAuthorityObject.Authority.RemoveCASecrets: returns the updated fields instead of assigning them through the authority's own pointer, as do the setters; all pairs are shared objects, though the source keeps the old TLS and JWT pairs as slice elements, so the model also allows old lists that share pairs with new sets.
- PluginData.PluginDataV3.Update: entries are values of a nested map, so a caller's alias of one entry object is not modelled.
- OpenRecorderKernel.InterleavingRefines: the ring is compared as a multiset, because its order need not be that of the whole probes (`RingOrderCanDiffer`); command name, the text behind the file name pointer (the record keeps the pointer) and the doorbell byte, whose failure is ignored, are not modelled.
- Pipelines.MergeIdempotent: assumes that an empty chunk parses as YAML, as the empty document does.
- PresenceNodes.PresenceConforms: one namespace; the range of the source also covers namespaces whose names extend this one's. The key whitelist of the backend's sanitizer is among the requests that may fail; whether a key can be carried as UTF-8 text is not modelled.
- The auth server and the cache, which wrap or emulate `ListNodes`.
- The CompareAndSwap retry loop around the semaphore in lib/services/local/presence.go.
- `SetState`, `GetResolveTime`, filters' `Match` methods, `AllKeyTypesMatch`, rotation state checks: single loops or branches.
- `eventFromGRPC`: which message converts is an input of the watcher model.
- TLS, SSH and gRPC details of a dial, and its timeout: every attempt ends, in success or failure.
- Serialisation of resources, and the files that hold identities and pipelines.
- The gRPC wrappers of the client, HTTP handlers, the web interface, deployment and build tooling.
