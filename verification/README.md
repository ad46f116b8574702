# Verified models of the 3x-ui panel's core logic

This project models the parts of the 3x-ui panel (and of its documentation site) where a mistake
is expensive and hard to see, and proves what they are for. Each component has its own modules;
code that changes things step by step is modelled by classes and methods with loops, each proved
against a specification function or predicate, and the main results are lemmas about those.

- **Hot reload** (`JsonValues`, `HotConfig`, `HotDiff`, `HotLaws`, `HotApply`, `HotSoundness`). Two
  generated core configurations are compiled into an edit script, or the change is refused.
  `HotConfig` gives the running core a small semantics: inbound handlers by tag with their users by
  email, outbounds by tag plus the fixed first one, and the whole decoded routing section, of which
  a reload replaces rules and balancers only. `HotLaws` says of the JSON values themselves what the
  decoders keep and which changes force a restart. The script is legal at every step and turns the
  old core into the new one, whatever order Go walks its maps in. It names no kept handler, no api
  inbound and never the default outbound. Where some of its changes were already made through the
  runtime API, or an attempt broke off half-way, the panel's rules for missing and existing handlers
  still bring the core to the new state.
- **mtg sidecar manager** (`Sorting`, `Mtg…`). A reconciler that does nothing, pushes secrets or
  restarts, and a traffic collector that drops the lock between snapshot, scrape and write-back.
  Stopping, writing, starting, pushing and scraping may fail at every point; a secret update may
  also be taken without an answer coming back. In every reachable state each entry's fingerprints
  are those of what its process was really given; over every interleaving no byte is reported twice.
  The rendered configuration file, read by an independent reader, says what the instance says.
- **AmneziaWG** (`Awg…`, `Obfuscation`, `ObfuscationLaws`, `Normalize`, `NormalizeLaws`,
  `Provision`, `Allocators`, `AllocatorLaws`, `PeerAllocation`, `PeerRecords`). The line-oriented
  parser undoes the configuration printer; the random generator always satisfies the separately
  written validator; one normalizing pass with a provision plan leaves nothing for a later one; the
  allocators are least-free searches that fail only when nothing is free; the down hook removes
  exactly the firewall rules of the up hook.
- **Remarks** (`Remark…`, `Jalali`). The template filter is exact on `{{TOKEN}}` placeholders and
  idempotent, bracket translation is idempotent on every string and also after filtering, and the
  Jalali conversion commutes with "next day".
- **Counters and windows** (`OnlineTracker`, `OnlineHistory`, `StatsDeltas`, `StatsRecords`,
  `StatsClients`, `RateLimiter`, `LimiterAnswers`, `LimiterClock`). Each is a pruned cache proved
  equal to a definition over the full history.
- **Share links** (`ShareBytes`, `ShareLink`, `ShareForms`) and **proxy names** (`ProxyNames`).
  Base64, UTF-8 and percent-encoding round trips, exactly which Shadowsocks links come back, and
  unique naming.

`Text` holds the string functions of Go's standard library that several modules rely on.

## Where the code does less than one might expect

Each of these comes with the exact condition, over all inputs, under which the code does meet the
property, and where the condition does not show it, with an input on which the code does not.

- `secretsFingerprint` joins its fields with `=`, `;tag=` and `|` without escaping. Among fields free
  of these separators it identifies the multiset of secrets (`MtgConfig.SecretsFingerprintDecides`).
  Against arbitrary fields it tells a list from every other exactly when the list is empty, or a
  single entry that can be read in one way (`MtgFingerprints.DecidesExactly`). Order never matters.
- Equal fingerprints stand for equal secret payloads exactly for entries that agree wherever they
  share a name (`MtgConfig.PayloadDecidedExactly`, `MtgConfig.RepeatedNameCollides`).
- `renderConfig` quotes with Go's `%q`. What it prints is a TOML string exactly when the field holds
  no control character other than backspace, tab, newline, form feed and carriage return
  (`MtgToml.TomlExactly`).
- A second reconcile is free of work exactly when desired instances of the same id agree
  (`MtgReconcile.SecondReconcileIsQuiet`); otherwise it replaces the process again each time.
- The configuration parser drops a peer whose public key is blank, so a printed peer comes back
  exactly when its key is not blank (`AwgPeers.RoundTrip`, `AwgPeers.AllPeersComeBack`).
- `collectPeers` protects an assigned address against earlier clients only. It is shared exactly when
  a later client or an inherited peer names it (`PeerAllocation.SharedExactly`,
  `PeerAllocation.LaterClientMayCollide`).
- `collectPeers` takes the pool from the server's prefix and forgets the server's address. That
  address is safe from assignment exactly when it is one of the first two of its prefix
  (`PeerAllocation.ServerIsSafeExactly`, `PeerAllocation.ServerMayCollide`).
- An online client's session tag may be idle. A call keeps session tags active, whatever good calls
  came before, exactly when it attributes every active email and names only tags it saw active
  (`OnlineHistory.GoodCallIsExactOverRuns`, `OnlineHistory.StrayAttributionBreaks`); on a given run the
  tag is active exactly when the last attribution was to a tag still active
  (`OnlineHistory.SessionActiveIsExact`).
- The rate limiter's pruning shows when the clock runs back (`RateLimiter.BackwardClockBreaks`). It
  changes no answer, whatever the keys, exactly when no prune deletes what a later call still falls
  into the cooldown of (`LimiterClock.PruningIsInvisibleExactly`). Retained keys are younger than two
  cooldowns exactly when the cooldown is positive.
- A traffic record keeps the last delta per tag and direction, so an inbound and an outbound with one
  tag lose traffic (`StatsRecords.SharedTagLoses`). A record is the sum exactly when every delta but
  the last is zero, and no answer loses anything exactly when no two of its names count for one tag
  and direction (`StatsRecords.RecordIsTotalExactly`, `StatsRecords.NothingLostExactly`).
- A Shadowsocks link comes back exactly when the address is not empty, has none of `#`, `@`, `/`,
  `?`, keeps brackets off the places the parser strips, and the credential does not start with a
  byte order mark, which TextDecoder swallows (`ShareLink.LinkRoundTrip`).
- One normalizing pass is enough exactly when it had a provision plan, or address, interface, key and
  port were there already (`Provision.PassTwiceExactly`).

## Model

| member | source | states |
|---|---|---|
| HotSoundness.DiffIsSound | internal/xray/hot_diff.go:48-97 | running the script on the old configuration's core never meets a missing or an existing handler and ends in exactly the new configuration's core, for every edit script the diff may produce (any map order) |
| HotSoundness.RedoReachesNew | internal/web/service/xray.go:1009-1054 | the same from a core where what the script sets was already changed through the runtime API, which is what the rules for missing and existing handlers are for |
| HotSoundness.StepStaysRecoverable | internal/web/service/xray.go:1009-1054 | any runtime API call about something the script names keeps the core such that the script can be redone |
| HotSoundness.RetryStaysRecoverable | internal/web/service/xray.go:1059-1107 | so do the reconciling additions, also when only their removal was made |
| HotSoundness.RedoAfterAnyAttempt | internal/web/service/xray.go:976-1107 | whatever was changed through the runtime API about things the script names, in any order and number, applying the whole script ends in the new core |
| HotSoundness.InterruptedAttemptRecovers | internal/web/service/xray.go:976-1107 | the case of the old core with some of the operations made, as when an attempt broke off |
| HotSoundness.ScriptIsMinimal | internal/xray/hot_diff.go:102-197 | no operation touches an inbound or outbound that is equal on both sides, the api inbound or the default outbound, and no tag gets both user edits and a removal or addition |
| HotSoundness.AddedUserIsFree | internal/xray/hot_diff.go:160-197 | a user that is added is not on the inbound when its turn comes |
| HotSoundness.AddedHandlersAreFree | internal/xray/hot_diff.go:102-152 | an added inbound's or outbound's tag is free once the removals are done |
| HotSoundness.StrictUserRemovals | internal/xray/hot_diff.go:102-197 | every removed user, inbound and outbound exists in the old core |
| HotSoundness.TryHotApply | internal/web/service/xray.go:983-1107 | from every core that was changed at most in what the script names: true exactly when the change is applicable and no call failed, and then the core is the new one; a call that fails, without effect, half-way through a retry or with its answer lost, leaves a core the script still brings to the new state |
| HotSoundness.OldCoreWillDo | internal/web/service/xray.go:983-985 | the core the stored configuration was started on is one of those |
| HotDiff.ComputeHotDiff | internal/xray/hot_diff.go:48-97 | a diff exactly when each of the twelve restart-only sections means the same on both sides and inbounds, outbounds and routing can be edited; then each edit is there exactly once |
| HotDiff.DiffInbounds | internal/xray/hot_diff.go:102-152 | refuses exactly when some inbound must restart the core; otherwise lists every removal, addition and user edit exactly once |
| HotDiff.DiffOldInbound | internal/xray/hot_diff.go:114-138 | what is appended for one running inbound: kept, refused, user edits, replaced or dropped |
| HotDiff.AddNewInbounds | internal/xray/hot_diff.go:139-152 | inbounds with a new tag are added once each, unless one is the api inbound or cannot be encoded |
| HotDiff.DiffInboundUsers | internal/xray/hot_diff.go:160-197 | refusing leaves the script untouched; otherwise exactly the gone or changed clients are removed and the new or changed ones added, once each |
| HotDiff.SplitSettingsClients | internal/xray/hot_diff.go:208-245 | clients by email and the remaining settings, or nothing on a client without an email or a repeated email |
| HotDiff.IndexInbounds | internal/xray/hot_diff.go:432-445 | the inbounds by tag, or nothing on an empty or repeated tag |
| HotDiff.DiffOutbounds | internal/xray/hot_diff.go:278-322 | refuses exactly on an unreadable list or another first outbound; otherwise removes and adds exactly what changed |
| HotDiff.ReadOutbounds | internal/xray/hot_diff.go:456-488 | the outbounds in order with their tags, or nothing when a tag is empty or repeated or the text does not decode |
| HotDiff.DiffRouting | internal/xray/hot_diff.go:328-350 | accepts exactly one text for both, or two sections that decode and are both null or differ at most under rules and balancers; sets the new section exactly when the text differs |
| HotDiff.Diff.Empty | internal/xray/hot_diff.go:34-43 | true exactly for the script without operations |
| HotLaws.RoutingChangeExactly | internal/xray/hot_diff.go:328-370 | a changed routing section is accepted exactly when both texts decode, to null both or to two objects with the same value under every key but rules and balancers |
| HotConfig.ReloadedKeepsRest | internal/web/service/xray.go:1047-1051 | replacing rules and balancers leaves every other key of the running section as it was |
| HotLaws.FixedSectionsDecide | internal/xray/hot_diff.go:48-97 | a change in the meaning of any of the twelve other sections forces a restart |
| HotLaws.InboundSameExactly | internal/xray/hot_diff.go:375-383 | an inbound counts as unchanged exactly when each of its seven parts means the same |
| HotLaws.SectionsEqualExactly | internal/xray/hot_diff.go:392-405 | sections are equal exactly when they are one text, both absent or null, or decode to one value |
| HotLaws.UserEditsExactly | internal/xray/hot_diff.go:160-197 | clients are edited in place exactly for vless, vmess and trojan inbounds with readable client lists and nothing else changed |
| HotLaws.IndexClientsExactly | internal/xray/hot_diff.go:208-245 | a client list is indexed exactly when every client has a non-empty email of its own, and then the index holds each client under it and no other |
| HotLaws.SplitExactly | internal/xray/hot_diff.go:208-245 | settings are split exactly when they are an object with such a list; every other key keeps its value |
| HotLaws.InboundHasReverseClient | internal/xray/hot_diff.go:249-271 | true exactly when some client carries a reverse value other than null, in settings that decode |
| HotLaws.ReverseForcesRestart | internal/xray/hot_diff.go:114-138 | a changed inbound that carries, or comes to carry, such a client is never applied hot |
| HotLaws.UnreadableForcesRestart | internal/xray/hot_diff.go:139-152 | nor is a new inbound with a section that does not decode |
| HotLaws.OutboundsReadExactly | internal/xray/hot_diff.go:456-488 | the outbounds are read exactly when absent, null, or a list whose members all have non-empty tags of their own, in order |
| HotLaws.ApiTagExactly | internal/xray/hot_diff.go:490-498 | the api tag is the section's own non-empty tag, and "api" without one |
| HotConfig.InboundsByTagSound | internal/xray/hot_diff.go:432-445 | the index holds exactly the listed inbounds, and only a list of distinct non-empty tags has one |
| HotConfig.EntriesDistinct | internal/xray/hot_diff.go:456-488 | outbounds that parse have distinct non-empty tags |
| HotConfig.OutboundTableAt | internal/xray/hot_diff.go:278-322 | the outbound index holds exactly the parsed entries |
| JsonValues.RawEqualNormalized | internal/xray/hot_diff.go:392-405 | two raw sections are equal exactly when they mean the same to the core; absent and null are the same |
| HotApply.RemoveUsersPhase | internal/web/service/xray.go:1011-1016 | the user-removal loop removes exactly the named users from the handlers they are named for |
| HotApply.AddInboundsPhase | internal/web/service/xray.go:1035-1040 | the inbound-addition loop, strict or reconciling, ends with every added inbound in place of what had its tag |
| HotApply.AddUsersPhase | internal/web/service/xray.go:1041-1046 | the user-addition loop ends with every added user holding its new value |
| MtgReconcile.NeverLies | internal/mtproto/manager.go:274-384 | in every state reachable by ensuring, removing, reconciling, stopping and crashes, an entry's fingerprints are those of what its process was started on and last took |
| MtgReconcile.EnsureKeepsTruth | internal/mtproto/manager.go:284-336 | ensuring keeps that, whatever fails on the way |
| MtgReconcile.MatchingEntryRunsInstance | internal/mtproto/manager.go:274-302 | behind a matching entry the process serves that configuration text and that multiset of secrets, for separator-free fields |
| MtgReconcile.EnsureOutcome | internal/mtproto/manager.go:284-336 | success means the instance runs; failure leaves the old entry or none; other ids are untouched; with working outside actions it succeeds |
| MtgReconcile.ReconcileConverges | internal/mtproto/manager.go:353-373 | with working outside actions the managed ids are the desired ones, each running the last instance given for it |
| MtgReconcile.QuietMeansMatch | internal/mtproto/manager.go:284-336 | ensuring starts, stops, pushes and writes nothing exactly when the entry is live and matches |
| MtgReconcile.SecondReconcileIsQuiet | internal/mtproto/manager.go:353-373 | a second reconcile does no work exactly when desired instances of one id agree |
| MtgManager.Manager.EnsureLocked | internal/mtproto/manager.go:284-336 | the whole new state for every combination of outcomes: noop, reload with fall-through, restart, fresh start |
| MtgManager.Manager.Remove | internal/mtproto/manager.go:339-348 | stops and forgets that id and nothing else |
| MtgManager.Manager.Retire | internal/mtproto/manager.go:361-367 | whatever order the map is walked in, exactly the unwanted entries are stopped and forgotten |
| MtgManager.Manager.Reconcile | internal/mtproto/manager.go:353-373 | retires first, then ensures every desired instance in order |
| MtgManager.Manager.StopAll | internal/mtproto/manager.go:376-384 | nothing is managed afterwards |
| MtgManager.Manager.WantedIds | internal/mtproto/manager.go:357-360 | exactly the ids of the desired instances |
| MtgManager.EnsureKeepsOwned | internal/mtproto/manager.go:284-336 | every entry keeps referring to a process started for its id, on its port and token |
| MtgCases.NothingToDo | internal/mtproto/manager.go:289-291 | a live process with the same configuration and secrets: no process is touched, no work done, the tag is taken over |
| MtgCases.SecretsInPlace | internal/mtproto/manager.go:292-300 | other secrets, taken live: the same process goes on with them after one write and one push, without start or stop |
| MtgCases.FileNotWritten | internal/mtproto/manager.go:292-295 | when the file cannot be written first, nothing changes and the call fails |
| MtgCases.NotConfirmed | internal/mtproto/manager.go:301-306 | secrets that are not confirmed: the process is stopped and one fresh process takes its place, or none is managed |
| MtgCases.Replaced | internal/mtproto/manager.go:303-336 | a dead process or another configuration: likewise, without a push |
| MtgCases.FirstStart | internal/mtproto/manager.go:308-336 | nothing managed yet: exactly one process on the drawn port and token, exactly when every step works |
| MtgCases.RemovedIsStopped | internal/mtproto/manager.go:339-348 | removing stops that process, where stopping works, and touches no other |
| MtgCases.UnwantedAreStopped | internal/mtproto/manager.go:361-367 | reconciling stops the process of each entry whose id no desired instance has, and touches no other |
| MtgEvolution.CallEvolves | internal/mtproto/manager.go:284-384 | no call changes a started process's identity or counters; a replacing entry starts without a last scrape |
| MtgTraffic.ScrapeDeltas | internal/mtproto/manager.go:412-440 | for one answer, in any map order: one record for each known client whose bytes in or out grew, up by how far the bytes in and down by how far the bytes out went beyond the last scrape, never below zero; the clients with connections; the next baseline, bytes in as up and bytes out as down |
| MtgTraffic.ScrapeKeepsNoOver | internal/mtproto/manager.go:412-447 | a scrape of an answer that shows the process's bytes keeps reported plus pending bytes below the counted ones, bytes in for up and bytes out for down |
| MtgTraffic.DeltaSumTelescopes | internal/mtproto/manager.go:419-435 | with the client in every scrape and no restart the differences add up to last minus first |
| MtgAccounting.StepKeepsInv | internal/mtproto/manager.go:389-450 | the accounting invariant survives every step of the collector, the manager and the processes |
| MtgAccounting.WriteBackKeepsInv | internal/mtproto/manager.go:443-447 | also a write-back that lands on a replacement process |
| MtgAccounting.NeverOverCounts | internal/mtproto/manager.go:389-450 | over every interleaving, per inbound and client, the reported up never exceeds the bytes in, nor the reported down the bytes out, that its processes counted |
| MtgAccounting.ExactWithoutReplacement | internal/mtproto/manager.go:389-450 | with one process, no counter restart and the client in every scrape, they are exactly last minus first counter |
| MtgConfig.CollectPairs | internal/mtproto/manager.go:105-110 | the loop of the secrets fingerprint collects the pair of every entry in order |
| MtgConfig.FingerprintIgnoresOrder | internal/mtproto/manager.go:105-112 | reordering secrets never changes the fingerprint |
| MtgConfig.SecretsFingerprintDecides | internal/mtproto/manager.go:105-112 | for separator-free fields, fingerprints are equal exactly for the same multiset of entries |
| MtgConfig.SeparatorsCollide | internal/mtproto/manager.go:105-112 | one secret holding a separator has the fingerprint of two entries |
| MtgFingerprints.DecidesExactly | internal/mtproto/manager.go:105-112 | against all lists, whatever their fields hold, the fingerprint decides the multiset exactly for the empty list and for a single entry without '=' in name and secret and without ";tag=" in its tag |
| MtgConfig.StructuralFingerprintDecides | internal/mtproto/manager.go:82-98 | any instance with the structural fingerprint of one whose fields are free of the separator gives the same configuration text before the per-secret sections |
| MtgConfig.FingerprintDecidesPayload | internal/mtproto/manager.go:560-566 | equal secret fingerprints deliver the same secrets to a live process when entries of one name agree |
| MtgConfig.PayloadDecidedExactly | internal/mtproto/manager.go:560-566 | among separator-free lists, they do so for every list of that fingerprint exactly when entries of one name agree |
| MtgConfig.RepeatedNameCollides | internal/mtproto/manager.go:560-566 | with two different entries of one name they may not |
| MtgConfig.RenderConfig | internal/mtproto/manager.go:471-533 | the rendered text, section by section, for every combination of set and unset fields; MtgToml.RenderedReadsBack says what it holds |
| MtgToml.RenderedReadsBack | internal/mtproto/manager.go:471-533 | read by an independent line reader, the rendered text gives exactly these settings in order: address, flags, api address and token, public addresses, fronting, network and throttle fields as the instance has them, the tagged names with their tags, and every name with its secret |
| MtgToml.TagSettingsAre | internal/mtproto/manager.go:513-524 | the settings of the tag section are those of exactly the entries with a tag, in order, each with its own name and tag |
| MtgToml.UnquoteBack | internal/mtproto/manager.go:473-531 | what %q prints is read back, whatever the text holds |
| MtgToml.TomlExactly | internal/mtproto/manager.go:473-531 | a field is printed as a TOML string exactly when it holds no control character for which TOML has no escape |
| MtgConfig.RenderTags | internal/mtproto/manager.go:513-524 | the tag section: its header before the first tag only, one line per tagged secret |
| MtgConfig.BuildPayload | internal/mtproto/manager.go:560-566 | one entry per name, the last one when a name repeats |
| Sorting.SortDecides | internal/mtproto/manager.go:110-111 | sorting gives the same list exactly for the same elements, counted |
| AwgPeers.RoundTrip | internal/awg/config.go:329-461 | parsing the printed text recovers key, address, port, MTU (0 if unset), every obfuscation field, both hooks and every peer with a public key in order, for any one-line field values and any number of peers |
| AwgPeers.AllPeersComeBack | internal/awg/config.go:336-352 | peers with a visible key come back one for one, trimmed, with the default allowed addresses where there were none |
| AwgPeers.PrintThenParse | internal/awg/manager.go:310-355 | the two loops one after the other: nothing is printed without a secret key, otherwise everything comes back |
| AwgConfig.BuildConfig | internal/awg/manager.go:310-355 | refuses a blank secret key, otherwise prints the interface, obfuscation, hooks and every peer in order |
| AwgConfig.AppendObfuscationLines | internal/awg/manager.go:357-383 | the junk numbers always, headers and chains when not blank, trimmed, in order |
| AwgConfig.ParseConfig | internal/awg/config.go:329-397 | the scanner loop computes the fold of the line step over the lines, flushing the last peer |
| AwgConfig.SplitAllowedIPsLoop | internal/awg/manager.go:767-780 | the trimmed non-blank parts in order; nothing for a blank value or "(none)" |
| AwgRoundTrip.ReadKey | internal/awg/config.go:399-448 | reading one printed key line sets that field and no other |
| AwgRoundTrip.ReadHead | internal/awg/config.go:329-448 | reading the printed interface section recovers every one of its fields |
| AwgRoundTrip.PostUpTight | internal/awg/manager.go:515-534 | the up hook is a single trimmed line, for one-line inputs |
| AwgRoundTrip.PostDownTight | internal/awg/manager.go:536-554 | so is the down hook |
| AwgPeers.ReadPeerFields | internal/awg/config.go:450-461 | reading a printed peer's lines recovers its keys, addresses and keepalive |
| AwgPeers.SplitAllowedJoin | internal/awg/manager.go:767-780 | splitting the joined allowed addresses gives them back |
| AwgPeers.DefaultsComeBack | internal/awg/manager.go:310-355 | what comes back for a blank address and an unset MTU, and that no DNS does |
| AwgHooks.UpAdds | internal/awg/manager.go:515-534 | run on a table of iptables rules, the up hook adds the masquerading rule of the prefix and the exit interface and the two forwarding rules of the interface; without a prefix, none |
| AwgHooks.DownUndoesUp | internal/awg/manager.go:515-554 | the down hook then leaves exactly the rules there were before, for names and prefixes without semicolons |
| AwgParser.LineIgnored | internal/awg/config.go:343-381 | blank lines, comments outside peers, lines that are neither header nor key, and keys of other sections change nothing, wherever they stand |
| AwgParser.SectionIsLastHeader | internal/awg/config.go:356-367 | a line belongs to the section of the last header before it, whatever its case |
| AwgParser.PeerIsNamed | internal/awg/config.go:343-397 | a peer is appended exactly when it has a key, under its first comment that says something |
| AwgParser.UnknownKey | internal/awg/config.go:399-448 | a key the interface section does not know sets nothing |
| AwgParser.AllowedAddresses | internal/awg/manager.go:767-780 | allowed addresses are the visible parts between commas; an empty value and "(none)" give none |
| Obfuscation.GenerateObfuscationParams | internal/awg/obfuscation.go:37-72 | for all draws in range the returned parameters pass the validator and need no provisioning, and are those the draws and the first accepted round give; nothing is returned exactly when no round is accepted |
| Obfuscation.ParamsAreValid | internal/awg/obfuscation.go:37-118 | parameters made of any draws in range and any accepted round are valid and need no provisioning |
| Obfuscation.SpansAreSeparated | internal/awg/obfuscation.go:120-136 | the drawn ranges lie in the header space, each before the next |
| Obfuscation.ValidateObfuscationParams | internal/awg/obfuscation.go:74-118 | accepts exactly the valid parameters |
| Obfuscation.FillRanges | internal/awg/obfuscation.go:120-136 | the four texts are those of the drawn ranges; the clamp and the wrap-around are never taken |
| Obfuscation.GenerateHeaderRanges | internal/awg/obfuscation.go:120-138 | the four texts are those of the drawn, separated ranges in the drawn order |
| Obfuscation.ShuffleStrings | internal/awg/obfuscation.go:216-221 | the in-place shuffle leaves the values in the order of its swaps, which is a reordering that loses none |
| Obfuscation.GeneratedHeaders | internal/awg/obfuscation.go:140-199 | separated ranges, however shuffled, print to disjoint valid headers that are not weak |
| Obfuscation.RangeTextParses | internal/awg/obfuscation.go:186-199 | a printed range parses back to its bounds |
| Obfuscation.ValidateHeadersDisjoint | internal/awg/obfuscation.go:167-184 | true exactly when all parse and no two overlap |
| Obfuscation.CheckUniqueInts | internal/awg/obfuscation.go:205-214 | true exactly when no two values are equal |
| Obfuscation.PickPaddings | internal/awg/obfuscation.go:42-55 | the first acceptable round, when there is one |
| ObfuscationLaws.NumbersDecided | internal/awg/obfuscation.go:74-97 | in valid parameters each number may be replaced by exactly the values in its bounds that differ from the other paddings and give no padded packet the size of another |
| ObfuscationLaws.ClashExactly | internal/awg/obfuscation.go:98-100 | paddings clash exactly when the three padded control packets are not of three sizes |
| ObfuscationLaws.ChainsDecided | internal/awg/obfuscation.go:109-117 | the chains may be replaced exactly when the first is blank or none is |
| ObfuscationLaws.RangeHeader | internal/awg/obfuscation.go:140-199 | a printed range is a header exactly for 0 <= lo <= hi <= 2147483647, and reads as its bounds |
| ObfuscationLaws.SingleHeader | internal/awg/obfuscation.go:140-199 | a printed number is a header exactly from 0 to 2147483647, and a weak one exactly from 1 to 4 |
| ObfuscationLaws.OverlapExactly | internal/awg/obfuscation.go:201-203 | two ranges overlap exactly when they share a value |
| ObfuscationLaws.NeedsByNumbers | internal/awg/normalize.go:12-18 | which changes of a number make parameters need provisioning |
| ObfuscationLaws.NeedsByTexts | internal/awg/normalize.go:19-28 | and which changes of a header or chain |
| ObfuscationLaws.GeneratedRanges | internal/awg/obfuscation.go:37-72 | the range of every generated number and chain length |
| ObfuscationLaws.EveryNumberIsDrawn | internal/awg/obfuscation.go:37-60 | every combination in those ranges without equal or clashing paddings is generated by some draws |
| Normalize.NormalizeInboundSettings | internal/awg/normalize.go:45-109 | every key's new value, decided on the settings as they came in |
| Normalize.ApplyObfuscation | internal/awg/normalize.go:111-128 | writes its sixteen keys and leaves every other |
| Normalize.NormalizedObfuscation | internal/awg/normalize.go:45-109 | parameters are replaced as a whole when one needs provisioning, and kept otherwise |
| Normalize.NormalizeTwice | internal/awg/normalize.go:45-109 | with a plan that leaves nothing blank, no later pass, with any such plan or none, changes anything |
| Normalize.NormalizeTwiceWithoutPlan | internal/awg/normalize.go:45-109 | without a plan, that holds exactly when address, interface and key were there |
| NormalizeLaws.PassWithPlan | internal/awg/normalize.go:45-109 | with a plan: DNS, address, interface, key, MTU and port are the plan's where the settings were blank, and the settings' own elsewhere |
| NormalizeLaws.PassWithoutPlan | internal/awg/normalize.go:45-109 | without one: the default DNS servers and MTU 1420, and nothing for the others |
| NormalizeLaws.PassParameters | internal/awg/normalize.go:95-128 | the sixteen parameter keys hold the plan's or generated values, each under its own key, exactly when one needed provisioning, and what they held otherwise |
| Provision.BuildProvisionPlan | internal/awg/provision.go:53-91 | the plan made of the picked port, name and subnet, the key pair and the generated parameters, none exactly when no port or no key pair can be had; a plan leaves nothing blank |
| Provision.PlanIsGood | internal/awg/provision.go:53-91 | every plan that can be built fills every blank and needs no provisioning itself |
| Provision.NormalizeSettings | internal/awg/normalize.go:45-109 | a pass as the panel makes it, with the plan built on the spot or freshly generated parameters |
| Provision.PassFills | internal/awg/normalize.go:45-109 | after a pass everything is filled exactly when it had a plan or address, interface, key and port were there |
| Provision.PassTwiceExactly | internal/awg/normalize.go:45-109 | no later pass, whatever it finds on the host, changes anything exactly when the first had a plan or those four were there |
| Allocators.AllocateIPv4 | internal/awg/v2.go:297-322 | the lowest pool address after the network address that is neither the server's nor used; none exactly when all are taken or the pool is unreadable |
| Allocators.AllocateIPv6 | internal/awg/v2.go:324-346 | the same without a default pool |
| Allocators.LeastFreeIsUnique | internal/awg/v2.go:297-346 | the searched address is determined by pool, start and taken set |
| PeerAllocation.AllocateAddress | internal/awg/manager.go:670-692 | the lowest free address from the second one after the network address, or none when all are taken |
| PeerAllocation.ServerIPv4Prefix | internal/awg/manager.go:556-569 | the masked prefix of the first IPv4 entry of the server's address list |
| PeerAllocation.CollectPeers | internal/awg/manager.go:600-650 | client by client: skipped, given its own addresses, or assigned the lowest address no earlier peer has; then the inherited peers that have a key; PeerRecords says which and what each holds |
| PeerRecords.CollectedRecords | internal/awg/manager.go:600-639 | the peers of the clients are those of exactly the enabled clients with a visible email and a key, in order, each with its client's email, keys and keepalive, and its own addresses or the assigned one |
| PeerRecords.LegacyRecords | internal/awg/manager.go:640-650 | the inherited peers are exactly those with a visible key, in order, with trimmed keys and everything else as it was |
| PeerRecords.PeersHandedOut | internal/awg/manager.go:600-650 | the whole result: the former, then the latter |
| PeerAllocation.FailsExactly | internal/awg/manager.go:619-625 | collecting fails exactly when the pool is used up for some client without an address |
| PeerAllocation.AssignedIsLeastFree | internal/awg/manager.go:600-650 | an assigned address lies in the pool, no earlier client has it, and every lower one past the first two is some earlier client's |
| PeerAllocation.AssignedAreDistinct | internal/awg/manager.go:600-650 | two assigned addresses are never the same |
| PeerAllocation.SharedExactly | internal/awg/manager.go:600-650 | another peer has an assigned address exactly when a later client or an inherited peer names it |
| PeerAllocation.LaterClientMayCollide | internal/awg/manager.go:600-650 | the input: the second client names the address the first was just assigned |
| PeerAllocation.NeverAssignedExactly | internal/awg/manager.go:600-692 | over all clients, an address is never assigned exactly when it lies outside the pool or among its first two |
| PeerAllocation.ServerIsSafeExactly | internal/awg/manager.go:556-692 | over all clients, the server's own address is never assigned exactly when it is one of the first two of its prefix |
| PeerAllocation.ServerMayCollide | internal/awg/manager.go:556-692 | the input: with the server at 10.66.66.2/24 the first client is assigned 10.66.66.2 |
| Allocators.PickInterfaceName | internal/awg/provision.go:123-131 | the unused name with the lowest index, or the fallback when all are used |
| Allocators.PickListenPort | internal/awg/provision.go:133-153 | the first usable random pick, otherwise the lowest usable port in range, or none when there is none |
| Allocators.PickSubnet | internal/awg/provision.go:164-185 | the first unused subnet of the search whenever there is one, and the default otherwise or when none is in use |
| AllocatorLaws.SubnetReads | internal/awg/provision.go:164-185 | a picked subnet reads as 10.x.y.0/24 and its server as 10.x.y.1/24 |
| AllocatorLaws.PickedIsApart | internal/awg/provision.go:164-185 | while a subnet of the search is unused, the picked one shares no address with any that is in use |
| AllocatorLaws.TriedExactly | internal/awg/provision.go:164-185 | the search covers 10.66.66.0 to 10.255.255.0 from the lowest address up |
| AllocatorLaws.NamesPicked | internal/awg/provision.go:123-131 | awg0, then awg1; awg_panel when all ten thousand are used |
| AllocatorLaws.TakenExactly | internal/awg/v2.go:297-346 | an address is taken exactly when it is the server's or one of those in use |
| AllocatorLaws.MaskedExactly | internal/awg/manager.go:556-569 | a masked prefix holds the 2^(32-bits) addresses from a multiple of that number on, the given one among them |
| RemarkFilter.FilterIsExact | internal/sub/remark_vars.go:503-555 | the placeholders of the output are the input's with the removed ones deleted, in order; none is lost or formed by cutting, trimming or joining |
| RemarkFilter.FilterTwice | internal/sub/remark_vars.go:503-555 | filtering twice is filtering once |
| RemarkFilter.FilterRemarkTemplate | internal/sub/remark_vars.go:503-512 | the segment loop: the non-empty filtered segments joined again |
| RemarkFilter.FilterOneSegment | internal/sub/remark_vars.go:514-537 | the loop over the matches: the runs between removed placeholders, kept where they hold one |
| RemarkFilter.AppendKeptRun | internal/sub/remark_vars.go:539-555 | a run is cut back to its placeholders on the sides where its neighbour was removed, trimmed, and dropped when it holds none |
| RemarkFilter.SegmentTokens | internal/sub/remark_vars.go:514-537 | one segment keeps exactly the placeholders that are not removed |
| RemarkLiterals.SegmentDivides | internal/sub/remark_vars.go:514-537 | a segment is divided at its first removed placeholder: what is kept of the text before it, then of the text after it |
| RemarkLiterals.AfterDivides | internal/sub/remark_vars.go:514-537 | the text after a removed placeholder is divided in the same way |
| RemarkLiterals.CutAtBoth | internal/sub/remark_vars.go:539-555 | between two removed placeholders exactly the text from the first to the last one that stays is kept |
| RemarkLiterals.RemovedBetween | internal/sub/remark_vars.go:514-555 | a placeholder removed between two that stay goes with the text up to each of them, and a space stands in their place |
| RemarkLiterals.RemovedFirst | internal/sub/remark_vars.go:514-555 | one removed before the first that stays goes with all text up to that one |
| RemarkLiterals.RemovedLast | internal/sub/remark_vars.go:514-555 | one removed after the last that stays goes with all text from that one on |
| RemarkLiterals.TwoSegments | internal/sub/remark_vars.go:503-512 | each segment is filtered on its own, and the bar stays exactly when something is left on both sides |
| RemarkTokens.TokenCut | internal/sub/remark_vars.go:38-40 | a placeholder is found wherever it stands and separates what is around it |
| RemarkTokens.FirstMatch | internal/sub/remark_vars.go:515-537 | the location list and the placeholder sequence agree, match by match |
| RemarkBrackets.TranslateUISingleBrackets | internal/sub/remark_vars.go:80-104 | the scanner loop, with its look-back and look-ahead, computes the translation of the whole text |
| RemarkBrackets.TranslateTwice | internal/sub/remark_vars.go:80-112 | translating a translated template changes nothing, for every string |
| RemarkBrackets.TranslateAfterFilter | internal/sub/remark_vars.go:581-596 | nor does translating it again after the filter |
| RemarkTranslation.KnownTranslates | internal/sub/remark_vars.go:80-104 | a known name in single braces gets its double-brace form, and the text around it stays |
| RemarkTranslation.UnknownStays | internal/sub/remark_vars.go:80-104 | any other text in single braces stays |
| RemarkTranslation.DoubleStays | internal/sub/remark_vars.go:80-104 | so does what is in double braces |
| RemarkTranslation.Renamed | internal/sub/remark_vars.go:61-75 | the thirteen known names, and what each stands for |
| Jalali.GregorianToJalali | internal/sub/remark_vars.go:363-404 | a valid Jalali date as many days from the reference day as the Gregorian one; both walks end |
| Jalali.NextDayCommutes | internal/sub/remark_vars.go:363-404 | consecutive Gregorian days convert to consecutive Jalali days |
| Jalali.ConversionKeepsOrder | internal/sub/remark_vars.go:363-404 | the conversion is strictly monotone, hence injective |
| Jalali.ConversionIsUnique | internal/sub/remark_vars.go:363-404 | no other Jalali date fits |
| Jalali.DayNumberOrder | internal/sub/remark_vars.go:406-427 | Jalali day numbers follow the order of the calendar |
| Jalali.NextJalaliNumber | internal/sub/remark_vars.go:406-427 | the calendar's next day is valid and one day later, across month ends and leap years |
| Jalali.YearStartExactly | internal/sub/remark_vars.go:406-427 | year y starts 365 y + (8 y + 21) / 33 days after year 0, for positive y |
| Jalali.NextJulianDay | internal/sub/remark_vars.go:363-375 | the Julian day formula counts Gregorian days one by one |
| OnlineHistory.RunRefinesHistory | internal/xray/process.go:436-494 | with a clock that does not run back, after every call exactly the emails and tags of calls less than grace ago are listed |
| OnlineHistory.SessionsAreOnline | internal/xray/process.go:474-494 | session attributions never outlive their client's online state |
| OnlineHistory.SessionTagsAreActive | internal/xray/process.go:436-494 | when every attribution names an active tag of its call and every active email has one, each online client's session tag is active |
| OnlineHistory.GoodCallIsExact | internal/xray/process.go:436-494 | a call keeps every secure state secure exactly when it is such a call, or there is no grace period |
| OnlineHistory.GoodCallIsExactOverRuns | internal/xray/process.go:436-494 | whatever such calls came before, all session tags are active after a call exactly when it is one too, or there is no grace period |
| OnlineHistory.SessionTagIsLast | internal/xray/process.go:461-490 | on every run the session tag is the last attribution since the client came online |
| OnlineHistory.SessionIsLastAttribution | internal/xray/process.go:461-490 | on every run, with any clock, a session's tag and time are those of the last call that attributed the client to a named tag |
| OnlineHistory.SessionActiveIsExact | internal/xray/process.go:436-494 | on every run an online client's session tag is active exactly when that last attribution was to a tag active less than grace ago |
| OnlineHistory.StrayAttributionBreaks | internal/xray/process.go:436-494 | attributing the active emails alone is not enough |
| OnlineHistory.SecureIsExact | internal/xray/process.go:436-494 | a state keeps its session tags active under all later pruning exactly when each tag was seen at least as lately as its client |
| OnlineTracker.Tracker.RefreshLocalOnline | internal/xray/process.go:436-494 | the new maps, and lists that hold each of their keys once, for every map order |
| OnlineTracker.Tracker.GetOnlineClients | internal/xray/process.go:316-344 | local and remote clients, each exactly once |
| OnlineTracker.GetMergedNodeTrees | internal/xray/process.go:367-395 | a client is listed under a node exactly when some direct node reports it there; no blank node, no empty list, no repeats |
| OnlineTracker.Tracker.SetNodeOnlineTree | internal/xray/process.go:500-507 | replaces that node's tree and nothing else |
| OnlineTracker.Tracker.ClearNodeOnlineClients | internal/xray/process.go:512-516 | forgets that node's tree and nothing else |
| StatsDeltas.Reader.GetTraffic | internal/xray/api.go:643-692 | the records per tag and per email and the new baselines, as functions of the answer and the old baselines, which LastDeltaWins, StatsRecords and StatsClients describe |
| StatsDeltas.NeverOverCounts | internal/xray/api.go:661-689 | over every sequence of polls, prunings and core restarts, the deltas of a stat never exceed what its counter counted |
| StatsDeltas.ExactWithinOneRun | internal/xray/api.go:661-689 | within one core run, the deltas of a stat in every answer add up to last minus first value |
| StatsDeltas.PruningIsInvisible | internal/xray/api.go:677-689 | pruning changes no delta of a stat that every answer shows |
| StatsDeltas.BaselineIsBounded | internal/xray/api.go:677-689 | after a non-empty answer there are at most twice as many baselines as live stats |
| StatsDeltas.LastDeltaWins | internal/xray/api.go:751-775 | each tag's record holds the last delta per direction, and the api tag has none |
| StatsDeltas.PrunedExactly | internal/xray/api.go:677-689 | baselines are dropped exactly when the map is more than twice the answer, and then exactly those of stats it does not show |
| StatsRecords.StatNameIsRead | internal/xray/api.go:45-48 | the core's stat name of a handler is read back as that handler, tag and direction |
| StatsRecords.KindIsFirst | internal/xray/api.go:751-775 | a record is marked inbound or outbound after the first delta of its tag |
| StatsClients.UserNameIsRead | internal/xray/api.go:45-48 | the core's stat name of a client is read back as that client and direction, for every email without '>' |
| StatsClients.ReadNamesAreThere | internal/xray/api.go:45-48 | a name is never read as traffic whose stat name it does not contain |
| StatsClients.EmailRecord | internal/xray/api.go:778-793 | an email has a record exactly when a delta of it came; up and down are the last deltas of its uplink and downlink names |
| StatsClients.OneCounter | internal/xray/api.go:661-676 | the last delta of a counter shown once is how far it went forward |
| StatsClients.ComesExactly | internal/xray/api.go:661-676 | it has a delta, if only of zero, exactly when it was seen before and has not gone back |
| StatsClients.ClientIsBooked | internal/xray/api.go:643-692 | two polls: the client's record has, in the counter's direction, how far the counter went forward between them |
| StatsRecords.RecordIsTotalExactly | internal/xray/api.go:751-775 | a tag's record is the sum of its deltas exactly when every delta but the last of its direction is zero |
| StatsRecords.NothingLostExactly | internal/xray/api.go:661-775 | answers with these names never lose traffic, whatever the values, exactly when no two names count for one tag and direction, the api tag aside |
| StatsRecords.SharedTagLoses | internal/xray/api.go:643-775 | the input: an inbound and an outbound of one tag both counting in one poll leave only the outbound's bytes |
| RateLimiter.Limiter.Allow | internal/eventbus/filter.go:25-40 | answer and new state, after pruning, for the key of event type and source |
| RateLimiter.Limiter.PruneLocked | internal/eventbus/filter.go:42-52 | at most one prune per cooldown, which keeps exactly the keys younger than it |
| RateLimiter.PruningIsInvisible | internal/eventbus/filter.go:25-52 | with a clock that does not run back, every answer is that of a limiter which deletes nothing |
| RateLimiter.BackwardClockBreaks | internal/eventbus/filter.go:25-52 | with one that does, an event can pass that the other would stop |
| LimiterClock.PruningIsInvisibleExactly | internal/eventbus/filter.go:25-52 | over all keys, pruning changes no answer exactly when no prune comes a cooldown after a time that a later call is less than a cooldown from |
| LimiterClock.AfterPrunesIsHarmless | internal/eventbus/filter.go:25-52 | it is enough that no call's time lies before an earlier prune |
| RateLimiter.AllowedAreSpaced | internal/eventbus/filter.go:25-40 | two allowed events of one key are at least a cooldown apart |
| LimiterAnswers.PassesExactly | internal/eventbus/filter.go:25-40 | without pruning an event passes exactly when the last one let through for its key, if any, is a cooldown ago or more |
| LimiterAnswers.LimiterPassesExactly | internal/eventbus/filter.go:25-52 | so it does with pruning, while the clock does not run back |
| RateLimiter.RetainedAreYoung | internal/eventbus/filter.go:42-52 | retained keys are younger than two cooldowns exactly when the cooldown is positive |
| ShareLink.LinkRoundTrip | docs/lib/xray/links.ts:171-181 | parsing a built link recovers method and password, address, port and name exactly when the address is one a link can carry and the credential has no leading byte order mark |
| ShareLink.HostPortBack | docs/lib/xray/links.ts:112-132 | host and port come back, bracketed IPv6 addresses included |
| ShareLink.BadAddressIsLost | docs/lib/xray/links.ts:87-132 | no other address comes back |
| ShareLink.CredentialBack | docs/lib/xray/links.ts:195-202 | what the credential is decoded to, also with a leading byte order mark |
| ShareForms.BuiltLink | docs/lib/xray/links.ts:171-181 | the text of a built link, part by part |
| ShareForms.LegacyBack | docs/lib/xray/links.ts:103-109 | a legacy link, all base64, gives back credential, address, port and name, even with an '@' in the credential |
| ShareForms.PlainBack | docs/lib/xray/links.ts:93-101 | so does one with percent-encoded method and password |
| ShareForms.QueryBack | docs/lib/xray/links.ts:112-132 | host and port come back with whatever query follows |
| ShareForms.MalformedNameStays | docs/lib/xray/links.ts:187-193 | a name that is no percent-encoding is taken as it is |
| ShareBytes.Base64UrlRoundTrip | docs/lib/xray/base64.ts:12-25 | decoding the URL-safe unpadded form gives the bytes back, for every byte sequence |
| ShareBytes.AtobBody | docs/lib/xray/base64.ts:6-10 | standard padded base64 decodes to its bytes |
| ShareBytes.TextRoundTrip | docs/lib/xray/base64.ts:31-42 | UTF-8 decoding undoes encoding, but for a leading byte order mark |
| ShareForms.DecodingIsExact | docs/lib/xray/base64.ts:31-42 | text decoded without a replacement character encodes to the very bytes it came from, so overlong forms and surrogates are replaced |
| ShareForms.Base64Vectors | docs/lib/xray/base64.ts:6-10 | the test vectors of section 10 of RFC 4648 |
| ShareForms.StandardDecodes | docs/lib/xray/base64.ts:13-20 | the padded standard form decodes too |
| ShareForms.SpacesIgnored | docs/lib/xray/base64.ts:13-20 | white space inside base64 text is passed over |
| ShareForms.AtobRefuses | docs/lib/xray/base64.ts:13-20 | text of a length no bytes have, or with a foreign character, is refused |
| ShareBytes.PercentRoundTrip | docs/lib/xray/links.ts:187-193 | percent-decoding undoes encoding, for every string |
| ShareBytes.BytesToBase64Loop | docs/lib/xray/base64.ts:6-10 | the loop that builds the binary string |
| ShareBytes.Base64ToBytesLoop | docs/lib/xray/base64.ts:13-20 | the loop that fills the byte array, and the failing inputs |
| ProxyNames.EnsureUniqueProxyNames | internal/sub/clash_service.go:118-135 | the in-place loop gives each proxy the first free name for its base and changes nothing else |
| ProxyNames.PickName | internal/sub/clash_service.go:125-134 | the first candidate not taken; the search ends |
| ProxyNames.NamesAreUnique | internal/sub/clash_service.go:118-135 | afterwards all names are non-empty and pairwise distinct |
| ProxyNames.FreeBaseIsKept | internal/sub/clash_service.go:118-135 | a proxy keeps its base name exactly when no earlier proxy ended up with it |
| ProxyNames.CandidatesDiffer | internal/sub/clash_service.go:127-131 | different numbers give different candidates |
| ProxyNames.NumberedFromTwo | internal/sub/clash_service.go:125-134 | a taken base name gets -2, then -3 |
| ProxyNames.UnnamedBase | internal/sub/clash_service.go:137-144 | an unnamed proxy is called after its kind, server and port, or else after its place |
| ProxyNames.Pigeonhole | internal/sub/clash_service.go:125-134 | no more candidates are refused than there are names taken |

## Left out

- JSON text: sections are decoded values plus their bytes; case-insensitive struct keys, text after a
  value, and the map between canonical bytes and values belong to the JSON library.
- Hot apply: the wire encoding of a user account in AddUser, and user fields the core ignores.
- Process start and stop, files, HTTP, gRPC, sockets, key generation and the UDP port probe: their
  outcomes are parameters.
- sweepOrphansLocked and InstanceFromInbound in internal/mtproto/manager.go.
- Managed entries of the mtg manager are values in the process map, not pointers; nothing aliases them.
- The 64 KB line limit of the configuration scanner, and its Name, which comes from the file name.
- Escapes of `%q` for unprintable characters beyond ASCII in the mtg configuration text.
- Overflow of 64-bit traffic counters and of differences of millisecond times.
- Characters are Unicode scalar values; strings with unpaired surrogates or invalid UTF-8 are not.
- JavaScript numbers beyond the exactly represented integers; the query of a link is kept as text.
- vless, trojan and vmess links, which have no bracketed round trip of their own.
- Random draws come as a finite list; when the retry loop would have to draw on there is no result,
  and provisioning is stated for draws with which it ends.
- Addresses are naturals with a prefix; parsing and printing them belongs to net/netip.
- Jalali.GregorianToJalali: starts at Gregorian year -4799, before which the Julian day formula
  divides negative numbers.
- AwgPeers.RoundTrip: allowed addresses are visible one-line texts without commas other than
  "(none)", as normalizeAllowedIPs produces them.
- Clock readings, time zones, remark values other than dates, SQL, React components, and the
  per-protocol field copying of the subscription formats.
