# Verified models of the replay caches, configuration layouts and wire protocols

This project models the parts of the proxy whose correctness rests on invariants rather than on any
single function, and proves those invariants.

* **Replay state of Antigravity conversations.** `VersionedCell` is one key as a machine: versions that
  never return, branches along which chains only grow, tombstones. `LocalReplayCache` (the in-process map
  with revision counter, epoch and eviction) and `HomeReplayStore` (the remote store with
  compare-and-swap and four attempts) are both shown to take steps of that machine only. What follows for
  every run: no lost update, branch discipline, fencing.
* **The v8 configuration layout.** `ConfigTree` gives laws of path operations on ordered trees,
  `ConfigMoves` and `KeyFamilies` the two kinds of translation, `ConfigLayout` the definitions of reading
  (flattening) and normalizing for arbitrary well-formed tables, `ConfigFlatten`, `ConfigNormalize`,
  `ConfigFamilies`, `ConfigMeaning` and `ConfigIdempotence` the theorems, `ConfigDocument` the loops that
  rewrite a document, `ConfigPrivateIp` and `ConfigPrivateSetting` the one inverted alias in front of it
  all, `ConfigPrecedence`, `ConfigSections` and `KeyFamiliesExpansion` what reading yields told from the
  document alone, `ConfigSample` a piece of the real tables. `YamlMerge` is the companion that merges
  generated settings into a file.
* **Codex turns** (`CodexTurns`, `CodexStore`): bounded lists cut at turn boundaries, appended to by any
  number of nodes.
* **Smaller machines**: `MuxListener` (threads as a transition system), `BoundedLru`,
  `ClaudeReplayCache` (byte accounting), `ResponseCompression`, `Resp` (RESP2, sections "Arrays" and
  "Bulk strings" of the RESP specification). `Eviction` is shared by the caches.

Clock readings, nonces and generations are parameters. A nonce or generation is required not to have been
drawn before; clocks need not be monotone anywhere. JSON field rewriting, codecs, string trimming,
weight validation, boolean decoding and the tests on element identity are parameters with the laws that are needed
(`Idempotent`, `NamesMarkers`, `Faithful`, `Sound`). Methods named `Others` stand for everything other
requests, nodes and the expiry clock may do between two calls of a client.

Two places where the code does less than one might expect are recorded as theorems with their exact
condition: migrating credentials (`ConfigMeaning.NormalizePreservesMeaning`, with
`ConfigSample.MigrationSplitsDottedField` and `ConfigSample.MigrationDropsAuthIndex` as instances), and
appending a turn twice to a list beyond its bounds (`CodexTurns.AppendIdempotent`,
`CodexTurns.OversizedListForgets`). Entries are compared in two ways: to the letter, and by what they
decode to, where a null field counts as absent and an auth index, which no credential has, not at all.

`dafny verify dfyconfig.toml` checks the project.

## Model

| member | source | states |
|---|---|---|
| ReplayItems.NormalizeReplayItems | internal/cache/antigravity_reasoning_replay_cache.go:500-517 | the loop accepts a list exactly if it has at most 4096 items, the items that can be normalized total at most 16 MiB and there are any; it then returns the normal forms of all of these, none missing, in their order |
| ReplayItems.NormalizedExactly | internal/cache/antigravity_reasoning_replay_cache.go:500-517 | a chain comes out of normalization if and only if it lists the normal forms of the items at a strictly increasing list of positions that hits every item with one, and meets the three bounds |
| ReplayItems.NormalizedIsFixed | internal/cache/antigravity_reasoning_replay_cache.go:219-222 | an accepted chain is accepted again unchanged, so reading back a stored chain does not drop items |
| ReplayItems.ItemsPrefix | internal/cache/antigravity_reasoning_replay_cache.go:456-466 | the element-wise loop answers whether one chain is a prefix of the other |
| ReplayItems.SerializedChainFits | internal/cache/antigravity_reasoning_replay_cache.go:35-43 | marker, base64 and JSON punctuation included, an accepted chain stays under 24 MiB |
| VersionedCell.BranchDiscipline | internal/cache/antigravity_reasoning_replay_cache.go:297-329 | over every run: between two moments with the same branch the key never left it, and its chain only grew at the end |
| VersionedCell.VersionsNeverReturn | internal/cache/antigravity_reasoning_replay_cache.go:337-338 | over every run: a revision or raw value that is seen twice was there all the time in between |
| VersionedCell.NoLostUpdate | internal/cache/antigravity_reasoning_replay_cache.go:338-348 | over every run: a guarded publication finds the cell as it was read, or all that was stored since is a prefix of what it stores |
| VersionedCell.Fencing | internal/cache/antigravity_reasoning_replay_cache.go:337-342 | over every run: once the key was empty or on another branch, nothing guarded by an earlier snapshot succeeds |
| VersionedCell.RemovalFences | internal/cache/antigravity_reasoning_replay_cache.go:396-418 | over every run: dropping, overwriting or deleting the key fences all earlier snapshots, even of the request that reserved it |
| LocalReplayCache.NextValid | internal/cache/antigravity_reasoning_replay_cache.go:138-140 | every operation of the local cache keeps at most 10240 entries, revisions below the counter, and tombstones exactly the empty chains |
| LocalReplayCache.NextRefines | internal/cache/antigravity_reasoning_replay_cache.go:230-385 | every operation of the local cache is one atomic step of the single-key machine, at its own key and at all others, evictions included |
| LocalReplayCache.SnapshotIsTicket | internal/cache/antigravity_reasoning_replay_cache.go:245-250 | the snapshot a read returns names exactly the state that the read left behind |
| LocalReplayCache.CacheRunRefines | internal/cache/antigravity_reasoning_replay_cache.go:170-385 | every run of the local cache is, for each key, a run of the single-key machine |
| LocalReplayCache.CacheNoLostUpdate | internal/cache/antigravity_reasoning_replay_cache.go:337-348 | whatever happened in between, a successful publication replaced the very entry it read or a prefix of its own chain |
| LocalReplayCache.GuardedSucceeds | internal/cache/antigravity_reasoning_replay_cache.go:337-341 | in every run a publication with an earlier snapshot succeeds if and only if the entry, be it a reservation, is the one that was read, or a live ancestor of the chain on the branch that was read is stored; a conditional deletion if and only if the entry is the one that was read |
| LocalReplayCache.GuardDecides | internal/cache/antigravity_reasoning_replay_cache.go:338-339 | the same in terms of the single-key machine: success if and only if it permits the publication, or the version matches |
| LocalReplayCache.PublishedEntry | internal/cache/antigravity_reasoning_replay_cache.go:343-348 | what a successful publication leaves: its chain, live, on the branch that was read, or on a new one if nothing changed since and the chain does not continue the one read |
| LocalReplayCache.StoredIsRead | internal/cache/antigravity_reasoning_replay_cache.go:230-251 | a read within an hour of the last use returns what is stored and refreshes it; a later one finds nothing |
| LocalReplayCache.CacheFencing | internal/cache/antigravity_reasoning_replay_cache.go:623-656 | after eviction, expiry, purge or rotation no publication or conditional deletion with an older snapshot succeeds, whatever is stored later |
| LocalReplayCache.CacheRemovalFences | internal/cache/antigravity_reasoning_replay_cache.go:256-275 | the same, stated by the operation that removed the key, including its reservation by a later read |
| LocalReplayCache.ReplayCache.EvictOldest | internal/cache/antigravity_reasoning_replay_cache.go:623-645 | exactly the requested number of entries goes, none younger than a survivor, and the epoch counts each of them |
| LocalReplayCache.ReplayCache.GetWithSnapshot | internal/cache/antigravity_reasoning_replay_cache.go:170-251 | the whole transition of a read: time stamp refreshed, or an expired or absent key reserved with a tombstone, and the matching snapshot |
| LocalReplayCache.ReplayCache.ReserveAbsent | internal/cache/antigravity_reasoning_replay_cache.go:256-275 | room is made before the tombstone goes in, so the reservation itself is never evicted |
| LocalReplayCache.ReplayCache.CacheItems | internal/cache/antigravity_reasoning_replay_cache.go:100-142 | the unconditional write rotates the branch and cuts the cache back |
| LocalReplayCache.ReplayCache.ReplaceIfUnchanged | internal/cache/antigravity_reasoning_replay_cache.go:279-290 | refusal of chains that cannot be normalized, the unconditional write without a snapshot, else the guarded transition, whose outcome over runs the rows GuardedSucceeds and PublishedEntry determine |
| LocalReplayCache.ReplayCache.ReplaceLocked | internal/cache/antigravity_reasoning_replay_cache.go:337-352 | the locked part: success and effect are those of the guarded transition, which GuardedSucceeds and PublishedEntry determine from what was read and what is stored |
| LocalReplayCache.ReplayCache.DeleteIfUnchanged | internal/cache/antigravity_reasoning_replay_cache.go:357-385 | the conditional deletion as one transition: a tombstone with a new branch, or nothing; by GuardedSucceeds the former if and only if the entry is the one that was read |
| LocalReplayCache.ReplayCache.DeleteItem | internal/cache/antigravity_reasoning_replay_cache.go:396-418 | the unconditional deletion leaves a tombstone with a new branch |
| LocalReplayCache.ReplayCache.ClearAll | internal/cache/antigravity_reasoning_replay_cache.go:478-483 | clearing drops all entries and advances the epoch |
| LocalReplayCache.ReplayCache.PurgeExpired | internal/cache/antigravity_reasoning_replay_cache.go:647-656 | in whatever order the map is visited, exactly the expired entries go and the epoch counts them |
| HomeReplayStore.StoredChainIsReadBack | internal/cache/antigravity_reasoning_replay_cache.go:207-223 | a chain this code stored is never rejected when read back and comes back as it was, and so does the same chain without a marker |
| HomeReplayStore.ReadExactly | internal/cache/antigravity_reasoning_replay_cache.go:207-223 | whatever its form, a value is read as a chain if and only if it is live, at most 24 MiB, and normalization accepts its items and drops none |
| HomeReplayStore.RetryKeepsBranch | internal/cache/antigravity_reasoning_replay_cache.go:319-328 | if a retry finds an ancestor on the snapshot's branch then the chain read at first is a prefix too, so the branch chosen before the loop is the snapshot's own |
| HomeReplayStore.BlankNeverMatches | internal/cache/antigravity_reasoning_replay_cache.go:207-209 | a snapshot of an oversized value, which carries no raw bytes, can never match |
| HomeReplayStore.ExpectedIsPublishable | internal/cache/antigravity_reasoning_replay_cache.go:297-309 | whatever an attempt expects, finding it makes the write a legal publication of the single-key machine |
| HomeReplayStore.HomeStore.GetWithSnapshot | internal/cache/antigravity_reasoning_replay_cache.go:180-227 | under any interference the snapshot describes a state the key was in between call and return |
| HomeReplayStore.HomeStore.ReadOrReserve | internal/cache/antigravity_reasoning_replay_cache.go:181-206 | four rounds of get and reserve yield a value the key really held; they yield nothing only after an error or if the key was changed twice in every round but one |
| HomeReplayStore.HomeStore.CacheItems | internal/cache/antigravity_reasoning_replay_cache.go:114-124 | the unconditional write takes exactly one step of its own, on a new branch and with a new generation, and at most one if an error was reported; it fails for no other reason than that or unusable items |
| HomeReplayStore.HomeStore.DeleteItem | internal/cache/antigravity_reasoning_replay_cache.go:402-408 | the unconditional deletion takes exactly one step of its own, a tombstone with a new branch and generation, and at most one if it reports failure |
| HomeReplayStore.HomeStore.ReplaceIfUnchanged | internal/cache/antigravity_reasoning_replay_cache.go:296-331 | under any interference the request takes exactly one step of its own on success, none on refusal and at most one when an error was reported; that step is a guarded publication with no update lost since the snapshot, on the snapshot's branch if it continues the chain read and else on a new one; a refusal means that the value read was gone and that the key then held no ancestor of the chain, or was changed before each of the three further attempts |
| HomeReplayStore.HomeStore.RereadAncestor | internal/cache/antigravity_reasoning_replay_cache.go:312-326 | after a refused attempt it goes on if and only if the cell that is there now is live, on the snapshot's branch, and its chain a prefix of the new one |
| HomeReplayStore.HomeStore.DeleteIfUnchanged | internal/cache/antigravity_reasoning_replay_cache.go:366-371 | the conditional deletion takes exactly one step of its own on success, none on a refusal and at most one when an error was reported; if it takes one the key had not changed since it was read, and a refusal means that it had |
| ConfigTree.FindSetOther | internal/config/config_v8.go:170-177 | setting a path changes nothing at a path of which it is no prefix nor the other way round |
| ConfigTree.FindDeleteOther | internal/config/config_v8.go:222-239 | deleting a path and pruning emptied parents changes nothing at such a path |
| ConfigTree.FindDeleteAbove | internal/config/config_v8.go:222-239 | a deletion leaves the nodes above alone, removes them, or leaves them with something in them |
| ConfigMoves.MoveAllSetting | internal/config/config_v8.go:552-567 | the sequential moves with parent pruning equal one simultaneous decision: each setting gets its first spelling present in table order |
| ConfigMoves.MoveAllLegacy | internal/config/config_v8.go:553-562 | a legacy spelling is gone once its row was tried, unless it is alone and nothing is migrated |
| ConfigMoves.AliasAllAt | internal/config/config_v8.go:332-339 | reading moves aliases exactly as migrating does, at every path apart from or on the rows |
| ConfigMoves.PathAllLegacy | internal/config/config_v8.go:365-371 | after the last loop of flattening a legacy path holds the v8 value if there was one, else what it held |
| ConfigFlatten.FlattenAccepts | internal/config/config_v8.go:301-382 | the checks made half way through flattening accept a document exactly if conditions on the original document hold |
| ConfigFlatten.FlattenSetting | internal/config/config_v8.go:27-65 | after flattening each runtime field holds the first present of canonical path, historical aliases in order, legacy spelling; an explicit null counts as present |
| ConfigFlatten.FlattenAliasOnly | internal/config/config_v8.go:27-31 | a setting without a legacy runtime field takes over its aliases in the same order at its canonical path |
| ConfigFlatten.FlattenFamily | internal/config/config_v8.go:372-380 | each provider gets the expansion of its v8 groups if they are present, else its legacy list |
| ConfigFlatten.FlattenElsewhere | internal/config/config_v8.go:315-381 | flattening changes nothing at a path apart from all tables |
| ConfigFlatten.SharedAllOk | internal/config/config_v8.go:340-357 | whether an empty historical section is refused does not depend on the sections handled before it |
| ConfigPrecedence.Precedence | internal/config/config_v8.go:315-371 | which value a runtime field gets, told from the original document: the canonical spelling even if null, else the first historical alias that is there in table order, else the legacy spelling, where a mapping under api-keys is none, else nothing |
| ConfigPrecedence.AliasPrecedence | internal/config/config_v8.go:332-339 | the same for a setting that has only aliases |
| ConfigPrecedence.AcceptedExactly | internal/config/config_v8.go:301-382 | a document is read if and only if it is a mapping without duplicate keys, every parent of a table path is absent, a mapping or a null routing section, every historical section absent, a mapping or null, the version absent or the integer 8, and every group of every key family accepted |
| ConfigPrecedence.FamilySource | internal/config/config_v8.go:372-380 | a provider without v8 groups keeps its legacy list, otherwise the list is the expansion of its groups |
| ConfigPrecedence.CredentialField | internal/config/config_v8.go:372-461 | each key of each v8 group has one entry in the runtime list, at its place among all keys; a field of it is that of the key unless null, an auth index or the pool, and else that of the group if groups share it |
| ConfigSections.HistoricalStep | internal/config/config_v8.go:340-357 | an empty historical section disappears on reading and its canonical section is present |
| KeyFamilies.ExpandV8Groups | internal/config/config_v8.go:393-465 | the loop over groups computes the expansion, error cases included; the rows of KeyFamiliesExpansion say what that yields |
| KeyFamilies.ExpandOneGroup | internal/config/config_v8.go:399-463 | one group: every refusal of the code, then one entry per key; GroupAccepted, ExpandedField, ExpandedPool, ExpandedPath and ExpandedOpenAi say which and what is in them |
| KeyFamilies.ExpandKey | internal/config/config_v8.go:436-460 | the two loops over group defaults and key fields compute the overlay of the key on the group |
| KeyFamilies.GroupOne | internal/config/config_v8.go:487-509 | one group per legacy entry, shared fields moved to the group |
| KeyFamilies.GroupLegacyKeys | internal/config/config_v8.go:485-512 | the loop groups every node below the list by its position, the keys and values of a mapping included |
| KeyFamiliesExpansion.GroupAccepted | internal/config/config_v8.go:399-434 | a group of an ordinary provider is accepted if and only if it has a list of keys, only shared fields besides its name, and every key is a mapping without an endpoint and with valid weights; it then yields one entry per key |
| KeyFamiliesExpansion.ExpandedField | internal/config/config_v8.go:436-460 | field by field, the i-th entry of a group has what its i-th key states unless that is null or an auth index, else what the group states in a shared field, else nothing |
| KeyFamiliesExpansion.ExpandedPool | internal/config/config_v8.go:449-481 | the pool block of the i-th entry: that of the key over that of the group, field by field |
| KeyFamiliesExpansion.ExpandedPath | internal/config/config_v8.go:442-460 | a dotted name of a key is a path into its entry, and holds the value there unless a later field of the key gets in its way |
| KeyFamiliesExpansion.SplitAtDots | internal/config/config_v8.go:170-177 | names are taken apart at all their dots and nowhere else |
| KeyFamiliesExpansion.ExpandedOpenAi | internal/config/config_v8.go:409-422 | a group of an OpenAI-compatible provider is one entry with the fields of the group and all its keys in order, no auth index on either, and is refused only without a list of keys or for a weight |
| KeyFamiliesExpansion.GroupsConcat | internal/config/config_v8.go:393-465 | the entries of two lists of groups are those of the one followed by those of the other, and a refusal of either is one of both |
| KeyFamiliesExpansion.GroupsAccepted | internal/config/config_v8.go:398-434 | a list of groups is accepted if and only if each of its groups is |
| KeyFamiliesExpansion.OneEntryPerKey | internal/config/config_v8.go:429-461 | an accepted list has as many entries as its groups have keys together |
| KeyFamiliesExpansion.EntryAt | internal/config/config_v8.go:429-461 | the i-th key of a group has its entry behind those of all keys before it |
| KeyFamiliesRoundTrip.GroupNamesDiffer | internal/config/config_v8.go:496-498 | entries at different positions become groups with different names |
| KeyFamiliesRoundTrip.InheritedPool | internal/config/config_v8.go:449-481 | the connection pool of an expanded key, field by field: a key without one takes over the block of its group, one that overrides some fields inherits the others, and null means inherit |
| KeyFamiliesRoundTrip.EntryRoundTrip | internal/config/config_v8.go:423-461 | grouping an entry and expanding it gives an entry that decodes to the same credential exactly if its weight is valid and none of its own fields but nulls is dotted; it is the same to the letter, up to field order, exactly if besides none of its own fields is null or an auth index |
| KeyFamiliesRoundTrip.OpenAiEntryRoundTrip | internal/config/config_v8.go:409-422 | for OpenAI-compatible providers what it decodes to is kept exactly if the keys, if any, are a list with valid weights; to the letter if besides there is such a list, no auth index on it or them, and no field named keys |
| KeyFamiliesRoundTrip.ListRoundTrip | internal/config/config_v8.go:384-512 | a whole list comes back with the same length, order and entries exactly if all its entries are plain in the sense of the two previous rows; connection-pool fields included |
| ConfigNormalize.CollectKeeps | internal/config/config_v8.go:540-551 | collecting blank sections changes nothing but nulls at the sections it picks |
| ConfigNormalize.ChosenElsewhere | internal/config/config_v8.go:547-550 | moving blank sections is noticed at no path but the sections and what lies above |
| ConfigSections.BlankSectionMigrates | internal/config/config_v8.go:540-597 | a legacy section that is present but null or empty is present at its canonical place after a migration and gone from the old one, and the document carries version 8 |
| ConfigFamilies.FamilyAllAt | internal/config/config_v8.go:568-582 | both places of a key family after any number of families, told from the document before |
| ConfigFamilies.KeepPath | internal/config/config_v8.go:669-739 | commenting out unknown fields never touches a path the v8 layout knows |
| ConfigFamilies.KeepCut | internal/config/config_v8.go:741-770 | what lies under an unknown field is taken out |
| ConfigMeaning.NormalRow | internal/config/config_v8.go:552-567 | normalizing leaves every row with one spelling, the one that counts |
| ConfigMeaning.NormalSetting | internal/config/config_v8.go:516-597 | normalizing keeps the value of every setting, with migration or without |
| ConfigMeaning.NormalFamily | internal/config/config_v8.go:568-582 | legacy list and v8 groups of a family in the normalized document |
| ConfigMeaning.NormalAccepts | internal/config/config_v8.go:528-530 | a normalized document is refused on reading only because of a key family |
| ConfigMeaning.MigratedFamily | internal/config/config_v8.go:578-578 | migrating a credential list keeps its entries, to the letter or decoded, exactly if they are plain in that sense |
| ConfigMeaning.NormalizePreservesMeaning | internal/config/config_v8.go:514-597 | reading the normalized document gives the same value at every table row, and it is accepted with the same credentials, decoded or to the letter, exactly if every migrated credential list is plain in that sense |
| ConfigMeaning.CleaningPreservesMeaning | internal/config/config_v8.go:514-516 | without migration nothing changes in meaning |
| ConfigMeaning.ScopeAfter | internal/config/config_v8.go:286-297 | a setting changes its scope exactly if migration moves a provider setting that the document states in an older spelling only: it was global and then applies to OAuth only |
| ConfigIdempotence.NormalizeIdempotent | internal/config/config_v8.go:516-597 | normalizing twice gives the tree of normalizing once, field order included |
| ConfigIdempotence.CleanedSettled | internal/config/config_v8.go:540-551 | after cleaning up no blank legacy section stands beside its canonical form |
| ConfigIdempotence.StampFixed | internal/config/config_v8.go:583-591 | filtering unknown fields and stamping the version is idempotent |
| ConfigSample.SampleIsWellFormed | internal/config/config_v8.go:27-117 | rows, a section and a family of the real tables meet the hypotheses made about tables |
| ConfigSample.SamplePrivateOk | internal/config/config_v8.go:775-777 | so do the names of the inverted alias |
| ConfigSample.SampleSectionArrives | internal/config/config_v8.go:540-551 | and a section meets what is supposed of blank sections |
| ConfigSample.MigrationDropsAuthIndex | internal/config/config_v8.go:445-447 | a legacy credential with an auth index: the document is accepted before and after migration, and is read with an entry that differs to the letter but decodes to the same |
| ConfigSample.MigrationSplitsDottedField | internal/config/config_v8.go:170-177 | a legacy credential with a dotted field name: accepted before and after migration, but read with an entry that does not decode to the same |
| ConfigDocument.CheckParents | internal/config/config_v8.go:315-330 | the loop that stops at the first absent parent accepts exactly if every parent is a mapping, or a null routing section |
| ConfigDocument.FlattenV8 | internal/config/config_v8.go:301-382 | the loops of flattening compute the flattened document and accept exactly the documents described |
| ConfigDocument.Document.ExpandAliases | internal/config/config_v8.go:332-339 | in-place loop over the aliases |
| ConfigDocument.Document.MergeSections | internal/config/config_v8.go:340-357 | in-place loop over the historical sections, with its error |
| ConfigDocument.Document.PutLegacy | internal/config/config_v8.go:365-371 | in-place loop over the path table |
| ConfigDocument.Document.PutFamilies | internal/config/config_v8.go:372-380 | in-place loop over the key families, with its error |
| ConfigDocument.Document.CollectSections | internal/config/config_v8.go:540-551 | the loop that picks blank sections and turns nulls into mappings at once |
| ConfigDocument.Document.MovePaths | internal/config/config_v8.go:552-567 | in-place loop over the rows; reporting no change means no row could move |
| ConfigDocument.Document.MoveFamilies | internal/config/config_v8.go:568-582 | in-place loop over the families; reporting no change means the document is as before |
| ConfigDocument.Document.NormalizeAccepted | internal/config/config_v8.go:532-594 | the stages in the order of the program; a document reported as unchanged is unchanged even where nulls are rewritten on the way |
| ConfigPrivateIp.NormalizePrivateIpAlias | internal/config/config_v8.go:772-799 | the inverted alias in place: dropped beside its v8 successor, resolved only if its legacy successor is absent and that is asked for, with its decoding error; ResolvedNames says to which value |
| ConfigPrivateSetting.ResolvedNames | internal/config/config_v8.go:775-799 | resolving fails if and only if the deprecated name alone is there and is no boolean; otherwise the two newer names say afterwards what the three said before: the v8 name wins, then the legacy one, and the deprecated one counts as its negation |
| ConfigPrivateSetting.PrivateSettingRead | internal/config/config_v8.go:311-371 | the setting the program runs on: if only the deprecated name is there, a node that decodes to the negation of what it decodes to; else the node of the v8 or the legacy name |
| ConfigPrivateSetting.PrivateSettingMigrated | internal/config/config_v8.go:514-597 | a migration writes that value under the v8 name and leaves neither other name behind |
| ConfigPrivateSetting.PrivateSettingCleaned | internal/config/config_v8.go:514-597 | without migration the deprecated and the legacy name go beside the v8 name and stay as they are without it |
| ConfigPrivateIp.ReadConfig | internal/config/config_v8.go:301-382 | reading a document, the inverted alias resolved first; PrivateSettingRead says which value results |
| ConfigPrivateIp.NormalizeConfigLayout | internal/config/config_v8.go:514-597 | refused documents are left alone, accepted ones become the normalized tree, one reported as unchanged is unchanged, and a file without a document can only be cleaned |
| ConfigPrivateIp.NormalizeAllPreservesMeaning | internal/config/config_v8.go:514-597 | the theorem on meaning with the inverted alias in front of reading and normalizing, in every combination of its three names |
| ConfigPrivateIp.FlipSetting | internal/config/config_v8.go:785-798 | a document that keeps the inverted alias gives every setting the value it has in the original |
| ConfigPrivateIp.NormalizeAllIdempotent | internal/config/config_v8.go:514-597 | normalizing twice is normalizing once, the inverted alias included |
| YamlMerge.MergedLeaf | internal/config/config_yaml.go:234-342 | every generated scalar, at any depth through mappings and lists, is in the saved tree at its place, unless the element or mapping of the file that it is merged into lacked it and it is zero or a known default; a list element that continues none of the file is taken as it is |
| YamlMerge.MergedList | internal/config/config_yaml.go:294-328 | a merged list has the generated elements in the generated order: one without a partner in the file as it was generated, and one that is a mapping keeps no key that was not generated |
| YamlMerge.DefaultsStayOut | internal/config/config_yaml.go:258-266 | a key that a mapping of the file did not have is not added with a value that the program assumes anyway |
| YamlMerge.OnlyGeneratedKeys | internal/config/config_yaml.go:825-854 | in a pruned mapping only keys remain that were generated, up to trimming |
| YamlMerge.TrimmedLeaf | internal/config/config_yaml.go:464-498 | a scalar of a new node, at any depth, survives the removal of defaults unless it is one |
| YamlMerge.BlankKeyIsPruned | internal/config/config_yaml.go:825-854 | in a pruned mapping a key that is blank when trimmed goes even if it was generated: the exception to the previous rows |
| YamlMerge.OldKeysStay | internal/config/config_yaml.go:249-270 | where nothing is pruned old keys keep their order, and those not generated or kept out of the merge their values |
| YamlMerge.OldLeafStays | internal/config/config_yaml.go:249-342 | a scalar that only the file has keeps path and value, where nothing on the way is pruned, exactly if no scalar or list was generated above it in the merged part |
| YamlMerge.AssignInjective | internal/config/config_yaml.go:591-654 | each old list element is continued at most once, and only by an element of the same identity or structure |
| YamlMerge.AssignBest | internal/config/config_yaml.go:613-654 | new elements choose in order: the first free old element of the same identity, else the first free one of the same structure, else none because none is left |
| YamlMerge.MergedLength | internal/config/config_yaml.go:294-328 | a merged list has the generated length, except an explicit null kept for an empty list |
| YamlMerge.ReorderSequence | internal/config/config_yaml.go:591-611 | the loop with its used flags computes the assignment |
| YamlMerge.MatchElement | internal/config/config_yaml.go:613-654 | first unused element of the same identity, else of the same structure |
| YamlMerge.MergeMappingPreserve | internal/config/config_yaml.go:249-270 | the loop over generated keys computes the merge, of which the rows above say what it keeps, adds and drops |
| CodexTurns.TrimOptimal | internal/cache/codex_reasoning_replay_cache.go:212-230 | trimming yields the longest tail starting at the front or at a marker with at most 256 turns and 16 MiB, possibly the empty one |
| CodexTurns.TurnSurvives | internal/cache/codex_reasoning_replay_cache.go:206-209 | a new normalized turn survives its own append whole, behind a tail of what was there |
| CodexTurns.AppendedList | internal/cache/codex_reasoning_replay_cache.go:190-210 | the list after appending a proper turn, told from the stored one: it starts with a marker whatever was stored; a list in the old format is dropped; a turn that is there leaves a list within its bounds as it is; any other turn stands at the end behind a tail of the list |
| CodexTurns.FitsExactly | internal/cache/codex_reasoning_replay_cache.go:212-230 | the bounds: at most 256 places where a turn starts, and 16 MiB |
| CodexTurns.AppendIdempotent | internal/cache/codex_reasoning_replay_cache.go:190-210 | appending a turn twice equals appending it once exactly if a turn that is in the list already has a marker whose tail is within the bounds |
| CodexTurns.FittingWithinReach | internal/cache/codex_reasoning_replay_cache.go:198-205 | for every list within its bounds, hence every list this code stored, that condition holds |
| CodexTurns.OversizedListForgets | internal/cache/codex_reasoning_replay_cache.go:198-205 | two proper turns of a marker and an ordinary item each, too large together: appending the first again loses it, appending it once more brings it back and loses the other |
| CodexTurns.AppendKeepsIdsDistinct | internal/cache/codex_reasoning_replay_cache.go:198-209 | marker ids stay pairwise distinct if each appended turn has one leading marker |
| CodexTurns.NormalizedTurnIsProper | internal/cache/codex_reasoning_replay_cache.go:347-357 | a turn that starts with a marker still does after normalization, with an id, and fits |
| CodexTurns.TrimReplayItems | internal/cache/codex_reasoning_replay_cache.go:212-230 | the repeated scans with recorded turn starts compute the trim and terminate |
| CodexTurns.AppendTurn | internal/cache/codex_reasoning_replay_cache.go:190-210 | the append with its search for the turn id |
| CodexTurns.NormalizeTurnItems | internal/cache/codex_reasoning_replay_cache.go:347-357 | the loop returns the trimmed list of the normal forms of all items that have one, none missing and in their order, and fails if nothing is left |
| CodexStore.RepeatedAppendIsHarmless | internal/cache/codex_reasoning_replay_cache.go:160-170 | whatever was appended, overwritten or removed before, repeating an append whose outcome was lost changes nothing |
| CodexStore.AppendedTurnIsStored | internal/cache/codex_reasoning_replay_cache.go:154-166 | right after it was appended a turn is in the stored list, at its end unless it was there before |
| CodexStore.IdsStayDistinct | internal/cache/codex_reasoning_replay_cache.go:190-210 | over every interleaving of appends, overwrites and removals no turn id is stored twice |
| CodexStore.OwnValueFits | internal/cache/codex_reasoning_replay_cache.go:212-230 | over every interleaving the stored list is within its bounds, whatever turns are appended, as long as nothing foreign and no list out of bounds is written |
| CodexStore.HomeTurns.AppendItems | internal/cache/codex_reasoning_replay_cache.go:131-171 | under any interference the stored value is the fold of the events in order, and a successful append is in it exactly once, an unsuccessful one at most once; it fails only if the turn is unusable, an error was reported, the key held no list, or others wrote in each of 32 rounds |
| CodexStore.WrittenSurvives | internal/cache/codex_reasoning_replay_cache.go:183-185 | eviction does not take the entry just written while its time stamp is the latest |
| CodexStore.LocalTurns.AppendItems | internal/cache/codex_reasoning_replay_cache.go:173-187 | the local append starts from the unexpired turns, restarts the clock and evicts the oldest sessions over capacity |
| CodexStore.LocalTurns.CacheItems | internal/cache/codex_reasoning_replay_cache.go:104-115 | the local overwrite |
| CodexStore.LocalTurns.GetItems | internal/cache/codex_reasoning_replay_cache.go:280-294 | reading refreshes an unexpired entry and drops an expired one |
| CodexStore.LocalTurns.DeleteItem | internal/cache/codex_reasoning_replay_cache.go:305-323 | the local deletion |
| Eviction.OldestFirst | internal/cache/codex_reasoning_replay_cache.go:428-437 | the candidates are all keys, oldest first |
| Eviction.DropOldest | internal/cache/codex_reasoning_replay_cache.go:424-445 | exactly the requested number of entries goes, none younger than a survivor |
| MuxListener.ConnectionsConserved | internal/api/mux_listener.go:30-133 | under every schedule each offered connection is in one place: with the caller of a put, queued, inside an accept, returned, or closed by the listener |
| MuxListener.FirstInFirstOut | internal/api/mux_listener.go:51-100 | under every schedule connections leave the queue, to an accept or to the drain, in the order in which they entered it |
| MuxListener.WaitsExactly | internal/api/mux_listener.go:51-133 | which calls have to wait: a put only while the queue is full, the listener open and no time-out set, an accept only while the queue is empty and the listener open, the closer only for puts in flight, other closers for the first |
| MuxListener.RoomForBuffer | internal/api/mux_listener.go:20-30 | the queue takes as many connections as asked for, one at least, and no more |
| MuxListener.Reachable | internal/api/mux_listener.go:30-133 | in every reachable state the counter equals the puts in flight and the closer's phase agrees with the flags |
| MuxListener.AfterCloseReturns | internal/api/mux_listener.go:107-133 | once any close has returned the queue is empty for good and no put succeeds and no accept returns a connection any more |
| MuxListener.NoAcceptAfterClose | internal/api/mux_listener.go:89-105 | from the moment of closing no accept returns a connection |
| MuxListener.HeldIsClosed | internal/api/mux_listener.go:97-100 | a connection held inside an accept at that moment is closed |
| MuxListener.NoPutSucceeds | internal/api/mux_listener.go:30-49 | after the drain no put succeeds |
| MuxListener.CloseTerminates | internal/api/mux_listener.go:117-131 | from the moment of closing only a bounded number of productive steps remains |
| MuxListener.CloseNeverStuck | internal/api/mux_listener.go:43-48 | until the close is through, a put in flight or the closer can take such a step |
| BoundedLru.HoldsMostRecent | internal/cache/bounded_lru.go:38-66 | for traces of get-or-adds the cache holds exactly the most recently used distinct keys up to its capacity, latest first |
| BoundedLru.HoldsWhatWasCreated | internal/cache/bounded_lru.go:38-66 | after any trace every value held is the one created when its key was last missing, and has been held ever since |
| BoundedLru.HeldDistinct | internal/cache/bounded_lru.go:16-22 | no key is cached twice while map and list agree |
| BoundedLru.BoundedLRU.constructor | internal/cache/bounded_lru.go:24-34 | capacity at least one, nothing cached |
| BoundedLru.BoundedLRU.GetOrAdd | internal/cache/bounded_lru.go:38-66 | returns the cached value or the new one in front; at most one value goes to the callback, the least recently used; map and list stay in bijection and every created value is cached or evicted exactly once |
| BoundedLru.BoundedLRU.Get | internal/cache/bounded_lru.go:68-77 | a hit moves to the front, a miss changes nothing |
| BoundedLru.BoundedLRU.Delete | internal/cache/bounded_lru.go:79-95 | removes exactly the entry of the key and hands it to the callback |
| BoundedLru.BoundedLRU.Len | internal/cache/bounded_lru.go:97-101 | the size of the map is the length of the list |
| ClaudeReplayCache.SumUpdate | internal/cache/claude_thinking_replay_cache.go:205-206 | the sum over all sessions changes by what one session gains and loses, whatever the order of summation |
| ClaudeReplayCache.DropFrontOptimal | internal/cache/claude_thinking_replay_cache.go:376-381 | of a session the longest tail within 64 turns and 8 MiB is kept |
| ClaudeReplayCache.AppendLaws | internal/cache/claude_thinking_replay_cache.go:368-383 | a session stays within its bounds; a turn that is there changes nothing, any other is the last one behind as many turns before it as fit in 64 turns and 8 MiB; appending it again changes nothing |
| ClaudeReplayCache.AppendContent | internal/cache/claude_thinking_replay_cache.go:368-383 | the search for an equal turn and the dropping loop compute the append |
| ClaudeReplayCache.ReplayCache.EvictOldest | internal/cache/claude_thinking_replay_cache.go:449-472 | the counter follows every evicted session; none younger than a survivor goes |
| ClaudeReplayCache.ReplayCache.EnforceLimits | internal/cache/claude_thinking_replay_cache.go:439-447 | terminates within 10240 sessions and 256 MiB, drops batches of the oldest and only while a limit is exceeded, and never reaches the branch that resets the counter |
| ClaudeReplayCache.ReplayCache.Write | internal/cache/claude_thinking_replay_cache.go:355-366 | the counter equals the sum before and after, both limits hold afterwards, and other sessions go only while a limit is exceeded, oldest first |
| ClaudeReplayCache.ReplayCache.CacheTurn | internal/cache/claude_thinking_replay_cache.go:72-102 | the unconditional write of one valid turn |
| ClaudeReplayCache.ReplayCache.GetWithSnapshot | internal/cache/claude_thinking_replay_cache.go:144-162 | a hit is refreshed, a miss reserved with a tombstone that stays; other sessions go only while a limit is exceeded, oldest first; the generation in the snapshot names the turns read |
| ClaudeReplayCache.ReplayCache.Reserve | internal/cache/claude_thinking_replay_cache.go:348-353 | the tombstone goes in like any write, others going only while a limit is exceeded; afterwards there is room to put it back even if it was evicted |
| ClaudeReplayCache.ReplayCache.ReplaceIfUnchanged | internal/cache/claude_thinking_replay_cache.go:198-214 | succeeds exactly if the generation is still the one read or nothing was loaded, and then stores the very turns of that generation with the new one appended |
| ClaudeReplayCache.ReplayCache.DeleteIfUnchanged | internal/cache/claude_thinking_replay_cache.go:241-250 | leaves a tombstone exactly if the generation matches; the limits hold afterwards unless a snapshot that had found nothing adds its tombstone to a full cache, and exactly then they do not |
| ClaudeReplayCache.ReplayCache.DeleteTurns | internal/cache/claude_thinking_replay_cache.go:269-274 | the unconditional deletion with its share of the counter |
| ClaudeReplayCache.ReplayCache.ClearAll | internal/cache/claude_thinking_replay_cache.go:279-284 | clearing resets map and counter together |
| ClaudeReplayCache.ReplayCache.PurgeExpired | internal/cache/claude_thinking_replay_cache.go:474-483 | in whatever order, exactly the expired sessions go, with their bytes |
| ClaudeReplayCache.ReplayCache.ReadThenAppend | internal/cache/claude_thinking_replay_cache.go:108-214 | whatever other requests are served between a read and the append with its snapshot: if the append succeeds, what is stored is the turns that were read with the new one appended |
| ResponseCompression.CompressionWriter.constructor | internal/api/response_compression.go:207-218 | nothing decided, nothing sent |
| ResponseCompression.CompressionWriter.Decide | internal/api/response_compression.go:319-357 | the decision is the one of the rules on status, type, length and size; to compress replaces encoding and length in the headers and commits them, otherwise they are left alone; nothing of the body is sent |
| ResponseCompression.CompressionWriter.Drain | internal/api/response_compression.go:378-389 | the buffer goes out the way decided; a new error means that a write below has failed |
| ResponseCompression.CompressionWriter.Write | internal/api/response_compression.go:253-277 | takes all of the data or reports an error that stays; a new error means that a write below has failed; after an error nothing is taken or sent; while undecided nothing has been emitted and a non-empty buffer is below the minimum |
| ResponseCompression.CompressionWriter.WriteHeader | internal/api/response_compression.go:245-251 | the status is fixed by the first write |
| ResponseCompression.CompressionWriter.WriteHeaderNow | internal/api/response_compression.go:284-291 | forces the decision, sends the buffer and commits the headers; errors and an earlier decision persist |
| ResponseCompression.CompressionWriter.FlushError | internal/api/response_compression.go:300-317 | after a successful flush a client that reads along has been sent, and can decode, everything taken so far |
| ResponseCompression.CompressionWriter.Finish | internal/api/response_compression.go:391-414 | compressed or not: unless a write below has failed the body, decoded as the headers say, is all accepted data; a compressed response is closed for good |
| ResponseCompression.CompressionWriter.Recover | internal/api/response_compression.go:41-48 | after a panic a response of which nothing was sent is left as it was, and any other is finished |
| ResponseCompression.CompressionWriter.Respond | internal/api/response_compression.go:49-74 | a whole response: whatever the handler does with its writer, unless a write below has failed the client can decode all data taken, and if the handler was told of no error that is all data it sent |
| ResponseCompression.CompressionWriter.RespondInParts | internal/api/response_compression.go:253-357 | a response whose head is set first and whose body follows in parts is compressed if and only if an encoder can be had, the status is at least 200 and none of 204, 206 and 304, no other encoding is set, the type, guessed from the first part if none is stated, is one worth it, no length below the minimum is stated, and the parts together reach the minimum; an event stream in any length |
| ResponseCompression.JudgedExactly | internal/api/response_compression.go:319-345 | the decision in terms of these conditions, forced or not |
| ResponseCompression.CompressionWriter.RespondAndMore | internal/api/response_compression.go:406-412 | whatever is done with the writer afterwards does not change a compressed response |
| ResponseCompression.PassThroughIsFaithful | internal/api/response_compression.go:165-169 | the laws assumed of encoders can be met |
| Resp.ArrayRoundTrip | internal/api/redis_queue_protocol.go:429-455 | reading a written array followed by anything gives the items and leaves exactly the rest if it has at most 1024 items of at most 64 KiB together; otherwise it is refused |
| Resp.BulksRoundTrip | internal/api/redis_queue_protocol.go:461-519 | the same for the items after the header, under any budget up to 64 KiB |
| Resp.BulkRoundTrip | internal/api/redis_queue_protocol.go:490-519 | one bulk string, exactly if it is within the budget |
| Resp.LineRoundTrip | internal/api/redis_queue_protocol.go:461-484 | a simple string or an integer is the text of its line, if line and budget allow |
| Resp.ArrayBounded | internal/api/redis_queue_protocol.go:429-519 | whatever arrives: what the reader returns has at most 1024 values of at most 64 KiB together, and what it leaves is the end of the input |
| Resp.LineOf | internal/api/redis_queue_protocol.go:536-541 | a line without line feed and final carriage return is read back, exactly if it is not too long |
| Resp.AtoiOfItoa | internal/api/redis_queue_protocol.go:495-498 | a written length is parsed back unless it exceeds 64 bits |
| Resp.Reader.ReadRespLine | internal/api/redis_queue_protocol.go:521-549 | line assembly gives the same result however the bytes are cut into fragments, errors included |
| Resp.Reader.ReadRespBulk | internal/api/redis_queue_protocol.go:490-519 | the reader of a bulk string consumes exactly it |
| Resp.Reader.ReadRespString | internal/api/redis_queue_protocol.go:461-484 | the reader of a value, charged to the budget |
| Resp.Reader.ReadRespArray | internal/api/redis_queue_protocol.go:429-455 | the reader of a command computes the reading function and consumes exactly the command |
| Resp.Reader.ReadRespStrings | internal/api/redis_queue_protocol.go:447-453 | the loop over the items with its running budget |
| Resp.Writer.WriteBulkString | internal/api/redis_queue_protocol.go:575-590 | a bulk string, or the nil bulk string for an absent payload |
| Resp.Writer.WriteArrayOfBulkStrings | internal/api/redis_queue_protocol.go:592-605 | header and items in order |

## Left out

- HomeReplayStore.HomeStore.ReplaceIfUnchanged: one key of the remote store at a time; keys do not influence each other there.
- LocalReplayCache.NextRefines: the revision counter is a natural number; the wrap-around of 64 bits is not modelled.
- HomeReplayStore.StoredChainIsReadBack: the JSON of a stored value is a datatype of what it decodes to, with its exact length; the codec itself is not modelled.
- ConfigMeaning.NormalizePreservesMeaning: speaks of table rows and key families; fields outside the tables that migration comments out are outside the statement, as in the program.
- KeyFamilies.GroupOne: a legacy entry that is itself a list is grouped without group fields; the program would take its elements two by two for fields. Such an entry is not accepted on reading either way.
- ConfigPrivateIp.NormalizeConfigLayout: trees are values, so updates in place of shared nodes are not captured.
- ConfigSample.SampleIsWellFormed: a few rows only; that the whole generated path table is well-formed depends on the reflection over the configuration struct, which is not modelled.
- ResponseCompression.CompressionWriter.Finish: an encoder is taken to write nothing after a write of its own has failed.
- ConfigSections.BlankSectionMigrates: supposes of the tables that no other section has the same legacy place and that the filter for unknown fields lets the canonical place through, as `ConfigSample.SampleSectionArrives` shows for one.
- ConfigPrivateSetting.PrivateSettingRead: supposes of the tables that no alias leads to the setting, as in the source.
- YamlMerge.MergedLeaf: which paths are pruned or skipped and which values are defaults are parameters; the tables of known defaults are not spelled out.
- ResponseCompression.CompressionWriter.Decide: whether an encoder can be had is a parameter of the writer.
- ClaudeReplayCache.ReplayCache.ReadThenAppend: between read and append no conditional deletion with a loaded snapshot that had found nothing is served; only the remote store hands out such snapshots.
- YAML anchors, merge keys, comments, styles, and the file itself; `restoreV8Layout` and the pruning of whole OAuth maps before a save.
- The Kimi replay cache, the same accounting as the Claude one with one content per session, and the remote variants of both.
- The remote Codex operations other than append: a plain set, get and delete, which appear as events of others.
- Mixing snapshots between the local and the remote store, and unloaded snapshots beyond the unconditional write they cause.
- The pub/sub and authentication commands above the RESP codec, `Accept-Encoding` negotiation and `Vary` merging.
- Nil connections, which `Put` ignores, and the address of the listener.
- Signature validation, hashing, login flows, route registration, management handlers, plugins and HTTP clients.
