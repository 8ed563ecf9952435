# Verified model of a media server's stateful core

A Dafny model of the parts of the server that keep state consistent: merging
search results by shared identifiers, clustering faces, queueing conversions,
importing playlists, limiting streams, sharing watch progress, and a handful of
text and byte codecs. Each part follows its source code branch by branch; what
the source promises about it is proved for all inputs or all runs. Where the
code does not do what it promises, the model keeps the code's behaviour, a lemma
shows an input on which it fails, and another gives the exact condition under
which it holds.

`dafny verify dfyconfig.toml` checks everything.

## The parts

- **Identifier merging** (`UnionFind`, `IdMerge`, `IdMergeLaws`, `StreamEnrich`).
  Union-find with path halving and no rank; a ghost rank, raised at every link,
  shows that the parent links never form a cycle. The roots found are the
  connected components of "shares an id string", in whatever order the id index
  is walked. Results are merged exactly along chains of results that agree on a
  provider's value; merging gives every component its earliest values, and twice
  is the same as once. The streaming variant never sends an id from outside the
  component of what has arrived, and sends with every result whatever it sent
  with results of earlier batches that share an id string with it.
- **Faces** (`FaceGraph`, `DeduplicateFaces`, `ChineseWhispers`,
  `FaceClustering`, `FaceFates`, `FacePromotion`). Depth-first deduplication keeps one
  most-confident face per component. Label propagation is a relation: the
  labels that visits in some order, each taking some winning label, can lead to.
  Under any order and any tie-break it never leaves a component, and when its
  passes end early no face is more similar to a neighbour's cluster than to its
  own and every face with a similar one is in a cluster. The clustering run
  conserves faces; it sends each to its intended place, in every order of the
  clusters, exactly when no row carries the id of a cluster of this run that it
  is not in, small clusters' ids on rows of other clusters excepted. That no row
  carries any id such a run can produce is enough. Persons come from the clusters
  with ten faces of pairwise different media, and from all of those.
- **Conversion queue** (`ConvertQueue`). Handlers and workers as a transition
  system over the two locks: nothing is lost, nothing is reordered, one
  conversion runs at a time, no wakeup is missed, and every schedule comes to
  rest, with exactly the elements converted that requests came with, those of
  dropped requests excepted.
- **Playlist import** (`M3uImport`, `M3uLaws`, `M3uEntries`, `M3uRepeat`). The tables converge to the
  playlist, except for tags made by hand and duplicate variant rows, for which the
  exact conditions are given; what channels, variants and tags hold is stated on
  the entries of the playlist themselves. A second import changes nothing when a lookup by
  name answers alike for the same row ids; for lookups that may answer
  differently each time the exact condition is given.
- **Stream slots** (`StreamSlots`, `SlotLaws`, `SlotActivity`, `StreamRaces`). Any number of
  consumers may share a channel. With each operation one step, every consumer
  keeps its slot exactly as long as no step takes the slot of a channel somebody
  goes on consuming, limits hold exactly as long as no victim without slot is
  evicted, and a slot is held by nobody exactly when its last grant was for a
  failed lookup; one consumer per channel suffices for the first two. The
  session evicted is the one whose last touch or creation lies furthest back, and
  a request is refused only when streams that are no sessions fill the library. At the
  grain of the lock sections the bound grows by one for each eviction whose
  victim held no slot, and live sessions keep their slots under an exact
  condition again. It suffices that sessions start only on channels that hold a
  slot and are free of earlier supervisors and pending evictions, and that no live
  session's channel is released.
- **Shared progress** (`SharedProgress`). Writes fan out over two mapping steps,
  reads follow one redirect; who sees whose entries is derived from both.
- **Codecs** (`TagPaths`, `RangeHeader`, `ExportFrame`, `SeparatedLists`,
  `ProgressThrottle`, with `Text` for decimal numbers, splitting and joining).

`Prelude` and `Graphs` hold shared collections and reachability.

## Where the code departs from its promises

- The comment on the merged users of a library says the asking user is included.
  A user in no mapping gets the empty set, so marking an entry as watched within
  a library whose mappings do not name the user writes nothing
  (`OwnEntryVisibleIff`,
  `UnmappedWriterExample`).
- A playlist import inserts tags with "insert or ignore", so a tag mapped by hand
  never becomes an imported one (`AutoTagsDesiredIff`). Nothing makes variant
  names unique, so duplicate rows survive every import (`VariantsExactIff`).
- Which of several rows of one name a variant lookup returns is left open by its
  `LIMIT 1` without an order (`src/model/store/sql/library/channels.rs:337`). The
  table is keyed by id and has an index on the channel only, so a scan in id order
  returns the same row for the same ids; since writes keep ids and names, a second
  import then changes nothing, whatever duplicates there are
  (`SameAnswersImportsRepeat`). Relying on no more than the statement says, it may
  write a different row of a name, exactly when `ImportsRepeatIff` says
  (`TwoAddressesExample`).
- Cluster ids repeat between runs, and a run reads all rows and clears no id. So
  promotion takes along every row that still carries the id from an earlier run,
  and a face in no cluster can end under a small cluster's id
  (`IntendedIffStaleFree`, `LeftOverPromotedExample`, `LeftOverStagedExample`).
- Stopping a session only cancels it. Until its supervisor removes it, it can be
  evicted again, which takes a library over its limit
  (`CancelledSessionEvictedAgain`), and its late release can take the slot of
  the session that replaced it (`LateReleaseTakesNewSlot`, exactly when:
  `StreamRaces.RunCoveredIff`). A failed URL lookup keeps the slot it took
  (`FailedLookupBlocksLibrary`, exactly when: `LeakedIffLastGrantFailed`). Slots
  have no reference count, so two qualities of one channel share one slot
  (`SharedChannelLosesSlot`, exactly when: `SlotLaws.RunCoveredIff`).
- The "already converting" branch of the conversion request can never be taken,
  since the flag is only up while its lock is held (`FlagFalseWhenLockFree`); a
  worker is spawned for every element.
- Codecs are written with a comma by the media update and read with a bar; lists
  of two or more never come back (`MixedReadBackIff`, `TwoCodecsExample`).
- A request for several byte ranges is read as one range, open at its end and,
  when the first range is a suffix, at its start too (`SeveralRangesReadAsOpen`);
  section 14.2 of RFC 9110 lets a server ignore or refuse such a request.

## Model

| member | source | states |
|---|---|---|
| UnionFind.ClimbReachesRep | src/model/entity_search.rs:44-50 | climbing parent links from any node ends at the root the forest assigns to it |
| UnionFind.ClimbOnlyReachesRep | src/model/entity_search.rs:44-50 | it ends at no other node |
| UnionFind.HalvingKeepsForest | src/model/entity_search.rs:46 | pointing a node at its grandparent keeps the links acyclic and every node's root |
| UnionFind.Find | src/model/entity_search.rs:44-50 | terminates without rank or size in the code, returns the root, changes no node's root |
| UnionFind.LinkKeepsForest | src/model/entity_search.rs:57-59 | linking one root below another keeps the links acyclic, for either direction |
| UnionFind.Union | src/model/entity_search.rs:55-59 | merges exactly the two classes |
| IdMerge.BuildIndex | src/model/entity_search.rs:35-40 | maps every id string to results that carry it, missing none |
| IdMerge.UnionEveryId | src/model/entity_search.rs:51-62 | for any order of the id index: results carrying a common id end with one root, and only linked results do |
| IdMerge.ComponentRoots | src/model/entity_search.rs:43-71 | two results have the same root exactly when a chain of results, each sharing an id string with the next, joins them |
| IdMerge.GroupByRoot | src/model/entity_search.rs:65-71 | each root's list is its whole class in input order, without empty classes |
| IdMerge.MergeAll | src/model/entity_search.rs:77-80 | folds the members' ids from empty, earlier members winning |
| IdMerge.ApplyToMembers | src/model/entity_search.rs:81-84 | writes the merged ids to exactly the members, through the flat index |
| IdMerge.MergeResultIds | src/model/entity_search.rs:17-86 | every result with company gets its component's merged ids, every other result is unchanged, groups keep their shape |
| IdMergeLaws.MergedFromEarliest | src/model/entity_search.rs:77-80 | a component's merged ids are exactly the keys its members had, each with the earliest member's value |
| IdMergeLaws.LinkedResultsAgree | src/model/entity_search.rs:73-85 | members of one component end with the same ids |
| IdMergeLaws.MergeKeepsLinks | src/model/entity_search.rs:17-86 | merging neither joins nor separates components |
| IdMergeLaws.MergeIdempotent | src/model/entity_search.rs:17-86 | a second merge changes nothing |
| IdMergeLaws.CommonIdIffAgree | src/model/entity_search.rs:34-40 | two id sets share an id string exactly when they give one provider the same value |
| IdMergeLaws.ColonKeyExample | src/model/entity_search.rs:34-40 | with a colon in a provider name they can share a string without agreeing |
| IdMergeLaws.LinkedIffChain | src/model/entity_search.rs:43-71 | two results are in one component exactly when a chain of results, each agreeing with the next on a provider, joins them |
| IdMergeLaws.AgreeingResultsMerge | src/model/entity_search.rs:73-85 | two results agreeing on a provider end with the same ids |
| IdMergeLaws.DisagreeingResultStays | src/model/entity_search.rs:73-85 | a result agreeing with no other is left as it is |
| IdMergeLaws.SameValueExample | src/model/entity_search.rs:34-40 | two films with one number at different providers stay two |
| IdMergeLaws.FirstHolderWins | src/model/entity_search.rs:17-86 | on the groups: the first result, groups and results in order, to hold a key gives its value to every result agreeing with it |
| StreamEnrich.EnrichFromSeen | src/model/entity_search.rs:90-111 | every result absorbs, in order, each seen id set sharing an id string with what it has so far; returns the ids of all results carrying any |
| StreamEnrich.AbsorbStaysInComponent | src/model/entity_search.rs:98-103 | absorbing seen ids owned by received results only brings ids of the result's own component |
| StreamEnrich.AbsorbKeepsOwn | src/model/entity_search.rs:98-103 | a result's own ids survive unchanged |
| StreamEnrich.BatchSound | src/model/entity_search.rs:226-227 | one batch is sound and what it adds to the seen ids is owned by received results |
| StreamEnrich.SearchStream | src/model/entity_search.rs:184-243 | for every sequence of batches: each batch is sent enriched from the ids of everything sent before it, and every id sent comes from the original ids of the result's component over everything received so far, own ids kept |
| StreamEnrich.StreamedComplete | src/model/entity_search.rs:217-243 | every key sent with a result is sent with each result of a later batch whose own ids share an id string with what was sent |
| StreamEnrich.AbsorbTakes | src/model/entity_search.rs:98-103 | looking through seen ids takes every key of each set sharing a string with the ids there are to begin with |
| StreamEnrich.LaterResultEnriched | src/model/entity_search.rs:226-227 | two batches: the second result is sent with the id that came with the first |
| StreamEnrich.ReceivedPicked | src/model/entity_search.rs:184-225 | the batches received are the pre-fetched results and all plugin batches, in order, those without results left out |
| StreamEnrich.StreamedKeysAreMergedKeys | src/model/entity_search.rs:90-111 | streaming sends no key the batch merge of the same results would not have |
| FaceGraph.SimilaritySymmetric | src/model/people.rs:1747-1754 | similarity is symmetric, including empty and mismatched embeddings |
| FaceGraph.SimilarityLinear | src/model/people.rs:1747-1754 | similarity is linear in an embedding and takes the coordinate along each axis; empty or mismatched embeddings have none |
| FaceGraph.BuildAdjacency | src/model/people.rs:1844-1859 | comparing each pair once lists for every face exactly its neighbours at or above the threshold, with scores |
| DeduplicateFaces.Explore | src/model/people.rs:1787-1802 | the explicit-stack search visits exactly the component of its start and marks nothing else |
| DeduplicateFaces.FindClusters | src/model/people.rs:1783-1803 | every face is in one cluster, whose members are exactly the faces linked to it; clusters come in order of first face |
| DeduplicateFaces.MostConfident | src/model/people.rs:1813-1822 | picks a member no other member exceeds in confidence |
| DeduplicateFaces.Deduplicate | src/model/people.rs:1758-1828 | returns one most-confident face per component, components in order of first face |
| DeduplicateFaces.OnePerComponent | src/model/people.rs:1805-1825 | every face is linked to exactly one face kept |
| DeduplicateFaces.KeptMoreConfident | src/model/people.rs:1805-1825 | every face is linked to a face kept of at least its confidence |
| DeduplicateFaces.KeptFacesDiffer | src/model/people.rs:1756-1758 | any two faces kept are below the threshold |
| DeduplicateFaces.DifferentFacesAllKept | src/model/people.rs:1758-1828 | faces that differ pairwise are all kept, in order |
| DeduplicateFaces.DeduplicateTwice | src/model/people.rs:1758-1828 | running it on its own result returns that result |
| ChineseWhispers.BestLabel | src/model/people.rs:1902-1924 | the label chosen is held by a neighbour and no neighbour's label has a higher summed score, however ties break |
| ChineseWhispers.Pass | src/model/people.rs:1892-1925 | for some order of all nodes: each in turn, seeing the updates before it, keeps its label if it has no neighbours and otherwise takes a winning one; no changes reported means nothing changed and every label wins |
| ChineseWhispers.Propagate | src/model/people.rs:1886-1934 | the labels are those of twenty such passes from distinct labels, or of fewer that a pass without changes followed |
| ChineseWhispers.PassesStayInComponent | src/model/people.rs:1886-1934 | whatever the number of passes, their orders and tie-breaks, every label is a node of its holder's component |
| ChineseWhispers.AtMostTwentyPasses | src/model/people.rs:1885-1934 | the labels are those of at most twenty passes, stable if of fewer |
| ChineseWhispers.StableLabelsOutscore | src/model/people.rs:1927-1933 | after a pass without changes no neighbour's label outscores a node's own, scores taken over the similarity graph |
| ChineseWhispers.GroupByLabel | src/model/people.rs:1937-1959 | the clusters are the label groups of two or more faces, each named after its label |
| ChineseWhispers.Cluster | src/model/people.rs:1830-1970 | the clusters are the label groups of labels that the passes can end with and, if they ended early, can end early with |
| ChineseWhispers.StableClustersOutscore | src/model/people.rs:1914-1933 | then a face is at least as similar in total to its own cluster as to the cluster of any similar face |
| ChineseWhispers.StableClustersCover | src/model/people.rs:1886-1959 | when the passes ended early every face with a similar face is in a cluster with one similar to it |
| ChineseWhispers.UnlikeFaceUnclustered | src/model/people.rs:1886-1959 | a face similar to no other is in no cluster |
| ChineseWhispers.ClusterIdsAreIndices | src/model/people.rs:1936-1946 | every cluster id is "cluster_" and the index of a face |
| ChineseWhispers.ClusterStaysInComponent | src/model/people.rs:1830-1970 | faces of one cluster are joined by a chain of similar faces |
| ChineseWhispers.ClustersDisjoint | src/model/people.rs:1936-1959 | clusters have two or more known faces and share none |
| FaceFates.DisposeSettles | src/model/people.rs:1144-1178 | disposing of a cluster sends its untouched faces to its person, or puts them under its id |
| FaceFates.DisposeLeaves | src/model/store/sql/library/people.rs:683-774 | it leaves alone every face that is not in it and, if it is promoted, does not carry its id |
| FaceFates.DisposeOneConserves | src/model/people.rs:1144-1178 | it loses, duplicates and takes back no face |
| FaceClustering.FaceStore.DisposeClusters | src/model/people.rs:1131-1179 | every cluster once in some order, each promoted one to a person of its own; counts the large ones |
| FaceClustering.FaceStore.ClusterUnassignedFaces | src/model/people.rs:1092-1202 | below three faces nothing changes; otherwise the tables are those of disposing of label-propagation clusters, stable if the passes ended early, and marking the rest |
| FaceFates.RunConserves | src/model/people.rs:1127-1197 | no face is lost, duplicated or taken back from a person, whatever the clusters and stale ids |
| FaceFates.StaleFreeIsIntended | src/model/people.rs:1127-1197 | when no left-over id does harm each face meets exactly one fate: its large cluster's person, its small cluster's id, or only the processed flag and no id of the run's clusters |
| FaceFates.IntendedIffStaleFree | src/model/people.rs:1131-1197 | this holds for every order of clusters if and only if no row carries the id of a cluster it is not in that is promoted, or, for rows in no cluster, any cluster's id |
| FaceFates.NoLeftoversIntended | src/model/people.rs:1099-1197 | on the table alone: without an id "cluster_" and an index below the number of rows every run is as intended |
| FaceFates.RunClustersWellFormed | src/model/people.rs:1121-1131 | the clusters of every actual run meet the conditions of that law |
| FaceFates.LookalikesNotIntended | src/model/people.rs:1092-1202 | two or more faces alike and one unlike with a left-over id: at the default threshold one pass can give the former one label, the next can end the propagation early, and the run with that one cluster is not as intended |
| FaceFates.LeftOverPromotedExample | src/model/people.rs:1144-1161 | ten faces alike, clustered by passes that end early: the eleventh, in no cluster, ends with their person |
| FaceFates.LeftOverStagedExample | src/model/people.rs:1175-1197 | two faces alike, clustered by passes that end early: the third, in no cluster, ends under their cluster's id |
| FacePromotion.LargeIffTenMedia | src/model/people.rs:1137-1144 | a cluster is large exactly when ten of its faces have pairwise different media |
| FacePromotion.TenMediaGetPerson | src/model/people.rs:1131-1161 | a run gives a person to every face of a cluster with ten faces of pairwise different media |
| FacePromotion.PersonNeedsTenMedia | src/model/people.rs:1131-1161 | a face gets a person only from such a cluster, which it is in or whose id its row carried, and gets that cluster's |
| FacePromotion.PromotedIffTenMedia | src/model/people.rs:1131-1161 | a member whose row carries no current id gets a person if and only if its cluster is one |
| FacePromotion.CreatedIsTenMedia | src/model/people.rs:1131-1179 | the persons created are counted by those clusters |
| FacePromotion.OneMediumIsNotTen | src/model/people.rs:1137-1144 | a cluster of faces of one medium is none, however many it has |
| ConvertQueue.ReachableInv | src/model/medias.rs:2883-2907 | in every interleaving: one writer and never with readers, the flag is up exactly inside a worker's loop, pushed = processed + in progress + queue, a non-empty queue has someone coming for it |
| ConvertQueue.FlagFalseWhenLockFree | src/model/medias.rs:2883-2889 | whoever reads the flag reads false |
| ConvertQueue.ConvertedInOrder | src/model/medias.rs:2893-2903 | what is done is a prefix of what was pushed and at most one element is in the works |
| ConvertQueue.RestMeansConverted | src/model/medias.rs:2883-2909 | once everything is at rest all pushed elements are converted, in push order |
| ConvertQueue.ArrivalsAccounted | src/model/medias.rs:2883-2907 | in every run: as often as requests came with an element it was pushed, is in hand of a request, or was in hand of one that disconnected |
| ConvertQueue.RequestedMeansConverted | src/model/medias.rs:2883-2907 | at rest each element was converted as often as it was requested, but for requests dropped with it in hand |
| ConvertQueue.ConvertedIsRequested | src/model/medias.rs:2883-2907 | without dropped requests what was converted is a permutation of what was requested |
| ConvertQueue.NeverStuck | src/model/medias.rs:2883-2907 | unless everything is at rest some step is possible |
| ConvertQueue.SchedulesEnd | src/model/medias.rs:2883-2907 | without new arrivals every schedule ends within a bound on the work left |
| M3uImport.ChannelStore.GetChannelByTvgId | src/model/store/sql/library/channels.rs:94-108 | finds some channel of the id, or there is none |
| M3uImport.ChannelStore.AddChannelTag | src/model/store/sql/library/channels.rs:230-243 | afterwards the pair has a row, which keeps the confidence it had if it was there, and no other pair changes |
| M3uImport.ChannelStore.RemoveChannelAutoTag | src/model/store/sql/library/channels.rs:276-289 | afterwards the pair has no imported row, a row made by hand and all other pairs stay |
| M3uImport.ChannelStore.RemoveChannel | src/model/store/sql/library/channels.rs:203-213 | the channel has no row, variant or tag left, every other channel keeps all of its own |
| M3uImport.ChannelStore.GroupEntries | src/model/channels.rs:212-248 | groups exactly the live entries with a tvg id, in playlist order |
| M3uImport.ChannelStore.SyncTags | src/model/channels.rs:334-356 | rows made by hand stay, apart from them exactly the desired tags are mapped, other channels are untouched |
| M3uImport.ChannelStore.SyncVariants | src/model/channels.rs:359-401 | one write per entry in playlist order into a row of its name the lookup returns, or a new one; then named rows outside the playlist go; other channels are untouched |
| M3uImport.ChannelStore.UpsertChannel | src/model/channels.rs:292-331 | the channel of the tvg id, or a new one that nothing refers to, gets the row the group asks for; no other channel row changes |
| M3uImport.ChannelStore.ImportGroup | src/model/channels.rs:282-401 | finds or creates the group's channel and syncs it; every other channel keeps its data |
| M3uImport.ChannelStore.ImportGroups | src/model/channels.rs:281-410 | in any order of groups each gets a channel of its own; added and updated are counted exactly |
| M3uImport.ChannelStore.RemoveUnseen | src/model/channels.rs:412-424 | removes exactly the earlier channels no group used |
| M3uImport.ChannelStore.ImportM3u | src/model/channels.rs:207-424 | from any tables and any playlist: the channels are those of the groups, each synced, all others gone, with exact counters |
| M3uLaws.OneChannelPerTvgId | src/model/channels.rs:243-331 | afterwards there is exactly one channel per live tvg id and no other channel |
| M3uLaws.CountersAddUp | src/model/channels.rs:308-331 | added + updated is the number of groups and of channels; the table grows by added and shrinks by removed |
| M3uLaws.AutoTagsAfterSync | src/model/channels.rs:334-356 | imported tags are the desired ones not mapped by hand; hand-made rows are unchanged |
| M3uLaws.AutoTagsDesiredIff | src/model/channels.rs:348-356 | they equal the desired set if and only if no desired tag was mapped by hand |
| M3uLaws.HandMadeTagExample | src/model/store/sql/library/channels.rs:235-238 | a concrete tag on which they differ |
| M3uLaws.VariantNamesMatch | src/model/channels.rs:359-401 | a channel's variant names are exactly the playlist's |
| M3uLaws.UnnamedVariantsStay | src/model/channels.rs:394-401 | variants without a name are untouched |
| M3uLaws.VariantsExactIff | src/model/channels.rs:359-401 | there is exactly one row per name, carrying its last entry, if and only if no name had two rows before |
| M3uLaws.DuplicateVariantExample | src/model/channels.rs:365-388 | two rows of one name that stay two rows |
| M3uEntries.LiveIff | src/tools/m3u_parser.rs:44-52 | an entry is live unless its address contains "/movie/" or "/series/" |
| M3uEntries.GroupPicked | src/model/channels.rs:243-248 | a group lists exactly the live entries of its tvg id, each once, in playlist order |
| M3uEntries.GroupsHoldEntries | src/model/channels.rs:212-248 | there is a group exactly for the tvg ids of live entries |
| M3uEntries.ChannelsOfPlaylist | src/model/channels.rs:207-424 | after an import there is a channel exactly for the tvg ids of live entries |
| M3uEntries.VariantNamesOfPlaylist | src/model/channels.rs:207-424 | a channel's variant names are exactly the names of the live entries with its tvg id |
| M3uEntries.VariantOfPlaylist | src/model/channels.rs:359-388 | where a name had at most one row, its row has the address, quality and cleaned name of the last live entry with that tvg id and name |
| M3uEntries.TagsOfPlaylist | src/model/channels.rs:334-356 | a channel's tags of confidence 0 are those its live entries' group titles ask for, other than tags mapped by hand, which stay |
| M3uEntries.ChannelOfPlaylist | src/model/channels.rs:283-331 | a channel has the name and logo of its first live entry with a logo, else the name of its first and the logo it had; its number stays |
| M3uLaws.RepeatsIffSettled | src/model/channels.rs:359-401 | a second sync of a channel's variants changes nothing if and only if lookups answer alike for the same ids, or every playlist name has at most one row or only rows that every entry of the name already agrees with |
| M3uLaws.SameAnswersRepeat | src/model/store/sql/library/channels.rs:326-348 | when a lookup's answer depends only on the ids of the rows with the name, a second sync changes nothing, whatever duplicates there are |
| M3uLaws.UnsettledMoves | src/model/store/sql/library/channels.rs:326-348 | if lookups may answer differently each time and the rows are not settled, two syncs exist of which the second changes a row |
| M3uLaws.SecondImportSameChannels | src/model/channels.rs:292-331 | a second import finds every channel, adds none, removes none |
| M3uLaws.SecondImportChangesNothing | src/model/channels.rs:207-424 | a second import of the same playlist leaves all tables as they are if lookups answer alike for the same ids, or the variants of every channel used were settled |
| M3uRepeat.SameAnswersImportsRepeat | src/model/channels.rs:207-424 | over whole tables, from any tables and for any choice of channels: when lookups answer alike for the same ids a second import changes nothing |
| M3uRepeat.ImportsRepeatIff | src/model/channels.rs:207-424 | for lookups that may answer differently each time, over whole tables: a second import changes nothing if and only if every channel carrying a group's tvg id has settled variants |
| M3uRepeat.UnsettledImportsDiffer | src/model/channels.rs:281-410 | otherwise, with such lookups, two imports exist of which the second changes the tables |
| M3uRepeat.TwoAddressesExample | src/model/channels.rs:365-388 | two rows of one name with different addresses on which two syncs differ when the lookup answers differently the second time |
| StreamSlots.SlotTable.AcquireStreamSlot | src/model/channels.rs:641-696 | same channel let in, room taken, otherwise an oldest session of the library is evicted, or refusal |
| StreamSlots.SlotTable.ReleaseStreamSlot | src/model/channels.rs:698-710 | frees the channel's slot and drops an empty library entry |
| StreamSlots.SlotTable.GetOrCreateHlsSession | src/model/channels.rs:714-757 | all five outcomes with the slot table each leaves behind |
| StreamSlots.SlotTable.StopHlsSession | src/model/channels.rs:759-782 | ends every quality of the channel and releases its slot if there was one |
| StreamSlots.SlotTable.CleanupStaleSessions | src/model/mod.rs:233-242 | stale sessions go and exactly their channels' slots are freed |
| SlotLaws.StepKeepsCoveredIff | src/model/channels.rs:641-782 | with any number of consumers per channel, every consumer still holds a slot after an operation if and only if it took none from a channel somebody goes on consuming |
| SlotLaws.RunCoveredIff | src/routes/channels.rs:138-215 | every consumer holds a slot throughout a run if and only if no step of it takes one from remaining consumers |
| SlotLaws.AcquireExceedsIff | src/model/channels.rs:658-693 | an acquisition takes a library over its limit if and only if the victim it evicts holds no slot |
| SlotLaws.StepExceedsIff | src/model/channels.rs:641-782 | an operation leaves the limits exactly at such an eviction whose slot is kept |
| SlotLaws.RunWithinLimitsIff | src/model/channels.rs:641-782 | a run stays within all limits if and only if it has no such step |
| SlotLaws.LimitsHold | src/routes/channels.rs:138-215 | a run that takes no slot from remaining consumers stays within all limits with every consumer holding a slot |
| SlotLaws.OneConsumerSuffices | src/model/channels.rs:653-656 | one consumer per channel is enough for that |
| SlotLaws.StepLeaksIff | src/model/channels.rs:735-757 | after a step a slot is held by nobody if and only if its lookup failed with nobody else on the channel, or it was held by nobody and not granted again |
| SlotLaws.LeakedIffLastGrantFailed | src/model/channels.rs:735-757 | in every run a slot is held by nobody exactly when its last grant was for such a lookup |
| SlotLaws.SlotsMatchIff | src/routes/channels.rs:145-174 | where every consumer holds a slot, slots and consumers match if and only if no channel's last grant was for such a lookup |
| SlotLaws.FailedLookupBlocksLibrary | src/model/channels.rs:736-739 | after a failed lookup with one stream allowed every other channel is refused |
| SlotLaws.SharedChannelLosesSlot | src/model/channels.rs:653-656 | a run that opens two qualities of one channel, cleans one up, and leaves the other without slot |
| SlotActivity.TimeIsLastActivity | src/model/channels.rs:659-671 | in every run the time kept for a session is that of its last touch or its creation |
| SlotActivity.EvictedLeastActive | src/model/channels.rs:659-671 | the session evicted is one of the library, and none of the library was last touched or created earlier |
| SlotActivity.RecentlyActiveStays | src/model/channels.rs:659-671 | a session active later than another of its library is not the one evicted |
| SlotActivity.JustTouchedStays | src/model/channels.rs:659-671 | in particular one just touched at a time later than another's last activity |
| SlotActivity.RefusedIff | src/model/channels.rs:653-693 | where slots and consumers match: a request is refused exactly when its channel is not consumed, as many channels as allowed (one by default) are, and no session is among them; a session is evicted exactly when one is |
| StreamRaces.StepCounts | src/model/channels.rs:674-683 | the slots exceed the limit by a step only at a swap whose victim held none |
| StreamRaces.ReachableSlotsBounded | src/model/channels.rs:650-683 | in every interleaving of lock sections: slots are at most the limit plus the evictions of victims without slot |
| StreamRaces.OverLimitNeedsBlindSwap | src/model/channels.rs:674-683 | a run over the limit contains such a swap |
| StreamRaces.CancelledSessionEvictedAgain | src/tools/hls_session.rs:364-372 | a run of three requests that ends over the limit |
| StreamRaces.LateReleaseTakesNewSlot | src/tools/hls_session.rs:303-309 | a run in which a live session ends without slot |
| StreamRaces.StepKeepsCoveredIff | src/model/channels.rs:674-683 | at the grain of lock sections every live session still holds a slot after a step if and only if the step releases or swaps away no live session's slot and lists no session on a channel without one |
| StreamRaces.RunCoveredIff | src/tools/hls_session.rs:297-372 | live sessions hold their slots throughout a run if and only if no step of it does so |
| StreamRaces.LostSlotNeedsUncovering | src/tools/hls_session.rs:297-372 | a run that leaves a live session without slot contains such a step |
| StreamRaces.OneSupervisorSuffices | src/tools/hls_session.rs:297-372 | if sessions are only created on channels that hold a slot, whose earlier supervisors have all ended and which no pending eviction names, and no live session's channel is released, every live session holds a slot in every reachable state |
| SharedProgress.ProgressStore.GetLibraryProgressMergedUsers | src/model/libraries.rs:341-373 | the nested loops collect the ends of all mappings meeting one that touches the user |
| SharedProgress.MergedIsTwoHop | src/model/libraries.rs:339-373 | that is the users within two undirected mapping steps if the user occurs in a mapping, and nobody otherwise |
| SharedProgress.MergedSymmetric | src/model/libraries.rs:353-371 | membership is symmetric |
| SharedProgress.ProgressStore.GetOptionalLibraryMappedUser | src/model/libraries.rs:393-415 | the target of the first mapping from the user, else the user |
| SharedProgress.RedirectIsFirst | src/model/libraries.rs:405-412 | the first mapping from a user decides, without one he is read as himself |
| SharedProgress.ProgressStore.AddWatched | src/model/users.rs:488-517 | sets the date for exactly the users the write reaches and drops their playback positions |
| SharedProgress.ProgressStore.RemoveWatched | src/model/users.rs:524-552 | sets the date of exactly their matching rows to 0 |
| SharedProgress.ProgressStore.GetWatched | src/model/users.rs:466-475 | lists exactly the rows of the user read as that the query's deletion, type and id filters ask for; nothing for the administrator |
| SharedProgress.LiveHistoryIsSeen | src/model/store/sql/users.rs:291-340 | without filters that is exactly what the reader sees |
| SharedProgress.FiltersNarrow | src/model/store/sql/users.rs:291-340 | type and id filters keep exactly what they name, and leaving out deleted entries keeps those of positive date |
| SharedProgress.ProgressStore.AddViewProgress | src/model/users.rs:554-567 | sets the position for exactly the users the write reaches |
| SharedProgress.ProgressStore.GetViewProgress | src/model/users.rs:569-580 | returns some position of the user read as for any of the ids, and none only if there is none or for the administrator |
| SharedProgress.SeenAfterAddIff | src/model/users.rs:466-517 | a reader sees a new entry exactly when the user read as is one the write reaches |
| SharedProgress.AddedEntryVisible | src/model/users.rs:466-517 | a mapped writer and everyone sharing a mapping with him see the entry with its date |
| SharedProgress.RemovedEntryHidden | src/model/users.rs:466-552 | removal hides it from the same readers |
| SharedProgress.AddedElsewhereStays | src/model/users.rs:488-517 | other items, and users the write does not reach, see what they saw |
| SharedProgress.OutsideLibraries | src/model/users.rs:488-517 | outside libraries the writer, and nobody else, sees a new entry |
| SharedProgress.RemovedElsewhereStays | src/model/users.rs:524-552 | the same for removal |
| SharedProgress.WatchedDropsPosition | src/model/users.rs:488-517 | marking an item as watched drops its position for the same readers and no other position |
| SharedProgress.OwnEntryVisibleIff | src/model/users.rs:488-517 | in a library a user sees his own entry if and only if he occurs in its mappings |
| SharedProgress.UnmappedWriterExample | src/model/libraries.rs:346-372 | a user outside the only mapping whose entry is written nowhere |
| SharedProgress.AddedProgressReadBack | src/model/users.rs:554-580 | a playback position is found by the same readers, and is the one returned if it is their only one for the ids |
| SharedProgress.TwoStepsAwayMayMiss | src/model/libraries.rs:407-411 | a user two steps away whose redirect leads further misses the entry |
| TagPaths.ListedIffReachable | src/model/tags.rs:232-243 | an entry is listed exactly when a parent chain leads from the start to its tag, with the path of that chain |
| TagPaths.PathIsNames | src/model/tags.rs:239 | the path along a chain is the starting path and the names of all tags before the last, each closed by a slash |
| TagPaths.PathNamesAncestors | src/model/tags.rs:232-243 | splitting a listed entry's path at slashes gives the names of its ancestors, outermost first, when no name has a slash |
| TagPaths.ChainsAgree | src/model/tags.rs:234-235 | a tag is reached from one start by one chain only |
| TagPaths.EachListedOnce | src/model/tags.rs:232-243 | no tag is listed twice |
| TagPaths.ListsParentsFirst | src/model/tags.rs:236-241 | every entry is directly below the start or comes after its parent |
| TagPaths.CyclesNotListed | src/model/tags.rs:232-243 | tags on parent cycles, and below only those, are never listed |
| RangeHeader.ParsePieces | src/routes/mw_range.rs:50-56 | for every header text: refused unless a piece between dashes names the unit, otherwise the first two pieces without it are the bounds, and anything but a 64-bit number is an open bound |
| RangeHeader.ParseHeader | src/routes/mw_range.rs:26-56 | parsing undoes printing for every pair of optional 64-bit bounds |
| RangeHeader.HeaderInjective | src/routes/mw_range.rs:26-29 | different ranges print differently |
| RangeHeader.SeveralRangesReadAsOpen | src/routes/mw_range.rs:54-55 | any first range, then a comma and any text, is read as everything from the first range's start; everything at all if and only if that is a suffix |
| RangeHeader.SeveralRangesExamples | src/routes/mw_range.rs:54-55 | three such requests, with a space, an open end and a suffix |
| Text.RemoveThenSplit | src/routes/mw_range.rs:54 | removing a dash-free pattern and splitting at dashes commute |
| Text.DecimalDenotes | src/routes/mw_range.rs:27 | decimal text has only digits and denotes its number |
| Text.SplitJoin | src/routes/mw_range.rs:54 | splitting undoes joining for separator-free parts |
| ExportFrame.PrepareUpload | src/model/backups.rs:536-560 | builds the frame piece by piece; the declared size is its length |
| ExportFrame.FromToLe | src/model/backups.rs:543-544 | little-endian bytes of a signed 32-bit number read back as that number |
| ExportFrame.BytesOfLength | src/model/backups.rs:543-544 | the four bytes are the length, lowest first |
| ExportFrame.DecodesExactlyFrames | src/routes/libraries.rs:179-193 | decoding succeeds exactly on frames of JSON below 2^31 bytes and returns their parts |
| ExportFrame.RoundTripIff | src/routes/libraries.rs:179-193 | import undoes export if and only if the JSON is below 2^31 bytes |
| ExportFrame.LongJsonIsCut | src/model/backups.rs:543 | longer JSON is cut at its length's low 32 bits, or stops the handler |
| SeparatedLists.ReadWritten | src/model/store.rs:137-155 | for elements whose text is trimmed, separator-free and parses back, reading undoes writing unless the list is one empty text |
| SeparatedLists.ReadPadded | src/model/store.rs:141-144 | a text without separator is read as what it parses to without the white space around it, or dropped |
| SeparatedLists.ReadBothSides | src/model/store.rs:141 | what is on both sides of a separator is read one after the other |
| SeparatedLists.ReadIsClean | src/model/store.rs:141-144 | whatever is read is trimmed and separator-free |
| SeparatedLists.ReadBackIff | src/model/store.rs:137-155 | a list of texts is read back if and only if they are trimmed and separator-free and it is not one empty text |
| SeparatedLists.MixedReadsOne | src/model/store/sql/library/medias.rs:1057-1060 | written with one separator and read with another at most one element comes back, for any element type |
| SeparatedLists.MixedReadBackIff | src/model/store/sql/library/medias.rs:220-222 | such a list of texts is read back if and only if it also has at most one element |
| SeparatedLists.TwoCodecsExample | src/model/store/sql/library/medias.rs:1057-1060 | two codecs that come back as one |
| ProgressThrottle.CreateProgressSender | src/model/medias.rs:2079-2129 | the loop lets through exactly the messages of the specification; its subtraction never underflows |
| ProgressThrottle.CreateBackupProgressSender | src/model/backups.rs:629-661 | the same for backups, which show 0 for an unknown position |
| ProgressThrottle.LastSentIsClose | src/model/medias.rs:2106-2115 | after any messages the last one sent is of the last one's kind and at most 1,000,000 below it |
| ProgressThrottle.SteadySendsFew | src/model/medias.rs:2110-2115 | a growing transfer of total T sends at most 3 + T / 1,000,001 messages |
| ProgressThrottle.SteadyBoundReached | src/model/medias.rs:2110-2115 | a transfer that sends that many |

## Left out

- Similarities and confidences are reals: rounding, NaN and the similarity statistics in the log are not modelled.
- Generated identifiers are numbers not in use; collisions of random identifiers are not modelled.
- SQL tables are maps with the keys and the insert, replace and delete behaviour of their statements; timestamps, ordering of query results and database errors are not modelled.
- Face promotion: the person's name, the media mappings written beside the moved faces and update events.
- Playlist import: download, parsing, creation of group tags (given as a function from title to tag), counting of groups, and status messages; quality, variant and channel names are arbitrary functions of the entry's name.
- Streaming search: a receiver that goes away ends the loop early; plugin filtering happens before the batches modelled here.
- IdMerge.MergeResultIds: `RsIds` is a map from key to value with "key:value" strings, since its library is not part of this model; that provider names hold no colon is a condition of the laws that need it (`ColonKeyExample`).
- ConvertQueue.NeverStuck: the lock may serve waiting tasks in any order, so its fair queueing is not used; panics of the converter are not modelled.
- ConvertQueue.SchedulesEnd: conversions are assumed to finish.
- StreamSlots: an unknown library is refused before any slot is touched; this is not modelled.
- StreamRaces.ReachableSlotsBounded: one library; sessions of other libraries touch no slot of it. A supervisor that ends before its session is listed is not modelled.
- SharedProgress.ProgressStore.GetWatched: the filter by modification time and the ordering of the answer are left out, since modification times are not modelled.
- ExportFrame.RoundTripIff: the JSON is its bytes; UTF-8 checking and parsing of the library description are not modelled.
- ProgressThrottle.CreateProgressSender: percentages and remaining time are not modelled.
- HTTP handling, events, roles, plugins, image serving, encryption, and the simple create, read, update and delete operations.
