# A model of eau2: key-value store, distributed frames and applications

eau2 is a small distributed data system. Every node has a store with one
servicer thread and a first-in first-out inbox; frames are cut into chunks of
`CHUNK_SIZE` rows that are placed round-robin over the nodes, under keys built
from the frame's name; applications map visitors over the chunks homed on
their node. This project models that system and proves what it is for.
`CHUNK_SIZE`, the number of nodes and the size of the line buffer are
arbitrary positive constants.

## Overview

- **The protocol** (`KvProtocol`, `KvLoad`, `KvSafety`, `KvCausality`,
  `KvProgress`, `KvWrites`) is a step machine over all nodes. One step is one map
  operation or one queue push or pop, so a run is any interleaving of the
  application, servicer and replier threads. `KvStore` has the objects of one
  node and ties each of their methods to the step it carries out.
- **Frames** (`Layout`, `Placement`, `Frames`, `FrameProtocol`, `FrameReads`, `FrameFiles`): the
  specification of a frame is one sequence of rows, and its chunks are dealt
  round the ring of nodes. The stores of all nodes are
  seen as one map (`Frames.Stores`), since a key names its node;
  `FrameProtocol` shows that the loaders' puts are publications of the step
  machine, and that in its runs every node fetches and stores what the one map
  of all puts has.
- **Applications as clients** (`Clients`, `ClientRuns`, `LinusClients`,
  `WordCountClients`): each node runs its list of reads, publications and
  computations over the step machine; results do not depend on the interleaving,
  nobody gets stuck, and every run ends.
- **Linus** (`LinusSets`, `LinusSpec`, `Linus`, `LinusMerge`, `LinusRun`): the
  collaborator search on all nodes, against plain recomputation, and that
  against reachability over common projects. The relation is what the nodes' row
  objects show of the commits.
- **Word count** (`WordCountSpec`, `WordCount`), which runs on the hash map.
- **Containers** (`Arith`, `RingArrays`, `HashMaps`), in place over arrays and
  linked nodes, against a sequence and a map.
- **Text** (`LineReaders`, `SorText`, `SorFields`, `SorValues`, `SorGuess`, `SorParsers`,
  `SorPrint`, `SorSchemas`): from buffered bytes to lines, fields, types and rows, and
  from rows to text.
- **Wire format** (`Wire`, `WireLayout`, `Serialization`, `Text`): byte encodings, the place of
  each byte, and key names.
- **Row objects** (`RowObjects`, `RowDefaults`) and the **parallel map** (`ParallelMap`): one
  object shows all rows of a pass, with old values behind missing marks.

## Where the code and its comments differ

The model follows the code.

- The type guess says it looks for fields of only numeric characters; it asks
  for some numeric character (`SorGuess.GuessIsStrict` has the condition under
  which the two agree, `SorGuess.MixedFieldIsNoString` a field where they do not).
- The word count's merge should combine counts; it counts the nodes that list a
  word (`WordCountSpec.MergedIsTotalIff` has the condition under which this is
  the count, `WordCountSpec.RepeatedWordIsUndercounted` an input where it is not).
- The SoR printer has a form for missing fields, but a row's visit never uses
  it: a missing field is printed with whatever value the row object last had
  (`SorPrint.PrintThenParse` has the condition under which a printed frame comes
  back, `SorPrint.MissingComesBackAsOld` a frame that does not).
- The parallel map is meant to do what the sequential map does; its threads
  begin with fresh row objects, so a visitor that reads behind missing marks can
  be shown other values (`ParallelMap.SameViewsIff`, `ParallelMap.SumsDiffer`).
- The taggers of the collaborator search read behind missing marks too
  (`LinusSpec.SearchIsPlainIff` has the condition under which the search is
  still about the frame, `LinusSpec.MissingAuthorIsFound` a frame where it is not).
- The load flag of a frame is shared by all its columns; a second column can be
  read without ever being loaded (`Frames.DataFrame.GetCell` has the condition,
  `Frames.SecondColumnIsNeverLoaded` the input).
- The comment of `fromArray` has the schema stored before the chunks; the code
  stores it last, and the protocol depends on that.
- The line reader means to read no further than the end position, but does not
  subtract what it has read; it also keeps a partial first line if no newline
  ends it before the end of the file, and hands out an empty line if nothing
  follows the one it skipped (`LineReaders.RangeAsDocumented` has the condition
  under which parts are read as documented, `LineReaders.ReadsPastEnd` a part
  where they are not).

## Model

| member | source | states |
|---|---|---|
| `KvSafety.OneTokenPerWait` | eau2/src/store/kvstore.h:61-210 | in every reachable state, Gets in flight from a node + repliers serving it + Replies in flight to it + its filled slot count 1 while it waits and 0 otherwise |
| `KvSafety.SlotNeverOverwritten` | eau2/src/store/kvstore.h:156-163 | whenever the servicer handles a Reply its slot is empty and its application waits for exactly the key of that Reply |
| `KvSafety.ReturnedValueWasPut` | eau2/src/store/kvstore.h:124-210 | a value handed to an application, or about to be, was put under exactly the requested key, and a schema a loader keeps is one it put; a local map holds only pairs that were put and are homed there |
| `KvSafety.ServedAtHome` | eau2/src/store/kvstore.h:139-150 | the assertions of the Put and Get handlers never fail: the message is at its target and its key is homed there |
| `KvSafety.StepInv` | eau2/src/store/kvstore.h:95-210 | every step of applications, servicers and repliers keeps the invariant: good messages, and one token per waiting node |
| `KvSafety.ReachableInv` | eau2/src/store/kvstore.h:95-210 | the invariant holds at the end of every run |
| `KvLoad.ServeLoad` | eau2/src/store/kvstore.h:95-122 | one turn of the servicer keeps every node's request tokens and takes one unit of work |
| `KvLoad.AnswerLoad` | eau2/src/store/kvstore.h:61-69 | a replier turns one Get's token into one Reply's and takes one unit of work |
| `KvCausality.SchemaHolderHasChunks` | eau2/src/store/dataframe.h:392-406 | in every reachable state, a node whose application holds a frame's schema, from a get or from publishing the frame, has every chunk of the frame homed on it in its local map |
| `KvCausality.LoaderHoldsItsSchema` | eau2/src/store/dataframe.h:612-617 | the step that puts a schema leaves it with the loader, and all chunks homed on the loader's node are stored by then |
| `KvCausality.LocalLoadNeverAborts` | eau2/src/store/dataframe.h:392-406 | so the unguarded local lookup of such a chunk, through a fetched frame or the loader's own, never meets an absent key and yields a value that was put |
| `KvCausality.StepCausal` | eau2/src/store/kvstore.h:95-210 | every step keeps the causal order: a schema is nowhere ahead of its chunks, in no map, inbox, slot or hand |
| `KvCausality.ReachableCausal` | eau2/src/client/network-pseudo.h:68-79 | first-in first-out inboxes and schema-last puts give the causal order at the end of every run |
| `KvCausality.PutsAreNeverLost` | eau2/src/store/kvstore.h:187-195 | a pair once put is stored under its key at the home node or a Put for that key waits in its inbox |
| `KvProgress.ServiceUsesUpWork` | eau2/src/store/kvstore.h:61-163 | each service step lowers the weighted sum of Gets, repliers, Replies, Puts and filled slots by exactly one |
| `KvProgress.ServiceTerminates` | eau2/src/store/kvstore.h:61-163 | a run of service steps is as long as the work it uses up, whatever the interleaving |
| `KvProgress.OnlyAbsentKeysAreAwaited` | eau2/src/store/kvstore.h:61-69 | when no service step is enabled and nobody was killed, a waiting node waits for a key that no store holds and nobody ever put |
| `KvWrites.StepWrites` | eau2/src/store/kvstore.h:139-195 | a served Put, or a pair put at home, replaces what its key had; no other step changes any map |
| `KvWrites.LastWriteWins` | eau2/src/store/kvstore.h:139-195 | at the end of every run a node's map has, under each key, the value of the last Put served or pair put at home |
| `KvWrites.ServingUntilKilled` | eau2/src/store/kvstore.h:95-122 | in every run a servicer is at work if and only if it has not taken a Kill from its inbox |
| `KvWrites.KilledForGood` | eau2/src/store/kvstore.h:95-122 | a stopped servicer never serves again: what is in its inbox stays there |
| `KvStore.Network.SendMsg` | eau2/src/client/network-pseudo.h:68-71 | appends to the target's inbox and touches no other |
| `KvStore.Network.ReceiveMsg` | eau2/src/client/network-pseudo.h:74-79 | takes the oldest message of one inbox and touches no other |
| `KvStore.Store.Put` | eau2/src/store/kvstore.h:187-195 | the store and the network show the put step of the machine |
| `KvStore.Store.Request` | eau2/src/store/kvstore.h:198-207 | shows the ask step: a local key is found or the node aborts, any other key is requested and waited for |
| `KvStore.Store.NextValue` | eau2/src/store/kvstore.h:125-135 | shows the take step and returns the value the waiting application is handed |
| `KvStore.Store.ServeOne` | eau2/src/store/kvstore.h:95-122 | one turn of the servicer loop shows the serve step, whatever the kind of message |
| `KvStore.Store.RunReplier` | eau2/src/store/kvstore.h:61-69 | a replier whose key has arrived shows the answer step |
| `FrameProtocol.PlanIsWellFormed` | eau2/src/store/dataframe.h:659-672 | the chunk keys of frames, none named like another's chunk, form a plan the protocol results apply to |
| `FrameProtocol.LoaderPutsArePublication` | eau2/src/store/dataframe.h:596-620 | the puts of the loaders are, in order, a publication of the protocol: all chunks, then the schema |
| `FrameProtocol.LocalChunksArePresent` | eau2/src/store/dataframe.h:392-406 | in every reachable state over such frames, the chunks a local load fetches are present |
| `FrameProtocol.KeysNeverClash` | eau2/src/store/dataframe.h:659-672 | no key stands for two values: neither within a frame nor across frames of different names or nodes |
| `FrameProtocol.StepContent` | eau2/src/store/dataframe.h:596-620 | if every loader publishes a frame of the run, every step keeps all pairs put or about to be put among the frames' own |
| `FrameProtocol.FetchedIsContent` | eau2/src/store/kvstore.h:198-210 | in every reachable state of such runs, what a node holds under a frame's key is the encoded schema, and under a chunk's key the encoded chunk |
| `FrameProtocol.HandedIsStored` | eau2/src/store/kvstore.h:61-210 | whatever a node holds or stores is what the one map of all puts has under that key |
| `FrameProtocol.PublishedFrameIsHeld` | eau2/src/store/dataframe.h:596-620 | once a frame's schema has been put, the one map of all puts holds the whole frame |
| `FrameReads.ReadIsUnique` | eau2/src/store/dataframe.h:382-425 | the bytes at hand decode to one schema and one list of rows, in full or for the chunks homed on a node |
| `Clients.ReadGivesContent` | eau2/src/store/dataframe.h:428-473 | a node that has fetched the schema and the chunks it needs reads exactly the published rows |
| `Clients.KvMoveOk` | eau2/src/store/kvstore.h:95-210 | every step of the machine keeps each node's value the one it computes on its own |
| `Clients.ActMoveOk` | eau2/src/store/kvstore.h:9-45 | so does every read, publication and computation of an application |
| `Clients.ScheduleDoesNotMatter` | eau2/src/store/kvstore.h:95-210 | in every interleaving of a sound job, each node has before each action exactly what it computes alone from the published frames |
| `Clients.NobodyAborts` | eau2/src/store/kvstore.h:9-26 | in every interleaving, no node's lookup of a key of its own meets an absent key |
| `Clients.NobodyIsStuck` | eau2/src/store/kvstore.h:61-163 | unless a servicer is killed, some node can move until all have finished |
| `ClientRuns.KvMoveCosts` | eau2/src/store/kvstore.h:61-163 | every step of the machine, other than a kill, uses up some of a potential fixed by the job |
| `ClientRuns.ActMoveCosts` | eau2/src/store/dataframe.h:596-620 | so does every read, publication and computation |
| `ClientRuns.EveryRunEnds` | eau2/src/store/kvstore.h:61-210 | a run without kills has no more moves than the potential at its start, and can be continued until all nodes have finished |
| `Layout.PublicationHolds` | eau2/src/store/dataframe.h:596-678 | after a publication the stores hold the schema and every chunk with rows under its key: no put undoes another |
| `Layout.FramesDoNotInterfere` | eau2/src/store/dataframe.h:659-672 | publishing one frame leaves another of a different name or node readable, unless one is named like a chunk of the other |
| `Layout.ExactPartition` | eau2/src/store/dataframe.h:377-450 | a row is visited by the local map of exactly one node, the home of its chunk, and by none if it does not exist |
| `Placement.HomesGoRound` | eau2/src/store/dataframe.h:377-379 | chunk 0 is at home on the frame's own node, and each further chunk on the next node round the ring, 0 after the last |
| `Placement.KeysNameTheHome` | eau2/src/store/dataframe.h:359 | the node in a chunk's key, for any column, is the chunk's home, that many steps round the ring |
| `Placement.RowsGoRound` | eau2/src/store/dataframe.h:377-450 | a local map visits row i exactly on the node i / CHUNK_SIZE steps round the ring from the frame's own |
| `Placement.SameHomeIff` | eau2/src/store/dataframe.h:377-379 | two chunks share a home if and only if their numbers agree modulo the number of nodes |
| `Placement.SharesAreFair` | eau2/src/store/dataframe.h:377-379 | of the first m chunks every node homes m / NUM_NODES, and one more if its first chunk is below the rest of m |
| `Placement.EveryNodeHasRows` | eau2/src/store/dataframe.h:428-450 | in a frame of at least NUM_NODES chunks the local map has rows to visit on every node |
| `Placement.LastChunkIsPartial` | eau2/src/store/dataframe.h:512-648 | the last chunk stored for a file or an array has the rows left over, so it is never full and is empty if none are |
| `Layout.LocalIndicesSorted` | eau2/src/store/dataframe.h:436-449 | a local map visits its rows in ascending order, each once |
| `Layout.NumChunksCovers` | eau2/src/store/dataframe.h:431-434 | the chunks a map visits are exactly those that begin before the last row, multiples of the chunk size included |
| `Frames.DistributeColumns` | eau2/src/store/dataframe.h:659-678 | stores one chunk of every column at its home, in column order, and leaves fresh columns |
| `Frames.DataFrame.FillChunk` | eau2/src/store/dataframe.h:603-607 | takes rows until the chunk is full or the writer is done; the columns are exactly that chunk |
| `Frames.DataFrame.AddRow` | eau2/src/store/dataframe.h:181-206 | appends one row to the columns, missing values included |
| `Frames.DataFrame.FromVisitor` | eau2/src/store/dataframe.h:596-620 | the puts made, in order, are the chunks of the written rows and then the schema; afterwards the stores hold the frame |
| `Frames.DataFrame.FromArray` | eau2/src/store/dataframe.h:491-533 | as above for an array, with a trailing chunk even if empty; the first chunk stays loaded and the cache is coherent |
| `Frames.DataFrame.FromScalar` | eau2/src/store/dataframe.h:536-563 | as above for one value; its chunk lives on the frame's own node |
| `Frames.DataFrame.FromStore` | eau2/src/store/kvstore.h:9-26 | opens a stored frame with its types, key and height, nothing loaded, and the load flag set |
| `Frames.DataFrame.Load` | eau2/src/store/dataframe.h:382-425 | afterwards every column is the requested chunk, whichever node it came from |
| `Frames.DataFrame.VisitChunk` | eau2/src/store/dataframe.h:442-448 | visits the rows of one chunk with their indices in the frame |
| `Frames.DataFrame.DistributedMap` | eau2/src/store/dataframe.h:453-473 | visits every row once, in order, with indices 0 to n - 1 |
| `Frames.DataFrame.LocalMap` | eau2/src/store/dataframe.h:428-450 | visits exactly the rows of the chunks homed on this node |
| `Frames.DataFrame.LoadIfNecessary` | eau2/src/store/dataframe.h:349-374 | changes only the named column; afterwards that column is the chunk of the row, unless the flag was clear, the chunk named and the column empty; keeps a one-column frame coherent |
| `Frames.DataFrame.GetCell` | eau2/src/store/dataframe.h:476-484 | the value read is the one at that row if and only if the load flag was set, another chunk was named, or the column in memory was not empty; otherwise the read is past the end; for a coherent one-column frame it is always right |
| `Frames.PublishThenMap` | eau2/src/store/dataframe.h:453-620 | rows published by any node and mapped on any node come back as written, in order, for every number of rows |
| `Frames.ReadInAnyOrder` | eau2/src/store/dataframe.h:345-484 | any sequence of single-value reads of a one-column frame yields the values of the original array |
| `Frames.SecondColumnIsNeverLoaded` | eau2/src/store/dataframe.h:349-356 | through the frame a loader returns, of several columns and some rows, reading a value of the first column and then one of another reads that one past its end |
| `LinusSets.BitSet.Set` | eau2/src/apps/linus.h:47-52 | adds a number in range, ignores any other, and keeps the element count |
| `LinusSets.BitSet.Union` | eau2/src/apps/linus.h:65-69 | the set becomes the union, cut to its capacity |
| `LinusSets.SetWriter.Drain` | eau2/src/apps/linus.h:86-96 | the rows written are the members of the set in ascending order |
| `LinusSets.PublishSet` | eau2/src/apps/linus.h:298-300 | the published frame holds exactly the numbers of the set |
| `LinusSets.ReceiveSet` | eau2/src/apps/linus.h:112-262 | a published set is added to another: the union of the two, cut to the capacity |
| `LinusSpec.DeltaSuffices` | eau2/src/apps/linus.h:254-276 | processing only the users added by the stage before yields the same new projects and users as recomputing the stage from scratch |
| `LinusSpec.UsersGrow` | eau2/src/apps/linus.h:254-276 | projects and users only grow from stage to stage |
| `LinusSpec.UsersAreReached` | eau2/src/apps/linus.h:118-159 | after k > 0 stages the users are exactly those reached from Linus in k steps of common authorship |
| `LinusSpec.SharesAddUp` | eau2/src/apps/linus.h:265-272 | what the nodes find in their own chunks adds up to what the whole relation yields, for every placement |
| `LinusSpec.HeldIsShown` | eau2/src/apps/linus.h:140-171 | the numbers a tagger reads are those of the row, or those before it where they are missing |
| `LinusSpec.SeenIsPlainIff` | eau2/src/apps/linus.h:140-171 | the nodes are shown the in-range commits of the complete rows, and no others, if and only if what they are shown of every incomplete row is out of range or a commit of a complete row |
| `LinusSpec.SearchIsPlainIff` | eau2/src/apps/linus.h:140-179 | the search gives what the complete rows of the frame give, from every user and after every stage, under exactly that condition |
| `LinusSpec.NothingMissing` | eau2/src/apps/linus.h:137-149 | in particular if no number is missing, whatever the placement |
| `LinusSpec.MissingAuthorIsFound` | eau2/src/apps/linus.h:140-142 | for every node count and chunk size, in a frame of one commit without author the search from user 0 finds its project, though no author is recorded |
| `Linus.ProjectsTagger.Accept` | eau2/src/apps/linus.h:140-149 | marks the project read, in both sets, if the author read is known and the project in range and new |
| `Linus.UsersTagger.Accept` | eau2/src/apps/linus.h:169-179 | marks the author read, in both sets, if the project read is known and the author in range and new |
| `Linus.LinusNode.TagProjects` | eau2/src/apps/linus.h:265-266 | one node finds exactly the new projects touched by the given users in the commits its row object shows, missing numbers included |
| `Linus.LinusNode.TagUsers` | eau2/src/apps/linus.h:269-270 | one node finds exactly the new authors of the given projects in the commits its row object shows, missing numbers included |
| `LinusMerge.DeltaNamesDiffer` | eau2/src/apps/linus.h:287-304 | the names of exchanged sets differ between stages and nodes |
| `LinusMerge.DeltaStaysHome` | eau2/src/apps/linus.h:257-306 | the schema and the first chunk of what a node exchanges are at home on that node, under a name with stage and node |
| `LinusMerge.DeltaSurvives` | eau2/src/apps/linus.h:299-305 | publishing one exchanged set leaves the others readable |
| `LinusMerge.Merge` | eau2/src/apps/linus.h:284-313 | after the exchange every node's set is the union of all, and the union is published under the name of node 0 |
| `LinusRun.StageProjects` | eau2/src/apps/linus.h:257-268 | all nodes end the first half of a stage with the same old and new projects |
| `LinusRun.StageUsers` | eau2/src/apps/linus.h:269-272 | all nodes end the second half with the same users, the new ones published for the next stage |
| `LinusRun.Step` | eau2/src/apps/linus.h:254-276 | one stage on all nodes leads from the reference sets after k stages to those after k + 1 |
| `LinusRun.Run` | eau2/src/apps/linus.h:210-248 | after any number of stages all nodes hold exactly the reference projects and users, for any relation, node count and placement |
| `LinusClients.MergeAll` | eau2/src/apps/linus.h:284-313 | as a client of the machine, each node publishes its set or the union as the run's frames say, and ends with the union |
| `LinusClients.ProgramReaches` | eau2/src/apps/linus.h:210-276 | a node's program leads, stage by stage, to the reference projects and users |
| `LinusClients.EveryScheduleReaches` | eau2/src/apps/linus.h:210-276 | in every interleaving of messages, publications, reads and computations, a node that has finished holds exactly the reference projects and users |
| `LinusClients.EveryRunFinds` | eau2/src/apps/linus.h:210-313 | every run without kills ends after a number of moves fixed in advance, can be continued until all nodes have finished, and then all nodes hold the reference sets |
| `Arith.GrowthIndex` | eau2/src/utils/array.h:45-116 | where the element at an offset lands in the table grown from a wrapped start |
| `RingArrays.UnrolledUpdate` | eau2/src/utils/array.h:109-116 | writing through row and column changes exactly the element at that offset of the plain sequence |
| `RingArrays.GrowthKeeps` | eau2/src/utils/array.h:45-59 | rotating the chunks, repeating the split first chunk after the last, and reducing the start keeps every element in place |
| `RingArrays.EnoughChunks` | eau2/src/utils/array.h:39-43 | the grown table always has more chunks and room for what is wanted, so the second early return never fires |
| `RingArrays.RingArray.GrownTable` | eau2/src/utils/array.h:44-54 | the new table holds the old chunks rotated to the first in use, fresh chunks after them, and a copy of the first |
| `RingArrays.RingArray.GrowToFit` | eau2/src/utils/array.h:38-60 | afterwards there is room, and the contents are as before |
| `RingArrays.RingArray.Get` | eau2/src/utils/array.h:106-108 | the element at an index of the plain sequence |
| `RingArrays.RingArray.Add` | eau2/src/utils/array.h:64-71 | inserts at any index of the plain sequence |
| `RingArrays.RingArray.PushBack` | eau2/src/utils/array.h:62 | appends to the plain sequence |
| `RingArrays.RingArray.Concat` | eau2/src/utils/array.h:73-88 | appends the other array's contents, also when it is the array itself |
| `RingArrays.RingArray.Clear` | eau2/src/utils/array.h:90 | the plain sequence becomes empty |
| `RingArrays.RingArray.Remove` | eau2/src/utils/array.h:135-142 | returns the element at an index and closes the gap |
| `RingArrays.RingArray.Set` | eau2/src/utils/array.h:144-148 | replaces one element and returns the old one |
| `RingArrays.RingArray.Size` | eau2/src/utils/array.h:150 | the length of the plain sequence |
| `RingArrays.Queue.Push` | eau2/src/utils/queue.h:17 | appends at the back |
| `RingArrays.Queue.Peek` | eau2/src/utils/queue.h:24 | the element at the front |
| `RingArrays.Queue.Pop` | eau2/src/utils/queue.h:18-23 | takes the element at the front by moving the start; the rest keeps its order |
| `HashMaps.RepresentsInsert` | eau2/src/utils/map.h:56-60 | a pair put at the front of its chain makes the table stand for the extended map |
| `HashMaps.RepresentsUpdate` | eau2/src/utils/map.h:52-54 | changing a value in its chain makes the table stand for the updated map |
| `HashMaps.RepresentsRemove` | eau2/src/utils/map.h:67-85 | dropping a pair from its chain makes the table stand for the map without the key |
| `HashMaps.HashMap.NodeFromKey` | eau2/src/utils/map.h:109-116 | finds the node of a key exactly if the map has the key |
| `HashMaps.HashMap.ContainsKey` | eau2/src/utils/map.h:65 | tells whether the map has the key |
| `HashMaps.HashMap.Get` | eau2/src/utils/map.h:45-49 | the value of the key in the map |
| `HashMaps.HashMap.Put` | eau2/src/utils/map.h:51-63 | the map gains or changes one key; the table doubles exactly when the load bound would be broken |
| `HashMaps.HashMap.Remove` | eau2/src/utils/map.h:67-85 | returns the value and removes the key, wherever its node stands in the chain |
| `HashMaps.HashMap.CheckLoadFactor` | eau2/src/utils/map.h:118-122 | restores the load bound and keeps the map |
| `HashMaps.HashMap.Rehash` | eau2/src/utils/map.h:124-140 | keeps the map, sets the table size, and never starts a second rehash |
| `HashMaps.HashMap.Keys` | eau2/src/utils/map.h:87-95 | the first parts of the pairs of all chains, in order |
| `HashMaps.HashMap.Values` | eau2/src/utils/map.h:97-105 | the second parts of the same pairs in the same order |
| `HashMaps.KeysAndValues` | eau2/src/utils/map.h:87-105 | the keys have no duplicates, are exactly the keys of the map, and each stands at the index of its value |
| `ParallelMap.ThreadCount` | eau2/src/store/dataframe.h:251-266 | as many threads as it takes to give each fewer rows than twice the minimum, but no more than the maximum |
| `ParallelMap.RangesTile` | eau2/src/store/dataframe.h:272-281 | with more than one thread every row range is non-empty, begins where the last ended, and the last ends at the last row |
| `ParallelMap.RunThread` | eau2/src/store/dataframe.h:683-689 | a thread leaves in its rower what the views of its own row object, in order, leave |
| `ParallelMap.JoinContinues` | eau2/src/store/rows.h:154-158 | for an associative join with fresh clones, joining two neighbours is visiting the rows of both |
| `ParallelMap.JoinAll` | eau2/src/store/dataframe.h:292-296 | joining from the last rower to the first gives the result of visiting the threads' views in order |
| `ParallelMap.PMap` | eau2/src/store/dataframe.h:251-297 | the rower ends as if it had visited the threads' views in order; that is the sequential result if no later thread begins with a hidden value, and for rowers that ignore missing values always |
| `ParallelMap.SameViewsIff` | eau2/src/store/dataframe.h:151-158 | the threads show exactly what the sequential map shows if and only if no later thread begins with a missing value that hides another one |
| `ParallelMap.SumsDiffer` | eau2/src/store/dataframe.h:221-227 | adding is lawful, yet a sum over 999999 rows with one missing value comes out 5 larger under the sequential map |
| `ParallelMap.CollectRows` | eau2/src/store/dataframe.h:221-297 | a rower that lists what it is shown ends with the same list under both maps if and only if no later thread begins with a hidden value |
| `WordCountSpec.WordsConserved` | eau2/src/apps/wordcount.h:112-131 | the words the nodes see, pooled, are the words of the frame, each as often as it occurs |
| `WordCountSpec.CountsAddUp` | eau2/src/apps/wordcount.h:179-199 | the local counts of a word add up to its occurrences in the frame |
| `WordCountSpec.MergedCountsHolders` | eau2/src/apps/wordcount.h:219-223 | after the merge a word counts the nodes that saw it, since the merge ignores the counts |
| `WordCountSpec.MergedIsTotalIff` | eau2/src/apps/wordcount.h:101-223 | the merged count of a word is its number of occurrences if and only if no node saw it twice |
| `WordCountSpec.FrequentWordsAreUndercounted` | eau2/src/apps/wordcount.h:101-223 | a word more frequent than there are nodes is never counted in full |
| `WordCountSpec.RepeatedWordIsUndercounted` | eau2/src/apps/wordcount.h:219-223 | for example one word written once more often than there are nodes |
| `WordCountSpec.MergedKeysAreWords` | eau2/src/apps/wordcount.h:202-223 | the keys of the merged map are exactly the words of the frame |
| `WordCount.Adder.Accept` | eau2/src/apps/wordcount.h:101-108 | one more for the word in the first column, starting from zero |
| `WordCount.Summer.Drain` | eau2/src/apps/wordcount.h:112-137 | one row per index of the key and value lists |
| `WordCount.LocalCount` | eau2/src/apps/wordcount.h:180-190 | a node publishes one row per word it saw, with how often it saw it |
| `WordCount.MergeNode` | eau2/src/apps/wordcount.h:219-223 | each word a node listed counts once more, whatever its count |
| `WordCount.Reduce` | eau2/src/apps/wordcount.h:202-216 | node 0 ends with the merge of all nodes' lists |
| `WordCount.CountWords` | eau2/src/apps/wordcount.h:164-171 | over a published frame, node 0 ends with exactly its words, each with the number of nodes that saw it |
| `WordCountClients.EveryScheduleCounts` | eau2/src/apps/wordcount.h:155-223 | in every interleaving node 0 ends with exactly the words, each with the number of nodes that saw it |
| `WordCountClients.EveryRunCounts` | eau2/src/apps/wordcount.h:155-223 | every run without kills ends after a number of moves fixed in advance, can be continued until all nodes have finished, and then node 0 has exactly the words, each with the number of nodes that saw it, in whatever order each node listed its counts |
| `LineReaders.File.Read` | eau2/src/store/parser.h:257 | reads the next bytes of the file, fewer only at its end |
| `LineReaders.LineReader.Fill` | eau2/src/store/parser.h:247-260 | the next stretch of the part enters the buffer, with a cap that does not shrink; what is left to hand out stays the same |
| `LineReaders.LineReader.ReadLine` | eau2/src/store/parser.h:185-279 | hands out the next of the lines left of a whole file or a part, or nothing when none is left, wherever the buffer ends fall; skips a partial first line and drops a partial last one |
| `LineReaders.LineReader.Reset` | eau2/src/store/parser.h:285-295 | all lines of the part are left again |
| `LineReaders.ReadAll` | eau2/src/store/parser.h:185-279 | reading until nothing is left yields the lines of the part as read, and for the whole file exactly its lines, for every buffer size |
| `LineReaders.StopsAtEnd` | eau2/src/store/parser.h:253-257 | no byte past the end position is read if and only if the part fits the buffer, is a multiple of it, or ends with the file |
| `LineReaders.RangeAsDocumented` | eau2/src/store/parser.h:113-279 | a part is handed out without its partial first and last lines, as documented, if and only if a condition on the file, the part and the buffer holds |
| `LineReaders.ReadsPastEnd` | eau2/src/store/parser.h:253-257 | for every buffer of two bytes or more, a part of which lines past its end are handed out |
| `LineReaders.LinesOfUnlines` | eau2/src/store/parser.h:238-275 | any lines written out, with or without a newline after the last, read back as those lines |
| `LineReaders.UnlinesOfLines` | eau2/src/store/parser.h:238-275 | the lines of a text written out are the text, but for a newline missing at its end; no line holds a newline |
| `SorText.TrimUndoesPadding` | eau2/src/store/parser.h:63-72 | trimming takes exactly the padding |
| `SorText.IntRoundTrip` | eau2/src/store/parser.h:88-109 | every 32-bit number survives printing and scanning, the least one included |
| `SorText.CloseAtIs` | eau2/src/store/parser.h:507-517 | a field is closed at the first `>` that an even number of quotes precedes |
| `SorText.FieldThenRest` | eau2/src/store/parser.h:484-521 | a text that closes no field and leaves no quote open is one field, and scanning goes on after it |
| `SorFields.LaidFields` | eau2/src/store/parser.h:484-521 | a line's fields are exactly the texts in brackets: what stands outside brackets, and a field that is never closed, counts for nothing |
| `SorValues.BlankIsMissing` | eau2/src/store/parser.h:393-402 | in a column of any type a field is a missing value if and only if it is blank |
| `SorValues.MissingInRow` | eau2/src/store/parser.h:393-402 | a row has a missing value exactly where its line has a blank field or no field |
| `SorValues.BareStringIsItself` | eau2/src/store/parser.h:395-410 | a text without space or quote at its ends is itself as a string, whatever spaces surround it, and is accepted up to 255 characters |
| `SorValues.NumberFieldReads` | eau2/src/store/parser.h:70-89 | a sign and digits, with or without text after them, read as that number, cut to the 32-bit number that differs by a multiple of 2^32 |
| `SorValues.NoNumberIsZero` | eau2/src/store/parser.h:70-89 | a text that begins with neither sign nor digit reads as 0 |
| `SorValues.PrintedNumber` | eau2/src/store/parser.h:411-419 | a printed 32-bit number is itself in a column of integers, and in a column of booleans true if and only if it is 1 |
| `SorValues.TrueIsOne` | eau2/src/store/parser.h:411-419 | any field is true exactly where a column of integers would hold 1, and false where it would hold another number |
| `SorParsers.StrSlice.Trim` | eau2/src/store/parser.h:63-72 | the slice becomes its trimmed text |
| `SorParsers.StrSlice.ToInt` | eau2/src/store/parser.h:88-109 | sign and leading digits as a number, cut to 32 bits |
| `SorParsers.SorParser.AppendField` | eau2/src/store/parser.h:393-423 | appends to one column the value the field stands for in a column of its type; stops at a string over the limit |
| `SorParsers.SorParser.GuessFieldType` | eau2/src/store/parser.h:431-475 | the guess becomes the join of itself and the type the field suggests |
| `SorParsers.SorParser.ScanLine` | eau2/src/store/parser.h:484-521 | finds the fields of the line up to its first NUL, and does with each what the mode wants, in order |
| `SorParsers.SorParser.GuessSchema` | eau2/src/store/parser.h:528-573 | the width is the most fields on any of the first 500 lines, the types are the joins over the same lines, and the reader is back at the start |
| `SorParsers.SorParser.ParseLine` | eau2/src/store/parser.h:588-594 | every column grows by the line's value or a missing one, so the columns stay rectangular |
| `SorParsers.SorParser.ParseFile` | eau2/src/store/parser.h:580-596 | the columns are the rows of the next lines, one chunk at most; tells whether the chunk was filled |
| `SorGuess.GuessIsGreatest` | eau2/src/store/parser.h:446-475 | the guess is the greatest type, in the order B, I, F, S, that any field of the column suggests |
| `SorSchemas.FieldSuggests` | eau2/src/store/parser.h:431-475 | a blank field suggests nothing, one without digit, sign or dot a string, one with a dot a float, and others a boolean or an integer by their value |
| `SorSchemas.NumericChars` | eau2/src/store/parser.h:345-449 | a text counts as numeric if it holds a digit, a sign or a dot |
| `SorSchemas.NumberSuggests` | eau2/src/store/parser.h:454-466 | the text of a 32-bit number suggests a boolean if it is 0 or 1 and an integer otherwise |
| `SorSchemas.GuessMeans` | eau2/src/store/parser.h:446-475 | one word makes a column of strings, else one dot of floats, else one number but 0 and 1 of integers, else it is of booleans |
| `SorSchemas.PrintThenGuess` | eau2/src/store/parser.h:528-575 | from the text of a printed frame whose values survive, the width is guessed back, and the types if and only if the first 500 rows give them away |
| `SorSchemas.PrintThenLoad` | eau2/src/store/parser.h:528-593 | printed and then loaded with guessed types, a frame comes back with types and rows if and only if its values survive and its types show |
| `SorSchemas.TooManyFields` | eau2/src/store/parser.h:393-399 | a line of numbers stops the parser if and only if it has more fields than there are columns |
| `SorGuess.GuessIgnoresOrder` | eau2/src/store/parser.h:528-565 | types and width depend only on which lines there are, not on their order |
| `SorGuess.GuessIsStrict` | eau2/src/store/parser.h:437-449 | the guess follows its comment, only numeric characters make a number, if and only if all characters of the field are numeric or none is |
| `SorGuess.MixedFieldIsNoString` | eau2/src/store/parser.h:437-449 | a field `a1` shows the difference: it is taken for a boolean |
| `FrameFiles.FileChunk` | eau2/src/store/dataframe.h:636-645 | the lines parsed between two stores are the rows of one chunk |
| `FrameFiles.LoadFullChunks` | eau2/src/store/dataframe.h:636-640 | stores every full chunk in order; the rest of the rows stay in the columns |
| `FrameFiles.FromFile` | eau2/src/store/dataframe.h:623-656 | publishes one row per line under the guessed types, with one chunk past the full ones; fails exactly if there is no field or a line stops the parser |
| `FrameFiles.LoadThenMap` | eau2/src/store/dataframe.h:453-473 | a published file mapped on any node gives one row per line, in order, with indices 0 to n - 1 |
| `RowObjects.RowObject.Fill` | eau2/src/store/dataframe.h:151-178 | a missing value sets a mark and leaves the value before it in the row object |
| `RowObjects.PassShows` | eau2/src/store/dataframe.h:151-178 | a visitor is shown each row's index, marks and values; behind a mark the last value of the column, or a fresh row's if there was none |
| `RowDefaults.FreshIsZero` | eau2/src/store/rows.h:47-66 | a fresh row object holds what the field `0` stands for, the four bytes of the float 0, and no string |
| `RowObjects.CleanStart` | eau2/src/store/dataframe.h:155-158 | a row object that starts at a row hiding nothing shows what one that started earlier shows |
| `SorPrint.PrintFrame` | eau2/src/store/rows.h:113-196 | prints one line per row, with every value of the row object whether missing or not, for all four column types |
| `RowDefaults.BoolsPrintAsNumbers` | eau2/src/store/rows.h:183-196 | every frame prints like the frame with the integers 1 and 0 for true and false |
| `RowDefaults.MissingStartPrintsZeros` | eau2/src/store/rows.h:47-135 | a frame prints like the one with false, 0 and the empty string for the values missing in its first row |
| `RowDefaults.PrintedDefaults` | eau2/src/store/rows.h:183-196 | a printed boolean reads as the number 1 or 0, and where there is no string the empty one is printed |
| `SorPrint.LineRoundTrip` | eau2/src/store/parser.h:484-521 | a printed row of values that survive scans back to the same row, whatever brackets and spaces the strings hold |
| `SorFields.BrokenValue` | eau2/src/store/parser.h:484-521 | a string whose quotes do not pair up around its `>` is never scanned as itself, whatever follows it on the line |
| `SorPrint.RowRoundTrip` | eau2/src/store/rows.h:113-135 | a row comes back from its printed line if and only if every one of its values survives |
| `SorPrint.StringRoundTrip` | eau2/src/store/rows.h:189-191 | a printed string comes back if and only if it has no NUL, its quotes are even in number, also before each `>`, none is at either end, and it keeps to the limit |
| `SorPrint.PrintThenParse` | eau2/src/store/rows.h:113-135 | printing any frame and parsing the text against the same types gives the same rows if and only if no value is missing, every float survives its own text, and every string survives and holds no newline |
| `SorPrint.MissingComesBackAsOld` | eau2/src/store/dataframe.h:155-158 | a missing number printed after 7 comes back as 7 |
| `Serialization.MessageThroughBytes` | eau2/src/client/message.h:274-304 | a message written and read back is the same message of the same kind, with the cursor exactly at the bytes after it |
| `Serialization.Serializer.WriteColumn` | eau2/src/store/column.h:56-138 | appends the encoding of a column |
| `Serialization.Serializer.WriteMessage` | eau2/src/client/message.h:34-39 | appends the encoding of a message of any kind |
| `Serialization.Deserializer.FillUp` | eau2/src/utils/serializer.h:142-156 | reads bytes and moves the cursor, or fails past the end |
| `Serialization.Deserializer.ReadWholeColumn` | eau2/src/store/column.h:141-156 | reads a column of the type its first byte names and leaves the cursor after it |
| `Serialization.Deserializer.ReadAnyMessage` | eau2/src/client/message.h:41-47 | picks the kind from the first number and reads the message |
| `Wire.SizeRead` | eau2/src/utils/serializer.h:15-102 | a size read back from its bytes and any others is the size and the others |
| `Wire.IntRead` | eau2/src/utils/serializer.h:23-126 | the same for every signed 32-bit number |
| `Wire.StringRead` | eau2/src/utils/string.h:90-101 | the same for a string with its terminator |
| `Wire.ColumnRead` | eau2/src/store/column.h:56-62 | the same for a column of any type, missing marks and float bytes included |
| `Wire.SchemaRead` | eau2/src/store/schema.h:108-125 | the same for a schema |
| `Wire.KeyRead` | eau2/src/store/kv.h:31-41 | the same for a key |
| `Wire.ValueRead` | eau2/src/store/kv.h:71-86 | the same for a value |
| `Wire.DirectoryRead` | eau2/src/client/message.h:120-137 | the same for the body of a Directory |
| `Wire.RegisterRead` | eau2/src/client/message.h:66-84 | the same for the body of a Register, its address as dotted text |
| `Wire.MessageRead` | eau2/src/client/message.h:34-47 | the same for every message, and the right kind is picked |
| `WireLayout.HeaderBytes` | eau2/src/client/message.h:12-39 | a header is 32 bytes: kind, sender, target and number, 8 bytes each, the least significant first |
| `WireLayout.MessageBytes` | eau2/src/client/message.h:34-39 | the first 32 bytes of a message are its header, all others its payload |
| `WireLayout.PayloadBytes` | eau2/src/client/message.h:66-71 | where each part of a message of each kind stands after the header |
| `WireLayout.SchemaBytes` | eau2/src/store/schema.h:108-114 | the width in the first 8 bytes, the height in the next, then one byte per column |
| `WireLayout.KeyBytes` | eau2/src/store/kv.h:31-34 | the name as a string, then the node in 8 bytes |
| `WireLayout.StringBytes` | eau2/src/utils/string.h:90-95 | the length with the terminator in 8 bytes, the characters, the terminator |
| `WireLayout.CellBytes` | eau2/src/store/column.h:133-138 | the bytes of each value: 1 or 0, two's complement, the float's own, a string |
| `WireLayout.ColumnBytes` | eau2/src/store/column.h:56-62 | the type, the length, a byte for each cell that is 1 where it is missing, then each present value at its offset |
| `Text.DecimalRoundTrip` | eau2/src/utils/string.h:138 | decimal printing loses nothing |
| `Text.DecimalLength` | eau2/src/utils/string.h:138 | numbers are printed in base ten without leading zeros: a number has at most k digits if and only if it is below 10^k |
| `Text.StrBuff.C` | eau2/src/utils/string.h:119-136 | appends a C string, growing the buffer as needed and keeping what it holds |
| `Text.StrBuff.Get` | eau2/src/utils/string.h:140-147 | hands out what was appended, once |
| `Text.BuildChunkName` | eau2/src/store/dataframe.h:664-666 | the loaders build exactly the chunk name |
| `Text.ChunkNameReads` | eau2/src/store/dataframe.h:661 | column 0 of chunk 12 of `df` has the name `df-column0-chunk12` |
| `Text.ChunkNameInjective` | eau2/src/store/dataframe.h:358-364 | two chunk names agree if and only if chunk, column and the name up to its first NUL agree |
| `Text.ChunkNamesDistinct` | eau2/src/store/dataframe.h:661-666 | for names without NUL the chunk name is injective in all three parts |

## Left out

- WordCountSpec.MergedCountsHolders: states what the merge computes, the number of nodes that saw a word; summed totals are not computed by the source.
- KvProgress.OnlyAbsentKeysAreAwaited: assumes that no servicer was killed; shutdown rests on a timed sleep (eau2/src/apps/linus.h:215-218).
- LinusRun.Run: the objects of the nodes take turns here; that the interleaving does not matter is `LinusClients.EveryScheduleReaches`, on values. The same holds for `LinusMerge.Merge` and the stages.
- WordCount.CountWords: the nodes take turns, as above (`WordCountClients.EveryScheduleCounts` is about all interleavings); a frame has fewer than 2^31 words, none missing, since the counters are 32-bit integers whose overflow is undefined.
- LinusClients.EveryScheduleReaches: the sizes of the two data frames that only bound the sets are constants, and the first read of the commits is the one of the first local map.
- ClientRuns.EveryRunEnds: in an action a node asks for a key once; the polling of the repliers is one step that waits.
- Frames.DataFrame.FromVisitor: writers are modelled by the rows they hand out; a get is a lookup in the one map of all puts, which `FrameProtocol.HandedIsStored` and `FrameProtocol.PublishedFrameIsHeld` relate to the machine.
- SorParsers.StrSlice.ToInt: the accumulator is unbounded, so digit strings that overflow a 64-bit integer, where the source is undefined, are cut like all others.
- SorPrint.PrintThenParse: printing and reading a float are library calls and parameters here; a printed float is one word without brackets, quotes or spaces.
- LineReaders.File.Read: read errors, and reads that come up short before the end of the file, are not modelled.
- SorParsers.SorParser.GuessSchema: the parser reads whole files, as `fromFile` does; parts of files are modelled in the line reader alone.
- FrameFiles.FromFile: a null result stands for a failed assertion or an access past the columns; what had been stored by then is not described.
- HashMaps.HashMap.CheckLoadFactor: the bound of 0.6 is exact here, without the rounding of a float product; in `Rehash`, putting a pair back cannot exceed the bound, so the model's inner put does not check it again.
- RingArrays.RingArray.Concat: `add_all` at an inner index shifts wrongly in the source and nothing calls it; only appending is modelled.
- ParallelMap.PMap: threads are run one after the other; their rows are disjoint and each has a rower of its own. Fresh clones and an associative join are demanded of the rower.
- KvStore.Store.RunReplier: the array of repliers keeps only those that have not answered; the polling sleep is left out.
- Wire.RegisterRead: the conversion between a socket address and its dotted text is a library call; the network over sockets is left out (eau2/src/client/network-ip.h).
- Locks, condition variables and thread start and join: one atomic step each.
- Little-endian, 64-bit sizes and one byte per `char` are assumed; sizes stay below 2^64.
- Frames.DataFrame.FromStore: schema deserialization leaves the chunk indexes unset (eau2/src/store/schema.h:117-125); the model has one per column, starting at 0, so what `GetCell` says of a fetched frame speaks of columns that have been loaded, or are about to be because the load flag is set.
- `FileReader` of the word count: its end-of-file path takes a character past the buffered data (eau2/src/apps/wordcount.h:17-31), so the frame of words is given.
- `clone` of columns and frames, `equals` and `hash` of frames, columns and arrays, `pack.h`, the Demo and Trivial applications, ownership and deletion, console messages.
