# Wave Terminal back-end cores in Dafny

Models of the self-contained algorithmic cores of Wave Terminal's back end, and proofs about them.
Code that works by changing state is modelled by classes and methods with loops, each proved against
a specification function or an abstract state; what the system promises is then proved about those.

`dafny verify dfyconfig.toml` checks everything.

## What is modelled

**Block store** (`WaveFiles`, `PartMaps`, `CacheEntries`, `FileModels`, `EntryOps`, `FileStores`,
`StoreRuns`, `PinProtocol`). A write-back cache over files that are cut into parts of 65536 bytes and,
for circular files, laid out as a ring. The abstract state of a file is a plain byte log of which the
last MaxSize bytes are live, together with what the database has saved. The modules go from ring
arithmetic through the loops of `writeAt` and `readAt` to the store operations and whole runs. The pin
and lock protocol around every operation is a separate state machine over all interleavings; since at
most one body runs on an entry at a time, the operations themselves are modelled one after the other.

**vdom reconciler** (`VDom`, `Reconciler`). The in-place keyed tree diff on component objects, against
a recursive expansion of the element that knows no components. A ghost tree describes the heap
structure and carries the set of its components, so the component index can be shown to hold exactly
these.

**RPC** (`WshRouters`, `RouterProtocol`, `RpcStreams`, `OscCodec`, `PtyDemux`, `LineFraming`). The
router as a class and, with its clients, as a state machine in which sending and registering are
separate steps; the response handler; the leaf router of the front end; the carriers: operating system
command strings (section 8.3.89 of ECMA-48, ST in section 8.3.143, escapes of section 7 of RFC 8259)
and newline framing.

**ijson** (`IJson`, `IJsonDelete`, `IJsonTs`, `IJsonCommands`, `IJsonDecoded`, `IJsonLog`,
`IJsonCodec`). The path-update language on decoded JSON values with its two interpreters, in Go and in
TypeScript; commands and what JSON does to them; where the two interpreters agree on a command; and
the log of commands as bytes: parsing, replaying, compacting, and what the block store does with it.
JSON itself is a pair of functions of which three things are demanded, and a codec that meets them is
given.

**Broker, update stack, object graph** (`StarScopes`, `Brokers`, `UpdateStack`, `Ownership`, with
`Slices` for the slice helpers).

`Basics` holds stock types.

## Where the code departs from what one would expect

The models follow the code. Members of the table below state each departure: its exact condition, or,
where it always happens, what happens.

- `WriteAt` computes the part map from the range before `writeAt` truncates its front
  (`pkg/filestore/blockstore.go:260`). A write that reaches below the live window, covers the part the
  window starts in and stops before the end of the file's last part marks that shared slot as complete;
  if the slot is not cached, its tail becomes zero (`PartMaps.LosesTail`).
- `readAt` panics on a negative size when the offset is past the end of the file or the range ends
  before the live data.
- The fourth failed flush in a row drops the dirty data.
- A failing `AppendIJson` has appended its command when it is the compaction that failed
  (`EntryOps.AppendIJsonFailsIff`), and a failing `WriteFile` has replaced the contents when it is the
  flush that failed, for other than the fourth time in a row (`EntryOps.WriteFileBody`).
- A child without a tag is a nil pointer, at which the next render of its parent panics; siblings with
  equal tag and key share one component from the second render on.
- The OSC encoder leaves ST (0x9C) alone although the reader ends a frame at it.
- `UnregisterRoute` shadows its parameter in the loop and clears nothing.
- A failed ijson set leaves nil in place. `del` swallows an error whenever the part below a key leaves
  nothing, and drops the key; with it go arrays and maps that the path does not fit. `del` with an index
  past the end panics, or drops the array. Arrays refund budget.
- A compacted ijson file has no final newline, so the next append spoils it.
- `ValidatePath` accepts integers in paths, but after JSON they are floating-point numbers. A set or
  append then fails; a `del` does not: it comes to a delete of the last key before the number, and
  fails only if there is none (`IJsonCommands.WireDelDeletesKey` has the exact cases). TypeScript takes
  the number as an index, so the two do different things (`IJsonDecoded.DecodedAgreeIff`).
- The TypeScript `applyCommand` reads the operand from the field `value`, while the Go commands carry
  it in `data`: the front end takes every set and append that Go makes for one of nil.
- `Persist` only decides whether an event is kept; no history is trimmed to it.
- `MoveBlockToTab` with equal tab ids lists the block twice.

## Model

| member | source | states |
|---|---|---|
| StoreRuns.RunIsPlain | pkg/filestore/blockstore.go:235-369 | after any run of store operations, turns of a flush and compactions among them, in which no step is a fourth failed flush in a row, a write of the LosesTail family, an append with a compaction due whose parts cannot be read or whose compactor fails, or a WriteFile that has to read the file row and cannot, every file holds what the same operations leave in a plain byte log; the conditions speak of the state before and the arguments |
| StoreRuns.ReadsArePlain | pkg/filestore/blockstore.go:377-392 | every read in such a run for which the database answers, where it is asked, returns exactly what the plain files give: bytes, errors and panics |
| StoreRuns.ReadModelIsPlain | pkg/filestore/blockstore_cache.go:206-257 | the window that readAt works out by clipping, first to the file and then to the ring, is the plain one: from the later of offset and live start to the earlier of range end and file end |
| StoreRuns.LosingRun | pkg/filestore/blockstore.go:247-269 | the failure on a real store: make a one-part ring, append one byte more than it holds, flush, write to offsets 0 to PART_SIZE, and the byte at PART_SIZE reads as zero |
| StoreRuns.MakeAppendRead | pkg/filestore/blockstore.go:122-288 | a file made for MaxSize bytes keeps that many: after any appends, of which some may fail, a full read returns all that was appended as long as it is not more than the MaxSize asked for; without a ring, in any case |
| StoreRuns.StepIsPlain | pkg/filestore/blockstore.go:122-170 | one operation of the store, whatever its cache, parts and flush outcomes, is the plain operation on the plain files |
| StoreRuns.AppendIsPlainStep | pkg/filestore/blockstore.go:271-369 | both kinds of append and a compaction are plain ones, with the compacted log in place of the appended one when compaction ran |
| StoreRuns.FlushModelsPlain | pkg/filestore/blockstore.go:400-428 | flushing any set of keys, each failing or not, changes no contents unless a file meets its fourth failure in a row |
| StoreRuns.Run | pkg/filestore/blockstore.go:122-369 | every sequence of operations, single turns of a flush among them, on a valid store runs without a panic other than that of a read and keeps the store valid; the abstract states before and after each step are related by Step |
| StoreRuns.Perform | pkg/filestore/blockstore.go:122-369 | one operation keeps the cache, overlay and database invariant and does to the abstract files what Step says for that operation and its outcome; a write blanks a tail exactly if the cache did not hold that part |
| FileModels.WriteAtIsPlainIff | pkg/filestore/blockstore.go:247-269 | a write at an offset inside the file leaves the live bytes of a plain write, for all contents and caches, if and only if its range is outside LosesTail |
| FileModels.LiveWriteIsPlain | pkg/filestore/blockstore.go:247-269 | every write that starts at or after the start of the live data is a plain overwrite |
| FileModels.WriteBelowWindowBlanksNewestByte | pkg/filestore/blockstore.go:259-261 | the concrete failure: rewriting offsets 0 to PART_SIZE of a one-part ring that holds one byte more blanks the newest byte |
| FileModels.WriteAtHolds | pkg/filestore/blockstore_cache.go:159-203 | after fetching the incomplete parts and writing, cache over database represents the old log with the data laid over it, with the last partial part zeroed exactly in the LosesTail case with an uncached tail |
| FileModels.NewLogAt | pkg/filestore/blockstore_cache.go:159-203 | byte by byte: which live offsets change, which keep their value and which are lost |
| FileModels.LostIsTail | pkg/filestore/blockstore.go:259-265 | a live byte that a write neither stores nor finds loaded is lost if and only if the write is in the LosesTail family, the byte is in the last partial part and that part was not cached |
| FileModels.ReplaceHolds | pkg/filestore/blockstore_cache.go:159-203 | a replacing write leaves exactly the new contents whatever old parts the database still has, and covers every live offset in the cache |
| FileModels.UnloadedAppendHolds | pkg/filestore/blockstore.go:352-353 | the newline that AppendIJson writes without fetching parts is safe: ijson files are never circular, and the first append has cached the end |
| FileModels.CommitHolds | pkg/filestore/blockstore_cache.go:326-347 | moving the dirty parts into the table, merged or replacing, changes nothing a reader sees |
| FileModels.FlushInvisibleIff | pkg/filestore/blockstore_cache.go:326-347 | a flush leaves the readable contents alone if and only if it is not the fourth failure in a row of a file with unsaved data |
| FileModels.ThreeFlushesInvisible | pkg/filestore/blockstore_cache.go:338-345 | up to three flushes after a clean start, in any mix of failures, are invisible |
| FileModels.CommitSaves | pkg/filestore/blockstore_cache.go:326-347 | after any such failures the first flush that commits saves everything |
| PartMaps.PartMapSound | pkg/filestore/blockstore.go:460-479 | every part that holds a live byte which the write does not store, and that the write touches, is listed as incomplete, also when first and last part share a ring slot; the only exception is the LosesTail family |
| PartMaps.OnlyTailLost | pkg/filestore/blockstore.go:460-479 | a slot recorded as complete but only partly rewritten forces the LosesTail condition and the last partial part |
| PartMaps.TailMarkedComplete | pkg/filestore/blockstore.go:460-479 | in the LosesTail family that slot really is recorded as complete, so the condition is exact |
| PartMaps.ComputePartMap | pkg/filestore/blockstore.go:460-479 | the loop builds, for every touched part, the amount of the last logical part in its slot |
| PartMaps.IncompletePartsFromMap | pkg/filestore/blockstore.go:441-449 | exactly the parts that are not written whole |
| PartMaps.GetPartIdxsFromMap | pkg/filestore/blockstore.go:451-457 | exactly the touched parts |
| PartMaps.PartMapLast | pkg/filestore/blockstore.go:460-479 | a later logical part overrides an earlier one in the same slot |
| WaveFiles.FlatAddress | pkg/filestore/blockstore.go:432-439 | part index and offset in the part together are the offset modulo MaxSize |
| WaveFiles.CellsDistinct | pkg/filestore/blockstore.go:432-439 | ring addressing is injective on every window of MaxSize offsets |
| WaveFiles.RingShift | pkg/filestore/blockstore.go:432-439 | offsets MaxSize apart share a cell |
| CacheEntries.WriteToPart | pkg/filestore/blockstore_cache.go:146-157 | bytes are replaced from the offset on, as many as fit; the rest of the part keeps its value |
| CacheEntries.TruncateFront | pkg/filestore/blockstore_cache.go:159-179 | what is dropped in front: what lies before the ring, and all but the last MaxSize bytes |
| CacheEntries.CacheEntry.WriteParts | pkg/filestore/blockstore_cache.go:180-202 | the loop stores the data in the cells of its offsets and leaves the cells of all other live offsets alone |
| CacheEntries.CacheEntry.WriteAt | pkg/filestore/blockstore_cache.go:159-203 | new size and new parts of writeAt, replacing or not |
| CacheEntries.CacheEntry.ReadParts | pkg/filestore/blockstore_cache.go:243-256 | the loop returns the overlay of cache and database, byte by byte, and stays inside the loaded parts |
| CacheEntries.CacheEntry.ReadAt | pkg/filestore/blockstore_cache.go:206-257 | clipping to file and ring, the error cases, a panic if and only if the clipped size is negative |
| CacheEntries.CacheEntry.LoadDataPartsIntoCache | pkg/filestore/blockstore_cache.go:270-284 | missing parts come from the table, cached ones stay; on an error nothing changes |
| CacheEntries.CacheEntry.LoadDataPartsForRead | pkg/filestore/blockstore_cache.go:286-312 | the returned parts have the contents of cache over database |
| CacheEntries.CacheEntry.PrunePartsWithCache | pkg/filestore/blockstore_cache.go:259-268 | exactly the parts that the cache lacks |
| CacheEntries.CacheEntry.LoadFileIntoCache | pkg/filestore/blockstore_cache.go:101-111 | the file comes from the cache or the table, or there is an error and nothing changes |
| CacheEntries.CacheEntry.FlushToDB | pkg/filestore/blockstore_cache.go:326-347 | the whole effect on cache and tables for every outcome, with the counter that drops dirty data at the fourth failure |
| CacheEntries.Database.WriteCacheEntry | pkg/filestore/blockstore_dbops.go:94-117 | size and parts change together or not at all |
| CacheEntries.Database.InsertFile | pkg/filestore/blockstore_dbops.go:16-27 | an existing file is never overwritten |
| CacheEntries.Database.DeleteFile | pkg/filestore/blockstore_dbops.go:29-37 | file row and parts go together or not at all |
| CacheEntries.Database.GetFileParts | pkg/filestore/blockstore_dbops.go:65-84 | the requested parts that exist |
| EntryOps.ReadPanicsIff | pkg/filestore/blockstore_cache.go:217-238 | a read panics exactly when its offset is past the end of the file or its range ends before the live data |
| EntryOps.CheckOpts | pkg/filestore/blockstore.go:122-138 | which options MakeFile accepts; what is stored differs from them at most in MaxSize, and that, for a circular file, is the smallest whole number of parts that is enough |
| EntryOps.WriteAtBody | pkg/filestore/blockstore.go:251-268 | the body of WriteAt keeps entry and database in line with the abstract file and reports every error case; whether the tail was cached is read off the entry |
| EntryOps.AppendIJsonBody | pkg/filestore/blockstore.go:335-368 | the command and a newline are appended; it fails before it writes, for a file that is missing, unreadable or no ijson file or a part that cannot be read, or in the compaction, and then they stay |
| EntryOps.AppendIJsonFailsIff | pkg/filestore/blockstore.go:330-369 | with readable parts an append fails if and only if there is no ijson file to be had or the compactor fails when compaction is due; in the latter case the command has been appended |
| EntryOps.Compact | pkg/filestore/blockstore.go:303-315 | the log is replaced by what the compactor makes of the whole log, or nothing changes |
| FileStores.FileStore.MakeFile | pkg/filestore/blockstore.go:122-159 | an existing key, refused options or a failed transaction leave the store as it was; otherwise there is an empty file with the options asked for, MaxSize of a circular one rounded up to whole parts |
| FileStores.FileStore.DeleteFile | pkg/filestore/blockstore.go:161-170 | the file is gone from cache and database, or the store is as it was |
| FileStores.FileStore.WriteFile | pkg/filestore/blockstore.go:235-245 | the contents become the data, then the file follows the outcome of the flush; every other file stays |
| FileStores.FileStore.WriteAt | pkg/filestore/blockstore.go:247-269 | the abstract effect of WriteAt for every offset, with the cached tail as the cache had it and all other files untouched |
| FileStores.FileStore.AppendData | pkg/filestore/blockstore.go:271-288 | the data is appended, or nothing changes |
| FileStores.FileStore.AppendIJson | pkg/filestore/blockstore.go:330-369 | the abstract effect of AppendIJson, compacting or not, with the reason for a failure and whether the command stayed |
| FileStores.FileStore.CompactIJson | pkg/filestore/blockstore.go:317-328 | the log of an ijson file is replaced by what the compactor makes of it; it fails only for a missing or other file, a failing compactor or a failing database, and then writes nothing |
| FileStores.FileStore.ReadAt | pkg/filestore/blockstore.go:377-383 | the outcome of a read, a panic included, in terms of the abstract file; the store keeps its state |
| FileStores.FileStore.FlushCache | pkg/filestore/blockstore.go:400-428 | the dirty files are flushed one after the other, each once, up to the first error |
| FileStores.FileStore.Frame | pkg/filestore/blockstore_cache.go:128-144 | one locked body touches one entry, and every other entry and file stays in line with the database |
| FileStores.FileStore.GetEntryAndPin | pkg/filestore/blockstore_cache.go:62-72 | the pinned entry is the one the cache hands out |
| FileStores.FileStore.UnpinEntryAndTryDelete | pkg/filestore/blockstore_cache.go:74-85 | an entry goes only when it is unpinned and has no dirty file |
| PinProtocol.PinSafety | pkg/filestore/blockstore_cache.go:62-85 | in every interleaving: the pin count is the number of callers between pin and unpin, all callers on a key hold the same entry, at most one is in its body |
| PinProtocol.StepKeepsInv | pkg/filestore/blockstore_cache.go:62-144 | each of pin, lock, body, unlock and unpin, by any caller, keeps the invariant |
| PinProtocol.RunInv | pkg/filestore/blockstore_cache.go:128-144 | so the invariant holds in every reachable state |
| PinProtocol.DirtyEntryStays | pkg/filestore/blockstore_cache.go:74-85 | no step removes or replaces an entry that has a dirty file |
| PinProtocol.BodyIsAlone | pkg/filestore/blockstore_cache.go:128-144 | what an entry holds changes only in the body of the caller that has it locked, while nobody else is in a body on it |
| PinProtocol.HeldEntryStays | pkg/filestore/blockstore_cache.go:62-85 | an entry stays in the cache under its key as long as a caller holds it |
| Reconciler.SameAsFromScratch | pkg/vdom/vdom_root.go:126-153 | rendering over any previous tree that has no nil child and no contended child where a component is kept shows, up to ids, what a new root shows, and both are the reference expansion of the element |
| Reconciler.FromScratch | pkg/vdom/vdom_root.go:55-74 | a new root shows the reference expansion of any element, siblings with equal keys or without tags included |
| Reconciler.RenderEach | pkg/vdom/vdom_root.go:71-74 | any number of elements with distinct sibling keys and no empty tags, rendered one over the other: each is shown as its reference expansion |
| Reconciler.ChildIsKept | pkg/vdom/vdom_root.go:189-209 | a child with a key stays the same component wherever it moves among its siblings, and one without a key as long as it stays where it is |
| Reconciler.TidyIsSmooth | pkg/vdom/vdom_root.go:189-218 | such an element can be rendered over every tree without nil children, and (Rendition) leaves one |
| Reconciler.NilChildPanics | pkg/vdom/vdom_root.go:192-194 | after rendering a base element with an untagged child, the next render that keeps it panics at the nil child |
| Reconciler.SharedChild | pkg/vdom/vdom_root.go:199-209 | two elements that find the same old child get one component in both places, and it shows the later element |
| Reconciler.Renderer.Render | pkg/vdom/vdom_root.go:71-74 | over any previous tree that allows it the result shows the expansion, CompMap holds exactly the components reachable from the root, and a root component of the same tag and key is kept |
| Reconciler.Renderer.RegisterComponent | pkg/vdom/vdom_root.go:67-69 | registering a component leaves tree and index intact |
| Reconciler.Renderer.MakeVDom | pkg/vdom/vdom_root.go:321-328 | the output is what the component tree shows |
| Reconciler.RootElem.Render | pkg/vdom/vdom_root.go:126-153 | the diff of one slot: tree well formed, index exact, output right, component reused on equal tag and key |
| Reconciler.RootElem.Settle | pkg/vdom/vdom_root.go:126-141 | the component of the slot is kept on equal tag and key, otherwise its whole tree leaves the index and a fresh one takes its place |
| Reconciler.RootElem.RenderChildren | pkg/vdom/vdom_root.go:189-218 | old children are matched by tag and key or position, each is used at most once, each element takes over the last old child in its slot, the new list shows the elements in order, and exactly the unused children are unmounted |
| Reconciler.RootElem.IndexChildren | pkg/vdom/vdom_root.go:190-197 | every slot that is taken leads to the last old child in it; it panics exactly at a nil child |
| Reconciler.RootElem.RenderComponent | pkg/vdom/vdom_root.go:246-272 | a component shows what its output stands for (see VDom.ComponentShows); a base tree left from before is unmounted |
| Reconciler.RootElem.RenderSimple | pkg/vdom/vdom_root.go:220-225 | a base element shows its tag, converted properties and children |
| Reconciler.RootElem.UnmountTree | pkg/vdom/vdom_root.go:155-176 | exactly the components of the tree leave the index |
| Reconciler.RootElem.CreateComp | pkg/vdom/vdom_root.go:178-181 | a new component enters the index under a fresh id |
| Reconciler.RootElem.ConvertToVDom | pkg/vdom/vdom_root.go:307-319 | the output of a component tree |
| Reconciler.ChildrenShow | pkg/vdom/vdom_root.go:189-218 | if every child tree shows its element, the parent shows the expansion of the list, invisible children left out |
| Reconciler.ExpandStable | pkg/vdom/vdom_root.go:246-272 | the bound on component nesting in the reference expansion does not matter once it is large enough |
| VDom.ComponentShows | pkg/vdom/vdom_root.go:258-271 | a component shows nothing, the one element it returns, or a fragment with everything visible that it returns, in order |
| VDom.BaseShows | pkg/vdom/vdom_root.go:274-305 | a base element shows its tag, the visible ones of its children in order, and its properties: nils vanish, functions become references, the rest stays |
| VDom.TagKinds | pkg/vdom/vdom.go:259-270 | which tags are base tags, by their first character; the test for wave tags adds none |
| RouterProtocol.NextKeepsInv | pkg/wshutil/wshrouter.go:197-251 | every step, of a client or of the loop, whose sends and table changes are separate steps, keeps the invariant |
| RouterProtocol.RunInv | pkg/wshutil/wshrouter.go:197-251 | the invariant holds in every reachable state of every run with unique request ids |
| RouterProtocol.ResponseNeverEarly | pkg/wshutil/wshrouter.go:217-246 | whenever a response is taken from the channel its request is in the table with its routes, or already finished, although registration follows the send |
| RouterProtocol.LogAlwaysOk | pkg/wshutil/wshrouter.go:197-251 | in every run every command reached a client, or its source was told so, by a final error response that names the route or, for a command without an id, by a message; follow-ups of an open request went to the route it named; every response went unchanged to the source of its command, none after the final one, and only later ones are dropped |
| RouterProtocol.TableIsOpenRequests | pkg/wshutil/wshrouter.go:124-143 | between messages the table is exactly the forwarded and unfinished requests |
| RouterProtocol.ReusedIdMisroutes | pkg/wshutil/wshrouter.go:130 | without unique ids the guarantee fails: the second command takes over the entry |
| WshRouters.WshRouter.HandleInput | pkg/wshutil/wshrouter.go:197-251 | one round of the loop leaves the router as the step function says, for every kind of message: sends, notices, request table and announced routes |
| WshRouters.WshRouter.RunServer | pkg/wshutil/wshrouter.go:197-251 | the loop drains any queue and leaves the router in the state of handling message after message, notices included; it ends because a message adds at most one notice and a notice none |
| WshRouters.NoticesWeighLess | pkg/wshutil/wshrouter.go:102-114 | the notices of a message weigh strictly less than the message |
| WshRouters.WshRouter.SendRoutedMessage | pkg/wshutil/wshrouter.go:175-195 | delivery to the local route, else upstream, else through the announced route; true if and only if somebody took it |
| WshRouters.WshRouter.HandleNoRoute | pkg/wshutil/wshrouter.go:102-122 | for a request a final response to its source with an error that names the route; otherwise a message to the source that names it, and nothing for such a message itself |
| WshRouters.WshRouter.HandleAnnounce | pkg/wshutil/wshrouter.go:145-160 | passed upstream, or remembered unless announced through itself |
| WshRouters.WshRouter.UnregisterRoute | pkg/wshutil/wshrouter.go:312-326 | routes announced through the gone one are not cleared: the table of announced routes stays as it was |
| WshRouters.StaleAnnouncement | pkg/wshutil/wshrouter.go:318-322 | so a newcomer under the same name receives their messages |
| WshRouters.AnnouncedIsReachable | pkg/wshutil/wshrouter.go:145-195 | an announced route is reached through its local route until it is unannounced |
| WshRouters.WshRouter.RegisterRoute | pkg/wshutil/wshrouter.go:268-277 | the reserved route name is refused |
| WshRouters.AnswersComeBack | pkg/wshutil/wshrouter.go:285-309 | a command whose client names no source is answered to that client: by a final error response that names the route if nobody takes it, by any response that comes for it otherwise; it always has a route, the one that it names if it names one |
| WshRouters.NoticeComesBack | pkg/wshutil/wshrouter.go:102-122 | a command without an id leaves no entry; if nobody takes it, its client gets a message that names the route, needs no answer and breeds no other |
| WshRouters.UpstreamTakesTheRest | pkg/wshutil/wshrouter.go:175-195 | with an upstream whatever is not for a local client goes up, whatever has been announced, and nothing is ever without a route |
| WshRouters.WshRouter.AnnounceRoute | pkg/wshutil/wshrouter.go:279-284 | a router with an upstream announces its new route there |
| RpcStreams.RpcResponseHandler.HandleRequest | pkg/wshutil/wshrpc.go:254-321 | for any calls a command handler makes: continuations and then at most one final message; exactly the stream asked for when nothing is lost |
| RpcStreams.RpcResponseHandler.SendResponse | pkg/wshutil/wshrpc.go:558-586 | the data goes out as it is, final or not as asked, and nothing after the final message, for every outcome of encoding and sending |
| RpcStreams.RpcResponseHandler.SendResponseError | pkg/wshutil/wshrpc.go:588-606 | an error goes out as it is, and is final |
| RpcStreams.RpcResponseHandler.Finalize | pkg/wshutil/wshrpc.go:622-629 | the stream is closed once |
| RpcStreams.EmittedIsComplete | pkg/wshutil/wshrpc.go:558-629 | the stream asked for has exactly one final message, its last |
| RpcStreams.EmittedAnswers | pkg/wshutil/wshrpc.go:558-629 | one message for each call of the handler up to the first final one, with that call's data or error and no other, and an empty final one if none is final |
| RpcStreams.TerminalCarries | pkg/wshutil/wshrouter.go:226-245 | interleaved with any other traffic, the responses to a request go to its source up to the final one, in order and unchanged, and the entry stays exactly until then |
| RpcStreams.LeafCarries | frontend/app/store/wshrouter.ts:78-122 | the same for the leaf router |
| RpcStreams.LeafRouter.RecvRpcMessage | frontend/app/store/wshrouter.ts:78-122 | one message at the leaf: registered before it is sent, events kept out of routing |
| RpcStreams.LeafFollowsRequest | frontend/app/store/wshrouter.ts:89-118 | the leaf sends a command, and until the final response whatever else comes for the request, along the route of the command, and the responses to its source |
| RpcStreams.RegisterThroughLink | frontend/app/store/wshrouter.ts:124-137 | once the terminal router has handled what the leaf announces over their link, both routers lead to the new client |
| RpcStreams.WithdrawThroughLink | frontend/app/store/wshrouter.ts:139-149 | after the unannouncement the leaf sends its messages upstream and the terminal router reaches nobody |
| RpcStreams.RegisterBelow | pkg/wshutil/wshrouter.go:268-284 | a client of a router with an upstream is reached by the terminal router through the link once the announcement has been handled |
| RpcStreams.RequestRoundTrip | pkg/wshutil/wshrouter.go:197-251 | a request from a client of the leaf reaches the server, and the complete response stream of its handler reaches that client in order and unchanged, each message with the data or the error of its call; afterwards neither router holds an entry |
| OscCodec.EncodeWaveOSCBytes | pkg/wshutil/wshutil.go:70-105 | fast path and escaping loop both give prefix, escaped payload, BEL |
| OscCodec.EncodeEscaped | pkg/wshutil/wshutil.go:91-104 | the loop that reuses one escape buffer |
| OscCodec.CopyOscPrefix | pkg/wshutil/wshutil.go:53-58 | the prefix is written in place and the rest of the buffer kept |
| OscCodec.MakeOscPrefix | pkg/wshutil/wshutil.go:64-68 | ESC ] number ; |
| OscCodec.EscapeHasNoControl | pkg/wshutil/wshutil.go:93-103 | no control byte is left in an escaped payload; ST passes through |
| OscCodec.ControlEscape | pkg/wshutil/wshutil.go:95-98 | a control byte becomes an escape whose two hexadecimal digits, read by their ASCII codes, are its value; every other byte stays |
| OscCodec.UnescapesIff | pkg/wshutil/wshutil.go:91-104 | a reader of these escapes gets the payload back if and only if the payload has no such escape of its own |
| PtyDemux.PtyBuffer.ProcessData | pkg/wshutil/wshcmdreader.go:87-144 | the byte machine is the fold of one step over the data; output and messages are those of the consumed items |
| PtyDemux.PtyBuffer.ProcessByte | pkg/wshutil/wshcmdreader.go:89-138 | one byte, with the prefix index in bounds |
| PtyDemux.FeedConserves | pkg/wshutil/wshcmdreader.go:87-144 | the bytes consumed are exactly plain bytes, whole frames and the pending bytes, in order |
| PtyDemux.ChunksDoNotMatter | pkg/wshutil/wshcmdreader.go:70-144 | any cutting of the input gives the same mode, buffer, output and messages |
| PtyDemux.FramesAreClean | pkg/wshutil/wshcmdreader.go:87-144 | every frame ends in BEL or ST and has no ESC, BEL or ST inside |
| PtyDemux.RoundTrip | pkg/wshutil/wshcmdreader.go:87-144 | any interleaving of ESC-free text and encoded messages without ST in their payloads splits back into that text and those escaped payloads, with nothing pending |
| PtyDemux.RoundTripIff | pkg/wshutil/wshutil.go:93-103 | ESC-free text and encoded messages, in any number and order, survive the trip if and only if no payload has an ST |
| PtyDemux.STBreaks | pkg/wshutil/wshcmdreader.go:97-103 | a payload with an ST is cut at the first one, whatever came before |
| PtyDemux.PayloadsComeBack | pkg/wshutil/wshcmdreader.go:87-144 | all the way: the reader passes on exactly the text and, with the escapes read back, exactly the payloads, in order |
| PtyDemux.BrokenPrefix | pkg/wshutil/wshcmdreader.go:108-124 | a start of the prefix and a byte that does not continue it pass through as they are |
| PtyDemux.BrokenFrame | pkg/wshutil/wshcmdreader.go:90-96 | a frame that an ESC breaks off passes through as it is, the ESC included |
| LineFraming.LineBuf.ProcessBuf | pkg/wshutil/wshrpcio.go:24-44 | delivered are exactly the newline-ended lines of the stream that are not too long, in order, whatever the pieces |
| LineFraming.LineBuf.StreamToLines | pkg/wshutil/wshrpcio.go:46-56 | only the concatenation of the reads matters |
| LineFraming.LinesContinue | pkg/wshutil/wshrpcio.go:24-44 | more bytes only continue the open line |
| LineFraming.WriteMessages | pkg/wshutil/wshrpcio.go:64-75 | each message and a newline |
| LineFraming.RoundTripIff | pkg/wshutil/wshrpcio.go:24-75 | messages come back unchanged if and only if none has a newline or is too long |
| IJson.SetThenGet | pkg/ijson/ijson.go:183-213 | after a successful set the path leads to the value |
| IJson.SetThenSet | pkg/ijson/ijson.go:344-452 | the last set at a path wins |
| IJson.SetKeepsOthers | pkg/ijson/ijson.go:344-452 | a successful set without Force leaves every disjoint path as it was |
| IJson.AppendThenGet | pkg/ijson/ijson.go:257-273 | after a successful append the path leads to the old array with the value at its end |
| IJson.FailedSetErases | pkg/ijson/ijson.go:388-391 | a set that fails leaves nil at its path |
| IJson.SetNeverPanics | pkg/ijson/ijson.go:344-452 | set and append never panic |
| IJson.SetUnfolds | pkg/ijson/ijson.go:344-452 | a set works level by level for maps and arrays: find the child and the budget left, set below, put the child back |
| IJson.BudgetIsExact | pkg/ijson/ijson.go:242-255 | over string keys a well-typed set succeeds if and only if the budget is unlimited or covers the new map entries, one more for an append |
| IJson.BudgetOnlyRefuses | pkg/ijson/ijson.go:242-255 | a budget decides only whether a set succeeds, not what it makes |
| IJson.ArrayRefundsBudget | pkg/ijson/ijson.go:429-436 | below element i of an array the budget grows by what follows the element |
| IJsonDelete.DelIgnoresBudget | pkg/ijson/ijson.go:429-433 | a delete costs nothing: every budget of a file gives the same result |
| IJsonDelete.DelPanicsIff | pkg/ijson/ijson.go:418-431 | a delete panics if and only if its last index is past the end of an array that it reaches |
| IJsonDelete.VanishesIff | pkg/ijson/ijson.go:367-442 | exactly when a delete leaves nil in place of the data, for all data and paths |
| IJsonDelete.DelFailsIff | pkg/ijson/ijson.go:367-452 | exactly when a delete reports an error, for all data and paths |
| IJsonDelete.DelStopsAtKey | pkg/ijson/ijson.go:382-388 | at any depth, a delete whose part below a key leaves nothing, by an error or not, is the delete of that key and succeeds |
| IJsonDelete.DelSwallowsError | pkg/ijson/ijson.go:382-388 | an error below that leaves nothing is swallowed and the key goes |
| IJsonDelete.DelOnKeys | pkg/ijson/ijson.go:355-391 | along string keys every error leaves nothing, so only one at the root is reported |
| IJsonDelete.DelThenGet | pkg/ijson/ijson.go:355-391 | a deleted string-key path reads as nil |
| IJsonDelete.DelKeepsOthersIff | pkg/ijson/ijson.go:355-442 | for all data and paths: a delete leaves every disjoint path as it was if and only if it reaches no container with content that its next element does not fit |
| IJsonDelete.LostPath | pkg/ijson/ijson.go:382-442 | otherwise there is a path whose value is lost; an array that an index past its end drops is one case |
| IJsonDelete.KeyTypedLosesNothing | pkg/ijson/ijson.go:355-391 | where every level on the path is a map or nil, a delete loses nothing and does not panic |
| IJsonDelete.DelPrunes | pkg/ijson/ijson.go:367-388 | no empty map is left behind where there was none, for all paths |
| IJsonDelete.BadElemDeletesKey | pkg/ijson/ijson.go:449-450 | an element that no branch accepts, below some keys, makes a delete remove the last of these keys |
| IJsonTs.TsGetPath | frontend/util/ijson.ts:40-63 | the loop agrees with the Go function in value and error if and only if no negative index is met at a value; there it reads nil where Go fails |
| IJsonTs.SetsAgree | frontend/util/ijson.ts:97-213 | for set and append on all data and paths, with and without Force, both interpreters give the same result or both fail |
| IJsonTs.SetInternalsAgree | frontend/util/ijson.ts:145-213 | the same for the recursive part |
| IJsonTs.DelsAgreeIff | frontend/util/ijson.ts:97-213 | for del on all data and paths, exactly when they give the same result or both fail |
| IJsonTs.DelInternalsAgreeIff | frontend/util/ijson.ts:145-213 | the same for the recursive part |
| IJsonTs.CleanDelsAgree | frontend/util/ijson.ts:145-213 | in particular on data without empty maps whose levels along a string-key path are maps or nil |
| IJsonTs.SettableIff | pkg/ijson/ijson.go:344-452 | exactly when a set or append succeeds; the value plays no part |
| IJsonTs.TsDelIff | frontend/util/ijson.ts:145-213 | exactly when a delete in TypeScript throws and when it leaves nil, for all data and paths |
| IJsonCommands.CommandsAgreeIff | frontend/util/ijson.ts:222-250 | for a command that Go holds in memory, with integers in its path, and the front end gets as JSON, on all data: they agree if and only if the data does not admit the set or append, the fields data and value hold the same, or the deletes agree |
| IJsonDecoded.DecodedAgreeIff | frontend/util/ijson.ts:222-250 | for every object that both decode from JSON and all data: they agree if and only if, for set and append, the data does not admit it or the path has no number and the fields data and value hold the same; for del, the deletes agree or the number in the path comes to a delete of the key before it; a path that is no array is the root in Go and an error in TypeScript |
| IJsonDecoded.ToJsonIsWire | pkg/ijson/ijson.go:535-545 | decoding what Go holds in memory gives the command as Wire says, and the same object to the front end |
| IJsonDecoded.NumberDelAgreesIff | pkg/ijson/ijson.go:382-450 | below keys a del with a number agrees if and only if TypeScript empties everything below the last key and no map on the way is empty |
| IJsonDecoded.DecodedDelDropsArray | pkg/ijson/ijson.go:449-450 | the concrete failure: del of element 1 of a two-element array drops the array in Go and the element in TypeScript |
| IJsonDecoded.FractionMetLate | frontend/util/ijson.ts:182-185 | a number that is no index is refused by TypeScript where it is met and not before; anything but a string or a number at once |
| IJsonCommands.MadeAgreesIff | pkg/ijson/ijson.go:37-58 | a set or append as Go makes it is understood if and only if its operand is nil or the data does not admit it |
| IJsonCommands.GoSetReadAsNil | frontend/util/ijson.ts:236-238 | the concrete failure: a command that sets the root is read as one that clears it |
| IJsonCommands.DelCommandPanicsIff | pkg/ijson/ijson.go:597-615 | a del command is the same under every budget, and panics exactly where the delete does |
| IJsonCommands.CommandBudgetIff | pkg/ijson/ijson.go:597-615 | a set or append command along string keys on well-typed data goes through under a budget if and only if that covers the new map entries, one more for an append |
| IJsonCommands.CommandThenGet | pkg/ijson/ijson.go:597-615 | what a command that goes through leaves at its path: the value, nil, or the old array with one more element |
| IJsonCommands.WireKeepsIff | pkg/ijson/ijson.go:560-595 | a command comes back from JSON as it was if and only if its path has no number |
| IJsonCommands.WireSetIff | pkg/ijson/ijson.go:449-450 | through JSON a set or append succeeds if and only if its path has no number and it would have succeeded before |
| IJsonCommands.WireDelDeletesKey | pkg/ijson/ijson.go:382-450 | through JSON a del with a number in its path deletes the last key before the number and succeeds, unless the map of that key is empty; with the number in front it fails |
| IJsonCommands.WireDelSameIff | pkg/ijson/ijson.go:382-450 | exactly when the trip through JSON makes no difference to a del |
| IJsonLog.CompactKeepsReplay | pkg/ijson/ijson.go:628-652 | a log that replays to v may be replaced by setting the root to v, whatever follows |
| IJsonLog.ApplyCommands | pkg/ijson/ijson.go:617-626 | the loop stops at the first error with nil |
| IJsonLog.ReplaySteps | pkg/ijson/ijson.go:617-626 | command by command: each takes the value that the one before has left; the first error leaves nothing but itself |
| IJsonLog.ParseIJson | pkg/ijson/ijson.go:655-675 | the commands of all pieces, or an error if one does not decode |
| IJsonLog.CompactIJson | pkg/ijson/ijson.go:628-652 | one pass that decodes and applies equals parsing, replaying and encoding the result; error and panic cases included |
| IJsonLog.ReplayAppend | pkg/ijson/ijson.go:617-626 | replaying a concatenation is replaying one list after the other |
| IJsonLog.AppendParsesIff | pkg/filestore/blockstore.go:352-353 | an appended line is one more piece if and only if the file was empty or ended in a newline |
| IJsonLog.AppendsParse | pkg/ijson/ijson.go:655-675 | after any number of appends of accepted commands to such a file it parses to the old commands and the new ones, as JSON leaves them |
| IJsonLog.CompactionReadsBack | pkg/ijson/ijson.go:628-675 | a log of appends compacts if and only if it replays, and the result parses to the one command that sets the root to its value |
| IJsonLog.StoreLogReplays | pkg/filestore/blockstore.go:330-369 | AppendIJson of the block store, compacting or not, leaves a log that parses and replays to what old commands and new one, as JSON leaves it, make |
| IJsonCodec.WitnessIsFaithful | pkg/ijson/ijson.go:580-595 | the demands on JSON in these results can be met: there is a codec that meets them and rejects two encodings in a row |
| IJsonLog.CompactedThenAppendIsStuck | pkg/ijson/ijson.go:650-651 | a compacted file has no final newline: after the next append it never parses or compacts again |
| Brokers.Run | pkg/wps/wps.go:78-286 | after any run of operations, matching and history are what the latest requests and the persisted events alone say |
| Brokers.Broker.GetMatchingRouteIds | pkg/wps/wps.go:257-286 | exactly the routes whose latest live request wants the event, each once |
| Brokers.MatchingIsWanted | pkg/wps/wps.go:257-286 | looking up plain scopes and matching star scopes together is matching every requested scope |
| Brokers.Broker.Subscribe | pkg/wps/wps.go:78-107 | the new request replaces the old one of the route for that event |
| Brokers.Broker.UnsubscribeNolock | pkg/wps/wps.go:147-162 | exactly that request is gone |
| Brokers.Broker.UnsubscribeAll | pkg/wps/wps.go:164-175 | exactly the requests of the route are gone |
| Brokers.Broker.PersistEvent | pkg/wps/wps.go:198-230 | each scope of the event, once, and the empty scope gain the event; nothing is ever trimmed |
| Brokers.Broker.ReadEventHistory | pkg/wps/wps.go:178-196 | the last n persisted events of the scope, or all if there are fewer, in publish order |
| Brokers.Broker.Publish | pkg/wps/wps.go:232-245 | the event goes once to each route that wants it |
| Brokers.RemoveStrFromScopeMapAll | pkg/wps/wps.go:123-132 | the route is gone from every list, and empty lists with it |
| StarScopes.StarMatchString | pkg/util/utilfn/utilfn.go:820-841 | the loop decides the recursive meaning of a pattern |
| StarScopes.PlainMatchesItself | pkg/util/utilfn/utilfn.go:820-841 | a pattern without stars matches exactly itself |
| StarScopes.PartsMatchIff | pkg/util/utilfn/utilfn.go:820-841 | part by part, by quantifiers instead of a loop: a star stands for any one part, a final double star for all that is left, a double star elsewhere for nothing |
| StarScopes.PartsHaveNoColon | pkg/util/utilfn/utilfn.go:821-822 | no part holds a colon, and (JoinSplit) joined by colons they are the scope |
| StarScopes.ScopeHasStarMatch | pkg/wps/wps.go:55-63 | whether some part is a star |
| Slices.RemoveElemWorks | pkg/util/utilfn/utilfn.go:786-795 | without duplicates, removal takes out exactly the element |
| UpdateStack.ContextUpdates.RunBody | pkg/waveobj/ctxupdate.go:74-125 | for any tree of nested transactions the depth is restored, lower levels are untouched and the top gains the last writes of exactly the updates whose transactions all succeeded |
| UpdateStack.ContextUpdates.WithTx | pkg/wstore/wstore_dbsetup.go:59-69 | the same for one transaction, committed or rolled back |
| UpdateStack.VisibleAfter | pkg/waveobj/ctxupdate.go:42-58 | the visible updates are the last-writer map of those updates over what was visible before |
| UpdateStack.ContextUpdates.CommitTx | pkg/waveobj/ctxupdate.go:97-113 | the top level is merged into the one below; panics if and only if there is none |
| UpdateStack.ContextUpdates.RollbackTx | pkg/waveobj/ctxupdate.go:115-125 | the top level is dropped; panics if and only if there is none below |
| UpdateStack.ContextUpdates.GetUpdates | pkg/waveobj/ctxupdate.go:42-58 | higher levels hide lower ones |
| UpdateStack.ContextUpdates.GetUpdate | pkg/waveobj/ctxupdate.go:60-72 | the search from the top agrees with the merged map |
| UpdateStack.FailedKeepsNothing | pkg/wstore/wstore_dbsetup.go:61-66 | nothing inside a failed transaction is kept, however deep |
| UpdateStack.LastWriterOf | pkg/waveobj/ctxupdate.go:74-90 | object by object, by type and id: the last of its updates, or what was there before |
| Ownership.Run | pkg/wstore/wstore.go:21-211 | every run without a move of a block to its own tab, whatever fails, keeps each block in one tab once, each tab in one workspace once and each tab with its own stored layout state |
| Ownership.MoveKeepsInvIff | pkg/wstore/wstore.go:205-208 | a move that goes through keeps this if and only if the two tabs differ |
| Ownership.SelfMoveDuplicates | pkg/wstore/wstore.go:205-208 | the concrete failure: the only block of a tab, moved to that tab, is listed twice |
| Ownership.CreateThenDeleteBlock | pkg/wstore/wstore.go:98-142 | a block that is created and deleted again leaves no trace but its id |
| Ownership.CreateThenDeleteTab | pkg/wstore/wstore.go:21-169 | and neither does a tab, with its layout state |
| Ownership.Store.CreateTab | pkg/wstore/wstore.go:21-43 | a fresh empty tab with a fresh layout state at the end of its workspace, everything else as before, or an error and nothing changed |
| Ownership.Store.CreateBlock | pkg/wstore/wstore.go:98-116 | a fresh block with its definition at the end of its tab, everything else as before, or an error and nothing changed |
| Ownership.Store.DeleteBlock | pkg/wstore/wstore.go:127-142 | block and listing go together; an unlisted block is left alone |
| Ownership.Store.DeleteTab | pkg/wstore/wstore.go:146-169 | only an empty tab goes, with its layout state and its listing |
| Ownership.Store.MoveBlockToTab | pkg/wstore/wstore.go:191-211 | out of the one list, at the end of the other, both otherwise in their order; the error cases; and when the graph stays intact |

## Left out

- WriteMeta, Stat, ListFiles, DeleteZone, timestamps and file metadata: they do not touch contents, and the counters that trigger compaction are a parameter of AppendIJson.
- EntryOps.Compact: a panic inside the compaction of a log counts as a failed compaction here; IJsonLog.CompactIJson tells them apart.
- Part size: the model fixes partDataSize to the shipped constant.
- Integer width: sizes and offsets are unbounded, int64 overflow is not modelled.
- Cached parts are values in a map: two goroutines never share one outside the entry lock, so pointer identity of a part is not modelled.
- FileStores.FileStore.WriteAt: a run records only that a tail can be cached in a dirty file alone; whether it is, is tied to the cache in the method's contract and in Perform.
- SQL and I/O: a database call is a transaction that commits or leaves the tables unchanged; its outcome, and whether the context is still alive, are parameters.
- FileStores.FileStore.GetEntryAndPin: in the store class operations run one after the other; the interleavings are in PinProtocol, where a body is one step.
- Flush scheduling: when the background flusher runs; its turns may come anywhere in a run.
- vdom hooks, effects, contexts, events and the work queues: components are pure functions of their element, and property functions are opaque values.
- Reconciler.SameAsFromScratch: renders over a tree that does not allow them (Smooth) are described by NilChildPanics and SharedChild only, not by the state they leave; the nesting of components is bounded by a fuel that is shown not to matter.
- Component ids are drawn from a counter instead of random uuids; the same holds for object ids in Ownership.
- RPC: channel capacities, blocking and deadlock, timeouts and cancellation, authentication and sockets; JSON encoding of messages (a message that does not decode is one case of the input).
- WshRouters.WshRouter.HandleNoRoute: quotes, backslashes and unprintable characters in a route name, which the text of the error would show escaped.
- WshRouters.WshRouter.UnregisterRoute: the subscriptions of the route, which the broker drops in a goroutine of its own (Brokers.Broker.UnsubscribeAll).
- RouterProtocol.NextKeepsInv: the table lookups of one send are one step, and clients use every request id for one command; ReusedIdMisroutes shows that the latter is needed.
- RpcStreams.RpcResponseHandler.HandleRequest: handler calls are atomic; races between the done check and the send are not modelled.
- The requester side of an RPC (response channels and their timeouts), SendEvent and WaitForRegister.
- PtyBuffer: the reader side and its back-pressure; the output is everything written for the reader.
- OSC: base64 payloads and the message envelope around the bytes.
- StreamToLines: read errors and end of file; a write error of AdaptOutputChToStream ends its loop early.
- ijson works on values: sharing between old and new data through in-place updates is not modelled, nor are the other combine functions (set-unless, max, min, increment), path parsing and printing, and number normalisation.
- JSON in IJsonLog is an abstract pair of functions; JSON's own syntax, the replacement of invalid UTF-8 and the refusal of infinities by the encoder are not modelled (numbers are finite floats, by their bits).
- IJsonDecoded.DecodedAgreeIff: a command that is no JSON object (neither side accepts one), and numbers beyond what a JavaScript array takes as an index.
- IJsonTs.SetsAgree: property lookups on JavaScript prototypes (keys such as "constructor") are not modelled; undefined is read as nil.
- Broker: subscriptions are values in a map; the client is the list of its SendEvent calls.
- UpdateStack: a context without an update stack, on which all calls do nothing; a panic inside a transaction body, after which the deferred function commits the level; the map that GetUpdates returns without copying at depth one.
- Ownership: workspace renames, window state, UpdateWorkspaceTabIds (which may store any list), object metadata, and the deletion of a block's files.
- Shell and SSH sessions, the Electron process, the React front end, configuration, telemetry, code generators and the command line.
