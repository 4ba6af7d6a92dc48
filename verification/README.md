# A model of the RenderScript core runtime

RenderScript runs data-parallel scripts on behalf of a client. Calls of the client become
commands in a byte stream to a core thread, which owns reference-counted objects (elements,
types, allocations, scripts, fonts), schedules groups of kernels, draws text through a glyph
cache and stores objects in A3D files. This project models those parts in Dafny and proves
what they promise. Nothing here was executed; everything stated is what the verifier proved.
`dafny verify dfyconfig.toml` checks the whole project.

| module | models |
|---|---|
| `GlyphCache` | the glyph texture cache and text rendering (rsFont.cpp), against a renderer without a cache |
| `CommandCodec`, `CommandFifo` | the two halves of a generated API entry (rsg_generator.c), and every interleaving of client and core over the two byte streams (rsThreadIO.cpp, rsFifoSocket.cpp) |
| `LifetimeSteps` | every interleaving of cache lookups, reference counting and deletion (rsObjectBase.cpp, rsElement.cpp) |
| `ObjectList` | the object list, cascading deletion and teardown (rsObjectBase.cpp) |
| `LinkGraph`, `LevelledGraph`, `ScriptGroup` | ordering, allocation sharing and execution of script groups (rsScriptGroup.cpp) |
| `Streams`, `Elements`, `ElementLoading`, `A3DFile`, `A3DLoading` | aligned streams, element and type serialisation, loading through the caches, and the indexed A3D container (rsStream.\*, rsElement.cpp, rsComponent.cpp, rsType.cpp, rsFileA3D.cpp) |
| `Interning` | the element and type caches (rsElement.cpp, rsType.cpp) |
| `MipLevels`, `ElementLayout`, `PackedData`, `PackedElements` | mip counting, element layout and vector padding, each written once in the core and once in the C++ client (cpp/Type.cpp, cpp/Element.cpp, cpp/Allocation.cpp) |
| `ClientMessages` | messages from the core to the client (rsThreadIO.cpp, rsContext.cpp, cpp/RenderScript.cpp) |
| `BucketMap` | the 256-bucket hash map (rsMap.h) |
| `Formats` | the serial forms of files, commands and messages, byte by byte |
| `Common`, `Bytes` | shared types, and little-endian numbers |

Objects that point at each other (`ObjectList`, `Interning`, the nodes of `BucketMap` and
`ScriptGroup`) live in explicit memories indexed by pointer. A predicate of the form
`forall k :: Key(k) ==> P`, or with a key that has more arguments, is `P`, used only where a key is named; it
keeps large invariants out of proofs that merely pass them on.

## What turned out to differ from the promise

- The lock-and-recheck of `checkDelete` reads the user counter and then the system counter. A
  client thread that trades its system reference for a user reference between the two reads
  defeats it. Element creation off the RS thread can do so (`ElementCreateCanRace`). Nothing else
  can go wrong, and this always does (`RaceFreeRunIsSafe`, `RaceDooms`), so being safe and being
  free of this race are the same (`SafeIffNoRace`).
- `calcOrder` answers yes on link cycles that no input-free node reaches, and `create` goes on
  (`CycleIsAccepted`, `CreateCycle`). After a yes, the schedule respects all links exactly when
  every node is reached from an input-free node (`ScheduleRespectsLinks`). After a no, `create`
  goes on as well (rsScriptGroup.cpp:224), and a destination can come before its source even
  without a cycle (`DestinationCanComeFirst`). `EverySortRespects` tells exactly for which orders
  it cannot, and `LevelledRespects` gives graphs, such as diamonds (`DiamondRespects`), for which it
  never does.
- Objects have no name until they are given one, and writing an object without a name reads
  through a null pointer. Elements and types can be written exactly when they and all their parts
  have names (`SerializesIffNamed`, `ObjSerializesIffNamed`). What is read from a file is looked up
  in the caches, so it can be written again exactly if it was there before, with names
  (`LoadedWritableIff`, `LoadedObjWritableIff`); in a new context it cannot (`LoadIntoEmpty`).
- The mip flag of a type is always written as 1, and YUV formats and arrays are not written
  (`LoadedTypeIsSame`); leaf types lose all but eight bits, which spoils object leaves (`LoadedIsSame`).
- `addString` grows the buffer once at most; `StringAlwaysFits` tells for which strings that is enough.
- `mUse64BitOffsets` is not initialised before writing; both branches write the same (`WriteEntry`).
- A repeated element request misses the cache, and stores a second equal record, exactly when
  `Component::set` would change it or a length is not that of its name (`CreateLeafTwice`,
  `CreateStructTwice`, `Packed565Twice`). A structure request without fields
  matches any cached element without fields (`CreateStruct`).
- Core sizes are cut to 32 bits in places where client sizes are not (`SizesAgreeExactly`,
  `OffsetsAgree`, with `SizesCanDiffer` and `OffsetsCanDiffer`). Cell counts of core and client
  agree exactly under the conditions of `CountsAgree`, `SingleLevelAgrees` and
  `CountsAgreeExactly`, and not always (`CountsCanDiffer`). Of a type without a first extent the
  core counts no cells, and the client usually some (`CountsWithoutX`, `CountsDifferWithoutX`),
  but not always (`CountsCanAgreeWithoutX`).
- Of an array field only the first element is packed (`RestoresIffSingle`, `CellsRestoredIffNoArrays`).
- `Component::set` leaves the unpadded size of packed 16-bit types, objects and `RS_TYPE_NONE` unset
  (rsComponent.cpp:75-92), so they are not among the parts that cells are copied by.

## Model

| member | source | states |
|---|---|---|
| `GlyphCache.FontState.constructor` | rsFont.cpp:544-576 | the texture is split into seven lines of fixed heights; the cache invariant holds with no font and an empty batch |
| `GlyphCache.FontState.FitBitmap` | rsFont.cpp:840-854 | a line takes a bitmap exactly when it is not too tall and fits in the columns left; the place is the first free column, and only that line changes |
| `GlyphCache.FontState.FitAnyLine` | rsFont.cpp:426-444 | the first fitting line is used; if none fits then every line refuses the bitmap and nothing changes; a place lies in used columns of one line |
| `GlyphCache.FontState.FlushAllAndInvalidate` | rsFont.cpp:401-412 | the batch is drawn with the texture it was made for: drawn plus batched output is unchanged, every record is invalid and every line empty |
| `GlyphCache.FontState.CopyBitmap` | rsFont.cpp:456-470 | the rectangle holds exactly the bitmap afterwards and no other texel of the buffer changes |
| `GlyphCache.FontState.TryCache` | rsFont.cpp:427-490 | one attempt keeps the invariant and the output; on success the buffer holds the bitmap at a place that misses every valid record |
| `GlyphCache.FontState.CacheBitmap` | rsFont.cpp:415-490 | succeeds exactly when the bitmap has at most 88 rows and is narrower than the texture; flushes once if it is not too tall and no line has room, and not at all otherwise; the output does not change |
| `GlyphCache.FontState.UpdateGlyphCache` | rsFont.cpp:238-281 | afterwards the record is valid exactly when the glyph can be cached at all; output and other fonts' faces are unchanged |
| `GlyphCache.FontState.CacheGlyph` | rsFont.cpp:283-293 | a new record is made and cached at once if that is possible; invariant and output are kept |
| `GlyphCache.FontState.GetCachedUTFChar` | rsFont.cpp:224-236 | returns the record of the character, valid exactly when the glyph can be cached, after any flush that took; a valid record is found without changing anything |
| `GlyphCache.FontState.AppendMeshQuad` | rsFont.cpp:663-718 | a quad off the surface adds nothing; any other adds one sprite to the output, and a batch of 1024 is drawn so that the index stays below the buffer size |
| `GlyphCache.FontState.IssueDrawCommand` | rsFont.cpp:643-661 | draws each batched quad once, in order, from its texture rectangle |
| `GlyphCache.FontState.DrawCachedGlyph` | rsFont.cpp:92-110 | the quad of a valid record shows the glyph's own bitmap |
| `GlyphCache.FontState.RenderUTF` | rsFont.cpp:160-222 | the output grows by exactly what a renderer without a cache shows for the text, whatever was flushed on the way |
| `GlyphCache.FontState.RenderText` | rsFont.cpp:744-781 | from an empty batch, everything shown is on the screen at the end: drawn equals drawn before plus the direct rendering |
| `GlyphCache.FontState.CreateFont` | rsFont.cpp:295-317 | precaching a new font draws nothing, keeps the invariant, and goes on until all its characters have records or at most a quarter of the columns is free |
| `GlyphCache.FontState.DestroyFont` | rsFont.cpp:76-84 | the font leaves the active fonts and the invariant is kept |
| `GlyphCache.NewSlotIsFree` | rsFont.cpp:840-854 | the first free columns of a line are disjoint from every rectangle placed before |
| `GlyphCache.NewSlotMisses` | rsFont.cpp:415-470 | a bitmap put in a free slot misses every valid record of every font |
| `GlyphCache.SlotsKept` | rsFont.cpp:415-470 | copying a bitmap to a free place keeps every valid record placed, with its own bitmap in the buffer |
| `GlyphCache.BatchKept` | rsFont.cpp:415-490 | copying a bitmap to a free place does not change what the batched quads show |
| `GlyphCache.InvalidatedOk` | rsFont.cpp:401-412 | after a flush no record is valid and the metrics are as they were |
| `GlyphCache.RecordSet` | rsFont.cpp:238-281 | storing a record that is in order keeps all valid rectangles pairwise disjoint over all fonts |
| `GlyphCache.HoldsSample` | rsFont.cpp:643-661 | sampling a rectangle that holds a bitmap gives that bitmap |
| `GlyphCache.CulledIffOutside` | rsFont.cpp:675-677 | a quad is dropped exactly when no point of it is on the surface |
| `GlyphCache.AdvanceMeans` | rsFont.cpp:160-222 | the pen moves by the whole pixels of the advance, which is in units of 1/64 pixel |
| `GlyphCache.NotCacheable` | rsFont.cpp:415-424 | a glyph is left out exactly if it does not load, has over 88 rows, or is as wide as the texture |
| `GlyphCache.GlyphShowsPixel` | rsFont.cpp:92-110 | pixel (u, v) of a bitmap is shown at pen + left + u and pen - top + v, if that is on the surface |
| `GlyphCache.TextShowsPixel` | rsFont.cpp:160-222 | every pixel on the surface of every character that the cache can hold is shown where its pen stands |
| `GlyphCache.ShownIsFromText` | rsFont.cpp:160-222 | everything shown is a character of the text where its pen stands |
| `GlyphCache.LimitedMeans` | rsFont.cpp:160-222 | a limit of n characters shows the first n, and a negative limit all |
| `CommandCodec.HasInlineDataPointers` | rsg_generator.c:168-192 | answers yes exactly for entries without result or sync flag whose pointers are all single-level and constant, with at least one |
| `CommandCodec.Stub` | rsg_generator.c:275-337 | commits exactly the encoded command; waits for the returned value, for any sync entry, and for any argument whose bytes are not in the command |
| `CommandCodec.FillCommand` | rsg_generator.c:300-319 | fields hold pointers, payload offsets or NULL as the mode says, and the payload is the data of all pointers one after the other |
| `CommandCodec.Playback` | rsg_generator.c:396-448 | calls the internal function with the decoded arguments and replies exactly when the command says so |
| `CommandCodec.PlaybackIsDirectCall` | rsg_generator.c:396-448 | for every entry and arguments, playback of the encoded command sees what the direct call would have seen; only oversized commands need the memory to be still the same |
| `CommandCodec.FieldsRoundTrip` | rsg_generator.c:300-319 | every parameter, inlined or raw, decodes to what was passed |
| `CommandCodec.PayloadSlices` | rsg_generator.c:303-315 | the data of each argument stands in the payload right after the data of the arguments before it, at its offset |
| `CommandCodec.SlicesDisjoint` | rsg_generator.c:303-315 | the payload slices of two arguments do not overlap |
| `CommandCodec.RecordFits` | rsThreadIO.cpp:49-62 | header, fields and inlined data fit the 2048-byte buffers |
| `CommandCodec.TotalIsDataSize` | rsg_generator.c:430-437 | the sum of the length fields on playback is the data size of the stub |
| `CommandCodec.WaitsIffReplies` | rsg_generator.c:320-337 | the stub waits exactly when playback of its command replies |
| `CommandCodec.WaitsExactly` | rsg_generator.c:300-337 | a stub waits exactly if its entry returns something, is sync, has a pointer that is not constant or not single-level, or has 1024 bytes of data or more |
| `CommandCodec.NeedsCallerWaits` | rsg_generator.c:300-337 | an argument whose bytes are not in the command makes the stub wait |
| `CommandCodec.DirectViewMeans` | rsg_generator.c:253-268 | what a direct call passes: values, raw addresses, or the bytes that a constant pointer points to |
| `CommandCodec.FetchBytes` | rsg_generator.c:303-315 | the bytes copied are those at the address |
| `CommandFifo.RecordRead` | rsThreadIO.cpp:126-147 | reading a header and that many bytes gives the id and the command back and leaves the rest of the stream |
| `CommandFifo.StepKeepsInv` | rsThreadIO.cpp:49-163 | every step of client or core keeps streams, history and waiting consistent |
| `CommandFifo.PlayedIsIssuedPrefix` | rsThreadIO.cpp:102-172 | in every reachable state the calls played are a prefix of the calls issued, and all of them once the core is idle with an empty stream |
| `CommandFifo.ReturnChannel` | rsThreadIO.cpp:78-96 | the return channel is empty while the client does not wait, and otherwise holds nothing or one reply of the awaited length |
| `CommandFifo.LivePointersKeepCallerWaiting` | rsg_generator.c:320-337 | while a queued command has a pointer to pointers, or to data that is not in the command, its caller waits and the memory is as it was |
| `CommandFifo.AnswersKeepCallerWaiting` | rsg_generator.c:320-337 | while a queued entry returns something, is sync, or may write the caller's memory, its caller waits |
| `CommandFifo.FinishCanWrite` | rsg_generator.c:396-448 | an internal function that was given a pointer it may write to can leave any memory behind |
| `CommandFifo.WaitingIsNotStuck` | rsThreadIO.cpp:102-172 | a waiting client can resume, or the core can begin or finish a command |
| `CommandFifo.FinishPlaysSent` | rsg_generator.c:396-448 | a command from the stream is playable, plays its own call and replies exactly if its caller waits |
| `LifetimeSteps.StepKeepsInv` | rsObjectBase.cpp:107-174 | every step of every thread, other than the race of checkDelete, keeps counters, lock ownership and liveness consistent |
| `LifetimeSteps.RaceFreeRunIsSafe` | rsObjectBase.cpp:107-174 | in every interleaving without a race, no held reference, cache entry or list entry is to a deleted object, and the counters count the references |
| `LifetimeSteps.RaceDooms` | rsObjectBase.cpp:107-128 | from every consistent state in which a client drops the last system reference to an object between the two reads of its recheck, the RS thread alone goes on to delete an object to which a reference is held |
| `LifetimeSteps.ElementCreateCanRace` | rsElement.cpp:230-273 | a concrete run of element creation off the RS thread has that race, and ends with a held reference to a deleted object |
| `LifetimeSteps.SafeIffNoRace` | rsObjectBase.cpp:107-174 | for any set of allowed behaviours in which the RS thread can go on, all reachable states are safe exactly when no reachable step is such a race |
| `LifetimeSteps.LastReleaseDeletes` | rsObjectBase.cpp:107-174 | once the RS thread has released the last reference of both kinds, it goes on alone to delete the object and to take it off list and cache |
| `LifetimeSteps.OtherReferenceSaves` | rsObjectBase.cpp:130-174 | as long as a reference of either kind is left, a release changes nothing else and takes no lock |
| `LifetimeSteps.CreatedIsFindable` | rsElement.cpp:230-273 | in every run a created element is in the cache, or about to be, until it is deleted |
| `ObjectList.Context.Create` | rsObjectBase.cpp:195-207 | a new object becomes the head of a well formed list, with both counters zero; other objects are as they were, but for the link of the old head |
| `ObjectList.Context.IncUserRef` | rsObjectBase.cpp:86-91 | one more user reference; list, ownership and counters stay consistent |
| `ObjectList.Context.IncSysRef` | rsObjectBase.cpp:93-98 | one more system reference, counted |
| `ObjectList.Context.AddHandle` | rsObjectBase.h:128-151 | an object that gains a handle owns one more counted reference |
| `ObjectList.Context.Remove` | rsObjectBase.cpp:209-227 | the object is unlinked from both neighbours and the head; the rest of the list is as it was |
| `ObjectList.Context.CheckDelete` | rsObjectBase.cpp:107-128 | deletes exactly when both counters are zero, and then everything that only the object kept alive: afterwards nothing is without references but what was so before; nothing is deleted that users, outside references, other idle objects or its own set keep alive; what left the list is no longer in memory |
| `ObjectList.Context.Destroy` | rsObjectBase.cpp:47-74 | the handles of an unlinked object are released one by one, and everything that this leaves without references is deleted; the memory of all of it is given back |
| `ObjectList.Context.DecSysRef` | rsObjectBase.cpp:161-174 | releases one reference and deletes exactly when it was the last of both kinds, with the whole cascade |
| `ObjectList.Context.Clear` | rsObjectBase.h:146-151 | releasing an outside reference leaves exactly the objects that are alive without it |
| `ObjectList.Context.DecUserRef` | rsObjectBase.cpp:130-147 | releases one user reference and deletes exactly when it was the last of both kinds; what is left is exactly what users, outside references, other idle objects and ownership keep alive |
| `ObjectList.Context.ZeroUserRef` | rsObjectBase.cpp:149-159 | zeroes the user counter and deletes exactly when no system reference is left; what is left is exactly what is alive without those users |
| `ObjectList.LeftIsAlive` | rsObjectBase.cpp:107-128 | when nothing but the roots is without references, what is left of the list is the greatest set that roots, outside references and its members keep alive |
| `ObjectList.AliveIsGreatest` | rsObjectBase.cpp:107-174 | what is alive after a release is the greatest set of listed objects that users, outside references, its own members, or idleness from before keep |
| `ObjectList.Context.ZeroAllUserRef` | rsObjectBase.cpp:229-259 | terminates; the list is well formed and holds exactly the greatest set of objects kept alive by outside references or by each other, all with user count 0 and system count above 0 |
| `ObjectList.Context.ZeroNext` | rsObjectBase.cpp:229-259 | one round moves on, or starts again from the head with a shorter list |
| `ObjectList.CoreIsGreatest` | rsObjectBase.cpp:229-259 | the objects that survive teardown are supported and contain every supported set |
| `ObjectList.CoreEmptyIffAcyclic` | rsObjectBase.cpp:229-259 | without outside references teardown leaves nothing exactly when ownership has no cycle |
| `LinkGraph.VisitExplored` | rsScriptGroup.cpp:74-95 | a recursion that answers yes has marked a tree with orders rising along its links, and every order is attained by a path |
| `LinkGraph.VisitSearch` | rsScriptGroup.cpp:74-95 | a recursion that answers no has found two different link paths to one node |
| `LinkGraph.RootVisited` | rsScriptGroup.cpp:143-152 | from an input-free node the recursion answers yes exactly when no node is reached by two paths, and keeps earlier orders rising |
| `LinkGraph.OrdersAreLongest` | rsScriptGroup.cpp:143-152 | when every node is reached, each order is the length of the longest path from an input-free node and rises along every link |
| `LinkGraph.SortedIsSourcesFirst` | rsScriptGroup.cpp:187-188 | any list sorted by rising orders puts the source of every link before its destination |
| `LinkGraph.SourcesFirstReached` | rsScriptGroup.cpp:187-188 | a list that respects all links exists only if every node is reached from an input-free node |
| `LinkGraph.EverySortRespects` | rsScriptGroup.cpp:187-188 | for any orders, every sorted list puts all sources first, however ties are broken, exactly when orders rise along every link |
| `LevelledGraph.LevelledRespects` | rsScriptGroup.cpp:74-95 | if every link goes up one level, every node is reached, and only the last output of a node leads to a node with other links into it, then orders are levels and every sort puts all sources first, whatever the answer is |
| `LevelledGraph.VisitLevels` | rsScriptGroup.cpp:74-95 | on such a graph the recursion gives every node it sees its level, also when it answers no |
| `LevelledGraph.DiamondRespects` | rsScriptGroup.cpp:74-95 | a diamond gets the answer no, and yet its orders are its levels and every sort puts all sources first |
| `ScriptGroup.FindNode` | rsScriptGroup.cpp:60-72 | the first node with a kernel of the script, or none if there is none |
| `ScriptGroup.Group.CalcOrderRecurse` | rsScriptGroup.cpp:74-95 | marks and answer are those of the marking recursion as a function |
| `ScriptGroup.Group.MakeNodes` | rsScriptGroup.cpp:108-119 | one node per script, each with just the kernels of its script, in order |
| `ScriptGroup.Group.AddLinks` | rsScriptGroup.cpp:122-139 | each node lists exactly the links out of its script and into it, in order |
| `ScriptGroup.LinkEndNode` | rsScriptGroup.cpp:81-88 | a link goes to the node of the script of its destination kernel, or of its destination field |
| `ScriptGroup.Group.OrderNodes` | rsScriptGroup.cpp:143-152 | orders and answer are those of the loop over roots as a function; yes exactly when no input-free node reaches a node by two paths; if also every node is reached, orders are longest path lengths |
| `ScriptGroup.Group.FindIOs` | rsScriptGroup.cpp:154-185 | inputs and outputs of the group are exactly the kernels that declare one which no link serves, in order |
| `ScriptGroup.Sort` | rsScriptGroup.cpp:97-103 | all nodes, each once, by increasing order |
| `ScriptGroup.Group.CalcOrder` | rsScriptGroup.cpp:105-190 | the answer, the orders, the schedule and the group inputs and outputs together |
| `ScriptGroup.ScheduleRespectsLinks` | rsScriptGroup.cpp:105-190 | after a yes, the schedule puts all sources first exactly when every node is reached from an input-free node |
| `ScriptGroup.CycleIsAccepted` | rsScriptGroup.cpp:143-152 | for the request of two scripts linked to each other: no clash is found, and no schedule at all respects the links |
| `ScriptGroup.CreateCycle` | rsScriptGroup.cpp:192-251 | creating that group succeeds with the answer yes and a schedule that breaks a link |
| `ScriptGroup.ForkOrders` | rsScriptGroup.cpp:74-95 | two links to one node and then one to another: the answer is no, and the other node is never ordered |
| `ScriptGroup.DestinationCanComeFirst` | rsScriptGroup.cpp:74-95 | an acyclic request after which the answer is no, and whose orders allow both a schedule that respects all links and one that puts a destination before its source |
| `ScriptGroup.Group.Share` | rsScriptGroup.cpp:234-243 | a new allocation goes to exactly the links from one kernel |
| `ScriptGroup.Group.AllocateLinks` | rsScriptGroup.cpp:227-244 | every link gets an allocation, and two links share one exactly when they share a source kernel |
| `ScriptGroup.Group.constructor` | rsScriptGroup.cpp:192-251 | create as a whole: nodes, schedule, group inputs and outputs, and link allocations |
| `ScriptGroup.Group.SetInput` | rsScriptGroup.cpp:253-265 | binds the allocation of that kernel only; an unknown kernel changes nothing |
| `ScriptGroup.Group.SetOutput` | rsScriptGroup.cpp:267-279 | binds the allocation of that kernel only; an unknown kernel changes nothing |
| `ScriptGroup.Group.ValidateInputAndOutput` | rsScriptGroup.cpp:281-297 | yes exactly when all group inputs and outputs are bound |
| `ScriptGroup.Group.Arg` | rsScriptGroup.cpp:318-345 | a kernel gets the allocation of a link that serves it, or else the one bound to it in the group, or none if it declares none |
| `ScriptGroup.Group.Execute` | rsScriptGroup.cpp:299-357 | nothing runs unless all is bound; otherwise every kernel runs exactly once, in schedule order, with the allocations of its links or those bound to it, and after the sources of all links into its script if the schedule respects links |
| `ScriptGroup.Group.ExecuteWithInput` | rsScriptGroup.cpp:253-357 | after setInput a kernel that no link serves runs with that input |
| `ScriptGroup.Group.ExecuteWithOutput` | rsScriptGroup.cpp:267-357 | after setOutput a kernel without links out of it runs with that output |
| `ScriptGroup.FieldIsSetBefore` | rsScriptGroup.cpp:299-357 | when the schedule respects the links, the source of a link into a field of a script runs before the kernels of that script |
| `ScriptGroup.ReadsWhatSourceWrote` | rsScriptGroup.cpp:299-357 | a linked kernel reads the allocation that the source kernel of its link wrote in an earlier run |
| `Streams.Align4IsRoundUp` | rsStream.h:43-48 | alignment rounds the position up to a multiple of four |
| `Streams.OStream.GrowSize` | rsStream.cpp:107-113 | the buffer doubles and keeps its contents |
| `Streams.OStream.AddU8` | rsStream.h:126-132 | the byte stands at the old position; what was written before stays; one byte of room is left |
| `Streams.OStream.AddU32` | rsStream.h:108-117 | the number stands at the next multiple of four; what was written before stays; one byte of room is left |
| `Streams.OStream.AddOffset` | rsStream.cpp:74-91 | on a stream for 32-bit offsets, the same as addU32 |
| `Streams.OStream.AddString` | rsStream.cpp:93-101 | length and characters follow, whenever the single growth that the source does makes room for them |
| `Streams.StringAlwaysFits` | rsStream.cpp:93-101 | a single growth is enough at every position exactly for strings less than four characters longer than the buffer |
| `Streams.OStream.AddByteArray` | rsStream.cpp:65-72 | the bytes follow, after as many growths as they need |
| `Streams.OStream.Align` | rsStream.h:87-92 | the position becomes the next multiple of four, cut to 32 bits; below that nothing written is lost |
| `Streams.IStream.LoadU32` | rsStream.h:43-48 | reads the number at the next multiple of four and moves past it |
| `Streams.IStream.LoadString` | rsStream.cpp:46-51 | reads the length and that many characters |
| `Streams.ReadsU32` | rsStream.h:43-48 | reads back what addU32 wrote |
| `Streams.ReadsString` | rsStream.cpp:46-51 | reads back what addString wrote |
| `Streams.WroteBoth` | rsStream.h:87-136 | writing one token sequence after another writes their concatenation |
| `Elements.Serialize` | rsElement.cpp:107-121 | writes exactly the tokens of the element tree, of any depth, if the element and all its parts have names |
| `Elements.SerializesIffNamed` | rsElement.cpp:107-121 | an element can be written exactly when it and all its parts have names |
| `Elements.NewElementCannotBeWritten` | rsObjectBase.cpp:26-45 | a new element has no name, so writing it fails |
| `Elements.SerializeComponent` | rsComponent.cpp:259-264 | writes type, kind and normalisation in a byte each and the vector size |
| `Elements.LoadComponent` | rsComponent.cpp:266-274 | reads them back and derives the dependent fields |
| `Elements.ComponentRoundTrip` | rsComponent.cpp:259-274 | a component comes back with its type cut to eight bits |
| `Elements.ElementReads` | rsElement.cpp:107-170 | after serialize, createFromStream gives the element as loaded and stops at the writer's final position |
| `Elements.LoadedIsSame` | rsElement.cpp:107-170 | the loaded element is the same, up to object names, exactly when no leaf holds an object |
| `ElementLoading.CreateFromStream` | rsElement.cpp:123-170 | reads one element tree as the parser function says, or nothing if the class id is wrong; what it gives is a cached object if there is one, old objects and names stay, and records stay unique |
| `ElementLoading.LoadedWritableIff` | rsElement.cpp:123-170 | when records are unique, a loaded element can be written exactly when it was in the caches before, and it and all its parts had names |
| `ElementLoading.LoadWritable` | rsElement.cpp:123-170 | loading gives the element read, which can be written exactly under that condition on the caches before |
| `ElementLoading.LoadIntoEmpty` | rsElement.cpp:123-170 | in a new context nothing that is loaded can be written |
| `ElementLoading.LoadIntoNamed` | rsContext.cpp:680-684 | in a context with an equal leaf that was given a name, the loaded leaf can be written |
| `ElementLoading.Reload` | rsElement.cpp:107-170 | an element written and read in one context comes back as the same object exactly when no leaf holds an object, and can then be written again |
| `A3DFile.SerializeType` | rsType.cpp:164-177 | writes the name, the element, the extents and two flags of a named type over named elements |
| `A3DFile.ObjSerializesIffNamed` | rsType.cpp:164-177 | an element or type can be written exactly when it and all its parts have names |
| `A3DFile.TypeRoundTrip` | rsType.cpp:164-206 | a written type comes back as loaded, up to the writer's final position |
| `A3DFile.LoadedTypeIsSame` | rsType.cpp:164-206 | the loaded type is the same, up to names, exactly when it has mip levels and plain leaves and neither a YUV format nor arrays |
| `A3DFile.FileA3D.AppendToFile` | rsFileA3D.cpp:361-378 | a named object is written after the others and its entry tells where; entries stay aligned, in order and disjoint |
| `A3DFile.FileA3D.WriteFile` | rsFileA3D.cpp:296-359 | loading the bytes written gives version 0.1, the whole index and the data; there is no file without objects |
| `A3DFile.WriteEntry` | rsFileA3D.cpp:321-333 | both branches on the uninitialised offset flag write the same tokens |
| `A3DFile.WriteHeader` | rsFileA3D.cpp:312-333 | the header holds version, flags, the number of entries and all entries |
| `A3DFile.LoadHeader` | rsFileA3D.cpp:59-82 | reads what the header parser function says |
| `A3DFile.LoadFile` | rsFileA3D.cpp:88-140 | accepts exactly the files that the load function accepts, with the same contents |
| `A3DFile.EntriesRoundTrip` | rsFileA3D.cpp:59-82 | every index comes back entry by entry |
| `A3DFile.FileRoundTrip` | rsFileA3D.cpp:88-140 | a written file loads with its version, index and data |
| `A3DFile.EntryDecodes` | rsFileA3D.cpp:217-248 | each entry decodes to its object up to names, ends where the entry says, is 4-aligned and ends before the next one starts |
| `A3DLoading.CreateTypeFromStream` | rsType.cpp:179-206 | reads one type as the parser function says; what it gives is a cached object if there is one, old objects and names stay, and records stay unique |
| `A3DLoading.LoadedObjWritableIff` | rsType.cpp:179-206 | when records are unique, a loaded object can be written exactly when it was in the caches before, and it and all its parts had names |
| `A3DLoading.Reader.InitializeFromEntry` | rsFileA3D.cpp:217-294 | gives the object that the entry decodes to, the same one on later calls, and nothing for a bad index |
| `A3DLoading.StoreAll` | rsFileA3D.cpp:296-378 | any sequence of named objects that fits gives a file whose entries decode to them one by one |
| `A3DLoading.StoreAndLoad` | rsFileA3D.cpp:88-378 | objects appended, written, loaded and initialised in any context: entry i gives object i, as loaded |
| `Interning.Caches.FindLeaf` | rsElement.cpp:230-248 | a cached element that matches, or none if there is none |
| `Interning.Caches.FindStruct` | rsElement.cpp:275-314 | a cached element whose fields all match, or none if there is none |
| `Interning.Caches.CreateLeaf` | rsElement.cpp:230-273 | an existing match is returned and nothing changes; otherwise a new element joins the cache; unique records stay unique exactly when Component::set leaves the request alone or its record is new |
| `Interning.Caches.CreateStruct` | rsElement.cpp:275-348 | an existing match is returned and nothing changes; otherwise a new element joins the cache; unique records stay unique exactly when every length is that of its name or the record is new |
| `Interning.Caches.GetType` | rsType.cpp:225-294 | the one type with these parameters, made if need be |
| `Interning.Caches.AssignName` | rsContext.cpp:680-684 | the object has that name, and nothing else changes |
| `Interning.Caches.Destroy` | rsElement.cpp:43-51 | the object leaves the memory and its cache, which list exactly the live objects, each once |
| `Interning.Caches.CreateLeafTwice` | rsElement.cpp:230-273 | of two equal component requests the second finds the element of the first, and records stay unique, exactly when Component::set leaves the request alone |
| `Interning.Caches.CreateStructTwice` | rsElement.cpp:275-348 | of two equal structure requests the second finds the element of the first, and records stay unique, exactly when every length is that of its name |
| `Interning.Packed565Twice` | rsElement.cpp:230-273 | a concrete run: two requests for the packed type 565 with vector size 1 give two elements with one record |
| `Interning.StructFindsItself` | rsElement.cpp:284-303 | a stored structure matches its own request exactly when every length is that of its name |
| `Interning.PointersAreStructure` | rsElement.cpp:230-348 | when records are unique, two elements are the same object exactly when they are structurally equal to any depth |
| `Interning.TypePointersAreStructure` | rsType.cpp:225-294 | two types are the same object exactly when they have equal parameters over structurally equal elements |
| `MipLevels.FindHighBit` | rsCppUtils.h:119-127 | the position of the highest bit: 2^bit is the largest power of two not above the number |
| `MipLevels.Compute` | rsType.cpp:74-119 | the extents of every level and the core's cell count |
| `MipLevels.CalcElementCount` | cpp/Type.cpp:34-68 | the client's element count |
| `MipLevels.LevelIsShift` | rsType.cpp:106-114 | level i of a nonzero extent d is d >> i, but at least 1 |
| `MipLevels.LevelAboveOne` | rsType.cpp:76-83 | levels are above 1 exactly below the high bit, so both loops see the same levels |
| `MipLevels.CoreCountIsTrue` | rsType.cpp:104-118 | the core counts all cells of all levels and faces exactly when the first level of a face has fewer than 2^32 |
| `MipLevels.ClientCountIsTrue` | cpp/Type.cpp:34-68 | the client counts all cells exactly when there are fewer than 2^32 |
| `MipLevels.CountsAgree` | cpp/Type.cpp:34-68 | with fewer than 2^32 cells in the first level of a face, the counts agree exactly when all cells are fewer than 2^32, and both are then the number of cells |
| `MipLevels.SmallCountsAgree` | cpp/Type.cpp:34-68 | twice the first level over all faces within 2^32 is enough for both counts to be the number of cells |
| `MipLevels.SingleLevelAgrees` | cpp/Type.cpp:34-68 | without mip levels the counts agree exactly when there are no faces or a face, cut to 32 bits, has at most 715827882 cells |
| `MipLevels.CountsAgreeExactly` | cpp/Type.cpp:34-68 | for all extents the counts agree exactly when the shifted extents, multiplied and cut to 32 bits level by level, add up over all faces to less than 2^32 |
| `MipLevels.CountsCanDiffer` | cpp/Type.cpp:34-68 | six faces of 65536 by 65535 cells are counted differently |
| `MipLevels.CountsWithoutX` | cpp/Type.cpp:34-68 | without a first extent the core counts nothing, and the client nothing exactly when the cells of one column are a multiple of 2^32, or of 2^31 with faces |
| `MipLevels.CountsDifferWithoutX` | cpp/Type.cpp:34-68 | without a first extent and with up to 2^31 cells in all faces of the column the client counts some |
| `MipLevels.CountsCanAgreeWithoutX` | cpp/Type.cpp:34-68 | a column of 65536 by 65536 cells counts as none on both sides |
| `MipLevels.ChainBelowTwice` | rsType.cpp:104-114 | all levels of a face have fewer than twice the cells of its first level |
| `ElementLayout.LeavesAgree` | rsComponent.cpp:75-193 | a plain leaf of at most four components has eight times as many bits in the core as bytes in the client |
| `ElementLayout.PackedIsItsChannels` | rsComponent.cpp:75-92 | a packed type gets one component for each of its channels, whose bits add up to its size; any other component is as it is given |
| `ElementLayout.HiddenIffHash` | rsElement.cpp:185-190 | a field is hidden exactly if its name starts with # |
| `ElementLayout.VisibleFieldsExact` | rsElement.cpp:203-221 | the visible fields are just those whose names do not start with #, in order |
| `ElementLayout.SizesCongruent` | rsElement.cpp:71-81 | on every plain element tree the core's sizes in bits are the client's modulo 2^32, and never above them |
| `ElementLayout.SizesAgree` | rsElement.cpp:71-81 | core and client sizes agree on every plain element tree below 2^32 bits |
| `ElementLayout.SizesAgreeExactly` | rsElement.cpp:71-81 | the sizes of a structure agree exactly when each field has fewer than 2^32 bits |
| `ElementLayout.SizesCanDiffer` | rsElement.cpp:71-81 | a structure of 2^27 floats has no bits in the core and 2^29 bytes in the client |
| `ElementLayout.OffsetsAgree` | cpp/Element.cpp:209-212 | the offsets of a field agree exactly when the client's is below 2^29 |
| `ElementLayout.OffsetsCanDiffer` | cpp/Element.cpp:209-212 | a float after 2^27 floats has offset 0 in the core and 2^29 in the client |
| `ElementLayout.FieldsTile` | rsElement.cpp:202-222 | below 2^32 bits, fields follow each other from 0 to the size without gap or overlap, at the same offsets on both sides |
| `ElementLayout.CoreCompute` | rsElement.cpp:172-228 | offsets, total bits, and the list of visible fields with their offsets |
| `ElementLayout.ClientCompute` | cpp/Element.cpp:148-212 | offsets, total size, and the positions of visible fields |
| `ElementLayout.VisibleAgree` | cpp/Element.cpp:148-175 | the j-th visible field is the same field at the same offset on both sides |
| `PackedData.WritePackedData` | rsAllocation.cpp:371-418 | every cell of the destination has the copied bytes of the source cell, and all other bytes stay |
| `PackedData.CopyCell` | rsAllocation.cpp:408-410 | the fields of one cell are copied one after the other |
| `PackedData.RoundTripByte` | rsAllocation.cpp:371-440 | packing and unpacking a cell restores every copied byte and leaves the others |
| `PackedData.CellRoundTrip` | rsAllocation.cpp:371-440 | packing and unpacking any number of cells works cell by cell |
| `PackedData.SingleRestores` | rsAllocation.cpp:371-440 | without repeated fields every byte that is not padding comes back |
| `PackedData.RestoresIffSingle` | rsAllocation.cpp:371-440 | a cell comes back for all contents exactly when no field has an array size above 1 |
| `PackedData.AllRestoredIffSingle` | rsAllocation.cpp:371-440 | any number of cells come back for all contents exactly when no field has an array size above 1 |
| `PackedData.CopyVec3` | cpp/Allocation.cpp:192-214 | the client's copies with and without padding do what writePackedData does on vectors of three |
| `PackedElements.PartIsGood` | rsComponent.cpp:191-192 | a leaf is not empty, and has padding exactly if it is a vector of three |
| `PackedElements.PackableIffSized` | rsComponent.cpp:75-193 | a component has an unpadded size exactly if its type has a size and it is a vector of one to four |
| `PackedElements.FieldOffsets` | rsElement.cpp:202-206 | the offsets that cells are copied by, with and without padding, are those that Element::compute gives the fields |
| `PackedElements.CellSizes` | rsElement.cpp:71-93 | cells are as large as getSizeBytes and getSizeBytesUnpadded say |
| `PackedElements.CellsRestoredIffNoArrays` | rsAllocation.cpp:371-440 | below 2^32 bits per cell, with parts at the offsets of the element's fields, packing and unpacking restores any number of cells exactly when the element has no array fields |
| `PackedElements.PackedFits` | rsAllocation.cpp:428-440 | packing stays in the buffer it makes exactly when all packed cells have fewer than 2^32 bytes |
| `PackedElements.PackVec3Allocation` | rsAllocation.cpp:428-440 | the new buffer has the packed size and holds the cells without padding |
| `PackedElements.UnpackVec3Allocation` | rsAllocation.cpp:420-426 | the cells of the allocation get the packed bytes, and padding stays |
| `PackedElements.PackAndUnpack` | rsAllocation.cpp:420-440 | without array fields an allocation comes back from packing and unpacking, but for padding |
| `ClientMessages.Channel.SendToClient` | rsThreadIO.cpp:199-215 | header and payload are appended to the stream |
| `ClientMessages.Channel.GetClientHeader` | rsThreadIO.cpp:174-182 | the header is taken from the stream and remembered |
| `ClientMessages.Channel.GetClientPayload` | rsThreadIO.cpp:184-197 | too small a buffer is told RESIZE and nothing is consumed; otherwise the payload is taken from the stream |
| `ClientMessages.Channel.Receive` | cpp/RenderScript.cpp:212-235 | one round of the message loop never gets RESIZE, and gets the next message whole exactly when it has fewer than 2^32 bytes |
| `ClientMessages.StepKeepsInv` | rsContext.cpp:703-710 | every step of senders and client keeps the stream equal to what is sent and not yet read |
| `ClientMessages.ReceivedIsSentPrefix` | rsContext.cpp:703-710 | over all interleavings, messages come out whole and in the order of the mutex, and all of them once nothing is under way |
| `ClientMessages.ResizeLosesNothing` | rsThreadIO.cpp:184-197 | a request with too small a buffer changes nothing, and any other gets exactly the next message |
| `ClientMessages.ThreadProcNeverResizes` | cpp/RenderScript.cpp:212-235 | the room made after peeking is enough for the next message |
| `ClientMessages.ClientIsNotStuck` | rsThreadIO.cpp:174-197 | while no sender is at work and a message is left, the client can read a header or a payload |
| `BucketMap.Map.At` | rsMap.h:55-77 | operator[] gives the node of the key, and adds an entry with a default value exactly if there is none |
| `BucketMap.Map.Read` | rsMap.h:55-77 | a read through operator[] gives the value, and adds a default entry for an absent key |
| `BucketMap.Map.Put` | rsMap.h:55-77 | a write through operator[] updates exactly that key of a finite map |
| `BucketMap.Map.Find` | rsMap.h:143-155 | finds the node with the key and its value, or gives the end exactly when the key is absent |
| `BucketMap.Map.Begin` | rsMap.h:126-135 | stands at the first node, or at the end of an empty map |
| `BucketMap.Map.Next` | rsMap.h:82-101 | moves to the next node in order |
| `BucketMap.Map.Iterate` | rsMap.h:82-135 | terminates, having come by the nodes of all chains in order |
| `BucketMap.IterationVisitsOnce` | rsMap.h:82-135 | the nodes in that order have different keys, exactly those of the map, with their values |
| `Formats.LittleEndian` | rsStream.h:108-117 | numbers are written least significant byte first |
| `Formats.HeadFormat` | rsElement.cpp:107-115 | an element starts with class 3, its name, type, kind, normalisation, vector size and number of fields, at these positions |
| `Formats.StructFormat` | rsElement.cpp:107-121 | a field of a structure is its name, its array size and its element; the component of a structure is the default one |
| `Formats.TypeFormat` | rsType.cpp:164-177 | a type is class 2, its name, its element, three extents and two flags, at these positions |
| `Formats.HeaderFormat` | rsFileA3D.cpp:312-333 | the header of a file is version 0.1, flags, the number of entries, and for each its name, class, offset and length |
| `Formats.FlagFormat` | rsFileA3D.cpp:59-66 | offsets are of 64 bits exactly when the flags are odd |
| `Formats.MagicText` | rsFileA3D.h:26 | a file starts with the text Android3D_ff |
| `Formats.MessageFormat` | rsThreadIO.cpp:199-215 | a message is its command, its length, its user id and its payload |
| `Formats.RecordFormat` | rsThreadIO.cpp:49-76 | a command is its id, its length and its fields |
| `Formats.InlineFormat` | rsg_generator.c:300-319 | a constant pointer becomes an offset and a length, and its data follows the fields |
| `Formats.RawFormat` | rsg_generator.c:300-319 | a pointer to write to is sent as it is, with its length |

## Left out

- FreeType, GL, sockets, file calls, the driver tables and loading of drivers: glyph bitmaps, byte queues and file contents stand in for them, and memory allocation never fails.
- GlyphCache.FontState.RenderUTF: text is given as code points, so UTF-8 decoding is not modelled; only framebuffer mode is, not measuring or drawing into a bitmap.
- GlyphCache.FontState.AppendMeshQuad: positions are integers and do not overflow; texture coordinates, gamma and the colour state are not modelled.
- GlyphCache.FontState.IssueDrawCommand: the shader set-up check is taken to succeed.
- GlyphCache.FontState.FitBitmap: bitmap sizes are small enough that the sum of column and width does not wrap at 32 bits.
- CommandCodec.Stub: pointers and sizes have eight bytes, the sum of all lengths of a call stays below 2^64, and hand-coded and direct entries are not modelled.
- CommandFifo.PlayedIsIssuedPrefix: there is one client thread, streams have no capacity limit, and shutdown, timeouts and the vsync descriptor are not modelled.
- LifetimeSteps.RaceFreeRunIsSafe: caching is modelled for elements; types and samplers follow the same pattern.
- ObjectList.Context.Destroy: what a destructor does besides releasing handles is not modelled; handles are released last to first.
- ScriptGroup.Sort: stands in for the standard sort; every result about schedules holds for any arrangement sorted by order.
- ScriptGroup.Group.Execute: the driver's own execute hook and the binding of field links by a driver are not modelled; allocation of link storage always succeeds.
- Streams.OStream.AddString: strings that would need a second growth, which the source does not do, are excluded.
- Streams.OStream.AddOffset: streams for 64-bit offsets are not modelled, as no output stream is opened that way.
- ElementLoading.CreateFromStream: user reference counts of what is made are not modelled; reading past the end of the data is excluded, as the source does not check for it.
- A3DLoading.StoreAndLoad: objects in the caches are not destroyed meanwhile, as the reader holds a reference to them.
- A3DFile.FileA3D.WriteFile: names have at most 5120 bytes and the data stays below 2^32 bytes; meshes and allocations are not modelled as objects, and the file overload of load is not.
- Interning.Caches.GetType: array extents are not modelled, since the source leaves some of them unset.
- MipLevels.Compute: YUV types are not modelled.
- ElementLayout.ClientCompute: sums of 64 bits are taken as unbounded, and object leaves are not modelled.
- PackedData.WritePackedData: fields are leaves with a defined unpadded size, repeated at least once, and offsets do not overflow; a field that is a structure itself, which the source copies as one block of its unpadded size, is not modelled.
- PackedElements.PackVec3Allocation: appending the buffer to the stream, and the rest of the serial form of allocations, are not modelled.
- ClientMessages.ReceivedIsSentPrefix: payloads have fewer than 2^32 bytes, beyond which the header does not tell their length.
- Matrices, font metrics in floating point, script intrinsics' argument checks, script kernels themselves, samplers, programs, meshes, animations, closures and the Java and HIDL layers are not modelled.
- Error reporting, logging and debug dumps are not modelled.
