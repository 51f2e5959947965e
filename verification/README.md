# Models of the shared-cache builder, the run loop, the image loader and fishhook

This project models the algorithms at the core of four components and proves what they guarantee over all inputs,
runs and histories. `dafny verify dfyconfig.toml` checks everything. Automatic induction is off wherever Dafny would
apply it: every inductive step is written out.

**Export tries** (`Uleb`, `Trie*`). `TrieModel` describes the trie as a value, `TrieNode` as the node objects that
`addSymbol` rewires in place; every heap method is tied to the value. `TrieOrder` is the order of the nodes,
`TrieLayout` and `TrieWriter` the loop that settles the offsets, `TrieStream` the bytes, `TrieParse` the recursive
reader with its shared name buffer. `TrieRoundTrip` connects writer and reader with an if-and-only-if: the format
loses entries exactly when the one-byte child count overflows, and `TrieFull` says for which lists that happens.
`TrieSize` gives a bound a caller can compute under which the offsets fit in 32 bits, and `TrieLimits` says what both
mean for callers: ASCII names always come back, and a list that does not. `TrieUnique` says that the bytes alone
determine what is read. The number format is "Variable Length Data", section 7.6 of the
DWARF Debugging Information Format.

**Cache layout and rebasing** (`CacheLayout`, `SharedCache`, `LayoutExact`, `CacheTheorems`, `Segments`, `Rebase`,
`RebaseOpcodes`, `RebaseTable`, `CodeUpdate`, `LinkEdit`, `Exports`). Three passes give every segment an address,
`LayoutExact` says which one in closed form; the theorems say when segments keep apart in memory and in the file and
that the reader finds what the builder wrote. `Rebase` proves that a pointer moved with its segment designates the
same byte, `RebaseOpcodes` that the opcode interpreter does this for the flat table its instructions stand for, and
`RebaseTable` that instructions made for any table stand for it. `Exports` joins tries and slides: an export is found
where its segment went. `LinkEdit` is the memory of the builder in which the rebuilt exports lie, and the 32-bit
offset through which they are found again. `CodeUpdate` joins the layout of ppc data and the update that patches one
half of a distance.

Rebuilt exports that outgrow their place move to a block of their own, whose distance from the link-edit base is stored
in 32 bits. `copyExportInfo` takes the stored offset as a signed number and copes with a block on either side. The
binder takes it as unsigned: in a 64-bit process it finds a block above the base and misses every block below, by 4 GB
(`LinkEdit.BlockFound`, `LinkEdit.BlockMissed`). So `Exports.RebaseThenBind` has the condition that no block below the
base is used in a 64-bit process. For bytes that stay in place it is the other way round: the binder finds them
anywhere, `copyExportInfo` below 2 GB or in a 32-bit process (`LinkEdit.PlaceFound`).

**The run loop** (`WakeUp`, `Timers`, `RunLoopItems`, `Blocks`). `WakeUp` is the sleep and wake protocol as a state
machine over the critical sections of the runner, of any number of stopping threads and of the timeout. The other three
are the data structures, updated in place, with an invariant that every operation keeps and that therefore holds over
every history: sorted timer arrays with back references, source bags and observer counts, and the linked queue of
blocks.

**Images** (`ImageOrder`, `WeakSymbols`, `WeakWalk`, `WeakBind`, `SharedDylibs`). Depths and initialisation order over
an acyclic dependency graph; the walk that coalesces weak symbols over the sorted symbol streams of all images; the
memoised search for the libraries that can go into the cache.

**fishhook** (`Fishhook`). Repeated rebinding calls over a fixed set of images.

Where the code does less than its documentation or its callers may expect, the code is modelled as it is, and a lemma
gives the exact condition or an input that shows the difference: the one-byte child count (`TrieFull`, `TrieLimits`),
flags narrowed to 32 bits (`TrieRoundTrip`), libraries marked as shareable before they are checked
(`SharedDylibs.AlwaysExactIff`), a strong symbol without an address (`WeakSymbols.ZeroStrongHides`,
`WeakBind.ProcessedExactly`), images loaded after a rebinding (`Fishhook.LateImage`), data segments that the layout
takes for import segments (`CodeUpdate.AcceptedExactly`), slots too narrow for the moved address
(`Rebase.MeaningPreserved`; on x86_64 all 32-bit ones, `CacheTheorems.NoneHoldable`), segments at the top of the address
space (`Rebase.TopIsLost`), rebuilt exports below the link-edit base (`LinkEdit.BlockFound`), wake-ups that are dropped
while they are ignored (`WakeUp.DroppedWakeUps`).

Preconditions that remain are what the code relies on: names are NUL-free, pairwise distinct and shorter than the
4000-byte buffer; input bytes are well-formed; the cache region does not wrap around the address space; slots to rebase
do not overlap; the read-only and writable regions of the cache do not run into each other, which
`CacheTheorems.ApartExactly` and `CacheTheorems.OverlapForeseen` turn into conditions on the sizes of the segments;
rebuilt exports stay below 4 GB; dependency graphs are acyclic where depths and initialisation are concerned; symbol
streams ascend; rebindings have cells of their own for old values; a mode holds fewer than 2^29 timers, beyond which the
search step overflows the 32-bit integer it is computed in. Clocks, the results of waits and the effects of callouts are
parameters.

## Model

| member | source | states |
|---|---|---|
| Uleb.EncodeIsGroup | dyld-132.13/launch-cache/MachOTrie.hpp:161-171 | the canonical group of any number is a well-formed group (continuation bits on all bytes but the last) and decodes to that number |
| Uleb.Example | dyld-132.13/launch-cache/MachOTrie.hpp:161-171 | the number 624485 of the standard: written and read as E5 8E 26 |
| Uleb.SizeIsLength | dyld-132.13/launch-cache/MachOTrie.hpp:179-187 | the number of seven-bit shifts until zero is the number of bytes of the canonical group |
| Uleb.SizeOfWord | dyld-132.13/launch-cache/MachOTrie.hpp:179-187 | 32-bit values take at most five bytes and 64-bit values at most ten |
| Uleb.Uleb128Size | dyld-132.13/launch-cache/MachOTrie.hpp:179-187 | the do-while loop computes the length of the canonical group |
| Uleb.AppendUleb128 | dyld-132.13/launch-cache/MachOTrie.hpp:161-171 | appends exactly the canonical group |
| Uleb.ReadUleb128 | dyld-132.13/launch-cache/MachOTrie.hpp:191-209 | reads any well-formed group of at most ten bytes whose value fits in 64 bits, answers every other group with "too big", and "past the end" only if no group ends in the bytes |
| Uleb.DigitFits | dyld-132.13/launch-cache/MachOTrie.hpp:199-204 | the digit or-ed in never overlaps the digits read so far, so bitwise or is addition and nothing is lost |
| TrieModel.InsertNames | dyld-132.13/launch-cache/MachOTrie.hpp:55-96 | storing a name adds exactly that name to the names of terminal nodes |
| TrieModel.InsertGood | dyld-132.13/launch-cache/MachOTrie.hpp:55-96 | edge splitting and empty edges keep every earlier name reachable: the routing invariant (earlier siblings share no first byte, an empty edge is last, a new terminal node is a leaf) survives |
| TrieModel.InsertPreorder | dyld-132.13/launch-cache/MachOTrie.hpp:55-96 | insertion adds one terminal node with its address and flags and changes no other |
| TrieModel.InsertDistinct | dyld-132.13/launch-cache/MachOTrie.hpp:72-95 | no node is shared between two places after a splice |
| TrieModel.InsertAfterSplice | dyld-132.13/launch-cache/MachOTrie.hpp:66-85 | splicing a node into an edge and then storing below it is the same insertion |
| TrieModel.TargetOfName | dyld-132.13/launch-cache/MachOTrie.hpp:98-114 | a lookup that follows the first edge that is a prefix ends at the terminal node of the stored name |
| TrieModel.EveryNodeVisited | dyld-132.13/launch-cache/MachOTrie.hpp:232-235 | every node lies on the path of some stored name, so walking the names orders all nodes |
| TrieModel.InsertAged | dyld-132.13/launch-cache/MachOTrie.hpp:89-95 | older names stay in front of younger ones among siblings and above them on paths |
| TrieModel.OlderOnPath | dyld-132.13/launch-cache/MachOTrie.hpp:98-114 | a terminal node met on the way to a name holds that name or an older one |
| TrieBuild.TrieOfBuilt | dyld-132.13/launch-cache/MachOTrie.hpp:221-228 | storing a list of distinct names gives a trie with exactly these terminal nodes, each reachable, in age order |
| TrieNode.Node.FindEdge | dyld-132.13/launch-cache/MachOTrie.hpp:57-68 | the scan stops at the first edge that has a first byte in common with the rest of the name, or is empty, and finds the longest common prefix |
| TrieNode.Node.SpliceEdge | dyld-132.13/launch-cache/MachOTrie.hpp:68-83 | rewires the edge in place: only this node and the new one change |
| TrieNode.Node.AddLeaf | dyld-132.13/launch-cache/MachOTrie.hpp:89-95 | appends a new terminal child; nothing else in the heap changes |
| TrieNode.Node.AddSymbol | dyld-132.13/launch-cache/MachOTrie.hpp:55-96 | the heap of nodes follows the functional insertion, for every shape of trie; nodes outside the subtree are untouched |
| TrieNode.Node.AddOrderedNodes | dyld-132.13/launch-cache/MachOTrie.hpp:98-114 | appends the nodes of the path that were not yet in the order, and marks exactly those |
| TrieNode.Node.UpdateOffset | dyld-132.13/launch-cache/MachOTrie.hpp:120-137 | stores the offset, reports whether it changed, and passes on the position behind the node, computed with the old offsets of its children |
| TrieNode.Node.AppendToStream | dyld-132.13/launch-cache/MachOTrie.hpp:139-158 | appends the size, flags, address, one-byte child count and edges of the node |
| TrieOrder.OrderComplete | dyld-132.13/launch-cache/MachOTrie.hpp:230-235 | the order starts with the root and lists every node once |
| TrieOrder.LeavesInOrder | dyld-132.13/launch-cache/MachOTrie.hpp:230-235 | terminal nodes come in input order, however edges were split |
| TrieLayout.PassMonotone | dyld-132.13/launch-cache/MachOTrie.hpp:239-247 | a pass is monotone in the offsets it starts from |
| TrieLayout.StableIsFixed | dyld-132.13/launch-cache/MachOTrie.hpp:239-247 | if a pass changes nothing, every offset is the position the node is written at |
| TrieLayout.CappedPass | dyld-132.13/launch-cache/MachOTrie.hpp:120-137 | offsets stay below the fixed bytes plus five per edge |
| TrieLayout.LayoutExists | dyld-132.13/launch-cache/MachOTrie.hpp:239-247 | if that bound is below 2^32, a right layout exists |
| TrieLayout.PassBelowFixed | dyld-132.13/launch-cache/MachOTrie.hpp:239-247 | passes never overtake a right layout |
| TrieLayout.SlackDrops | dyld-132.13/launch-cache/MachOTrie.hpp:239-247 | each pass that changes something uses up some of a bounded measure: the loop ends |
| TrieStream.StreamChunk | dyld-132.13/launch-cache/MachOTrie.hpp:249-251 | in the stream every node begins at its computed start |
| TrieStream.StreamEncodes | dyld-132.13/launch-cache/MachOTrie.hpp:139-158 | with a right layout every node lies at its own offset and every child offset written is where the child lies |
| TrieWriter.OnePass | dyld-132.13/launch-cache/MachOTrie.hpp:241-246 | one round of the loop is one pass, and reports exactly whether any offset changed |
| TrieWriter.AssignOffsets | dyld-132.13/launch-cache/MachOTrie.hpp:237-247 | the do-while loop terminates, with every node at its offset, in the least such layout |
| TrieMake.BuildNodes | dyld-132.13/launch-cache/MachOTrie.hpp:223-228 | the first loop builds the trie of the whole input |
| TrieMake.OrderNodes | dyld-132.13/launch-cache/MachOTrie.hpp:230-235 | the second loop yields the order of the paths |
| TrieMake.MakeTrie | dyld-132.13/launch-cache/MachOTrie.hpp:221-252 | appends the bytes of the least right layout of the input |
| TrieParse.CopyEdge | dyld-132.13/launch-cache/MachOTrie.hpp:281-287 | the edge string goes behind the name read so far in the shared buffer, with its terminator; the bytes before it stay |
| TrieParse.ReadInfo | dyld-132.13/launch-cache/MachOTrie.hpp:266-279 | reports the name in the buffer with flags and address if the node is terminal, and finds the child count |
| TrieParse.ProcessExportNode | dyld-132.13/launch-cache/MachOTrie.hpp:264-291 | on an encoded trie reports the exports below a node in depth-first order, with one shared, overwritten buffer |
| TrieRoundTrip.SortUnique | dyld-132.13/launch-cache/MachOTrie.hpp:303-304 | sorting by distinct node offsets has one result |
| TrieRoundTrip.ParseTrie | dyld-132.13/launch-cache/MachOTrie.hpp:294-309 | reports what the walk found in the order of node offsets |
| TrieRoundTrip.ParsedNarrow | dyld-132.13/launch-cache/MachOTrie.hpp:285-290 | when child counts fit in a byte the walk finds every terminal node |
| TrieRoundTrip.LeavesAscend | dyld-132.13/launch-cache/MachOTrie.hpp:303-308 | in a right layout, offsets of terminal nodes ascend in input order |
| TrieRoundTrip.RoundTrip | dyld-132.13/launch-cache/MachOTrie.hpp:221-309 | parsing gives back the same names, addresses and flags in the same order if and only if no name is stored after names extending it by all 255 bytes and all flags are below 2^32; in the first exceptional case entries are lost, in the second flags are narrowed |
| TrieRoundTrip.WriteAndRead | dyld-132.13/launch-cache/MachOTrie.hpp:221-309 | the same for makeTrie followed by parseTrie, whatever bytes follow the trie |
| TrieFull.NarrowExactly | dyld-132.13/launch-cache/MachOTrie.hpp:150-151 | the one-byte child count is enough exactly unless some name comes after names extending it by each of the 255 bytes |
| TrieFull.InsertFills | dyld-132.13/launch-cache/MachOTrie.hpp:150-151 | such a name makes some node have 256 children |
| TrieFull.FullSomewhere | dyld-132.13/launch-cache/MachOTrie.hpp:150-151 | and a node with 256 children comes from such a name |
| TrieSize.InsertWeight | dyld-132.13/launch-cache/MachOTrie.hpp:89-95 | storing a name adds at most its length and 31 bytes |
| TrieSize.FitsBySize | dyld-132.13/launch-cache/MachOTrie.hpp:237-247 | when the names and 31 bytes each together stay below 2^32, makeTrie terminates with 32-bit offsets |
| TrieLimits.AsciiNotOverfull | dyld-132.13/launch-cache/MachOTrie.hpp:150-151 | a list whose name bytes are all below 128 never makes a child count overflow |
| TrieLimits.AsciiRoundTrip | dyld-132.13/launch-cache/MachOTrie.hpp:221-309 | so a list of such names with flags below 2^32 comes back unchanged from every right layout |
| TrieLimits.WriteAndReadAscii | dyld-132.13/launch-cache/MachOTrie.hpp:221-309 | and makeTrie followed by parseTrie is the identity on it, when the names and 31 bytes each together stay below 2^32 |
| TrieLimits.FullListOverfull | dyld-132.13/launch-cache/MachOTrie.hpp:150-151 | the names c+[1], ..., c+[255], c are storable, small enough and overflow the child count, for every c that leaves room for one more byte |
| TrieLimits.FullListLoses | dyld-132.13/launch-cache/MachOTrie.hpp:150-151 | and what is read back of their 256 entries is fewer, however the entries are sorted |
| Segments.GetSlideForVMAddress | dyld-132.13/launch-cache/MachORebaser.hpp:299-310 | the slide of the first segment that holds the address, in pointer width; the exception exactly if none does |
| Exports.WriteExports | dyld-132.13/launch-cache/MachORebaser.hpp:420-426 | the rebuilt bytes are those of the least right layout, filled up with zeros to a multiple of the pointer size, and no longer than a caller can compute |
| Exports.RebuiltOnce | dyld-132.13/launch-cache/MachORebaser.hpp:420-426 | so a list is rebuilt to one sequence of bytes |
| Exports.FilledUp | dyld-132.13/launch-cache/MachORebaser.hpp:424-426 | they are the bytes of makeTrie and behind them zeros up to the next multiple of four bytes, or of eight for a 64-bit architecture |
| Exports.RebuiltLists | dyld-132.13/launch-cache/MachORebaser.hpp:420-426 | those bytes list the exports they were made from, flags narrowed, if and only if no child count overflows |
| Exports.ListsOnce | dyld-132.13/launch-cache/MachOTrie.hpp:264-309 | the bytes of a section alone determine the exports it lists, whichever trie they were laid out from |
| Exports.ReadExports | dyld-132.13/launch-cache/MachORebaser.hpp:390-399 | whatever trie a section starts with, by whichever writer, its exports are read in the order of their nodes |
| Exports.StreamLists | dyld-132.13/launch-cache/MachOTrie.hpp:221-309 | the bytes of makeTrie, and whatever follows them, are such a section |
| LinkEdit.ExportInfo.Replace | dyld-132.13/launch-cache/MachORebaser.hpp:428-450 | the exception exactly if the new bytes are longer and find no block, or none whose distance fits in 32 signed bits, and then the old bytes are still in force; otherwise the new bytes lie in their place, with zeros behind them if they fit there; the stored 32-bit offset leads the binder to them if and only if they fit in place, the process is a 32-bit one or the distance is not negative, and copyExportInfo if and only if they moved, the process is a 32-bit one or the offset is below 2^31 |
| LinkEdit.BlockFound | dyld-132.13/launch-cache/update_dyld_shared_cache.cpp:1290-1300 | a block within 32 signed bits of the link-edit base: the signed reader of the stored offset finds it, the unsigned one exactly in a 32-bit process or if the distance is not negative |
| LinkEdit.NearExactly | dyld-132.13/launch-cache/MachORebaser.hpp:437-441 | the distances that can be stored are exactly those that some 32-bit offset stands for as a signed number |
| LinkEdit.BlockMissed | dyld-132.13/launch-cache/MachOBinder.hpp:166-166 | at every negative distance the 64-bit binder reads 4 GB above the block |
| LinkEdit.PlaceFound | dyld-132.13/launch-cache/update_dyld_shared_cache.cpp:1290-1300 | bytes that did not move: both readers agree exactly in a 32-bit process or below 2^31 |
| LinkEdit.BlockBelowIsLost | dyld-132.13/launch-cache/MachORebaser.hpp:430-443 | a run whose block lies 4096 bytes below the base: it succeeds, the new bytes are in memory, copyExportInfo would find them, and the binder is sent to an address where nothing is mapped |
| Exports.AdjustEntries | dyld-132.13/launch-cache/MachORebaser.hpp:403-418 | linker-only names go, the others move by the difference between their slide and the base slide; fails at the first address in no segment |
| Exports.AdjustExportInfo | dyld-132.13/launch-cache/MachORebaser.hpp:382-451 | for a section laid out by any writer: nothing to do for an empty one; the exception exactly if an address lies in no segment or the rebuilt bytes find no place that can be stored, and then nothing is lost; otherwise the rebuilt bytes replace the old ones |
| Exports.RebaseExports | dyld-132.13/launch-cache/MachORebaser.hpp:390-418 | the first half: the exports read and moved, or the exception exactly if an address lies in no segment; storable names stay storable and no child count overflows that did not before |
| Exports.BuildTable | dyld-132.13/launch-cache/MachOBinder.hpp:163-174 | the hash table has one entry per export that the section at the unsigned offset lists, its offset plus the new base address; of a section with an overflowed child count, per export that the parser still reports |
| Exports.RebaseThenBind | dyld-132.13/launch-cache/MachOBinder.hpp:163-174 | rebasing a dylib and then binding against it, under the condition that the binder looks where the new bytes went: the table is that of the rebased exports, of which the next lemmas speak, if and only if no child count of the rebased exports overflows |
| Exports.CopyExportInfo | dyld-132.13/launch-cache/update_dyld_shared_cache.cpp:1290-1300 | the bytes at the signed offset are copied and the offset advanced, unless the stored offset is 0 |
| Exports.RebaseThenCopy | dyld-132.13/launch-cache/update_dyld_shared_cache.cpp:1290-1300 | rebasing a dylib and then copying its exports: the copy is the rebuilt bytes, and lists the rebased exports if and only if no child count overflows |
| TrieUnique.SameParsed | dyld-132.13/launch-cache/MachOTrie.hpp:264-309 | two tries that the same bytes encode from the same place on list the same exports |
| TrieMake.LeastOnce | dyld-132.13/launch-cache/MachOTrie.hpp:221-309 | makeTrie can write only one sequence of bytes for a list |
| TrieSize.LeastSize | dyld-132.13/launch-cache/MachOTrie.hpp:237-247 | and it is no longer than the names and 31 bytes each together |
| Exports.SlideArithmetic | dyld-132.13/launch-cache/MachORebaser.hpp:403-416 | the 64-bit and pointer-width additions compose to the original address plus the slide |
| Exports.ExportSurvives | dyld-132.13/launch-cache/MachORebaser.hpp:403-418 | for every export: a linker-only name is absent from the binder table; any other is found at its original address plus the slide of its segment, in pointer width |
| Exports.NothingElse | dyld-132.13/launch-cache/MachOBinder.hpp:163-174 | the binder table holds no other names |
| Exports.LinkerNamesAbsent | dyld-132.13/launch-cache/MachORebaser.hpp:407-412 | no name that begins with the bytes of "$ld$", ".objc_class_name" or ".objc_category_name" is in the table, whatever follows them |
| Exports.OtherNamesPresent | dyld-132.13/launch-cache/MachORebaser.hpp:407-416 | every export whose name begins with none of the three, in particular with neither a dollar sign nor a dot, is in the table, at the address it was linked at plus the slide of its segment |
| CacheLayout.MovesInSteps | dyld-132.13/launch-cache/update_dyld_shared_cache.cpp:769-774 | on ppc the chosen data address makes the change of the code-to-data distance a multiple of 64K |
| CacheLayout.WritableAddress | dyld-132.13/launch-cache/update_dyld_shared_cache.cpp:762-774 | the chosen address is at least the proposed one and less than 64K above it |
| CacheLayout.PlaceOne | dyld-132.13/launch-cache/update_dyld_shared_cache.cpp:786-818 | which segments the first pass places, where, and when it throws |
| CacheLayout.PlaceTextAndData | dyld-132.13/launch-cache/update_dyld_shared_cache.cpp:783-819 | text and data segments of a dylib lie in order on pages of their own; on ppc every data segment moves like the last text segment before it |
| CacheLayout.PlaceReadOnlyAndImport | dyld-132.13/launch-cache/update_dyld_shared_cache.cpp:827-842 | read-only and import segments are packed, all other segments keep their addresses |
| CacheLayout.PlaceLinkEdit | dyld-132.13/launch-cache/update_dyld_shared_cache.cpp:847-859 | link-edit segments are packed behind them, all others keep their addresses |
| SharedCache.ThreePasses | dyld-132.13/launch-cache/update_dyld_shared_cache.cpp:778-860 | every segment is placed in the region of its kind, the regions follow each other without wasted pages, and the throw happens exactly when a split dylib has data before any text |
| SharedCache.Cache.AssignNewBaseAddresses | dyld-132.13/launch-cache/update_dyld_shared_cache.cpp:777-916 | the whole layout, the link-edit bounds and the mappings |
| SharedCache.Cache.PopulateMappings | dyld-132.13/launch-cache/update_dyld_shared_cache.cpp:863-915 | the mappings that belong to the regions, in file order; one header mapping if the cache is empty |
| SharedCache.Cache.CacheFileOffsetForAddress | dyld-132.13/launch-cache/update_dyld_shared_cache.cpp:919-927 | the file offset through the first mapping that holds the address, the exception exactly if none does |
| SharedCache.MappedAddress | dyld-132.13/launch-cache/dsc_iterator.cpp:38-49 | the reader finds the same file offset as the builder |
| LayoutExact.PlacedExactly | dyld-132.13/launch-cache/update_dyld_shared_cache.cpp:777-860 | the three passes put every segment at the address that a sum of page-aligned sizes gives, whatever new addresses the segments had before: the start of its kind, the pages of the dylibs before and of the segments before it; on ppc outside the writable region |
| LayoutExact.ExactAddress | dyld-132.13/launch-cache/update_dyld_shared_cache.cpp:827-859 | in a region without gaps every segment lies directly behind the pages before it |
| LayoutExact.FirstAddresses | dyld-132.13/launch-cache/update_dyld_shared_cache.cpp:648-656 | where the first text and the first data segment go on each architecture, in figures |
| CacheTheorems.SegmentsDisjoint | dyld-132.13/launch-cache/update_dyld_shared_cache.cpp:777-860 | no two segments of the cache that are not empty overlap, whatever dylibs and kinds they belong to, if no two regions have a byte in common |
| CacheTheorems.OverlapExactly | dyld-132.13/launch-cache/update_dyld_shared_cache.cpp:777-860 | except on ppc, two segments have a byte in common if and only if the regions of two kinds have |
| CacheTheorems.OverlapForeseen | dyld-132.13/launch-cache/update_dyld_shared_cache.cpp:777-860 | and whether they have can be told from the sizes of the segments before the layout |
| CacheTheorems.ApartExactly | dyld-132.13/launch-cache/update_dyld_shared_cache.cpp:777-860 | the two regions keep apart if and only if the region that comes first in memory has room for the page-aligned sizes of its segments, which can be checked before the layout |
| CacheTheorems.InMapping | dyld-132.13/launch-cache/update_dyld_shared_cache.cpp:863-904 | a segment lies inside one mapping, behind the 0x3000 header bytes |
| CacheTheorems.ByProtection | dyld-132.13/launch-cache/update_dyld_shared_cache.cpp:786-859 | which region a segment is placed in, by its protections, its name and whether its dylib has split-segment information |
| CacheTheorems.MappedExactly | dyld-132.13/launch-cache/update_dyld_shared_cache.cpp:863-904 | an address is mapped exactly if it belongs to the header, the text and what follows it, the data or the imports |
| SharedCache.MappingsTile | dyld-132.13/launch-cache/update_dyld_shared_cache.cpp:863-915 | the mappings tile the file: the first begins at 0, each begins where the one before it ends |
| CacheTheorems.SegmentInFile | dyld-132.13/launch-cache/update_dyld_shared_cache.cpp:919-927 | the bytes of a segment are contiguous in the file behind the header, for builder and reader alike |
| CacheTheorems.FilesDisjoint | dyld-132.13/launch-cache/update_dyld_shared_cache.cpp:863-927 | distinct segments share no byte of the file |
| CacheTheorems.EmptyExactly | dyld-132.13/launch-cache/update_dyld_shared_cache.cpp:865-915 | the cache is the empty one exactly if no dylib has a text segment that is not empty |
| CacheTheorems.HeaderRecorded | dyld-132.13/launch-cache/update_dyld_shared_cache.cpp:809-812 | the address recorded for a dylib is that of its first text segment after the layout |
| CacheTheorems.LayoutSuitsRebasing | dyld-132.13/launch-cache/update_dyld_shared_cache.cpp:777-860 | what the layout gives is what pointer translation needs |
| Rebase.DoRebase | dyld-132.13/launch-cache/MachORebaser.hpp:569-593 | one slot is moved by the slide of the segment its value points into, or nothing changes and the exception is raised; digit by digit, the bytes spell the old number before and the moved one afterwards |
| Rebase.GetSpells | dyld-132.13/launch-cache/MachORebaser.hpp:577-591 | the number read from some bytes is the one whose base-256 digits they are: the byte at index i weighs 256^i in little-endian order, and in big-endian order the last one weighs 1 |
| Rebase.PutSpells | dyld-132.13/launch-cache/MachORebaser.hpp:577-591 | and the bytes written are the digits of the number |
| Rebase.ByteOrders | dyld-132.13/launch-cache/MachORebaser.hpp:577-591 | a pointer 0x2010 into a segment that moves from 0x2000 to 0xA0000000, in the bytes of a little-endian and of a big-endian machine, before and after |
| Rebase.OutsideUnchanged | dyld-132.13/launch-cache/MachORebaser.hpp:609-671 | a byte outside every listed slot keeps its value |
| Rebase.EverySlotMoved | dyld-132.13/launch-cache/MachORebaser.hpp:609-671 | every listed slot holds its first value, moved once |
| Rebase.EverySlotBytes | dyld-132.13/launch-cache/MachORebaser.hpp:609-671 | in the bytes of memory, by their weights: a listed slot that spells a number before the run spells the moved number after it |
| Rebase.SucceedsExactly | dyld-132.13/launch-cache/MachORebaser.hpp:299-310 | a run fails exactly if some listed value points into no segment |
| Rebase.SameByte | dyld-132.13/launch-cache/MachORebaser.hpp:313-337 | a moved pointer designates through the new addresses the byte the old one designated through the old addresses |
| Rebase.MeaningPreserved | dyld-132.13/launch-cache/MachORebaser.hpp:313-337 | after a whole run, and for slots of every kind, a slot holds the moved address if and only if it is wide enough for it; then it designates the same byte as before, and otherwise, if the mapped ranges of the segments are distinct, it does not |
| Rebase.NarrowSlot | dyld-132.13/launch-cache/MachORebaser.hpp:583-586 | a 64-bit run with a 32-bit slot that designates the first byte of a segment before, and that byte no more afterwards |
| CacheTheorems.NoneHoldable | dyld-132.13/launch-cache/MachORebaser.hpp:583-586 | after the x86_64 layout no 32-bit slot can hold the address it is to be given, wherever it points |
| Rebase.TopIsLost | dyld-132.13/launch-cache/MachORebaser.hpp:299-324 | a segment that ends at the top of the 64-bit address space is lost to the lookups: its end wraps to 0, the slide is found for its first address only and the translation for none |
| RebaseOpcodes.RebaseRun | dyld-132.13/launch-cache/MachORebaser.hpp:642-654 | the loops of the DO_REBASE instructions rebase their slots one after the other, with 64-bit offsets that wrap |
| RebaseOpcodes.SetRegisters | dyld-132.13/launch-cache/MachORebaser.hpp:629-641 | the instructions that only change type, segment or offset |
| RebaseOpcodes.Execute | dyld-132.13/launch-cache/MachORebaser.hpp:642-666 | the four instructions that rebase do what the flat table lists for them |
| RebaseOpcodes.ApplyRebaseInfo | dyld-132.13/launch-cache/MachORebaser.hpp:609-671 | the interpreter does exactly what rebasing the flat table of its instructions does, and fails exactly when that fails |
| RebaseTable.CompiledTable | dyld-132.13/launch-cache/MachORebaser.hpp:621-666 | instructions made for any list of slots from the differences of their offsets, with runs, equal gaps, short and long skips, list exactly these slots |
| RebaseTable.ApplyCompiled | dyld-132.13/launch-cache/MachORebaser.hpp:609-671 | and the interpreter on the bytes of such instructions, whatever follows them, rebases exactly these slots |
| RebaseTable.CountsNarrowed | dyld-132.13/launch-cache/MachORebaser.hpp:645-664 | counts and gaps are taken modulo 2^32 |
| RebaseTable.EveryInstruction | dyld-132.13/launch-cache/MachORebaser.hpp:609-671 | a stream of fifteen bytes with every instruction, and the six slots the interpreter rebases for it on a 64-bit machine |
| CodeUpdate.CodeToDeltas | dyld-132.13/launch-cache/MachORebaser.hpp:548-560 | the data delta is that of the last writable segment not named __IMPORT, the import delta that of the last one with that name, or 0 |
| CodeUpdate.UnequalSlides | dyld-132.13/launch-cache/MachORebaser.hpp:174-184 | tells whether some segment moves by another distance than the first |
| CodeUpdate.DoCodeUpdate | dyld-132.13/launch-cache/MachORebaser.hpp:455-498 | the four kinds of update, the 64K check and both exceptions, with the address narrowed to the pointer width; nothing changes on failure; digit by digit, the word spells the old number before and the new one afterwards, for kind 3 always in big-endian order |
| CodeUpdate.HighHalfMoves | dyld-132.13/launch-cache/MachORebaser.hpp:476-488 | adding the delta to the high half alone moves the distance that high and signed low half encode by the delta, modulo 2^32, and leaves the opcode half alone |
| CodeUpdate.CodeReaches | dyld-132.13/launch-cache/MachORebaser.hpp:464-495 | a pointer-wide reference from code to a byte of the data segment, or for kind 4 of the import segment, leads after the layout and the update from where the code went to the same byte |
| CodeUpdate.NearReference | dyld-132.13/launch-cache/MachORebaser.hpp:464-469 | so does a signed 32-bit distance in 64-bit code, as long as the new distance fits |
| CodeUpdate.PairReaches | dyld-132.13/launch-cache/MachORebaser.hpp:476-488 | and a pair of ppc instructions of which only the one with the high half is updated |
| CodeUpdate.PpcDeltaAccepted | dyld-132.13/launch-cache/MachORebaser.hpp:548-560 | for a page-aligned ppc dylib with one text segment first, the delta of every segment placed as data is a multiple of 64K |
| CodeUpdate.LayoutAccepted | dyld-132.13/launch-cache/MachORebaser.hpp:478-479 | so wherever the builder places a dylib, the delta of its last data segment is, if that segment is placed as data |
| CodeUpdate.ImportPlaced | dyld-132.13/launch-cache/update_dyld_shared_cache.cpp:827-842 | if it is placed with the imports, what 64K leave of the delta is determined by the pages of text and imports before it |
| CodeUpdate.AcceptedExactly | dyld-132.13/launch-cache/MachORebaser.hpp:548-560 | the delta of a dylib is a multiple of 64K in every list of dylibs that the builder lays out if and only if its last segment that counts as data is not executable: an executable one by another name than __IMPORT is placed with the import segments; then running the builder on the dylib alone, or behind a dylib of one import page, gives a delta that is rejected |
| CodeUpdate.OutOfStep | dyld-132.13/launch-cache/MachORebaser.hpp:548-560 | a dylib of one page of text and one of executable data: the builder places it so that its delta is 0xC000 more than a multiple of 64K |
| CodeUpdate.AdjustCode | dyld-132.13/launch-cache/MachORebaser.hpp:526-567 | nothing happens unless the dylib has split-segment information and its segments move by different distances; otherwise the updates are made with both deltas, all of them exactly if each one alone is accepted, and under the condition above the 64K rejection never occurs |
| CodeUpdate.SkippedUpdates | dyld-132.13/launch-cache/MachORebaser.hpp:529-529 | the guard loses nothing: where all segments move alike, the updates it skips would leave every byte as it is |
| CodeUpdate.SplittingExactly | dyld-132.13/launch-cache/MachORebaser.hpp:165-165 | code is updated exactly if the dylib has split-segment information and the distance of some segment to the first one changes |
| WakeUp.SafeStep | CFRunLoop/CFRunLoop.c:2405-2746 | every step of the runner, the stoppers, the timeout and the wake-ups keeps the invariant |
| WakeUp.SafeAlways | CFRunLoop/CFRunLoop.c:2405-2746 | the invariant holds in every state of every run |
| WakeUp.NoLostStop | CFRunLoop/CFRunLoop.c:2820-2866 | whenever the runner is blocked in its wait with a stop flag or an expired timeout, a wake-up is pending or some thread is about to send it |
| WakeUp.WaitEnds | CFRunLoop/CFRunLoop.c:2820-2866 | once all threads have finished, the wait can end |
| WakeUp.FlagStays | CFRunLoop/CFRunLoop.c:2841-2866 | a stop flag stays set until the run returns |
| WakeUp.LastRound | CFRunLoop/CFRunLoop.c:2712-2746 | the next time the flags are looked at after a stop, the run returns |
| WakeUp.OneStopUsed | CFRunLoop/CFRunLoop.c:2408-2414 | a run that was stopped both by the run loop and by the mode and returns as stopped has used up the first only; the flag of the mode stays set from then on |
| WakeUp.SecondStopEndsNext | CFRunLoop/CFRunLoop.c:2408-2414 | so the next run of the mode returns as stopped before it does anything |
| WakeUp.DroppedWakeUps | CFRunLoop/CFRunLoop.c:2824-2827 | however many stops and wake-ups arrive in the callouts after a wait, no message is sent; only the check of the flags can end the run, and it does |
| WakeUp.SleepBlocks | CFRunLoop/CFRunLoop.c:2491-2542 | after a round that handled no source and found the timeout not expired, the next sleep blocks the runner |
| WakeUp.StaysBlocked | CFRunLoop/CFRunLoop.c:2542-2542 | and it stays blocked until a message is received |
| WakeUp.PollsOnlyThen | CFRunLoop/CFRunLoop.c:2491-2542 | a wait ends without a message only if the round before handled a source or found the timeout expired |
| WakeUp.CheckReturns | CFRunLoop/CFRunLoop.c:2712-2735 | which of the four results the check at the end of a round returns, or that the loop goes on and listens for wake-ups again, from the round and the flags |
| WakeUp.ReturnsBy | CFRunLoop/CFRunLoop.c:2405-2746 | a run returns by such a check only, or at its start as stopped |
| WakeUp.AskedToEnd | CFRunLoop/CFRunLoop.c:2712-2735 | a stop of the run loop or of its mode ends the run at the next check, and so does the timeout |
| WakeUp.MessageStays | CFRunLoop/CFRunLoop.c:2820-2837 | a message that was sent stays until it is received |
| WakeUp.MessageGone | CFRunLoop/CFRunLoop.c:2542-2542 | and once received it is gone until another is sent |
| WakeUp.NeverStuck | CFRunLoop/CFRunLoop.c:2405-2746 | until the run returns the runner can go on, except from a blocked wait without a message; a thread can always send the message it is about to send |
| WakeUp.WholeRunIsRun | CFRunLoop/CFRunLoop.c:2405-2746 | a whole run: the runner blocks, is stopped, wakes and returns as stopped |
| Timers.InsertionIndex | CFRunLoop/CFRunLoop.c:1932-1966 | the power-of-two search returns the exact upper bound for every array length |
| Timers.NextDeadlines | CFRunLoop/CFRunLoop.c:1968-1998 | the early break is sound: the result is the least fire time, and the least sum of fire time and tolerance, over all timers that are not firing; the largest 64-bit number if every sum is beyond it |
| Timers.NextFire | CFRunLoop/CFRunLoop.c:2155-2176 | the loop ends without 64-bit overflow at a whole number of intervals after the old time, or saturates |
| Timers.NextFireLeast | CFRunLoop/CFRunLoop.c:2171-2175 | no drift: no earlier whole number of intervals lies after the current time |
| Timers.Reposition | CFRunLoop/CFRunLoop.c:2068-2089 | the timer leaves its place and is put behind every timer that fires no later; the others stay, and the deadlines are recomputed |
| Timers.RunLoop.AddTimer | CFRunLoop/CFRunLoop.c:3264-3316 | when a timer is accepted, its mode set and run loop, the sorted array and the deadlines afterwards |
| Timers.RunLoop.RemoveTimer | CFRunLoop/CFRunLoop.c:3318-3358 | the timer leaves the mode; its run loop is cleared with its last mode |
| Timers.RunLoop.AddTimerToCommonModes | CFRunLoop/CFRunLoop.c:3269-3280 | an accepted timer joins every common mode |
| Timers.RunLoop.RemoveTimerFromCommonModes | CFRunLoop/CFRunLoop.c:3321-3332 | a common timer leaves every common mode |
| Timers.RunLoop.AddCommonMode | CFRunLoop/CFRunLoop.c:1617-1636 | the common timers join a new common mode |
| Timers.RunLoop.RepositionEverywhere | CFRunLoop/CFRunLoop.c:2177-2209 | after a change of one fire time every mode that holds the timer is sorted again and has right deadlines |
| Timers.RunLoop.BeginFire | CFRunLoop/CFRunLoop.c:2102-2122 | the four conditions for firing, and deadlines that skip the firing timer |
| Timers.RunLoop.ArmNextTimer | CFRunLoop/CFRunLoop.c:1968-2064 | recomputes the deadlines of one mode and nothing else |
| Timers.SetNextFireDate | CFRunLoop/CFRunLoop.c:3910-3972 | a valid timer gets the new fire time, and all its modes stay sorted |
| Timers.EndFire | CFRunLoop/CFRunLoop.c:2138-2217 | a date set in the callout is kept exactly if it is later than the old one; otherwise the next date is computed and the timer repositioned |
| Timers.Invalidate | CFRunLoop/CFRunLoop.c:3993-4042 | afterwards the timer is in no mode of any run loop |
| Timers.Perform | CFRunLoop/CFRunLoop.c:3264-3358 | any single operation keeps: arrays sorted, a timer in an array exactly if its mode set names the mode, its run loop set exactly if that set is not empty, invalidated timers nowhere |
| Timers.History | CFRunLoop/CFRunLoop.c:2094-2223 | and so does any history of adding, removing, re-dating, firing and invalidating over several run loops |
| Timers.MakeRunLoop | CFRunLoop/CFRunLoop.c:1347-1377 | a new run loop keeps the invariant of all that exist |
| Timers.MakeTimer | CFRunLoop/CFRunLoop.c:3824-3875 | and so does a new timer |
| Timers.FromStart | CFRunLoop/CFRunLoop.c:1347-1377 | so after any program that starts from nothing, creates run loops and timers and works on them, the invariant holds |
| RunLoopItems.InsertObserver | CFRunLoop/CFRunLoop.c:3185-3196 | the backward search puts the observer behind all of its order or a lower one |
| RunLoopItems.AddedLaterBehind | CFRunLoop/CFRunLoop.c:3185-3196 | observers of one order stay in the order they were added in |
| RunLoopItems.RunLoop.AddSource | CFRunLoop/CFRunLoop.c:2953-3031 | a valid source joins the set of its version in one mode; the bag gains the run loop only if the source was new there |
| RunLoopItems.RunLoop.RemoveSource | CFRunLoop/CFRunLoop.c:3033-3088 | the source leaves both sets of one mode and nothing else |
| RunLoopItems.RunLoop.AddSourceToCommonModes | CFRunLoop/CFRunLoop.c:2960-2976 | a valid source joins every common mode |
| RunLoopItems.RunLoop.RemoveSourceFromCommonModes | CFRunLoop/CFRunLoop.c:3038-3048 | a common source leaves every common mode |
| RunLoopItems.RunLoop.RemoveSourceEverywhere | CFRunLoop/CFRunLoop.c:3482-3502 | the source leaves every mode of the run loop |
| RunLoopItems.RunLoop.AddObserver | CFRunLoop/CFRunLoop.c:3161-3205 | an accepted observer is inserted once, in order; the count goes up only then |
| RunLoopItems.RunLoop.RemoveObserver | CFRunLoop/CFRunLoop.c:3207-3239 | the observer leaves one mode; its run loop is cleared with its last mode |
| RunLoopItems.RunLoop.AddObserverToCommonModes | CFRunLoop/CFRunLoop.c:3167-3178 | an accepted observer joins every common mode |
| RunLoopItems.RunLoop.RemoveObserverFromCommonModes | CFRunLoop/CFRunLoop.c:3211-3222 | a common observer leaves every common mode |
| RunLoopItems.RunLoop.AddCommonMode | CFRunLoop/CFRunLoop.c:1617-1636 | the valid common sources and the accepted common observers join a new common mode |
| RunLoopItems.InvalidateSource | CFRunLoop/CFRunLoop.c:3504-3529 | afterwards no mode of any run loop holds the source |
| RunLoopItems.InvalidateObserver | CFRunLoop/CFRunLoop.c:3706-3744 | afterwards no mode of any run loop holds the observer |
| RunLoopItems.Perform | CFRunLoop/CFRunLoop.c:1057-1073 | any single operation keeps: the multiplicity of a run loop in the bag of a source is the number of its modes that hold the source, the count of an observer is the number of modes that hold it, and invalidated items are nowhere |
| RunLoopItems.History | CFRunLoop/CFRunLoop.c:2953-3239 | and so does any history of additions, removals, new common modes and invalidations |
| RunLoopItems.MakeRunLoop | CFRunLoop/CFRunLoop.c:1347-1377 | a new run loop keeps the invariant of all that exist |
| RunLoopItems.MakeSource | CFRunLoop/CFRunLoop.c:3439-3470 | and so does a new source |
| RunLoopItems.MakeObserver | CFRunLoop/CFRunLoop.c:3631-3669 | and a new observer |
| RunLoopItems.FromStart | CFRunLoop/CFRunLoop.c:1347-1377 | so after any program that starts from nothing, creates run loops, sources and observers and works on them, the invariant holds |
| Blocks.RunLoop.PerformBlock | CFRunLoop/CFRunLoop.c:2917-2928 | the block goes to the tail of a well-formed list |
| Blocks.Unlink | CFRunLoop/CFRunLoop.c:1698-1702 | takes one item out of the detached list; head, tail and links stay well formed |
| Blocks.RunLoop.Pass | CFRunLoop/CFRunLoop.c:1687-1713 | executes exactly the matching blocks, once each, in order, and keeps the others in order |
| Blocks.RunLoop.DoBlocks | CFRunLoop/CFRunLoop.c:1675-1722 | the queue afterwards is what did not match, followed by what the callouts posted; for every mode argument it says whether its posts have run; the result tells whether anything ran |
| Blocks.AllOrNone | CFRunLoop/CFRunLoop.c:1689-1713 | for one mode argument, a pass runs all posts or none |
| Blocks.PassModes | CFRunLoop/CFRunLoop.c:1693-1697 | which posts a pass runs: all for its mode, all for the common modes if its mode is one, all for a set with one of these in it, and no others |
| Blocks.HasRun | CFRunLoop/CFRunLoop.c:1693-1697 | over any run, after a pass in a mode every block posted for that mode before it has run |
| Blocks.CommonHasRun | CFRunLoop/CFRunLoop.c:1693-1694 | after a pass in a common mode, so has every block posted for the common modes |
| Blocks.RunsNowhereElse | CFRunLoop/CFRunLoop.c:1693-1697 | and no block in a pass of another mode |
| Blocks.SetRunsAsMember | CFRunLoop/CFRunLoop.c:1695-1697 | a block posted for a set of modes runs in a pass exactly if one posted for some mode of the set would |
| Blocks.PostingOrder | CFRunLoop/CFRunLoop.c:1675-1722 | over any run, blocks posted with the same mode argument execute in posting order |
| Blocks.PerformAll | CFRunLoop/CFRunLoop.c:1675-1722 | any sequence of posts and passes on a new run loop leaves the list, the posts and the executions that the replayed sequence has, so its blocks executed in posting order |
| ImageOrder.ImageLoader.RecursiveUpdateDepth | dyld-132.13/src/ImageLoader.cpp:433-458 | the recursion gives every image below the start its final depth and touches no other |
| ImageOrder.FreshDepth | dyld-132.13/src/ImageLoader.cpp:442-454 | on images without depths, the depth is the start value minus the longest chain of dependencies |
| ImageOrder.FreshNoUnderflow | dyld-132.13/src/ImageLoader.cpp:433-458 | started with the number of images, it never underflows on an acyclic graph |
| ImageOrder.DepthsDescend | dyld-132.13/src/ImageLoader.cpp:453-454 | every newly numbered image is less deep than each image it depends on |
| ImageOrder.AssignDepths | dyld-132.13/src/ImageLoader.cpp:349-350 | after a link every image the linked one depends on has the depth that counts down from the number of images by its longest chain, and no image at all is deeper than one it depends on |
| ImageOrder.ImageLoader.RecursiveInitialization | dyld-132.13/src/ImageLoader.cpp:784-829 | when no image is deeper than one it depends on, the guard skips nothing: each reachable image that was not initialised yet is initialised once |
| ImageOrder.DependenciesFirst | dyld-132.13/src/ImageLoader.cpp:794-813 | every image is initialised after all images it depends on, directly or not |
| ImageOrder.LinkAndInitialize | dyld-132.13/src/ImageLoader.cpp:396-405 | whatever was linked and initialised before: everything the image depends on is initialised, nothing twice, each image after all it depends on, and nothing else is |
| WeakSymbols.PickRule | dyld-132.13/src/ImageLoader.cpp:693-716 | which definition is picked, for all inputs: the first strong one in load order, else the first weak one after the last strong holder (which then resolves to nothing), else none |
| WeakSymbols.ZeroStrongHides | dyld-132.13/src/ImageLoader.cpp:707-713 | a strong symbol that resolves to nothing hides the weak definition before it |
| WeakWalk.MoveLowest | dyld-132.13/src/ImageLoaderMachOCompressed.cpp:1127-1201 | advancing the lowest iterator passes over no name that is still to be processed |
| WeakWalk.Resort | dyld-132.13/src/ImageLoader.cpp:676-689 | one bubble pass with an early break puts the moved iterator in its place in ascending order, and flags it if its neighbour is on the same name |
| WeakWalk.PlaceMoved | dyld-132.13/src/ImageLoader.cpp:676-689 | the pass restores the walk invariant: iterators in order, neighbours on an unprocessed name flagged, no flag without another holder |
| WeakWalk.AllOnName | dyld-132.13/src/ImageLoader.cpp:690-697 | when a name held by two images and defined somewhere is the lowest, all its holders are on it and the first is flagged |
| WeakWalk.TargetTells | dyld-132.13/src/ImageLoader.cpp:690-716 | a flag and a target occur only for a name that two images hold and that is still to be processed; the iterators on it are some of its holders, and all of them if all together define it |
| WeakWalk.ProcessedLowest | dyld-132.13/src/ImageLoader.cpp:720-731 | taking down the flags of a processed name keeps the invariant |
| WeakBind.IncrementCoalIterator | dyld-132.13/src/ImageLoaderMachOCompressed.cpp:1127-1201 | the iterator moves to the next symbol of its stream, or to the end sentinel, and reports the latter once |
| WeakBind.FindTarget | dyld-132.13/src/ImageLoader.cpp:693-716 | the search loop picks from the iterators on the name |
| WeakBind.UpdateUses | dyld-132.13/src/ImageLoader.cpp:720-731 | every holder that is not yet bound is updated, and all flags of the name are taken down |
| WeakBind.Round | dyld-132.13/src/ImageLoader.cpp:669-733 | one round keeps the invariant and makes progress |
| WeakBind.Walk | dyld-132.13/src/ImageLoader.cpp:654-733 | the walk ends; the processed names ascend, so none is processed twice; every name held by two images and defined by all its holders together is processed with all of them; any other only if one of its strong symbols has no address; the updates are those of the holders found |
| WeakBind.EachUse | dyld-132.13/src/ImageLoader.cpp:720-731 | a use of a name that coalesces is updated exactly if its image holds the name, is not bound yet and has reached the bound state; the target is the pick from all holders |
| WeakBind.EachUpdate | dyld-132.13/src/ImageLoader.cpp:720-731 | the updates are exactly those of the unbound images found with a processed name, each to the pick from the images found |
| WeakBind.DecidedCoalesces | dyld-132.13/src/ImageLoader.cpp:690-716 | a name whose strong symbols all have addresses coalesces if and only if two images hold it and one that holds it defines it |
| WeakBind.ProcessedExactly | dyld-132.13/src/ImageLoader.cpp:690-733 | and such a name is processed if and only if it coalesces |
| WeakBind.UndecidedPicks | dyld-132.13/src/ImageLoader.cpp:693-716 | two weak holders, the first with an address, and a strong one without: nothing is picked from the three, but something from the two |
| WeakBind.ProcessedLate | dyld-132.13/src/ImageLoader.cpp:669-733 | every walk over these three processes the name, with two of its holders: the strong holder leaves in the fourth round |
| WeakBind.WalkLate | dyld-132.13/src/ImageLoader.cpp:669-733 | so the walk points the uses of the two weak holders at the definition and leaves those of the strong one alone |
| WeakBind.NoRepeat | dyld-132.13/src/ImageLoader.cpp:720-731 | no use is updated twice |
| WeakBind.BindWeakSymbols | dyld-132.13/src/ImageLoader.cpp:636-743 | nothing happens unless two images have coalesced exports and one is unbound; afterwards all images count as bound |
| SharedDylibs.Search | dyld-132.13/launch-cache/update_dyld_shared_cache.cpp:408-466 | the memoised recursion terminates on every graph, cyclic ones included, and never changes an answer it has given |
| SharedDylibs.FindSharedDylibs | dyld-132.13/launch-cache/update_dyld_shared_cache.cpp:370-377 | the loop over the candidates |
| SharedDylibs.NothingLost | dyld-132.13/launch-cache/update_dyld_shared_cache.cpp:408-466 | the shared set contains the greatest set of candidates that is closed under dependencies, on every graph |
| SharedDylibs.SharedExactly | dyld-132.13/launch-cache/update_dyld_shared_cache.cpp:408-466 | and is that set if no two candidates that have to stay out reach each other through such candidates; a library that names itself does no harm |
| SharedDylibs.AlwaysExactIff | dyld-132.13/launch-cache/update_dyld_shared_cache.cpp:408-466 | for a graph with nothing missing: the search is exact for every set of libraries that get a missing dependency, every list of candidates and every order if and only if no two libraries reach each other |
| SharedDylibs.NoCircleExact | dyld-132.13/launch-cache/update_dyld_shared_cache.cpp:408-466 | one direction, for graphs with missing dependencies too |
| SharedDylibs.CircleInexact | dyld-132.13/launch-cache/update_dyld_shared_cache.cpp:433-433 | the other: of two libraries that reach each other, with a missing dependency for the one searched first, the other is let in although it has to stay out |
| SharedDylibs.CircleLetsIn | dyld-132.13/launch-cache/update_dyld_shared_cache.cpp:433-433 | an input where the order decides: 1 needs 2 and something missing, 2 needs 1; searched in the order 1, 2 the library 2 is let in, in the order 2, 1 none is |
| Fishhook.FindRebinding | finshhook/fishhook.c:105-121 | the search over calls, latest first, finds the latest call that rebinds the name and its first entry for it |
| Fishhook.VisitScanned | finshhook/fishhook.c:91-124 | one slot more: it holds the latest replacement, and the latest call has saved what the slots of the name held before |
| Fishhook.CallHooks | finshhook/fishhook.c:221-240 | one more call and a scan leave every slot with the latest replacement of its name, and every call with what it replaced |
| Fishhook.HookedSlot | finshhook/fishhook.c:105-121 | so a slot whose symbol is an underscore and a name holds the replacement of the first entry for the name in the latest call that has one, or else the original value |
| Fishhook.NamelessSlot | finshhook/fishhook.c:100-104 | a slot without a symbol, or with one of fewer than two bytes, is never touched |
| Fishhook.SavedChain | finshhook/fishhook.c:112-117 | each call saved the replacement of the call before it, and the first call the original |
| Fishhook.RescanStill | finshhook/fishhook.c:202-205 | scanning again changes nothing |
| Fishhook.ScanLeavesAlone | finshhook/fishhook.c:91-124 | slots without a name or outside the scanned sections, and cells nobody asked for, keep their contents |
| Fishhook.LateImageForgets | finshhook/fishhook.c:112-117 | an input: after two calls, an image loaded later makes the latest call give back the original value |
| Fishhook.LateImage | finshhook/fishhook.c:112-117 | the scan of an image loaded later keeps what the latest call for a name has saved if and only if that call saves nothing, asks for the original value or for what was there before, or found the original value |
| Fishhook.Process.VisitSlot | finshhook/fishhook.c:91-124 | one round of the loop over a section |
| Fishhook.Process.PerformRebindingWithSection | finshhook/fishhook.c:80-125 | the loop over a section visits its slots in order |
| Fishhook.Process.RebindSymbols | finshhook/fishhook.c:221-240 | without memory nothing happens and the result is -1; otherwise the call is put first, every image is scanned and all slots and saved values are right again |
| Fishhook.Process.RebindAll | finshhook/fishhook.c:221-240 | any number of calls from the original state: every slot holds the latest replacement of its name and every call has saved what it replaced |

## Left out

- TrieParse.ProcessExportNode: states nothing about malformed tries; well-formed streams only.
- TrieRoundTrip.WriteAndRead: duplicate names are not modelled; the trie then holds two nodes for one name.
- Exports.AdjustExportInfo: what the allocator answers is a parameter, any block that is not in use or none; the input is a trie whose numbers are in their canonical form, and the sizes of the names keep the rebuilt bytes below 2^32, because their number is stored in 32 bits.
- Exports.RebaseThenBind: what the binder makes of the memory 4 GB above a block that it misses is not modelled.
- Exports.BuildTable: the branch for files without compressed link-edit information and the search through re-exported libraries are not modelled.
- SharedCache.Cache.AssignNewBaseAddresses: the pointer to the first link-edit segment and the protections of the mappings are not modelled.
- CacheTheorems.SegmentsDisjoint: assumes that no two regions have a byte in common; the builder does not check it, and `OverlapExactly` and `OverlapForeseen` say when it is so.
- CacheTheorems.OverlapExactly: not for ppc, where the 64K steps leave gaps between data segments.
- LayoutExact.PlacedExactly: on ppc the addresses of data and import segments depend on the 64K steps and are not given in closed form.
- CodeUpdate.AcceptedExactly: for page-aligned dylibs with one text segment, in front.
- RebaseOpcodes.ApplyRebaseInfo: well-formed instruction streams only; the segment index check, which accepts one index too many, and bad opcodes are not modelled.
- Rebase.DoRebase: REBASE_TYPE_TEXT_PCREL32 is not modelled, because the value it writes has no useful meaning as written.
- CodeUpdate.AdjustCode: the updates are a list of kinds and addresses; the loop that decompresses them is not modelled.
- WakeUp.NoLostStop: one activation at a time; an inner run can consume the wake-up meant for the outer one.
- Timers.RunLoop.ArmNextTimer: the hardware timers that are armed from the deadlines, and their flags, are not modelled; dates and tolerances are converted to ticks outside the model.
- RunLoopItems.RunLoop.AddSource: sources are compared by identity; ports and the schedule and cancel callouts are not modelled.
- Blocks.RunLoop.DoBlocks: the common-mode set does not change during a pass and a callout does not run the loop again.
- ImageOrder.ImageLoader.RecursiveInitialization: exceptions, locks, notifications and initialisers that load further images are not modelled.
- ImageOrder.ImageLoader.RecursiveUpdateDepth: cyclic graphs are not modelled.
- SharedDylibs.SharedExactly: for one list of candidates and one order the condition is sufficient only; the if-and-only-if of `AlwaysExactIff` is over all lists, orders and missing dependencies.
- SharedDylibs.Search: warning messages are not modelled.
- WeakBind.Walk: names are ranks in the order of strcmp; the sentinels are a lowest and a highest rank. With which of its holders a name is processed that does not coalesce is not said.
- WeakBind.UpdateUses: which locations of an image are written for a name is not modelled; an update is recorded for the image and the name.
- Fishhook.Process.RebindSymbols: finding the sections of an image from its load commands is not modelled; a first call reaches the images through the callback it registers, which is the same scan.
- The run loop is modelled once for each of its aspects; items of different kinds in one common-mode set are kept apart.
- Mach messages, ports, dispatch queues, thread-specific data, retain counts, allocation and deallocation of run loops.
- File reading and writing, relocation formats without compressed link-edit information, symbol-table optimisation, Windows branches, descriptions.
