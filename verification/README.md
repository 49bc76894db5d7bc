# Verified models of LuaJIT's self-contained algorithms

This project models the parts of the LuaJIT sources that are algorithms in their own right, and
proves what each of them promises. Code that updates state in place is modelled by classes whose
methods take the same branches as the C functions; each method is proved against a function or an
invariant, and the lemmas say what that function or invariant means.

**The bundled allocator** (`src/lj_alloc.c`). `MallocState` holds chunk heads, feet, bins, the
designated victim, `top`, segments and directly mapped chunks. `Valid()` says that the chunks tile
every segment (`Tiling`, `Segments`), that in-use bits, feet and neighbours agree, that no two free
chunks touch, that every free chunk is filed in exactly one place under its size (`Filing`), that the
tree bins are bitwise tries whose words represent them (`Trie`, `TreeLinks`, `TreeBins`), and that
every mapped byte has one owner (`Mapping`). `Live()` is the map from live blocks to their room, and
every entry point is specified by what it does to `Live()` and to the bytes. The operating system
answers with any region that is not mapped, or refuses; a ghost result `refused` records a refusal, so
that the contracts say when a request may fail.

**The paged front end** (`src/lj_alloc_page.c`). `PageAlloc` runs on that allocator. Its state
refines a map from pointers to sizes (`size`); the block lists of pages, the lists of pages with room
and the list of all pages are part of `Valid()`.

**DynASM for x86** (`dynasm/dasm_x86.h`). `DasmState` has the three passes. The first pass threads
references without a label through the action buffer; `DasmLabels` says which definition each
reference binds to, by the order of references and definitions alone. The second pass shrinks
branches; `DasmLink` proves that what it decides with estimated offsets is right for the final ones.
The third pass writes bytes; `DasmEncode` proves that every branch reaches its label.

**Lua patterns** (`src/lib_string.c`). `PatternSpec` is the search as a list of results in their
order, `PatternMeaning.Derives` is the meaning of patterns without an order, and `PatternMatch` is
the matcher with its capture array. `PatternSets` and `PatternSyntax` give patterns by their parts,
without a look at their bytes, and `PatternSearch` proves that the search finds the preferred match of
a pattern that is printed from its parts. `PatternFind`, `PatternSubst` and `PatternReplacement` are
`find`, `match`, `gmatch` and `gsub`.

**Bytecode dumps** (`src/lj_bcwrite.c`, `src/lj_bcread.c`). `DumpFormat` gives the bytes of a tree of
prototypes, `DumpWrite` is the writer, `DumpParse` is reading as a function of the bytes, `DumpRead`
is the reader with its stack, and `DumpTrip` and `DumpTree` prove that reading inverts writing.
`DumpLayout` is the grammar of the format, field by field.
`DumpSort` is the heap sort of deterministic dumps.

**Register shuffles** (`src/lj_asm.c`), **ARM64 immediates** (`dynasm/dasm_arm64.h`), **table.sort**
(`src/lib_table.c`), **string buffers** (`src/lj_buf.c`, `src/lib_buffer.c`), **references**
(`src/lib_aux.c`) and **64-bit arithmetic** (`src/lj_carith.c`) have one module each.

## Model

| member | source | states |
|---|---|---|
| TreeIndex.IndexCorrect | src/lj_alloc.c:613-624 | For sizes from 256 up to a word, the bin that compute_tree_index selects is the one whose interval holds the size if and only if the size is below 2^40 or the truncated 32-bit word happens to be at least 0xC000. |
| TreeIndex.TruncationMisfiles | src/lj_alloc.c:613-624 | A chunk of exactly 2^40 bytes is put in the bin of the smallest large chunks, because the shifted size is cut to 32 bits. |
| SmallBins.SmallBins.InsertSmallChunk | src/lj_alloc.c:675-687 | The chunk becomes the first of the circular list of its size; all other lists, the links of all bins and the bin map stay in order. |
| SmallBins.SmallBins.UnlinkSmallChunk | src/lj_alloc.c:690-701 | The chunk leaves its list, wherever it is in it; the order of the others stays, and the map bit goes if and only if the list gets empty. |
| SmallBins.SmallBins.UnlinkFirstSmallChunk | src/lj_alloc.c:703-712 | Takes exactly the first chunk of a marked bin. |
| TreeBins.TreeBins.InsertLargeChunk | src/lj_alloc.c:728-764 | From any valid tree bins, the chunk is filed where the descent by size bits stops: behind the node of its size, or as a new leaf if no node has that size; all bins stay tries with rings of one size, linked in all words, with a map bit exactly for non-empty bins. |
| TreeBins.TreeBins.UnlinkLargeChunk | src/lj_alloc.c:767-812 | From any valid tree bins, exactly the given chunk leaves, whether it is inside a ring, a node with a ring, a lone node that a childless descendant replaces, or a leaf; all bins stay valid, including an emptied root and its map bit. |
| TreeBins.TreeBins.FindBestFit | src/lj_alloc.c:1130-1191 | The walk of tmalloc_large, with the remainder that wraps around for nodes that are too small, finds a chunk if and only if one fits, and it is a least one of all chunks that fit in all bins. |
| TreeBins.TreeBins.FindLeast | src/lj_alloc.c:1194-1221 | The walk of tmalloc_small finds a least chunk of all tree bins. |
| Segments.ChunksTile | src/lj_alloc.c:390-437 | In every valid heap, every byte of a segment up to its end lies in exactly one chunk. |
| Segments.AppendTopSegments | src/lj_alloc.c:1010-1014 | When `top` grows into a region that directly follows its segment, the chunks still tile all segments. |
| Segments.ExtendSegments | src/lj_alloc.c:1016-1023 | When a region directly before a segment is joined to it, the chunks still tile all segments. |
| Segments.NewSegmentSegments | src/lj_alloc.c:935-978 | After add_segment, with its record and its fenceposts in the old segment, the chunks tile the old segments and the new one, and the segments are apart. |
| Segments.DropSegments | src/lj_alloc.c:1056-1073 | When a segment that holds only one free chunk and its record is unmapped and its record unlinked, the others are still tiled. |
| Segments.TrimTopSegments | src/lj_alloc.c:1093-1113 | When the end of `top` is given back in units of the granularity, `top` ends where its segment ends now, and no segment is cut below its chunks. |
| Live.LiveDisjoint | src/lj_alloc.c:390-437 | In every valid state, two live blocks, from segments or directly mapped, share no byte. |
| Live.MetadataOutsideLive | src/lj_alloc.c:390-437 | In every valid state, no head word, foot, overlaid word of a free chunk or end marker lies in the bytes of a live block; this is why keeping those words in maps of their own loses nothing. |
| MallocState.MallocState.constructor | src/lj_alloc.c:1226-1249 | A new allocator is valid, has no live block, and has mapped just its first region. |
| MallocState.MallocState.TmallocLarge | src/lj_alloc.c:1130-1191 | Hands out the block at a least tree chunk that fits, unless nothing there fits or the designated victim fits and is no larger than any of them. |
| MallocState.MallocState.TmallocSmall | src/lj_alloc.c:1194-1221 | Hands out the block at the least tree chunk; what is left of it becomes the designated victim if it is large enough for a chunk, and otherwise the victim stays. |
| MallocState.MallocState.AddSegment | src/lj_alloc.c:935-978 | Keeps the heap well formed; the only new chunk in use is the record, and `top` is the new region less its foot. |
| MallocState.MallocState.PrependRegion | src/lj_alloc.c:902-932 | Keeps the allocator valid, whether the segment behind the region starts with `top`, the designated victim, a free chunk or a chunk in use; exactly one block is new, with room for the request. |
| MallocState.MallocState.AllocSys | src/lj_alloc.c:983-1040 | For every answer of the operating system: a new live block of the size asked for, or no change of the live blocks; the heap stays well formed in all cases of the region. The result is null only if a mapping was refused, or the size of one cannot be computed without a wrap-around; a large request that got its mapping is directly mapped. |
| MallocState.MallocState.ReleaseUnusedSegments | src/lj_alloc.c:1045-1085 | Live blocks and their bytes stay, and the result is exactly the bytes by which the segments got less. If the operating system refuses nothing, no segment is left that only holds one free chunk and its record; a refused unmap is backed out. |
| MallocState.MallocState.AllocTrim | src/lj_alloc.c:1087-1124 | Live blocks and their bytes stay, nothing gets mapped, and the result says whether the segments got less. |
| MallocState.MallocState.DirectResize | src/lj_alloc.c:845-870 | A directly mapped block that is large enough and not too large stays; any other one stays or moves with the bytes that both sizes have, or is left alone. |
| MallocState.MallocState.Malloc | src/lj_alloc.c:1269-1350 | Keeps the allocator valid. The result is a new block, aligned, with room for the request but not for another chunk unless it is directly mapped, at no live block; all live blocks and bytes stay. If any binned chunk fits, the request is served from a least one that fits or from a designated victim that fits; else from the victim, else from `top`, if they are large enough. The result is null only if no free chunk is large enough and `top` is not larger than the chunk needed, and besides the operating system refused a mapping or could not be asked for so much. |
| MallocState.MallocState.Free | src/lj_alloc.c:1352-1421 | Keeps the allocator valid, with the neighbours merged; exactly the given block is not live any more, no byte of another block changes, and nothing gets mapped. |
| MallocState.MallocState.Realloc | src/lj_alloc.c:1423-1471 | The block stays or moves, has room for the request, and keeps its first bytes up to the smaller of both sizes; no other block and no byte of another block changes. A block of a segment stays where it is if and only if its chunk is large enough or can grow into `top`, and gives back what is enough for another chunk. A null result leaves the block as it was, and comes only for a request that is too large, or if nothing free fits and the operating system refused more or could not be asked for so much. |
| MallocState.MallocState.Alloc | src/lj_alloc.c:1473-1483 | The three operations behind one entry, whatever old size is passed, with what they say about null results and about blocks that stay. |
| MallocState.MallocState.Destroy | src/lj_alloc.c:1257-1267 | Every segment is given back once; what is left mapped is what the operating system has refused to unmap, and the directly mapped chunks, which the function does not look at. |
| MallocState.MallocState.LiveApart | src/lj_alloc.c:1269-1471 | Between any two calls, the rooms of two live blocks do not overlap. |
| PagePool.ClassIsLeast | src/lj_alloc_page.c:111-122 | The class of a size is the first whose payload is large enough. |
| PageAlloc.PageAllocState.PageNew | src/lj_alloc_page.c:171-197 | An empty page of the class is in both lists, with all invariants of pages but for its missing busy block; or there is no page, the front end is valid as before, and the allocator behind had nothing for a page. |
| PageAlloc.PageAllocState.PageAllocSmall | src/lj_alloc_page.c:212-242 | A block at no live pointer, aligned. As long as any page of the class has a block that is not live, there is a result, and the allocator behind is left alone; there is none only if all blocks of all pages of the class are live and the allocator behind had nothing for another page. Afterwards, as always between calls, the lists hold exactly the pages with room, so that a page that gets full has left its list. |
| PageAlloc.PageAllocState.PageFromPtr | src/lj_alloc_page.c:244-256 | For every pooled pointer, the word before it leads to its page, and all that the function asserts holds. |
| PageAlloc.PageAllocState.PageFreeSmall | src/lj_alloc_page.c:258-274 | Exactly the given pointer goes; afterwards no page is empty and the lists hold exactly the pages with room, so that a full page has returned to its list and an empty one has gone back. |
| PageAlloc.PageAllocState.PageRelease | src/lj_alloc_page.c:199-210 | From the state that is valid but for one empty page to a valid one, with the same pointers and bytes. |
| PageAlloc.PageAllocState.Alloc | src/lj_alloc_page.c:337-387 | As long as callers pass the current size, every call goes to the right owner: pointers refine a map to sizes, a resize keeps the first bytes up to the smaller of both sizes, also between pool and allocator, and on failure the old block and its bytes are as they were. No byte of another block changes. A pooled pointer stays if and only if its page has room for the new size, and a large one stays if the allocator behind can keep it. The result is null only if no page has a block left and the allocator behind had nothing for another page, or, for large sizes, for the request. |
| PageAlloc.PageAllocState.GiveBack | src/lj_alloc_page.c:314-335 | Every page is freed once and then the state; the blocks left in the allocator behind are exactly the large blocks that callers still hold. |
| PageAlloc.PageAllocState.Destroy | src/lj_alloc_page.c:314-335 | After that the allocator behind is destroyed; what is left mapped is memory that could not be unmapped, and directly mapped large blocks that callers still hold. |
| PageAlloc.Create | src/lj_alloc_page.c:276-303 | A new front end has no pages and no pointers and is valid; once the first region is mapped, creation does not fail. |
| PageAlloc.PointersApart | src/lj_alloc_page.c:212-242 | In every valid state, two pointers, pooled or large, own different bytes. |
| PageAlloc.MetadataOutsideLive | src/lj_alloc_page.c:212-242 | In every valid state, no page header, no prefix word, no link of a free block and no word of the state lies in the bytes of a pointer. |
| PageAlloc.PageAllocState.OwnWordsApart | src/lj_alloc_page.c:337-387 | The same between any two calls. |
| DasmLabels.ForwardBinds | dynasm/dasm_x86.h:216-226 | A forward reference binds to the next definition of its label behind it, and stays open if there is none. |
| DasmLabels.BackwardBinds | dynasm/dasm_x86.h:216-235 | A backward reference behind a definition of its label binds to the latest one if and only if the label is in force, which DASM_CHECKS tests; and that is so if and only if no forward reference to the label is in between. |
| DasmLabels.InForceIsDefined | dynasm/dasm_x86.h:216-235 | A backward reference to a label in force binds to the latest definition before it. |
| DasmLabels.ReferredOk | dynasm/dasm_x86.h:227-242 | After a reference, every open reference is still in the chain of its label, chains are without cycles, and every bound reference holds the position of the definition it binds to. |
| DasmLabels.PlacedOk | dynasm/dasm_x86.h:243-249 | After a definition, the whole chain of its label holds its position, and all other chains are as they were. |
| DasmState.DasmState.constructor | dynasm/dasm_x86.h:84-146 | The state after dasm_init, dasm_setupglobal, dasm_growpc and dasm_setup is valid and empty. |
| DasmState.DasmState.Put | dynasm/dasm_x86.h:162-268 | For every action stream: it succeeds exactly if all its tests pass; then the section has exactly the items of the stream at the offsets that the sizes add up to, the references and definitions are exactly those of the stream, labels and chains stay in order, and the next put goes on in the section that the stream names. |
| DasmState.MadeIs | dynasm/dasm_x86.h:180-262 | Each action of a put is one item, in order, and takes the argument that follows those of the actions before it. |
| DasmState.TestedIsKept | dynasm/dasm_x86.h:196-199 | Just those immediates pass the tests that a field of their size gives back. |
| DasmState.PutShadowing | dynasm/dasm_x86.h:216-218 | A stream whose backward reference has a forward reference between itself and the definition: rejected with DASM_CHECKS, and without it accepted, and bound forward. |
| DasmState.DasmState.Link | dynasm/dasm_x86.h:272-358 | If no label is open, every item of every section gets its final offset, branches are shrunk consistently, and the size is that of the final code; otherwise an undefined PC label is reported. |
| DasmLink.ShrunkIsShort | dynasm/dasm_x86.h:308-330 | Every branch that the one linear pass shrinks with estimated offsets has, in the final code, a displacement in [-128, 127], across sections and alignments. |
| DasmItems.AlignRounds | dynasm/dasm_x86.h:342 | An alignment in the final code ends at the next multiple. |
| DasmEncode.CodeLength | dynasm/dasm_x86.h:384-491 | After any number of items, the code written is as long as the final offset of the next one says. |
| DasmEncode.BranchLands | dynasm/dasm_x86.h:447-454 | In the finished code, behind all later rewrites, each branch has its displacement, and a shrunk one has the short form of its opcode. |
| DasmEncode.ItemLands | dynasm/dasm_x86.h:400-482 | In the finished code, behind all later rewrites, every item has its bytes between its final offset and the next one: a plain byte itself, an immediate the bytes of its argument modulo 256 to the power of its size, the lowest first, a space its fill as often as asked for, an alignment no-operation bytes up to a multiple, a branch its displacement, and all else nothing. Only a byte that a shrunk branch takes for its opcode is replaced. |
| DasmEncode.ImmediateReadsBack | dynasm/dasm_x86.h:412-420 | The bytes of an immediate read back as its argument: signed for one and for four bytes, unsigned for one and for two. |
| DasmEncode.BranchReachesLabel | dynasm/dasm_x86.h:442-454 | The end of a branch plus the displacement that a processor reads there is the final offset of a definition of the label that the branch names, the one that the reference binds to; four-byte displacements as long as the code is below two gigabytes. |
| DasmEncode.ForwardTarget | dynasm/dasm_x86.h:216-250 | The target of a reference is a definition of the same number, and for a forward reference the next one that was put behind it, in whatever section. |
| DasmState.DasmState.Encode | dynasm/dasm_x86.h:384-491 | The output has exactly `codesize` bytes, so that there is never a phase error, and every item is in it as ItemLands says. |
| DasmState.DasmState.GetPcLabel | dynasm/dasm_x86.h:494-503 | The final offset of a defined label, and different negative numbers for a used and for an unknown one. |
| PatternMatch.MatchState.DoMatch | src/lib_string.c:352-435 | The result is the first of the search as a list, and on failure the level and all captures are as before. PatternSearch.AllIsBest says what that first result is. |
| PatternSets.ClassLetters | src/lib_string.c:210-228 | An escaped letter matches just the characters that its class lists, an upper case letter all others, and any other escaped character itself. |
| PatternSets.SetMeans | src/lib_string.c:230-251 | A set that is printed from a list of characters, ranges and escapes ends with its bracket, and matches a character if and only if some element holds it, a range holding all from its first to its last one; with a circumflex, if and only if none does. |
| PatternSearch.AllIsBest | src/lib_string.c:352-435 | For every pattern printed from its parts, the first result of the search is the match that the parts prefer, with its captures, among all ways to say where each part ends; no result means that there is no way. Each capture has the text from its opening to its closing. |
| PatternSearch.AllOrderly | src/lib_string.c:352-435 | If the captures of the parts are in order, the search raises no error, except for going too deep, and leaves no capture open. |
| PatternMatch.MatchState.MatchBalance | src/lib_string.c:265-284 | The end of the balanced string, if there is one. |
| PatternMeaning.AllFinds | src/lib_string.c:352-435 | For every pattern, subject, position and captures, the list holds exactly the ends and captures that the pattern means, unless an error ends it. |
| PatternMeaning.FirstIsMeant | src/lib_string.c:352-435 | A match is one that the pattern means, and no match means that there is none. |
| PatternMeaning.GreedyTakesMost | src/lib_string.c:286-299 | A greedy repetition takes as many characters as leave a match for the rest. |
| PatternMeaning.LazyTakesLeast | src/lib_string.c:301-313 | A lazy repetition takes as few as leave a match for the rest. |
| PatternMeaning.DerivesInside | src/lib_string.c:315-350 | Matches end inside the subject, at or behind their start, and captures lie before the end. |
| PatternMeaning.NotTooDeep | src/lib_string.c:352-355 | The depth of recursion is bounded by the rest of the pattern, so that a pattern not longer than the limit never fails as too complex. |
| PatternItems.BalanceIsFirst | src/lib_string.c:265-284 | The balanced string is the shortest in which every opening is closed. |
| PatternItems.ComplementedSet | src/lib_string.c:230-251 | A complemented set matches exactly what the set does not match. |
| PatternFind.LeftmostIsMeant | src/lib_string.c:489-511 | The match found is the leftmost one that the pattern means, and nothing is found only if there is none. |
| PatternFind.CapturesAre | src/lib_string.c:437-462 | All captures are returned in their order, or the error of one that was never closed. |
| PatternFind.StrFind | src/lib_string.c:464-515 | find and match from any start: the first occurrence for a fixed search, and the result for the leftmost match otherwise, which PatternSearch.FindPrinted explains. |
| PatternSearch.LeftmostPrinted | src/lib_string.c:489-511 | For a printed pattern, the match found is the preferred one at the first position that has any, and nothing is found only if no position has one. |
| PatternSearch.FindPrinted | src/lib_string.c:464-515 | For a printed pattern, with or without an anchor, find and match return the first and the last position of that match, counted from one, and the texts and positions of its captures; they raise no error if the captures are in order and the pattern has less than 200 characters. |
| PatternFind.FixedSearchAgrees | src/lib_string.c:481-511 | For a pattern without special characters, the fixed search agrees with the pattern search on all subjects and starts if and only if the pattern has no closing parenthesis and no zero. |
| PatternSubst.GMatch.Next | src/lib_string.c:527-549 | Yields the next of the matches that are left, from a later position. |
| PatternSubst.HitsIncrease | src/lib_string.c:527-549 | All matches of an iteration start at strictly increasing positions, do not overlap, are meant by the pattern, and are at most as many as positions. |
| PatternSubst.HitsMissNothing | src/lib_string.c:527-549 | Every position where the pattern can match is the start of a match of the iteration, or inside one, or behind an error. |
| PatternSubst.Gsub | src/lib_string.c:614-653 | gsub with a string computes the substitution that the lemmas below are about, for every limit and anchor; PatternReplacement.ReplacementMeans says what each match is replaced by. |
| PatternReplacement.ReplacementMeans | src/lib_string.c:561-580 | A replacement printed from its parts stands for their texts, one behind the other: characters and escaped characters themselves, %0 the match, %1 to %9 the text or the decimal position of a capture, and %1 the match if there are no captures; or the first part that means no closed capture gives the error. An escape that ends the replacement stands for a zero. |
| PatternReplacement.EveryReplacement | src/lib_string.c:561-580 | Every string is such a replacement. |
| PatternReplacement.NoEscape | src/lib_string.c:561-580 | A replacement without a percent sign stands for itself. |
| PatternSubst.SubstReplacesHits | src/lib_string.c:614-653 | Without an anchor, gsub replaces exactly the first matches of gmatch, as many as the limit allows, and leaves all text between them. |
| PatternSubst.SubstErrors | src/lib_string.c:614-653 | Without an anchor, gsub fails only where one of those matches raises an error or its replacement does. |
| PatternSubst.SubstAnchored | src/lib_string.c:614-653 | With an anchor, gsub replaces the match at the start, if there is one, and leaves all else. |
| PatternSubst.SubstBounds | src/lib_string.c:614-653 | Not more replacements than asked for, than one with an anchor, or than positions. |
| PatternSubst.IdentitySubst | src/lib_string.c:561-580 | With the replacement %0, the result is the subject, for every pattern and limit, unless the search raises an error. |
| DumpNumbers.WriteUleb | src/lj_strfmt.c:155-161 | The word in ULEB128 (DWARF 5, section 7.6), which DumpLayout.UlebMeans spells out. |
| DumpLayout.UlebMeans | src/lj_strfmt.c:155-161 | Seven bits in each byte, the low ones first, the high bit on all bytes but the last, and no zero at the end of more than one byte. |
| DumpNumbers.UlebTrip | src/lj_buf.c:291-302 | Reading a value gives what was written, whatever follows. |
| DumpNumbers.UlebPrefixFree | src/lj_strfmt.c:155-161 | No encoding is the beginning of another one. |
| DumpNumbers.WriteTagged | src/lj_bcwrite.c:259-289 | The writer, which has only 32 bits for a word and its tag and corrects the last byte, writes the encoding of the 33-bit value. |
| DumpNumbers.TaggedTrip | src/lj_bcread.c:136-150 | The word and its tag are read as they were written. |
| DumpSort.HeapInsert | src/lj_bcwrite.c:97-116 | Sifting a node into a heap gives a heap of the same nodes and the new one. |
| DumpSort.SortedIsUnique | src/lj_bcwrite.c:133-150 | The nodes in ascending order are the only such sequence that has each live node once. |
| DumpWrite.LengthFits | src/lj_bcwrite.c:376-384 | The gap that the writer computes for the length is filled by the length exactly. |
| DumpWrite.Writer.PutSortedHash | src/lj_bcwrite.c:133-150 | Emits each live node exactly once, in strictly ascending order of the keys. |
| DumpWrite.Writer.PutProto | src/lj_bcwrite.c:321-385 | The bytes of the whole tree, children first and the last child first, each with its length before it; or a first part of them after the writer callback failed. |
| DumpWrite.Writer.Write | src/lj_bcwrite.c:388-453 | The bytes of a dump, or a first part of them; DumpLayout.DumpLayout gives their grammar. |
| DumpLayout.DumpLayout | src/lj_bcdump.h:14-65 | The bytes of a dump spell the fields that the grammar in the header file gives, with its magic bytes, its version, its flag bits and its type codes as numbers, in its order. |
| DumpTrip.TableTrip | src/lj_bcread.c:203-224 | Reading the bytes of a table gives the table in its normal form. |
| DumpTrip.TableIsKept | src/lj_bcread.c:203-224 | The table read has exactly the live nodes of the one written, and its array but for nils at the end and markers. |
| DumpTrip.DeterministicBytes | src/lj_bcwrite.c:133-196 | In a deterministic dump, tables with the same array and the same live keys and values have the same bytes, wherever their nodes are. |
| DumpTree.ConstsTrip | src/lj_bcread.c:227-263 | Each constant that is a child takes its own prototype from the stack, though children were written in reverse order. |
| DumpTree.TreeTrip | src/lj_bcread.c:425-459 | Reading the bytes of a tree pushes exactly its root. |
| DumpTree.ReadsWhatWasWritten | src/lj_bcread.c:396-459 | For every tree of prototypes, name, option and byte order flag, reading the dump gives the tree, and consumes all bytes. |
| DumpRead.Read | src/lj_bcread.c:396-459 | The reader computes that, and so gives the tree for every dump that was written; wrong magic bytes, another version, an unknown flag and the frame info of another build are refused. |
| AsmShuffle.Assembler.Shuffle | src/lj_asm.c:2068-2102 | It ends. If it does not abort, the emitted moves, run in the reverse of their emission, bring every parent register to its target at once and leave every other register as it is; it aborts if and only if a class of registers has a cycle and no temporary register. |
| ArmImmediates.Imm13 | dynasm/dasm_arm64.h:201-215 | The result is -1 if and only if the 64-bit word is no bitmask immediate, and otherwise N:immr:imms decodes to the word by DecodeBitMasks (Arm Architecture Reference Manual DDI 0487, chapter J1). |
| ArmImmediates.EncodeIs | dynasm/dasm_arm64.h:210-214 | The bit operations on words in the last lines are the sums that a decoder inverts. |
| ArmImmediates.Imm12 | dynasm/dasm_arm64.h:165-173 | The result is -1 if and only if no operand of an add has this value, and otherwise it is one that has. |
| TableSort.Sorter.AuxSort | src/lib_table.c:237-298 | For every comparator, it ends, only permutes the given range, and recurses at most logarithmically deep; for a strict weak order it raises no error and the range is sorted. |
| TableSort.Sorter.Sort | src/lib_table.c:300-309 | The same for the whole table. |
| StringBuffer.SBufExt.More | src/lj_buf.h:106-111 | Leaves room for the bytes asked for, in a block of the buffer's own, with the queue as it was; it fails if and only if the bytes would be too many. |
| StringBuffer.SBufExt.MoreRoom | src/lj_buf.c:60-88 | The same for the slow path, in each of its cases: growing and compacting, growing early, or compacting. |
| StringBuffer.SBufExt.Put | src/lib_buffer.c:116-150 | All strings and buffers up to the first argument that is refused are appended in order, and nothing else; the frame says that no block of somebody else is written to. |
| StringBuffer.SBufExt.Get | src/lib_buffer.c:161-181 | One string for each argument from the front of the queue, up to the first that is out of range. |
| StringBuffer.SBufExt.Skip | src/lib_buffer.c:72-86 | Drops the front of the queue. |
| StringBuffer.SBufExt.Set | src/lib_buffer.c:88-114 | The queue is the string, without a copy. |
| StringBuffer.SBufExt.Reset | src/lj_buf.h:136-144 | The queue is empty, and a string of somebody else is let go. |
| StringBuffer.SBufExt.Reserve | src/lib_buffer.c:202-214 | Room is provided behind the queue, which stays. |
| StringBuffer.SBufExt.Commit | src/lib_buffer.c:216-224 | What was written to the room joins the queue, if it is not more than there is room. |
| StringBuffer.SBufExt.Presize | src/lib_buffer.c:289-328 | A new buffer has room for the size asked for. |
| StringBuffer.SBufExt.ToString | src/lib_buffer.c:265-271 | The queue, which stays. |
| StringBuffer.FrontAndRest | src/lib_buffer.c:161-181 | What get returns and what it leaves are together the queue, in order. |
| StringBuffer.GrowthPaid | src/lj_buf.c:67-79 | Doubling a full block, and moving its bytes down, costs no more than four times the bytes asked for, given what was saved up. |
| StringBuffer.EarlyGrowthPaid | src/lj_buf.c:69-73 | So does growing early when little was consumed. |
| StringBuffer.CompactionPaid | src/lj_buf.c:74-79 | A compaction is paid for by what was consumed. |
| StringBuffer.GrowthFits | src/lj_buf.c:19-25 | For blocks below two gigabytes the doubling does not wrap around in 32 bits. |
| StringBuffer.Run | src/lib_buffer.c:64-224 | Any run of put, set, get, skip, reset, and reserve with commit does what a plain queue does; it writes to none of the strings that are passed in, and copies at most 17 times as many bytes as come in. |
| References.References.Ref | src/lib_aux.c:277-297 | Over any run, whatever lua_objlen answers: a reference that is not live, with its value, and all live ones stay; nil gives the fixed reference. |
| References.References.Unref | src/lib_aux.c:299-308 | Exactly the given reference goes, and negative ones are ignored. |
| References.FullTable | src/lib_aux.c:290-293 | When lua_objlen is consulted there is no hole, so that it has only one answer. |
| References.OneHole | src/lib_aux.c:299-308 | There is never more than one hole, the slot that was given up when no other was free. |
| References.OnlyLiveMayGo | src/lib_aux.c:299-308 | Giving up a slot keeps the table in order if and only if the slot is a live reference; else the list of free slots goes round. |
| CArith.PowU64 | src/lj_carith.c:428-445 | The power modulo 2^64, for all bases and exponents. |
| CArith.PowI64 | src/lj_carith.c:448-464 | For exponents from zero on, the power modulo 2^64; for negative ones, the inverse cut off to an integer, and the largest number for zero. |
| CArith.SignedDivMod | src/lj_carith.c:405-425 | For every divisor but zero, quotient and remainder give the dividend modulo 2^64, exactly so if and only if it is not the smallest number over -1; the remainder is smaller than the divisor and has the sign of the dividend. |
| CArith.UnsignedDivMod | src/lj_carith.c:398-417 | The same for unsigned words. |

## Left out

- Segment sizes: the operating system may answer anything, but a mapping after which one contiguous segment would reach 2^40 bytes counts as refused; TreeIndex.IndexCorrect says why.
- Addresses: below 2^47, as LJ_ALLOC_MBITS has it; 32-bit targets are not modelled.
- Words of memory: chunk heads, feet, links, page headers and user bytes are maps of their own; Live.MetadataOutsideLive and PageAlloc.MetadataOutsideLive say that they never overlap live blocks.
- Bin maps: `smallmap` and `treemap` are sets, and least_bit with the index computation is the least element.
- Allocator details: the two fenceposts behind a directly mapped chunk, the PRNG for address hints, errno handling, and the counters of LUAJIT_PAGEALLOC_TEST.
- PageAlloc.Create: the first mapping is a parameter; the code for a failure behind it is left out, since there is none.
- PatternSearch.AllIsBest: covers patterns in which special characters are escaped where they stand for themselves; all other patterns, like sets that start with a bracket or end with a hyphen, are covered by PatternMeaning.AllFinds and FirstIsMeant only.
- PageAlloc.PageAllocState.Alloc: the contract about `osize` is a requirement, as the source has it of its callers.
- DynASM actions: DISP, VREG, MARK, EXTERN, SETLABEL, IMM_DB, IMM_WB, IMM_LG, IMM_PC and REL_A, globals outside the code, and the other targets.
- DynASM encoding of action lists: actions are values, not bytes, and offsets are integers without a bound; a section has at most DASM_MAXSECPOS positions.
- DasmState.DasmState.Put: without DASM_CHECKS only the test of backward references is off, since all other values would be beyond their arrays; the state after a failed put is not specified.
- Pattern matching: gsub with a function or a table, string.format, and locale-dependent classes.
- DumpNumbers.WriteTagged: numbers are tagged values; the narrowing of floating-point numbers to integers where LJ_DUALNUM is 0 is not modelled, and doubles are opaque words.
- DumpRead.Read: the reader fails at the end of its bytes, where the source asserts or asks a reader callback for more; byte order, debug info and bytecode are opaque bytes, and the unpatching of JIT-compiled bytecode is left out.
- DumpTrip.TableIsKept: template markers in array parts are read back as nil, as the source does.
- AsmShuffle: one reference for each parent register and different targets are required; spill slots, snapshots of renamed references, and the shuffle of loop PHIs are left out.
- TableSort.Sorter.AuxSort: comparators that raise errors of their own or that change the table are left out, and so are the stack slots.
- StringBuffer: sizes are integers without a bound, but see GrowthFits; borrowed buffers, the formatting of numbers, metamethods, serialization, and external writes to a block that was set by pointer are left out.
- References: values are numbers and opaque objects; the table is used for references only.
- CArith: shifts, comparisons and the conversions of cdata arguments.
- The interpreter, the garbage collector and the per-target code generators.
