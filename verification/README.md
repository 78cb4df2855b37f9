# A verified model of a LuaJIT fork and its asset decoder

The repository is a LuaJIT 2.1 tree (32-bit, one allocator segment, x86 back end) together with a decoder for an
encrypted asset format. This project models seven of its parts and proves what each of them promises its callers.
`dafny verify dfyconfig.toml` checks everything.

* **The allocator** (`lj_alloc.c`; `Memory`, `Tiles`, `TreeIndex`, `Forest`, `ForestMoves`, `TreeSearch`, `SmallBins`,
  `Arena`, `Mspace`, `IdealHeap`). Memory is one map from addresses to 32-bit words; heads, feet, `fd`/`bk`, tree links
  and client words all live in it. Ghost state tiles the segment with chunks, files every free chunk in exactly one
  bin, and places the large ones in 32 bitwise tries, each node heading a ring of equal sizes. `Sound(aside)` says
  that tags, lists, tries and bin maps describe that ghost state; `aside` names chunks that are between two bins.
  `class Mspace` is `malloc_state`; its methods do what the C functions do, store by store.
* **DynASM** (`dynasm/dasm_x86.h`; `DynasmLabels`, `DynasmLayout`, `DynasmBooks`, `DynasmLink`, `DynasmCode`,
  `DynasmDecode`, `Dynasm`). A ghost history of references, definitions and steps fixes what each label reference
  means. Pass 1 keeps chains of pending references in the section buffers; pass 2 shrinks branches from estimates made
  in pass 1; pass 3 writes bytes. `Linked` is the state after pass 2; `DynasmDecode` reads the finished code back.
* **Pattern matching** (`lib_string.c`; `LuaPattern`, `LuaMeaning`, `LuaMatch`, `LuaSearch`). `Outs(sub, a, s, caps)`
  lists, in order of preference, every way the syntax tree `a` can match at position `s`; `LuaMeaning` says what that
  comes to for each notation. The backtracking matcher with its mutable captures and depth counter is proved to answer
  with the first of them; find, gmatch and gsub are built on that.
* **The register shuffle at the head of a side trace** (`lj_asm.c`; `RegShuffle`), which emits moves backwards.
* **table.sort** (`lib_table.c`; `TableSort`), for arbitrary comparators, also inconsistent or failing ones; a ghost log
  of all comparisons says what an error means.
* **Bytecode dumps** (`lj_bcwrite.c`, `lj_bcread.c`, `lj_bcdump.h`, `lj_strfmt.c`, `lj_buf.c`; `Uleb128`, `BcFormat`,
  `BcWrite`): the writer with its shared buffer, and a parser for the documented grammar.
* **The asset decoder** (`AssetDecoder.cpp`; `AssetCipher`, `AssetSource`): three block ciphers in turn, a tail and a
  wrapper stream, and the same blocks once more in the straight-line arithmetic of the decoder.
* **luaL_ref, luaL_unref and luaL_Buffer** (`lib_aux.c`; `LuaAux`).

`Bits` holds 32-bit words, bit maps and `fls`/`ffs`; `Sealing` the device by which large invariants are carried around
unopened.

Two details of the asset decoder that its code decides: the wrapper stream feeds back its bytes as *signed* characters,
and the wrapper buffer is decrypted but never returned to the caller.

## Model

| member | source | states |
|---|---|---|
| `Mspaces.Mspace.Create` | src/lj_alloc.c:1237-1259 | the first heap is sound and has no live block |
| `Mspaces.Mspace.Malloc` | src/lj_alloc.c:1273-1354 | either a new 8-aligned block of at least the requested size and less than a chunk more is live, apart from every older block, whose words are all kept, and it stands where the policy puts it: an exact or next small bin, the best fit in the tries, dv, the start of top, or the extended top, in this order; or 0 is returned, nothing at all has changed, and the request was too large or no free chunk in any bin, dv, top or the system has room |
| `Mspaces.Mspace.Free` | src/lj_alloc.c:1356-1425 | exactly the freed block leaves the live blocks, all others keep every word, and coalescing backward, forward, into dv and into top keeps all tags and bins right; freeing 0 does nothing |
| `Mspaces.Mspace.Realloc` | src/lj_alloc.c:1427-1475 | the block has the new size, its old words up to the smaller size survive, all other blocks are untouched; it stays where it is exactly when it is large enough already or is followed by a top that makes up for what is missing; 0 only when that is not so and a new block is refused, and then nothing has changed |
| `Mspaces.Mspace.AllocF` | src/lj_alloc.c:1477-1487 | the three-way contract of a Lua allocator: size 0 frees, pointer 0 allocates, otherwise resize, in place exactly when the block fits there; 0 for a non-zero size only on refusal |
| `Mspaces.Mspace.ResizeHere` | src/lj_alloc.c:1444-1461 | a block is resized where it is, split or grown over top, exactly when it is large enough or top follows and has the rest to spare; otherwise nothing has changed |
| `Mspaces.RequestExact` | src/lj_alloc.c:431-450 | the chunk for a request is the smallest multiple of 8 that is a chunk and has room for the bytes and the head word |
| `Mspaces.RequestLimits` | src/lj_alloc.c:441-450 | the limit of small requests divides the requests of small chunks from the rest; below MAX_REQUEST the size does not wrap around; the chunks of the state and of the top foot have the sizes that their structs pad to |
| `Mspaces.GranularityExact` | src/lj_alloc.c:568-570 | the least multiple of 128 KB, or 0 when that is beyond 32 bits |
| `Mspaces.Mspace.TmallocLarge` | src/lj_alloc.c:1141-1202 | true best fit: the chunk taken is a smallest one of all tree bins that fits, and none is taken exactly when dv fits at least as tightly as all that fit |
| `Mspaces.Mspace.FindBestFit` | src/lj_alloc.c:1149-1186 | the trie walk with its remembered right subtree finds a smallest fitting chunk among all in all tries, or 0 exactly when none fits |
| `Mspaces.Mspace.BetterThanDv` | src/lj_alloc.c:1188-1189 | the comparison of the remainders as wrapping 32-bit words decides correctly between best fit and dv |
| `Mspaces.Mspace.PathWalk` | src/lj_alloc.c:1149-1171 | after following the bits of the size, everything in this bin that fits is the candidate or lies in the subtree the walk ends with |
| `Mspaces.Mspace.LeftmostWalk` | src/lj_alloc.c:1179-1186 | descending along leftmost children from there covers every remaining position |
| `Mspaces.Mspace.TmallocSmall` | src/lj_alloc.c:1205-1233 | the chunk used is a smallest one in all tree bins; the remainder becomes dv |
| `Mspaces.Mspace.TakeSmall` | src/lj_alloc.c:1285-1314 | the block comes from the first non-empty small bin at or above the size; none is taken, and nothing has changed, only when dv fits or all those bins are empty |
| `Mspaces.Mspace.TakeFromDv` | src/lj_alloc.c:1328-1343 | dv is handed out whole or split, and a block of exactly that address is live |
| `Mspaces.Mspace.TakeFromTop` | src/lj_alloc.c:1344-1352 | the front of top is handed out |
| `Mspaces.Mspace.AllocSys` | src/lj_alloc.c:1006-1050 | succeeds exactly when the 32-bit computation of the extension does not wrap and the system grants it at the end of the segment; otherwise nothing changed |
| `Mspaces.Mspace.Extend` | src/lj_alloc.c:1023-1025 | a longer segment is tiled again and no live block is touched |
| `Mspaces.Mspace.InsertLarge` | src/lj_alloc.c:740-775 | the tries and rings are legal and hold exactly one chunk more; only links of filed chunks were written |
| `Mspaces.Mspace.UnlinkLarge` | src/lj_alloc.c:779-823 | chained chunk, ring head, inner node replaced by a leaf, lone leaf: the tries hold exactly the other chunks |
| `Mspaces.Mspace.InsertSmall` | src/lj_alloc.c:687-700 | the ring of one bin has one chunk more, the bin map is right, the others are untouched |
| `Mspaces.Mspace.UnlinkSmall` | src/lj_alloc.c:702-713 | exactly this chunk leaves its ring and the map bit is cleared exactly when the bin is empty |
| `Mspaces.Mspace.UnlinkFirstSmall` | src/lj_alloc.c:715-725 | some chunk of the bin leaves it |
| `Mspaces.Mspace.ReplaceDv` | src/lj_alloc.c:727-738 | the old dv is filed in its small bin and the new one is dv |
| `Mspaces.Mspace.InsertChunk` | src/lj_alloc.c:827-829 | a free chunk between bins is filed |
| `Mspaces.Mspace.UnlinkChunk` | src/lj_alloc.c:831-833 | a filed free chunk is taken out of its bin |
| `Mspaces.Mspace.FreeForward` | src/lj_alloc.c:1384-1422 | the forward half of free, from a run that may already include the previous chunk, ends in a sound heap |
| `Mspaces.Mspace.ShrinkInPlace` | src/lj_alloc.c:1445-1450 | splitting a live block and freeing its rear leaves the front with its words |
| `Mspaces.Mspace.GrowIntoTop` | src/lj_alloc.c:1451-1461 | the block grows over the start of top and all blocks keep their words |
| `Mspaces.Mspace.MoveBlock` | src/lj_alloc.c:1466-1472 | allocate, copy, free moves the words; 0 only when malloc refuses |
| `IdealHeap.Do` | src/lj_alloc.c:1477-1487 | one request to the real heap gives the client what a heap of named, never moving blocks gives; a request fails only where the state found leaves no room for it, a resize only when the block is to grow and cannot do so in place, and a resize that can be done in place keeps the address |
| `IdealHeap.Run` | src/lj_alloc.c:1237-1487 | the same for every sequence of allocations, frees, resizes and stores: refinement of the ideal heap, blocks pairwise apart, every single answer legal in the state it met, no resize denied to a block that does not grow |
| `Arena.BlocksDisjoint` | src/lj_alloc.c:405-449 | live blocks are 8-aligned and disjoint although each uses the foot word of the next chunk |
| `Arena.ClientWrites` | src/lj_alloc.c:435-436 | whatever a client writes inside its block, the heap stays sound and the other blocks keep their words |
| `TreeIndex.IndexExact` | src/lj_alloc.c:626-642 | the computed bin is the one whose size range, by the minimum-size macro, contains the size |
| `TreeIndex.IndexMonotone` | src/lj_alloc.c:626-642 | larger sizes never have smaller bins |
| `TreeIndex.RootExact` | src/lj_alloc.c:626-652 | the interval at the root of trie i holds exactly the sizes with index i |
| `TreeIndex.SteerRoot` | src/lj_alloc.c:644-646 | the shift for bin i puts the first deciding bit on top, in 32 bits |
| `TreeIndex.SteerStep` | src/lj_alloc.c:1161-1169 | the top bit chooses the child whose interval holds the size, and one shift prepares the next level |
| `TreeSearch.VisitNode` | src/lj_alloc.c:1155-1160 | a node whose wrapped remainder is not smaller than the best so far cannot be a better fit, and one whose remainder is smaller does fit |
| `Bits.LeftBitsExact` | src/lj_alloc.c:668 | the mask of bit i has exactly the bits above i in a 32-bit word |
| `Bits.NextMarked` | src/lj_alloc.c:1174-1176 | masking and ffs find exactly the next non-empty bin above i, or none |
| `Bits.FirstMarked` | src/lj_alloc.c:1210 | ffs of a bin map is its lowest marked bin; the map is 0 exactly when none is marked |
| `Bits.FirstOfTwo` | src/lj_alloc.c:1285-1287 | adding `~smallbits & 1` chooses the lower marked one of bins i and i + 1 |
| `Bits.FlsBounds` | src/lj_alloc.c:634 | fls brackets a number between two powers of two |
| `DynasmLabels.TargetMeaning` | dynasm/dasm_x86.h:220-251 | a backward local reference means the latest definition since the last step, a forward one the next definition; a global or numbered one the latest earlier definition, else the first later one |
| `DynasmLabels.RefLinks` | dynasm/dasm_x86.h:230-238 | entering a reference in the label's chain keeps chains, table and history consistent |
| `DynasmLabels.DefLinks` | dynasm/dasm_x86.h:246-250 | a definition resolves exactly the pending references of its label and touches no other cell |
| `DynasmLabels.StepLinks` | dynasm/dasm_x86.h:487-490 | forgetting local labels none of which is pending keeps the books |
| `DynasmLabels.NoDefinition` | dynasm/dasm_x86.h:289-296 | a global marked as external is defined nowhere |
| `DynasmLayout.Spread` | dynasm/dasm_x86.h:325-348 | between any two places, also across sections, final code never runs backwards and never exceeds the pass-1 estimate |
| `DynasmLayout.NearIsShort` | dynasm/dasm_x86.h:312-326 | a branch found near by estimates ends within a signed byte of its label, whatever is shrunk or aligned afterwards |
| `DynasmLayout.AlignUpExact` | dynasm/dasm_x86.h:338 | alignment goes to the least multiple at or above the offset |
| `Dynasm.Assembler.Setup` | dynasm/dasm_x86.h:84-165 | the state before the first put call is consistent |
| `Dynasm.Assembler.Put` | dynasm/dasm_x86.h:167-269 | the status is that of the first failing check, by action; without one, exactly the actions of the list from start on are appended to the section with their arguments in order, and the books stay right |
| `Dynasm.Assembler.PutRef` | dynasm/dasm_x86.h:230-243 | one reference: cells, estimate and history grow by exactly this item |
| `Dynasm.Assembler.PutLabel` | dynasm/dasm_x86.h:246-251 | one definition: pending references now name it |
| `Dynasm.Assembler.Collapse` | dynasm/dasm_x86.h:248 | walking a chain while overwriting it rewrites exactly the cells of its references |
| `Dynasm.Assembler.CheckStep` | dynasm/dasm_x86.h:482-496 | Ok exactly when no local label is open and the section matches; local labels are forgotten |
| `Dynasm.Assembler.FirstOpen` | dynasm/dasm_x86.h:282-286 | Ok exactly when every numbered label that is referred to is defined |
| `Dynasm.Assembler.MarkGlobals` | dynasm/dasm_x86.h:289-296 | every reference to an undefined global is replaced by its marker, nothing else changes |
| `Dynasm.Assembler.Shrinks` | dynasm/dasm_x86.h:312-327 | a branch is shrunk by what its opcode allows, when its label will be near; when it is not shrunk its label is too far by the estimates |
| `Dynasm.Assembler.LinkSection` | dynasm/dasm_x86.h:299-348 | after one section every item in it has its final offset and all label cells in it are final |
| `Dynasm.Assembler.Link` | dynasm/dasm_x86.h:273-353 | Ok exactly when no numbered label is open; then the whole program is linked, offsets are consistent and the size is the last of them |
| `Dynasm.Assembler.Encode` | dynasm/dasm_x86.h:367-466 | there is no phase error, the code has the promised size, every item's bytes stand at its offset, every branch to a defined label, short or long, reaches that label, the bytes in front of every operand decode to the jump, call or condition that the action list spells, a jmp or jcc is long only where its label is not near, and every global defined here is entered with the address of its last definition |
| `DynasmDecode.TransferKept` | dynasm/dasm_x86.h:422-432 | read back from the code, a branch is the same transfer with the same condition as in the action list, in the long or the short form; any other opcode keeps its byte and a four-byte operand |
| `DynasmDecode.LongIsFar` | dynasm/dasm_x86.h:312-327 | a jmp or jcc to a defined label that was left long does not reach it backwards in a signed byte, or may not reach it forwards |
| `DynasmDecode.DataKept` | dynasm/dasm_x86.h:394-451 | every other action, read back from the code: its byte, its number, the distance to an absolute address, its fill bytes, nops up to the alignment |
| `DynasmDecode.AddressKept` | dynasm/dasm_x86.h:434-439 | an absolute label operand is the address at which the label's code is loaded |
| `DynasmDecode.ExternalKept` | dynasm/dasm_x86.h:422-436 | an operand for an external global, absolute or relative, leads to the address given for it |
| `DynasmDecode.DefinedListed` | dynasm/dasm_x86.h:440-445 | a global that is defined is entered with the address of its last definition |
| `DynasmCode.FitsExact` | dynasm/dasm_x86.h:200-203 | an immediate is accepted exactly when its bytes, read back, give it again |
| `Dynasm.Assembler.EncodeRel` | dynasm/dasm_x86.h:422-432 | long, short and external branches each get the right opcode bytes and operand |
| `Dynasm.Assembler.EncodeLabel` | dynasm/dasm_x86.h:440-445 | the label cell is the offset reached; a global label is entered with its address, and nothing else changes in the table |
| `Dynasm.Assembler.Pad` | dynasm/dasm_x86.h:448-451 | as many nops as pass 2 computed |
| `Dynasm.Assembler.GetPcLabel` | dynasm/dasm_x86.h:469-478 | the offset of the last definition; -1 exactly for a label referred to but undefined, negative otherwise |
| `Dynasm.Assembler.BranchReached` | dynasm/dasm_x86.h:427-431 | in encoded code operand plus end of instruction is the offset of the definition meant |
| `Dynasm.Assembler.PcBranch` | dynasm/dasm_x86.h:469-475 | for a label defined once, that offset is what GetPcLabel reports |
| `DynasmCode.OperandMeaning` | dynasm/dasm_x86.h:425-431 | the signed operand of one or four bytes, read back from the code and added to the offset behind it, is the label's final offset |
| `DynasmCode.MarkerLong` | dynasm/dasm_x86.h:314-315 | a branch to an external global is never shrunk and carries the global's number |
| `DynasmCode.LabelAt` | dynasm/dasm_x86.h:336-337 | after pass 2 a label cell is the offset of its item |
| `LuaPattern.BalanceMeaning` | src/lib_string.c:258-268 | the end of %b is the first point at which the nesting returns to zero |
| `LuaPattern.OutsInside` | src/lib_string.c:338-421 | captures of every outcome lie inside the matched text |
| `LuaMatch.MatchClassMeaning` | src/lib_string.c:196-214 | the class bit tables and the complement by upper case mean the named class |
| `LuaMatch.FindClassEnd` | src/lib_string.c:175-194 | the end of a single-character class, or exactly the malformed-pattern error |
| `LuaMatch.MatchBracketClass` | src/lib_string.c:216-237 | membership in the set that the brackets denote, with ranges, classes and complement |
| `LuaMatch.SingleMatch` | src/lib_string.c:239-247 | one character belongs to one class |
| `LuaMatch.MatchState.MatchBalance` | src/lib_string.c:251-270 | finds the balanced end or none |
| `LuaMatch.MatchState.MaxExpand` | src/lib_string.c:272-285 | tries the repetitions longest first, and answers with the first success of the rest |
| `LuaMatch.MatchState.MinExpand` | src/lib_string.c:287-299 | the same shortest first |
| `LuaMatch.MatchState.StartCapture` | src/lib_string.c:301-313 | the rest is matched with one capture more, undone on failure; too many captures are an error |
| `LuaMatch.MatchState.EndCapture` | src/lib_string.c:315-324 | the innermost open capture is closed for the rest and reopened on failure |
| `LuaMatch.MatchState.MatchCapture` | src/lib_string.c:326-336 | a back reference matches exactly an equal text; an error exactly for a capture that is not closed |
| `LuaMatch.MatchState.Match` | src/lib_string.c:338-421 | from any state: the answer is the first of the listed outcomes, captures and depth are restored on failure, and the depth error can arise only if the pattern left is long enough |
| `LuaMatch.MatchState.MatchAt` | src/lib_string.c:488-491 | the same from a fresh state: the matcher answers with the preferred outcome of the whole pattern; what the outcomes of each item are is the subject of the next rows |
| `LuaMeaning.FrontierMeaning` | src/lib_string.c:360-371 | %f matches, and takes nothing, exactly between a character outside the set and one inside, with a zero in front of the subject and behind it |
| `LuaMeaning.FrontierRuns` | src/lib_string.c:360-371 | for a set without the zero: exactly where a run of the set begins |
| `LuaMeaning.FrontierEnds` | src/lib_string.c:360-371 | for a set with the zero: never at the start; at the end exactly behind a character outside the set |
| `LuaMeaning.RepeatMeaning` | src/lib_string.c:272-299 | `*` and `+` offer every length of the run from the longest down, `-` from none up, `?` one before none |
| `LuaMeaning.CaptureMeaning` | src/lib_string.c:301-324 | the preferred capture around a repetition is the whole run |
| `LuaMeaning.PositionMeaning` | src/lib_string.c:301-313 | `()` captures the position and takes nothing |
| `LuaMeaning.BackMeaning` | src/lib_string.c:326-336 | %1 to %9 match exactly where the captured text stands again |
| `LuaMeaning.ItemNotation` | src/lib_string.c:338-421 | single characters and their four suffixes |
| `LuaMeaning.EscapeNotation` | src/lib_string.c:354-384 | what % and one more character stand for, and the errors |
| `LuaMeaning.CaptureNotation` | src/lib_string.c:343-353 | parentheses, `()`, and `$` at the end and elsewhere |
| `LuaMeaning.SetNotation` | src/lib_string.c:175-237 | ranges, complement, characters and classes in brackets, %b and %f |
| `LuaSearch.Scan` | src/lib_string.c:487-497 | the leftmost position with a match and its preferred match, or that no position has one, or the first error |
| `LuaSearch.FindAux` | src/lib_string.c:450-501 | the same for find and match, with start index and anchor |
| `LuaMeaning.StartMeaning` | src/lib_string.c:450-466 | where the search starts for a position in range, negative, zero, before the start and behind the end |
| `LuaMeaning.AnchorNotation` | src/lib_string.c:480 | a pattern is anchored exactly by a caret in front |
| `LuaSearch.GmatchNext` | src/lib_string.c:513-535 | the leftmost match at or behind the position; the next search starts right behind it, or one further when it is empty |
| `LuaSearch.GmatchAll` | src/lib_string.c:537-545 | the iteration ends; each match is the leftmost after its predecessor, and behind the last there is none, or the error met there |
| `LuaSearch.StartsIncrease` | src/lib_string.c:522-531 | matches of an iteration do not overlap and move right |
| `LuaSearch.AddS` | src/lib_string.c:547-566 | the template with %0 to %9 and %% expanded, or its error |
| `LuaSearch.WholeMatch` | src/lib_string.c:557-560 | %0 stands for the matched text |
| `LuaMeaning.TextMeaning` | src/lib_string.c:547-566 | an ordinary character of a template stands for itself, whatever follows |
| `LuaMeaning.PercentMeaning` | src/lib_string.c:547-566 | %0 is the match, %1 to %9 are the captures, or the match if there is none, or the error; % takes any other character literally |
| `LuaMeaning.CapturedIs` | src/lib_string.c:423-438 | the text of a capture: the characters it spans, the position in decimal, or an error for an unfinished or missing one |
| `LuaMeaning.DecimalMeaning` | src/lib_string.c:423-438 | the decimal form of a position, read again, is the position |
| `LuaSearch.Gsub` | src/lib_string.c:600-639 | the result is the subject cut into kept and replaced pieces without gap, each replaced piece a preferred match with its replacement, none skipped up to the limit, and the count is right (0 means that the subject comes back); an error comes from the matcher or the replacement at the position reached |
| `LuaSearch.SelfReplacement` | src/lib_string.c:600-639 | replacing every match by %0 gives back the subject |
| `RegShuffle.AsmState.Shuffle` | src/lj_asm.c:1870-1904 | the code emitted backwards, run forwards, is a parallel copy of all parent registers to their targets that spares kept registers; it fails exactly when a cycle has no temporary of its kind, and emits at most two moves per register |
| `RegShuffle.AsmState.CoalesceFree` | src/lj_asm.c:1874-1883 | after the inner loop no pending register is free and the code so far is right |
| `RegShuffle.AsmState.BreakCycle` | src/lj_asm.c:1889-1895 | one rename keeps the code right and unblocks the cycle, or there is no temporary |
| `RegShuffle.AsmState.Rename` | src/lj_asm.c:667-684 | free set, costs, IR registers and the rename record change as stated and the inverse move is emitted |
| `RegShuffle.AsmState.Spill` | src/lj_asm.c:371-392 | a slot is assigned once, slots of different values never overlap, an overflow exactly above 256 |
| `RegShuffle.EmitDelivers` | src/lj_asm.c:1881 | what one more move in front of the code does to where values come from |
| `RegShuffle.Cycles` | src/lj_asm.c:1889-1901 | when no target is free, the pending registers form cycles |
| `RegShuffle.AtRest` | src/lj_asm.c:1890-1893 | then the free temporaries are those known from the start |
| `TableSort.Sorter.Sort` | src/lib_table.c:259-268 | a permutation of positions 1 to n for every comparator; ordered and without error for a consistent one; recursion depth at most logarithmic; the result is the comparator's error exactly when a call raised one, and that was the last call; the error about the order function exactly when a scan ran to the end of its range with every answer yes |
| `TableSort.Sorter.AuxSort` | src/lib_table.c:196-257 | the same for any range, positions outside untouched |
| `TableSort.Sorter.Halve` | src/lib_table.c:249-255 | sorting the smaller part leaves a shorter range, with everything else in place |
| `TableSort.Sorter.Partition` | src/lib_table.c:222-248 | the pivot is in its final place between smaller and larger elements |
| `TableSort.Sorter.Scans` | src/lib_table.c:227-244 | the two scans meet, never leave the range for a consistent comparator, and split it around the pivot |
| `TableSort.Sorter.MedianOfThree` | src/lib_table.c:200-221 | first, middle and last are in order |
| `TableSort.Sorter.Exchange` | src/lib_table.c:201-206 | two elements change places exactly when the answer is yes; an error of the comparator is the result, and nothing has moved |
| `TableSort.Sorter.ScanUp` | src/lib_table.c:229-233 | stops at the first answer no; the error exactly when the end of the range is reached with every answer yes |
| `TableSort.Sorter.ScanDown` | src/lib_table.c:234-238 | the same downwards |
| `TableSort.Sorter.Comp` | src/lib_table.c:180-194 | for a consistent comparator the answer is the order's, whenever it is asked |
| `Uleb128.Wuleb128` | src/lj_strfmt.c:149-155 | writes the canonical ULEB128 form |
| `Uleb128.Ruleb128` | src/lj_buf.c:220-231 | reads the value modulo 2^32 and stops behind it, for every terminated encoding |
| `Uleb128.Ruleb33` | src/lj_bcdump.h:21-28 | the reader's side of U0/U1 (bcread_uleb128_33): the upper 32 of 33 bits, in 32-bit arithmetic |
| `Uleb128.Wuleb33` | src/lj_bcwrite.c:186-188 | writing in 32 bits and patching the last byte gives the canonical form of the 33-bit value |
| `Uleb128.PatchExact` | src/lj_bcwrite.c:192-194 | the patched byte is right for every number with its top bit set |
| `Uleb128.PrefixExact` | src/lj_bcwrite.c:291-295 | `(fls(n)+8)*9 >> 6` is the length of the encoding of n |
| `Uleb128.UlebInverse` | src/lj_strfmt.c:149-155 | decoding an encoded number, whatever follows, gives number and length back |
| `BcWrite.Writer.Ktabk` | src/lj_bcwrite.c:37-68 | appends the bytes of one key or value, numbers narrowed only where asked |
| `BcWrite.Writer.Ktab` | src/lj_bcwrite.c:71-108 | appends the array up to its last non-nil slot and the live hash entries |
| `BcWrite.Writer.KtabHash` | src/lj_bcwrite.c:98-107 | the backward loop stops right behind the last live node and writes each once |
| `BcWrite.Writer.Kgc` | src/lj_bcwrite.c:111-166 | appends the GC constants in order |
| `BcWrite.Writer.Knum` | src/lj_bcwrite.c:169-199 | appends the numbers as 33-bit integers or word pairs |
| `BcWrite.Writer.Pdata` | src/lj_bcwrite.c:250-287 | the buffer behind the gap is the prototype's data |
| `BcWrite.Writer.FillSize` | src/lj_bcwrite.c:290-295 | the length prefix ends exactly where the data starts |
| `BcWrite.Writer.WriteProto` | src/lj_bcwrite.c:234-298 | all chunks of the tree are written, children first, or a prefix of them up to the callback's first failure, whose code is the status |
| `BcWrite.Writer.WriteHeader` | src/lj_bcwrite.c:301-321 | signature, version and flags: stripped, and the FFI bit of the root prototype |
| `BcWrite.Writer.WriteFooter` | src/lj_bcwrite.c:324-330 | the end mark, unless the callback has failed before |
| `BcWrite.Writer.WriteDump` | src/lj_bcwrite.c:333-342 | header, prototypes and end mark; the flags are the stripped bit and the FFI bit of the root prototype; a non-zero status is the callback's |
| `BcWrite.RoundTrip` | src/lj_bcwrite.c:333-342 | a dump written without error parses back to the tree, normalised as the writer normalises it, and to its FFI flag |
| `BcFormat.ParseDump` | src/lj_bcdump.h:14-29 | the grammar is unambiguous: parsing a dump gives the tree and the header's FFI flag back with nothing left over |
| `BcFormat.HeaderFlags` | src/lj_bcwrite.c:311-314 | bit 2 of the header flags is bit 2 of the flag byte that stands in the last chunk, bit 1 is set, all others are clear |
| `BcFormat.ValueCodes` | src/lj_bcdump.h:55-59 | the type codes of keys and values, byte by byte |
| `BcFormat.ConstCodes` | src/lj_bcdump.h:49-53 | the type codes of the GC constants |
| `BcFormat.ConstsBack` | src/lj_bcdump.h:15-22 | the constants come back, each child from the stack of prototypes read before |
| `BcFormat.SlotKept` | src/lj_bcwrite.c:74-81 | cutting trailing nils and narrowing keeps the meaning of every array slot |
| `BcFormat.EntriesKept` | src/lj_bcwrite.c:82-87 | dropping dead nodes keeps exactly the entries of the hash part |
| `AssetCipher.Scipio` | AssetDecoder.cpp:150-695 | accepts exactly the files whose trailer fits; then the payload is decrypted by position and the wrapper by its stream |
| `AssetCipher.Blocks` | AssetDecoder.cpp:264-677 | the block loop decrypts all but the last 1 to 8 bytes, cycling through the ciphers |
| `AssetCipher.Block` | AssetDecoder.cpp:348-573 | one block by the cipher of its position |
| `AssetCipher.XxteaBlock` | AssetDecoder.cpp:502-572 | the in-place XXTEA loop, counted down, is XXTEA decryption |
| `AssetCipher.TeaBlock` | AssetDecoder.cpp:444-497 | the TEA loop is TEA decryption |
| `AssetCipher.XteaBlock` | AssetDecoder.cpp:357-404 | the XTEA loop with its own key counter is XTEA decryption |
| `AssetCipher.Unwrap` | AssetDecoder.cpp:237-261 | the in-place stream with its signed feedback |
| `AssetCipher.XxteaBack` | AssetDecoder.cpp:502-572 | XXTEA decryption undoes encryption, for any number of words and rounds |
| `AssetCipher.TeaBack` | AssetDecoder.cpp:444-497 | the same for TEA |
| `AssetCipher.XteaBack` | AssetDecoder.cpp:357-404 | the same for XTEA |
| `AssetCipher.BlockBack` | AssetDecoder.cpp:405-440 | every block mode is a bijection |
| `AssetCipher.PayloadBack` | AssetDecoder.cpp:270-695 | decrypting an encrypted payload of any length gives it back |
| `AssetCipher.WrapperBack` | AssetDecoder.cpp:237-261 | the same for the wrapper stream |
| `AssetCipher.FileBack` | AssetDecoder.cpp:168-191 | from a packed file the decoder recovers sizes, payload and wrapper |
| `AssetSource.BlockSource` | AssetDecoder.cpp:348-573 | for every block number the decryption is the decoder's own straight-line arithmetic with its shifts, sums and key words: XXTEA, TEA, XOR, XTEA in this order |
| `AssetSource.FileBlock` | AssetDecoder.cpp:270-695 | block n of the payload of a file is decrypted by that arithmetic, for every n |
| `AssetSource.PlainRest` | AssetDecoder.cpp:270-695 | the last 1 to 8 bytes stay as they are |
| `AssetSource.KeyWords` | AssetDecoder.cpp:9-16 | the key words are the 76 bytes read four at a time, lowest first |
| `AssetSource.XorMeaning` | AssetDecoder.cpp:405-440 | the xor of two words, bit by bit |
| `AssetSource.ShiftMeaning` | AssetDecoder.cpp:502-572 | the shifts of a word, bit by bit |
| `AssetSource.WrapperByte` | AssetDecoder.cpp:249-261 | a byte of the wrapper is xored with bits 8 to 15 of the state |
| `LuaAux.RefTable.Ref` | src/lib_aux.c:269-289 | the newest released reference, or the one behind the border if there is none; it was not in use, and the other references keep their values |
| `LuaAux.RefTable.Unref` | src/lib_aux.c:291-300 | exactly this reference is released and will be the next one given out; the free list never meets a live one |
| `LuaAux.OnlyBorder` | src/lib_aux.c:284-285 | with an empty free list the table has one border only, so lua_objlen is determined |
| `LuaAux.Buffer.AdjustStack` | src/lib_aux.c:194-210 | exactly as many levels are joined as the two rules ask for, the others stay; the text is kept and the number of levels bounded |
| `LuaAux.Buffer.EmptyBuffer` | src/lib_aux.c:183-192 | the pending characters become a level |
| `LuaAux.Buffer.AddLString` | src/lib_aux.c:219-223 | the text grows by exactly the string, for every mix of flushes |
| `LuaAux.Buffer.AddValue` | src/lib_aux.c:237-252 | the same for a value, copied or kept as a level |
| `LuaAux.Buffer.PushResult` | src/lib_aux.c:230-235 | one string with everything added |

## Left out

Allocator:

- direct mapping: a request of 128K and more is modelled as if direct_alloc had failed, so it goes on to the segment.
- segments that the system places elsewhere (prepend_alloc, add_segment), trimming and releasing segments.
- mmap itself: whether the system grants an extension at the end of the segment is a parameter.
- memory is read and written in aligned 32-bit words; client bytes below a word are not distinguished.
- the leftmost-child loop is written once for the two functions that contain it.
- usage errors (double free, foreign pointers) are excluded by the preconditions.

DynASM:

- Dynasm.Assembler.Put: no call after a failed one is described, and a section holds at most 2^24 positions.
- Dynasm.Assembler.Link: gives no guarantee when a forward local label is still open, which the original does not check there; dasm_checkstep is what reports it.
- the actions DISP, VREG, MARK, SETLABEL, IMM_DB, IMM_WB and EXTERN, which rewrite earlier operand bytes, name a second label position or call out; ESC with its byte is the action Byte.
- growing buffers and tables; lglabels and pclabels are one map; offsets do not wrap at 2^31.

Pattern matching:

- the plain-text search that find uses for patterns without special characters.
- the 5.2 branch of gsub and the truncation of positions to 32-bit integers.
- tables and functions as replacements are a pure function of the match.
- LuaMatch.MatchState.Match: the depth error may pre-empt any outcome once the pattern is as long as the limit; how deep the recursion goes on shorter ones is not measured.

Register shuffle:

- the rest of the side-trace head (restoring spilled slots, the stack check) and the machine-code limit.
- RegShuffle.AsmState.Shuffle: the allocated registers are assumed to be exactly the pending targets, as the code before the loop leaves them.

table.sort:

- comparators that change the table, and the overflow of l + u beyond 2^31.

Bytecode dumps:

- debug information (the dumps are stripped), unpatching of JIT-modified bytecode, errors from buffer growth.
- the conversion of a double to an integer is a function with the stated law; bytes of instructions are opaque words.
- the long decompiled parts of the reader around its constant loop; the parser follows the documented grammar.

Asset decoder:

- failed allocations and failed assertions are both `ok == false`.

Auxiliary library:

- lua_objlen is a parameter constrained to be a border; other keys in the reference table.
