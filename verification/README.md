# Algorithms of the BSD commands, modelled and proved in Dafny

This project models ten in-memory algorithms of the old BSD user programs and proves what they are for. Each
module is named after the program and the part it models; `dafny verify dfyconfig.toml` checks all of them.

| modules | what they model |
|---|---|
| AwkRe, AwkLocal, AwkRuns, AwkExact | regular expressions over numbered leaves: language, leaf sequences, follow sets, sets of active positions |
| AwkFollow, AwkDfa, AwkMatch | awk's compiler from pattern trees to automata, and the run on a string |
| Lcs, DiffStone, DiffSort, DiffOutput, DiffReg | diff: longest common subsequences, the candidate search, the sort and the classes, change records, the whole |
| AsPrime, AsSyms | the assembler's symbol table with quadratic probing modulo 1103 |
| AsJxxx | the assembler's choice between short and long jumps |
| AsNum, AsBytes, AsDesc, AsRound, AsPack, AsTrip, AsWords, AsBignum | the assembler's numbers of 128 bits: limbs, bytes, type descriptions, rounding, packing and unpacking, the way back, the types as words of 16 bits, the whole |
| EdCrypt, EdStore | ed's rotor cipher, and its store of lines behind two block buffers |
| GrepRe, GrepText, GrepParse, GrepMatch, GrepCompile | grep's patterns: what they mean, how they are written, how they are read, the backtracking matcher and the compiler |
| CshAlloc | csh's allocator with buckets of powers of two |
| CshTree, CshMem, CshNames, CshPlace, CshSet | csh's variables: balanced trees as values, as linked nodes, their order, a place in a tree, the operations |
| CshProc | csh's job table |

Four points come from the code rather than from its comments:

- A jump backwards over an entry that keeps its value (a fixed stab, say) may be sized wrongly: the backward search
  stops at the first value that is not above the destination, and such a value does not move with the text. The search
  misses something exactly when an entry that may grow lies between the destination and that place
  (`AsJxxx.BehindSees`), and `AsJxxx.FixedEntryHidesJump` is a table that ends with a jump out of reach. What
  `AsJxxx.Segment.JxxxFix` promises holds for every sorted table, with one exception. That jumps left short reach is
  promised under `ClearBehind` only: for an entry that keeps its value behind a destination, no jump or align lies
  between the two, or the destination cannot get up to its value even when all jumps in front of it become long.
- The carry test of `numaddv` misses a carry when both limbs are all ones and a carry comes in, and only then
  (`AsNum.CarryExact`, and `AsNum.NumAddV` for whole numbers; `AsNum.OnesMissed` is an input). None of the calls modelled here meets that case.
- A float whose biased exponent does not fit into a signed word of 16 bits is packed as zero with the underflow flag,
  not as the largest magnitude; for the H format this is every exponent that is too large (`AsPack.PackFloat`, `AsPack.LargeHIsZero`).
- A job index is kept in a signed character. The 128th job at a time gets the stored index -128, and so does the next
  one; from then on `pmaxindex` is 128 for good (`CshProc.TwoJobsOneIndex`, `CshProc.Table.PFlush`). With fewer than 127
  jobs at every new job, indices stay distinct and `pmaxindex` their maximum, and only then (`CshProc.Table.PAlloc`).

## Model

| member | source | states |
|---|---|---|
| AwkMatch.MatchText | bin/awk/b.c:45-62 | Building the automaton of a pattern tree and running it on a string gives 1 exactly when some substring of the string is in the language of the tree, and 0 otherwise; there is no automaton exactly when texts without a match lead to more different states than the table holds |
| AwkMatch.MakeDfa | bin/awk/b.c:45-62 | The whole construction (tree with DOT STAR in front, follow sets, subset construction) yields an automaton whose every state has the right positions, finality and transitions, except exactly when the table is too small for the states of the pattern |
| AwkMatch.EnterTree | bin/awk/b.c:45-87 | The tree around the pattern is numbered, linked to its parents and ends in FINAL |
| AwkMatch.Match | bin/awk/b.c:511-539 | The run returns 1 exactly when some prefix of the text makes the final marker active, although a missing edge means state 0 and a final state ends the run at once |
| AwkMatch.Run | bin/awk/b.c:514-538 | The same from any character and any state that the text read so far leads to |
| AwkMatch.Next | bin/awk/b.c:516-533 | The target of the edge for a character, and 0 exactly for lack of one |
| AwkMatch.ReadOne | bin/awk/b.c:514-533 | One character keeps the correspondence between the state of the automaton and the set of active positions |
| AwkMatch.HitIffPart | bin/awk/b.c:511-539 | Prefixes that end in a match are the same thing as substrings in the language |
| AwkDfa.CGotoFn | bin/awk/b.c:292-509 | The subset construction ends, and all its states are right; it gives up exactly when there are more different states, reached by texts without a match, than there is room for |
| AwkDfa.BuildStates | bin/awk/b.c:371-489 | The loop over the states: each state that is listed is worked off once; it fails exactly when there are too many |
| AwkDfa.OneState | bin/awk/b.c:371-489 | A final state gets no edges; any other one gets exactly the edges that lead to something beyond the initial positions |
| AwkDfa.NextState | bin/awk/b.c:430-453 | The new positions reached from a set by a character, initial ones set aside |
| AwkDfa.StateSymbols | bin/awk/b.c:380-429 | A state stores only positions beyond the initial ones; positions and characters of both are put together, and the characters are exactly those that some position reads |
| AwkDfa.Transitions | bin/awk/b.c:430-475 | Every character of a state gets an edge to the state of its successor set, old or new, unless that is the initial set |
| AwkDfa.ListedMore | bin/awk/b.c:454-465 | A set that notin does not find is different from all states, disjoint from the initial positions, and made by a text without a match and one more character |
| AwkDfa.LiveState | bin/awk/b.c:371-489 | Every text without a match leads to a state of the finished automaton |
| AwkDfa.ListedFew | bin/awk/b.c:454-459 | No list of different states that texts make is longer than the automaton |
| AwkDfa.Collect | bin/awk/b.c:330-367 | The characters that one leaf accepts are noted, each once |
| AwkFollow.Sets.PEnter | bin/awk/b.c:64-87 | Leaves are numbered in order, point[] leads to them, and parent links are set throughout |
| AwkFollow.Sets.First | bin/awk/b.c:180-212 | The marks grow by exactly the first set, and 0 is returned exactly for an expression that matches the empty string |
| AwkFollow.Sets.Follow | bin/awk/b.c:214-247 | Climbing the parent links marks exactly what can come after the subtree |
| AwkFollow.Sets.NotIn | bin/awk/b.c:258-274 | Tells whether one of the lists is the list of the marks, and which |
| AwkFollow.Sets.Add | bin/awk/b.c:276-290 | The marks as an ascending list |
| AwkFollow.Sets.CFoll | bin/awk/b.c:148-178 | Every leaf below the node gets the list of its follow set, though equal lists are shared |
| AwkFollow.Sets.CFollLeaf | bin/awk/b.c:156-166 | One leaf gets the list of its follow set; lists of earlier leaves stay |
| AwkExact.FollowExact | bin/awk/b.c:148-247 | The set entered for a leaf has exactly the leaves that come right after it in some generated leaf sequence, and the final marker exactly when a sequence can end there |
| AwkExact.InitExact | bin/awk/b.c:148-247 | The set of the DOT in front has exactly the leaves that a sequence can start with, and the marker exactly when the empty sequence is generated |
| AwkLocal.GenIffLocal | bin/awk/b.c:148-247 | A leaf sequence is generated exactly when it starts in the first set, ends in the last set and each step is in a follow set |
| AwkRuns.FinalIffSuffix | bin/awk/b.c:292-509 | The final marker is active after a text exactly when some suffix of the text is in the language |
| AwkRuns.GenMatches | bin/awk/b.c:148-247 | What a generated leaf sequence spells is in the language |
| AwkRuns.MatchesGen | bin/awk/b.c:148-247 | Every word of the language is spelt by a generated leaf sequence |
| AwkRuns.ActiveWay | bin/awk/b.c:430-453 | An active position is initial or the end of a path through the follow sets that spells a suffix of the text |
| AwkRuns.WayActive | bin/awk/b.c:430-453 | The end of every such path is active |
| DiffReg.Diff | bin/diff/diffreg.c:625-653 | The records turn the old file into the new one, whatever the hash function; when equal hash values mean equal lines, no other record script deletes and adds fewer lines; no record is empty, and between neighbours at least one line is kept in each file |
| DiffReg.DiffEdit | bin/diff/diffreg.c:625-653 | The same for -e: the commands, carried out last to first one after the other, make the new file, are shortest, and are grouped likewise |
| DiffReg.MatchVector | bin/diff/diffreg.c:374-460 | Pruning, sorting, classes, the candidate search and unravel find a crossing-free matching of equal values whose size is the length of a longest common subsequence of the two whole value sequences |
| DiffReg.Tables | bin/diff/diffreg.c:346-372 | sort, equiv and unsort together give each old line the index of a run in member that lists exactly its equal lines in ascending order, or 0 |
| DiffReg.CheckedMatch | bin/diff/diffreg.c:467-564 | After check, J pairs equal lines only and does not cross; nothing is lost when the hash function separates the lines |
| DiffReg.ScriptBound | bin/diff/diffreg.c:26-60 | Any record script that makes a prefix of the new file leaves a common subsequence untouched |
| DiffReg.WholeScriptBound | bin/diff/diffreg.c:26-60 | No script can delete and add fewer lines than a longest common subsequence allows |
| DiffReg.LongestIsShortest | bin/diff/diffreg.c:26-60 | A script that keeps a longest common subsequence is a shortest one |
| Lcs.Row | bin/diff/diffreg.c:26-60 | A prefix pair reaches length l exactly when it does without the last line, or some mate of that line extends length l - 1 |
| Lcs.Step | bin/diff/diffreg.c:26-60 | One more line on either side gains at most one, and never loses |
| Lcs.MatchingBound | bin/diff/diffreg.c:26-60 | No crossing-free matching has more pairs than the recursive length says |
| Lcs.DropEnds | bin/diff/diffreg.c:329-344 | Setting a common prefix and a common suffix aside loses nothing of the longest length |
| DiffStone.Searcher.Stone | bin/diff/diffreg.c:374-413 | The search ends with as many levels as a longest common subsequence is long, and a chain of candidates that long |
| DiffStone.Searcher.StoneLine | bin/diff/diffreg.c:385-411 | After a line, klist holds for each length the least end column at which it is reached |
| DiffStone.Searcher.ConsiderMate | bin/diff/diffreg.c:392-410 | One mate of a line replaces a candidate, extends klist, or is passed over, with the loop state kept |
| DiffStone.Searcher.Search | bin/diff/diffreg.c:426-448 | Binary search finds the level whose neighbours enclose the column |
| DiffStone.Searcher.NewCand | bin/diff/diffreg.c:415-424 | A candidate is appended, and its position returned |
| DiffStone.Searcher.Unravel | bin/diff/diffreg.c:450-460 | J pairs the kept ends and the lines on the chain, and nothing else |
| DiffStone.Searcher.UnravelChain | bin/diff/diffreg.c:457-459 | Following the links of the chain adds one pair for each candidate |
| DiffStone.RowThresholds | bin/diff/diffreg.c:374-413 | When every mate of a line has been considered, the thresholds of the next row are right |
| DiffStone.ReachesMeaning | bin/diff/diffreg.c:374-413 | Length l is reached at a column exactly when the thresholds of the line before and its mates say so |
| DiffSort.Sort | bin/diff/diffreg.c:566-599 | The gap sort gives an ordered permutation: by value, then by serial |
| DiffSort.GapPass | bin/diff/diffreg.c:579-598 | Every pass permutes; the pass with gap 1 sorts |
| DiffSort.Prune | bin/diff/diffreg.c:329-344 | The longest common prefix, and the longest common suffix of what is left |
| DiffSort.Equiv | bin/diff/diffreg.c:346-372 | Each old line gets the first position of its value in the sorted new lines, or 0; the new lines are squeezed into member |
| DiffSort.FindClasses | bin/diff/diffreg.c:351-361 | The merge finds the first equal new line of each old one, or 0 |
| DiffSort.Squeeze | bin/diff/diffreg.c:362-371 | member lists the serials, and a minus sign starts each class |
| DiffSort.Unsort | bin/diff/diffreg.c:601-613 | The class of each line goes back to the place of the line in the file |
| DiffSort.ClassIsRun | bin/diff/diffreg.c:346-372 | The class of a value in member lists exactly the new lines with that value, ascending |
| DiffSort.TablesFit | bin/diff/diffreg.c:346-372 | Together: class leads each old line to its mates |
| DiffOutput.Check | bin/diff/diffreg.c:467-564 | Exactly the pairs whose lines differ are broken |
| DiffOutput.OutputForward | bin/diff/diffreg.c:625-643 | For any J that pairs equal lines without crossing, the ranges passed to change patch the old file into the new one, at the cost of the unpaired lines; no record is empty or holds a paired line, and neighbours are apart |
| DiffOutput.OutputBackward | bin/diff/diffreg.c:644-652 | The ranges passed last to first, applied one after the other, edit the old file into the new one, at the same cost, grouped likewise |
| DiffOutput.BehindChange | bin/diff/diffreg.c:629-643 | A change joins the records apart from the last one, and holds no paired line |
| DiffOutput.AheadChange | bin/diff/diffreg.c:644-652 | So does a command |
| DiffOutput.PatchedChange | bin/diff/diffreg.c:692-780 | A record extends what has been patched to the end of its ranges |
| DiffOutput.PatchedKeep | bin/diff/diffreg.c:625-643 | So does a pair of equal lines |
| DiffOutput.EditedChange | bin/diff/diffreg.c:692-780 | A command extends what has been edited back to the start of its ranges |
| DiffOutput.EditedKeep | bin/diff/diffreg.c:644-652 | So does a pair of equal lines |
| AsSyms.LookupAll | bin/as/assyms.c:385-450 | In any run of installing lookups, two names get the same slot exactly when they are equal |
| AsSyms.SymbolTable.Lookup | bin/as/assyms.c:385-450 | A known name is found where it was installed and the table stays; an unknown one is installed, or gets an empty slot when nothing is to be installed |
| AsSyms.SymbolTable.Scan | bin/as/assyms.c:410-433 | A name that is in no segment is reported absent, with the first free slot of a segment that is not clogged |
| AsSyms.SymbolTable.HtabAlloc | bin/as/assyms.c:360-370 | A fresh empty segment comes second in the list |
| AsSyms.Search | bin/as/assyms.c:411-427 | One probe sequence of 552 slots finds the name, or a free slot within them unless the segment is clogged |
| AsSyms.NotAllCrowded | bin/as/assyms.c:372 | With at most 551 slots in use, one of 552 probes is free |
| AsSyms.FoundBeforeFree | bin/as/assyms.c:411-427 | A stored name is met before the first free slot of its probe sequence |
| AsSyms.ProbeNext | bin/as/assyms.c:411-417 | Adding odd steps, with one subtraction of the size, walks the squares modulo 1103 |
| AsSyms.Install | bin/as/assyms.c:442-448 | Filling that slot keeps all stored names reachable |
| AsPrime.Prime | bin/as/as.h:20 | 1103 is prime |
| AsPrime.NoZeroProduct | bin/as/as.h:20 | No product of two smaller positive numbers is a multiple of 1103 |
| AsPrime.ProbesDiffer | bin/as/assyms.c:372-384 | The first 552 probes of a name are all different |
| AsJxxx.Segment.JxxxFix | bin/as/asjxxx.c:238-467 | On every sorted table the sizing ends with all jumps decided; every align ends on a multiple of its power of two with the least padding; entries have moved by the growth in front of them. When no align lies between a jump and a destination that are near enough at first, the long jumps are contained in the long set of every assignment in which short jumps reach, and are such an assignment exactly when all short jumps reach. Where fixed entries hide nothing, short jumps reach; and when an align does lie so, the short jumps are exactly those that reach even if everything in between grows |
| AsJxxx.Segment.Pass | bin/as/asjxxx.c:247-388 | A pass keeps the invariant and takes each changed jump out of the active ones, so passes end |
| AsJxxx.Segment.Consider | bin/as/asjxxx.c:262-388 | One look: long when the destination is out of reach now, short when it stays in reach even if all in between grows, undecided else |
| AsJxxx.Segment.Ahead | bin/as/asjxxx.c:339-365 | The forward search adds the fears of all entries in between, and tells whether one of them is an align |
| AsJxxx.Segment.Behind | bin/as/asjxxx.c:366-387 | The backward search likewise |
| AsJxxx.LookIsVerdict | bin/as/asjxxx.c:339-387 | The searches stop by value; where fixed entries hide nothing they see exactly the entries between jump and destination |
| AsJxxx.BehindSees | bin/as/asjxxx.c:366-387 | The backward search adds up all fears between jump and destination exactly when nothing that may grow lies between the destination and the place where it stops |
| AsJxxx.NothingHidden | bin/as/asjxxx.c:366-387 | A fixed entry behind the destination at which the search may stop hides no jump or align, in any state of the passes |
| AsJxxx.VerdictInv | bin/as/asjxxx.c:262-387 | The tag that a look gives keeps the invariant |
| AsJxxx.OutForGood | bin/as/asjxxx.c:262-335 | A jump that is out of reach now is long in every assignment in which short jumps reach |
| AsJxxx.DisplWidens | bin/as/asjxxx.c:478-515 | Growth only moves a jump and its destination apart, and leaves what may still grow in between as it was |
| AsJxxx.PassDecides | bin/as/asjxxx.c:262-387 | The first pass makes long what is out of reach, and short what reaches in the worst case; later passes make nothing else short |
| AsJxxx.ShortCertain | bin/as/asjxxx.c:339-387 | A jump that some pass makes short would have been made short by the first |
| AsJxxx.FinishedEarly | bin/as/asjxxx.c:238-467 | What was decided by the first pass shows in the final table |
| AsJxxx.Segment.Break | bin/as/asjxxx.c:390-422 | The jumps that wait for each other are decided, and have grown |
| AsJxxx.Segment.JxxxBump | bin/as/asjxxx.c:478-515 | All pending growth takes place: later entries and the end of the segment move by its sum |
| AsJxxx.BumpInv | bin/as/asjxxx.c:478-515 | Growth keeps the invariant |
| AsJxxx.BumpWorst | bin/as/asjxxx.c:478-515 | Growth only moves from what may happen to what has happened, so the worst displacement of a decided jump stays |
| AsJxxx.Segment.Deadlock | bin/as/asjxxx.c:409-420 | Jumps that wait for each other become short, or long when some jump crosses an align |
| AsJxxx.ResolvedInv | bin/as/asjxxx.c:390-420 | Either way the invariant holds: jumps that only wait for each other may all stay short |
| AsJxxx.Segment.FixAligns | bin/as/asjxxx.c:424-461 | The aligns get their final sizes one after the other |
| AsJxxx.Segment.FixAlign | bin/as/asjxxx.c:426-460 | One align is settled, and everything behind it moves |
| AsJxxx.AlignInv | bin/as/asjxxx.c:424-461 | Aligns settled before stay aligned, and short jumps that were sure to reach still are |
| AsJxxx.Correction | bin/as/asjxxx.c:432-447 | The correction of the guessed byte makes the value a multiple, with less padding than the power of two |
| AsJxxx.StartInv | bin/as/asjxxx.c:58-92 | All tables that pass 1 and jalign leave, sorted, satisfy the invariant |
| AsJxxx.StartOrder | bin/as/assyms.c:230-258 | The order of symcmp puts entries in ascending values, strictly at jumps and aligns |
| AsJxxx.Finished | bin/as/asjxxx.c:238-467 | The invariant with nothing undecided gives the promises of the whole |
| AsJxxx.FinishedSafe | bin/as/asjxxx.c:238-467 | When no near jump crosses an align, the final long jumps are an assignment in which short jumps reach, if they do in the final table |
| AsJxxx.SafeReach | bin/as/asjxxx.c:238-467 | The converse: where the final long jumps are an assignment in which short jumps reach, they reach in the final table |
| AsJxxx.FixedEntryHidesJump | bin/as/asjxxx.c:366-387 | A table in which an entry that does not move stands between a backward jump and its destination: the passes end with a short jump that does not reach |
| AsBignum.RoundTrip | bin/as/bignum2.c:113-396 | Packing an unpacked number back to its own type returns the same bytes and no flag exactly for integers, floats with a nonzero exponent field, and zero; any other float becomes zero with the underflow flag |
| AsTrip.PackNearest | bin/as/bignum2.c:322-394 | A float that fits reads back as the fraction rounded to nearest, ties up, with the right sign, and an exponent raised by one exactly when rounding carried out; so the error is at most half an ulp |
| AsTrip.UnitsNearest | bin/as/bignum2.c:425-490 | What upround keeps, in units of the last place, is the nearest to the fraction |
| AsTrip.IntegerTemp | bin/as/bignum2.c:113-316 | Packing an unpacked integer gives its two's complement again |
| AsTrip.IntegerBack | bin/as/bignum2.c:320-321 | Its bytes are then back in their places |
| AsTrip.FloatBack | bin/as/bignum2.c:322-394 | A float with a nonzero exponent field packs back to the same bytes, and cannot be out of range |
| AsBignum.BignumPack | bin/as/bignum2.c:231-396 | Zero is zero in every type; integers are chopped at the binary point, or saturated; floats are rounded when in range, else zero or the largest magnitude, with the flag that says so; all this read off the words of 16 bits that are written |
| AsBignum.BignumUnpack | bin/as/bignum2.c:113-229 | Sign, exponent and fraction of every type as its words of 16 bits say them, with the first one of an integer dropped |
| AsWords.FloatWords | bin/as/floattab.c:71-114 | By the tables of a float type, the first word has the sign, the exponent and the highest fraction bits, and the other words follow in falling order |
| AsWords.IntegerWords | bin/as/floattab.c:16-70 | By the tables of an integer type, its bytes are a number in two's complement, the lowest byte first |
| AsWords.FloatWritten | bin/as/bignum2.c:322-394 | A float that fits is written with the exponent and the sign in their places, and the fraction rounded to the units of the type |
| AsWords.IntegerWritten | bin/as/bignum2.c:270-321 | An integer is written as the highest bits of what is stored for it |
| AsWords.OutWritten | bin/as/bignum2.c:341-394 | A float too large has all bits set but the sign, one too small is zero |
| AsPack.PackFloat | bin/as/bignum2.c:322-394 | In range exactly when no flag is set; an exponent beyond 16 bits counts as underflow |
| AsPack.LargeHIsZero | bin/as/bignum2.c:341-376 | The least exponent too large for the H format makes zero with the underflow flag |
| AsPack.PackInteger | bin/as/bignum2.c:270-321 | The magnitude chopped at the binary point; the largest one with a flag when too large, zero with a flag when below one |
| AsPack.Magnitude | bin/as/bignum2.c:279-311 | The value before negation, in each of the three cases |
| AsPack.Denormalize | bin/as/bignum2.c:304-310 | Shifts by falling powers of two come to one division |
| AsPack.RoundFloat | bin/as/bignum2.c:332-336 | The shifted fraction is rounded, and the exponent raised exactly on a carry |
| AsPack.UnpackInteger | bin/as/bignum2.c:165-194 | The magnitude, shifted until its first one drops off; the exponent counts the shifts |
| AsBignum.UnpackFloat | bin/as/bignum2.c:197-220 | The fraction moves to the top of the number, the exponent loses its bias |
| AsPack.Normalize | bin/as/bignum2.c:176-189 | Shifts by falling powers of two move the first one to the top |
| AsRound.UpRound | bin/as/bignum2.c:425-490 | Half an ulp is added in place, and a carry out of the fraction raises the exponent |
| AsRound.RoundSum | bin/as/bignum2.c:425-490 | The sum of the halved constants carries exactly when fraction plus half an ulp does |
| AsDesc.MapsInverse | bin/as/floattab.c:15-116 | The byte maps of every type are inverse to each other |
| AsDesc.MapNumber | bin/as/bignum2.c:398-416 | Copying through a map puts each byte at the place its inverse tells, and leaves the others |
| AsNum.NumShift | bin/as/bignum1.c:217-261 | Multiplication or division by a power of two modulo 2^128, with a flag exactly for lost bits |
| AsNum.NumAddV | bin/as/bignum1.c:273-292 | Sum and carry never come to more than the true sum, and are exact exactly when no limb is all ones in both numbers with a carry in |
| AsNum.CarryExact | bin/as/bignum1.c:273-292 | The carry of a limb is right exactly unless both limbs are all ones with a carry in |
| AsNum.OnesMissed | bin/as/bignum1.c:273-292 | Adding all ones to itself misses a carry |
| AsNum.NumNegate | bin/as/bignum1.c:294-302 | Two's complement modulo 2^128, with the flag exactly for zero |
| AsNum.Num1Comp | bin/as/bignum1.c:304-313 | Complement to all ones |
| AsNum.IsClear | bin/as/bignum1.c:187-191 | Clear exactly when the value is zero |
| EdCrypt.CrInit | bin/ed/ed.c:1689-1751 | For every key and seed, t1 is a permutation with inverse t2, and t3 an involution without fixed points, both determined by the key; the call fails exactly for an empty key |
| EdCrypt.Turn | bin/ed/ed.c:1732-1746 | One round swaps two entries of t1 and pairs the top unpaired entry of t3; its divisor is not zero |
| EdCrypt.FirstSingle | bin/ed/ed.c:1742-1743 | The search loop ends at an unpaired entry |
| EdCrypt.OtherSingle | bin/ed/ed.c:1741-1743 | An unpaired entry is never the only one below, by parity |
| EdCrypt.PairedStep | bin/ed/ed.c:1744-1745 | Pairing two entries keeps the rest paired |
| EdCrypt.SwapInverse | bin/ed/ed.c:1738-1740 | A swap in a permutation leaves a permutation |
| EdCrypt.Invert | bin/ed/ed.c:1747-1748 | t2 undoes t1 |
| EdCrypt.CrBlock | bin/ed/ed.c:1629-1656 | A buffer is replaced by the text sent through the rotors from a position on |
| EdCrypt.RotorTwice | bin/ed/ed.c:1646-1655 | A character sent through twice at one position comes back |
| EdCrypt.CryptTwice | bin/ed/ed.c:1629-1656 | crblock applied twice with the same start restores every buffer |
| EdCrypt.LaterSession | bin/ed/ed.c:1629-1751 | So does the second application with the tables that a later session makes of the same key |
| EdStore.Store.PutLine | bin/ed/ed.c:867-893 | A line is stored under a new address, and all lines stored before keep theirs; the next one goes to the least multiple of four bytes behind it; it fails exactly at the block limit, with nothing lost |
| EdStore.Store.GetLine | bin/ed/ed.c:850-865 | Every address returned by putline gives the line stored there, after any later reads and writes |
| EdStore.Store.GetBlock | bin/ed/ed.c:896-943 | The buffer returned agrees with one flat array of bytes at the block of the address; it fails exactly above the limit |
| EdStore.Store.PutText | bin/ed/ed.c:876-889 | The characters up to the line end follow each other in the flat array, across blocks |
| EdStore.Store.Fetch | bin/ed/ed.c:916-927 | The block brought in is the one that was written |
| EdStore.Store.StartBlock | bin/ed/ed.c:929-942 | The block written out keeps its bytes |
| EdStore.Store.PutByte | bin/ed/ed.c:879-880 | A byte in the write buffer is a byte of the flat array |
| GrepCompile.GrepLine | bin/grep/grep.c:158-348 | A pattern compiles exactly when it is written as the grammar says and fits; it finds a match in a line exactly when some stretch of the line matches the items written, from the start when it begins with ^; and so for the shown text of any items |
| GrepCompile.Compile | bin/grep/grep.c:158-288 | Compilation succeeds exactly for well-formed patterns that fit, and the code means the items that are written in the pattern; what stands behind the point where the buffer is full may be anything |
| GrepCompile.Turn | bin/grep/grep.c:182-285 | One character of the pattern, with what belongs to it, keeps the correspondence of code and pattern |
| GrepCompile.PutClass | bin/grep/grep.c:212-240 | A bracket class becomes a bit map that contains a character exactly when the class does |
| GrepCompile.PutMembers | bin/grep/grep.c:222-231 | Members and ranges up to the closing bracket set exactly their bits |
| GrepCompile.EmitStar | bin/grep/grep.c:199-204 | Setting one bit of the last operation makes it its closure |
| GrepCompile.EmittedCoded | bin/grep/grep.c:158-288 | Code that has been written can be run from any point |
| GrepParse.ReadIffWritten | bin/grep/grep.c:158-285 | The cases of the compiler read exactly the patterns of the grammar, and read the items written: dots, escapes, classes, repeated stars, stars and dollars that stand for themselves |
| GrepParse.Reads | bin/grep/grep.c:182-285 | Every sequence of well written pieces is read as it was written |
| GrepParse.WasSpelt | bin/grep/grep.c:182-285 | What is read without error was a sequence of well written pieces |
| GrepParse.ClassReads | bin/grep/grep.c:212-231 | A bracket class is read as written: a bracket first, minus signs first or last, ranges from the character before |
| GrepParse.ClassWasSpelt | bin/grep/grep.c:212-231 | What is read as a bracket class was written so |
| GrepParse.SpeltCovered | bin/grep/grep.c:158-285 | Whatever the grammar writes is covered |
| GrepText.ShowSpells | bin/grep/grep.c:158-285 | The text shown for any items is a pattern of the grammar, with or without ^ |
| GrepText.ShowMeaning | bin/grep/grep.c:321-348 | Those items match the same as the ones shown |
| GrepParse.ParseGrows | bin/grep/grep.c:158-288 | Code never shrinks, so a pattern that is too long at some point stays too long |
| GrepMatch.Advance | bin/grep/grep.c:355-463 | The backtracking matcher succeeds exactly when some stretch from the position on matches the items |
| GrepMatch.Star | bin/grep/grep.c:443-463 | All lengths of a run are tried |
| GrepMatch.Run | bin/grep/grep.c:424-446 | The run is the longest |
| GrepMatch.SearchLine | bin/grep/grep.c:321-348 | The line loop, with its shortcut on the first character, finds a match exactly when the plain scan does |
| GrepMatch.StepOne | bin/grep/grep.c:363-389 | A single item matches one character and the rest |
| GrepMatch.StepMany | bin/grep/grep.c:443-463 | A closure matches exactly when one of the prefixes of the longest run leaves a matching rest |
| GrepRe.PutMeaning | bin/grep/grep.c:226-230 | Setting a bit adds exactly one character |
| GrepRe.NegateMeaning | bin/grep/grep.c:232-236 | The complement holds exactly the other characters, without the null |
| CshAlloc.Allocator.Malloc | bin/csh/alloc.c:94-171 | The block is new, apart from all others, from the first bucket with room for the bytes; all blocks, lists and counts stay sound; nothing is returned only for lack of a bucket or of memory, and always when no bucket is large enough; other lists stay, and the first block of a list that is not empty is taken |
| CshAlloc.Allocator.Free | bin/csh/alloc.c:217-246 | A used block becomes the first of its free list; freeing a block that is on a free list changes nothing |
| CshAlloc.Allocator.Realloc | bin/csh/alloc.c:261-323 | The block stays exactly when malloc would choose its bucket again; else the bytes, as many as fit, are in a block from the right bucket, and the old block is free |
| CshAlloc.Allocator.Relocate | bin/csh/alloc.c:316-322 | The contents survive though the old block was freed first: no header lies among the bytes copied from or to |
| CshAlloc.Allocator.Bcopy | bin/csh/alloc.c:320-321 | Copying between two separate places |
| CshAlloc.Allocator.Morecore | bin/csh/alloc.c:176-215 | New blocks for an empty bucket lie in fresh memory, apart from all others, and take up all that was asked for; the bucket stays empty only when memory has run out |
| CshAlloc.OneBlock | bin/csh/alloc.c:101-213 | Every byte between the break that setting up leaves and the present one lies in exactly one block |
| CshAlloc.GrowTiled | bin/csh/alloc.c:195-213 | New blocks leave no gap in the memory obtained |
| CshAlloc.RowWhole | bin/csh/alloc.c:188-213 | Blocks smaller than a page divide it, so what is asked for is what is cut |
| CshAlloc.Allocator.Carve | bin/csh/alloc.c:206-214 | Fresh memory is chained into blocks |
| CshAlloc.Allocator.Setup | bin/csh/alloc.c:101-122 | The first call finds the page size and lets the memory behind a header start a page; the blocks begin there |
| CshAlloc.Choose | bin/csh/alloc.c:123-146 | The first bucket whose blocks hold the bytes, and none exactly when no block is large enough |
| CshAlloc.FitsOnce | bin/csh/alloc.c:123-146 | There is only one such bucket |
| CshAlloc.KeepIffFits | bin/csh/alloc.c:295-317 | The test of realloc asks whether malloc would choose the same bucket |
| CshAlloc.TellsUse | bin/csh/alloc.c:225-235 | The mark of a block tells whether it is in use: no link of a free block looks like it |
| CshAlloc.PopSound | bin/csh/alloc.c:156-160 | Taking the first block of a list keeps blocks, lists and counts sound |
| CshAlloc.PushSound | bin/csh/alloc.c:240-244 | So does putting one back |
| CshAlloc.GrowSound | bin/csh/alloc.c:176-215 | So does adding blocks |
| CshAlloc.BlocksApart | bin/csh/alloc.c:94-323 | Two blocks never overlap |
| CshAlloc.HeadersOutside | bin/csh/alloc.c:94-323 | What a block holds lies apart from the headers of all blocks |
| CshSet.Table.Setq | bin/csh/sh.set.c:402-427 | The tree stays ordered, balanced and consistently linked, with exact balance fields, and stands for the old map with the name set |
| CshSet.Table.Unsetv1 | bin/csh/sh.set.c:470-511 | The same with the name removed, whichever node goes |
| CshSet.Table.Adrof1 | bin/csh/sh.set.c:353-367 | A name is found exactly when it is in the map, with its value |
| CshSet.Table.Plist | bin/csh/sh.set.c:668-701 | The walk along parent links lists all variables once, in order |
| CshSet.Table.Balance | bin/csh/sh.set.c:579-666 | From a subtree whose height has changed, the loop makes the whole tree balanced again with the same entries in order, for insertion and deletion |
| CshSet.Table.LeanRight | bin/csh/sh.set.c:594-625 | The links of a right-heavy place become those of the rotated tree |
| CshSet.Table.LeanLeft | bin/csh/sh.set.c:626-658 | The links of a left-heavy place likewise |
| CshSet.Table.AddNode | bin/csh/sh.set.c:419-424 | A new node at the free place of its name |
| CshSet.Table.CopyLast | bin/csh/sh.set.c:491-498 | The predecessor gives its entry to a node with two children and is taken out instead |
| CshSet.Table.Pull | bin/csh/sh.set.c:499-511 | A node with one child at most goes, and the tree is rebalanced |
| CshSet.Table.SetVec | bin/csh/sh.set.c:425-426 | A node gets a value, and nothing else changes |
| CshPlace.HeavyStep | bin/csh/sh.set.c:592-665 | One turn rebalances a subtree, and its balance field tells whether its height is the old one |
| CshPlace.TurnLeft | bin/csh/sh.set.c:567-572 | The left rotation in place: parent, child and grandchild are relinked |
| CshPlace.TurnRight | bin/csh/sh.set.c:561-566 | The right rotation in place |
| CshPlace.WhichWay | bin/csh/sh.set.c:592-593 | Links tell which side of its parent a node is on |
| CshPlace.SearchStep | bin/csh/sh.set.c:353-367 | A comparison sends the search to the only side where the name can be |
| CshPlace.PullOne | bin/csh/sh.set.c:487-490 | Taking out a node with one child at most removes exactly its entry |
| CshPlace.PullLast | bin/csh/sh.set.c:491-498 | Taking out the predecessor after copying its entry removes exactly the entry of the node |
| CshPlace.AtPull | bin/csh/sh.set.c:502-505 | The links after a node has been replaced by its child |
| CshTree.HeavyRightAvl | bin/csh/sh.set.c:594-625 | Single and double rotation of a right-heavy tree give a balanced tree with exact balance fields and the height that the loop expects |
| CshTree.HeavyLeftAvl | bin/csh/sh.set.c:626-658 | The same for a left-heavy tree |
| CshTree.HeavyRightAlike | bin/csh/sh.set.c:594-625 | Rotations keep the entries in order |
| CshTree.PlugInorder | bin/csh/sh.set.c:668-701 | The order of the whole tree is what lies before a place, the subtree, and what lies after |
| CshTree.PlugAvl | bin/csh/sh.set.c:579-666 | A balanced subtree of the right height in a balanced surrounding makes a balanced tree |
| CshMem.RLeftRep | bin/csh/sh.set.c:567-572 | The rotation macro turns the links of a tree into those of the rotated tree |
| CshMem.RRightRep | bin/csh/sh.set.c:561-566 | The other macro likewise |
| CshProc.Table.PAlloc | bin/csh/sh.proc.c:337-399 | A new process joins the ring of the job being built, or starts a job that becomes current or previous when there is none; if indices were positive, different and bounded by pmaxindex, they still are exactly when a process joined or there were fewer than 127 jobs |
| CshProc.Table.NewIndex | bin/csh/sh.proc.c:375-390 | The next index, or when indices get large the least that no stored index equals; never more than 128 |
| CshProc.RoomIff | bin/csh/sh.proc.c:375-390 | The index chosen fits a signed character exactly when there are fewer than 127 jobs |
| CshProc.NewJobIndex | bin/csh/sh.proc.c:375-390 | With the index stored in a character, indices stay positive and different, and pmaxindex their maximum, exactly in that case |
| CshProc.TwoJobsOneIndex | bin/csh/sh.proc.c:377-390 | When there are 127 jobs, the next two both get the stored index -128 |
| CshProc.Table.LastFriend | bin/csh/sh.proc.c:366-367 | The loop along the ring ends at its last process |
| CshProc.Table.PChild | bin/csh/sh.proc.c:49-131 | A report about a child changes exactly the flags of its job, moves the job to current when it has stopped and out of current and previous when it is over, with the most recent other job in its place, and removes it exactly when it is over in the background and the user wants to be told |
| CshProc.Table.Update | bin/csh/sh.proc.c:56-94 | The state of the process is replaced, and the flags of its job are collected |
| CshProc.Table.Gather | bin/csh/sh.proc.c:80-89 | The walk around the ring collects exactly the flags of the job, whatever process it starts at |
| CshProc.Table.Tell | bin/csh/sh.proc.c:109-131 | A job outside the foreground is removed when it is over and the user is told at once, or else marked for a note |
| CshProc.Table.Report | bin/csh/sh.proc.c:96-100 | Exactly the stopped processes of the job are marked as reported |
| CshProc.StateTold | bin/csh/sh.proc.c:54-80 | The flags of the process say how it ended, or that it stopped, and nothing else that they did not say before |
| CshProc.QuietJob | bin/csh/sh.proc.c:80-108 | The report about the last unquiet process of a job decides whether the job is stopped or over |
| CshProc.Table.MakeCurrent | bin/csh/sh.proc.c:103-106 | A stopped job becomes current and the current one previous |
| CshProc.Table.FindPid | bin/csh/sh.proc.c:49-52 | The process with a pid is found exactly when it is alive |
| CshProc.Table.PFlush | bin/csh/sh.proc.c:280-307 | All processes of the job are marked dead and other jobs take its place as current or previous; pmaxindex is the maximum of the others if it was the maximum; a dead process is left alone |
| CshProc.Table.Flag | bin/csh/sh.proc.c:296-300 | The walk around the ring marks exactly the processes of the job |
| CshProc.Table.Drop | bin/csh/sh.proc.c:295-306 | Without its job, the table is as sound as before, indices included; a pmaxindex of 128 stays |
| CshProc.Table.LargestIndex | bin/csh/sh.proc.c:302-305 | The largest positive index stored, or 0 |
| CshProc.Table.PClrCurr | bin/csh/sh.proc.c:313-327 | The job is neither current nor previous: the previous job moves up, a free place goes to the most recent other job, a stopped one if there is any, and no previous job remains without a current one |
| CshProc.Table.PGetCurr | bin/csh/sh.proc.c:970-985 | The most recent other job, a stopped one if there is any |
| CshProc.Table.Leader | bin/csh/sh.proc.c:290-291 | The walk around the ring ends at the only leader |
| CshProc.LeaderIff | bin/csh/sh.proc.c:101-102 | A process leads exactly when its pid is the job id, and each job has one leader |
| CshProc.Table.Reap | bin/csh/sh.proc.c:167-176 | Exactly the dead processes leave the list |
| CshProc.FlaggedJobs | bin/csh/sh.proc.c:295-300 | The rings of other jobs are untouched |
| CshProc.JoinedJobs | bin/csh/sh.proc.c:359-368 | A process put at the end of a ring is in that ring only |
| CshProc.NewJobJobs | bin/csh/sh.proc.c:369-372 | A process of its own is a ring of its own |

## Left out

- AsJxxx.Segment.JxxxFix: no tunnels (as with `jxxxJUMP` set), one segment, entries sorted by `symcmp`, destinations that are labels of the segment. That short jumps reach is promised under `ClearBehind`, which is sufficient; whether a table that violates it ends with a jump out of reach depends on all passes, and only each look has its exact condition (`BehindSees`). For such a table in which a near jump also crosses an align, nothing says which jumps become long beyond those that are out of reach at first.
- AsNum.NumShift: shifts by less than a limb either way, as all callers modelled here ask for.
- EdStore.Store.GetBlock: called as putline and getline call it, for the last block or the next one when writing.
- GrepCompile.Compile: patterns of characters, dot, bracket classes, stars, `^` and `$`. The size test lets one byte be written behind `expbuf`, so the buffer modelled is one byte longer; a pattern that ends inside a range makes the program read past its end and is excluded, like one with a group, a back reference or a word anchor, unless the buffer is full before (`Covered`).
- CshAlloc.Allocator.Setup: the first `sbrk` succeeds; when it does not, the original leaves `pagebucket` unset.
- CshAlloc.Allocator.Realloc: the branch for a block that is free already is excluded, with `findbucket`.
- CshProc.Table.PChild: resource usage appears as the set of processes that took long; printing and the comparison of directories are not modelled.
- awk: HAT, which a pattern anchored with `$` or `^` needs; character codes from 1 to 126; empty classes; `freetr`; the sharing of equal follow sets appears as equality of values; the state table is a growing sequence with the limit of the test in the source, which lets one more state in than `where` has room for.
- diff: reading files and hashing lines (the hash is a parameter whose values are not zero); the arrays that share memory in the original are separate; `-b`, `-w`, `-i`, context, ifdef and directory modes; the text printed.
- symbol table: `syminstall`, whose direct stores bypass `h_nused`; names are not empty; the pool that holds names.
- jumps: `SymCmp` puts jumps and aligns in front of other entries with their value, where `symcmp` tests for all tags from `IGNOREBOUND` on, so tables with obsolete entries at the place of a jump are not covered; the sort itself, the second pass, `s_jxoveralign`, which is written and never read; values are unbounded.
- big numbers: reading and printing decimal numbers, conversions by inline assembly, `intconvert`.
- ed: the `makekey` process (its 13 bytes are a parameter), wiping the key, the encrypted temporary file, commands and regular expressions; the error at the block limit is a false result.
- grep: groups, back references, word anchors, `-w`, `-y`; reading lines and printing them; pattern characters are below 128.
- csh allocator: `RCHECK`, `showall`; counters are unbounded; the page size is a power of two up to a megabyte.
- csh variables: memory is a sequence of nodes, and an address a position in it; nodes taken out stay in memory; `trim`, `blkfree` and printing.
- csh jobs: memory is a sequence of records and flags are sets; `psavejob`, `prestjob`, `pendjob`, terminal groups, printing; pids of new processes are fresh.
- The rest of these programs: input and output, signals, option parsing, and thin wrappers around the system.
