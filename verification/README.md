# Proofs about ed, csh, regexp.h, cpout and dd

This project models the parts of the repository that hold real algorithms and proves what they are
for. `dafny verify dfyconfig.toml` checks all of it. Each file is one component:

- **EdCrypt, EdStore, EdTable**: the rotor machine of ed, its temporary file behind two block
  buffers, and its table of lines with move, global and delete.
- **CshAvl, CshVarHeap, CshVars, CshGlob**: the balanced trees in which csh keeps variables and
  aliases, as linked nodes with parent pointers, and its glob matcher.
- **CshNumbers, CshExpr, CshParse**: the decimal strings csh computes with, its expression
  evaluator, and its command parser against its printer.
- **CshAlloc**: the power-of-two allocator of csh, on bytes, with headers that overlay links.
- **CshJobTable, CshJobs, CshDirectory, CshDirRing, CshShell**: the job table and the directory
  ring, which share reference counts.
- **RegexpCode, RegexpMatch, RegexpCompile, RegexpPattern**: the pattern compiler and the matcher of
  System V `regexp.h`, against a meaning given to patterns.
- **Cpout, DdConv**: the volume packer and the record conversions of dd.
- **Bytes, Options, Machine, Collections**: small shared modules; Machine has the 32-bit wrap-around.

Code that works by changing things step by step is modelled by classes and loops, each proved
against a specification function or predicate; lemmas then prove what that specification means.
Code made of expressions and recursion is modelled by functions.

How state is modelled: the tree nodes of csh, the process records, the directories, the items of
cpout's queue and the buffers of ed and dd are objects and arrays. The job table's invariant speaks
of a snapshot of all records (`Recs`), so its lemmas are about values; the loops update the objects.
The memory of the allocator is a sequence of bytes up to the break.

What runs assume: a char is a signed byte and an int has 32 bits; I/O succeeds and no signal
arrives inside a step, unless a parameter says otherwise; the break is word-aligned and `sbrk` returns zeroed memory (whether it grants a request
is a parameter); a forked pid is not that of a record still live, and no status arrives for a
process that has ended; pattern and text characters are nonzero. What the system answers (whether
`chdir` succeeds, what `stat` or a file test says, the pseudo-random sequence of crinit, the status
of a command in braces) is a parameter.

Where the code does not do what one would expect of it, the project says exactly when:

- `Gmatch` gives up on a text that ends at a star followed by a star: `a**` does not match `a`.
  `CshGlob.GlobExact` gives the condition.
- `gdelete` does not move dot for the first marked line: `EdTable.GDeleteIsDeleteEach`.
- `cpout` never ends when a file fits the medium but not beside the trailer, or a directory does
  not fit, or a volume is so small that a new one already counts as full: `Cpout.NeverEnds`, with
  the opposite in `Cpout.Pack`.
- A job's number is stored in a char. Jobs have different positive numbers if and only if `pmaxindex`
  is at most 127 (`CshJobTable.NumbersIff`), and a new job keeps it so if and only if a number up to
  127 is unused (`CshJobTable.BeginFits`), which fewer than 127 live jobs ensure
  (`CshJobTable.FewJobsHaveRoom`). `CshJobs.Crowd` makes two jobs that share a number.
- `rdelete` copies at least one word, so deleting the last line of a table with no word to spare
  reads the word behind it: `EdTable.LineTable.RDelete`, and `EdTable.ReadPast` for such a table.
- `t` follows a pointer into the table while `append` may move it: `EdTable.LineTable.Copy` says when
  it reads from the table given back, and `EdTable.CopyStale` shows it.
- A repetition count of more than nine digits wraps: `RegexpPattern.NumOfDigits`,
  `RegexpPattern.LargeCount`.
- A failed `realloc` has already freed its block, and a `m` that fails has already cleared the marks
  of its lines; the contracts say so.

## Model

| member | source | states |
|---|---|---|
| EdCrypt.CrInit | BSD_4.3_Reno/bin/ed/ed.c:1768-1788 | for every pseudo-random sequence: t1 is the shuffle that sequence makes, t2 its inverse, and t3 pairs each index with the first unpaired one of its probe; t3 is an involution without a fixed point, the probe loop ends and no remainder by 0 is taken |
| EdCrypt.AnotherFree | BSD_4.3_Reno/bin/ed/ed.c:1781-1783 | the parity argument: an unpaired index always finds another unpaired one below it |
| EdCrypt.Pair | BSD_4.3_Reno/bin/ed/ed.c:1781-1785 | one pairing step keeps the reflector symmetric and the number of free indices even |
| EdCrypt.CrBlock | BSD_4.3_Reno/bin/ed/ed.c:1684-1696 | the buffer after the loop is the masked formula of the source byte by byte, with the two counters wrapping at 256 |
| EdCrypt.TurnInvolution | BSD_4.3_Reno/bin/ed/ed.c:1688 | with good tables, transforming a byte twice at one position gives it back, and no byte is its own transform |
| EdCrypt.CrSeqInvolution | BSD_4.3_Reno/bin/ed/ed.c:1670-1697 | crblock with the same start undoes itself on every buffer |
| EdCrypt.CrSeqSplit | BSD_4.3_Reno/bin/ed/ed.c:1670-1697 | transforming a buffer in two parts, the second from where the first ends, is transforming it whole |
| EdStore.TempStore.GetBlock | BSD_4.3_Reno/bin/ed/ed.c:923-977 | the address returned lies in the buffer that holds the block; the other buffer and the file keep theirs; block 255 is the error exit |
| EdStore.TempStore.GetLine | BSD_4.3_Reno/bin/ed/ed.c:877-893 | linebuf receives exactly the line stored under the handle, mark or no mark, also across blocks |
| EdStore.TempStore.PutLine | BSD_4.3_Reno/bin/ed/ed.c:895-921 | a new handle, bound to the text up to its NUL or newline; every older line is kept; the next handle is the length with its NUL rounded up to 4; the exact condition of the block-255 error |
| EdStore.TempStore.FlushBlock | BSD_4.3_Reno/bin/ed/ed.c:961-974 | the output buffer is written, encrypted through crbuf when a key is set, and stays readable |
| EdStore.TempStore.Session | BSD_4.3_Reno/bin/ed/ed.c:877-1011 | any run of putline and getline answers as a map from handles to lines does |
| EdStore.LineStays | BSD_4.3_Reno/bin/ed/ed.c:877-977 | in any run, a stored line is what it was until the end |
| EdStore.FetchReturnsStored | BSD_4.3_Reno/bin/ed/ed.c:877-977 | in any run, fetching a handle yields the line whose storing returned it, whatever came in between |
| EdTable.LineTable.RDelete | BSD_4.3_Reno/bin/ed/ed.c:837-854 | exactly lines ad1 to ad2 leave and dot is on the line after them, or the last; the copy reads a word outside the table if and only if the last line goes and the table has no word to spare, and nothing visible depends on it |
| EdTable.LineTable.CopyDown | BSD_4.3_Reno/bin/ed/ed.c:843-848 | the words behind the range come down in order, at least one of them, and when the one read lies outside the table |
| EdTable.ReadPast | BSD_4.3_Reno/bin/ed/ed.c:843-848 | such a read: line 127 of 127 is deleted from a table of 128 words |
| EdTable.LineTable.Append | BSD_4.3_Reno/bin/ed/ed.c:765-796 | the handles are put in after line a in order and dot is on the last; the table moves if and only if they do not fit it |
| EdTable.LineTable.Reverse | BSD_4.3_Reno/bin/ed/ed.c:1263-1275 | the words of the range come in the opposite order and no others change |
| EdTable.LineTable.Exchange | BSD_4.3_Reno/bin/ed/ed.c:1250-1257 | three reversals exchange two adjacent blocks |
| EdTable.LineTable.Move | BSD_4.3_Reno/bin/ed/ed.c:1220-1261 | m is a rotation: the moved lines, their marks cleared, stand after line adt in order and every other line keeps its order, dot is on the last moved line; it fails exactly when adt is inside the block |
| EdTable.LineTable.Copy | BSD_4.3_Reno/bin/ed/ed.c:1230-1282 | t: the new lines end up after line adt, dot on the last of them; getcopy reads the lines of the range as long as the table has not moved, and all of them if and only if the table has room for the copies |
| EdTable.CopyStale | BSD_4.3_Reno/bin/ed/ed.c:1277-1282 | such a failure: with 127 lines in 128 words, 1,2t reads line 2 from the table that was given back |
| EdTable.LineTable.Join | BSD_4.3_Reno/bin/ed/ed.c:1065-1085 | the joined line takes the place of the range and dot is on it |
| EdTable.LineTable.Substitute | BSD_4.3_Reno/bin/ed/ed.c:1094-1123 | every line with new text is replaced by all of its new lines, the others stay, dot is on the last new line, marks named by k go over to the first new line, and it is an error exactly when no line has new text and none had before |
| EdTable.LineTable.GDelete | BSD_4.3_Reno/bin/ed/ed.c:856-875 | one pass leaves exactly the unmarked lines in order; where dot ends, with its first-mark exception |
| EdTable.UnmarkedAt | BSD_4.3_Reno/bin/ed/ed.c:856-875 | the lines one pass leaves are those at the places without a mark, in ascending order |
| EdTable.LineTable.MarkLines | BSD_4.3_Reno/bin/ed/ed.c:1042-1046 | after the first loop a line is marked exactly when it is in the range and hits as asked, and every line keeps its handle |
| EdTable.LineTable.GlobalLoop | BSD_4.3_Reno/bin/ed/ed.c:1054-1062 | the second loop ends, and does what running the list for the first marked line until none is left does |
| EdTable.LineTable.Global | BSD_4.3_Reno/bin/ed/ed.c:1042-1063 | g and v as a whole; with the list d the lines left are, in order and unmarked, exactly those that are out of the range or do not hit |
| EdTable.ApplyMarks | BSD_4.3_Reno/bin/ed/ed.c:178-395 | no command of a command list sets a mark |
| EdTable.MovedMarks | BSD_4.3_Reno/bin/ed/ed.c:1220-1261 | a move does not add marks |
| EdTable.Rounds | BSD_4.3_Reno/bin/ed/ed.c:1054-1062 | the command list runs at most once for each marked line |
| EdTable.GlobalDeletes | BSD_4.3_Reno/bin/ed/ed.c:1047-1062 | the loop with the list d is one delete for each mark |
| EdTable.GDeleteIsDeleteEach | BSD_4.3_Reno/bin/ed/ed.c:856-875 | gdelete leaves the lines that a delete for each mark leaves; dot agrees if and only if the number of marks is not 1 or dot was already where the single delete leaves it |
| EdTable.GDeleteLeavesDot | BSD_4.3_Reno/bin/ed/ed.c:856-875 | where it does not: the second of three lines marked and dot on the first |
| CshAvl.RightHeavyRepairs | BSD_4.3_Reno/bin/csh/sh.set.c:594-625 | each right-heavy case gives a balanced tree, and the new v_bal says whether its height changed, for insertions and deletions alike |
| CshAvl.LeftHeavyRepairs | BSD_4.3_Reno/bin/csh/sh.set.c:626-658 | the same for the left-heavy cases |
| CshAvl.AvlSize | BSD_4.3_Reno/bin/csh/sh.set.c:574-578 | a balanced tree of height h holds at least Fib(h+2)-1 names |
| CshAvl.AvlPow | BSD_4.3_Reno/bin/csh/sh.set.c:574-578 | which is at least 2^((h+1)/2)-1 |
| CshAvl.PlugAvl | BSD_4.3_Reno/bin/csh/sh.set.c:592-665 | replacing a subtree by one of the same height keeps the whole tree balanced |
| CshAvl.SetBetween | BSD_4.3_Reno/bin/csh/sh.set.c:409-426 | putting a name between its neighbours keeps the order and changes one binding |
| CshAvl.DropBetween | BSD_4.3_Reno/bin/csh/sh.set.c:482-511 | taking a name out keeps the order and removes one binding |
| CshVarHeap.RotateLeft | BSD_4.3_Reno/bin/csh/sh.set.c:567-572 | the macro rleft on linked nodes is the rotation, with all parent links exact |
| CshVarHeap.RotateRight | BSD_4.3_Reno/bin/csh/sh.set.c:561-566 | the macro rright likewise |
| CshVarHeap.MakeRightHeavy | BSD_4.3_Reno/bin/csh/sh.set.c:595-625 | the right-heavy switch on linked nodes |
| CshVarHeap.MakeLeftHeavy | BSD_4.3_Reno/bin/csh/sh.set.c:627-657 | the left-heavy switch on linked nodes |
| CshVarHeap.Balance | BSD_4.3_Reno/bin/csh/sh.set.c:579-666 | from a subtree that grew or shrank up to the header: the whole tree is balanced, its nodes and their order are unchanged |
| CshVars.VarTable.Setq | BSD_4.3_Reno/bin/csh/sh.set.c:402-427 | the name is bound to the words of vec, each character less its quote bit, and to vec itself when there are no such bits; every other binding is kept, and the tree stays ordered, linked and balanced |
| CshVars.Trim | BSD_4.3_Reno/bin/csh/sh.glob.c:489-497 | the loops clear the quote bit of every character and change nothing else |
| CshVars.VarTable.Unsetv | BSD_4.3_Reno/bin/csh/sh.set.c:470-511 | exactly the name of the node is unbound, also with two children, and the tree stays ordered, linked and balanced |
| CshVars.VarTable.Adrof | BSD_4.3_Reno/bin/csh/sh.set.c:352-367 | finds a name if and only if it is bound; a search that passes d nodes needs Fib(d+2)-1 names, at least 2^((d+1)/2)-1 |
| CshVars.VarTable.Plist | BSD_4.3_Reno/bin/csh/sh.set.c:668-701 | visits every name once in ascending order and ends at the header |
| CshVars.VarTable.Madrof | BSD_4.3_Reno/bin/csh/sh.set.c:336-350 | the first node in order whose name matches |
| CshVars.VarTable.UnsetPattern | BSD_4.3_Reno/bin/csh/sh.set.c:451-457 | the inner loop of unset1 ends and removes exactly the names that Gmatch accepts |
| CshVars.VarTable.Unset1 | BSD_4.3_Reno/bin/csh/sh.set.c:444-458 | the same for a list of patterns |
| CshVars.UnsetMeaning | BSD_4.3_Reno/bin/csh/sh.set.c:444-458 | for well-formed patterns that do not end in two stars, exactly the names of the pattern language are removed and every other binding is kept |
| CshGlob.Gmatch | BSD_4.3_Reno/bin/csh/sh.glob.c:391-445 | the loop and recursion compute the verdict of Glob |
| CshGlob.GlobMeaning | BSD_4.3_Reno/bin/csh/sh.glob.c:391-445 | on a written pattern, Gmatch accepts exactly what the model of its star accepts |
| CshGlob.AcceptsIsMatches | BSD_4.3_Reno/bin/csh/sh.glob.c:391-445 | that is the glob relation when the pattern does not end in two stars |
| CshGlob.Missed | BSD_4.3_Reno/bin/csh/sh.glob.c:422-428 | every satisfiable pattern that ends in two stars misses some text of its language |
| CshGlob.GlobExact | BSD_4.3_Reno/bin/csh/sh.glob.c:391-445 | Gmatch decides the glob relation on all texts if and only if the pattern does not end in two stars |
| CshGlob.TwoStarsMiss | BSD_4.3_Reno/bin/csh/sh.glob.c:422-428 | the smallest case: a** does not accept a |
| RegexpCode.MatchIsGreatest | SystemV_R4/head/regexp.h:305-497 | the search is sound and complete for the instruction sequence, and what it finds is the match whose repetition counts are greatest in lexicographic order |
| RegexpCode.TryDownIs | SystemV_R4/head/regexp.h:486-493 | the loop at star tries the ends from the longest down and finds the longest that works |
| RegexpCode.TrailJoin | SystemV_R4/head/regexp.h:355-361 | what two programs record one after the other is what they record together |
| RegexpMatch.Matcher.Advance | SystemV_R4/head/regexp.h:305-497 | advance on the bytecode returns 1 exactly when the program matches there, loc2 is that end, and it always ends; every group is recorded where the match with the greatest counts opens and closes it last, and other groups keep their entries |
| RegexpMatch.Matcher.Range | SystemV_R4/head/regexp.h:364-429 | the repetition cases with bounds find the match the search prescribes, with low and size as getrange leaves them, an open upper bound standing for 20000 more |
| RegexpMatch.Matcher.Star | SystemV_R4/head/regexp.h:486-493 | the shared tail of all repetitions, with the groups of the attempt that succeeds |
| RegexpMatch.Matcher.FirstChar | SystemV_R4/head/regexp.h:282-294 | a program that starts with a literal matches only where that character stands |
| RegexpMatch.Matcher.Step | SystemV_R4/head/regexp.h:272-303 | step finds the leftmost match; the first-character scan and the regular scan agree; the counts of the match are the greatest and the groups are recorded as they say |
| RegexpCompile.Compile | SystemV_R4/head/regexp.h:47-270 | the loops of compile produce the code, the flags and every error of its specification |
| RegexpCompile.ReadSet | SystemV_R4/head/regexp.h:135-167 | the bracket loop fills the bit set |
| RegexpCompile.ReadRange | SystemV_R4/head/regexp.h:209-243 | the bounds of a repetition with all their errors, read with 32-bit wrap-around and stored as bytes |
| RegexpPattern.AtomMeaning | SystemV_R4/head/regexp.h:94-188 | a compiled atom takes exactly the characters its notation says |
| RegexpPattern.NumOfDigits | SystemV_R4/head/regexp.h:215-225 | a count written in digits is read as its value wrapped to 32 bits, or refused if that is 255 or more |
| RegexpPattern.LargeCount | SystemV_R4/head/regexp.h:215-225 | so a count of 4294967297 is read as 1 |
| RegexpPattern.CompileMeaning | SystemV_R4/head/regexp.h:47-270 | compile on any written pattern, groups included, yields the code of the pattern, or reports a buffer too small |
| RegexpPattern.GroupStep | SystemV_R4/head/regexp.h:189-207 | `\(` and `\)` write the next free number and the innermost open one |
| RegexpPattern.ProgramMeaning | SystemV_R4/head/regexp.h:305-497 | that code reaches exactly the ends the pattern allows |
| RegexpPattern.MatchMeaning | SystemV_R4/head/regexp.h:305-497 | a match is found at a place if and only if the pattern matches there |
| RegexpPattern.GroupsMeaning | SystemV_R4/head/regexp.h:355-361 | braslist and braelist hold where the pieces before each `\(` and `\)` end, all in one split of the text that fits the pattern |
| RegexpPattern.Search | SystemV_R4/head/regexp.h:47-303 | compile then step: succeeds if and only if the source pattern matches somewhere, loc1 is the leftmost start, and the groups are recorded as one split of the text has them |
| RegexpPattern.GroupOfA | SystemV_R4/head/regexp.h:355-361 | the pattern `\(a\)b` on ab records group 0 from 0 to 1 |
| CshParse.FindSep | BSD_4.3_Reno/bin/csh/sh.parse.c:264-287 | the scans of syn1, syn1a, syn1b and syn2 stop at the first separator outside parentheses |
| CshParse.FindAmp | BSD_4.3_Reno/bin/csh/sh.parse.c:197-243 | the scan of syn0, with what it skips after \| and > |
| CshParse.ParseUndoesPrint | BSD_4.3_Reno/bin/csh/sh.parse.c:169-599 | parsing the words padd prints for any tree of plain commands, parentheses, \|, &&, \|\| and ; gives the tree back, at every level of the parser |
| CshParse.ParArgs | BSD_4.3_Reno/bin/csh/sh.parse.c:512-593 | a printed parenthesis is read as one subshell |
| CshParse.AmpRead | BSD_4.3_Reno/bin/csh/sh.parse.c:212-236 | t & u is read as a list whose first part is t in the background, in a subshell of its own if t is itself a list or joined by && or \|\| |
| CshParse.RedirectRead | BSD_4.3_Reno/bin/csh/sh.parse.c:530-575 | a command with < << > >> and their & and ! is read with exactly those flags and file names |
| CshParse.NoName | BSD_4.3_Reno/bin/csh/sh.parse.c:543-553 | a redirection without a file name is the error |
| CshParse.PipeRead | BSD_4.3_Reno/bin/csh/sh.parse.c:379-412 | \|& is read as a pipe with FDIAG, and a > before it is allowed, which before \| is the error |
| CshParse.BothRead | BSD_4.3_Reno/bin/csh/sh.parse.c:531-556 | >& is read with FDIAG, and is the error in front of a pipe |
| CshParse.SpecialRead | BSD_4.3_Reno/bin/csh/sh.parse.c:442-463 | after a special word parentheses are words like others |
| CshParse.CountRoom | BSD_4.3_Reno/bin/csh/sh.parse.c:464-500 | the first loop of syn3 counts the room for the argument vector |
| CshParse.RoomNonNegative | BSD_4.3_Reno/bin/csh/sh.parse.c:481-502 | the count never goes below zero on any suffix |
| CshParse.TurnFits | BSD_4.3_Reno/bin/csh/sh.parse.c:512-587 | one turn of the second loop stores no more than the first made room for |
| CshParse.CollectArgs | BSD_4.3_Reno/bin/csh/sh.parse.c:464-587 | the second loop fills the vector without running over it, whatever the words |
| CshNumbers.PutnBuffer | BSD_4.3_Reno/bin/csh/sh.set.c:264-297 | the pointer version writes the digits of Putn |
| CshNumbers.GetnLoop | BSD_4.3_Reno/bin/csh/sh.set.c:299-323 | the loop with its wrap-around computes Getn, errors included |
| CshNumbers.GetnPutn | BSD_4.3_Reno/bin/csh/sh.set.c:264-323 | getn of putn is the identity on every 32-bit number, the least included |
| CshNumbers.PutnInjective | BSD_4.3_Reno/bin/csh/sh.set.c:264-297 | different numbers print differently, so == on strings is == on numbers |
| CshExpr.CursorFromWords | BSD_4.3_Reno/bin/csh/sh.exp.c:41-486 | where an evaluation ends depends on the words alone |
| CshExpr.SameCursor | BSD_4.3_Reno/bin/csh/sh.exp.c:41-486 | with and without IGNORE every level leaves the cursor at the same word |
| CshExpr.SkippedIsQuiet | BSD_4.3_Reno/bin/csh/sh.exp.c:268-486 | a skipped operand runs no command, tests no file and never divides by zero |
| CshExpr.ShortCircuit | BSD_4.3_Reno/bin/csh/sh.exp.c:50-81 | after a decided \|\| or && the right operand changes neither value nor effects |
| CshExpr.EgetnPutn | BSD_4.3_Reno/bin/csh/sh.exp.c:564-571 | an intermediate result is read back as itself |
| CshExpr.QuotRem | BSD_4.3_Reno/bin/csh/sh.exp.c:318-341 | / and % give the quotient towards zero and the remainder with the sign of the dividend, smaller than the divisor |
| CshExpr.DividesOnce | BSD_4.3_Reno/bin/csh/sh.exp.c:318-341 | there is only one such pair |
| CshExpr.MergedBits | BSD_4.3_Reno/bin/csh/sh.exp.c:84-139 | \| ^ and & work bit by bit on all 32 bits |
| CshExpr.Lift | BSD_4.3_Reno/bin/csh/sh.exp.c:41-347 | a result passes unchanged through every level that finds no operator |
| CshExpr.PrintedRead | BSD_4.3_Reno/bin/csh/sh.exp.c:41-486 | a tree printed where level k is expected is read up to the words that follow, with the value Eval gives it |
| CshExpr.BraceRead | BSD_4.3_Reno/bin/csh/sh.exp.c:386-421 | a command in braces runs once and is worth whether it succeeds; skipped, it does not run |
| CshExpr.TestRead | BSD_4.3_Reno/bin/csh/sh.exp.c:424-482 | a file test is made on the expanded name; skipped, it is not made |
| CshExpr.MatchRead | BSD_4.3_Reno/bin/csh/sh.exp.c:150-193 | =~ and !~ match the expanded left word against the right word as written; == and != compare two expanded words |
| CshExpr.ExpValue | BSD_4.3_Reno/bin/csh/sh.exp.c:34-486 | exp on a whole printed expression consumes every word and returns its 32-bit value, with / % \| ^ & valued by what they mean and not by the functions of the evaluator, or stops with the division error met first in short-circuit order |
| CshAlloc.Allocator.ChooseBucket | BSD_4.3_Reno/bin/csh/alloc.c:128-146 | the search on 32-bit numbers finds the smallest bucket with room, or none |
| CshAlloc.LeastUnique | BSD_4.3_Reno/bin/csh/alloc.c:128-146 | there is one smallest bucket |
| CshAlloc.PopGood | BSD_4.3_Reno/bin/csh/alloc.c:156-160 | taking the first block off its list keeps blocks disjoint, lists exact and the counters right |
| CshAlloc.PushGood | BSD_4.3_Reno/bin/csh/alloc.c:240-244 | putting a block on its list does too |
| CshAlloc.CarveGood | BSD_4.3_Reno/bin/csh/alloc.c:202-214 | so does adding newly carved blocks |
| CshAlloc.FreeShowsNoMagic | BSD_4.3_Reno/bin/csh/alloc.c:25-41 | the first byte of a header is MAGIC if and only if the block is handed out: a link is aligned |
| CshAlloc.Allocator.Thread | BSD_4.3_Reno/bin/csh/alloc.c:210-214 | the new blocks form one list, ended by the zero the system left |
| CshAlloc.Allocator.Morecore | BSD_4.3_Reno/bin/csh/alloc.c:176-215 | the empty bucket gets blocks if and only if the system grants them; the blocks handed out keep their contents |
| CshAlloc.Allocator.Malloc | BSD_4.3_Reno/bin/csh/alloc.c:93-171 | one block more, of the smallest bucket with room, disjoint from all others, with their contents kept; NULL under an exact condition |
| CshAlloc.Allocator.Free | BSD_4.3_Reno/bin/csh/alloc.c:217-245 | exactly that block is no longer handed out; freeing NULL or a free block changes nothing at all |
| CshAlloc.Allocator.SameBucket | BSD_4.3_Reno/bin/csh/alloc.c:295-309 | the size test of realloc is the test for the same bucket |
| CshAlloc.Allocator.Realloc | BSD_4.3_Reno/bin/csh/alloc.c:260-323 | byte k of the block is what it was for every k below nbytes and the old capacity, although the block is freed before the copy; NULL if and only if malloc finds nothing after that free; in place if and only if malloc would choose the same bucket, for nbytes > 0 |
| CshAlloc.Allocator.Poke | BSD_4.3_Reno/bin/csh/alloc.c:56-62 | a store inside one block changes no other block and no header |
| CshJobTable.LeaderIsFirst | BSD_4.3_Reno/bin/csh/sh.proc.c:291-292 | a ring has exactly one live leader |
| CshJobTable.WalkStep | BSD_4.3_Reno/bin/csh/sh.proc.c:83-91 | following friends from any record meets every record of the job once and comes back |
| CshJobTable.ShapeKeeps | BSD_4.3_Reno/bin/csh/sh.proc.c:51-133 | a step that changes flags only keeps rings, list, numbers and leaders |
| CshJobTable.FlushGood | BSD_4.3_Reno/bin/csh/sh.proc.c:281-308 | clearing a job keeps every invariant of the table |
| CshJobTable.JoinGood | BSD_4.3_Reno/bin/csh/sh.proc.c:360-369 | a record added at the end of a ring keeps them |
| CshJobTable.BeginGood | BSD_4.3_Reno/bin/csh/sh.proc.c:370-396 | a record that begins a job keeps them |
| CshJobTable.NewNumberFits | BSD_4.3_Reno/bin/csh/sh.proc.c:376-391 | the number chosen is one no record shows, and fits the char that stores it if and only if pmaxindex is below BIGINDEX or one of 1 to 127 is unused |
| CshJobTable.NumbersIff | BSD_4.3_Reno/bin/csh/sh.proc.c:303-306 | jobs have different positive numbers with pmaxindex the largest if and only if pmaxindex is at most 127 |
| CshJobTable.BeginFits | BSD_4.3_Reno/bin/csh/sh.proc.c:376-391 | a new job keeps that if and only if its number fits |
| CshJobTable.FewJobsHaveRoom | BSD_4.3_Reno/bin/csh/sh.proc.c:376-391 | with fewer than 127 live jobs the number fits |
| CshJobTable.SweepGood | BSD_4.3_Reno/bin/csh/sh.proc.c:167-176 | unlinking all flushed records keeps them |
| CshJobTable.StatusState | BSD_4.3_Reno/bin/csh/sh.proc.c:58-81 | a status leaves exactly one state bit, that of the status |
| CshJobs.JobTable.Pgetcurr | BSD_4.3_Reno/bin/csh/sh.proc.c:969-985 | the first stopped candidate of the list, else the first candidate, else none |
| CshJobs.JobTable.Pclrcurr | BSD_4.3_Reno/bin/csh/sh.proc.c:314-328 | the job is neither current nor previous afterwards; the record pgetcurr chooses, or the previous job, takes its place |
| CshJobs.JobTable.LargestIndex | BSD_4.3_Reno/bin/csh/sh.proc.c:303-306 | the largest job number of the list |
| CshJobs.JobTable.Pflush | BSD_4.3_Reno/bin/csh/sh.proc.c:281-308 | the records of the job lose pid, number and note flag, all others stay as they are, and the table stays valid |
| CshJobs.JobTable.Pstart | BSD_4.3_Reno/bin/csh/sh.proc.c:875-904 | running and stopped processes of the job run, in the foreground or not, and no other flag of any record changes |
| CshJobs.JobTable.Pchild | BSD_4.3_Reno/bin/csh/sh.proc.c:31-133 | one status: the whole record of every process afterwards, of the job and of all others; a job that settles becomes current if stopped, stops being current if over, and is flushed or noted exactly as the flags say |
| CshJobs.JobTable.NewIndex | BSD_4.3_Reno/bin/csh/sh.proc.c:376-391 | the number after pmaxindex below BIGINDEX, else the least that no record shows, cut to a char; pmaxindex takes it uncut if larger |
| CshJobs.JobTable.Palloc | BSD_4.3_Reno/bin/csh/sh.proc.c:338-400 | a record at the front of the list, in the unfinished job or as a job of its own; the table stays valid, and its numbers distinct if and only if they were and there is room for one more |
| CshJobs.Crowd | BSD_4.3_Reno/bin/csh/sh.proc.c:376-391 | 129 jobs at once: the 128th and the 129th both have the number -128 |
| CshDirRing.UnlinkRing | BSD_4.3_Reno/bin/csh/sh.dir.c:300-301 | the two assignments take one member out of the ring |
| CshDirRing.InsertRing | BSD_4.3_Reno/bin/csh/sh.dir.c:241-244 | the four assignments put one in |
| CshDirRing.ReplaceRing | BSD_4.3_Reno/bin/csh/sh.dir.c:124-127 | a new directory takes the place of the current one |
| CshDirRing.StackRotate | BSD_4.3_Reno/bin/csh/sh.dir.c:231-233 | making entry n current rotates the stack |
| CshShell.Shell.Dfind | BSD_4.3_Reno/bin/csh/sh.dir.c:250-276 | +n is entry n of the stack, or the error that it is not that deep |
| CshShell.Shell.Dfree | BSD_4.3_Reno/bin/csh/sh.dir.c:312-320 | freed if and only if no record refers to the directory, else kept without links |
| CshShell.Shell.Cd | BSD_4.3_Reno/bin/csh/sh.dir.c:99-131 | the new stack, what is freed, and when it fails |
| CshShell.Shell.Pushd | BSD_4.3_Reno/bin/csh/sh.dir.c:212-247 | exchange, rotation or push, and when it fails; nothing is freed |
| CshShell.Shell.Popd | BSD_4.3_Reno/bin/csh/sh.dir.c:282-307 | the entry removed, what is freed, and when it fails |
| CshShell.Shell.Fork | BSD_4.3_Reno/bin/csh/sh.proc.c:370-375 | one reference more to the current directory exactly for a new job |
| CshShell.Shell.Status | BSD_4.3_Reno/bin/csh/sh.proc.c:31-133 | a status changes the records as pchild does and no directory |
| CshShell.RefsWithout | BSD_4.3_Reno/bin/csh/sh.proc.c:168-175 | a record that leaves takes exactly one reference with it |
| CshShell.Shell.Release | BSD_4.3_Reno/bin/csh/sh.proc.c:171-173 | a directory goes with its last reference if and only if it is off the ring |
| CshShell.Shell.Sweep | BSD_4.3_Reno/bin/csh/sh.proc.c:166-177 | exactly the flushed records leave; counts stay equal to references and the stack is untouched |
| Cpout.Strip | SystemV_R4/proto/cpout.c:178-184 | the name is the line without its leading ./ parts |
| Cpout.StepKeeps | SystemV_R4/proto/cpout.c:84-156 | every turn keeps each file in exactly one place and each volume within its room, and does work |
| Cpout.StuckForever | SystemV_R4/proto/cpout.c:84-156 | a file that never fits is never got rid of, for any number of turns |
| Cpout.NeverEnds | SystemV_R4/proto/cpout.c:84-156 | with such a file in the input the loop does not end |
| Cpout.StuckExample | SystemV_R4/proto/cpout.c:84-156 | such a file: 1228700 bytes on the default medium of 2400 blocks |
| Cpout.Packer.Dequeue | SystemV_R4/proto/cpout.c:99-111 | the head of the linked queue leaves, with the tail looked for again |
| Cpout.Packer.Enqueue | SystemV_R4/proto/cpout.c:132-147 | the file goes behind the tail |
| Cpout.Packer.Turn | SystemV_R4/proto/cpout.c:84-156 | one turn of the loop on the linked queue is one step of the machine |
| Cpout.Pack | SystemV_R4/proto/cpout.c:84-159 | without a stuck file the loop ends; every file not oversized is on exactly one volume, no volume holds more than its size less the trailer, and the count is that of the volumes |
| DdConv.Converter.Null | BSD_4.3_Reno/bin/dd/dd.c:476-485 | one byte more goes out; every buffer written so far is full |
| DdConv.Converter.Flsh | BSD_4.3_Reno/bin/dd/dd.c:390-405 | the bytes are kept and the full and short buffers counted |
| DdConv.Converter.Convert | BSD_4.3_Reno/bin/dd/dd.c:602-608 | the case of one letter: small letters win when both flags are set |
| DdConv.Converter.Block | BSD_4.3_Reno/bin/dd/dd.c:599-626 | one byte of block |
| DdConv.Converter.Unblock | BSD_4.3_Reno/bin/dd/dd.c:514-539 | one byte of unblock |
| DdConv.Converter.BlockAll | BSD_4.3_Reno/bin/dd/dd.c:332-388 | the written buffers concatenate to the conversion, all but the last of size obs, and ntrunc is its count |
| DdConv.Converter.UnblockAll | BSD_4.3_Reno/bin/dd/dd.c:332-388 | the same for unblock |
| DdConv.BlockMakesRecords | BSD_4.3_Reno/bin/dd/dd.c:599-626 | one record of cbs bytes for each line, and ntrunc counts exactly the lines that are longer |
| DdConv.UnblockMakesLines | BSD_4.3_Reno/bin/dd/dd.c:514-539 | one line for each record, without its trailing spaces |
| DdConv.UnblockAfterBlock | BSD_4.3_Reno/bin/dd/dd.c:514-626 | every line comes back cut to cbs and stripped, in the case the flags ask for |
| DdConv.RoundTrip | BSD_4.3_Reno/bin/dd/dd.c:514-626 | the text comes back unchanged if and only if every line fits and does not end in a space |

## Left out

- EdCrypt.CrInit: the pseudo-random sequence is a parameter; the key transformation and the seed recurrence that produce it are not modelled.
- EdCrypt.CrBlock: the three tables are three arrays, not thirds of one.
- ed: its regular expressions (whether a line hits is a parameter of `EdTable.LineTable.Global`), input, addresses as text, file reading and writing, and interrupts. `EdTable.LineTable.Global` takes the command list as a function from the table to edits with worked-out addresses.
- EdTable.LineTable.Copy: the handles putline gives are a parameter, as for append; a table that grows is taken to move, though realloc may leave it in place.
- EdStore.TempStore.GetBlock: writing back a changed input block cannot happen, because only lines are appended; the model keeps the flag and shows it stays clear.
- csh variables: substitution, `@` assignments and subscripts, path hashing, and the printing around `plist`.
- CshGlob.Gmatch: bytes above 127 in brackets; the file-system matcher `amatch` and brace expansion.
- RegexpPattern.Search: back-references, groups with a repetition, and bytes above 127 in bracket sets.
- CshParse.ParseUndoesPrint: redirections and `&` inside larger trees (`CshParse.RedirectRead` and `CshParse.AmpRead` read them back at one level), the FPAR flag, and padd's cut at 80 characters. After an error the source parses on and keeps the first message; the model stops there.
- CshExpr.ExpValue: file tests, `=~` and commands in braces have values of their own (`CshExpr.TestRead`, `MatchRead`, `BraceRead`), but are not part of printed trees. A shift count outside 0 to 31 and the least number divided by -1 have no value there.
- CshAlloc.Allocator.Realloc: a block that is already free (compaction) is not modelled, nor the alignment of the break in the first call, nor the range-checking build.
- CshJobs: saving and restoring the unfinished job around a command in braces, `pjwait`, process groups, signals sent, printing, and vfork.
- CshShell: the names of directories (`dfollow`, `dcanon`) and `dirs`; the shell variable cwd.
- Cpout.Pack: reading names (lines of 511 bytes and more, a last line without a newline, a failing stat) and the terminal dialogue; a skipped volume is counted like any other.
- DdConv: the ASCII/EBCDIC tables and conversions, reading, seeking and error recovery.
- The rest of the repository: system-call commands, headers of constants, history, lexer, file-name completion, and floating-point output.
