# Verified models of awk, UUCP, bfs and the accounting tools

This project models the parts of a Unix System V user-land tree that are hardest to get right,
and proves what they promise:

- **awk's regular expressions** (`cmd/awk/b.c`, `gsub` of `cmd/awk/run.c`): the parser, the
  follow sets, the lazily filled 32-state table with its overflow, `match`, the leftmost-longest
  `pmatch`, and `gsub` on top of it.
- **awk's symbol tables and fields** (`cmd/awk/tran.c`, `cmd/awk/lib.c`).
- **The UUCP 'g' protocol** (`cmd/bnu/pk0.c`, `pk1.c`, `gio.c`): go-back-N with numbers mod 8,
  as single operations on `struct pack` and as whole runs over links that lose and damage frames.
- **The UUCP conversation** (`cmd/bnu/cntrl.c`), **path canonicalisation** (`expfile.c`) and
  **address conversion** (`stoa.c`).
- **bfs's line index** (`cmd/bfs/bfs.c`), **the accounting merge** (`cmd/acct/acctmerg.c`) and
  **the clock correction** (`cmd/acct/wtmpfix.c`).

## How the model is built

Code that changes things in place is a class with the source's fields, or a method on an array;
each such method is proved against a function of the old state, and the promises are lemmas about
those functions. The modules:

| file | holds |
|---|---|
| AwkRegex, AwkGlushkov | the language of a parse tree, position automata, the correctness of follow sets |
| AwkFollow | `penter`, `first`, `follow`, `cfoll` |
| AwkTable, AwkMatch | the 32-state table as a value and what `cgoto` and `makeinit` do to it; `match` and `pmatch` as functions of table and text, and when they are right |
| AwkDfa, AwkOverflow | the arrays and loops of `b.c` proved equal to these functions; expressions whose table never overflows, and one for which `pmatch` and `gsub` are wrong because it did |
| AwkParser | the recursive-descent parser, and its inverse on spellings full of parentheses |
| AwkSpelling, AwkGrammar | its inverse on spellings with the fewest parentheses, classes with ranges, escapes; the grammar of all texts that it accepts |
| AwkGsub | `gsub`, for every table, and which matches it replaces |
| AwkSymtab, AwkFields | the growing hash table; `fldbld` and `recbld` |
| PkPack, PkClass | the packet operations as functions; the same operations in place on `struct pack` |
| PkRun, PkWindow | all runs of two ends and two links; the sender's window |
| PkReject | what is sent when: rejections, acknowledgements, packets in order |
| Gio, GioLive | file transfer on top; from which states the file can still arrive |
| Cntrl, CntrlTrace | the conversation step by step; what its messages say over whole runs |
| CanPath, Stoa | `canPath`; `dobase` |
| Bfs, AcctMerge, WtmpFix | `bigopen` and `bigread`; `acctmerg`; `wtmpfix` |

Reading conventions. Text for the regular expressions is a sequence of numbers 1..255 (characters
taken as unsigned), the end of a string is the symbol 0, and the symbol 256 (HAT) stands in front
of the text: `^` is the leaf that consumes HAT, `$` the leaf that consumes 0. Memory allocation
succeeds unless a parameter says otherwise. Answers of the file system, the permission records, the
clock and the line are parameters, events or choices.

## What turned out to be false, and exactly when it holds

- **A full table reached from state 2** (`cmd/awk/b.c:750-764`): `cgoto` clears row 2 and then writes
  the new entry into row s. `AwkTable.GotoExactly` states that the table stays sound exactly if it was
  not cleared, or s is not 2, or the entry is for HAT, or the new list is its own successor. What
  `match` and `pmatch` return is stated for every table, wrong entries included
  (`AwkDfa.Fa.Match`, `AwkDfa.Fa.PMatch`); that it is what the expression says is proved for every
  call in which the table is not cleared while leaving state 2, which the function of table and text
  tells before the call. `AwkMatch.PMatchedCalm` and `AwkMatch.MatchedCalm` give two conditions under
  which nothing is cleared: so many states are free as the text has symbols to look at, which for a
  text of n bytes is (n+1)(n+2)/2 (`AwkMatch.PMatchedShort`) and for a whole `gsub`
  (n+1)(n+2)(n+3)/6 (`AwkGsub.GsubShort`), or the lists of the expression fit into the table
  (`AwkOverflow.SmallCalm`), as they do for every chain of at most 28 leaves
  (`AwkOverflow.ChainSmall`). `AwkOverflow.PMatchFails` has a failing input: for
  `Ax|Bx|...|Zx|0x|1x|2x|^y` and the text `ABC...Z0122xy`, `pmatch` reports the three bytes `22x`,
  which are no match, in place of `2x`.
- **`^` matches at the front of the text and nowhere else** (`cmd/awk/b.c:438-487`,
  `cmd/awk/run.c:1669-1671`): false when the table has been cleared. A call of `pmatch` sees `^`
  exactly if it finds the table cleared or `initstat` still names the state in front of the text
  (`AwkMatch.PMatchedRight`). After an unsuccessful attempt with a cleared table `initstat` is 2 for
  good, because `makeinit` does not set it: the next call sees `^`, and no later one does unless it
  finds the table cleared again (`AwkMatch.HatSeenOnce` for two calls, `AwkMatch.HatLost` for any
  number). During `gsub`, where the later searches should not see `^`, one that finds the table
  cleared does: in the example above `gsub` takes `22x` and then `y` as a match of `^y`
  (`AwkOverflow.GsubFails`, `AwkOverflow.GsubOverflow`). What `gsub` gives is stated for every table
  (`AwkGsub.Gsub`); it is the tiling by leftmost-longest matches if nothing is cleared
  (`AwkGsub.CutsRight`).
- **`p_nxtps` lies in the window or just past it** (`cmd/bnu/pk0.c:392-479`): false. After a
  timeout the pointer goes back, and an acknowledgement that arrives then can pass it.
  `PkWindow.PointerExactly` says for every event of every run where the pointer is afterwards;
  `PkWindow.PointerLeavesExactly` and `PkWindow.PointerReturnsExactly` say that it leaves the window
  exactly when an acknowledgement other than a rejection passes it and no control message sends it
  back, and when it comes back; `PkWindow.PointerFallsBehind` is such a run of nine events, without a
  lost frame. Delivery is not affected.
- **The checks on Role never fail** (`cmd/bnu/cntrl.c`): false after a master fails to seek in its
  own file, because it then writes a refusal instead of a request (`cmd/bnu/cntrl.c:510-515`).
  `Cntrl.RoleCheckExactly` says that this, with the other end still there, is the only way.
- **Every record ends on the final clock of its epoch** (`cmd/acct/wtmpfix.c`): false for the
  old-date record of each change, which is left out of its own interval.
  `WtmpFix.FinalClockExactly` has both directions, `WtmpFix.OldDateStays` three records that show it.
- **bfs finds every line** (`cmd/bfs/bfs.c`): exactly if every line but the last is at most 127
  bytes long, since a line's length is kept in a `char`. `Bfs.File.Seek` and `Bfs.FoundExactly`
  have both directions; `Bfs.LongFirstMissed` is a file whose second line is looked for at -128
  instead of 128. A last line without a newline comes with what the buffer had before behind it
  (`Bfs.ReadsLast`).
- **The totals do not depend on the order of the inputs** (`cmd/acct/acctmerg.c:182-196`): the times are floats,
  so a sum depends on the order of adding. The merge is proved for any addition, with its order;
  `AcctMerge.OrderIsFreeExactly` says that the totals of all inputs are those of the inputs one after
  the other exactly if the addition lets two records at the end of any list be swapped.
  `AcctMerge.TotalsDiffer` has three records for which an addition that rounds gives 2^24 in place of
  2^24 + 2.
- **The table is at most twice full after an insertion that could grow it** (`cmd/awk/tran.c`):
  exactly if one growth is enough, which it always is if memory has never run out before.
  `AwkSymtab.Overfull` puts eight names per bucket into a table of any size while there is no memory,
  and one more when there is; `AwkSymtab.OverfullStart` does it in the program's own table of 50.
- **A line that loses frames only delays a file** (`cmd/bnu/pk1.c:253-289`): false. When the header of
  a data frame comes and its body does not, the input buffer taken for it is not given back.
  `GioLive.ArrivesExactly` says that in every state of every transfer the rest of the file can still
  arrive exactly if the reader has a buffer left, or a frame to look at or to deliver;
  `GioLive.BuffersRunOut` loses them all.
- **A sender waits one try longer for each megabyte** (`cmd/bnu/cntrl.c:715-721`): so the comment, but
  the size is shifted by 10, so it is one for each kilobyte (`CntrlTrace.SenderWaits`).
- **Splitting and rebuilding gives the record back** (`cmd/awk/lib.c`): exactly if the record fits
  and has no newline. `recbld` has a check for giant records that can never fire, since the copying
  loops stop at the limit; such a record is cut off (`AwkFields.Record.RecBld`).

## Model

| member | source | states |
|---|---|---|
| AwkRegex.NullableIsEmptyWord | cmd/awk/b.c:348-379 | what `first` reports as nullable is exactly: the empty word is in the language |
| AwkRegex.NumberedKeeps | cmd/awk/b.c:172-196 | numbering gives each leaf one of the next positions and changes nothing else |
| AwkRegex.NumberedSameWords | cmd/awk/b.c:172-196 | numbering the leaves does not change the language |
| AwkGlushkov.FirstSplits | cmd/awk/b.c:315-410 | for wired follow sets, the first set accepts a word exactly if a non-empty prefix is in the language and what follows accepts the rest |
| AwkGlushkov.StarSplits | cmd/awk/b.c:381-410 | the same for the loop of a star, by induction on the word |
| AwkGlushkov.CatSplits | cmd/awk/b.c:381-410 | the same for a concatenation with nullable halves |
| AwkGlushkov.OnwardSplits | cmd/awk/b.c:381-410 | first set, and what follows if nullable: every split of the word |
| AwkGlushkov.AcceptsRestart | cmd/awk/b.c:110-137 | the positions active inside the text accept exactly the words of the expression |
| AwkGlushkov.AcceptsStart | cmd/awk/b.c:140-170 | the positions active in front of the text accept exactly the words of the expression, with or without HAT |
| AwkGlushkov.AcceptsInitial | cmd/awk/b.c:110-137 | the automaton from follow(0) accepts exactly the words with a NUL-free prefix and a suffix in the language |
| AwkGlushkov.StepHat | cmd/awk/b.c:140-170 | the state after HAT is position 0 with the start positions |
| AwkFollow.DescendingInjective | cmd/awk/b.c:728-749 | comparing position lists is comparing sets |
| AwkFollow.PosSet.Listing | cmd/awk/b.c:315-346 | the marked positions as a strictly descending list of `setcnt` entries |
| AwkFollow.Penter | cmd/awk/b.c:172-196 | numbers the leaves, and fails exactly if there are more than MAXLIN |
| AwkFollow.CollectFirst | cmd/awk/b.c:348-379 | marks exactly the first positions and reports nullability |
| AwkFollow.CollectFollow | cmd/awk/b.c:381-410 | climbs from a leaf and marks exactly what can follow it |
| AwkFollow.EnterFollow | cmd/awk/b.c:315-346 | every leaf gets its follow list, as the automaton needs it |
| AwkFollow.FollowStaysInTree | cmd/awk/b.c:110-137 | in a wrapped expression the climb always ends below the root |
| AwkTable.NextIsStep | cmd/awk/b.c:701-727 | the list computed by `cgoto` is the list of the plain set step |
| AwkTable.GotoExactly | cmd/awk/b.c:750-772 | a sound table is sound after `cgoto` exactly if it was not cleared, or not from state 2 on a byte, or the new list leads to itself |
| AwkTable.MoveLands | cmd/awk/b.c:420-436 | a move in a sound table, through the table or `cgoto`, leads to the state of the successor list, and keeps what searches need |
| AwkTable.MoveSpare | cmd/awk/b.c:750-772 | with a free state, or with room for all lists of a set that no byte leads out of, nothing is cleared and the room is kept |
| AwkMatch.MadeInitFit | cmd/awk/b.c:140-170 | from any table, `makeinit` gives a sound one whose states 2 and last hold what is active inside and in front of the text |
| AwkDfa.Fa.SuccessorList | cmd/awk/b.c:701-734 | the in-place computation of the successor list of a state on a symbol |
| AwkDfa.Fa.FindState | cmd/awk/b.c:736-749 | the lowest known state with a list, or 0 |
| AwkDfa.Fa.Cgoto | cmd/awk/b.c:701-772 | returns the state of the successor list, changes the table as the specification says, and keeps it sound with the exact exception of a cleared row 2 |
| AwkDfa.Fa.MakeInit | cmd/awk/b.c:140-170 | in place, the table that `MadeInit` describes, for anchored automata without position 0 |
| AwkDfa.Fa.MakeDfa | cmd/awk/b.c:110-137 | builds a valid automaton for the expression, or fails exactly if it has too many leaves |
| AwkDfa.Fa.Advance | cmd/awk/b.c:427-431 | in place, one move through the table or through `cgoto` |
| AwkMatch.OccursMeans | cmd/awk/b.c:420-436 | a match somewhere is acceptance of some prefix from the begin state |
| AwkMatch.MatchedRight | cmd/awk/b.c:420-436 | if the table was not cleared while leaving state 2, what `match` returns is whether the expression occurs |
| AwkMatch.MatchedCalm | cmd/awk/b.c:420-436 | with room for one move per symbol nothing is cleared, and the rest of the room is left |
| AwkDfa.Fa.Match | cmd/awk/b.c:420-436 | the in-place loop returns what the table makes of the text, and under a condition on table and text known before the call that is whether the expression occurs |
| AwkDfa.Fa.Scan | cmd/awk/b.c:446-469 | the in-place inner loop is `ScanFrom`, whatever the table holds |
| AwkMatch.ScanFromRight | cmd/awk/b.c:446-469 | and that is the longest match from one start if the table was not cleared while leaving state 2 |
| AwkMatch.ScanMeans | cmd/awk/b.c:438-487 | no match before p and the longest at p is leftmost-longest |
| AwkDfa.Fa.Rebuild | cmd/awk/b.c:470-484 | in place, after an overflow state 2 holds the restart list again and `initstat` is 2 |
| AwkMatch.PMatchedRight | cmd/awk/b.c:438-487 | leftmost-longest: found exactly if some match exists, least start, greatest length, `^` only in front and `$` only at the end, if the table was not cleared while leaving state 2; usable afterwards in any case |
| AwkMatch.PMatchedCalm | cmd/awk/b.c:438-487 | with room for the symbols looked at nothing is cleared, and the rest of the room is left |
| AwkMatch.PMatchedShort | cmd/awk/b.c:438-487 | with (n+1)(n+2)/2 free states a text of n bytes clears nothing, and the answer is leftmost-longest, for every expression |
| AwkMatch.HatLost | cmd/awk/b.c:438-487 | once `initstat` is 2 it stays so through any calls, and a call sees `^` only if it finds the table cleared |
| AwkMatch.HatSeenOnce | cmd/awk/b.c:470-484 | two calls after an unsuccessful attempt with a cleared table: the first sees `^`, the second does not if the first clears nothing |
| AwkDfa.Fa.PMatch | cmd/awk/b.c:438-487 | the in-place search returns what the table makes of the text, and under a condition on table and text known before the call that is the leftmost-longest match |
| AwkOverflow.SmallCalm | cmd/awk/b.c:750-772 | if all lists of an expression fit into the table, every call has room whatever came before |
| AwkOverflow.ChainSmall | cmd/awk/b.c:750-772 | the lists of an anchored chain of at most 28 leaves do |
| AwkOverflow.ShouldFind | cmd/awk/b.c:438-487 | the leftmost-longest match of the failing example is at 29 with length 2, and not at 28 with length 3 |
| AwkOverflow.PMatchFails | cmd/awk/b.c:750-764 | with a new table `pmatch` reports length 3 at 28, and leaves the table to be made anew |
| AwkOverflow.Overflow | cmd/awk/b.c:438-487 | the same from `mkdfa` on, through the in-place search |
| AwkOverflow.GsubFails | cmd/awk/run.c:1669-1733 | with a new table `gsub` cuts that text at the wrong match, and then at `^y` behind it |
| AwkOverflow.GsubShould | cmd/awk/run.c:1669-1733 | the tiling of that text has the one match of two bytes, and nothing behind it |
| AwkOverflow.GsubOverflow | cmd/awk/run.c:1649-1749 | from `mkdfa` on: two matches taken out of the text in place of one |
| AwkParser.Reparse | cmd/awk/b.c:539-557 | the parser ends on every input, and never builds a FINAL leaf |
| AwkParser.ReParser.Relex | cmd/awk/b.c:642-699 | the in-place lexer |
| AwkParser.ReParser.CclEnter | cmd/awk/b.c:276-308 | the in-place expansion of a character class, with its limits |
| AwkParser.ReParser.ParsePrimary | cmd/awk/b.c:559-605 | the in-place parser of a primary |
| AwkParser.ReParser.ParseText | cmd/awk/b.c:539-557 | in place, the tree or the error of `Reparse`; for which texts there is a tree, and which, is `AwkGrammar.ParsesExactly` |
| AwkParser.ReParser.MkDfa | cmd/awk/b.c:110-137 | text to automaton, failing exactly for a bad expression or too many leaves |
| AwkParser.LexOctal | cmd/awk/b.c:242-274 | an octal escape is read back as its character |
| AwkGrammar.ParsesExactly | cmd/awk/b.c:539-699 | for all texts: there is a tree exactly if the grammar (bar below sequence below suffix, parentheses, no `^` behind an operand) derives it from the tokens |
| AwkGrammar.OneTree | cmd/awk/b.c:539-699 | the grammar gives a text one tree |
| AwkGrammar.LexClassExactly | cmd/awk/b.c:666-695 | a class is read up to the first bracket without a backslash, exactly if no bare newline is in front of that and it fits |
| AwkSpelling.ParseFewest | cmd/awk/b.c:539-641 | suffixes bind tighter than concatenation, and that tighter than bars, both left associative: the spelling of any tree with parentheses only where that needs them parses to the tree |
| AwkSpelling.ParseClassText | cmd/awk/b.c:276-308 | a class of bytes and ranges parses to a leaf that consumes exactly what an item covers, or with `^` every other byte |
| AwkSpelling.LeafMatches | cmd/awk/b.c:701-727 | where a leaf matches, by position and length: `^` at the front, `$` at the end, `()` nothing, else one byte of the kind |
| AwkSpelling.Escapes | cmd/awk/b.c:242-274 | what each letter behind a backslash stands for |
| AwkSpelling.EscapesHex | cmd/awk/b.c:222-261 | a hexadecimal escape is read back as its number |
| AwkSpelling.EscapesOctal | cmd/awk/b.c:262-272 | an octal escape of one, two or three digits, of which the program takes 8 for one, is read back as its number |
| AwkSpelling.ParseEscape | cmd/awk/b.c:242-274 | an escape as a whole expression parses to its character |
| AwkRegex.SuffixesExactly | cmd/awk/b.c:381-410 | the words of a star are any number of words of its operand, of a plus at least one, of a question mark at most one |
| AwkParser.ParseSpell | cmd/awk/b.c:539-699 | parsing the parenthesised spelling of a tree gives the tree, for every tree whose classes fit the class buffer with their special bytes escaped |
| AwkGsub.BestIsOnly | cmd/awk/b.c:438-487 | the leftmost-longest match is unique |
| AwkGsub.EmptyMatchIsLeft | cmd/awk/run.c:1686-1712 | a leftmost-longest match that is empty and not at the end starts at the beginning |
| AwkGsub.TilingCovers | cmd/awk/run.c:1649-1749 | kept and substituted pieces in order are the target |
| AwkGsub.GsubAmpersand | cmd/awk/run.c:1649-1749 | with replacement & the target is unchanged |
| AwkGsub.AppendReplacement | cmd/awk/run.c:1689-1700 | in place, the replacement for a match, up to the end of the buffer |
| AwkGsub.ExpandMeans | cmd/awk/run.c:1689-1700 | a replacement made of matches, written `&`, and bytes, an ampersand written `\&`, gives these |
| AwkGsub.EveryReplacement | cmd/awk/run.c:1689-1700 | and every replacement is made so |
| AwkGsub.TilingReplaces | cmd/awk/run.c:1669-1733 | of the leftmost-longest matches of successive searches exactly those are replaced that do not stand, empty, right behind a non-empty one; each once, in order, and counted |
| AwkGsub.CutsReplace | cmd/awk/run.c:1669-1733 | the same for the matches that the searches report, whatever the table does |
| AwkGsub.CutsRight | cmd/awk/run.c:1669-1733 | the pieces that the searches make of a target, from any table, are those of the tiling if the table is not cleared |
| AwkGsub.GsubCalm | cmd/awk/run.c:1669-1733 | with room for its work `gsub` clears nothing |
| AwkGsub.GsubShort | cmd/awk/run.c:1669-1733 | with (n+1)(n+2)(n+3)/6 free states a target of n bytes is cut into its tiling, for every expression |
| AwkGsub.Gsub | cmd/awk/run.c:1649-1749 | terminates; the pieces that the searches make of the target are put together with every match replaced and counted, whatever the table does, and the result is too big exactly if it does not fit; if the table is not cleared, and so with room for its work, they are those of the tiling, and the number returned is that of the leftmost-longest matches that are not empty behind another |
| AwkSymtab.TablePut | cmd/awk/tran.c:203-229 | a cell put at the front of its bucket extends the map |
| AwkSymtab.TableRemove | cmd/awk/tran.c:180-201 | unlinking a cell removes its name from the map |
| AwkSymtab.Hash | cmd/awk/tran.c:231-238 | the hash loop with 32-bit wrap-around and signed bytes |
| AwkSymtab.PairsCollide | cmd/awk/tran.c:231-238 | all names of n pairs `Aa` or `BB` share a bucket, in a table of any size |
| AwkSymtab.PairsDiffer | cmd/awk/tran.c:231-238 | and there are 2^n of them |
| AwkSymtab.SignedWraps | cmd/awk/tran.c:231-238 | a byte from 128 on counts negative and wraps around |
| AwkSymtab.SymTab.Lookup | cmd/awk/tran.c:262-272 | the cell of the name in the map, or null |
| AwkSymtab.SymTab.FreeElem | cmd/awk/tran.c:180-201 | removes exactly that name |
| AwkSymtab.SymTab.Rehash | cmd/awk/tran.c:240-260 | changes no lookup, whether or not there is memory |
| AwkSymtab.SymTab.SetSymtab | cmd/awk/tran.c:203-229 | the existing cell or a new one, with count and size; exactly when the table stays at most twice full |
| AwkSymtab.Overfull | cmd/awk/tran.c:203-260 | eight names per bucket without memory and one more with it: the table grows once and is more than twice full |
| AwkSymtab.OverfullStart | cmd/awk/tran.c:203-260 | the same in the program's own table: 401 names in 200 buckets |
| AwkFields.JoinCut | cmd/awk/lib.c:247-276 | joining the fields gives the record with newlines replaced |
| AwkFields.CutJoin | cmd/awk/lib.c:247-276 | cutting a join gives the fields |
| AwkFields.CutExactly | cmd/awk/lib.c:247-276 | the fields are the only ones without separators that join to the record, but for its newlines |
| AwkFields.CutCount | cmd/awk/lib.c:247-276 | one field more than separators |
| AwkFields.WordsStable | cmd/awk/lib.c:228-246 | splitting a record rebuilt from words gives the same words |
| AwkFields.WordsExactly | cmd/awk/lib.c:228-246 | the words are the only ones without space, tab or newline that make up the record with gaps of these between them |
| AwkFields.FieldsExactly | cmd/awk/lib.c:222-276 | the fields are words if the separator is a blank, and else what the separator joins to the record |
| AwkFields.JoinNext | cmd/awk/lib.c:340-371 | the whole output separator stands in front of every field but the first |
| AwkFields.SplitRecord | cmd/awk/lib.c:247-262 | the loop for a separator character |
| AwkFields.SplitWords | cmd/awk/lib.c:228-246 | the loop for white space |
| AwkFields.Record.FldBld | cmd/awk/lib.c:213-276 | the fields: words for a blank separator, else pieces; or a failure exactly if there are too many |
| AwkFields.Record.RecBld | cmd/awk/lib.c:340-371 | the joined fields, cut off at the size of the record |
| AwkFields.RebuiltExactly | cmd/awk/lib.c:340-371 | the record comes back exactly if it fits and has no newline |
| PkPack.MissingOfHolds | cmd/bnu/pk0.c:193-202 | the receiver reads back the length and place of a short packet's data |
| PkPack.ShortForm | cmd/bnu/pk0.c:331-364 | the length in one byte, or in two to the base 128, the lower first with its top bit set |
| PkPack.Filled | cmd/bnu/pk0.c:331-364 | a packet holds its chunk, with one or two length bytes if short |
| PkClass.Pack.PkSack | cmd/bnu/pk0.c:370-389 | in place, frees what the acknowledgement covers |
| PkClass.Pack.PkOutput | cmd/bnu/pk0.c:393-479 | in place, the frames sent and the new state; RJ first if it is due |
| PkClass.Pack.PkPut | cmd/bnu/pk0.c:315-364 | in place, one packet of `pkwrite` |
| PkClass.Pack.PkCntl | cmd/bnu/pk0.c:52-121 | in place, a control frame |
| PkClass.Pack.PkData | cmd/bnu/pk1.c:314-345 | in place, a data frame into a slot |
| PkClass.Pack.PkTimeout | cmd/bnu/pk1.c:165-289 | in place, what a timeout does |
| PkClass.Pack.PkAccept | cmd/bnu/pk0.c:125-245 | in place, examines the pending frame and settles the window |
| PkClass.Pack.PkRead | cmd/bnu/pk0.c:249-312 | in place, the delivery loop |
| PkRun.StepKeeps | cmd/bnu/pk0.c:124-479 | every event keeps the invariant that relates numbers mod 8 to true numbers |
| PkRun.OkWf | cmd/bnu/pk0.c:124-479 | the invariant makes every state fit for the next event |
| PkRun.DeliveredIsPrefix | cmd/bnu/pk0.c:124-479 | in every state of every run, the bytes read are a prefix of the bytes written |
| PkWindow.WindowInvariant | cmd/bnu/pk0.c:331-389 | in every run the full output slots are the interval behind p_ps, with p_xcount its length, at most 7 |
| PkWindow.AckFreesExactly | cmd/bnu/pk0.c:370-389 | in every run an arriving acknowledgement frees exactly the packets it covers |
| PkWindow.WritePointer | cmd/bnu/pk0.c:315-364 | in a run, a packet written leaves p_nxtps in the window exactly if it was not more than one packet further, or is sent back |
| PkWindow.OutputPointer | cmd/bnu/pk0.c:393-479 | sending leaves p_nxtps in the window exactly if it was there or is sent back |
| PkWindow.AckPointer | cmd/bnu/pk0.c:52-121 | in a run, a control frame with all `pkcntl` does leaves p_nxtps in the window exactly if it was there and not passed, or is sent back |
| PkWindow.PointerExactly | cmd/bnu/pk0.c:52-479 | after every event of every run p_nxtps is in the window exactly as these conditions say |
| PkWindow.PointerLeavesExactly | cmd/bnu/pk0.c:52-479 | in every run it leaves the window exactly when an acknowledgement passes it and nothing sends it back |
| PkWindow.PointerUntilPassed | cmd/bnu/pk0.c:52-479 | until then it is in the window |
| PkWindow.PointerReturnsExactly | cmd/bnu/pk0.c:52-479 | and it comes back exactly when it is sent back or the window grows up to it |
| PkWindow.PointerFallsBehind | cmd/bnu/pk0.c:52-479 | a run of nine events, without a lost or damaged frame, in which the pointer leaves the window |
| PkReject.DamageIsRejected | cmd/bnu/pk0.c:229-237 | in every run, the next frame that the reader sends after it has looked at a damaged one is RJ, with the number of the last packet read |
| PkReject.RejectionsAreDue | cmd/bnu/pk0.c:229-237 | every RJ sent has a damaged frame of its own before it, but for one due from the beginning |
| PkReject.RejectionNeedsDamage | cmd/bnu/pk0.c:420-427 | RJ on its way back means that a damaged frame has been looked at, unless one was due from the beginning |
| PkReject.RejectionIsObeyed | cmd/bnu/pk0.c:52-121 | in every run, the first data frame from the arrival of RJ on carries the oldest packet not acknowledged |
| PkReject.ResendsAtOnce | cmd/bnu/pk0.c:393-479 | RJ or a timeout makes the writer send that packet at once, or say where it is if there is none |
| PkReject.AcceptAnswers | cmd/bnu/pk0.c:125-245 | in every state of every run a frame looked at is taken exactly if it carries the next packet, and else an answer is due |
| PkReject.EveryFrameIsAnswered | cmd/bnu/pk0.c:125-245 | in every run, the next frame that the reader sends after a damaged, repeated or misplaced one has the number of the last packet read |
| PkReject.ReadAcknowledges | cmd/bnu/pk0.c:249-312 | a `pkread` that finishes a packet acknowledges it before it returns |
| PkReject.TimeoutAnswers | cmd/bnu/pk1.c:165-289 | a reader that has waited in vain says where it is |
| PkReject.LostBodyAnswers | cmd/bnu/pk1.c:253-289 | so does one that gets a header without its body, if it has a buffer |
| PkReject.SendsInOrder | cmd/bnu/pk0.c:393-479 | in every state of every run `pkoutput` sends the packet at the pointer and moves on to the next one, and at the end of the window an acknowledgement if one is due |
| Gio.BlockCut | cmd/bnu/pk0.c:315-364 | a packet of a block is full unless the block ends |
| Gio.FileCut | cmd/bnu/gio.c:137-163 | every packet of a file holds as much as fits in, up to the end of its block or of the file |
| Gio.DeliverAmount | cmd/bnu/pk0.c:266-308 | `pkread` returns all that is wanted, or all that is there in front of an empty packet |
| Gio.ReadsAllThere | cmd/bnu/pk0.c:249-312 | and so in every state of every run |
| Gio.WriteBlock | cmd/bnu/pk0.c:315-364 | in place, the packets of a block, none empty but for an empty block |
| Gio.Gwrdata | cmd/bnu/gio.c:137-163 | the file in packets, block by block, and one empty packet |
| Gio.DeliverStream | cmd/bnu/pk0.c:266-308 | `pkread` returns 0 exactly at the empty packet, and otherwise the next bytes |
| Gio.ReadIsDeliver | cmd/bnu/pk0.c:249-312 | for every receiver state, the delivery loop gives the bytes that the queue of packets says, and leaves the queue and the count that it says, the empty packet included |
| Gio.ReadFromQueue | cmd/bnu/pk0.c:249-312 | in every state of every run a `pkread` delivers from the queue of packets written and not yet read |
| Gio.OtherQueue | cmd/bnu/pk0.c:52-479 | no other event of the line takes from that queue, and only `pkwrite` adds to it |
| Gio.ReadConserves | cmd/bnu/pk0.c:249-312 | over any behaviour of the line a `pkread` loses and makes up no byte of what is in front of it |
| Gio.ReadStream | cmd/bnu/pk0.c:249-312 | in front of a file it returns the next bytes, or nothing exactly at the empty packet, which is consumed |
| Gio.Transfer.PkRead | cmd/bnu/pk0.c:249-312 | in place: dead exactly if nothing has been accepted when it stops waiting, else the delivery with the state and bytes it leaves |
| Gio.BlockStream | cmd/bnu/gio.c:199-213 | the loop of `grdblk` gives a full block, or the rest of the file with its empty packet |
| Gio.Transfer.Grdblk | cmd/bnu/gio.c:199-213 | in place, that loop, dead exactly if one of its reads is |
| Gio.WholeStream | cmd/bnu/gio.c:166-194 | the loop of `grddata` gives the whole file and its empty packet, and nothing behind |
| Gio.Transfer.Grddata | cmd/bnu/gio.c:166-194 | in place, that loop, failed exactly if one of its blocks is dead |
| Gio.RoundTrip | cmd/bnu/gio.c:137-213 | packets filled with length bytes on one side and read by the delivery loop on the other, over a line that loses, damages and delays frames: the result is that of `grddata` on the packets of `gwrdata`, and the file comes out whole unless the line dies, for every packet and buffer size |
| GioLive.StuckStays | cmd/bnu/pk1.c:253-289 | no event gives a buffer back to a reader that has none, nothing accepted and nothing to look at |
| GioLive.CanReady | cmd/bnu/pk0.c:52-479 | from every other state of every run with a packet to come, whatever has been lost, some events make the next `pkread` succeed |
| GioLive.ArrivesExactly | cmd/bnu/gio.c:166-213 | in every such state the rest of the file can arrive exactly if the reader is not stuck |
| GioLive.FileArrivesExactly | cmd/bnu/gio.c:137-213 | from the beginning, for every file, packet size, window and buffer sizes: there is a behaviour of the line under which the copy is the file, exactly if there is an input buffer |
| GioLive.BuffersRunOut | cmd/bnu/pk1.c:253-289 | before the first `pkread` of any transfer the line can make the reader stuck for good |
| Cntrl.StepKeeps | cmd/bnu/cntrl.c:275-1326 | every step of either end keeps the joint state of the conversation |
| Cntrl.ConversationIsSafe | cmd/bnu/cntrl.c:275-1326 | in every run without a seek failure: no check on Role fails, no message is unexpected, both are master only while a refusal to hang up is under way, they never wait for each other |
| Cntrl.HangUpIsMutual | cmd/bnu/cntrl.c:566-608 | an end returns 0 only after the other has said yes |
| Cntrl.CanHangUp | cmd/bnu/cntrl.c:275-1326 | from every joint state with nothing lost, both ends can still return 0 |
| Cntrl.SeekFailureBreaks | cmd/bnu/cntrl.c:510-515 | after a seek failure the other end's check on Role can fail |
| Cntrl.RoleCheckExactly | cmd/bnu/cntrl.c:510-515 | and nothing else opens the way to that |
| Cntrl.Uucico.NextJob | cmd/bnu/cntrl.c:281-538 | in place, the master's next job |
| Cntrl.Uucico.ReadAndProcess | cmd/bnu/cntrl.c:541-650 | in place, reading a message and the switch on it |
| Cntrl.Uucico.Transfer | cmd/bnu/cntrl.c:693-727 | in place, the two sides of a file transfer: a whole file is answered with Y, N10 or N5 as it was stored, too big or not copied |
| CntrlTrace.LineKeeps | cmd/bnu/cntrl.c:275-1326 | in every run, what an end has read and what is on its way to it is what the other has written, in order |
| CntrlTrace.CompletionsAreTrue | cmd/bnu/cntrl.c:880-1140 | in every run the completions say, in order, what became of the files received: Y stored, N10 too big, N5 not copied |
| CntrlTrace.FilesAreReceived | cmd/bnu/cntrl.c:693-727 | the files written are those received and those on their way |
| CntrlTrace.SenderLearns | cmd/bnu/cntrl.c:715-727 | the completion that a sender reads is that of the file that it has written last |
| CntrlTrace.RequestsWritten | cmd/bnu/cntrl.c:281-538 | in every run an end asks for exactly the jobs that it has found, and to hang up when it has found none |
| CntrlTrace.AnswersAreTrue | cmd/bnu/cntrl.c:611-1326 | in every run the answers to requests say, in order, what the other end has decided: Y, or N with its code |
| CntrlTrace.MasterLearns | cmd/bnu/cntrl.c:541-650 | the answer that a master reads is that to the job that it has asked for last |
| CntrlTrace.RefusalHeard | cmd/bnu/cntrl.c:611-650 | a master that is refused goes on to its next job; only N4 ends the call |
| CntrlTrace.HangUpStep | cmd/bnu/cntrl.c:566-608 | a request to hang up is refused exactly if there is work, and then the two change roles |
| CntrlTrace.FilesGoOut | cmd/bnu/cntrl.c:541-1326 | in every run an end writes one file for each of its requests to send that was accepted and for each request to receive that it accepts |
| CntrlTrace.SenderWaits | cmd/bnu/cntrl.c:715-725 | a sender passes over one other message per kilobyte of the file, and gives up at the next |
| CanPath.Back | cmd/bnu/expfile.c:190-191 | going back past a component removes exactly the last name |
| CanPath.CopyName | cmd/bnu/expfile.c:196-201 | copies a component downwards without touching what is still to be read |
| CanPath.CanPath | cmd/bnu/expfile.c:165-207 | the buffer holds the canonical text, and failure is exactly climbing |
| CanPath.CanonicalPlain | cmd/bnu/expfile.c:165-207 | the result has no empty component, no dot and no dot-dot |
| CanPath.CanonicalForm | cmd/bnu/expfile.c:165-207 | the names with single slashes between them, one in front if absolute, one behind if the path does not end in a name; the root or `.` without names |
| CanPath.Idempotent | cmd/bnu/expfile.c:165-207 | a second application changes nothing |
| CanPath.SamePlace | cmd/bnu/expfile.c:165-207 | from every directory the result leads where the path leads |
| CanPath.FailsExactly | cmd/bnu/expfile.c:165-207 | FAIL exactly for a relative path that climbs above its start |
| Stoa.OrAdds | cmd/bnu/stoa.c:162 | or of numbers without common bits is addition |
| Stoa.DigitStraddles | cmd/bnu/stoa.c:162-167 | an octal digit over two bytes |
| Stoa.PackedNext | cmd/bnu/stoa.c:161-175 | one digit more, for every shift |
| Stoa.Pack | cmd/bnu/stoa.c:159-179 | the loop over the digits; too long exactly from 1016 bits on |
| Stoa.DigitExactly | cmd/bnu/stoa.c:43-45 | the digits of both bases, of either case, and their values |
| Stoa.HexExactly | cmd/bnu/stoa.c:137-186 | the hexadecimal text of some bytes has those bytes as its only value |
| Stoa.DoBase | cmd/bnu/stoa.c:137-186 | they are bytes, they have the value of the digits, and 0 is returned exactly for an illegal or too long string |
| Bfs.StartExactly | cmd/bfs/bfs.c:303-361 | line k starts at the front or behind a newline, with k - 1 newlines in front of it |
| Bfs.File.BigOpen | cmd/bfs/bfs.c:303-361 | the index of all lines, or a failure exactly if there are too many |
| Bfs.File.Seek | cmd/bfs/bfs.c:372-393 | the position of the line, right exactly if the lines walked over fit |
| Bfs.FoundExactly | cmd/bfs/bfs.c:372-393 | every line is found from every other exactly if all but the last fit |
| Bfs.File.Text | cmd/bfs/bfs.c:394-417 | the bytes at the position found, through the saved block, up to a newline or the limit; behind the end of the file those that the buffer had before |
| Bfs.ReadsLine | cmd/bfs/bfs.c:394-417 | that is the line, if it has a newline |
| Bfs.ReadsLast | cmd/bfs/bfs.c:394-417 | and the line with old bytes behind it, if it has none |
| Bfs.LongFirstMissed | cmd/bfs/bfs.c:372-393 | a first line of 128 bytes: the walk to the second goes to -128 instead of 128 |
| Bfs.LongFirstExactly | cmd/bfs/bfs.c:372-393 | behind such a line exactly the lines at most 32 lines away, and those behind the first 64, are found |
| Bfs.File.BigRead | cmd/bfs/bfs.c:372-417 | after any calls: the text of the line that a linear scan finds, exactly if the lines walked over fit |
| AcctMerge.TotalOfInput | cmd/acct/acctmerg.c:182-196 | if the addition lets records be swapped, the total is that of the inputs one after the other |
| AcctMerge.OrderIsFreeExactly | cmd/acct/acctmerg.c:182-196 | and for all inputs it is so only then |
| AcctMerge.TotalsDiffer | cmd/acct/acctmerg.c:182-196 | three records and a rounding addition for which the total is another |
| AcctMerge.GroupByOnly | cmd/acct/acctmerg.c:126-129 | there is one group-by of an input |
| AcctMerge.PartsPermute | cmd/acct/acctmerg.c:126-129 | its groups have every record as often as the input has it |
| AcctMerge.Merge.GetLeast | cmd/acct/acctmerg.c:138-154 | the first input with the least current record |
| AcctMerge.Merge.GetNext | cmd/acct/acctmerg.c:209-239 | the next record of an input |
| AcctMerge.Merge.SumCurr | cmd/acct/acctmerg.c:160-180 | all records with the least key, and no other, are added up in the order of the inputs |
| AcctMerge.PartsGrouped | cmd/acct/acctmerg.c:126-129 | complete groups of increasing keys give the group-by of the input |
| AcctMerge.KeysMean | cmd/acct/acctmerg.c:138-175 | records are merged if uid and name agree, or with -u the uid; the order is that of the uids, then of the names at the first place where they differ |
| AcctMerge.TotalFields | cmd/acct/acctmerg.c:182-196 | field by field: counts are sums modulo 2^16, processes modulo 2^32, each time the left fold of the addition |
| AcctMerge.TotalCounts | cmd/acct/acctmerg.c:182-196 | the counts of the total are those of the input in any order |
| AcctMerge.Merge.Run | cmd/acct/acctmerg.c:119-132 | for any addition of floats: keys strictly increasing, all keys of the input, and in each record every field the sum of that field over the records of its key in the order of the inputs, counts modulo 2^16 and processes modulo 2^32; the total the same over all records in the order of the groups |
| WtmpFix.EpochExactly | cmd/acct/wtmpfix.c:312-313 | an epoch begins with the last boot, or with the file |
| WtmpFix.MultiExactly | cmd/acct/wtmpfix.c:314-319 | multiuser mode: run-level 2 was entered and run-level S not since |
| WtmpFix.SameEpoch | cmd/acct/wtmpfix.c:222-236 | an interval covers exactly the earlier records of its epoch |
| WtmpFix.ClosedChange | cmd/acct/wtmpfix.c:203-220 | a change closes an interval from the start of its epoch |
| WtmpFix.Wtmp.ScanFile | cmd/acct/wtmpfix.c:312-346 | reads everything, and fails exactly if an old date is not followed by a new one |
| WtmpFix.Wtmp.Adjust | cmd/acct/wtmpfix.c:222-236 | adds the intervals that cover the record |
| WtmpFix.Wtmp.Fix | cmd/acct/wtmpfix.c:144-160 | each time is the raw time plus all later multiuser changes of its epoch |
| WtmpFix.FinalClockExactly | cmd/acct/wtmpfix.c:184-236 | on the final clock exactly if it is not the old date of a real change |
| WtmpFix.OldDateStays | cmd/acct/wtmpfix.c:203-236 | three records of which the old date is not |

## Left out

- awk: grammar, lexer, `printf`, floating point, redirection, function calls, `sub`, `split`, `nematch` and `refldbld`; the cache of automata in `makedfa`; freeing memory.
- Parent pointers of the parse tree are paths to the root, and leaf numbers are written into a new tree instead of in place.
- AwkDfa.Fa.Match: that the result is what the expression says is not stated for calls in which the table is cleared while leaving state 2; there only what the table makes of the text is.
- AwkDfa.Fa.PMatch: the same. When `^` is seen is stated for every call (`AwkMatch.PMatchedRight`, `AwkMatch.HatLost`).
- AwkDfa.Fa.SuccessorList: the original collects the list and its length in an array of MAXLIN entries, so that an expression with all of 512 positions active at once writes one entry behind it; the list in the model has no such bound.
- AwkGsub.Gsub: for calls in which the table is cleared the result is stated by what the searches return, not by the expression. The buffer of the model is a sequence without a bound; the original's copy of `&` and its last copy are not checked against the end of the buffer, so that it can write behind it before it reports a result that is too big. Such a result ends the program.
- AwkParser: a backslash as last byte makes the original read past the end of the string; the model reports it as an error.
- AwkSymtab: the cells' values are not changed by the table; iteration over an array is not modelled; `size` does not overflow.
- AwkFields: fields are values, not places in the shared `fields` buffer; numeric fields and assignment to fields are not modelled.
- The 'g' protocol: data flows one way and the reader is driven by `pkread`, so that at most one frame waits to be examined; byte resynchronisation, the INIT handshake, alarms, CLOSE and the strength of the checksum are not modelled; a damaged frame is recognised. That the line behaves well enough for a transfer to end is not claimed; GioLive says when it still can.
- PkRun: lengths in malformed short packets are not modelled.
- PkPack: the second length byte of a short packet is a number without a bound; for packets of at most 4096 bytes, which are all that can be negotiated, it is a byte.
- Gio: read and write errors of the file, and the messages of `gwrmsg` and `grdmsg`.
- Cntrl: file names, permissions, logging, the restart point and the security records are choices; any failure of the line or of the file system ends the call with `GiveUp`; an end that gives up leaves its inbox as it is.
- Cntrl.ConversationIsSafe: excludes the master's failure to seek, for which RoleCheckExactly says what happens.
- CanPath.CanPath: needs one byte behind the terminator, which the original writes as well.
- Bfs.File.BigRead: after a walk to a position in front of the file, which lines of more than 127 bytes can cause, nothing is stated about the text read.
- AcctMerge: the addition of floats is any function of two numbers; reading and printing of ASCII records is not modelled; an input record with an empty name ends its input in the original and is excluded.
- WtmpFix: resynchronisation on a damaged file and the correction of login names.
- Other programs of the tree (bdiff, cu, ct, autopush, banner, report printers, dialing) are process and device plumbing or easy string work.
