# Classic Unix commands, verified

A Dafny model of the small stateful algorithms inside ten Unix commands, one module for each, with
proofs of what the commands rely on. `dafny verify dfyconfig.toml` checks everything.

| module | models |
|---|---|
| `Bfs` | the line index, the cached block reader and the wrapping search of bfs |
| `AwkSymtab` | the symbol table of awk: chained hashing, growing by relinking the same cells |
| `AwkFields` | `$0` and `$1..$NF` in awk, two views each rebuilt from the other when it is looked at |
| `AcctMerg` | acctmerg: merging and summing sorted streams of accounting records |
| `Bdiff` | bdiff: segment-wise diffs renumbered into one edit script |
| `WorkList`, `Bookmark` | the bounded work list and the restartable reader of work files in uucico |
| `AcctCon`, `AcctUsers` | acctcon: login sessions across changes of the clock, and the table of users |
| `AcctCms` | acctcms: a probed hash table, merged and compacted in place |
| `AuditMap`, `LoadMap` | auditmap: two passes that must agree byte for byte, and the reader of their result |
| `WtmpFix` | wtmpfix: a list of intervals that rebases old log records |
| `RelativePath` | the relative path of mkmerge, with terminators put into its arguments for a while |
| `Decimal`, `Lex`, `Remainder`, `Ring` | numerals, the order of strings, remainders, slots that are probed round |

Programs that work on arrays, linked cells or global variables are classes with the same fields, and
their methods have the loops of the C code. Every such method is tied by its contract to a function of the
old state or to a property of it, and the lemmas beside it say what that amounts to over any input or any run.
What these functions compute is in turn said without naming them, in the characters, numbers and fields of the
records that the programs read and write.
Errors that end a program are results (`ok` is false); then nothing more is said about the state.

What turned out not to hold on all inputs is stated with the exact condition under which it does:

* bfs: a last line of fewer than 512 bytes without newline arrives as it is exactly when the byte behind it is a
  null or a newline (`Bfs.Reader.TailWhole`, `Bfs.UnendedTail`). Which byte that is can be told before the call
  (`Bfs.Reader.Stale`): a byte of the file if the line starts before the block in which the file ends, else what the
  cache holds. The line table is right exactly when no line is longer than 32767 bytes (`Bfs.Reader.BigOpen`).
* awk: an `FS=` operand between two files splits the emptied record, so the next record is seen with the fields
  of nothing (`AwkFields.Awk.ReadRecord`, `AwkFields.OperandBetweenFiles`); `getline var` resets the flags and so
  undoes field stores, exactly unless the fields on hand are those of the record and no store is pending that would
  change it (`AwkFields.Awk.GetlineVar`, `AwkFields.Awk.Settled`, `AwkFields.StoreLostByGetline`); and where a comment
  (usr/src/common/cmd/awk/lib.c:151-160) wants NF to stick into END, it does so exactly under a condition on the flags
  and fields before (`AwkFields.Awk.EndOfInput`, `AwkFields.Awk.Sticks`, `AwkFields.OperandBeforeEnd`).
* bdiff: line numbers are right exactly when neither file ends strictly inside a segment that the other goes
  past (`Bdiff.BdiffCorrect`, `Bdiff.AlignedIs`, `Bdiff.MisnumberedExample`); and the renumbering of a line ends
  exactly when it holds only what headers hold, as all headers of diff do (`Bdiff.Differ.Fixnum`, `Bdiff.TextPassable`).
* uucico: with the work list of a new grade empty, a name is given out that is not there (`WorkList.Files.Iswrk`,
  `WorkList.GradeWithoutWork`); with more than 32768 lines a restart can begin again with the first
  (`Bookmark.LittleRepeatedWhen`); a work file under a bookmark left behind by an earlier one can lose lines exactly when that bookmark counts any
  (`Bookmark.NothingLostWhen`, `Bookmark.BookmarkLeft`).
* acctcon: a user whose slot is the last one tried is reported as not fitting although charged correctly
  (`AcctUsers.Users.Enter`, `AcctUsers.FullTooSoon`).
* acctcms: a record without a name leaves its sums in the first empty slot, and a name that comes there later is
  charged with them (`AcctCms.NamelessInherited`). What each name inherits, and what no name has taken over in the end,
  is part of `AcctCms.Summary`; a name inherits exactly when it comes into the first empty slot
  (`AcctCms.InheritsWhen`), and nothing if it was seen before any such record (`AcctCms.NothingInherited`). If `***other` does not fit, the rare commands are dropped, and the C code adds their sums to the memory in
  front of its table (`AcctCms.Table.Fixjunk`).
* auditmap: the passes disagree about negative numbers without nine digits and about a class file without a class
  (`AuditMap.EntryAgreesWhen`, `AuditMap.ClassesAgree`, `AuditMap.SevenAgree`); the file reads back exactly when they
  agree about every map (`AuditMap.ReadsBack`), and what is written beyond the space is counted by `AuditMap.SevenOver`.
  The reader takes maps apart up to a NUL, so the last one may be sized too large but not too small; and names must
  hold no blank and no colon (`LoadMap.LoadsBack`, `LoadMap.SevenLoad`).
* wtmpfix: an OLD_TIME record is not moved by its own change; exactly when it is then out of order is stated by
  `WtmpFix.OldTimeNotMoved`, and `WtmpFix.PutBack` is a log in which it is.
* mkmerge: with a slash at the end of the first path the result is wrong exactly when the second path goes on from
  the first (`RelativePath.TrailingSlash`).

## Model

| member | source | states |
|---|---|---|
| Bfs.StartsAreAll | usr/src/common/cmd/bfs/bfs.c:203-236 | the line starts used as reference are exactly the first byte and the bytes after newlines, each once, in order |
| Bfs.LinesTile | usr/src/common/cmd/bfs/bfs.c:211-239 | lines follow each other without gap from the first byte to the last; a newline is only ever the last byte of a line, and ends every line but perhaps the last |
| Bfs.SpaceSuffices | usr/src/common/cmd/bfs/bfs.c:207-237 | growing the line table by 4096 entries at every 4096th line keeps the slot to be written in the table, at the end of the file too |
| Bfs.LengthsTrue | usr/src/common/cmd/bfs/bfs.c:219-239 | a table of 16-bit lengths is true exactly when no line is longer than 32767 bytes |
| Bfs.Reader.StartLine | usr/src/common/cmd/bfs/bfs.c:214-226 | at a line start the finished length is stored, every 64th line is indexed within the 512 slots, and 32768 lines are refused |
| Bfs.Reader.ScanFile | usr/src/common/cmd/bfs/bfs.c:203-236 | one scan by blocks leaves both tables true of all lines met, or finds more than 32767 lines |
| Bfs.Reader.BigOpen | usr/src/common/cmd/bfs/bfs.c:194-242 | succeeds exactly for at most 32767 lines; then Dollar is the line count, the size printed is that of the file, the index is true, and all reading invariants hold exactly when no line exceeds 32767 bytes |
| Bfs.Reader.Walk | usr/src/common/cmd/bfs/bfs.c:264-273 | however l lies to the previous line, prevblk and prevoff end up at the start of line l, prevoff possibly negative |
| Bfs.Reader.Seek | usr/src/common/cmd/bfs/bfs.c:279-282 | afterwards the cache holds the valid bytes of block prevblk and the descriptor is at the end of that block or of the file |
| Bfs.Reader.CopyLine | usr/src/common/cmd/bfs/bfs.c:284-305 | copies from the cached blocks up to a newline or 512 bytes; bytes beyond the end of the file are what the cache held |
| Bfs.Reader.BigRead | usr/src/common/cmd/bfs/bfs.c:255-306 | any sequence of calls delivers each line exactly (its first 512 bytes if longer) and keeps position, cache and descriptor consistent; behind a short unterminated last line comes the stale byte, told from the state before the call |
| Bfs.Reader.TailWhole | usr/src/common/cmd/bfs/bfs.c:284-305 | a short unterminated last line is delivered as it is exactly when the stale byte is a null or a newline |
| Bfs.UnendedTail | usr/src/common/cmd/bfs/bfs.c:284-305 | a file of two lines opened and read in order: the unterminated second line arrives followed by a byte of the first |
| Bfs.VisitIsRing | usr/src/common/cmd/bfs/bfs.c:953-985 | the order in which hunt visits lines meets every line exactly once and ends at the start itself |
| Bfs.Reader.Hunt | usr/src/common/cmd/bfs/bfs.c:945-991 | in a file that ends in a newline: with wrapping -1 exactly when no line matches, without it exactly when none of those ahead in the direction of search does; otherwise a line that matches, and none between it and the start, going round, does. For any file, what is fetched and matched, and exactly when the text of a short unterminated last line is the line itself |
| Bfs.Reader.FirstMatch | usr/src/common/cmd/bfs/bfs.c:945-991 | if the file ends in a newline, what hunt returns is the first line in visiting order that matches, -1 exactly when none does |
| Bfs.Reader.ShownIs | usr/src/common/cmd/bfs/bfs.c:284-305 | the text that is matched: of a line of at most 512 bytes what is before the newline, of a longer one 512 bytes, up to a null |
| AwkSymtab.Hash | usr/src/common/cmd/awk/tran.c:240-249 | the loop in 32-bit arithmetic computes the bucket of a name, below the number of buckets |
| AwkSymtab.BucketIs | usr/src/common/cmd/awk/tran.c:240-249 | the hash is the sum of the characters, each weighed 31 times as much as the next, in 32 bits, by the number of buckets |
| AwkSymtab.PopFront | usr/src/common/cmd/awk/tran.c:262-263 | taking the first cell out of a chain leaves all other cells in their right chains, without cycles |
| AwkSymtab.PushFront | usr/src/common/cmd/awk/tran.c:264-266 | a cell put in front of the chain of its name joins the table without disturbing another cell |
| AwkSymtab.SkipNext | usr/src/common/cmd/awk/tran.c:193-194 | a cell taken out from behind another leaves every other cell reachable in its chain |
| AwkSymtab.Array.Lookup | usr/src/common/cmd/awk/tran.c:274-286 | finds the one cell of the name, or nothing when the name is not in the table |
| AwkSymtab.Array.Rehash | usr/src/common/cmd/awk/tran.c:251-272 | the same cells, with unchanged contents, in four times as many chains, each in its right one |
| AwkSymtab.Array.Reserve | usr/src/common/cmd/awk/tran.c:229-231 | after counting one more cell the table is not fuller than two cells a chain |
| AwkSymtab.Array.Setsymtab | usr/src/common/cmd/awk/tran.c:204-238 | an existing name: its cell, and nothing changes; a new name: one new cell with the given value, a number too if it can be one and looks like one, the others as before; nelem counts the cells |
| AwkSymtab.EnteredIs | usr/src/common/cmd/awk/tran.c:218-224 | a new cell is a number exactly if the flags say so or if it can be one and looks like one; that it can be one is forgotten |
| AwkSymtab.Array.Freeelem | usr/src/common/cmd/awk/tran.c:179-202 | exactly the cell of that name leaves the table, every other stays where it is |
| AwkSymtab.Array.Apply | usr/src/common/cmd/awk/tran.c:179-286 | each operation does to the table what it does to a finite map, and gives the same answer |
| AwkSymtab.StepIs | usr/src/common/cmd/awk/tran.c:179-286 | name by name, what entering, finding, freeing and storing do to the map |
| AwkSymtab.Array.Run | usr/src/common/cmd/awk/tran.c:179-286 | over any run of operations the table behaves as a map, and a cell keeps its identity until its name is freed |
| AwkFields.RebuildOfSplit | usr/src/common/cmd/awk/lib.c:263-280 | splitting at a one-character FS and joining with the same OFS gives the record back exactly when it has no newline (or FS is one) |
| AwkFields.SplitOfRebuild | usr/src/common/cmd/awk/lib.c:360-389 | joining fields and splitting the result gives the fields back exactly when none holds a separator and they are not one empty field |
| AwkFields.SplitOfRebuildBlank | usr/src/common/cmd/awk/lib.c:246-262 | the same for the default FS: exactly when all fields are nonempty and without blanks |
| AwkFields.BlanksSeparate | usr/src/common/cmd/awk/lib.c:246-262 | with the default FS a blank, a tab or a newline between two fields, and any number of them, separates; without one there is one field |
| AwkFields.NoBlankInside | usr/src/common/cmd/awk/lib.c:259-262 | no field then holds a blank, a tab or a newline |
| AwkFields.CharSeparates | usr/src/common/cmd/awk/lib.c:263-280 | with one character for FS each one, and each newline, ends a field, and nothing else does |
| AwkFields.StoredIs | usr/src/common/cmd/awk/tran.c:323-354 | after a store to field n there are at least n fields, new ones in between are empty, the others are as before, and $0 is all of them joined |
| AwkFields.ReadExample | usr/src/common/cmd/awk/lib.c:246-262 | a record with a tab and two blanks has three fields |
| AwkFields.StoreExample | usr/src/common/cmd/awk/tran.c:323-354 | a string stored to field 2 of three, and a number to field 5 |
| AwkFields.SeeExample | usr/src/common/cmd/awk/run.c:89-104 | what $0, $1, $2, $3 and NF are for a record of two fields |
| AwkFields.SeparatorExample | usr/src/common/cmd/awk/tran.c:335-343 | a new FS is for the next record |
| AwkFields.Awk.SplitWords | usr/src/common/cmd/awk/lib.c:246-262 | the loop over blanks stores exactly the words of the record, and fails exactly when there are 200 or more |
| AwkFields.Awk.SplitPieces | usr/src/common/cmd/awk/lib.c:263-280 | the loop over separators stores exactly the pieces of the record, newline always separating |
| AwkFields.Awk.Cleanfld | usr/src/common/cmd/awk/lib.c:298-309 | empties exactly fields n1+1 to n2 |
| AwkFields.Awk.Fldbld | usr/src/common/cmd/awk/lib.c:231-296 | builds the fields from the record without changing what a program sees; fields past the last are empty; too many fields are an error |
| AwkFields.Awk.Recbld | usr/src/common/cmd/awk/lib.c:360-389 | builds the record from the fields without changing what a program sees |
| AwkFields.Awk.SetField | usr/src/common/cmd/awk/tran.c:323-354 | a string store to a field, also past NF, does what an awk does that joins at once |
| AwkFields.Awk.SetFieldNum | usr/src/common/cmd/awk/tran.c:288-309 | the same for a number, whole or not, whose text is made when it is needed |
| AwkFields.Awk.StoreRecord | usr/src/common/cmd/awk/run.c:923-945 | an assignment to $0 does what an awk does that splits at once |
| AwkFields.Awk.SetFS | usr/src/common/cmd/awk/tran.c:335-343 | a record read before FS changes is split by the old FS, so that the laziness does not show |
| AwkFields.Awk.SetOFS | usr/src/common/cmd/awk/lib.c:373-375 | changing OFS shows in $0 exactly when a field store is pending, there are two fields or more, and the separator is another one |
| AwkFields.Awk.GetRecord | usr/src/common/cmd/awk/run.c:89-104 | using $0 gives what the eager model holds and changes nothing visible |
| AwkFields.Awk.GetField | usr/src/common/cmd/awk/run.c:89-104 | using a field gives what the eager model holds, the empty string past NF |
| AwkFields.Awk.GetNF | usr/src/common/cmd/awk/run.c:383-388 | using NF gives the number of fields of the eager model |
| AwkFields.Awk.Getrec | usr/src/common/cmd/awk/lib.c:90-162 | the exact state after asking for a record, into $0 or elsewhere, with FS operands met on the way, and at the end of the input |
| AwkFields.Awk.ReadRecord | usr/src/common/cmd/awk/lib.c:107-150 | fails exactly when an FS operand finds too many fields; a record is read as in the eager model exactly when no FS operand intervened or what it split has the fields of the new record |
| AwkFields.Awk.GetlineVar | usr/src/common/cmd/awk/run.c:371-377 | getline var leaves $0 and the fields alone exactly when, by the flags before the call, the fields on hand are those of the record and a pending store leaves it as it is |
| AwkFields.Awk.StoreThenGetline | usr/src/common/cmd/awk/run.c:371-377 | a field store followed at once by getline var is always undone, as if there had been no store |
| AwkFields.Awk.UseThenGetline | usr/src/common/cmd/awk/lib.c:360-389 | with a use of $0 in between and one character other than the blank for FS and OFS, the store is kept exactly when no field holds a separator and there is not one empty field |
| AwkFields.Awk.UseThenGetlineBlank | usr/src/common/cmd/awk/lib.c:360-389 | the same for the default separators: the store is kept exactly when all fields are nonempty and without blanks |
| AwkFields.Awk.EndOfInput | usr/src/common/cmd/awk/lib.c:151-162 | exactly when it succeeds; $0 is always there in END, and NF and the fields keep their values exactly under a condition on flags, buffer and operands before the call |
| AwkFields.Awk.GetlineFile | usr/src/common/cmd/awk/run.c:363-370 | getline from a file reads $0 as in the eager model |
| AwkFields.Awk.Run | usr/src/common/cmd/awk/run.c:79-114 | over any run of record reads, stores of strings and numbers, and uses, everything seen is what an awk sees that splits and joins at once, and after the first operation donefld and donerec are never both 0; it stops exactly when an operation that splits meets more fields than there is room for, or names a field beyond |
| AwkFields.OperandBetweenFiles | usr/src/common/cmd/awk/lib.c:123-127 | FS=: between two files and then the record "a b": NF is 0 |
| AwkFields.StoreLostByGetline | usr/src/common/cmd/awk/lib.c:105-106 | a field store followed by getline var: $0 is as before the store |
| AwkFields.OperandBeforeEnd | usr/src/common/cmd/awk/lib.c:123-157 | FS=: behind the last file: NF was 1 and is 0 in END |
| AcctMerg.DropLeasts | usr/src/common/cmd/acct/acctmerg.c:137-156 | taking the least key from the heads of sorted streams leaves greater keys only |
| AcctMerg.FirstLeastIsFirst | usr/src/common/cmd/acct/acctmerg.c:111-131 | in sorted streams no stream before the first with the least key holds that key anywhere |
| AcctMerg.RoundConserves | usr/src/common/cmd/acct/acctmerg.c:137-156 | a round takes as much of every key out of the streams as it puts out, sorted or not |
| AcctMerg.Merger.Getleast | usr/src/common/cmd/acct/acctmerg.c:111-131 | the first of the streams whose current record has the least key, none exactly when all are used up |
| AcctMerg.Merger.Getnext | usr/src/common/cmd/acct/acctmerg.c:185-213 | moves one stream on by one record and leaves the others; a record without a name ends the stream |
| AcctMerg.Merger.Sumcurr | usr/src/common/cmd/acct/acctmerg.c:137-156 | scanning forward only, takes the leading records with the key from all streams and puts out their sum, adding it to the total |
| AcctMerg.Merger.Merge | usr/src/common/cmd/acct/acctmerg.c:91-109 | the sums of every key and the total are those of the inputs; from sorted streams come strictly increasing keys, each once |
| AcctMerg.MergedByUid | usr/src/common/cmd/acct/acctmerg.c:111-156 | with -u, from streams in order of uid: one record for each uid, in strictly increasing order, with the sums of all records of that uid and the name of the first |
| AcctMerg.MergedByUser | usr/src/common/cmd/acct/acctmerg.c:111-156 | without -u the same for uid and name, in lexicographic order |
| AcctMerg.SumColumns | usr/src/common/cmd/acct/acctmerg.c:158-172 | sums are sums in each of the eleven fields |
| Lex.LexIs | usr/src/common/cmd/acct/acctmerg.c:123-128 | one name is before another if it is smaller at the first place where they differ, or ends there |
| AcctMerg.Acctmerg | usr/src/common/cmd/acct/acctmerg.c:46-109 | the whole program: uids strictly increasing with -u, uids and names without, and each record with the sum over all input records with that uid, or uid and name; the TOTAL record; too many files are refused |
| Bdiff.ScriptPatches | usr/src/common/cmd/bdiff/bdiff.c:41-54 | a correct script turns the old file into the new one |
| Bdiff.ScriptConcat | usr/src/common/cmd/bdiff/bdiff.c:233-289 | scripts of consecutive parts concatenate to a script of the whole if the second is shifted by the lengths of the first parts |
| Bdiff.BdiffCorrect | usr/src/common/cmd/bdiff/bdiff.c:141-297 | if diff is right about every pair, the output is a correct script of the whole files exactly when neither ends strictly inside a segment that the other goes past |
| Bdiff.AlignedIs | usr/src/common/cmd/bdiff/bdiff.c:208-289 | that condition in terms of the line counts and seglim |
| Bdiff.MisnumberedExample | usr/src/common/cmd/bdiff/bdiff.c:289-289 | seglim 2, one old line and three new ones: the script is wrong |
| Bdiff.FixedHeader | usr/src/common/cmd/bdiff/bdiff.c:344-367 | moving the numbers in the text of a header is moving the hunk |
| Bdiff.FixText | usr/src/common/cmd/bdiff/bdiff.c:262-267 | correcting the lines that start with a digit shifts the whole script and leaves its text lines alone |
| Bdiff.TextPassable | usr/src/common/cmd/bdiff/bdiff.c:268-276 | no line that diff prints for any script keeps fixnum from ending |
| Bdiff.TextBack | usr/src/common/cmd/bdiff/bdiff.c:331-342 | a reader of a, c and d headers and of lines marked < and > gets from the text of a script its hunks |
| Bdiff.OutputReads | usr/src/common/cmd/bdiff/bdiff.c:141-297 | what such a reader gets from the output is a correct script exactly when neither file ends strictly inside a segment that the other goes past |
| Bdiff.Satoi | usr/src/common/cmd/bdiff/bdiff.c:501-512 | reads the longest digit prefix and its value |
| Bdiff.Differ.Fixnum | usr/src/common/cmd/bdiff/bdiff.c:344-367 | ends exactly when the line holds only digits, letters a, c, d, commas and newlines, and then prints it with linenum added to every number |
| Bdiff.Differ.Addgen | usr/src/common/cmd/bdiff/bdiff.c:369-388 | prints the hunk that appends the rest of the new file |
| Bdiff.Differ.Delgen | usr/src/common/cmd/bdiff/bdiff.c:390-412 | prints the hunk that deletes the rest of the old file |
| Bdiff.Differ.Pairs | usr/src/common/cmd/bdiff/bdiff.c:183-297 | the segment loop prints the shifted scripts of all segment pairs and of the rest |
| Bdiff.Differ.Bdiff | usr/src/common/cmd/bdiff/bdiff.c:124-297 | the program prints the text of exactly the script that the theorem is about; read back from what is printed, the script is correct exactly under that condition |
| WorkList.SortAllSorts | usr/src/common/cmd/bnu/anlwrk.c:275-306 | the reference sort keeps every name with its multiplicity, in order |
| WorkList.BuiltIs | usr/src/common/cmd/bnu/anlwrk.c:275-306 | after any number of insertions the list is the LLEN first names of the sorted list of all, with multiplicity |
| WorkList.Files.Insert | usr/src/common/cmd/bnu/anlwrk.c:275-306 | keeps the list sorted and its pointers a permutation of the slots in use; the last name is dropped when the list is full, and no kept name is overwritten |
| WorkList.Files.Bldflst | usr/src/common/cmd/bnu/anlwrk.c:220-244 | builds the list of the wanted names of a directory |
| WorkList.SelectIs | usr/src/common/cmd/bnu/anlwrk.c:231-241 | of a directory those names are wanted that are the prefix and five more characters |
| WorkList.Files.Iswrk | usr/src/common/cmd/bnu/anlwrk.c:154-210 | names come out in order, the list is rebuilt when it is used up, first for the grade at hand; exactly when a new grade turns out to be empty there is no name to give, and the count is left at -1 |
| WorkList.GradeWithoutWork | usr/src/common/cmd/bnu/anlwrk.c:190-209 | a grade is found whose directory has no work file: work is reported, and the count is -1 |
| Bookmark.StepSafe | usr/src/common/cmd/bnu/anlwrk.c:49-139 | every step, even a stop in the middle of a write or between the two removals, keeps what nothing-lost needs |
| Bookmark.LineOkIs | usr/src/common/cmd/bnu/anlwrk.c:117-121 | accepted are R with more than five arguments and S with more than six |
| Bookmark.NothingLost | usr/src/common/cmd/bnu/anlwrk.c:70-138 | over any number of stops and restarts, torn bookmarks and counts beyond a short included: lines come in order, and the file is removed only after every line was handed out |
| Bookmark.LittleRepeated | usr/src/common/cmd/bnu/anlwrk.c:88-136 | with the bookmark written at once and up to 32768 lines, wherever else the process stops: a restart repeats at most the last line handed out, and a stop behind the write repeats none |
| Bookmark.LittleRepeatedWhen | usr/src/common/cmd/bnu/anlwrk.c:88-137 | of well-formed files exactly those of at most 32768 lines are handed out in step in every such run |
| Bookmark.NothingLostWhen | usr/src/common/cmd/bnu/anlwrk.c:84-100 | a file under a bookmark left from an earlier one loses nothing in any run exactly when that bookmark counts no line |
| Bookmark.BookmarkLeft | usr/src/common/cmd/bnu/anlwrk.c:105-108 | a stop between the two removals leaves such a bookmark |
| Bookmark.TornMark | usr/src/common/cmd/bnu/anlwrk.c:127-136 | a torn bookmark never counts more lines than the whole one |
| Bookmark.Reader.Anlwrk | usr/src/common/cmd/bnu/anlwrk.c:49-139 | a call does the step of the state machine and returns the line of that step |
| AcctCon.TimeConserved | usr/src/common/cmd/acct/acctcon.c:271-323 | over any log the sessions of a line add up to its total, over all lines too, and none is negative |
| AcctCon.SessionsCounted | usr/src/common/cmd/acct/acctcon.c:291-323 | on every line the sessions put out are the log-ons less one while somebody is on |
| AcctCon.RebootEndsSessions | usr/src/common/cmd/acct/acctcon.c:187-191 | after any log a reboot logs everybody off whose line has seen nothing later, and puts out one session for each, with that name and the time since |
| AcctCon.ProcessEndsSession | usr/src/common/cmd/acct/acctcon.c:271-323 | a log-on or log-off on a known line: which session ends, who is on the line then, and all counters |
| AcctCon.NobodyMoves | usr/src/common/cmd/acct/acctcon.c:192-196 | init and login records only say that the line was seen |
| AcctCon.FirstOnLine | usr/src/common/cmd/acct/acctcon.c:240-257 | a record on a line not yet known, and the stop at 1001 lines |
| AcctCon.OtherRecords | usr/src/common/cmd/acct/acctcon.c:167-198 | a change of the clock moves all lines by its length; other records touch no line |
| AcctCon.ChargedIs | usr/src/common/cmd/acct/acctcon.c:298-304 | a user is charged with the prime and the nonprime time of the sessions under names with that uid |
| AcctCon.SimStep | usr/src/common/cmd/acct/acctcon.c:167-211 | a record has the same effect in both clocks when all slots differ by the offset, new slots included |
| AcctCon.ClockChangesCancel | usr/src/common/cmd/acct/acctcon.c:173-182 | a log with changes of the clock gives the sessions, lengths, counters, totals and complaints of the same log in one clock |
| AcctCon.Acct.UpdateLine | usr/src/common/cmd/acct/acctcon.c:271-323 | updates one line by the record, puts out the session that ends and charges it |
| AcctCon.Acct.FindLine | usr/src/common/cmd/acct/acctcon.c:240-257 | the number of the line, entering it if it is new, until A_TSIZE lines are known |
| AcctCon.Acct.Loop | usr/src/common/cmd/acct/acctcon.c:167-211 | does with the record what the specification says, charges included |
| AcctCon.Acctcon | usr/src/common/cmd/acct/acctcon.c:73-111 | the times over the user table add up to those of the lines, and users are charged exactly if they do not exceed A_TSIZE |
| AcctUsers.Users.Enter | usr/src/common/cmd/acct/acctcon.c:391-417 | charges the right user unless the table is full, then the one whose slot is first tried; the sum grows by the charge in every case; says when "full" is reported, and when wrongly |
| AcctUsers.ChargeIs | usr/src/common/cmd/acct/acctcon.c:403-416 | a first charge makes an entry with the name, later ones add to it |
| AcctUsers.HomeIs | usr/src/common/cmd/acct/acctcon.c:395-397 | where probing starts: the uid as an unsigned number modulo 1001 |
| AcctUsers.FullTooSoon | usr/src/common/cmd/acct/acctcon.c:391-409 | users 0 to 999 and 1001, as many as there are slots: the second charge of 1001 is reported as not fitting |
| AcctUsers.Users.Probe | usr/src/common/cmd/acct/acctcon.c:397-402 | finds the slot of a user, or the first empty one on the way, or that there is none |
| AcctUsers.MoreThanFits | usr/src/common/cmd/acct/acctcon.c:403-409 | a user is turned away only when there are more than A_TSIZE distinct users |
| AcctCms.HashBelow | usr/src/common/cmd/acct/acctcms.c:386-392 | with cleaned names the hash is not negative and does not overflow |
| AcctCms.HashIs | usr/src/common/cmd/acct/acctcms.c:386-390 | the hash as a sum of the eight places, each weighed seven times as much as the next |
| AcctCms.HomeIs | usr/src/common/cmd/acct/acctcms.c:393-395 | where probing starts |
| AcctCms.CleanCharIs | usr/src/common/cmd/acct/acctcms.c:387-388 | what is not printable becomes a question mark |
| AcctCms.Table.Probe | usr/src/common/cmd/acct/acctcms.c:393-395 | finds the slot of a name, or an empty one, or that every slot holds another name |
| AcctCms.Table.Enter | usr/src/common/cmd/acct/acctcms.c:381-404 | adds to the entry of the cleaned name, or to the first empty slot from its home on; fails exactly when the name is new and there are CSIZE others; a record without a name goes to the first empty slot of the table |
| AcctCms.NamelessInherited | usr/src/common/cmd/acct/acctcms.c:393-403 | a nameless record and then a name whose home is the first slot: the name has the sums of both |
| AcctCms.FullTable | usr/src/common/cmd/acct/acctcms.c:396-399 | a table has as many names as slots exactly when no slot is empty |
| AcctCms.TakenKeeps | usr/src/common/cmd/acct/acctcms.c:247-249 | after an overflow the program goes on: names are left out only when there are CSIZE others, and a name that is in has the sum of all its records, those behind the overflow too |
| AcctCms.TakenAll | usr/src/common/cmd/acct/acctcms.c:396-399 | no record is turned away exactly when there are at most CSIZE names, and fewer before each nameless record |
| AcctCms.HeldNext | usr/src/common/cmd/acct/acctcms.c:393-403 | a record of a known name, of a new one, or without a name takes the table, slot by slot, from what the records before ask for to what they ask for with it |
| AcctCms.EnterAll | usr/src/common/cmd/acct/acctcms.c:228-355 | after all records each slot is as those taken ask for: the sums of its name and what it inherited, or what nameless records left there; whether one was turned away |
| AcctCms.NothingInherited | usr/src/common/cmd/acct/acctcms.c:393-403 | a name that occurs before any nameless record has exactly the sums of its records |
| AcctCms.InheritsWhen | usr/src/common/cmd/acct/acctcms.c:393-403 | the first record of a name inherits all that is unclaimed exactly when it comes into the first empty slot of the table, and nothing otherwise |
| AcctCms.OnlyFirst | usr/src/common/cmd/acct/acctcms.c:393-403 | what nameless records left and no name took over is all in the first empty slot |
| AcctCms.AllNamed | usr/src/common/cmd/acct/acctcms.c:393-403 | without nameless records each entry is the sum of its records and nothing is left over |
| AcctCms.SumColumns | usr/src/common/cmd/acct/acctcms.c:436-451 | sums are sums in each of the twelve fields |
| AcctCms.MergeConserves | usr/src/common/cmd/acct/acctcms.c:415-424 | merging the rare entries conserves the sum of every field |
| AcctCms.NoneRare | usr/src/common/cmd/acct/acctcms.c:415-424 | afterwards only the entry merged into may have a count of one or less |
| AcctCms.Table.Fixjunk | usr/src/common/cmd/acct/acctcms.c:415-424 | the loop over the table in place merges exactly the rare entries into ***other; exactly when that entry does not fit, and that they are cleared all the same |
| AcctCms.Table.Squeeze | usr/src/common/cmd/acct/acctcms.c:470-492 | compaction in place keeps exactly the occupied slots, in order |
| AcctCms.Summarize | usr/src/common/cmd/acct/acctcms.c:144-172 | for all records, the output has each command that was taken once with its sums and what it inherited, or with -j the frequent ones and ***other for the rest if it fits; with what no name took over the totals are those of the records taken; exactly when no overflow is reported |
| AuditMap.FileAgrees | usr/src/common/cmd/auditmap/auditmap.c:417-465 | the size of the file map is the length of what is written |
| AuditMap.EntryAgreesWhen | usr/src/common/cmd/auditmap/auditmap.c:679-691 | a number takes the space computed for it exactly when it is not negative or has nine digits |
| AuditMap.IdsAgree | usr/src/common/cmd/auditmap/auditmap.c:679-710 | a map of names and numbers fits exactly when the differences over its entries cancel, in particular when no number is negative |
| AuditMap.ClassesAgree | usr/src/common/cmd/auditmap/auditmap.c:526-556 | the class map fits exactly when some class is defined |
| AuditMap.SevenAgree | usr/src/common/cmd/auditmap/auditmap.c:240-257 | the condition for all seven maps of the file |
| AuditMap.ImageFits | usr/src/common/cmd/auditmap/auditmap.c:240-265 | when the passes agree, the whole image has exactly the computed length |
| AuditMap.ImageOver | usr/src/common/cmd/auditmap/auditmap.c:240-303 | for any maps the image leaves its space by the sum of what each map is longer than sized |
| AuditMap.SevenOver | usr/src/common/cmd/auditmap/auditmap.c:240-257 | for the seven maps, that sum is what the numbers take more than sized, and one if no class is defined |
| AuditMap.ReadsBack | usr/src/common/cmd/auditrpt/v4/adt_loadmap.c:94-196 | exactly when the passes agree about every map does a reader going by the sizes land on every header and find each map with its own data |
| AuditMap.DisagreementExamples | usr/src/common/cmd/auditmap/auditmap.c:554-554 | number -2, and a class file without a class |
| AuditMap.TextExamples | usr/src/common/cmd/auditmap/auditmap.c:417-591 | the text of a file of one map, of a class map, and of the file map, character by character |
| AuditMap.SevenTypes | usr/src/common/cmd/auditmap/auditmap.c:240-247 | the types of the seven maps, in the order in which they are written |
| AuditMap.Sizemap | usr/src/common/cmd/auditmap/auditmap.c:611-799 | the first pass computes the size of each kind of map |
| AuditMap.CalcHdr | usr/src/common/cmd/auditmap/auditmap.c:949-968 | the length of a map header |
| AuditMap.Writer.PutMap | usr/src/common/cmd/auditmap/auditmap.c:479-591 | the second pass writes header, data and NUL of a map behind what is written |
| AuditMap.Auditmap | usr/src/common/cmd/auditmap/auditmap.c:240-303 | for any maps the file is the image cut or filled with NULs to the space computed for it, and it reads back exactly when the passes agree |
| LoadMap.IdsLoad | usr/src/common/cmd/auditrpt/v4/adt_loadmap.c:216-258 | names with numbers are read back exactly when no name is empty or holds a blank or colon |
| LoadMap.ClassesLoad | usr/src/common/cmd/auditrpt/v4/adt_loadmap.c:259-323 | classes and events are read back exactly when besides no event stands before the first class |
| LoadMap.ZoneBack | usr/src/common/cmd/auditmap/auditmap.c:646-652 | the zone offset is read as it was, although its unsigned form is written behind the sign |
| LoadMap.SpacesAre | usr/src/common/cmd/auditrpt/v4/adt_loadmap.c:249-249 | the characters at which the reader ends a name |
| LoadMap.EnvBack | usr/src/common/cmd/auditrpt/v4/adt_loadmap.c:125-169 | the file map is read back: the version up to its NULs, zone, the sets that were kept, and the machine |
| LoadMap.PaddedVersion | usr/src/i386/uts/acc/audit/audit.cf/Space.c:7-12 | a file map with the version 4.0 in eight characters is among these, and 4.0 is read |
| LoadMap.LoadsBack | usr/src/common/cmd/auditrpt/v4/adt_loadmap.c:94-199 | if the passes agree about all maps but perhaps the last, the reader gets everything back exactly when the last has room for its NUL and all names can be told apart |
| LoadMap.SevenLoad | usr/src/common/cmd/auditrpt/v4/adt_loadmap.c:94-199 | the same for the seven maps, in terms of the tables |
| LoadMap.LoadIds | usr/src/common/cmd/auditrpt/v4/adt_loadmap.c:216-258 | the loops over the tokens count the records and fill one structure for each |
| LoadMap.LoadClasses | usr/src/common/cmd/auditrpt/v4/adt_loadmap.c:259-323 | the loops over tokens and words chain the classes with their events |
| LoadMap.ReadSets | usr/src/common/cmd/auditrpt/v4/adt_loadmap.c:146-158 | the loop over the privilege sets takes three strings for each |
| LoadMap.AdtLoadmap | usr/src/common/cmd/auditrpt/v4/adt_loadmap.c:94-199 | the loop goes from header to header by the sizes and loads each map as the theorem says |
| Decimal.Itoa | usr/src/common/cmd/auditmap/auditmap.c:811-827 | the digit loop and the reversal in place print the canonical numeral with its terminator, and touch nothing behind it |
| Decimal.ValDec | usr/src/common/cmd/auditmap/auditmap.c:811-827 | the numeral denotes the number |
| Decimal.DigitIs | usr/src/common/cmd/auditmap/auditmap.c:811-827 | the ten digits |
| Decimal.DecVal | usr/src/common/cmd/bdiff/bdiff.c:501-512 | a digit string without leading zero is the numeral of its value |
| WtmpFix.IntervalsAre | usr/src/common/cmd/acct/wtmpfix.c:140-188 | the intervals of the list move the record at p by exactly the recorded changes behind p in its epoch |
| WtmpFix.MultiIs | usr/src/common/cmd/acct/wtmpfix.c:254-261 | multi-user mode: run level 2 was entered, and run level S not since |
| WtmpFix.NoChange | usr/src/common/cmd/acct/wtmpfix.c:172-188 | without a change before the next boot a record is not moved |
| WtmpFix.OneChange | usr/src/common/cmd/acct/wtmpfix.c:172-188 | with one change before the next boot it is moved by exactly that |
| WtmpFix.PairedIs | usr/src/common/cmd/acct/wtmpfix.c:229-283 | a log is accepted exactly when a NEW_TIME record is right behind every OLD_TIME record |
| WtmpFix.WrittenIs | usr/src/common/cmd/acct/wtmpfix.c:262-267 | which names are replaced by INVALID |
| WtmpFix.NameCharIs | usr/src/common/cmd/acct/wtmpfix.c:190-227 | the characters of proper names |
| WtmpFix.TimesInOrder | usr/src/common/cmd/acct/wtmpfix.c:172-188 | if the clock only goes forward between changes and all changes are recorded, the moved times of an epoch are in order, but for the OLD_TIME records |
| WtmpFix.OldTimeNotMoved | usr/src/common/cmd/acct/wtmpfix.c:185-186 | an OLD_TIME record is not moved by its own change; exactly when it comes out in order with the records before and behind it |
| WtmpFix.PutBack | usr/src/common/cmd/acct/wtmpfix.c:185-186 | a log in which the OLD_TIME record comes out later than both its neighbours |
| WtmpFix.Fixer.Mkdtab | usr/src/common/cmd/acct/wtmpfix.c:140-154 | starts an epoch in the last element of the list, making the list if there is none |
| WtmpFix.Fixer.Setdtab | usr/src/common/cmd/acct/wtmpfix.c:156-170 | fills the last element and links a new one for the same epoch |
| WtmpFix.Fixer.Adjust | usr/src/common/cmd/acct/wtmpfix.c:172-188 | going along the list adds all changes that cover the record |
| WtmpFix.Fixer.Scanfile | usr/src/common/cmd/acct/wtmpfix.c:229-283 | the list after the first pass holds the changes of the log seen in multi-user mode; fails exactly when a change is broken off |
| WtmpFix.Wtmpfix | usr/src/common/cmd/acct/wtmpfix.c:62-120 | every record comes out in its place, with its name checked, moved by exactly the recorded changes behind it in its epoch |
| RelativePath.LeadsThere | usr/src/i386at/mkmerge/mkmerge.c:308-358 | from directory path1 the result leads to path2, for any absolute paths of proper names, one the beginning of the other or the root included |
| RelativePath.CompsAre | usr/src/i386at/mkmerge/mkmerge.c:324-341 | a path is its first component, a slash, and the path of the others |
| RelativePath.ResolveIs | usr/src/i386at/mkmerge/mkmerge.c:343-350 | two full stops go back one name, any other name goes on |
| RelativePath.TrailingSlash | usr/src/i386at/mkmerge/mkmerge.c:343-347 | with a slash at the end of path1 it leads to path2 exactly when path2 does not go on from path1 |
| RelativePath.SameComponent | usr/src/i386at/mkmerge/mkmerge.c:329-338 | compares two components with terminators put in their place, and restores both buffers |
| RelativePath.Shared | usr/src/i386at/mkmerge/mkmerge.c:324-341 | passes over exactly the components that both paths share, never over the last of either |
| RelativePath.Compute | usr/src/i386at/mkmerge/mkmerge.c:313-358 | computes the relative path and leaves both arguments as they were, also when they are the same buffer |

## Left out

- Files, pipes, processes, signals, locks and message catalogues: a file is a sequence of bytes, lines or records, and a descriptor position a number. Running out of memory is not modelled.
- bfs: command parsing and regular expressions (a predicate on the text of a line stands for them).
- awk: the rest of the interpreter, regular expressions as FS (a function stands for their splitting, whose table overflow it takes over), the recognition of numeric strings in fields, the conversion by CONVFMT (a number that is not whole comes with its text), assignments to NF, reading by RS, and the limits on the length of a record.
- awk symbol table: cells without a name, the release of strings, and is2number (a parameter).
- AwkFields.Awk.SetOFS: changing OFS while a field store is pending shows in $0, so it is not an operation of the runs that Run is about.
- acctmerg: the ASCII formats, printing, and rounding and overflow of the sums.
- bdiff: lines longer than the input buffer, which fgets would cut, and a diff that fails.
- Bdiff.Differ.Bdiff: a negative seglim, with which the segment loop does not end.
- WorkList.Files.Iswrk: the finding of a job grade and its locks; what is found is a parameter.
- uucico: the division of a line into arguments (their number is a function of the line) and lines longer than 249 characters.
- acctcon: records that valid() rejects, the table of reboot reasons, exit codes, reports, how time divides into prime and nonprime time (a function whose parts add up), and overflow of the session count.
- acctcon squeeze: the same loop as that of acctcms.
- AcctCon.ClockChangesCancel: times before 1970 and a change noted at time zero, which the program does not see.
- AcctCms.Table.Fixjunk: the memory in front of the table, to which the sums go when ***other does not fit.
- acctcms: the division of a process's time, the order of the output, printing, names with characters behind a NUL, and the twin functions for the old format, which are the same code with fewer fields.
- auditmap: the parsing of the class file into words, which both passes do alike, the copies of the level files, and the value of FILEID_R, which is not part of this model (a parameter).
- AuditMap.Auditmap: what the characters beyond the space do to the memory of the C program; the buffer here has room for them and for the terminator with which the last sprintf ends.
- LoadMap.LoadsBack: what the reader makes of maps behind one about which the passes disagree.
- LoadMap.ClassesLoad: what is found behind the end of a token by a reader who goes on there, which counts as not read back.
- LoadMap.AdtLoadmap: names longer than the fields of the structures, and numbers beyond 32 bits other than by wrapping around, since libc is not part of this model.
- wtmpfix: the search for the next good record in a damaged file, and the check of record types in the second pass.
- mkmerge: the size of the static result buffer.
