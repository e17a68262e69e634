# json-c and the failsafe GPT update: a verified model

This project models two parts of a device support repository and proves what they promise.

* **json-c** (`json-c/`): the resumable tokener, the printer, the link-hash behind JSON objects, the array list, the print
  buffer and the reference counts of JSON nodes.
* **The failsafe GPT update** (`gpt-utils/`): the three stages MAIN, BACKUP and FINALIZE on the four on-disk regions of a disk
  with two partition tables, and the exchange of boot partition entries with their backup twins.

## How it is built

`dafny verify dfyconfig.toml` verifies the whole project. One module lives in each file.

* `Bytes`, `JsonValue`, `OrderedMap`, `Numbers`, `Utf8`: bytes, values, insertion-ordered maps, numerals, UTF-8.
* `TokenerMachine` is the tokener as a machine that handles one character at a time; `TokenerInvariant`, `TokenerSteps`,
  `UnicodeEscapes` and `ReusedTokener` prove what it does, `TokenerChunks`, `NumberCuts` and `PairCuts` what it does with a text
  in pieces, `TokenerLimits` where it accepts too much. `Tokener` is the class with the in-place stack and the loops of the
  original, proved to leave exactly what the machine leaves.
* `Grammar` holds texts as derivation trees, with the value each stands for; `StringMeaning` and `Rfc8259` relate it to the
  standards. `GrammarScalars`, `GrammarStrings` and `GrammarTexts` prove what the machine makes of every such text.
* `Reference` is a parser by recursive descent for C strings; `ReferenceSkips`, `ReferenceWords`, `ReferenceStrings` and
  `ReferenceRuns` prove that the machine is that parser, errors and offsets included. `CommentEnds` says where a comment ends.
* `Printer` says what each layout writes, `Layouts` reads the white space off the text, `LayoutExamples` has texts written
  out; `PrintBuf` and `PrinterMethods` write them into a growing buffer with the original's loops. `RoundTrip`, `Reparse` and
  `PrintThenParse` connect printer and tokener.
* `LinkHash` and `JsonObject` are the hash table and its client; `HashLittle` is the string hash; `ArrayList` the array list;
  `ParseInt64` the integer parser with its workaround for a broken sscanf.
* `RefCount`, `NodeStore`, `Ownership`, `OwnershipActs`, `OwnershipRuns` and `OwnershipSessions` follow the nodes on the heap
  pass by pass alongside the machine.
* `GptLayout`, `GptSwap`, `GptUpdate`, `GptCodes`, `GptFailsafe`, `GptCycle` and `GptDevice` are the partition table update;
  `GptExample` is a disk that meets its assumptions, and a table with and without UFS.

## What to know about the model

* A NULL `json_object *` is the value null. A double is the text that its serializer prints; whether `sscanf("%lf")` accepts a
  text is a parameter. The three locals of a parse call are part of the machine state and idle between calls.
* A call is given exactly `len` bytes. A call with `len == -1` is a call on the string and its NUL, because every way of
  consuming a NUL leaves the loop.
* `strchr` finds the terminator of its string, so the code takes a NUL for a hex digit inside a `\u` escape; the model does too.
* The bit operations of the surrogate tests, of UTF-8 and of the four-byte fields work on disjoint bits and are written as
  arithmetic. The hash works on bit-vectors, with loads in little-endian order.
* The hash function of the table, the CRC of the partition tables and sscanf on numbers out of range are arbitrary.
* A disk is well-formed when headers fit a block, both name the same entry size of at least 128 and the same count, and the four
  regions lie inside the disk and apart (section 5.3 of the UEFI Specification). Each `blk_rw` write is one atomic step; a crash
  and a failing device are the same: no further write happens.
* The documentation of `gpt_boot_chain_swap` speaks of entries; the code exchanges their first 128 bytes only, and so does the
  model. The comment on `printbuf_memset` does not say so, but no terminator is written; the model follows the code.

## Where the code meets an expectation only in part

Each with the exact condition, and a concrete input that fails.

* Success at depth > 0: `TokenerLimits.OpenSuccessExactlyWhen`, `TokenerLimits.UnterminatedCommentIsAccepted`. The next call then
  runs above cleared levels, and a value that it completes there leaks: `OwnershipSessions.NothingRemainsExactlyWhen`,
  `OwnershipSessions.LeakingSession`.
* The end of a block comment: `CommentEnds.FirstCloserEndsExactlyWhen`, `CommentEnds.StarsSwallowTheText`.
* Pairs of escapes across calls: `PairCuts.PairCutExactlyWhen`, `PairCuts.CutSmiley`.
* -Infinity across calls: `NumberCuts.ChunkedParseExactlyWhen`, `TokenerLimits.CutInfinityIsNoNumber`.
* Surrogate tests that see 16 bits only: `StringMeaning.SaidIsSpelledExactlyWhen`, `PairCuts.AmbiguousIsReplaced`.
* -Infinity behind a literal or an escape, and values whose print is not read back: `Reparse.RoundTripsExactlyWhen`,
  `Reparse.InfinityBehindNull`.
* The sscanf workaround: `ParseInt64.ParseInt64`, `ParseInt64.MisreadTexts`. With a broken sscanf it also misreads a leading plus
  sign and a zero with text behind it, besides the negative overflow that leaves 0.
* Resizing a table to a size that is too small: `LinkHash.LhTable.Resize`, `LinkHash.ShrinkLosesTable`.
* Stages called again: `GptCycle.CutAndCalledAgain`, `GptCycle.CutBackupRecovers`.

## Model

| member | source | states |
|---|---|---|
| `TokenerMachine.StepKeeps` | json-c/json_tokener.c:258-847 | every pass of the main loop, in each of the 25 states, keeps the stack discipline: depth below max_depth, every level under the top waits in array_add with an array or in object_value_add with an object and a pending key, `obj` is set only while it is being stored; a pass that consumes nothing drops the rank, so every `redo_char` chain ends |
| `TokenerMachine.StartKeeps` | json-c/json_tokener.c:279-345 | the start state dispatches to states that its level fits |
| `TokenerMachine.LiteralKeeps` | json-c/json_tokener.c:354-422 | the inf, null and boolean states, matched, finished or failing, keep the discipline |
| `TokenerMachine.NumberKeeps` | json-c/json_tokener.c:666-713 | the number state, the switch to -Infinity included, keeps the discipline |
| `TokenerMachine.JoinKeeps` | json-c/json_tokener.c:347-352 | finishing a value pops to a level that waits for it |
| `TokenerInvariant.RunSettles` | json-c/json_tokener.c:849-881 | every call, with errors at any character, ends inside its chunk with its locals idle: after success every level is clean, after anything else the stack discipline still holds and NULL is returned |
| `TokenerInvariant.ReusableExactlyWhen` | json-c/json_tokener.c:868-877 | after a call the stack discipline holds again, as the theorems about a call need it, if and only if the call did not return a value from inside an open container and was not cut between the two escapes of a pair |
| `ReusedTokener.StepLifts` | json-c/json_tokener.c:258-847 | levels that an earlier call has cleared without giving up the depth make no difference to a pass, but for the pop of a finished value onto one of them |
| `ReusedTokener.StaleObjIsNotRead` | json-c/json_tokener.c:347-352 | what such a pop leaves in the local `obj` is never read |
| `ReusedTokener.NextCallExactlyWhen` | json-c/json_tokener.c:868-877 | after any call, one that returned a value from inside an open container included, a further call can be made if and only if the last one was not cut right behind the second \u of a pair |
| `TokenerInvariant.SuccessIsComplete` | json-c/json_tokener.c:849-861 | in strict mode, and outside it when no comment can begin, success implies depth 0 |
| `ReferenceRuns.ParseIsReference` | json-c/json_tokener.c:232-882 | for every C string, in both modes, with any limit of depth and any `st_pos` left behind, a call returns the error, the value and the offset that a parser by recursive descent gives, which spells out white space, comments, quotes, literals in any case, loose numbers, trailing commas and each error with its place |
| `ReferenceSkips.SkipRuns` | json-c/json_tokener.c:263-277 | white space and comments are skipped as the reference skips them, and a comment that does not open or does not end stops the call with the error that it says |
| `ReferenceStrings.TextBreaks` | json-c/json_tokener.c:477-631 | a string with a bad escape, a bad digit or no end stops the call with the error and at the place that the reference says |
| `ReferenceWords.NumberFromStart` | json-c/json_tokener.c:666-713 | a number, -Infinity included, is taken and judged as the reference says |
| `ReferenceRuns.ItemsRun` | json-c/json_tokener.c:715-755 | the rest of an array, from behind its bracket or a comma, is read as the reference reads it |
| `ReferenceRuns.MembersRun` | json-c/json_tokener.c:757-842 | the rest of an object is read as the reference reads it |
| `CommentEnds.BlockEndExactlyWhen` | json-c/json_tokener.c:436-449 | a block comment ends at the first star and slash whose run of stars has an odd length, and nowhere if there is none |
| `CommentEnds.FirstCloserEndsExactlyWhen` | json-c/json_tokener.c:467-475 | the first star and slash end a block comment if and only if that run has an odd length |
| `CommentEnds.StarsSwallowTheText` | json-c/json_tokener.c:467-475 | a comment of three stars between two slashes, with 1 behind it, is read to the end of the text |
| `TokenerLimits.OpenSuccessExactlyWhen` | json-c/json_tokener.c:436-449 | outside strict mode a call that ends at a NUL returns a value at depth > 0 exactly when the text before the NUL, any text, leaves the tokener in a comment behind a complete value of an open container; that a text holds no slash rules it out beforehand, see `TokenerInvariant.SuccessIsComplete` |
| `TokenerLimits.UnterminatedCommentIsAccepted` | json-c/json_tokener.c:857-861 | a concrete text with an unterminated comment inside an array is accepted, and the inner string is returned |
| `PairCuts.PairCutExactlyWhen` | json-c/json_tokener.c:533-631 | a surrogate pair cut behind any number k of its twelve characters, in any text state: the two calls leave the buffer of one call if and only if k is not in 6..11; for 6, 7, 9, 10 and 11 they append two replacement characters, and for 8 no call can follow |
| `PairCuts.CutStringExactlyWhen` | json-c/json_tokener.c:533-631 | the same for the values returned for a whole text that consists of the quoted pair |
| `PairCuts.CutSmiley` | json-c/json_tokener.c:569-598 | a concrete pair, cut between its escapes, becomes two replacement characters |
| `NumberCuts.CaseLenMatters` | json-c/json_tokener.c:666-690 | how many characters of a number this call has read makes a difference exactly when the test for -Infinity comes out differently |
| `NumberCuts.ChunkedParseExactlyWhen` | json-c/json_tokener.c:232-882 | for every cut outside a pair of escapes, parsing a, then b after continue, is parsing a followed by b if and only if the cut does not fall into a number with a minus and an i behind it, of which one of the two calls reads a single character |
| `TokenerLimits.CutInfinityIsNoNumber` | json-c/json_tokener.c:682-690 | a minus in one call and Infinity in the next is a number error, in one call it is accepted |
| `GrammarScalars.NegativeInfinityExactlyWhen` | json-c/json_tokener.c:354-384 | behind a minus, eight characters are read as -Infinity if and only if they spell it, in any case outside strict mode, and `st_pos` was left at 0; otherwise the call fails |
| `TokenerChunks.ChunkedParse` | json-c/json_tokener.c:232-882 | parsing a, then b after continue, is parsing a followed by b, for every cut that no pass looks across; `NumberCuts.ChunkedParseExactlyWhen` and `PairCuts.PairCutExactlyWhen` say what happens at the others |
| `TokenerChunks.FeedIsOneCall` | json-c/json_tokener.c:232-882 | feeding a list of chunks until the tokener stops asking for more gives the tokener, error, offset and value of one call on all of them, when no cut falls where a call could tell |
| `TokenerChunks.QuietEndIsUncut` | json-c/json_tokener.c:569-598 | a cut is safe whenever the last eight bytes before it hold no backslash |
| `TokenerChunks.FeedOnQuietCuts` | json-c/json_tokener.c:232-882 | the same from a test on the bytes alone: no backslash in the last eight bytes of a chunk, and no i behind the number characters that the rest starts with; then the result is that of one call on all chunks, or on those that made up a whole value |
| `Tokener.Tokener.ParseEx` | json-c/json_tokener.c:232-882 | the in-place parser with its bulk loops leaves exactly the state, error, offset and value of the one-character machine |
| `Tokener.Tokener.constructor` | json-c/json_tokener.c:107-122 | a new tokener is the machine's initial state |
| `Tokener.Tokener.Reset` | json-c/json_tokener.c:147-157 | a reset clears every level up to the current depth, and with it the whole stack |
| `Tokener.Tokener.ResetLevel` | json-c/json_tokener.c:137-144 | one level is cleared and no other is touched |
| `Tokener.Tokener.OnOneChar` | json-c/json_tokener.c:279-842 | each of the states that look at one character leaves in the fields and in `obj` what one pass of the machine prescribes |
| `Tokener.Tokener.OnEatWs` | json-c/json_tokener.c:263-277 | the white space loop refines the one-character machine, the end of the chunk inside it included |
| `Tokener.Tokener.OnComment` | json-c/json_tokener.c:436-449 | the block comment loop refines the machine |
| `Tokener.Tokener.OnCommentEol` | json-c/json_tokener.c:451-465 | the line comment loop refines the machine |
| `Tokener.Tokener.OnStr` | json-c/json_tokener.c:477-500 | the string loop copies plain stretches in one piece and still refines the machine |
| `Tokener.Tokener.OnUnicode` | json-c/json_tokener.c:533-631 | the escape loop with its pending surrogate, look-ahead and three-character jump refines the machine |
| `Tokener.Tokener.OnNumber` | json-c/json_tokener.c:666-713 | the number loop collects all number characters at once and decides the value as the machine does |
| `Tokener.Tokener.OnField` | json-c/json_tokener.c:778-801 | the name loop refines the machine; the name is cut at its first NUL |
| `Tokener.Tokener.AtOut` | json-c/json_tokener.c:849-881 | the error tests behind the loop and the reset of the levels on success |
| `GrammarStrings.PiecesRun` | json-c/json_tokener.c:477-631 | the string states, from any text state, read every string of plain bytes, short escapes and \u escapes as the bytes that the specification says |
| `StringMeaning.SaidIsSpelledExactlyWhen` | json-c/json_tokener.c:533-631 | these are the string's text in UTF-8, with U+FFFD for each unpaired escaped surrogate, if and only if no pair in it makes a code point with surrogate bits in its low half |
| `GrammarTexts.ParseDoc` | json-c/json_tokener.c:232-882 | at any depth, the text of a derivation tree with a delimiter behind it is read as what the tree stands for, or refused for its nesting or an unreadable -Infinity |
| `GrammarTexts.TextIsAcceptedExactlyWhen` | json-c/json_tokener.c:232-882 | every text of the grammar is accepted with its value, strict or not, if and only if its nesting is below max_depth and no -Infinity stands behind a literal or a \u escape |
| `GrammarTexts.TextEndsWithChunk` | json-c/json_tokener.c:215-222 | with white space behind it, such a text is accepted at the end of its chunk, without a NUL |
| `Rfc8259.IntegerMeans` | json-c/json_tokener.c:692-698 | an integer of the grammar stands for its value where 64 bits hold it, for INT64_MAX above and for INT64_MIN below |
| `Rfc8259.IntegerIsRead` | json-c/json_tokener.c:692-698 | a call on an integer returns that |
| `Rfc8259.JsonTextIsAcceptedExactlyWhen` | json-c/json_tokener.c:232-882 | every JSON text of RFC 8259, with any white space, escapes and number forms, is accepted with its value if and only if its nesting is below max_depth, and otherwise refused with the depth error |
| `RoundTrip.PiecesOfSay` | json-c/json_object.c:100-147 | for every byte sequence, NULs included, `json_escape_str` writes a string that says exactly these bytes |
| `RoundTrip.DocOfText` | json-c/json_object.c:276-353 | the printed text of any value, in any layout, is the text of a derivation tree |
| `RoundTrip.DocOfMeans` | json-c/json_object.c:276-353 | for a printable value that tree stands for the value, and is as deep as the value is high |
| `RoundTrip.PrintedIsReadBackExactlyWhen` | json-c/json_object.c:276-353 | parsing the NUL-terminated print of a printable value, in the plain, spaced and pretty layouts, strict or not, gives that value with nothing left over if and only if its height is below max_depth and no -Infinity is printed behind a literal or a \u escape; otherwise it is refused |
| `RoundTrip.RoundTrips` | json-c/json_object.c:276-353 | without -Infinity, every printable value of height below max_depth comes back |
| `Reparse.RunSane` | json-c/json_tokener.c:666-829 | every parsed value has unique NUL-free keys, integers in 64 bits, readable lexemes and fits the stack |
| `Reparse.ParsedValueReparses` | json-c/json_tokener.c:232-882 | whatever text is accepted, its value survives printing and parsing again, if and only if no -Infinity is printed behind something that moves `st_pos` |
| `Reparse.RoundTripsExactlyWhen` | json-c/json_object.c:810-850 | any value comes back from its print if and only if its keys are unique and NUL-free, its numbers readable, its height below max_depth and no -Infinity is printed behind something that moves `st_pos` |
| `Reparse.InfinityBehindNull` | json-c/json_tokener.c:354-384 | the print of the array of null and -Infinity is refused by a new tokener, while -Infinity alone is read back |
| `PrinterMethods.EscapeStr` | json-c/json_object.c:100-147 | the loop that copies stretches of plain bytes writes exactly the byte-by-byte escape of the string |
| `PrinterMethods.PrintValue` | json-c/json_object.c:726-741 | each printer adds exactly the text of the value to the buffer and terminates it |
| `PrinterMethods.PrintObject` | json-c/json_object.c:309-353 | the member loop with its separators and indentation writes the specified layout |
| `PrinterMethods.PrintArray` | json-c/json_object.c:810-850 | the element loop with its separators and indentation writes the specified layout |
| `PrinterMethods.IndentTo` | json-c/json_object.c:299-305 | indentation by two blanks a level, in the pretty layout only |
| `PrinterMethods.ToJsonString` | json-c/json_object.c:276-290 | after the reset of its buffer a value is printed as one C string |
| `PrintThenParse.PrintAndParse` | json-c/json_tokener.c:232-882 | printing to a buffer and parsing with a new tokener object returns the value exactly under these conditions |
| `Layouts.GapsAre` | json-c/json_object.c:299-353 | in every layout, what stands between two neighbouring characters outside strings is one rule of these two characters, the flags and the number of open containers |
| `Layouts.PrettyLines` | json-c/json_object.c:299-305 | in the pretty layout, the line behind a break starts with exactly twice as many blanks as containers are open around its first other character, and one more if the layout is spaced too |
| `Layouts.PlainHasNoWhite` | json-c/json_object.c:309-353 | in the plain layout no white space stands outside strings |
| `Layouts.SpacedBlanks` | json-c/json_object.c:309-353 | in the spaced layout all white space outside strings is single blanks, behind an opening bracket, a comma or a colon, or in front of a closing bracket |
| `LayoutExamples.NestedTexts` | json-c/json_object.c:309-353 | the four layouts of a nested value, written out |
| `LayoutExamples.EscapesAre` | json-c/json_object.c:100-147 | the escape of each byte: a table of the control characters, the quote, the slash and the backslash behind a backslash, and every other byte as it is |
| `UnicodeEscapes.EmitIsValid` | json-c/json_tokener.c:533-631 | any sequence of escapes appends only well-formed UTF-8 |
| `UnicodeEscapes.EmitIsEncodingExactlyWhen` | json-c/json_tokener.c:102-103 | what is appended is the UTF-8 of the UTF-16 text, with U+FFFD for each unpaired surrogate, if and only if no code point beyond 16 bits has surrogate bits in its low half |
| `UnicodeEscapes.TextThenDigits` | json-c/json_tokener.c:533-631 | the machine, reading the escapes in one call with any mix of digit cases, appends exactly what `Emit` says and returns to the text |
| `UnicodeEscapes.EscapesAreDecoded` | json-c/json_tokener.c:533-631 | both statements for the machine itself |
| `UnicodeEscapes.PairIsDecoded` | json-c/json_tokener.c:104-104 | two units are combined to the code point that UTF-16 encodes as them |
| `UnicodeEscapes.EscapedTextIsReadExactlyWhen` | json-c/json_tokener.c:533-631 | any text, encoded in UTF-16 and written as escapes, comes back in UTF-8 when it is read in one call, if and only if no code point of it is ambiguous |
| `UnicodeEscapes.EscapedPairIsRead` | json-c/json_tokener.c:545-551 | the two escapes of a code point beyond 16 bits that is not ambiguous append its UTF-8 |
| `Grammar.HexDigitsAre` | json-c/json_tokener.c:38-38 | each of the hex digits, small and capital, has its value |
| `PairCuts.AmbiguousIsReplaced` | json-c/json_tokener.c:102-103 | a concrete text whose pair makes U+1D800 is accepted with a replacement character instead |
| `Utf8.EncodeIsValid` | json-c/json_tokener.c:600-626 | the four encodings of a scalar value are well-formed in the grammar of section 4 of RFC 3629 |
| `Utf8.DecodeEncode` | json-c/json_tokener.c:600-626 | a code point can be read back from its encoding |
| `ParseInt64.ParseInt64` | json-c/json_util.c:179-264 | for every C string and every sscanf that is exact in range: unless the input is one of three misread kinds, the result is the number where 64 bits hold it, INT64_MAX above and INT64_MIN below; for those kinds it is wrong, namely INT64_MAX |
| `ParseInt64.MisreadTexts` | json-c/json_util.c:179-264 | a leading plus sign, a zero with text behind it and a negative overflow that leaves 0 are each misread, with concrete texts and scans |
| `ParseInt64.OverflowedMeans` | json-c/json_util.c:211-248 | the comparison of the workaround accepts exactly an exact result without a plus sign that is no zero with text behind it |
| `ParseInt64.DecimalIsNeverMisread` | json-c/json_util.c:179-264 | an optionally negative decimal string, leading zeros included, is never misread when sscanf leaves no 0 for an overflow |
| `ParseInt64.PrintedIsReadBack` | json-c/json_util.c:179-264 | a printed integer is read back by any sscanf that is exact in range |
| `PrintBuf.PrintBuf.Extend` | json-c/printbuf.c:57-78 | the block grows to twice its size, or to 8 more than asked for if that is more, and keeps its bytes |
| `PrintBuf.PrintBuf.MemAppend` | json-c/printbuf.c:80-90 | the contents grow by exactly the given bytes and are terminated |
| `PrintBuf.PrintBuf.MemAppendFast` | json-c/printbuf.h:42-49 | the fast macro has the same effect as the function, the size of the buffer included |
| `PrintBuf.PrintBuf.MemSet` | json-c/printbuf.c:92-110 | the range is filled, everything else before the old end stays, and at the end it appends |
| `PrintBuf.PrintBuf.Reset` | json-c/printbuf.c:181-185 | the contents are empty and terminated |
| `PrintBuf.RunOps` | json-c/printbuf.c:80-110 | after any mix of appends, fast appends, fills and resets the contents are what was added since the last reset |
| `PrintBuf.ReplayAppend` | json-c/printbuf.c:80-110 | a sequence of operations adds to what the ones before it have left |
| `ArrayList.ArrayList.Expand` | json-c/arraylist.c:59-73 | the block grows to twice its size, or to what is asked for if that is more; the elements stay, with NULL behind them |
| `ArrayList.ArrayList.PutIdx` | json-c/arraylist.c:75-83 | the list refines a NULL-padded sequence; the overwritten element, and no other, is freed |
| `ArrayList.ArrayList.Add` | json-c/arraylist.c:85-89 | appends |
| `ArrayList.ArrayList.GetIdx` | json-c/arraylist.c:52-57 | NULL beyond the end |
| `ArrayList.ArrayList.Free` | json-c/arraylist.c:42-50 | every element ever stored has been freed exactly once |
| `ArrayList.ElementsOfPadded` | json-c/arraylist.c:75-83 | storing an element conserves elements: what comes in and what goes out balance |
| `ArrayList.RoomIsLeast` | json-c/arraylist.c:59-73 | the new size is the least that is at least twice as big and big enough |
| `ArrayList.PaddedElsewhere` | json-c/arraylist.c:75-83 | no other slot changes, and skipped slots are NULL |
| `LinkHash.LhTable.LookupEntry` | json-c/linkhash.c:527-542 | lookup finds a slot with the key if and only if the list holds the key |
| `LinkHash.LhTable.FindSlot` | json-c/linkhash.c:500-507 | insert's unbounded probe loop ends at a slot that is free |
| `LinkHash.LhTable.Insert` | json-c/linkhash.c:493-523 | insert appends to the list, doubling first at the load limit, and keeps the whole invariant |
| `LinkHash.DefaultLimits` | json-c/linkhash.c:497-498 | the 16 slots of a new object double in front of the 12th key, and the 32 in front of the 23rd |
| `LinkHash.LhTable.Resize` | json-c/linkhash.c:460-478 | a resize keeps contents and invariant if and only if no nested resize happens, which doubling never causes |
| `LinkHash.ShrinkLosesTable` | json-c/linkhash.c:460-478 | a table with two entries that is resized to one slot is no longer sound |
| `LinkHash.LhTable.DeleteEntry` | json-c/linkhash.c:563-589 | the entry leaves list and slot; the error codes for slots without an entry |
| `LinkHash.LhTable.Unlink` | json-c/linkhash.c:571-588 | the four cases of unlinking give the linked list of the other entries |
| `LinkHash.LhTable.Delete` | json-c/linkhash.c:592-597 | exactly the binding of the key goes |
| `LinkHash.LhTable.Free` | json-c/linkhash.c:480-490 | the free function sees each entry exactly once, in list order |
| `LinkHash.InsertKeepsReachable` | json-c/linkhash.c:493-523 | reusing a tombstone keeps every live key reachable from its hash slot without crossing an EMPTY one |
| `LinkHash.DeleteKeepsReachable` | json-c/linkhash.c:563-589 | a deletion leaves a tombstone that keeps every other key reachable |
| `LinkHash.DeleteKeepsLinks` | json-c/linkhash.c:571-588 | next and prev mirror each other after unlinking any position |
| `LinkHash.SomeSlotIsFree` | json-c/linkhash.c:500-507 | below the load limit some slot is free for every start of a probe |
| `JsonObject.ObjectAdd` | json-c/json_object.c:399-416 | adding replaces in place or appends |
| `JsonObject.ObjectGet` | json-c/json_object.c:423-447 | the value of the key in the ordered map, or none |
| `JsonObject.ObjectDel` | json-c/json_object.c:449-452 | removes exactly the key |
| `JsonObject.RunOps` | json-c/linkhash.c:460-597 | any sequence of adds, replacements, deletions and lookups, with resizes in between, acts as on an insertion-ordered map, answers included, and count is the length of the list |
| `HashLittle.MixIsABijection` | json-c/linkhash.c:158-166 | mix and its inverse cancel in both orders on all triples of words |
| `HashLittle.MixIsInjective` | json-c/linkhash.c:158-166 | different triples are mixed to different triples |
| `HashLittle.HashByWords` | json-c/linkhash.c:240-301 | the 32-bit path, which reads past the end and masks, computes the hash of the zero-padded key |
| `HashLittle.HashByShorts` | json-c/linkhash.c:303-351 | the 16-bit path computes the same hash |
| `HashLittle.HashByBytes` | json-c/linkhash.c:353-394 | the bytewise path computes the same hash |
| `HashLittle.HashLittle` | json-c/linkhash.c:232-398 | the hash does not depend on the alignment of the key, nor on the bytes behind it |
| `HashLittle.KnownDigests` | json-c/linkhash.c:232-398 | the digests of an empty key, of a short one and of one of three blocks, under several values of initval |
| `HashLittle.StartIsInjective` | json-c/linkhash.c:238-238 | different values of initval start from different words |
| `RefCount.PutAllCounts` | json-c/json_object.c:159-174 | releasing references takes exactly those owners away: every count stays the number of owners and nothing owned is lost or changed |
| `RefCount.LiveIsReached` | json-c/json_object.c:159-174 | when counts are owners, every live node is reached from the roots |
| `RefCount.NoRootsNoNodes` | json-c/json_object.c:159-174 | without owners outside, no node is left |
| `NodeStore.Store.Release` | json-c/json_object.c:159-174 | the recursive release on memory does what the specification says |
| `NodeStore.Store.Retain` | json-c/json_object.c:151-157 | one owner more |
| `Ownership.StepMoves` | json-c/json_tokener.c:258-847 | what each pass of the machine does to the values on its stack |
| `OwnershipActs.MadeValues` | json-c/json_tokener.c:284-290 | a new node becomes `current` with one owner |
| `OwnershipActs.TakeIsSound` | json-c/json_tokener.c:347-352 | get, reset of the level and pop hand the only reference to `obj` |
| `OwnershipActs.AddItemValues` | json-c/json_tokener.c:738-742 | the array takes the reference over; no other value is seen to change |
| `OwnershipActs.AddMemberValues` | json-c/json_object.c:399-416 | the object takes the reference over and releases the value that the key had before |
| `OwnershipRuns.PassIsSound` | json-c/json_tokener.c:258-847 | after every pass each live node has exactly one owner, its count is 1, and the references stand for the machine's values |
| `OwnershipRuns.HandOutIsSound` | json-c/json_tokener.c:868-877 | on success the caller gets the value with one owner, and all levels are released |
| `OwnershipRuns.DropIsSound` | json-c/json_tokener.c:347-352 | a pop onto a cleared level leaves the value with a count of 1 and nobody to release it |
| `OwnershipRuns.RunIsSound` | json-c/json_tokener.c:232-882 | over a whole call, with an error at any character and on any tokener, all counts are the numbers of owners, where a value that was popped onto a cleared level counts as owned by nobody in reach; values handed out before are untouched |
| `OwnershipSessions.OnlyReturnedValuesRemain` | json-c/json_tokener.c:129-157 | after any sequence of calls, resets and releases and the end of the tokener, only nodes reached from values that were returned and not released, or dropped, are alive, each owned once |
| `OwnershipSessions.DroppedIsLost` | json-c/json_tokener.c:868-877 | a dropped value other than null is then still alive with a count of 1, and no other reference leads to it |
| `OwnershipSessions.NothingRemainsExactlyWhen` | json-c/json_tokener.c:129-157 | with everything released, no node is left if and only if no call has popped a value other than null onto a cleared level |
| `OwnershipSessions.LeakingSession` | json-c/json_tokener.c:868-877 | a concrete session leaks: a value returned from inside an array behind an open comment, and a second call on a number |
| `GptLayout.SealedIsOk` | gpt-utils/gpt-utils.cpp:514-517 | recomputing a header's CRC over its cleared field gives a header whose CRC is right, whatever the field held |
| `GptLayout.HeaderCrcReads` | gpt-utils/gpt-utils.cpp:514-517 | the CRC of a header is that of its first header-size bytes, with the field itself as 0 |
| `GptSwap.First` | gpt-utils/gpt-utils.cpp:196-213 | the first entry at or after a position that answers to a name, by the low bytes of its UTF-16 units, with or without "bak" |
| `GptSwap.SwapListIsUnmistakable` | gpt-utils/gpt-utils.h:80-84 | no entry can answer to two names of the swap list, on UFS or not |
| `GptSwap.SwapListIsSpelled` | gpt-utils/gpt-utils.h:80-84 | the names of the swap list |
| `GptSwap.MatchExactlyWhen` | gpt-utils/gpt-utils.cpp:200-210 | an entry answers to a name if and only if its own name, as far as its NUL, is that name or that name with bak behind it |
| `GptSwap.OneNameOnly` | gpt-utils/gpt-utils.cpp:200-210 | an entry answers to at most one name of an unmistakable list |
| `GptSwap.SwapNamesExchanges` | gpt-utils/gpt-utils.cpp:232-271 | the loop exchanges exactly the first two matches of each name in the table it started from |
| `GptSwap.SwapOrderIsIrrelevant` | gpt-utils/gpt-utils.cpp:232-271 | the order of the swap list does not matter |
| `GptSwap.SwapIsItsOwnInverse` | gpt-utils/gpt-utils.cpp:232-271 | swapping twice restores the table |
| `GptSwap.SwappedTwice` | gpt-utils/gpt-utils.cpp:232-271 | so does swapping the bytes of the buffer twice |
| `GptSwap.SwapPermutes` | gpt-utils/gpt-utils.cpp:232-271 | the 128-byte entries are permuted and what larger entries hold behind them stays |
| `GptSwap.Seek` | gpt-utils/gpt-utils.cpp:191-214 | the pointer loop over the buffer finds that entry |
| `GptSwap.SelectedAreExchanged` | gpt-utils/gpt-utils.cpp:245-248 | off UFS every name of the list, on UFS every one that does not begin with xbl, has its two entries exchanged in their first 128 bytes; every other entry stays byte for byte, and whether there are twins at all is decided alike |
| `GptSwap.BootChainSwap` | gpt-utils/gpt-utils.cpp:232-271 | the in-place swap on the buffer does that, and returns 0 if it found twins and 1 otherwise |
| `GptExample.ExampleSwap` | gpt-utils/gpt-utils.cpp:232-271 | a table with xbl, xbl_config and abl, each with its twin: three exchanges off UFS, only that of abl on UFS |
| `GptUpdate.HeaderDetermined` | gpt-utils/gpt-utils.cpp:500-517 | signature, entries CRC and a right header CRC leave no other byte open |
| `GptUpdate.ViewDeterminesDisk` | gpt-utils/gpt-utils.cpp:287-390 | the four regions and the rest make up the disk |
| `GptUpdate.HeaderWritten` | gpt-utils/gpt-utils.cpp:478-508 | writing a header of the same layout changes nothing else |
| `GptDevice.SetBootChain` | gpt-utils/gpt-utils.cpp:287-390 | the secondary header is written first, then the entries, with every early return before any write |
| `GptDevice.FetchState` | gpt-utils/gpt-utils.cpp:405-454 | a wrong CRC hides a wrong signature |
| `GptDevice.SetState` | gpt-utils/gpt-utils.cpp:471-527 | the signature is restored or its first byte cleared, and the header resealed, in one write |
| `GptUpdate.MarkedBytes` | gpt-utils/gpt-utils.cpp:500-508 | a good mark is the whole signature, a bad one a NUL in place of its first byte, and no other byte changes |
| `GptCodes.CodeExactlyWhen` | gpt-utils/gpt-utils.cpp:747-927 | for every disk, stage and outcome of the LUN switch: the code is 0 if and only if both header CRCs are right, a signature is in place, and the stage is due or already done, and -1 otherwise; and how many writes that takes, in terms of the signatures, the entries CRC and the twins |
| `GptCodes.NothingToSwap` | gpt-utils/gpt-utils.cpp:847-849 | MAIN with two valid GPTs and no twins returns 0 and writes nothing |
| `GptCodes.MainTradesTwins` | gpt-utils/gpt-utils.cpp:812-860 | after MAIN the secondary entries are the primary ones with exactly the twins exchanged |
| `GptCodes.OneRegionAtATime` | gpt-utils/gpt-utils.cpp:794-917 | each write of a stage changes one region: the secondary header, the secondary entries and the primary header in MAIN, the two headers in BACKUP, the secondary header, its entries and the header again in FINALIZE |
| `GptDevice.PreparePartitions` | gpt-utils/gpt-utils.cpp:747-927 | each stage makes exactly its writes, in order, as far as the device takes them, and returns 0 if it is due or done and all its writes are taken, and -1 otherwise |
| `GptFailsafe.EveryWriteIsSafe` | gpt-utils/gpt-utils.cpp:747-927 | after each single write the primary header is the original one, or it is marked bad and the secondary GPT is valid |
| `GptFailsafe.UpdateIsFailsafe` | gpt-utils/gpt-utils.cpp:747-927 | from a disk with two valid GPTs, after every write of any run of stages with crashes anywhere, at least one GPT has a right signature, header CRC and entries CRC |
| `GptDevice.CallLeaves` | gpt-utils/gpt-utils.cpp:747-927 | what a cut call leaves on the device is a disk that these theorems speak of |
| `GptCycle.FullCycle` | gpt-utils/gpt-utils.cpp:794-917 | an uncut MAIN, BACKUP, FINALIZE leaves the primary GPT byte-identical and the secondary entries equal to it, both headers good; if they were equal before, the whole disk is restored |
| `GptCycle.CutAndCalledAgain` | gpt-utils/gpt-utils.cpp:794-917 | a stage cut after any write and called again succeeds with the disk of the uncut call, if and only if it is neither a BACKUP cut between its writes nor a completed FINALIZE |
| `GptExample.ExampleDisk` | gpt-utils/gpt-utils.cpp:747-927 | there is a disk with two valid GPTs and entries to exchange that meets every assumption of the theorems above |
| `GptCycle.CutBackupRecovers` | gpt-utils/gpt-utils.cpp:884-891 | after such a BACKUP, MAIN is accepted again and restores the disk before BACKUP |

## Left out

- Doubles as numbers, `strtod`, locale switching, custom serializers and `JSON_C_TO_STRING_NOZERO`: a double is its lexeme.
- Allocation failure everywhere; `int` overflow of sizes, lengths and counts, which are unbounded here; the size error for a
  length below -1 or beyond INT32_MAX.
- The variant of the 32-bit hash path that is compiled for Valgrind only.
- The pointer identity of keys and the statistic counters of `lh_table`; the load factor 0.66 is taken exactly, without the
  rounding of the C expression.
- PairCuts.PairCutExactlyWhen: for a cut inside a pair the condition is on what the pair adds to the buffer; on the final value
  there is none, since a later duplicate of a key can replace the value that a bad cut has changed.
- Rfc8259.JsonTextIsAcceptedExactlyWhen: a JSON text is given by its derivation tree; that sscanf takes every number with a
  fraction or an exponent for a double is assumed of the parameter.
- GrammarTexts.TextIsAcceptedExactlyWhen: what the tokener accepts beyond the grammar (comments, single quotes, trailing commas,
  other cases of the literals, loose numbers) is left to `ReferenceRuns.ParseIsReference`.
- ReferenceRuns.ParseIsReference: for a string and its terminator in one call; what calls on chunks make of a text is left to
  `TokenerChunks`, `NumberCuts`, `PairCuts` and `GrammarTexts.TextEndsWithChunk`.
- Layouts.GapsAre: doubles are printed as numerals or literals, as `Layouts.Lexemes` says; the text that a caller gives to
  `json_object_new_double_s` is written as it is, whatever it holds.
- Tokener.Tokener.ParseEx: the buffer `pb` is a byte sequence and `current` a value; the print buffer and the nodes that they
  stand for are `PrintBuf` and the `Ownership` modules. Calls above cleared levels are left to `ReusedTokener`.
- OwnershipSessions.OnlyReturnedValuesRemain: no call is made on a tokener that was cut right behind the second `\u` of a pair,
  where the original shifts by a negative amount; the caller does not add references or edit returned values.
- PrintBuf.PrintBuf.MemSet: for an offset beyond the end the bytes in between are whatever memory held.
- NodeStore.Store.Release: a node leaves the heap before its children are released, where the original frees it after them;
  user-defined delete functions are not modelled.
- `lh_table` iteration macros, `json_object_iterator.c`, `qsort`, pointer keys, `random_seed.c`, `debug.c` and the file helpers.
- Opening devices, block sizes, `fsync`, read errors, switching the boot LUN (its outcome is a parameter), LUN lists, and the
  `gpt_disk_*` functions, which copy the primary table only.
- The USB, vibrator, power, health and keymaster parts of the repository, its Java code and its configuration.
