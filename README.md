# Globber in Dafny

Globber builds a binary file from a line-oriented script. Each script line is
split into tokens. The first token is the command:

- `append`, `insert` or `write` edits the buffer;
- `data` continues the previous edit;
- `offset` sets the address offset that later `at` clauses add.

The remaining tokens are clauses that say where the new bytes come from and
how they are shaped:

- sources: inline `data` (bytes, words, longs, quoted text), `hex` blocks, or a `file` with `from`/`to`/`bytes`;
- limits: `max` and `exactly`;
- shaping: `pad [once]` and `interleave a[,] b`.

Once every line has run, the buffer is written out, or nothing is written if it is empty.

This project models that interpreter (`globber.cpp`) and proves properties of the model:

| module | models |
|---|---|
| `Common` | the error kinds, `Result`/`Option`, case-insensitive comparison and the digit table |
| `Lexer` | `tokenize_string`, as a four-state machine (normal, quoted, escaped, comment) |
| `Numbers` | both `parse_number` overloads: sign, `k`/`M` multiplier, `0x`/`0b` prefix, `_` separators |
| `DataBlocks` | `read_hex` and `read_data` (byte/word/long modes, endianness, quoted text, comma continuation) |
| `Ranges` | `check_offsets` and `read_file`, with files given as a map from name to contents |
| `Blocks` | the interleave loops and the pad loops of `process_tokens` |
| `Clauses` | the clause loop of `process_tokens` and the assembly of the new data after it |
| `Interpreter` | the edit switch, `offset`, the `data` continuation, `process_tokens` and `process_script` |

How the model is built:

- Every loop of the source is a method with a `while` or `for` loop.
- Each such method is proved equal to a specification function.
- The properties are proved as lemmas about those functions.
- The per-script state (buffer, `previousEnd`, `previousAction`) and the global
  address offset are the fields of the class `Interpreter.Interpreter`.
- Each exception the source throws is an `Error` value. A failing line leaves
  the state as the source leaves it at the throw.

## Model

| member | source | states |
|---|---|---|
| Common.EqualsIgnoreCase | globber.cpp:161-167 | true exactly when both strings have the same length and agree character by character after lower-casing |
| Common.DigitValueFinds | globber.cpp:30-30 | the digit value of a character is its position in the digit table after upper-casing, and -1 when it is not in the table |
| Common.DigitTableReadsBack | globber.cpp:30-30 | looking up the character at table position d gives d back |
| Lexer.Tokenize | globber.cpp:49-107 | the loop over the characters yields exactly the tokens of the state-machine specification, and every token is non-empty |
| Lexer.TokensNonEmpty | globber.cpp:67-69 | no token produced for any line is empty |
| Lexer.RunFromAppend | globber.cpp:60-100 | lexing s + t is lexing s and then continuing with t from the state reached |
| Lexer.CommaIsOwnToken | globber.cpp:66-77 | outside quotes a comma ends the current token and is emitted as a token of its own |
| Lexer.BlankSeparates | globber.cpp:66-70 | outside quotes a space, tab or carriage return only ends the current token |
| Lexer.CommentAbsorbs | globber.cpp:98-99 | once in comment state, every further character is ignored |
| Lexer.CommentDiscardsRest | globber.cpp:66-72 | outside quotes `#` drops the rest of the line |
| Lexer.EscapedReadsBack | globber.cpp:83-97 | inside quotes, a backslash-escaped text is read back as the original text |
| Lexer.QuotedToken | globber.cpp:62-65 | a quoted, escaped string lexes to the single token made of the quotes and the original text |
| Lexer.PlainWordToken | globber.cpp:78-80 | a word free of delimiters and quotes is one token, itself |
| Numbers.ParseNumber | globber.cpp:109-159 | the digit loop computes the value of the number specification (error on empty string or invalid digit) |
| Numbers.ScanDigits | globber.cpp:144-155 | the digit loop, skipping `_`, equals the positional scan of the digits in the base |
| Numbers.ParseArgument | globber.cpp:175-180 | a missing token gives MissingParameter; otherwise the token is parsed as a number |
| Numbers.ScanErrorPersists | globber.cpp:148-153 | once a prefix holds an invalid digit, the whole body is rejected |
| Numbers.ScanMeaning | globber.cpp:144-155 | the scan succeeds exactly when every non-`_` character is a digit below the base, and then gives the positional value of those digits |
| Numbers.UnderscoreIgnored | globber.cpp:145-145 | removing an underscore does not change the result |
| Numbers.NumberMeaning | globber.cpp:109-159 | a number is sign times multiplier times the scanned digits between prefix and suffix |
| Numbers.NumeralRoundTrip | globber.cpp:109-159 | printing digits with any sign, prefix and `k`/`M` suffix and parsing the text back gives the signed product |
| Numbers.PositionalAppend | globber.cpp:147-154 | appending a digit multiplies the value by the base and adds the digit |
| DataBlocks.ReadHex | globber.cpp:182-199 | the loop gives the hex-block specification: MissingParameter past the end, OddHexBlock for an odd length, else one byte per digit pair |
| DataBlocks.HexBlockMeaning | globber.cpp:189-197 | a hex block is accepted exactly when it has even length; byte k is 16 times the high nibble plus the low nibble |
| DataBlocks.HexRoundTrip | globber.cpp:182-199 | reading back the hex text of any byte sequence gives that sequence |
| DataBlocks.NibbleMask | globber.cpp:194-196 | masking the table position with 0x0F gives the nibble used |
| DataBlocks.EncodeValue | globber.cpp:238-273 | the push sequence for one value equals the encoding specification in the current mode and byte order |
| DataBlocks.EncodeByte | globber.cpp:241-246 | byte mode accepts exactly -128..255 and stores the value modulo 256 |
| DataBlocks.EncodeWord | globber.cpp:247-259 | word mode accepts exactly -32768..65535; the two bytes are the value modulo 65536, in the requested order |
| DataBlocks.EncodeLong | globber.cpp:260-272 | long mode accepts every value; the four bytes are the value modulo 2^32, in the requested order |
| DataBlocks.ReverseTwice | globber.cpp:251-257 | big-endian order is the reverse of little-endian order, and reversing twice is the identity |
| DataBlocks.ReadData | globber.cpp:201-288 | the do/while loop equals the data specification: bytes read and index of the last consumed token |
| DataBlocks.Items | globber.cpp:211-283 | on success the last consumed index stays in range, and bytes already read are a prefix of the result |
| DataBlocks.Continue | globber.cpp:275-286 | continuation only over a comma; otherwise reading stops at the token just read |
| DataBlocks.Item | globber.cpp:212-283 | reading on from one token keeps the last consumed index within the line and the bytes read so far as a prefix of the result |
| DataBlocks.ReadItem | globber.cpp:211-285 | one pass of the loop body either ends the list with the data specification's outcome, or moves to a later token with the specification's remaining result unchanged |
| DataBlocks.ReadText | globber.cpp:212-220 | a quoted token appends its text's bytes; the list then ends at that token or continues two tokens on, past the comma |
| DataBlocks.PushText | globber.cpp:214-216 | the character loop appends exactly the bytes of the text |
| DataBlocks.MatchKeyword | globber.cpp:222-236 | each of `word`, `long`, `byte`, `le`, `be` (in any case) gives the width or byte order it names, and the result is none exactly when the token is none of the five |
| DataBlocks.ReadValue | globber.cpp:238-273 | parsing then encoding a value gives the parse error, the range error, or the value's bytes in the current mode and order |
| DataBlocks.ReadNumber | globber.cpp:237-283 | a value token fails with its parse or range error, or appends its bytes and then ends or continues past the comma |
| DataBlocks.AfterItem | globber.cpp:274-283 | after an item the list ends at that item unless the next token is a comma |
| DataBlocks.ByteListReads | globber.cpp:201-288 | a comma-separated list of byte numerals reads back as those bytes, ending at its last token |
| DataBlocks.QuotedTextReads | globber.cpp:211-221 | a quoted token reads as the bytes of its text, without the quotes |
| DataBlocks.DataStartsInByteMode | globber.cpp:208-246 | a lone number is read in byte mode: accepted exactly in -128..255, stored modulo 256 |
| DataBlocks.KeywordStartsWithLetter | globber.cpp:222-236 | every mode keyword starts with a letter, so it is never a quoted text |
| Ranges.CheckOffsetsMeaning | globber.cpp:290-326 | check_offsets succeeds exactly when the range is acceptable, and then returns the requested count |
| Ranges.CheckOffsetsBounds | globber.cpp:290-326 | an accepted count is at least 0, fits from `from` to the end, and respects max and exact |
| Ranges.CheckOffsetsErrors | globber.cpp:292-313 | each rejected range gives its own error: past end, to before from, to past end, to with bytes, zero length, count past end |
| Ranges.EmptyRangeAccepted | globber.cpp:290-326 | starting at the end with no to or bytes is accepted with count 0 |
| Ranges.Slice | globber.cpp:480-483 | a selected in-memory slice has exactly the length check_offsets accepted |
| Ranges.ReadFileIsSlice | globber.cpp:328-343 | reading an existing file from a non-negative offset is the slice of its contents |
| Ranges.MissingFileRejected | globber.cpp:328-343 | a missing file has size -1, so reading it fails with FromPastEnd |
| Blocks.Interleave | globber.cpp:500-512 | the chunk loop equals the interleave specification |
| Blocks.InterleavedAppend | globber.cpp:503-507 | one more chunk pair appends that first chunk and then that second chunk |
| Blocks.InterleavedBlock | globber.cpp:500-512 | output block k is the k-th chunk of the first data followed by the k-th chunk of the second |
| Blocks.NextPadValue | globber.cpp:522-524 | the pad index advances by one, wraps to 0 at the end, and with `once` stays on the last byte |
| Blocks.PadAtClosed | globber.cpp:515-530 | the j-th pad index is j modulo the pad length, or with `once` min(j, last) |
| Blocks.PadRunBytes | globber.cpp:515-530 | byte j of a pad run is the pad byte at that closed-form index |
| Blocks.EmitPad | globber.cpp:520-525 | the inner pad loop appends exactly the pad run of the requested length |
| Blocks.PadInterleave | globber.cpp:515-530 | the pad-interleave loop equals its specification |
| Blocks.PadInterleavedBlock | globber.cpp:515-530 | output block k is the k-th chunk of the first data followed by a pad run restarted at the first pad byte |
| Blocks.CopiesBlock | globber.cpp:519-526 | the pad part is the same for every chunk |
| Blocks.PaddedMeaning | globber.cpp:535-549 | padding to an exact length keeps the data as a prefix, reaches the length, and fills with the pad bytes cyclically (or repeating the last with `once`) |
| Blocks.PadTo | globber.cpp:541-547 | the padding loop equals that specification |
| Clauses.InterleaveClause | globber.cpp:434-472 | a successful interleave clause leaves well-formed chunks (sizes positive, first data a multiple of the first size), clears the selected input and consumes tokens |
| Clauses.ParseInterleave | globber.cpp:434-472 | the interleave branch equals its specification |
| Clauses.Clause | globber.cpp:406-476 | a clause consumes at least its keyword and stays inside the line, and keeps the request consistent |
| Clauses.ParseClause | globber.cpp:407-475 | the branch chain equals the clause specification |
| Clauses.CollectClauses | globber.cpp:406-477 | the clause loop equals folding the clauses over the line |
| Clauses.NumericClause | globber.cpp:407-418 | a numeric clause without argument is MissingParameter; otherwise it sets its field, adding the offset for `at` |
| Clauses.SelectData | globber.cpp:480-486 | inline data wins over a file, and no source gives no data |
| Clauses.Combine | globber.cpp:488-531 | the interleave checks and loops equal the combination specification |
| Clauses.CombinedAccepts | globber.cpp:488-499 | combining succeeds exactly when there is a second data set or pad, the second set is a multiple of its chunk size, and an actual second set has as many chunks; the result's length follows |
| Clauses.CombinedBlock | globber.cpp:500-512 | with a second data set, block k of the result is chunk k of each set |
| Clauses.CombinedPadBlock | globber.cpp:515-530 | with pad only, block k is chunk k of the first set followed by the pad run |
| Clauses.ExtendedMeaning | globber.cpp:535-549 | an exact length longer than the data fails only without pad data; otherwise the data is kept or padded |
| Clauses.Assemble | globber.cpp:480-549 | selection, interleaving and exact padding together equal the assembly specification |
| Clauses.InterleaveCommaAtEnd | globber.cpp:440-446 | `interleave 1 , 1` as the last clause is rejected, while `interleave 1 1` is accepted |
| Interpreter.NoMoreTokens | globber.cpp:169-173 | a line passes exactly when it has at most the given number of tokens; otherwise TrailingToken |
| Interpreter.AppendMeaning | globber.cpp:552-558 | append is accepted exactly without `at`; it adds the data at the end, and the new end is the new length |
| Interpreter.InsertMeaning | globber.cpp:559-570 | insert is accepted exactly for an address inside the buffer; the data goes in at the address, and the recorded end is the address plus the whole new length |
| Interpreter.WriteAccepts | globber.cpp:571-578 | write is accepted exactly for an address from 0 to the buffer length, with the two errors outside that range |
| Interpreter.WriteInPlace | globber.cpp:587-591 | a write that ends inside the buffer overwrites only those bytes, keeps the length, and records address plus length as the end |
| Interpreter.WriteTruncating | globber.cpp:579-586 | a write reaching the end replaces the tail and ends at the new length |
| Interpreter.OffsetLine | globber.cpp:382-391 | an offset line never touches the buffer, the previous end or the previous action |
| Interpreter.OffsetMeaning | globber.cpp:380-391 | `offset` without an argument fails with nothing changed; a bad number fails with its own error and nothing changed; otherwise the value is stored, and the line fails if it is negative, then if more tokens follow, and succeeds otherwise |
| Interpreter.EditLine | globber.cpp:397-596 | an edit line records its action even when it fails, keeps the offset, and on failure changes nothing else |
| Interpreter.Applied | globber.cpp:551-596 | applying an edit never changes the offset or the previous action |
| Interpreter.Line | globber.cpp:345-597 | a failing line leaves the buffer and the previous end unchanged; an unknown command changes nothing and fails with UnknownAction; only an `offset` line changes the offset |
| Interpreter.ContinuationLine | globber.cpp:374-379 | a `data` line is an edit line with the previous action, placed at the previous end unless that action was append, reading its clauses from its first token |
| Interpreter.EditLineReads | globber.cpp:397-596 | when the clauses read to a consistent request whose data assembles, the edit line records its action and applies the edit of that data at the request's address |
| Interpreter.ContinuationAfterAppend | globber.cpp:374-379 | after an append, a `data` line without `at` appends its data and ends at the new length; with `at` it fails with AppendWithAt |
| Interpreter.ContinuationAfterWrite | globber.cpp:374-379 | after a write, a `data` line makes the write of its data at its address; at the previous end, when that is the buffer's end, it adds the data there |
| Interpreter.AppliedAppend | globber.cpp:552-558 | applying an append without address adds the data at the end and ends at the new length |
| Interpreter.AppliedWriteAtEnd | globber.cpp:571-591 | applying a write at the buffer's end adds the data there |
| Interpreter.AppliedWriteTruncating | globber.cpp:579-586 | applying a write that reaches the end cuts the buffer at the address and adds the data |
| Interpreter.AppendThenAppend | globber.cpp:552-558 | two appends in a row leave the buffer followed by both data sets in order, ending at the new length |
| Interpreter.WriteThenWriteAtEnd | globber.cpp:571-591 | after a write reaching the end, the previous end is the buffer's end, and writing at it gives the buffer up to the address followed by both data sets in order |
| Interpreter.ContinuationAfterInsert | globber.cpp:376-381 | after an insert, a `data` line starts at the recorded end, which lies past the buffer, so it is rejected as InsertBeyondEnd |
| Interpreter.InsertLeavesEndPastBuffer | globber.cpp:559-570 | a successful insert leaves the previous end at or past the end of the buffer |
| Interpreter.Step | globber.cpp:606-611 | a line with no tokens leaves the state unchanged |
| Interpreter.Run | globber.cpp:601-617 | a reported failure names a line number within the lines run |
| Interpreter.RunFromLine | globber.cpp:609-615 | from line k on, a line without tokens is skipped and any other line is interpreted, stopping the run with its line number when it fails and going on with the next line otherwise |
| Interpreter.RunSplit | globber.cpp:609-615 | running two runs of lines one after the other equals running them joined, stopping at the first one's failure and numbering on |
| Interpreter.RunFirstFailure | globber.cpp:609-620 | a reported failure is that of the first failing line: all lines before it succeed, that line fails with the reported error, and the run ends in the state it left |
| Interpreter.SilentLineSkipped | globber.cpp:609-612 | an empty or comment-only line only advances the line number |
| Interpreter.Script | globber.cpp:599-630 | the script ends in the state of the run; it fails exactly when a line fails, with that line; it writes the final buffer exactly when no line fails and the buffer is non-empty, and writes nothing exactly when no line fails and the buffer is empty |
| Interpreter.Interpreter.constructor | globber.cpp:24-24 | a new interpreter has an empty buffer, previous end -1, previous action append and offset 0 |
| Interpreter.Interpreter.ApplyEdit | globber.cpp:551-596 | the erase and insert steps leave the state the edit specification gives |
| Interpreter.Interpreter.ProcessOffset | globber.cpp:382-391 | the offset branch leaves the state the offset-line specification gives |
| Interpreter.Interpreter.ProcessEdit | globber.cpp:397-596 | clause loop, assembly and edit leave the state the edit-line specification gives |
| Interpreter.Interpreter.ProcessTokens | globber.cpp:345-597 | the whole of process_tokens leaves the state and result the line specification gives |
| Interpreter.Interpreter.ProcessScript | globber.cpp:599-630 | the line loop resets the per-script state, keeps the global offset, and ends in the script specification's state and outcome |

## Left out

- Reading the script file (`read_file_as_strings`), writing the output file and all console messages are I/O; the script is a sequence of lines, files are a map from name to contents, and the output is the `Outcome` value.
- Error message texts are not modelled; each exception is one `Error` value.
- `main` (argument handling) is not part of this model.
- Numbers are unbounded: the model does not overflow `long` on huge numerals or large `k`/`M` products.
- The `default` branch of the edit switch is unreachable, because the previous action is only ever append, insert or write; it is left out.
- Ranges.Slice: a negative `from` on in-memory data is undefined behaviour in the source; the model reports NegativeFrom instead.
- Ranges.ReadFile: a negative `from` on a file makes the seek fail; the model returns `count` zero bytes, as the read into a zero-filled buffer does.
- DataBlocks.ReadHex: a character that is not a hex digit is read as 15, the source's masking of -1, with no error.
- Ranges.CheckOffsetsBounds: a range starting at the end with no `to` or `bytes` is accepted with count 0, so the count is only stated to be at least 0.
- Quoted text in `read_data` continues only when a comma token follows it (globber.cpp:217-220).
- Two quirks are modelled as written and shown in lemmas rather than corrected:
  - insert and in-place write record the end as address plus the whole buffer length (Interpreter.ContinuationAfterInsert);
  - `interleave a , b` is rejected when it is the last clause (Clauses.InterleaveCommaAtEnd).
- The unsigned wrap-around of `tokens.size()-1` and `tokens.size()-2` cannot occur, because a clause keyword never sits at index 0 of a line that short; sizes are modelled as integers.
- Characters of quoted text become bytes as their code modulo 256; no character encoding is modelled.
