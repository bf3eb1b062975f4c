# Verification of the ODBC value converter and of Schemamatic

A Dafny 4.11 model of two components of this repository, and proofs about it.

**The value converter of the ODBC driver** (`vxodbc/`). Base conversion between decimal text and `SQL_NUMERIC_STRUCT`
in both directions (the layout of the struct is in the ODBC 3.x Programmer's Reference, Appendix D, "C Data Types"), the
overlapping hex encoder, the octal escapes, line-feed conversion, the per-column state of `SQLGetData`, the records of
`SQLError`, the multibyte status scan and the escaper built on it.

**Schemamatic and the SQL front end of versaplexd** (`versaplexd/`). Table text and its difference, table alteration with
trial runs, a transaction and undo by hand, the retrying `Put`, `CopySchema`, checksums, the element file format, the SQL
tokenizer, the statement restriction, `query_parser` around the two, and `StripMatchingParens`.

What updates state in place in the source is a class or a loop over an array here (`SqlNumericStruct`, `GetDataClass`,
`VxSchemaTable`, `Database`, `VxDbSchema`, `Backend`, `VxSqlTokenizer`, `Handle`, `VxSchemaChecksums`, `Containers`); each
method is proved equal to a specification function, and the laws are lemmas about that function. A long source function is
cut into several methods where it has separate phases.

| file | contents |
|---|---|
| `Positional.dfy` | positional notation: values of digit and byte sequences |
| `NumericRead.dfy`, `NumericPrint.dfy`, `NumericResolve.dfy`, `NumericRoundTrip.dfy` | text to struct, what is printed, the printing loops, the round trip |
| `NumericForms.dfy`, `ByteForms.dfy` | the texts that are read and written, character by character |
| `HexCodec.dfy`, `PgBinary.dfy` | hex in one memory, octal escapes |
| `Delivery.dfy`, `GetData.dfy` | what chunks must add up to, the column state machine that delivers them |
| `Multibyte.dfy`, `Escaping.dfy` | the status scan on well-formed text, escaping and reading back |
| `ErrorRecords.dfy` | `SQLError` records |
| `Wrappers.dfy`, `Text.dfy` | `Option` and `Result`; splitting, joining, trimming |
| `TableText.dfy`, `TableDiff.dfy` | element text and its parser, `VxSchemaTable`, `GetDiff` |
| `Server.dfy`, `TableAlter.dfy` | a database whose statements may fail, and `PutSchemaTable` against it |
| `TableForms.dfy` | columns and indexes of the server as elements and back |
| `PutRetry.dfy`, `CopySchema.dfy` | `Put` with retries, `CopySchema` |
| `Checksums.dfy`, `DiskSchema.dfy`, `DiskForms.dfy` | checksum lists, element files, what they look like |
| `Tokenizer.dfy`, `Rereading.dfy` | the tokenizer, and when the text of any list of tokens is read as them again |
| `Restriction.dfy`, `QueryParser.dfy`, `QueryExample.dfy` | statement restriction, `query_parser` around it, a query on which it fails |
| `TokenForms.dfy`, `QueryForms.dfy` | single tokens and the restrictions with characters and words written out |
| `Parens.dfy` | outer parentheses |

## Where the code does not do what one would expect

Each of these shows in a lemma or a contract; the code is modelled as it is.

- A number goes from text to struct and back to the same number if and only if `Survives` holds of the text, which
  `NumericRoundTrip` proves for every text. What fails: more than 48 digits behind the leading zeros, which overrun
  the reading buffer; ten digits or more with a scale of forty or more, which are printed from outside the forty
  cells; a scale that is not zero from 2^119 to 2^120, where it is overwritten; everything from 2^120 on, where the
  scale comes out negative and printing reads in front of the cells; and a negative number of fewer than ten digits,
  not zero, with none of them in front of the dot, which loses its sign (`LostSign`).
- A struct of precision eight or nine can have all 32 bits of its number set. From 2^31 on that is a negative number to the
  driver, and the digits behind the dot get a minus of their own (`WrappedTextForm`).
- A call with a buffer of size zero is harmless before the first read, but in the middle of a text it drops what is left,
  and behind the announced end it starts the value again (`ZeroCall`). `CallKeepsIff` says that no other call loses or
  repeats anything, and `NothingLost` says the same of runs; both are equivalences.
- `convert_linefeeds` with a limit puts its terminator behind the buffer when the last thing it writes is a pair for which
  there was room only for one character (`TerminatorOutside`). No caller gives it so little room.
- A column whose state was left from an earlier row may keep a longer buffer, and then reports its last chunk as truncated;
  this is the `slack` of `Deliver`, at least 1 for text, exactly 1 on a column that was reset.
- `SQLError` with a first buffer of one character returns empty text for ever (`SizeOneSticks`); a later buffer that takes
  some of a record but not all of it loses text, and nothing else does (`WholeMessage` is an equivalence). After such a
  loss the next record can start beyond 32767, which 16 bits make negative, so that the call reads in front of the message
  (`OutsideIff`, `LongMessageGoesOutside`); a run that loses nothing never does (`InsideUnlessLosing`).
- `StripMatchingParens` on unbalanced text may strip a parenthesis that matches nothing (`UnbalancedLosesParen`) or ask for
  a substring that does not exist (`StripThrows`, `OverclosedThrows`). Where it strips anything, it strips matching pairs
  only if and only if the text is balanced (`StrippedMatch`).
- `pg_bin2hex` refuses a destination just in front of the source, where its backward loop would do; all other refusals are
  needed (`RefusedIff`). `pg_hex2bin` refuses nothing, and is right exactly where no digit falls on text still to be read
  (`DecodedApart`, `ApartIff`).
- Text that ends inside a character can take the closing quote of its literal with it: the literal ends at its quote if
  and only if the scan of the text ends where a quote is a character of its own (`LiteralEnds`). That is below status 2 in
  the sets of two-byte characters; in UTF-8 it is always so (`QuoteAlone`).
- `INSERT ... EXECUTE` is never let through at level 1, although the code means to: the word EXECUTE itself spoils the
  column list, where only EXEC is expected (`ExecuteRefused`). Likewise a dotted name between `ALTER TABLE` and `SET` is
  refused (`DottedTableRefused`).
- At level 2, `BEGIN TRAN` and the commands BACKUP, RESTORE, DENY and UPDATETEXT pass (`TranPasses`): the list of commands
  lacks them, and at every level they are like any other word to the check (`UnlistedUnseen`). A query that passes level 2
  reads only if and only if none of them is in it (`Level2Reads`).
- A statement of the daemon's own is replaced without the spaces in front of it, and its text can end in a comment, so what
  is handed on can be read otherwise than it was checked: `RunsIntoComment` has a query whose one EXEC passes level 1, and
  which is sent as two PRINTs. The text is read as the tokens that were checked if and only if around each replacement the
  token in front stops where the replacement begins, and its last token where the next one begins (`RewrittenIff`; where a
  token stops is `Stops`: a word or number in front of a character that does not go on with it, a line comment in front of
  a line end). Under that condition what is sent keeps the restrictions (`CheckedIsHandedOn`).
- An element with an empty text that is put in a copy is deleted at the destination, so its key never leaves the
  difference (`EmptyTextNeverSettles`). Nothing else stays in it without an error (`LeftOver`): an error-free copy makes the
  checksums equal if and only if no element that it put had an empty text (`Converged`).
- `Put` gives up an element that cannot be built, as in a cycle (`CycleFails`); `FinalErrors` says for any dependencies which
  ones are left.
- A table read from the server may have an element whose text could also be that of another one, such as a column whose
  default has a comma in it. If the new table has that same text under the same key, nothing is done and the old element
  stays; the difference then leads to the new table exactly where equal text means equal elements (`DiffIsExact`,
  `MergedIsApplied`).

## Model

| member | source | states |
|---|---|---|
| NumericRead.ReadDecimalWorth | vxodbc/convert.cc:1087-1113 | skipping blanks, sign and leading zeros keeps the number that the text denotes |
| NumericRead.EncodeValue | vxodbc/convert.cc:1114-1144 | the fifteen bytes are the whole digit integer below 2^120, and always its value modulo 2^120 |
| NumericRead.Halve | vxodbc/convert.cc:1117-1124 | one pass over the digit buffer leaves half of the number, its remainder, and the place of its leading digit |
| NumericRead.HalveToBytes | vxodbc/convert.cc:1114-1144 | repeated halving ends with the little-endian bytes of the number; it stops early exactly from 2^119 on |
| NumericRead.ConvertToNumeric | vxodbc/convert.cc:1068-1148 | the struct gets sign, precision, scale and bytes of the text, unless more than 48 digits behind the leading zeros overran the buffer |
| NumericPrint.LargeTextWorth | vxodbc/convert.cc:2317-2401 | the text printed for precision ten and up denotes exactly (+/-) v / 10^scale |
| NumericPrint.SmallTextWorth | vxodbc/convert.cc:2285-2316 | so does the short form, but for the sign of a number whose integer part is zero |
| NumericResolve.CarryOne | vxodbc/convert.cc:2320-2360 | moving ten from one cell to the next keeps the number in the digit buffer |
| NumericResolve.ScaledValue | vxodbc/convert.cc:2320-2360 | replacing one digit by 256 times itself over four cells adds 255 times that digit |
| NumericResolve.RoomBelowTop | vxodbc/convert.cc:2275-2277 | sixteen bytes stay below 10^39, so that no index leaves the forty cells |
| NumericResolve.Settle | vxodbc/convert.cc:2320-2370 | the carry loop ends with one decimal digit in every cell and the exact number of digits in `len` |
| NumericResolve.Times256 | vxodbc/convert.cc:2320-2360 | the buffer holds 256 times the number it held |
| NumericResolve.ToDecimal | vxodbc/convert.cc:2317-2370 | the nested loops turn the first vlen bytes into their decimal digits |
| NumericResolve.CellsAreDigits | vxodbc/convert.cc:2370-2400 | the cells, read downwards, are the digits of the zero-padded number that is shown |
| NumericResolve.ResolveNumericParam | vxodbc/convert.cc:2268-2401 | on every struct the whole function prints the rendering, or ends in the one of its failing branches that precision and scale select: nothing written, a product beyond 32 bits, or a cell outside the forty |
| NumericRoundTrip.PrecTable | vxodbc/convert.cc:2271-2274 | the k-th entry of the precision table never asks for more digits than k bytes hold |
| NumericRoundTrip.EnoughBytes | vxodbc/convert.cc:2317-2319 | the table always selects enough bytes: 256^bytes >= 10^precision |
| NumericRoundTrip.SelectedIsWhole | vxodbc/convert.cc:2317-2319 | the selected bytes are the whole digit integer of a text that was converted |
| NumericRoundTrip.NumericRoundTrip | vxodbc/convert.cc:1068-1148 | for every text: it is printed again as the same number if and only if it fits the buffers, its scale was not overwritten and no sign was lost |
| NumericRoundTrip.ConvertBothWays | vxodbc/convert.cc:2268-2401 | the two functions run one after the other on any text give just that |
| NumericRoundTrip.LostSign | vxodbc/convert.cc:2296-2316 | "-0.5" comes back as a different number |
| NumericForms.ReadsWritten | vxodbc/convert.cc:1087-1113 | any run of the six space characters, no sign or "+" or "-", zeros, digits and a dot among them is read with that sign, with just those digits behind the zeros, and with the scale that stands there |
| NumericForms.StructOfWritten | vxodbc/convert.cc:1068-1148 | such a text is worth the signed number of its digits over ten to the digits behind the dot, and the struct it fills has that sign, precision, scale and number |
| NumericForms.SurvivesWritten | vxodbc/convert.cc:1068-1148 | such a text comes back as the same number exactly under conditions on its digits, with the bounds 48, 40, 2^119 and 2^120 written out |
| NumericForms.LargeTextForm | vxodbc/convert.cc:2317-2401 | for precision ten and up the text is a minus if there is one, digits without leading zeros, and a dot with as many digits as the scale says; zero has one more digit |
| NumericForms.SmallTextForm | vxodbc/convert.cc:2296-2316 | below that the same, without the minus where only a zero stands in front of the dot |
| NumericForms.WrappedTextForm | vxodbc/convert.cc:2285-2316 | four bytes from 2^31 up are a negative number: the minus then stands in front of the digits behind the dot, and in front of the dot where the struct says plus |
| NumericForms.PrecExact | vxodbc/convert.cc:2271-2274 | the k-th entry of the precision table is the number of decimal digits of 256^k, no more and no less |
| HexCodec.UnhexHex | vxodbc/convert.cc:2852-2883 | decoding inverts encoding |
| HexCodec.PgBin2Hex | vxodbc/convert.cc:2816-2850 | unless it answers -1 the text is the hex of the original source bytes, even in shared memory, and no other cell changes |
| HexCodec.RefusedIff | vxodbc/convert.cc:2822-2828 | which overlaps either direction can handle; the refused ones cannot be encoded from the front, and from the back only one cell apart |
| HexCodec.PgHex2Bin | vxodbc/convert.cc:2852-2883 | for any overlap the memory is that of writing each digit in turn; with the destination apart it gets a byte for each pair of digits in front of the first NUL, also in place |
| HexCodec.ApartIff | vxodbc/convert.cc:2860-2883 | the destination is apart exactly where no digit falls on a character still to be read |
| PgBinary.BinaryRoundTrip | vxodbc/convert.cc:2685-2812 | whatever the bytes, undoubling and decoding the escaped text gives them back |
| PgBinary.ConvToOctal | vxodbc/convert.cc:2741-2778 | the digits written last one first are the octal escape of the byte |
| PgBinary.ConvertToPgBinary | vxodbc/convert.cc:2780-2812 | the buffer holds the escaped text of all the bytes; at most the cell behind it is written besides |
| PgBinary.ConvertFromPgBinary | vxodbc/convert.cc:2699-2737 | the decoded bytes and a terminator; the measuring pass gives the same length |
| ByteForms.HexForm | vxodbc/convert.cc:2815-2850 | each byte becomes two of 0123456789ABCDEF, the higher one first |
| ByteForms.HexAlphabet | vxodbc/convert.cc:2815-2850 | no other character is in the text |
| ByteForms.HexValueForm | vxodbc/convert.cc:2852-2883 | digits of either case are read |
| ByteForms.BinaryChunks | vxodbc/convert.cc:665-898 | no chunk of a binary column, however it is read in pieces, has a character other than those sixteen |
| ByteForms.CellsForm | vxodbc/convert.cc:2860-2883 | the text to decode ends at its first NUL, and no cell behind that is read |
| ByteForms.PieceForm | vxodbc/convert.cc:2780-2812 | letters, digits and the blank stay; any other byte becomes a backslash and its three octal digits, with the escape in front if there is one |
| ByteForms.WellEscapedForm | vxodbc/convert.cc:2699-2737 | what text is decoded: behind a backslash another one or three characters |
| ByteForms.OctalRead | vxodbc/convert.cc:2699-2737 | a backslash and three octal digits are read as their value cut to a byte |
| ByteForms.LinefeedForm | vxodbc/convert.cc:2505-2533 | after the conversion each line feed has a carriage return in front of it and every other byte is as often there as before; without it nothing changes |
| Delivery.OneCall | vxodbc/convert.cc:832-898 | one call takes its chunk off the front of what is left and reports how much was left |
| Delivery.ZeroCall | vxodbc/convert.cc:832-898 | a call with a buffer of size zero hands out nothing; it drops the rest in the middle of a text, starts again behind the announced end, and is harmless otherwise |
| Delivery.CallKeepsIff | vxodbc/convert.cc:832-898 | a call neither loses nor repeats anything if and only if it is not one of those two |
| Delivery.NothingLost | vxodbc/convert.cc:832-898 | at every point of a run what was delivered and what is left make up the value, if and only if no call of the run is harmful |
| Delivery.EachReports | vxodbc/convert.cc:832-866 | in a run without harmful calls each reply reports exactly how much was left before it |
| Delivery.EndIsFinal | vxodbc/convert.cc:267-283 | in such a run, at the first reply that is not a truncation everything has been delivered, and every later one is "no data" |
| Delivery.RunsEnd | vxodbc/convert.cc:832-898 | enough calls with buffers above the reserve deliver the whole value |
| Delivery.ExactEnd | vxodbc/convert.cc:832-898 | without extra slack the first complete reply is the one that empties the value |
| GetData.ConvertLinefeeds | vxodbc/convert.cc:2495-2537 | the measuring pass and the filling pass give the converted text up to where the limit stops them, and its length; no cell behind the terminator is written |
| GetData.UpToWhole | vxodbc/convert.cc:2505-2533 | without a limit, or with room for the result and its terminator, that is the whole converted text |
| GetData.TerminatorOutside | vxodbc/convert.cc:2505-2536 | with a limit at most that many characters come out, and exactly so many in just one case, where the terminator falls outside |
| GetData.LinefeedsOnce | vxodbc/convert.cc:2505-2533 | afterwards every line feed has a carriage return in front of it, and converting again changes nothing |
| GetData.LinefeedsAddOnlyReturns | vxodbc/convert.cc:2505-2533 | nothing but carriage returns in front of line feeds was added |
| GetData.GetDataClass.constructor | vxodbc/bind.cc:471-490 | a new column has no buffer and nothing begun |
| GetData.GetDataClass.Reset | vxodbc/bind.cc:553-566 | a reset column is as a new one |
| GetData.GetDataClass.PrepareChar | vxodbc/convert.cc:731-800 | the first call of a read leaves the whole converted value in the buffer, or finds that the source text serves as it is |
| GetData.GetDataClass.GetChar | vxodbc/convert.cc:665-898 | one SQL_C_CHAR call is one step of the delivery of the converted value; nothing behind the piece and its terminator is written |
| GetData.GetDataClass.GetBinary | vxodbc/convert.cc:1256-1343 | one SQL_C_BINARY call on a binary column is one step of the delivery of its bytes; nothing behind the piece is written |
| GetData.GetDataClass.ReadChars | vxodbc/convert.cc:665-898 | from a reset column, any sequence of calls is the run that the delivery laws are about |
| GetData.GetDataClass.ReadBinary | vxodbc/convert.cc:1256-1343 | the same for binary |
| Multibyte.CharStatus | vxodbc/multibyte.cc:217-360 | within a well-formed character the status is at least 2 before the last byte, below 2 on it, and 0 only on a single byte or one above ASCII |
| Multibyte.CountText | vxodbc/multibyte.cc:380-392 | the scan counts one for each character of well-formed text |
| Multibyte.MbsLen | vxodbc/multibyte.cc:380-392 | the length is the number of characters |
| Multibyte.SearchText | vxodbc/multibyte.cc:363-378 | a search for an ASCII character never finds a byte within another character |
| Multibyte.MbsChr | vxodbc/multibyte.cc:363-378 | the index is that of the first such character, or there is none |
| Multibyte.Utf8Form | vxodbc/multibyte.cc:223-242 | which first bytes begin a UTF-8 character of how many bytes |
| Multibyte.ShortForm | vxodbc/multibyte.cc:243-357 | which bytes alone, and which two, are a character in the other sets: exactly those that the scan takes for one |
| Multibyte.BrokenForm | vxodbc/multibyte.cc:291-331 | what a second first byte within a longer EUC character does |
| Multibyte.LongForm | vxodbc/multibyte.cc:291-331 | the characters of three and four bytes in the EUC sets |
| Multibyte.GB18030Form | vxodbc/multibyte.cc:332-350 | four-byte characters have digits at the second and fourth place |
| Escaping.ConvertSpecialChars | vxodbc/convert.cc:2544-2594 | the measured length is the written length, and what is written is the conversion; no cell behind the terminator is written |
| Escaping.TextConverted | vxodbc/convert.cc:2565-2590 | well-formed text is converted character by character: only whole quotes and escapes are doubled |
| Escaping.ReadsBack | vxodbc/convert.cc:2578-2585 | the doubled text, closed by a quote, reads as the text and ends at that quote |
| Escaping.OneReading | vxodbc/multibyte.cc:217-360 | well-formed bytes are characters in one way only |
| Escaping.LiteralSafe | vxodbc/convert.cc:2544-2594 | whatever characters a reader of the same set finds in the converted bytes, the literal it reads is the original text |
| Escaping.LiteralEnds | vxodbc/convert.cc:2544-2594 | for any bytes at all, the literal ends at the quote put behind them if and only if the scan ends where a quote is a character of its own |
| Escaping.QuoteAlone | vxodbc/multibyte.cc:217-360 | that is always below status 2, and in the middle of a character in UTF-8 but not in the sets of two bytes |
| Escaping.EscapeHides | vxodbc/convert.cc:2578-2585 | why an escape must be doubled: to either reader of these laws the quote behind a lone one does not end the literal |
| Escaping.AsciiForm | vxodbc/convert.cc:2565-2590 | whatever the character set, in ASCII text exactly the quotes and escapes are doubled and, with line feeds converted, exactly the carriage returns in front of line feeds dropped |
| ErrorRecords.Handle.ER_ReturnError | vxodbc/environ.cc:150-241 | one call with any 16-bit record number and any flags is the step of the specification, with the start of the record cut to 16 bits |
| ErrorRecords.StartAfter | vxodbc/environ.cc:185-192 | the record number recovered from the position is that of the same record after an empty read, of the next one otherwise |
| ErrorRecords.NextFacts | vxodbc/environ.cc:193-236 | a call returns the text at the next start, and loses some exactly when it takes some of a record but not all |
| ErrorRecords.RunFacts | vxodbc/environ.cc:148-241 | a run returns consecutive text, all of what it passed over exactly if no call loses any |
| ErrorRecords.OutsideIff | vxodbc/environ.cc:167-194 | a call would read in front of the message exactly if its record starts beyond 32767 |
| ErrorRecords.InsideUnlessLosing | vxodbc/environ.cc:185-236 | no run that loses no text does so |
| ErrorRecords.LongMessageGoesOutside | vxodbc/environ.cc:185-194 | a message of 32767 characters read with buffers of 20001, 2 and any size does |
| ErrorRecords.WholeMessage | vxodbc/environ.cc:439-458 | once the error is gone, the message was returned whole exactly once if and only if no buffer lost text |
| ErrorRecords.ThenNoData | vxodbc/environ.cc:167-168 | afterwards every call answers that there is no data |
| ErrorRecords.SteadyReading | vxodbc/environ.cc:178-184 | with a first buffer of at least two and none smaller later, the message is complete as soon as the records reach its end |
| ErrorRecords.AnyReadingEnds | vxodbc/environ.cc:148-241 | after a first buffer other than one, enough buffers of two and up end in "no data", or in front of a call that would read outside; if none lost text, with the whole message |
| ErrorRecords.SizeOneSticks | vxodbc/environ.cc:178-192 | with a first buffer of one the message never comes and never ends |
| ErrorRecords.NoFirstBuffer | vxodbc/environ.cc:178-184 | a first buffer of size zero makes records of 511 characters, and exactly enough larger buffers return the message whole |
| TableText.PrintParsed | versaplexd/vxschema.cs:183-199 | an accepted line is exactly what its element prints |
| Text.TrimForm | versaplexd/vxschema.cs:295 | from a line white space is taken off at both ends, all of it and nothing else |
| DiskForms.SpaceForm | versaplexd/vxschema.cs:295 | the six ASCII characters taken for white space |
| TableText.PrintOfParse | versaplexd/vxschema.cs:275-323 | printing what was parsed gives the text with blank lines dropped and the rest trimmed; element keys stay unique |
| TableText.TextNormalises | versaplexd/vxschema.cs:275-323 | parsing the printed table gives the same table |
| TableText.ParsedAreCanonical | versaplexd/vxschema.cs:287-321 | of elements that came from text, equal text means equal elements |
| TableText.ParsedTypes | versaplexd/vxschema.cs:295-305 | the type of an element from text ends at the first ": ", whatever it is |
| TableDiff.VxSchemaTable.AddElement | versaplexd/vxschema.cs:447-458 | list and dictionary stay in agreement; a duplicate key is noticed |
| TableDiff.VxSchemaTable.SetText | versaplexd/vxschema.cs:287-322 | the setter accepts what the parser accepts, with the same elements or the same error |
| TableDiff.VxSchemaTable.GetText | versaplexd/vxschema.cs:280-286 | the getter prints the elements in order |
| TableDiff.GetDiff | versaplexd/vxschema.cs:521-559 | the two loops list the removals in the old order and then the additions and changes in the new order |
| TableDiff.RemovalsMeaning | versaplexd/vxschema.cs:527-537 | exactly the old elements whose keys the new table lacks are removed, each once |
| TableDiff.RemovalsInOrder | versaplexd/vxschema.cs:527-537 | they come in the order of the old table |
| TableDiff.UpdatesMeaning | versaplexd/vxschema.cs:538-555 | exactly the new elements that are missing or worded differently are added or changed, each once |
| TableDiff.UpdatesInOrder | versaplexd/vxschema.cs:538-555 | they come in the order of the new table |
| TableDiff.DiffIsSound | versaplexd/vxschema.cs:517-559 | applying the difference gives the keys of the new table, with the new element wherever the text differs |
| TableDiff.DiffIsExact | versaplexd/vxschema.cs:517-559 | it gives exactly the new table if and only if elements of equal key and text are equal, as between tables that came from text |
| TableDiff.DiffIsMinimal | versaplexd/vxschema.cs:517-559 | no key appears twice, and the difference is empty if and only if the tables agree |
| Server.Database.Exec | versaplexd/vxdbschema.cs:313-324 | a statement either has its effect or fails, which needs the server to refuse it or the table not to allow it; a failure inside a transaction may undo the transaction |
| Server.Database.DbiExecRollback | versaplexd/vxdbschema.cs:330-348 | error 3903 is taken as success, any other failure is passed on; what a rollback leads back to never changes |
| TableAlter.NullableOnlyRelaxes | versaplexd/vxdbschema.cs:500-510 | the nullable form of a column differs in nothing but a stated nullity |
| TableAlter.SortedIsPlan | versaplexd/vxdbschema.cs:653-686 | for elements of any type, the five lists are, in terms of the two tables, what is to be added, dropped, changed and rebuilt |
| TableAlter.DropTableColumn | versaplexd/vxdbschema.cs:512-528 | with its default constraint first, the column alone is gone |
| TableAlter.ApplyChangedColumn | versaplexd/vxdbschema.cs:530-641 | the column becomes what was asked for, nullable only after error 515 without leave to destroy, or is refused; nothing else changes; an error is that of the last statement, which was one on this column; it is dropped and added again only with leave and only where altering is expected to fail, and is then not altered |
| TableAlter.TrialRuns | versaplexd/vxdbschema.cs:751-782 | the trial runs leave no trace in the table, even when the server rolled back by itself; the error noted for a column is that of one of its own statements, and 515 only if its nulls were the reason; where none is noted no statement on the column failed |
| TableAlter.AddColumns | versaplexd/vxdbschema.cs:785-823 | the new columns are there beside the old ones, each relaxed only if its own statement got error 4901 and there was no leave to destroy; that error is final only for a nullable form |
| TableAlter.Prepare | versaplexd/vxdbschema.cs:718-823 | in front of the transaction the indexes go, the trials leave no trace and the new columns come; a failure is that of the last statement, and with a server that refuses nothing there is none |
| TableAlter.UpdateInTransaction | versaplexd/vxdbschema.cs:825-862 | either the plan was carried out and committed, or a rollback still leads back to the table as it was and the error is that of the statement that failed, or names a column that may not be dropped and added again |
| TableAlter.Undo | versaplexd/vxdbschema.cs:870-900 | if every statement of the undo works, the table is the one before the first index was dropped; what is reported is each index that could not be made again, or that the rollback itself failed |
| TableAlter.MergedIsApplied | versaplexd/vxschema.cs:517-559 | the merged table is what applying the difference to the old one gives, and is the new table if and only if elements of equal key and text are equal |
| TableAlter.DoneDescribes | versaplexd/vxdbschema.cs:643-900 | a plan carried out leaves the elements of the merged table, up to the columns that may be made nullable |
| TableAlter.MakePlan | versaplexd/vxdbschema.cs:651-686 | difference and sorting together give the five lists of what the two tables call for |
| TableAlter.PutSchemaTable | versaplexd/vxdbschema.cs:643-944 | for any current table and a new one with elements of any type, all or nothing from BEGIN TRANSACTION on: the new table, in which only columns whose own statement the server refused with 515 or 4901 may be more nullable than asked for, and none if destruction was allowed, with the columns outside the difference exact; or the undo was tried and, if it worked, the table is unchanged; a table is not touched when it would lose a column without leave, and the columns it would lose are named. What the table has is stated by the parameters of its elements, not by the statements asked for; every other error reported is that of the statement that failed, or of the trial that failed before. No column of the old table is dropped without leave, and with it only one that the new table lacks or on which a statement had failed. If the server refuses nothing, a new table of columns, indexes and keys is committed if and only if no column would be lost without leave and no two of its indexes have one name, and otherwise the table is unchanged |
| TableAlter.DescribesFulfils | versaplexd/vxschema.cs:341-413 | a table as described has every column with the type, size, default, nullity and identity that its parameters name, apart from columns that may be relaxed, and every index with its columns in order |
| TableForms.FirstParam | versaplexd/vxschema.cs:157-165 | the first parameter of a name counts, and without one the answer is empty |
| TableForms.AllParams | versaplexd/vxschema.cs:167-176 | all parameters of a name are listed in order |
| TableForms.KeyForm | versaplexd/vxschema.cs:201-209 | the key is the type and the name, of a primary key the type alone |
| TableForms.ColumnBack | versaplexd/vxschema.cs:460-484 | for every column of the server, asking for the element that AddColumn makes of it gives back that column |
| TableForms.IndexBack | versaplexd/vxschema.cs:486-501 | for every index, asking for the element of AddIndex gives back that index under its name |
| TableForms.PrimaryKeyBack | versaplexd/vxschema.cs:503-519 | so for every primary key, whose default name is left out and put back |
| PutRetry.VxDbSchema.PutEach | versaplexd/vxdbschema.cs:404-469 | the keys are put in order, and the errors are those that failed |
| PutRetry.VxDbSchema.Put | versaplexd/vxdbschema.cs:84-131 | the loop is the rounds of the specification |
| PutRetry.RoundsBound | versaplexd/vxdbschema.cs:93-129 | at most one round more than there are elements |
| PutRetry.PutErrorsTried | versaplexd/vxdbschema.cs:112-128 | the errors of every round, and so the final ones, are among the keys tried |
| PutRetry.BuildableStep | versaplexd/vxdbschema.cs:93-130 | an element can be built if and only if each of its dependencies is there or can itself be built |
| PutRetry.FinalErrors | versaplexd/vxdbschema.cs:84-131 | for any dependencies and any order: nothing that can be built on what no failed put can take away is among the final errors, everything that cannot be built on what was there is, and the errors are exactly the latter if nothing was there that can be lost |
| PutRetry.Converges | versaplexd/vxdbschema.cs:93-130 | so if an element's put works exactly when its dependencies are there and these have no cycle, no errors remain, whatever the order of the keys |
| PutRetry.CycleFails | versaplexd/vxdbschema.cs:93-130 | elements that are missing and need each other are all among the final errors |
| CopySchema.VxSchemaDiff | versaplexd/vxschemadiff.cs:26-48 | the loop computes the difference of two checksum maps |
| CopySchema.Backend.DropSchema | versaplexd/vxdbschema.cs:272-283 | no key but those given is touched, those without error are gone, and an error is reported for every key whose drop failed, with the message of a failed operation on it |
| CopySchema.CopySchema | versaplexd/vxschema.cs:673-763 | an empty source or a dry run changes nothing; otherwise exactly the keys of the difference are dropped or put, and apart from errors each of them is as in the source afterwards, or gone if it is not there or has an empty text; every error is that of a failed operation on its key |
| CopySchema.ErrorsApart | versaplexd/vxschema.cs:758-760 | drop errors and put errors never share a key |
| CopySchema.LeftOver | versaplexd/vxschema.cs:664-763 | a key without error is still in the difference after a copy if and only if it was put and its text is empty |
| CopySchema.Converged | versaplexd/vxschema.cs:664-763 | after a copy without errors the checksums are equal, and a second copy finds nothing to do, if and only if nothing with an empty text was put |
| CopySchema.EmptyTextNeverSettles | versaplexd/ischemabackend.cs:13-15 | an element with an empty text that one copy put without error is put again by every later copy |
| Checksums.SumsRoundTrip | versaplexd/vxschemachecksums.cs:73-79 | a list of 64-bit sums read from its text, with or without a space behind it, is that list |
| Checksums.GetSumString | versaplexd/vxschemachecksums.cs:73-79 | the loop writes the text of the specification |
| Checksums.ParseSumString | versaplexd/vxschemachecksums.cs:138-174 | the loop keeps the parts that can be read and passes over the others |
| Checksums.Equals | versaplexd/vxschemachecksums.cs:91-117 | true exactly for the same key and the same sums in the same order |
| Checksums.VxSchemaChecksums.AddSum | versaplexd/vxschemachecksums.cs:219-232 | the list under the key is that of all sums added so far; no other key changes |
| Checksums.OrderDoesNotMatter | versaplexd/vxschemachecksums.cs:54-71 | for a table the stored list does not depend on the order of the additions |
| Checksums.OrderKept | versaplexd/vxschemachecksums.cs:54-71 | for anything else it is the order of the additions |
| Checksums.TableKeys | versaplexd/vxschemachecksums.cs:54-71 | under "Table/" and any name the list rises, has just the sums added, and does not depend on their order |
| Checksums.OtherKeys | versaplexd/vxschemachecksums.cs:54-71 | under any other kind, or without a slash, it is the sums as they were added |
| Checksums.SumTextForm | versaplexd/vxschemachecksums.cs:73-79 | a sum is written with 0x and at least eight digits in lower case, and no zero in front of more |
| Checksums.DigitForm | versaplexd/vxschemachecksums.cs:73-79 | the sixteen digits as they are written, and read in either case |
| Checksums.NoDigit | versaplexd/vxschemachecksums.cs:152-163 | no other character is a digit |
| Checksums.ParseSumForm | versaplexd/vxschemachecksums.cs:152-163 | digits are read with or without 0x in front of them, in either case, exactly up to 64 bits |
| DiskSchema.ReadSchemaFile | versaplexd/vxdiskschema.cs:530-596 | the scan and the parsing of the header give what the file holds |
| DiskSchema.Containers.AddFromFile | versaplexd/vxdiskschema.cs:602-622 | a key that is there already is refused before anything changes; no other key is touched |
| DiskSchema.CreateSettles | versaplexd/vxschema.cs:54-67 | creating an element from the text of a created one gives it again |
| DiskSchema.WrittenIsRead | versaplexd/vxschema.cs:110-119 | reading what was written for an element gives that element and the same checksums |
| DiskSchema.ChangedBodyHasNoSums | versaplexd/vxdiskschema.cs:578-595 | a body whose digest differs reads with no checksums, and so is unlike any element that has some |
| DiskSchema.SumsNeedDigest | versaplexd/vxdiskschema.cs:562-592 | in any file, checksums are believed only when the header has the digest of the body |
| DiskForms.SumStringForm | versaplexd/vxschemachecksums.cs:73-79 | the sums stand in their order with one blank between any two |
| DiskForms.FileForm | versaplexd/vxschema.cs:110-119 | a file is the mark, the digest, the sums, a line end and the text |
| DiskForms.FieldsForm | versaplexd/vxdiskschema.cs:562-568 | the header is read up to its first blank, its second blank and its end |
| DiskForms.LowerForm | versaplexd/vxdiskschema.cs:574-583 | of the digest in the header the case of the twenty-six letters does not count |
| DiskForms.OtherLower | versaplexd/vxdiskschema.cs:574-583 | every other character does |
| DiskForms.CreateForm | versaplexd/vxschema.cs:54-67 | a table whose text can be parsed becomes a table, anything else keeps its text; a duplicate entry is an error |
| Tokenizer.VxSqlTokenizer.TokenizeQuery | versaplexd/vxsqltokenizer.cs:221-400 | the loop is the run of the state machine, with the end and the left-over spaces handled |
| Tokenizer.StepText | versaplexd/vxsqltokenizer.cs:228-387 | one turn adds to the text of the tokens just what it reads |
| Tokenizer.Lossless | versaplexd/vxsqltokenizer.cs:65-81 | the tokens put together are the query, but for an exponent sign in lower case and the mark that closes what was left open |
| Tokenizer.TokensShaped | versaplexd/vxsqltokenizer.cs:155-400 | every token is what its kind says: words of identifier characters, key words exactly those on the list, quotes that pair up inside strings, no closing mark inside brackets and comments, single marks of the right kind, and only white space between |
| Tokenizer.Retokenize | versaplexd/vxsqltokenizer.cs:221-400 | tokenizing that rendering gives the same tokens |
| Rereading.TokensLegit | versaplexd/vxsqltokenizer.cs:221-400 | every token of a query is read as itself if the right character follows |
| Rereading.TokenRead | versaplexd/vxsqltokenizer.cs:228-387 | from the text it begins, a token is read exactly if it stops there, and otherwise never |
| Rereading.ReadBackIff | versaplexd/vxsqltokenizer.cs:221-400 | the text of any list of such tokens is read as the same tokens if and only if each stops where the next one begins |
| Rereading.ReadBack | versaplexd/vxsqltokenizer.cs:221-400 | with all spaces in front of tokens, it is then read as exactly that list |
| TokenForms.MarkForm | versaplexd/vxsqltokenizer.cs:172-206 | which character is a token of its own and of which kind |
| TokenForms.WordForm | versaplexd/vxsqltokenizer.cs:228-387 | any word of letters, digits and signs is one token, a key word exactly if it is on the list in upper case |
| TokenForms.NumberForm | versaplexd/vxsqltokenizer.cs:228-387 | digits and dots that begin with a digit are one number |
| TokenForms.ExponentForm | versaplexd/vxsqltokenizer.cs:228-387 | with e and digits behind them, signed or not, they are one number too |
| Restriction.CheckTokens | versaplexd/vxapi.cs:195-305 | the loop over the flags accepts what the machine of the specification accepts |
| Restriction.Level2 | versaplexd/vxapi.cs:211-305 | at level 2 a query passes if and only if, comments aside, every command on the list is SELECT and no BEGIN stands in front of TRANSACTION or DISTRIBUTED |
| Restriction.Level2Reads | versaplexd/vxapi.cs:69-95 | whatever only reads passes level 2; what passes only reads if and only if it has neither BEGIN TRAN nor an unlisted command in it |
| Restriction.UnlistedUnseen | versaplexd/vxapi.cs:69-95 | at every level TRAN and the unlisted commands are like any other word to the check |
| Restriction.TranPasses | versaplexd/vxapi.cs:216-228 | BEGIN TRAN passes level 2, and so does each unlisted command alone |
| Restriction.Level1 | versaplexd/vxapi.cs:211-305 | at level 1 a query passes if and only if every later command on the list is SELECT or the matching continuation of the first |
| Restriction.AtMostTwo | versaplexd/vxapi.cs:275-304 | of the commands on the list that are not SELECT there are at most two, the second a continuation of the first |
| Restriction.ExecuteRefused | versaplexd/vxapi.cs:240-252 | EXECUTE behind an earlier command is never let through, not even as the end of an INSERT |
| Restriction.DottedTableRefused | versaplexd/vxapi.cs:269-273 | the SET of an ALTER TABLE is refused when the name has a dot in it |
| QueryForms.SymForm | versaplexd/vxapi.cs:69-95 | a token counts as a command exactly if it is a key word whose name in lower case is one of the thirty-six written out |
| QueryForms.UnseenForm | versaplexd/vxapi.cs:69-95 | the names that the check does not know |
| QueryForms.Level2Form | versaplexd/vxapi.cs:211-305 | at level 2 tokens of any number pass if and only if, comments aside, no key word but select is one of those names and begin never stands in front of transaction or distributed |
| QueryForms.Level1Form | versaplexd/vxapi.cs:211-305 | at level 1 they pass if and only if each such word behind the first is select or a continuation of the first, all with the words written out |
| QueryParser.MakePattern | versaplexd/vxapi.cs:145-153 | the loop builds the pattern: a character behind a backslash stands for itself |
| QueryParser.Rewrite | versaplexd/vxapi.cs:104-193 | the loop gives the tokens of the query with get object, list and use replaced by the tokens of their texts |
| QueryParser.QueryParser | versaplexd/vxapi.cs:98-308 | tokenizing, rewriting, checking and joining give the specified text, or refuse |
| QueryParser.RewrittenIff | versaplexd/vxapi.cs:104-193 | for every query the rewritten text is read as the rewritten tokens if and only if no replacement runs into what is around it |
| QueryParser.CheckedIsHandedOn | versaplexd/vxapi.cs:98-308 | every query is handed on if and only if its rewritten tokens keep the restrictions of its level; if no replacement runs into what is around it, what is handed on is read as the tokens that were checked, so keeps the restrictions too |
| QueryParser.UnchangedIsHandedOn | versaplexd/vxapi.cs:98-308 | a query in which nothing is replaced is handed on as it is, up to exponent signs and a closing mark, if and only if it keeps the restrictions, and would be again |
| QueryForms.HandedOnForm | versaplexd/vxapi.cs:98-308 | every query is handed on if and only if the words of its rewriting keep to its level in those terms |
| QueryForms.StatementForm | versaplexd/vxapi.cs:109-185 | which words are taken for a statement of the daemon, and which of them is the kind and which the name |
| QueryForms.TextForm | versaplexd/vxapi.cs:118-125 | the text sent for get object, with the kind and the name in their places |
| QueryForms.ShortTextForm | versaplexd/vxapi.cs:128-140 | what is sent for use and list tables |
| QueryForms.ColumnsTextForm | versaplexd/vxapi.cs:141-157 | what is sent for list columns |
| QueryForms.AllTablesTextForm | versaplexd/vxapi.cs:158-170 | what is sent for list all table |
| QueryForms.AllTextForm | versaplexd/vxapi.cs:172-183 | what is sent for list all of another kind |
| QueryExample.RunsIntoComment | versaplexd/vxapi.cs:143-160 | a query with list columns behind a line comment passes level 1, and what is handed on does not keep to it |
| Parens.StripMatchingParens | versaplexd/vxdbschema.cs:1374-1419 | the loops compute the specified result, or fail where it does not exist |
| Parens.StripShape | versaplexd/vxdbschema.cs:1414-1418 | the string is the result with k parentheses at either end |
| Parens.StripBalanced | versaplexd/vxdbschema.cs:1396-1418 | the result is balanced, quotes respected, if and only if the string was |
| Parens.StrippedMatch | versaplexd/vxdbschema.cs:1396-1418 | where anything is stripped, all of it are matching pairs if and only if the string is balanced |
| Parens.StripMaximal | versaplexd/vxdbschema.cs:1396-1418 | no balanced string has more parentheses around it than are stripped |
| Parens.StripIdempotent | versaplexd/vxdbschema.cs:1374-1419 | stripping a balanced string twice is stripping it once |
| Parens.StripThrows | versaplexd/vxdbschema.cs:1400-1418 | there is no result exactly when the inside closes more than was opened |

## Left out

Of members above:

- NumericRoundTrip: where a failing branch of the source reads or writes outside an array, or multiplies beyond 32 bits, the model ends with an outcome that says so; what the program does from there is not modelled.
- ConvertToNumeric: of a text that overruns the digit buffer, only that it does.
- ConvertLinefeeds: a limit of zero is no limit at all, where the source has one of four gigabytes; the caller gives a buffer in which the result and its terminator fit, and `TerminatorOutside` says when a limit of the length of the buffer does not see to that.
- PutSchemaTable: the current table is taken to be one read from the server, with columns, indexes and primary keys only. Of a failure before BEGIN TRANSACTION TableUpdate only that a statement failed, and with which error: the code has no undo there. The check for nulls afterwards only reads the table and adds warnings, and is not modelled, and neither is the wording or sorting of messages.
- Database: SQL text is replaced by abstract statements, and which of them the server refuses is arbitrary; names are compared exactly. A statement that names a default constraint names its column.
- Put: what one put does to the database is a parameter; that drop and create are two statements shows only in that a failed put may lose the element. For the laws about the final errors a put works exactly if its dependencies are there.
- CopySchema: a destination is taken to report, for an element put without error, the checksums that came with it; elements are not encrypted, so that the keys of `Get` are those of the checksums; the order in which the keys of the difference are dropped and put (`SchemaTypeComparer`) is not modelled: drops are tried once and in that order, but which of them fail is arbitrary here, so the results hold for any order.
- Level1: tells key words apart by a lower-casing function that is a parameter.
- ReadBackIff: asks of the character tests that no digit is one of `e`, `E`, `/`, `-`, that the NUL seen at the end is no identifier character, and that a line end is a blank.
- Lossless: the tests for letters, digits and spaces and the list of key words are parameters.
- TokensShaped: asks that the NUL seen at the end of the query is no identifier character.
- Retokenize: asks that `e` and `E` are alike to the tests for letters and digits.
- ER_ReturnError: the SQL state and native error are handed through unchanged and are not modelled, nor are null pointers for the results and negative buffer sizes, which the callers refuse; messages are at most 32767 characters, as the 16-bit lengths require. Of a call that reads in front of the message the model says only that it does.
- LiteralSafe: for the character sets in the model; JOHAB is left out, because its lead bytes are not those the scan tests for, and MULE_INTERNAL and OTHER are scanned like single bytes.
- ReadSchemaFile: works on characters, with UTF-8 and MD5 replaced by the identity and an arbitrary function. White space and upper-case letters are those of ASCII.
- SumsRoundTrip: of letters only the ASCII ones are put in lower case.

Of the repository:

- Text read as SQL_C_BINARY in chunks, SQL_C_WCHAR (its converters are not part of this model), and the locale rewriting of floats.
- `extend_getdata_info`: copying and resetting an array of columns; it would only add easy members.
- Drop-and-recreate of a table in destructive mode after its alteration failed, and the queries behind `Get` and `GetChecksums`.
- Hidden and backup files, directories, exported data files and the procedure parser.
- The D-Bus transport, the connection pool, catalog functions, dialogs, logging and the graphical client.
