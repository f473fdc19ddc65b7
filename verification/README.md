# SQL Server transport: a model and its proofs

This project models the TDS 7.4 client and server of the SQL Server transport and proves that
they understand each other. It has four layers, each a small specification over byte sequences
with the imperative form proved against it.

- **Framing** (`Wire`, `Framing`): a message split over packets behind eight-byte headers, and
  read back off a byte stream.
- **Tokens and values** (`Column`, `Values`, `Token`, `Streams`, `Runs`, `NullRows`, `Text`,
  `TextLaws`): the token stream, where a row can only be read by the columns declared before it,
  and the cells in it.
- **Offset tables** (`Login`, `LoginTable`, `LoginWire`, `Prelogin`, `PreloginTable`,
  `PreloginWire`, `Batch`, `Tiling`): the login, the pre-login and the batch.
- **The conversation** (`Client`, `Session`, `Exchange`, `Outcomes`, `Sizes`, `Conversation`,
  `Meetings`, `Contracts`): the two parties, and every run of them over two byte channels that
  deliver in any pieces.

A specification parser gives a value and what is left, or `Bad`; a cursor method is proved to follow
one (`Cursors.Follows`). What the specifications themselves say is pinned down from outside:
`Layouts` tells what is written byte by byte, `Readings`, `TokenReadings`, `LoginWire`,
`PreloginWire` and `TextLaws` what any bytes or texts read as, and `Outcomes` what tokens, verbs and
packet types come to, with every code, width, filler and text given literally. `Wrappers`, `Bytes`
(with `Parsing`), `Bits`, `Cursors` and `Dialect` hold what the layers share. `dafny verify
dfyconfig.toml` checks the whole.

What other crates decide is modelled as follows. The SQL library's binary literal, verb detection
and INSERT parsing, and the session's answering closure, are function values the theorems quantify
over; where a theorem about binary columns needs the literal to be read back as the bytes it was
written for, it says so (`Values.Invertible`), and the conversation needs nothing of it. The
answering closure may depend on every batch it was asked before. The ceiling on a message,
`net::MAX_BODY`, is a parameter and is inclusive. Text is a sequence of Unicode scalar values;
UTF-16 is that of RFC 2781 (sections 2.1 and 2.2) and UTF-8 that of RFC 3629 (section 3); a lossy
reading puts U+FFFD for each unpaired surrogate and for each maximal part that is not UTF-8, and
neither reading treats a byte order mark apart. A reader is a byte sequence whose end is the peer's
close, and `usize` is taken to be 64 bits wide.

Where the code does not give back what it was given, the exact condition is proved beside the
round trip: counted names (`Wire.CutIsExact`), cells (`Values.ValueBackExactly` and
`Values.NormalExactly`), tokens (`Runs.PlainExactly`), nulls in fixed-width columns
(`NullRows.FormsAgree`), oversized bodies and counts (`Streams.BodyBackExactly`,
`Streams.MetadataBackExactly`), and instance names (`PreloginTable.PreloginBackExactly`).

## Model

| member | source | states |
|---|---|---|
| Meetings.QueriesAnswered | src/client.rs:114-138 | In every state of every run of client and session over two byte channels, however the bytes are cut up on the way: the k-th query came back with what the service itself makes of it (the answering function's answer; else its own columns, rows and count for a SELECT, 1 or error 102 for an INSERT, 0 for the rest), none is missing but the one under way, and between queries both channels are empty. |
| Meetings.EventsInOrder | src/session.rs:218-243 | In every such state the session has been asked what the client sent, in order and all but perhaps the last, and reports each batch as what the service makes of it: selected, inserted with its origin and what was stored, or executed; it ends only after the client hung up. |
| Outcomes.AnswerHolds | src/session.rs:245-276 | What a batch is answered with and reported as, by its verb and by whether the answering function or the INSERT parser says anything: each case told from the service's own fields. |
| Meetings.LoginDecides | src/session.rs:90-157 | Once the login is decided: the client is in exactly when no login is expected or its own equals it; then the session holds exactly the login it sent; otherwise both sides have failed, the client with error 18456 and its text, which is not retryable. |
| Meetings.NobodyBreaks | src/wire.rs:110-157 | Whatever the run, no party ever meets bytes that cannot become a message and breaks off. |
| Meetings.NeverStuck | src/client.rs:164-173 | Until a conversation is over some action other than a new query can be taken. |
| Meetings.StepsNear | src/session.rs:218-231 | Every action but a new query brings what is under way strictly nearer its end. |
| Meetings.LoginComes | src/client.rs:47-96 | Every run that leaves a login undecided can be continued, without a query, to its decision: down where it is refused, up and idle where not. |
| Meetings.EndlessDecides | src/session.rs:90-157 | Every run without end decides its login, in whatever order its steps are taken. |
| Meetings.AnswerComes | src/client.rs:114-138 | Every run that leaves a query under way can be continued, without another query, to a state with one more outcome, that of the query's own answer. |
| Meetings.EndlessAnswers | src/client.rs:114-138 | Every run without end answers each query it asks, in whatever order its steps are taken. |
| Meetings.EndlessAsks | src/session.rs:237-243 | No run goes on for ever without asking again. |
| Meetings.StepKeeps | src/session.rs:218-231 | Each action of either party or of the network keeps the conversation's invariant: at most one message is under way, and it is the one the stages call for. |
| Meetings.RunKeeps | src/session.rs:233-243 | The invariant holds after every run. |
| Meetings.OneMessage | src/wire.rs:110-157 | Whatever part of a written message has arrived, a read either gets the whole of it or still waits; it never gets a part or anything else. |
| Contracts.AcceptMeets | src/session.rs:90-157 | Accepting a client that sent its pre-login and login answers both, serves it exactly when it is not refused, and touches nothing sent behind them. |
| Contracts.ConnectMeets | src/client.rs:47-96 | Connecting to what such a session writes sends exactly what it accepts, and settles the packet size and program or fails with its error. |
| Contracts.ConnectIsTwoSteps | src/client.rs:47-96 | A whole connection against any bytes is the client's two steps of a conversation: the same bytes sent, the same outcome, the same rest. |
| Contracts.BatchMeets | src/session.rs:218-231 | A session that reads one batch reports it, writes its answer, and leaves what follows unread. |
| Contracts.QueryMeets | src/client.rs:114-138 | Reading a session's answer gives what the session answered and leaves what follows unread. |
| Contracts.ServeMeets | src/session.rs:233-243 | Serving any list of batches, in packets of any size, reports each and answers each, in order, until the close. |
| Exchange.AnswerComesAcross | src/session.rs:278-305 | The tokens of every answer read back as it: columns, rows and count; the count alone; or the error with its number and text. Long names come cut at 255 code units, wide rows cut at their columns. |
| Exchange.TableKeptExactly | src/session.rs:278-295 | A table comes across as it is exactly when no name has more than 255 code units and no row more cells than columns. |
| Exchange.WelcomeComesAcross | src/client.rs:71-95 | The tokens of an accepted login settle packet size 4096 and the server's program name. |
| Exchange.RefusalComesAcross | src/session.rs:122-132 | The tokens of a refused login read as error 18456 with the user's name in its text. |
| Sizes.NotesFitExactly | src/session.rs:122-144 | The tokens of a refusal fit their length fields exactly up to 32735 code units of user, and those of a welcome exactly up to 32729 of database. |
| Sizes.LoginSizeIs | src/client.rs:47-69 | The length of the login a client sends, from the code units of its user, password and database. |
| Sizes.WelcomeSizeIs | src/session.rs:134-156 | The length of the tokens of an accepted login, from the code units of its database. |
| Meetings.FitsExactly | src/login.rs:95-101 | The limits the theorems put on a login, in code units, are exactly those under which its table's u16s can say every offset and count, the tokens answering it fit their length fields, and each message is within the ceiling. |
| Sizes.AddressableExactly | src/login.rs:95-101 | The table of a login a client sends saturates nowhere exactly when its database begins within 65535 bytes and has at most 65535 code units. |
| Client.LoginOutcomeExactly | src/client.rs:71-95 | A login succeeds exactly when its tokens read to the end with an acknowledgement and no error, and settles a packet size within 512 and 32767. |
| Outcomes.TermsExactly | src/client.rs:74-85 | The packet size settled is the last one an ENVCHANGE of kind 4 newly names, as a u16, kept within 512 and 32767, or 4096; the program is the last acknowledgement's. |
| Outcomes.LoginFailsExactly | src/client.rs:71-95 | A login fails with its first error; with none, at a break; with neither, unacknowledged. |
| Outcomes.LoginSentExactly | src/client.rs:61-69 | To a server that answers with a pre-login, more than the opening is sent exactly when the encryption read is 0 or 2, and then it is the login; else the call fails for the encryption. |
| Outcomes.NothingSent | src/client.rs:61-69 | To anything else first, nothing but the opening is sent and the call fails. |
| Outcomes.OnlyAnswersCount | src/client.rs:165-173 | A message of any type but 4 answers neither a login nor a batch. |
| Client.QueryOutcomeExactly | src/client.rs:117-137 | A batch has a result exactly when its tokens read to the end without an error: all rows, the last metadata's names, the last counting token's count; an error is the last one. |
| Outcomes.CountExactly | src/client.rs:127-132 | The count is that of the last DONE, DONEPROC or DONEINPROC whose status has the bit worth 16, whatever other bits it has, and 0 where none has it. |
| Outcomes.NamesExactly | src/client.rs:122-124 | The names are the last metadata's, or none. |
| Outcomes.RowsOfOne | src/client.rs:125 | One token gives one row where it is a row and none where not. |
| Outcomes.BatchFailsExactly | src/client.rs:117-137 | A batch fails with its last error where its tokens read to the end, and as a protocol error where they break off. |
| Client.RowsOfConcat | src/client.rs:125 | Rows come in token order across result sets. |
| Client.LastWhere | src/client.rs:117-137 | Finds the last token of a kind: it is of the kind and none after it is. |
| Client.FirstWhere | src/client.rs:88 | Finds the first token of a kind: it is of the kind and none before it is. |
| Client.Client.Connect | src/client.rs:47-96 | Sends and outcome of a whole login against any bytes the server sends, the fields set as its tokens settle. |
| Client.Client.Settle | src/client.rs:71-95 | The token loop of a login sets program and packet size as the declarative reading says, up to the first error. |
| Client.Client.Query | src/client.rs:114-138 | Writes the batch in packets of the settled size and returns the outcome of the answer's tokens. |
| Client.Client.Collect | src/client.rs:117-137 | The token loop of a query computes the declarative outcome for any payload. |
| Client.Client.Execute | src/client.rs:144-146 | The count of the query's result, or its failure. |
| Client.Client.Read | src/client.rs:165-173 | The body of the next message where it is a token stream's, an error for any other type or a close. |
| Session.RefusesExactly | src/session.rs:114-121 | A login is refused exactly when one is expected and user or password differ from it. |
| Outcomes.OnlyTheDueCounts | src/session.rs:316-324 | A message of any type but the one due (0x12, then 0x10, then 0x01) breaks a session, which sends nothing. |
| Outcomes.UnreadableBreaks | src/session.rs:218-231 | So does one of the due type that does not read as what is due. |
| Outcomes.RefusedBreaks | src/session.rs:218-231 | So does one that is cut or over the ceiling; a close ends a session that serves and breaks any other. |
| Session.Session.Accept | src/session.rs:90-157 | Bytes written and result of accepting any bytes a client sends; the login is held on success; a refusal is written before it fails. |
| Session.Session.Greet | src/session.rs:107-112 | The pre-login is answered exactly when it is one. |
| Session.Session.NextEvent | src/session.rs:218-231 | One batch answered and reported, none at the close, an error for any other packet type or what is not a batch. |
| Session.Session.Serve | src/session.rs:237-243 | The loop's events and bytes are those of answering batch after batch to the close, or an error at the first break. |
| Session.Session.Read | src/session.rs:316-324 | The next message's body where its type is the one due. |
| Framing.AcceptsExactly | src/wire.rs:110-157 | A message (k, p) is read, leaving r, exactly when the bytes are packets of one valid type k, each 8 to 32767 long, only the last marked, within the ceiling, their bodies joining to p, followed by r. |
| Framing.MessageLocal | src/wire.rs:110-157 | A message is read off the bytes it consumes alone, whatever follows. |
| Framing.PrefixRefused | src/wire.rs:114-126 | A strict prefix of anything read as a message is refused, but for the empty one, which is a close. |
| Framing.CutMessageRefused | src/wire.rs:56-71 | The same of every written message at every packet size: no truncation reads as a shorter message. |
| Framing.MessageBack | src/wire.rs:56-71 | A written message is read back whole at any packet size and ceiling it fits, and what follows is untouched. |
| Framing.StreamBack | src/wire.rs:110-157 | Any messages, each at its own packet size, are read back in order, then the close. |
| Framing.WrittenAs | src/wire.rs:56-71 | The packets written carry the payload in order, are numbered modulo 256, are all of the clamped size but the last, and only the last is marked. |
| Layouts.OnePacket | src/wire.rs:56-84 | A message that fits one packet, byte by byte. |
| Layouts.TypesUsed | src/wire.rs:16-30 | A login goes as type 0x10, a batch as 0x01, an answer as 0x04 in packets of 4096. |
| Framing.MessageShrinks | src/wire.rs:113-156 | Every message read takes at least a header and its payload stays within the ceiling. |
| Wire.Packets | src/wire.rs:56-71 | The loop over chunks writes the message the specification gives. |
| Wire.ReceiveMessage | src/wire.rs:110-157 | The loop over headers and bodies delivers what the specification says of the bytes ahead, for any bytes. |
| Wire.BVarcharBack | src/wire.rs:188-191 | A byte-counted string reads back cut at 255 code units, before any suffix. |
| Wire.UsVarcharBack | src/wire.rs:193-196 | A u16-counted string reads back cut at 65535 code units, before any suffix. |
| Wire.CutIsExact | src/wire.rs:224-229 | The cut leaves a text as it was exactly when its code units are no more than the count can say. |
| Wire.ReadBVarchar | src/wire.rs:188-191 | The cursor form reads what the specification reads. |
| Wire.ReadUsVarchar | src/wire.rs:193-196 | The cursor form reads what the specification reads. |
| Streams.TokenBack | src/token.rs:118-173 | Every token the format can carry is read back as its normal form, off its own bytes, before any suffix, and leaves the reader with the writer's columns. |
| Streams.CellsBack | src/token.rs:280-286 | A row is read back by columns of the same types. |
| Streams.NoteBack | src/token.rs:188-211 | An ERROR or INFO body is read back, its names cut at their counts. |
| Streams.MetadataBackExactly | src/token.rs:267-279 | Column metadata is read back exactly when there are fewer than 65535 columns. |
| Streams.BodyBackExactly | src/token.rs:175-179 | A length-carrying body is read back whole exactly when it is at most 65535 bytes. |
| Layouts.FixedTokensAre | src/token.rs:181-186 | DONE, DONEPROC, DONEINPROC and RETURNSTATUS byte by byte. |
| Layouts.BodyTokensAre | src/token.rs:188-211 | ENVCHANGE, LOGINACK, INFO and ERROR byte by byte, fillers included. |
| Layouts.CountedIs | src/wire.rs:211-229 | A text within its count is written as its code units behind the number of them. |
| Layouts.ColumnIs | src/token.rs:136-150 | A column and its metadata byte by byte; no columns as a count of 65535. |
| Layouts.WelcomeReadsAs | src/session.rs:134-156 | The five tokens an accepted login is read as. |
| Layouts.RefusalReadsAs | src/session.rs:122-132 | The two tokens a refused login is read as. |
| Layouts.TableReadsAs | src/session.rs:278-295 | A table is read as NVARCHAR(MAX) columns, its rows and a DONE with the counting bit and the number of rows. |
| Layouts.OthersReadAs | src/session.rs:296-306 | A count is read as a counting DONE, an error as itself with severity 16, then a DONE that says so. |
| Runs.TokensBack | src/token.rs:241-324 | Reading a written token list to its end gives every token's normal form, the columns in step throughout, and reaches the end. |
| Runs.PlainExactly | src/token.rs:241-324 | A token comes back as it went exactly when its names fit, its cells are canonical and its ENVCHANGE kind carries strings. |
| Runs.PlainTokensExactly | src/token.rs:118-173 | The same of whole token lists, each row judged by the metadata before it. |
| Runs.PlainRoundTrip | src/token.rs:241-324 | A plain token list is read back as it is, the reader ending with the writer's columns. |
| Runs.NextTokenLocal | src/token.rs:241-330 | A token depends only on the bytes it consumes: the same whatever follows, for arbitrary bytes. |
| Runs.TokenCutRefused | src/token.rs:241-330 | A token cut anywhere after its first byte is refused. |
| Runs.CutStreamIsPrefix | src/token.rs:241-324 | Any stream cut anywhere yields a prefix of the tokens of the whole. |
| Runs.TokensBounded | src/token.rs:241-324 | A body of n bytes gives at most n tokens. |
| NullRows.NullRowBack | src/token.rs:287-298 | A null-bitmap row, under any bitmap that marks its nulls, reads as the row it stands for. |
| NullRows.NullRowKept | src/token.rs:287-298 | With canonical cells it reads as exactly that row, nulls of fixed-width columns included. |
| NullRows.FormsAgree | src/token.rs:280-298 | The ROW and the NBCROW of a row read as the same token exactly when no null of it stands in a fixed-width column. |
| NullRows.BitmapMarks | src/token.rs:288-292 | Every row has a bitmap of ceil(n/8) bytes with bit i set exactly where cell i is null. |
| Token.EncodeTokens | src/token.rs:118-173 | The loop over tokens, carrying the columns along, writes what the specification gives. |
| TokenReadings.DoneRead | src/token.rs:299-308 | What the bytes of the three DONE tokens mean, whatever follows. |
| TokenReadings.ReturnRead | src/token.rs:309 | What the bytes of a RETURNSTATUS mean. |
| TokenReadings.EnvRead | src/token.rs:247-256 | What an ENVCHANGE body means: two texts for kinds 1 to 6, none for others. |
| TokenReadings.AckRead | src/token.rs:259-266 | What a LOGINACK body means. |
| TokenReadings.NoteRead | src/token.rs:200-211 | What an INFO or ERROR body means. |
| TokenReadings.OrderTokenRead | src/token.rs:310-317 | An ORDER body is as many numbers as it has pairs of bytes, and is refused with a byte over. |
| TokenReadings.ColumnsRead | src/token.rs:267-279 | What a COLMETADATA count means; the columns read are in force from there on. |
| TokenReadings.ColumnRead | src/token.rs:272-275 | What the bytes of one column mean. |
| TokenReadings.RowsRead | src/token.rs:280-298 | A row by its code is a cell for each column in force, plain or behind a bitmap. |
| TokenReadings.OtherTokensRefused | src/token.rs:318-322 | Any other token is refused. |
| Token.TokenStream.Next | src/token.rs:241-324 | The stream object reads what the specification reads of any bytes, keeps its columns in step, and leaves them alone on an error. |
| Token.TokenStream.ReadMetadata | src/token.rs:267-279 | The column loop reads what the specification reads. |
| Token.TokenStream.ReadRow | src/token.rs:280-286 | The cell loop reads what the specification reads. |
| Token.TokenStream.ReadBitmapRow | src/token.rs:287-298 | The bitmap loop reads what the specification reads. |
| Values.ValueBackExactly | src/column.rs:137-216 | A written cell comes back as its normal form, consuming exactly its bytes before any suffix, exactly when its width exists and its length fits. |
| Values.ValueBack | src/column.rs:137-216 | A cell the format can carry comes back as its normal form before any suffix. |
| Readings.WideCellExactly | src/column.rs:208-210 | An NVARCHAR cell of any bytes reads as a text exactly where it carries that text's UTF-16, as null where it carries none, and is refused where what it carries is no text's. |
| Readings.NarrowCellExactly | src/column.rs:211-213 | A VARCHAR cell, the same of UTF-8. |
| Readings.BinaryCellExactly | src/column.rs:214 | A VARBINARY cell reads as the literal of the bytes it carries. |
| Readings.ShortRead | src/column.rs:234-243 | What a short value of any bytes reads as. |
| Readings.IntegerRead | src/column.rs:181-196 | What an integer cell of any bytes and width reads as, and which widths are refused. |
| Readings.FixedRead | src/column.rs:197-207 | What the fixed-width and bit cells read as. |
| TextLaws.IntegerExactly | src/column.rs:283-285 | A text counts for the number it is, less the white space around it, within an i64, and else for 0: signs and leading zeros included. |
| TextLaws.TrimExactly | src/column.rs:283-289 | The white space taken off is all there is at either end, and nothing else. |
| TextLaws.WhiteIs | src/column.rs:283-289 | Which characters are white space, by number. |
| TextLaws.DigitsAre | src/column.rs:181-206 | A number's digits, the last by its rest by ten, the others those of its tenth. |
| TextLaws.DecimalIs | src/column.rs:181-206 | A negative number prints behind a minus, any other bare. |
| TextLaws.TruthyExactly | src/column.rs:287-289 | A bit cell is set exactly by 1, true, True and TRUE, white space around them apart. |
| TextLaws.BinaryCell | src/column.rs:161-169 | A binary cell is written as its literal's bytes, or as its text's where it is none. |
| Values.NormalExactly | src/column.rs:179-216 | A cell keeps its text exactly when it is canonical for its column, and what is read is canonical. |
| Values.NormalIdempotent | src/column.rs:179-216 | Normalising twice is normalising once. |
| Values.IntegerCell | src/column.rs:139-146 | An integer cell of any text reads as the one number of its width congruent to the text's, and as the text exactly when that is the decimal of such a number. |
| Values.IntCellNarrows | src/column.rs:147-150 | A four-byte never-null cell of any text reads as the text's number where four bytes can hold it, and as 0 where not. |
| Values.WidthRefused | src/column.rs:181-196 | An integer of a width there is not is refused. |
| Values.LongCut | src/column.rs:226-230 | A short value of 65535 bytes reads as null and a longer one as its first 65534 bytes. |
| Bits.LeDigit | src/login.rs:70-80 | Byte i of a little-endian number is its digit i to the base 256. |
| Bits.BeDigit | src/prelogin.rs:60-84 | Byte i from the end of a big-endian number is that digit. |
| Bits.SignedExactly | src/column.rs:181-196 | What two's complement of any width means. |
| Values.PlpBack | src/column.rs:247-281 | A partially length-prefixed value is read back, empty apart from null. |
| Values.PlpAnyChunks | src/column.rs:263-281 | Whatever non-empty chunks a value is cut into it reads as their concatenation when its total is exact or unknown, as null under the null marker, and is refused under any other total. |
| Readings.PlpExactly | src/column.rs:263-281 | Bytes read as a value exactly where non-empty chunks of it, then an empty one, stand behind its length or behind the unknown one, and as null exactly behind the null marker. |
| Layouts.PlpIs | src/column.rs:247-257 | A value is written behind its length in chunks, an empty one last. |
| Layouts.ChunksAre | src/column.rs:253-256 | The chunks are of 65535 bytes, the last of what is left. |
| Values.TypeInfoBack | src/column.rs:79-133 | A declared type is read back. |
| Readings.TypesRead | src/column.rs:106-133 | What the nine declarations read as, by their codes. |
| Readings.OtherTypesRefused | src/column.rs:126-133 | Any other declaration is refused. |
| Layouts.TypesAre | src/column.rs:79-100 | The nine declarations as they are written. |
| Values.ValueLocal | src/column.rs:179-216 | A cell is read off the bytes it consumes alone. |
| Column.WriteValue | src/column.rs:137-171 | The writer appends what the specification gives for the cell. |
| Column.ReadValue | src/column.rs:179-216 | The reader reads what the specification reads, for any bytes. |
| Column.WritePlp | src/column.rs:247-257 | The chunk loop appends what the specification gives. |
| Column.ReadPlp | src/column.rs:263-281 | The chunk loop reads what the specification reads, for any bytes. |
| Column.WriteTypeInfo | src/column.rs:79-100 | The writer appends the type's declaration. |
| Column.ReadTypeInfo | src/column.rs:106-133 | The reader reads what the specification reads and refuses any other type byte. |
| Text.OfUtf16Exactly | src/column.rs:208-210 | Strict UTF-16 gives a text exactly when the bytes are that text's encoding: refused, never repaired. |
| Text.OfUtf8Exactly | src/column.rs:211-213 | The same of strict UTF-8. |
| Text.DecimalBack | src/column.rs:283-285 | A decimal is read as the number it prints. |
| TextLaws.LossyUnits | src/login.rs:141-153 | A lossy reading keeps every character and puts U+FFFD for each code unit that is a surrogate without its other half. |
| TextLaws.NoLead | src/prelogin.rs:116-119 | A byte that begins no character of UTF-8 is read as one U+FFFD. |
| TextLaws.BrokenOff | src/prelogin.rs:116-119 | So is as much of a character as is there, where the rest is not. |
| TextLaws.BadSecond | src/prelogin.rs:116-119 | A second byte that cannot follow the first is not part of what that is read as. |
| LoginTable.LoginTiles | src/login.rs:83-113 | In every such login the nine fields tile the tail: from byte 94, each where the one before it ends, the last to the message's end, which is the length it says; each entry is at its field's bytes. |
| LoginTable.LoginBack | src/login.rs:121-156 | Every login whose offsets and counts fit their u16s is read back, for every process id, though its last field run past byte 65535. |
| LoginTable.ShortIsAddressable | src/login.rs:96-113 | Every login of at most 65535 bytes is one. |
| Login.RevealBack | src/login.rs:58-66 | Revealing undoes obscuring on every byte string. |
| LoginWire.ObscureBits | src/login.rs:56-60 | Bit j of a disguised byte is bit j + 4 of the byte, counted round, exclusive-ored with bit j of 0xA5. |
| LoginWire.PasswordOnWire | src/login.rs:82-106 | So stands the password in a login, where its entry, at byte 44, points. |
| LoginWire.FixedPart | src/login.rs:70-112 | The fixed part byte by byte: length, version 7.4, packet size, process, flags, fillers, and three empty fields at the end. |
| LoginWire.LoginReadExactly | src/login.rs:121-156 | Bytes are a login exactly where the version is 7.2 to 7.4 and nine entries point inside, and its parts are then what the entries point at. |
| Login.EncodeLogin7 | src/login.rs:70-114 | The loop over fields and the length patched in last write what the specification gives. |
| Login.ReadLogin7 | src/login.rs:121-156 | The reader reads what the specification reads, for any bytes. |
| PreloginTable.PreloginTiles | src/prelogin.rs:60-84 | The five options tile the data from byte 26 to the message's end, each entry naming its option and pointing at exactly its bytes. |
| PreloginTable.PreloginBack | src/prelogin.rs:92-129 | A pre-login is read back, its instance name up to its first NUL. |
| PreloginTable.PreloginBackExactly | src/prelogin.rs:116-119 | It comes back as it went exactly when its instance name has no NUL. |
| PreloginWire.PreloginReadExactly | src/prelogin.rs:92-129 | Bytes are a pre-login exactly where they open with readable options and a terminator; each field is then what the last option for it says, or its default. |
| Layouts.HellosAre | src/prelogin.rs:60-84 | The opening and the greeting, byte by byte. |
| Prelogin.EncodePrelogin | src/prelogin.rs:60-84 | The loop growing table and data writes what the specification gives. |
| Prelogin.ReadPrelogin | src/prelogin.rs:92-129 | The loop over the table reads what the specification reads, for any bytes. |
| Prelogin.OptionInItsField | src/prelogin.rs:105-127 | An option is refused exactly when it is an empty ENCRYPTION; any other changes at most the field it is for, and an unknown one nothing: what each field becomes is told from the data. |
| Prelogin.OptionsCommute | src/prelogin.rs:101-128 | Options for different fields may come in either order. |
| Batch.BatchExactly | src/batch.rs:36-46 | A payload carries a SQL text exactly when a header block saying its own length stands before its UTF-16. |
| Batch.HeadersIgnored | src/batch.rs:36-46 | What a header block holds besides its length does not matter. |
| Batch.BatchBack | src/batch.rs:20-29 | Every SQL text is read back. |
| Layouts.BatchIs | src/batch.rs:20-29 | A batch byte by byte: a header block of 22 bytes, one header of kind 2, then the SQL. |
| Batch.EncodeBatch | src/batch.rs:20-29 | The buffer grown is what the specification gives. |
| Batch.ReadBatch | src/batch.rs:36-46 | The reader reads what the specification reads, for any bytes. |

## Left out

- LoginTable.LoginBack: speaks of logins whose offsets and counts fit their u16s; past that one saturates, and what is found where it points is not described.
- PreloginTable.PreloginBack: speaks of instance names of at most 65497 bytes of UTF-8; beyond that an offset saturates.
- Streams.TokenBack: speaks of bodies, counts and cells the length fields can say; what happens past a length or a count is stated apart, what a misread remainder then decodes to is not.
- Meetings.QueriesAnswered: speaks of batches and answers within the ceiling and the length fields, with rows at least as wide as their columns; what a client reads of a row with a cell missing is not described.
- Cursors.Cursor.Take: does not say where a failed read leaves the position, because every caller drops the cursor then.
- Error text: only the error's kind, and the number and text of an error the server answered, are modelled.
- Transport wiring, settings, the connection pool, verdicts and the memory of refused rows (`src/lib.rs`): their deciding logic is in another crate, which is not part of this model.
- Sockets, time-outs, buffering, flushing, shutdown and the liveness probe: input and output.
- `next_insert`, `holding`, `with_table` and the accessors: they only pick out or set fields; how a value is stored is part of what the INSERT parser gives.
- Constant-time comparison: modelled as equality of the UTF-8 bytes.
- A closure whose answers depend on anything but the batches it was asked, such as a clock.
- TLS, several result sets open at once, integrated and federated authentication: the repository does not implement them.
