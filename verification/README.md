# Verified model of the MariaDB Connector/Node.js core

A Dafny model of the parts of the connector that are deterministic once sockets, timers and promises
are taken as events, with proofs of what they are for.

* **Wire framing.** `Framing` is the reference: frames, the splitting of a payload, the reading of a
  whole stream. `InputModel` and the class `PacketInputStream` are `onData` with its partial headers,
  partial bodies and inner row loop; `Dispatch` and `CommandQueue` are the delivery to commands, fast
  and slow, `Delivery` which command a packet belongs to, told without a queue. `OutputModel` and the class
  `PacketOutputStream` are the growing buffer, its flushes and its mark, `TextCommand` what a buffer of any
  size makes of a text command.
* **Bulk execute.** `BinaryParams` holds the values and their bytes, `BinaryReader` a server that reads them
  by the announced types; `BulkModel`, `BulkProofs` and the class `BatchBulk` are COM_STMT_BULK_EXECUTE,
  `BulkTypes` its reading by a server, `BulkLimits` the size of its commands, `BulkExamples` the batches on
  which it fails, `BulkPipeline` a batch in the send queue.
* **Literals.** `Escaping` holds the character-set recognizers and the escape, and a server's lexer with tables
  of its own; `Utf8` the in-place encoder, `Utf8Reader` a decoder, `Placeholders` the scanner for question
  marks, `QueryParams` the parameter loop of a text query with string, buffer and stream values, `QueryText`
  where everything stands in what is sent.
* **Pool.** `PoolModel`, `PoolProofs`, `PoolLimit`, `PoolSearch` (which connection a request gets), `PoolQueue`
  (whose turn it is) and the class `ConnectionPool`.
* **SQL files.** `SqlScan` and `SqlFile`: the statement splitter, rescanned on each refill of a
  compacting and doubling buffer; `SqlPieces` against the tokens of `SqlTokens`.
* **Geometries.** `Wkb`, `WkbProofs`, `WkbWriter`, `WkbReader`: encoder and reader of well-known binary;
  `WkbDocs` the format as others may write it.
* **Prepared statements.** `PreparedModel`, `PreparedProofs`, `PreparedKeys` and the classes of
  `PreparedStatements`.
* **Pipelining.** `PipelineModel` and the class `Connection` of `Pipeline`.
* **Ed25519.** `Limbs`, `FieldOps`, `Int32`, `Curve`, `Ladder`, `CurveOps`, `Packing`: limb arithmetic in
  place, the curve addition, the conditional-swap ladder, inversion and packing.

Where the program changes state in place there is a class or a method over arrays with the same fields,
branches and loops; its contract ties the new state to a function on values, and the theorems are about
that function. A check of the whole project is `dafny verify dfyconfig.toml`.

## Where the code does not do what it is meant to

Each of the first eight is stated as an equivalence: the condition under which the code is right, and a
concrete input for which it is not.

* A zero-length frame that closes nothing is skipped, delivered or stops the stream for good, depending
  on how the bytes are cut (`InputModel.ChunkingIndependence`, `StrayLosesMessage`, `StrayEmptyFrameExample`).
* A bulk refused at a leftover row returns without a flush and leaves the next command that row's buffer,
  which can be larger than the maximum. `writeBuffer` copies whatever fits, so a command whose writes pass
  0xffffff bytes inside that buffer leaves as one frame that announces another length, or a later write
  finds no room and throws (`OutputModel.OutputFraming`, `BulkProofs.BulkExact`, `TextCommand.WireExactly`,
  `BulkExamples.OversizedExample`, `QueryParams.OverrunningQuery`).
* In a bulk, when a row is cut off into a new command and a further non-empty write of it starts at exactly
  0xffffff bytes, the saved bytes sit in a buffer of exactly the maximum size, which `writeBuffer` takes for
  a buffer to be streamed from: the bytes leave as a continuation frame of a command that has already ended.
  A row whose last write ends there is safe (`BulkProofs.BulkExact`, `BulkExamples.UnsafeExample`).
* The row directly behind one that was cut off is never compared with the types its command announces; if
  it does not agree with them, a server can read something else there, or nothing (`BulkTypes.BatchIsRead`,
  `BulkExamples.UncheckedExample`).
* A lone surrogate is written as a question mark in place and as U+FFFD through the copy, so the bytes sent
  depend on the room left in the buffer (`Utf8.InPlaceExact`, `LoneSurrogateExample`).
* A bulk that is refused at a leftover row ends its start without `send_end`; commands queued behind it
  wait although nothing is being sent (`PipelineModel.StalledExactly`, `BulkPipeline.BatchStalls`,
  `RefusedStalls`).
* A request can be left waiting below the connection limit with nothing under way: when the size is checked
  an idle connection is there, and the tick gives it to another request (`PoolLimit.LimitReachedExactly`,
  `LeftWaiting`).
* Positions with more than two numbers lose the others, and one bad position drops the rest of a
  multi-geometry without notice (`WkbProofs.GeometryRoundTrip`, `ThirdNumberExample`, `BadPartExample`).
* `splitQuery` jumps over the byte behind a placeholder and lets the star that opens a comment close it, so a
  quote, a comment or a question mark there is not seen, although lib/misc/parse.js:31 promises that question
  marks in comments do not count (`Placeholders.FoundExactly`, `CommentExample`).
* `parseQueries` has the same star, and lets the slash that closes a comment open the next one, so a statement
  directly behind a comment can be swallowed (`SqlPieces.StatementsExactly`, `SlashBehindComment`).
* A batch whose rows have a date in one column sends every row as a command of its own: the header announces
  one type and the test asks for another (`BinaryReader.SharesHeader`, `DatesApart`).
* The prepare cache joins database and text with a bar, so under a database with a bar in its name a text can
  be answered with the statement of another text under another database (`PreparedKeys.KeyTells`, `KeyMixes`).
* The comment at lib/io/packet-output-stream.js:648-653 warns that a character cut by a chunk boundary may be
  corrupted. By the lexer rule stated right above it the bytes come out unchanged
  (`Escaping.EscapeRoundTrip`).

## Conventions

Integers are unbounded and truncation is written out (`LE`, `% 256`); shifts and masks of non-negative
numbers are divisions and remainders, and the exclusive-ors of the masked swap are on 32-bit words
(`Int32`). The constants 0xffffff, the buffer tiers and the 2^255-19 limbs have their values. `exact` is
the type of integers below 2^53 in magnitude, which are exact as doubles: every limb, product, column and
shifted carry is a value of it, so nothing in the field arithmetic rounds. The 256 unrolled multiply-adds of `M`, and its two unrolled carry passes, are
loops over the same columns in the same order. Doubles in geometries are their bits.

## Model

| member | source | states |
|---|---|---|
| `InputModel.ChunkingIndependence` | lib/io/packet-input-stream.js:119-227 | for every byte stream: all ways of cutting it into chunks deliver the messages of the reference reader (with the sequence number of their last frame) if and only if no zero-length frame stands where nothing is open |
| `InputModel.StrayLosesMessage` | lib/io/packet-input-stream.js:119-227 | for every stream with such a stray frame, a cut into chunks is constructed after which fewer messages are delivered than the stream holds, and no more are delivered whatever chunks follow |
| `InputModel.StrayEmptyFrameExample` | lib/io/packet-input-stream.js:135-226 | one stray frame, three outcomes by where the chunks are cut: skipped, delivered as an empty message, or nothing delivered any more |
| `InputModel.FeedAgrees` | lib/io/packet-input-stream.js:119-227 | from any state that represents a partial header, a partial body or an open message, feeding any chunks gives the messages and the state of the reference reader of the whole rest |
| `InputModel.OnDataAgrees` | lib/io/packet-input-stream.js:119-227 | one call keeps the receive state a representation of what the reference reader has open, and delivers exactly the messages completed |
| `InputModel.WireRoundTrip` | lib/io/packet-output-stream.js:766-836 | any list of non-empty payloads, framed by the sender and cut into any chunks, is received as exactly those messages, with the sequence number of the last frame of each |
| `Framing.ScanAppend` | lib/io/packet-input-stream.js:119-227 | the reference reader can be stopped after any prefix and resumed on its open message and unread rest |
| `Framing.StrayAppend` | lib/io/packet-input-stream.js:218-225 | the condition on stray empty frames splits over any cut of the stream |
| `Framing.ScanSplit` | lib/io/packet-input-stream.js:146-204 | the frames of one payload, read behind anything open, are one message: what was open followed by the payload |
| `Framing.SplitShape` | lib/io/packet-output-stream.js:766-780 | the frames of a payload carry it in order, all but the last full, the last one shorter (empty on an exact multiple), sequence bytes counting up modulo 256 |
| `Framing.SplitNoStray` | lib/io/packet-output-stream.js:774-777 | framing a non-empty payload introduces no stray empty frame |
| `Framing.SplitCancel` | lib/io/packet-output-stream.js:766-780 | framing is injective: equal wire bytes mean equal first payload and equal rest |
| `PacketInputStream.PacketInputStream.OnData` | lib/io/packet-input-stream.js:119-227 | the class with its header bytes, parts and counters changed in place ends in the state of the model, and hands the messages of the model, in order, to the command queue |
| `PacketInputStream.PacketInputStream.Turn` | lib/io/packet-input-stream.js:124-226 | one turn of the do-while loop is one step of the model and always advances or ends |
| `PacketInputStream.PacketInputStream.ReadHeader` | lib/io/packet-input-stream.js:125-144 | a header in one piece, in pieces, or the remaining length of a frame under way, each as in the model |
| `PacketInputStream.PacketInputStream.CollectHeader` | lib/io/packet-input-stream.js:134-144 | header bytes collected one by one across chunks; a full header without a body length never moves again |
| `PacketInputStream.PacketInputStream.FirstPart` | lib/io/packet-input-stream.js:149-194 | a first part is delivered when its frame is short, kept when it is full, and the inner loop goes on behind it |
| `PacketInputStream.PacketInputStream.FastRows` | lib/io/packet-input-stream.js:157-190 | the inner loop over whole frames does what the model does on the rest of the chunk, its early return included |
| `PacketInputStream.PacketInputStream.AddPart` | lib/io/packet-input-stream.js:195-204 | a further part is added to what is open, and delivered with it when its frame ends the message |
| `PacketInputStream.PacketInputStream.KeepPart` | lib/io/packet-input-stream.js:206-217 | the chunk ends inside a frame: the part and the missing length are kept |
| `Dispatch.MixedIsSlow` | lib/io/packet-input-stream.js:154-177 | for any command automata and any choice of fast and slow deliveries, the trace of (command, message) pairs is that of slow deliveries only, and the queues differ only by finished commands at the head |
| `Dispatch.FastRowIsSlowRow` | lib/io/packet-input-stream.js:166-169 | one row handed straight to the cached command has the effect of `receivePacketBasic` |
| `Dispatch.ReplayGrows` | lib/io/packet-input-stream.js:84-99 | whatever packets and commands come later, what was delivered before them stays delivered to the same commands in the same order |
| `Delivery.PacketBelongs` | lib/io/packet-input-stream.js:84-117 | for every history of commands and packets: a packet goes to a command if and only if every command added before it has been finished by its own messages, folded from its own first state, and it has not; and it is unexpected if and only if all have been finished |
| `Delivery.ReplayIsReference` | lib/io/packet-input-stream.js:84-117 | the queue and the cache deliver exactly as a reference that has neither, and keeps a command live exactly while its own messages have not finished it, in the state they lead to |
| `Delivery.NotPastTheEnd` | lib/io/packet-input-stream.js:95-98 | no command is handed a message behind the one that finished it |
| `Dispatch.ReceiveBasicIsDispatch` | lib/io/packet-input-stream.js:84-99 | `receivePacketBasic` with its cached command delivers to the first unfinished command of the queue |
| `CommandQueue.CommandQueue.ReceivePacket` | lib/io/packet-input-stream.js:84-99 | the packet goes to the first command added that its own messages have not finished, and the queue, the cached command and the trace stay those of the replayed history |
| `CommandQueue.CommandQueue.FastRow` | lib/io/packet-input-stream.js:166-168 | the fast delivery goes to that same command and keeps the relation to the replayed history |
| `CommandQueue.CommandQueue.CurrentCmd` | lib/io/packet-input-stream.js:106-117 | finished commands are dropped from the head and the first live one is cached |
| `CommandQueue.CommandQueue.Push` | lib/connection.js:1522-1522 | adding a command keeps the relation to the replayed history |
| `OutputModel.OutputFraming` | lib/io/packet-output-stream.js:165-185 | from a buffer of any size: a list of writes between `startPacket` and `flush` with no mark succeeds and puts exactly the frames of the bytes written on the wire if and only if the first prefix of the writes longer than 0xffffff bytes, if there is one, is also longer than the room in the buffer |
| `OutputModel.OverrunWrites` | lib/io/packet-output-stream.js:290-335 | otherwise the writes succeed exactly if all of them fit that buffer, and then they stand in it with nothing sent |
| `OutputModel.FailsUnsent` | lib/io/packet-output-stream.js:290-335 | when a write turns out to be impossible, the writes before it have sent nothing |
| `TextCommand.PartSends` | lib/io/packet-output-stream.js:290-335 | a part written with no mark into a buffer of any size leaves exactly the described state: in frames, held in an oversized buffer, cut down with bytes of the array read again, or thrown with nothing sent |
| `TextCommand.SendsEnd` | lib/io/packet-output-stream.js:165-172 | what `flush` puts on the wire from each of those states |
| `TextCommand.WireExactly` | lib/io/packet-output-stream.js:165-185 | that is the framing of the bytes that should have been written if and only if the command has stayed intact, as it always does in an ordinary buffer or when it fits one frame |
| `OutputModel.WriteCapacity` | lib/io/packet-output-stream.js:87-119 | a write makes no buffer larger than the maximum except to save data behind a sent mark, and then it is exactly full |
| `OutputModel.WriteCounts` | lib/io/packet-output-stream.js:290-335 | the length held against the allowed maximum is that of the command under way, sent or not, and starts again at nothing for the next |
| `OutputModel.WriteOk` | lib/io/packet-output-stream.js:290-335 | a write that is possible keeps the buffer well formed and the mark inside it |
| `OutputModel.InCommandStream` | lib/io/packet-output-stream.js:305-321 | filling, sending and going on leaves the frames sent plus the buffer equal to the bytes written |
| `OutputModel.InCommandEnd` | lib/io/packet-output-stream.js:165-172 | `flush` ends a command with the short or empty frame that closes it |
| `PacketOutputStream.PacketOutputStream.WriteBuffer` | lib/io/packet-output-stream.js:290-335 | for every buffer and part of an array: the buffer, position, mark and wire after the call are those of the model; a buffer past the maximum without room or mark is cut down, and the copy then starts as many bytes early in the array as are lost, or throws before its start |
| `PacketOutputStream.PacketOutputStream.MakeRoom` | lib/io/packet-output-stream.js:291-303 | the nested growth tests end in the room of the model |
| `PacketOutputStream.PacketOutputStream.StreamOut` | lib/io/packet-output-stream.js:305-321 | the fill-and-flush loop sends and keeps what the model does, from a position past the maximum too |
| `PacketOutputStream.PacketOutputStream.GrowBuffer` | lib/io/packet-output-stream.js:87-119 | growing keeps the contents, or sends up to the mark and saves the rest, or cuts a buffer past the maximum down to it |
| `PacketOutputStream.PacketOutputStream.FlushBufferStopAtMark` | lib/io/packet-output-stream.js:753-764 | the frame ends at the mark and the bytes behind it open the next buffer |
| `PacketOutputStream.PacketOutputStream.FlushBuffer` | lib/io/packet-output-stream.js:766-780 | one frame goes out with its header, and an empty one behind it when it ends a command and is full; of a buffer that was cut down, the bytes it holds under the length of the position |
| `PacketOutputStream.PacketOutputStream.Flush` | lib/io/packet-output-stream.js:165-172 | the end of a command: buffer, counters and mark back at their start |
| `PacketOutputStream.PacketOutputStream.CreateBufferWithMinSize` | lib/io/packet-output-stream.js:782-796 | the tier chosen for what remains |
| `PacketOutputStream.PacketOutputStream.WriteEmptyPacket` | lib/io/packet-output-stream.js:819-836 | a frame of length zero with the next sequence byte |
| `PacketOutputStream.PacketOutputStream.ResetMark` | lib/io/packet-output-stream.js:146-158 | the saved bytes are handed back and the command counter restarts |
| `PacketOutputStream.PacketOutputStream.WriteInt` | lib/io/packet-output-stream.js:186-269 | a little-endian integer of any width written in place or through a small buffer, which throws exactly when that is impossible |
| `PacketOutputStream.PacketOutputStream.WriteLengthCoded` | lib/io/packet-output-stream.js:271-288 | the length prefix in its one or two writes; if it throws nothing has been sent |
| `PacketOutputStream.PacketOutputStream.WriteLengthEncodedBuffer` | lib/io/packet-output-stream.js:357-361 | the prefix and the bytes, likewise |
| `PacketOutputStream.PacketOutputStream.WriteLengthEncodedString` | lib/io/packet-output-stream.js:470-490 | the string writer, which grows the buffer in its own way, ends where prefix and bytes through `writeBuffer` would, or throws where they would |
| `BulkProofs.BulkExact` | lib/cmd/batch-bulk.js:276-379 | for every list of rows and every buffer the last command left: if the first row overruns that buffer, the batch throws with nothing sent, or starts with one frame of header and row that announces another length; otherwise the bytes sent are whole framed COM_STMT_BULK_EXECUTE commands if and only if no row cut off into a new command has a non-empty write that starts after exactly 0xffffff bytes of it, behind the write that sends the mark |
| `BulkProofs.SafeBulk` | lib/cmd/batch-bulk.js:276-379 | under that condition, from any buffer, the wire is exactly the commands of the row-wise cutter, one command per `bulkPacketNo`, and the batch fails exactly when a leftover row is refused |
| `BulkProofs.CutKeepsRows` | lib/cmd/batch-bulk.js:290-374 | the cutter loses, doubles and reorders no row, splits none, and puts at least one in every command |
| `BulkLimits.CommandsFit` | lib/cmd/batch-bulk.js:348-354 | every command whose first row fits holds at most one full frame, or `maxAllowedPacket` if that is less |
| `BulkLimits.CutIsGreedy` | lib/cmd/batch-bulk.js:348-372 | no command is ended while the next row would fit it and has its types |
| `BulkProofs.NoHitIsSafe` | lib/io/packet-output-stream.js:292-294 | a batch whose first row does not overrun the buffer and none of whose rows has a write starting there is safe, whatever the commands |
| `BulkProofs.OverrunBreaks` | lib/cmd/batch-bulk.js:290-346 | a first row that overruns the buffer throws exactly if header and row do not fit it, and else its bytes are the first frame on the wire |
| `BulkExamples.UnsafeExample` | lib/cmd/batch-bulk.js:349-363 | two rows with an empty and a 16777210-byte buffer are not safe |
| `BulkExamples.RefusedExample` | lib/cmd/batch-bulk.js:307-313 | with a limit of 20 bytes, rows of a 5- and a 30-byte text: one command is sent, and the batch is refused at the second row |
| `BulkExamples.RefusedKeepsBuffer` | lib/cmd/batch-bulk.js:307-313 | every command refused at a leftover row longer than a frame leaves the buffer of that row to the next command |
| `BulkExamples.OversizedExample` | lib/io/packet-output-stream.js:95-98 | a batch refused at a row of 20000000 bytes, and the next command writes 17000000 bytes: they leave as one frame that is not the framing of those bytes |
| `BulkTypes.BatchArrives` | lib/cmd/batch-bulk.js:276-379 | end to end: for every safe batch whose followers agree, a server that reads frames, commands, announced types and values off the wire gets exactly the values of the rows, in order, nulls included, and in front of a refused row all of them |
| `BulkTypes.BatchIsRead` | lib/cmd/batch-bulk.js:276-379 | for every batch: all rows of all commands agree with the types their command announces if and only if every row directly behind a cut-off one does; and then a server that knows only the types announced reads from every command its statement, its flag and, value for value, its rows |
| `BulkTypes.AnnouncedExactly` | lib/cmd/batch-bulk.js:365-372 | the same equivalence from any open command on |
| `BulkTypes.CommandIsRead` | lib/cmd/batch-bulk.js:290-346 | from the bytes of such a command a server gets the statement number, the wish for unit results, and every value of every row as itself |
| `BulkExamples.UncheckedExample` | lib/cmd/batch-bulk.js:307-346 | with a limit of 20 bytes, two texts and a flag: the flag is sent under the types of the texts, and cannot be read |
| `BinaryReader.ValueIsRead` | lib/cmd/encoder/binary-encoder.js:15-57 | by the announced type alone every value is read as itself: booleans, signed integers of 4 and 8 bytes to the ends of their ranges, the bits of doubles, decimal digits, texts, buffers and geometries of every length, dates with and without milliseconds |
| `BinaryReader.CheckedRowIsRead` | lib/cmd/batch-bulk.js:114-265 | a row accepted by `checkSameHeader`, or the row the header was made from, agrees with the header types, and a row that does is read as its own values, to its last byte, by a reader that knows only them |
| `BinaryReader.RowIsRead` | lib/cmd/batch-bulk.js:326-346 | the same for any row whose values have the announced wire class, nulls included |
| `BinaryReader.SharesHeader` | lib/cmd/batch-bulk.js:187-265 | a row joins a command opened by another exactly if each of its values is null or of the type announced, except that a date never joins and an integer past 64 bits joins texts only |
| `BinaryReader.DatesApart` | lib/cmd/batch-bulk.js:249-252 | two rows with a date in one column are never joined: the header announces DATETIME and the test asks for TIMESTAMP |
| `LengthCoded.ReadLengthEncoded` | lib/io/packet-output-stream.js:357-361 | a length-encoded value is read back, and nothing behind it touched |
| `LengthCoded.ReadLengthOps` | lib/io/packet-output-stream.js:271-288 | every length below 2^32 is read back from its prefix |
| `BatchBulk.BatchBulk.SendComStmtBulkExecute` | lib/cmd/batch-bulk.js:276-379 | from any buffer: the loops over rows, leftovers and commands leave the output stream, `bulkPacketNo` and the error outcome of the model, or throw where a row cannot be written |
| `BatchBulk.BatchBulk.OneCommand` | lib/cmd/batch-bulk.js:290-375 | one turn of the main loop, and that it ends |
| `BatchBulk.BatchBulk.OneRow` | lib/cmd/batch-bulk.js:325-373 | one row: written, cut off at the mark, followed by the next, or impossible to write |
| `BatchBulk.BatchBulk.Leftover` | lib/cmd/batch-bulk.js:307-323 | the bytes saved behind a mark open the next command or are refused |
| `BatchBulk.BatchBulk.WriteRow` | lib/cmd/batch-bulk.js:327-342 | a row is the writes of its parameters; if one is impossible nothing of the row has been sent |
| `BatchBulk.BatchBulk.ParameterHeaderFromValue` | lib/cmd/batch-bulk.js:114-158 | the header types of a row |
| `BatchBulk.BatchBulk.CheckSameHeader` | lib/cmd/batch-bulk.js:195-239 | whether a row fits header types, null values fitting any |
| `Escaping.EscapeRoundTrip` | lib/io/packet-output-stream.js:640-692 | for every character set and every way of cutting the payload into chunks, in the middle of characters too, a lexer that knows the set by its own table of byte ranges reads back exactly the payload and stops at the final quote, single or double; for a set without a recognizer, whatever its characters are as long as none has a byte below 0x80 |
| `Escaping.CharLenIsCharOf` | lib/misc/charset-mb.js:21-61 | on all byte strings the recognizers find exactly the characters of the tables |
| `Escaping.LeadAndBackslash` | lib/misc/charset-mb.js:7-14 | in each set a lead byte and a backslash are one character, written as they are |
| `Escaping.LoneLead` | lib/io/packet-output-stream.js:675-682 | a lead byte alone, or in front of a quote, is escaped, and so is the quote |
| `Escaping.PlainIsRead` | lib/io/packet-output-stream.js:593-599 | the byte-wise escape is enough where no character has a byte below 0x80: the lexer, taking its characters whole, reads the text back |
| `Escaping.PlainStays` | lib/io/packet-output-stream.js:663-691 | a text with none of quote, double quote, backslash, zero byte and lead byte is written as it is |
| `Escaping.ZeroIsEscaped` | lib/io/packet-output-stream.js:684-690 | every zero byte written has a backslash in front of it |
| `Escaping.LexEscape` | lib/io/packet-output-stream.js:654-692 | the lexer of the tables takes the escaped bytes back whatever follows them |
| `Escaping.CharLenPrefix` | lib/misc/charset-mb.js:19-63 | a recognised character stays one whatever is written behind it |
| `Escaping.EscapeLength` | lib/io/packet-output-stream.js:655-658 | escaping at most doubles the length, the bound the buffer test uses |
| `PacketOutputStream.PacketOutputStream.WriteBufferEscapeFast` | lib/io/packet-output-stream.js:601-638 | for every buffer: with room for the worst case the escaped bytes stand in the same buffer; else the command under way grows by exactly them, flushes in the middle included; a buffer past the maximum is cut down and sent under the length it had, and they follow in numbered frames |
| `PacketOutputStream.PacketOutputStream.WriteBufferEscapeMb` | lib/io/packet-output-stream.js:654-692 | the same with a recognizer, characters never being cut by an escape |
| `PacketOutputStream.PacketOutputStream.WriteUtf8StringEscapeQuote` | lib/io/packet-output-stream.js:363-435 | for every buffer: quote, text, quote, in place or as three writes; for well-formed text the text is the escaped UTF-8 encoding whichever branch was taken; it throws exactly when one of the quotes finds no room past the maximum |
| `PacketOutputStream.PacketOutputStream.WriteStringAscii` | lib/io/packet-output-stream.js:342-355 | a text in place or through `writeBuffer`, to the same state |
| `Utf8.InPlaceExact` | lib/io/packet-output-stream.js:363-435 | the in-place encoder writes what escaping the encoded copy gives if and only if the string has no lone surrogate |
| `Utf8.LoneSurrogateExample` | lib/io/packet-output-stream.js:403-427 | one high surrogate alone: one question mark in place, three bytes through the copy |
| `Utf8.InPlaceLength` | lib/io/packet-output-stream.js:375-381 | the in-place encoder never writes more than three bytes per code unit |
| `Utf8.InPlaceIsEscape` | lib/io/packet-output-stream.js:363-435 | for every string, what is written in place is the escape of its encoding with question marks for lone surrogates, so a literal in any case |
| `Utf8Reader.StringIsRead` | lib/io/packet-output-stream.js:363-435 | the bytes of every string are read as its code points by a decoder of section 3 of RFC 3629, and make the string again if it has no lone surrogate |
| `PoolProofs.EveryRun` | lib/pool.js:43-870 | after every run: idle and active connections never exceed the limit nor together with one in creation, no connection is in two places, the smaller of idle connections and waiting requests is at most the number of `_idle` events under way, the queue is sorted by deadline under a timer due at its head; and when nothing is under way a waiting request means that every connection is in use |
| `PoolProofs.StepKeeps` | lib/pool.js:422-617 | each atomic step of the pool keeps all of that |
| `PoolProofs.RunGrows` | lib/pool.js:326-393 | a request once resolved or rejected keeps that answer through every run, `end` included |
| `PoolProofs.TimerFired` | lib/pool.js:326-341 | after the timer no queued request is expired |
| `PoolSearch.SearchByPosition` | lib/pool.js:586-617 | for every pool, request and health list: of the idle connections in order, the first that is not bad is handed out if it is good, or pinged for the request; only with all of them bad does the request wait, or a closed pool refuse it |
| `PoolSearch.GetConnectionSearches` | lib/pool.js:757-798 | the same for one acquire from every reachable state |
| `PoolSearch.PingAnswerSearches` | lib/pool.js:598-616 | the same for the answer of a ping: the pinged connection if it is well, else the search among the idle ones |
| `PoolSearch.BadForGood` | lib/pool.js:607-613 | from every reachable state and in every run that follows, a connection found bad by a search is handed to nobody |
| `PoolSearch.FailedPingForGood` | lib/pool.js:598-616 | nor is one whose ping failed |
| `PoolQueue.NoOvertaking` | lib/pool.js:518-545 | in every run a waiting request gets its answer only after all that were waiting before it |
| `PoolQueue.NotRejectedEarly` | lib/pool.js:326-341 | in every run an open pool rejects a request only when `acquireTimeout` has passed since it came |
| `PoolQueue.LongestIdleFirst` | lib/pool.js:595-597 | a connection is put to use only when none that was idle before it is idle still |
| `PoolQueue.BackOffHolds` | lib/pool.js:43-48 | no connection attempt begins while a back-off is pending |
| `PoolLimit.LimitReachedExactly` | lib/pool.js:504-538 | where requests may wait at all: one waits with nothing under way only while the pool has as many connections in use as it may, in every run, if and only if the minimum of connections is at least the limit or the limit is one |
| `PoolLimit.LeftWaiting` | lib/pool.js:504-538 | for every larger limit and smaller minimum: a full pool, two requests waiting, one connection released and another destroyed before the tick leave one request waiting below the limit with nothing under way |
| `ConnectionPool.ConnectionPool.ManagePoolSize` | lib/pool.js:43-52 | a creation is started exactly when one is wanted, none is under way and no retry is pending |
| `ConnectionPool.ConnectionPool.CheckRequestTimeouts` | lib/pool.js:326-341 | the loop rejects the expired requests and sets the timer for the first one left |
| `ConnectionPool.ConnectionPool.ProcessNextPendingRequest` | lib/pool.js:518-538 | the head request gets the head connection, or stays the head |
| `ConnectionPool.ConnectionPool.FindValidIdleConnection` | lib/pool.js:586-617 | the search over idle connections of any health ends as the model of `PoolSearch` |
| `ConnectionPool.ConnectionPool.GetConnection` | lib/pool.js:757-798 | one acquire is one step |
| `ConnectionPool.ConnectionPool.PingDone` | lib/pool.js:598-616 | the answer of a ping hands the connection over or searches on |
| `ConnectionPool.ConnectionPool.Release` | lib/pool.js:422-445 | a release makes the connection idle with one `_idle` event, and once only |
| `ConnectionPool.ConnectionPool.OnIdleTick` | lib/pool.js:518-538 | an `_idle` event serves one waiting request |
| `ConnectionPool.ConnectionPool.OnConnectionError` | lib/pool.js:252-290 | a failed connection leaves the active map and the idle queue, and a check is queued |
| `ConnectionPool.ConnectionPool.OnCheckAfterError` | lib/pool.js:263-268 | the check queued by a failed connection creates one only when a request waits |
| `ConnectionPool.ConnectionPool.OnCheckSize` | lib/pool.js:590-590 | a queued `validateSize` event manages the size |
| `ConnectionPool.ConnectionPool.OnRetry` | lib/pool.js:140-145 | the retry after a failed creation creates a connection only when a request waits |
| `ConnectionPool.ConnectionPool.OnRequestTimer` | lib/pool.js:402-402 | the timer of the queue rejects what has expired and is set again |
| `ConnectionPool.ConnectionPool.OnCreated` | lib/pool.js:183-221 | a new connection becomes idle and serves a request, or is closed with the pool |
| `ConnectionPool.ConnectionPool.OnCreationFailed` | lib/pool.js:90-130 | a failed creation schedules one retry |
| `ConnectionPool.ConnectionPool.Destroy` | lib/pool.js:405-420 | an active connection is given up and the size checked |
| `ConnectionPool.ConnectionPool.RemoveIdleConnections` | lib/pool.js:478-502 | reaping takes unused connections from the front and never goes below the minimum |
| `ConnectionPool.ConnectionPool.EndPool` | lib/pool.js:811-851 | ending rejects every waiting request and empties the idle queue |
| `SqlFile.ImportFile` | lib/connection.js:1974-2049 | for every file and every sequence of read sizes the statements sent are those of one scan of the whole file, and for a file without tight comments those that end at its semicolon tokens |
| `SqlFile.ReadOnce` | lib/connection.js:1983-2049 | one read, split and compaction keeps the bytes not yet split and leaves room for the next read |
| `SqlFile.BufState.ParseQueries` | lib/misc/parse.js:448-542 | the statements found and the bytes left are the split of the bytes held |
| `SqlFile.BufState.MakeRoom` | lib/connection.js:2029-2049 | at least 8192 bytes are free afterwards, by copying down or doubling, and nothing is lost; so a read of zero bytes is the end of the file |
| `SqlScan.SplitAgain` | lib/misc/parse.js:448-542 | splitting a prefix and then its tail with the rest equals splitting the whole: a scan may restart at the last statement end |
| `SqlScan.SplitReproduces` | lib/misc/parse.js:448-542 | statements with their semicolons and the tail are the text |
| `SqlScan.SplitIsFinest` | lib/misc/parse.js:448-542 | no statement, nor the tail, can be split further by a fresh scan, so rescanning a tail is safe |
| `SqlPieces.SplitIsQuick` | lib/misc/parse.js:448-542 | the automaton ends the statements exactly at the semicolons that are tokens of their own, where strings with backslashes, quoted names, lines behind `#`, `--` and `//`, and comments are tokens, the star that opens a comment may close it, and the slash that closes one may open the next |
| `SqlPieces.StatementsExactly` | lib/misc/parse.js:443-447 | they are the statements of the reading in which neither may, for every file without a comment that starts with a slash or has a star or slash directly behind it; every file with one has, up to it, an ending for which they are not |
| `SqlPieces.SingleQuoted` | lib/misc/parse.js:509-517 | a semicolon in a string, and the one behind it |
| `SqlPieces.Comment` | lib/misc/parse.js:465-478 | a semicolon in a comment, and the one behind it |
| `SqlPieces.SlashBehindComment` | lib/misc/parse.js:471-477 | a slash directly behind a comment opens a line comment, and the statement is not found |
| `WkbProofs.GeometryRoundTrip` | lib/cmd/encoder/binary-encoder.js:57-281 | for every geometry with counts below 2^31: it is written, and reading an SRID and those bytes gives it back with nothing left over, if and only if every position is two numbers that are not NaN |
| `WkbProofs.WrittenIsRead` | lib/io/packet.js:26-122 | for every such geometry, reading gives what the encoder kept of it, to the last byte |
| `WkbProofs.ReadEncoded` | lib/io/packet.js:41-122 | any nesting of collections is read back, and nothing behind it is touched |
| `WkbProofs.KeptExact` | lib/cmd/encoder/binary-encoder.js:57-281 | the encoder keeps a geometry as it is exactly when every position is two numbers |
| `WkbProofs.ThirdNumberExample` | lib/cmd/encoder/binary-encoder.js:67-79 | a point of three numbers is written and read as one of two |
| `WkbProofs.BadPartExample` | lib/cmd/encoder/binary-encoder.js:189-198 | a good point behind a bad one is dropped |
| `WkbProofs.ValuesDiffer` | lib/io/packet.js:41-111 | different geometries are read as different values |
| `WkbDocs.DocIsRead` | lib/io/packet.js:41-121 | the reader gives back every object of the format, nested to any depth, each object in its own byte order, and touches nothing behind it |
| `WkbDocs.UnknownKind` | lib/io/packet.js:105-111 | an object of another kind is read as null |
| `WkbDocs.NegativeCount` | lib/io/packet.js:55-62 | a count with its highest bit set is read as no positions |
| `WkbWriter.GetBufferFromGeometryValue` | lib/cmd/encoder/binary-encoder.js:57-281 | null for what is not kept, else exactly the bytes of what is kept, every allocated byte written |
| `WkbWriter.PartsBuffer` | lib/cmd/encoder/binary-encoder.js:146-201 | the parts of a multi-geometry or collection up to the first null, with their count |
| `WkbWriter.PolygonBuffer` | lib/cmd/encoder/binary-encoder.js:107-144 | a polygon sized by one loop and filled by two nested ones |
| `WkbWriter.LineBuffer` | lib/cmd/encoder/binary-encoder.js:81-105 | a line filled point by point, null at the first bad one |
| `WkbWriter.PointBuffer` | lib/cmd/encoder/binary-encoder.js:63-79 | a point of at least two numbers, without the further ones |
| `WkbReader.GeometryReader.ReadGeometryObject` | lib/io/packet.js:41-111 | the recursive reader over a moving position gives what the format says of the bytes from there, or the range error |
| `WkbReader.GeometryReader.ParseGeomArray` | lib/io/packet.js:113-121 | a count and that many objects, each in its own byte order |
| `WkbReader.GeometryReader.ParseLine` | lib/io/packet.js:55-62 | a count and that many positions |
| `WkbReader.GeometryReader.ParseCoordinates` | lib/io/packet.js:34-39 | two doubles in either byte order |
| `WkbReader.ReadGeometryField` | lib/io/packet.js:26-32 | the default for an empty field, else the object behind four bytes |
| `Limbs.ModIsRemainder` | lib/cmd/handshake/auth/ed25519-password-auth.js:712-735 | `Mod`, by which elements are stated, is the remainder by 2^255-19 |
| `FieldOps.M` | lib/cmd/handshake/auth/ed25519-password-auth.js:191-652 | for limbs below 2^18 in magnitude, aliased or not: the element of the result is the product modulo 2^255-19, its limbs are digits but for a first one off by at most 38, and no step leaves the integers a double holds |
| `FieldOps.Columns` | lib/cmd/handshake/auth/ed25519-password-auth.js:242-513 | the 31 columns have the value of the product |
| `FieldOps.CarryColumns` | lib/cmd/handshake/auth/ed25519-password-auth.js:532-582 | a carry pass leaves digits and brings the part above 2^256 down 38 times |
| `FieldOps.FoldColumns` | lib/cmd/handshake/auth/ed25519-password-auth.js:515-530 | the upper columns are added to the lower ones 38 times |
| `FieldOps.Car25519` | lib/cmd/handshake/auth/ed25519-password-auth.js:700-710 | the same in place: the value is kept modulo 2^256-38 |
| `FieldOps.SecondPass` | lib/cmd/handshake/auth/ed25519-password-auth.js:584-634 | after two passes only the first limb can be off a digit, by at most 38 |
| `FieldOps.A` | lib/cmd/handshake/auth/ed25519-password-auth.js:743-745 | limb-wise addition is addition of elements, also in place |
| `FieldOps.Z` | lib/cmd/handshake/auth/ed25519-password-auth.js:747-749 | limb-wise subtraction likewise |
| `CurveOps.Add` | lib/cmd/handshake/auth/ed25519-password-auth.js:751-781 | the coordinates of the first point become those of the sum, also when both points are the same arrays; every intermediate is within the bounds of `M` |
| `Curve.AddIsEdwards` | lib/cmd/handshake/auth/ed25519-password-auth.js:751-781 | those coordinates represent the sum under the affine addition law of the curve (section 5.1.4 of RFC 8032) |
| `Curve.CurveConstant` | lib/cmd/handshake/auth/ed25519-password-auth.js:127-130 | the limbs of D2 are twice -121665/121666 modulo the prime |
| `Curve.BaseIsOnTheCurve` | lib/cmd/handshake/auth/ed25519-password-auth.js:131-138 | the limbs of X and Y are the base point: on the curve, 4/5 for its second coordinate, an even first one |
| `Int32.Exchange` | lib/cmd/handshake/auth/ed25519-password-auth.js:783-791 | masked exclusive-ors on 32-bit words exchange two words or leave them |
| `CurveOps.Sel25519` | lib/cmd/handshake/auth/ed25519-password-auth.js:783-791 | two arrays of limbs change places when the bit is set and stay otherwise |
| `CurveOps.Cswap` | lib/cmd/handshake/auth/ed25519-password-auth.js:737-741 | two points likewise |
| `CurveOps.ScalarMult` | lib/cmd/handshake/auth/ed25519-password-auth.js:654-667 | the 256 turns leave the coordinates of the ladder over the field |
| `CurveOps.ScalarBase` | lib/cmd/handshake/auth/ed25519-password-auth.js:178-185 | the same from the base point |
| `Ladder.LadderIsMultiple` | lib/cmd/handshake/auth/ed25519-password-auth.js:654-667 | for every scalar and every commutative group whose sum the addition of coordinates represents, the ladder represents that multiple of the base, by q = p + base across swaps |
| `Ladder.LadderOnTheCurve` | lib/cmd/handshake/auth/ed25519-password-auth.js:654-667 | in particular for affine points under the curve law |
| `Ladder.TurnDoubles` | lib/cmd/handshake/auth/ed25519-password-auth.js:661-666 | one turn doubles the multiple and takes in one bit, for either value of the bit |
| `Ladder.HighIsValue` | lib/cmd/handshake/auth/ed25519-password-auth.js:661-662 | the bits read by shifts are those of the little-endian scalar |
| `Packing.Inv25519` | lib/cmd/handshake/auth/ed25519-password-auth.js:680-689 | the result is the power of the element to the exponent 2^255-21 |
| `Packing.LoopExponent` | lib/cmd/handshake/auth/ed25519-password-auth.js:684-687 | the squarings and the two skipped multiplications make that exponent |
| `Packing.Pack25519` | lib/cmd/handshake/auth/ed25519-password-auth.js:712-735 | for any limbs of the sizes that occur, the 32 bytes are the element fully reduced |
| `Packing.SubtractPrime` | lib/cmd/handshake/auth/ed25519-password-auth.js:720-730 | one turn subtracts the prime by borrows and keeps the difference unless it is negative |
| `Packing.Par25519` | lib/cmd/handshake/auth/ed25519-password-auth.js:695-699 | the low bit of the reduced element |
| `Packing.Pack` | lib/cmd/handshake/auth/ed25519-password-auth.js:669-678 | the 256 bits are the second affine coordinate and, on top, the parity of the first (section 5.1.2 of RFC 8032) |
| `Packing.PackedIsThePoint` | lib/cmd/handshake/auth/ed25519-password-auth.js:669-678 | packing does not depend on which coordinates represent the point, where the power is the inverse |
| `Packing.PackBase` | lib/cmd/handshake/auth/ed25519-password-auth.js:52-59 | `scalarbase` and `pack` together, as the signature does them: the 32 bytes are those of the scalar times the base point, where the curve points are a commutative group and the power is the inverse |
| `Packing.PackedTells` | lib/cmd/handshake/auth/ed25519-password-auth.js:669-678 | the packed bits give the second coordinate back and tell a point from its negative |
| `Packing.PackedBase` | lib/cmd/handshake/auth/ed25519-password-auth.js:669-678 | the base point is packed as four fifths modulo the prime (section 5.1 of RFC 8032) |
| `PreparedProofs.EveryRun` | lib/cmd/class/prepare-cache-wrapper.js:22-39 | after every run of get, prepare, close and reset: `use` is the number of open wrappers, a statement is closed exactly when it is out of the cache with no open wrapper, its close is sent once, and open statements never outnumber cache slots and open wrappers |
| `PreparedProofs.StepKeeps` | lib/lru-prepare-cache.js:40-80 | each operation keeps that |
| `PreparedProofs.StepGrows` | lib/cmd/class/prepare-result-packet.js:130-135 | a close sent is never taken back |
| `PreparedProofs.OpenBound` | lib/lru-prepare-cache.js:28-31 | the bound on open statements |
| `PreparedKeys.HandleIsForKey` | lib/lru-prepare-cache.js:41-47 | after every run a `get` that finds its key hands out an open handle on the statement last prepared under that key, which is not closed |
| `PreparedKeys.KeyTells` | lib/lru-prepare-cache.js:41-47 | the key of database and text tells statements apart as long as no database has a bar in its name |
| `PreparedKeys.KeyMixes` | lib/lru-prepare-cache.js:41-47 | with a bar in the name, every text under that database has the key of another text under another database |
| `PreparedKeys.LeastRecentlyUsed` | lib/lru-prepare-cache.js:28-31 | after every run the cache holds the keys used most recently, in that order: a key used since the last reset that is not in it was used before all that are, and then the cache is full |
| `PreparedStatements.PrepareCacheWrapper.UnCache` | lib/cmd/class/prepare-cache-wrapper.js:27-32 | out of the cache, and closed at once when no wrapper is open |
| `PreparedStatements.PrepareCacheWrapper.DecrementUse` | lib/cmd/class/prepare-cache-wrapper.js:34-39 | one wrapper less, and closed with the last one when uncached |
| `PreparedStatements.PrepareCacheWrapper.IncrementUse` | lib/cmd/class/prepare-cache-wrapper.js:22-25 | one more wrapper, open |
| `PreparedStatements.PrepareResultPacket.Close` | lib/cmd/class/prepare-result-packet.js:130-135 | a statement emits its close once |
| `PreparedStatements.LruPrepareCache.Get` | lib/lru-prepare-cache.js:40-48 | a hit becomes the most recent and gives out an open wrapper |
| `PreparedStatements.LruPrepareCache.Set` | lib/lru-prepare-cache.js:57-60 | the value under the same key, or the oldest of a full cache, is disposed of |
| `PreparedStatements.LruPrepareCache.SuccessPrepare` | lib/cmd/prepare.js:59-79 | a new statement, whatever id the server gave it, is wrapped, cached and its first wrapper returned |
| `PreparedStatements.LruPrepareCache.CloseHandle` | lib/cmd/class/prepare-wrapper.js:58-63 | closing a wrapper counts once |
| `PreparedStatements.LruPrepareCache.Reset` | lib/lru-prepare-cache.js:78-80 | clearing disposes of every entry |
| `PipelineModel.EveryRun` | lib/connection.js:1519-1532 | after every run of adds and stream ends: the bytes on the wire are those of the first commands added, one after the other and in order, the others wait in that order, a streaming command is the head of the send queue, and the commands on the wire that are answered are the first of the receive queue |
| `PipelineModel.StalledExactly` | lib/connection.js:1653-1666 | commands wait with nothing being sent exactly when the one started last ended its start without `send_end`; without such commands never |
| `PipelineModel.StalledExample` | lib/cmd/batch-bulk.js:309-312 | a stream, a command that ends silently and a third command: the third is not sent |
| `BulkPipeline.BatchStalls` | lib/cmd/batch-bulk.js:307-313 | when a safe batch was started last, the commands behind it wait with nothing being sent if and only if a row of it is refused |
| `BulkPipeline.RefusedStalls` | lib/cmd/batch-bulk.js:307-313 | a stream, the batch of `RefusedExample` and a third command: the third is not sent |
| `PipelineModel.StalledStays` | lib/connection.js:1519-1532 | adding commands does not start a stalled queue again |
| `PipelineModel.StepKeeps` | lib/connection.js:1653-1666 | each event keeps the order |
| `Pipeline.Connection.AddCommandEnablePipeline` | lib/connection.js:1519-1532 | the queues, the listeners and the wire after an add are those of the model |
| `Pipeline.Connection.NextSendCmd` | lib/connection.js:1653-1666 | the next commands are started until one streams or none is left |
| `Pipeline.Connection.SendNextCmdImmediate` | lib/connection.js:2199-2203 | the same from the listener |
| `Pipeline.Connection.EndStream` | lib/connection.js:1662-1662 | the end of a stream takes it off the queue before the next is sent |
| `Pipeline.Connection.LateSendEnd` | lib/cmd/batch-bulk.js:630-638 | a late `send_end` passes over a stream under way and otherwise sends on |
| `QueryParams.Query.Start` | lib/cmd/query.js:66-248 | from a buffer of any size: the loop over the values ends at the first stream with its literal begun, or with everything on the wire, which is exactly the frames of the query with each placeholder replaced if and only if the command stayed intact, and so whenever the buffer is an ordinary one or the command fits one frame; it throws only otherwise, with nothing sent |
| `QueryParams.Query.ParamWritten` | lib/cmd/query.js:304-348 | the loop taken up behind a stream goes on at the next placeholder, to the same end |
| `QueryParams.Query.OnData` | lib/cmd/query.js:106-106 | a chunk of a stream adds its escaped bytes to the literal in the command under way, in any buffer |
| `QueryParams.Query.OnEnd` | lib/cmd/query.js:108-116 | the end of a stream closes the literal and goes on to the same end, whichever values were streams and however they were chunked |
| `QueryParams.Query.PutValue` | lib/cmd/query.js:84-124 | a text, a string or a buffer: what is written is the text, the literal of an encoding of the string, or `_BINARY` and the literal of the bytes |
| `QueryParams.EveryLiteralIsRead` | lib/cmd/query.js:84-124 | every literal of a query, of a string, a buffer or a stream, is read by a lexer with its own table of the character set, up to its own closing quote, as the bytes it stands for |
| `QueryText.TextStands` | lib/cmd/query.js:72-95 | the text of each value stands in the place of its own question mark, moved by the texts in front of it, and the bytes between are those of the query |
| `QueryText.LiteralBytes` | lib/cmd/query.js:84-124 | the bytes of the literal of a quote, as a buffer and as a string |
| `QueryParams.OverrunningQuery` | lib/cmd/query.js:66-248 | a query of 17000000 bytes in the buffer that a refused row of 20000000 bytes leaves is sent as one frame that announces another length |
| `QueryParams.SubstitutedItself` | lib/cmd/query.js:77-79 | nothing of the query is lost or doubled: question marks in the place of the placeholders give the query |
| `QueryParams.LiteralIsRead` | lib/cmd/query.js:105-113 | a streamed literal is read as the bytes of the stream |
| `Placeholders.SplitQuery` | lib/misc/parse.js:35-130 | the byte-wise scanner finds the question marks that are tokens of their own, in order, where strings, quoted names and comments are tokens, a placeholder takes the byte behind it along and the star that opens a comment may close it |
| `Placeholders.FoundExactly` | lib/misc/parse.js:29-34 | question marks in strings, quoted names and comments are not counted and all others are, for every query without a placeholder directly in front of a special byte or a comment that begins with a slash; every query with one has, up to it, an ending with which this fails |
| `Placeholders.CommentExample` | lib/misc/parse.js:116-120 | a question mark in a comment directly behind a placeholder is counted |

## Left out

- Placeholders.FoundExactly: for a query with such a byte it gives an ending that is misread, not whether the query's own ending is; when the bytes jumped over change nothing that follows, it is not.
- Packing.Inv25519: states the exponent, not that the result is the inverse, which is Fermat's theorem for this prime; `PackedIsThePoint` takes that as a hypothesis on the one element concerned.
- Ladder.LadderOnTheCurve: that the affine law makes the curve points a commutative group is a hypothesis, as the mathematics of the curve is.
- BulkProofs.SafeBulk: says nothing of the bytes sent when the condition of `BulkExact` fails, beyond their not being whole commands or their first frame.
- BulkProofs.BulkExact: of a first row that overruns the buffer it states the first frame sent; whether the bytes behind it could be read as other commands depends on the bytes of the row.
- TextCommand.WireExactly: says by the state reached whether the wire is right; by the buffer and the length of the command it says so one way only, because bytes read twice may happen to be those lost.
- QueryParams.Query.PutValue: the texts of numbers, dates, geometries and arrays are given, and so are strings under encodings other than utf8.
- Packing.PackBase: the group law and the inverse are hypotheses, as for `LadderOnTheCurve` and `PackedIsThePoint`.
- ConnectionPool.ConnectionPool.EndPool: the ten seconds of waiting for active connections and their forced close are not modelled.
- Pipeline.Connection.LateSendEnd: which response emits the late `send_end` is not modelled, only that at most one comes.
- `modL` and `reduce` of the signature, SHA-512, and the order of the group: scalars are any 256 bits.
- Geometry counts of 2^31 and more, for which `writeInt32LE` throws, and values whose coordinates are missing or not arrays.
- Buffers of finished geometries are handed from call to call by value; within a call they are arrays filled in place.
- BinaryReader.ValueIsRead: integers below -2^63, for which `writeBigInt64LE` throws, and years outside two bytes are excluded; the double of a number is given by its bits.
- BulkTypes.BatchArrives: a statement without parameters is excluded, because the rows of such a batch have no bytes and a server cannot count them.
- Escaping.Table: the byte ranges of the sets are those of lib/misc/charset-mb.js; the tables of a server are not part of this model.
- SqlPieces.StatementsExactly: of a file with a tight comment it gives an ending that is split wrongly, not whether the file's own is; two hyphens open a comment whatever follows, as the program has it.
- The lexer of a literal knows backslash escapes and multi-byte characters, not doubled quotes, which the escapes never write.
- Text behind the last semicolon of an SQL file, which is not sent; errors of the statements, which stop the reading.
- A query with fewer values than placeholders, which is refused before anything is written, and the `SET STATEMENT` prefix of a timeout.
- `splitQueryPlaceholder`, named parameters, and `addCommandEnable`, the queue without pipelining.
- Compression, iconv encodings, debug variants, logging, and the `maxAllowedPacket` error of single queries; `opts.maxAllowedPacket` of 0 or none is one case.
- Pool callbacks are atomic steps that neither throw nor call back into the pool; leak detection, back-off delays and the messages of errors do not appear.
- The end of a connection: the queues cleared and the commands in them rejected.
- Sockets, TLS, authentication dialogues other than the field arithmetic above, promises and event emitters, option parsing, result sets, clusters.
- `lru-cache` and `denque` are a recency sequence with dispose on overwrite, eviction and clearing, and a plain queue; their code is not part of this model.
