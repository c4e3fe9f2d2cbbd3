# Verification of pgz's core

pgz is a PostgreSQL driver. This project models its decoders, its row renderers, its protocol
loops and its connection pool in Dafny, and proves what they promise. `dafny verify
dfyconfig.toml` checks everything.

Sockets, clocks and the server are replaced by sequences of messages, by parameters, or by
nondeterministic choices, so every statement holds for all servers, all schedules, all chunkings
of the network stream and all timer readings. Bytes are integers 0..255 and buffers are
sequences, except where a buffer is moved or reused in place.

| file | models |
|---|---|
| `Bytes.dfy` | machine integers, big-endian and decimal text |
| `Calendar.dfy`, `DateTime.dfy` | timestamps and dates (`internal/types/binary.go`) |
| `Numeric.dfy` | base-10000 numerics (`internal/types/numeric_bin.go`) |
| `Interval.dfy` | ISO 8601 durations (`internal/types/interval.go`) |
| `JsonWriter.dfy` | string escaping, scalar and SWAR (`internal/jsonwriter`) |
| `Json.dfy` | readers of JSON values and lists, by RFC 8259 |
| `Rows.dfy`, `Headers.dfy` | DataRow and RowDescription, object, array and TOON rows (`internal/rows`) |
| `Documents.dfy` | the four response forms and readers for them (`pgz/query.go`) |
| `Stream.dfy`, `Query.dfy` | the writers, one execution, the two retry loops (`pgz/stream.go`, `pgz/query.go`) |
| `Args.dfy` | Bind parameters (`pgz/args.go`) |
| `Arrays.dfy` | arrays as nested JSON and as slices (`internal/types/array.go`, `pgz/scan.go`) |
| `Scan.dfy`, `ScanCauses.dfy` | struct scanning, unbatched and batched; how each scan ends, and why (`pgz/scan.go`) |
| `CopyIn.dfy`, `CopyOut.dfy`, `CopyCauses.dfy` | COPY binary in both directions; how each COPY TO ends, and why (`pgz/copy.go`, `pgz/copy_to.go`) |
| `ServerValues.dfy`, `ServerArrays.dfy` | values and arrays as the server's send functions write them, followed into JSON cells, struct fields, COPY fields and parameters |
| `Protocol.dfy` | the server, by section 55.2.3 (Extended Query) and section 55.2.4 (Pipelining) of the PostgreSQL 16 documentation |
| `StmtCache.dfy`, `Pipeline.dfy`, `Statements.dfy` | statement cache, batches, and whole runs of both: which texts the server executes (`pgz/stmtcache.go`, `pgz/pipeline.go`) |
| `Census.dfy` | where every statement the server holds is known, and which operations lose one |
| `Wire.dfy` | message framing and the buffered reader (`internal/wire/conn.go`) |
| `Pool.dfy`, `PoolRuns.dfy` | the pool as a system of goroutines; what can go wrong in it, and exactly when (`pgz/pool/pool.go`) |

The pattern is the same throughout. A method in the source's own form (loops, fields updated in
place) is proved equal to a specification function; then an independent reader, an inverse, an
invariant, or the exact cause of each outcome is proved about that function.

## Where the code and its comments differ

The model follows the code.

- Dates are exact only while their microseconds fit in 64 bits: `DateTime.DateExactIff` gives the
  exact range.
- An interval whose seconds part is 0 with a negative fraction loses its sign:
  `Interval.DurationRoundTrip` and `Interval.LostSignCollides`. The comment also promises a leading
  sign for all-negative intervals; the text always starts with P: `Interval.SignsIff`.
- A numeric can be written with a superfluous leading zero, which JSON forbids:
  `Numeric.LeadingZeroIff`, `Rows.NumericReadsIff`.
- Integer setters say that narrowing is rejected; they truncate: `Scan.ConvertExactIff`.
- Integer parameters that do not fit the server's type are truncated silently:
  `Args.IntParamExactIff`. The 8- and 16-bit integer types have no text form and fail where text is
  needed: `Args.IntEncodableIff`.
- A malformed array leaves partial text in front of the fallback string: `Arrays.EncodeArray`.
- JSON output takes any negative element length as NULL, slices take only -1: `Arrays.ElemAgreesIff`.
- The COPY signature is only validated if the first non-empty message holds all of it:
  `CopyOut.HeaderDropsNineteen`.
- After a pending Close the first `Exec` of a batch fails on the CloseComplete, and an error the
  server reports at Sync is drained away after every item was called successful:
  `Pipeline.RunBatch`.
- A statement the server holds can be lost for the rest of the connection: by a Prepare that fails
  behind a good Parse, by a batch that stops before an item's result was read, and by every batch
  that closes statements first: `Census.LostStep`.
- A malformed tuple or an unexpected message ends COPY TO without draining; every other outcome
  leaves the connection behind ReadyForQuery: `CopyOut.CopyToBinary`.
- The pool's replacement dial reserves no slot and a failed one is subtracted twice:
  `PoolRuns.OverLimitIff`, `PoolRuns.ReplacementExceedsMaxConns`,
  `PoolRuns.FailedReplacementUndercounts`.
- A cancelled wait can strand a connection in its channel: `PoolRuns.OrphanedIff`,
  `PoolRuns.CancelledHandover`.
- The comment in `discard` says a waiter retries. The code gives it ErrClosed if the replacement
  dial fails, although the pool is open (`PoolRuns.ErrClosedIff`), and no one looks for the waiters
  behind it (`PoolRuns.FailedReplacementStrands`, `PoolRuns.AnswerableStep`).

## Model

| member | source | states |
|---|---|---|
| `Calendar.SplitTimeCorrect` | internal/types/binary.go:355-394 | for every number of seconds, negative eras included, splitTime gives a valid proleptic Gregorian date and time of day, and an independent day count maps it back to the same second |
| `Calendar.YearOfEraCorrect` | internal/types/binary.go:376-381 | the four-term division picks the year whose 365y + y/4 - y/100 days contain the day, for every day of an era |
| `Calendar.SplitTimeInverts` | internal/types/binary.go:355-394 | splitTime is also the inverse in the other direction: every valid civil time comes back from its seconds |
| `Calendar.TimestampRoundTrip` | internal/types/binary.go:312-335 | the ISO text of any microsecond count reads back to that count, whatever suffix follows |
| `DateTime.TimestampCellRoundTrip` | internal/types/binary.go:252-288 | every eight-byte timestamp cell, both infinities included, reads back to the instant on the wire |
| `DateTime.TimestampCellInjective` | internal/types/binary.go:252-288 | different wire values never share a text |
| `DateTime.DateExactIff` | internal/types/binary.go:290-310 | the date text names the wire's day if and only if its absolute value is at most 106751991 |
| `DateTime.DateAgreesWithMidnight` | internal/types/binary.go:340-349 | where dates are exact, a date and the timestamp at its midnight show the same date |
| `Numeric.EncodeNumericBinary` | internal/types/numeric_bin.go:32-115 | the digit loops write the specified decimal text, special signs and malformed headers included |
| `Numeric.DigitsDenote` | internal/types/numeric_bin.go:86-113 | the written digits are the decimal digits of the sum of digit[i]*10000^(weight-i), cut off after dscale places, for every weight and scale |
| `Numeric.NumericDenotes` | internal/types/numeric_bin.go:59-115 | a decimal reader gets the sign, exactly dscale fraction digits and that truncated magnitude |
| `Numeric.LeadingZeroIff` | internal/types/numeric_bin.go:89-96 | the integer part has a superfluous leading zero exactly when the first of several limbs is zero |
| `Interval.EncodeIntervalBinary` | internal/types/interval.go:21-77 | peeling units off months and microseconds writes the specified duration |
| `Interval.AppendFrac6` | internal/types/interval.go:81-98 | the loop strips trailing zeros but never the last digit |
| `Interval.StripZerosValue` | internal/types/interval.go:93-96 | stripping trailing zeros never changes the value of the fraction |
| `Interval.DurationRoundTrip` | internal/types/interval.go:28-76 | a duration reader gets back months and days always, and the microseconds if and only if the seconds quotient is not zero with a negative fraction |
| `Interval.LostSignCollides` | internal/types/interval.go:67-73 | where the sign is lost, two different intervals have the same text |
| `Interval.SignsIff` | internal/types/interval.go:15-18 | every text starts with P, so the promise about signs holds if and only if some part of the interval is positive (or all are zero) and no sign is lost |
| `JsonWriter.AppendStringBodyBytes` | internal/jsonwriter/escape_scalar.go:29-46 | the scalar loop appends the byte-by-byte escape of its input |
| `JsonWriter.SwarExact` | internal/jsonwriter/escape_swar.go:41-46 | the word test is nonzero exactly when some byte is below 0x20, a quote or a backslash |
| `JsonWriter.WordPlain` | internal/jsonwriter/escape_swar.go:64-70 | the same for the eight bytes loaded at any position of a string |
| `JsonWriter.AppendStringBodySWAR` | internal/jsonwriter/escape_swar.go:59-91 | the word-at-a-time loop appends what the scalar loop appends, for every input |
| `JsonWriter.ReadStringOf` | internal/jsonwriter/writer.go:44-71 | an RFC 8259 string reader gets the original bytes back and stops right behind the closing quote |
| `JsonWriter.EscapedHasNoControl` | internal/jsonwriter/writer.go:50-71 | no control byte survives escaping |
| `Rows.EncodeRenders` | internal/types/binary.go:182-222 | the encoders that write quotes without escaping, and those of bool, integers and the special numerics, write exactly the JSON form of their cell |
| `Rows.NumericReadsIff` | internal/types/numeric_bin.go:32-115 | a JSON reader gets the sign, digits and scale of a numeric cell back if and only if no zero digit stands in front of others |
| `ServerValues.CellSays` | internal/types/binary.go:96-310 | the JSON cell of every value the server can send says that value: booleans, integers, text, bytea and uuid read back by a hex reader, timestamps, dates and intervals read back as instants, days and durations, numerics with the sign codes of numeric_send |
| `ServerValues.SentReads` | internal/types/binary.go:96-310 | and the text the encoder writes for it, wherever it stands in a row, is read by a JSON reader as a value that says so |
| `ServerValues.NumericWire` | internal/types/numeric_bin.go:32-60 | digit count, weight, sign code, scale and digits are found where numeric_send puts them, NaN and both infinities included |
| `ServerValues.UuidReads` | internal/types/binary.go:182-202 | the dashed text reads back to the sixteen bytes |
| `ServerValues.OtherCellsSay` | internal/types/binary.go:96-222 | NULL says null, and a cell whose length is not its type's shows its bytes as text |
| `Rows.AppendHexBytes` | internal/types/binary.go:204-209 | two lower-case hex digits a byte |
| `Rows.AppendObject` | internal/rows/datarow.go:31-68 | succeeds exactly on a well-formed DataRow of the plan's width and then appends the object text |
| `Rows.AppendArray` | internal/rows/datarow.go:71-105 | the same for the array form |
| `Rows.AppendTOONRow` | internal/rows/toon.go:27-60 | the same for the TOON line |
| `Rows.DecodeRowIff` | internal/rows/datarow.go:31-68 | a body is decoded to cells exactly when it is the DataRow of those cells, perhaps with more bytes behind it |
| `Rows.DecodeRowOf` | internal/rows/datarow.go:9-13 | a DataRow built from any cells is decoded to those cells |
| `Rows.ObjectRoundTrip` | internal/rows/datarow.go:31-68 | a JSON reader gets exactly the column names, in order, with their cells, numerics included unless zeros stand in front of one |
| `Rows.ArrayRoundTrip` | internal/rows/datarow.go:71-105 | a JSON reader gets the same cells from the array form |
| `Rows.ToonRoundTrip` | internal/rows/toon.go:7-26 | a TOON reader gets the same cells from the line |
| `Rows.RowsArePrintable` | internal/rows/toon.go:26 | no control byte, so no raw newline, stands inside a row |
| `Headers.ParseRowDescription` | internal/rows/plan.go:120-165 | the parse loop decodes exactly the specified fields, and fails on every truncated or negative form |
| `Headers.RowDescriptionRoundTrip` | internal/rows/plan.go:108-119 | the fields a server describes are the fields the plan gets, whatever stands behind them |
| `Headers.DecodeFieldsIff` | internal/rows/plan.go:120-165 | a RowDescription is accepted exactly when it is a list of at most 32767 well-formed fields, and then gives those fields |
| `Headers.NameNeedsQuote` | internal/rows/plan.go:210-222 | true exactly for names that are empty or hold a separator, bracket, quote, backslash, blank or control byte |
| `Headers.BareIff` | internal/rows/plan.go:210-222 | a column name goes without quotes exactly if it holds something and none of the separators, quotes, backslashes, brackets, blanks or control bytes |
| `Headers.BuildTOONHeader` | internal/rows/plan.go:193-208 | the loop writes the specified header |
| `Headers.ToonHeaderRoundTrip` | internal/rows/plan.go:189-208 | the TOON header reads back to the list of column names, whatever bytes they hold |
| `Headers.BuildColumnsHeader` | internal/rows/plan.go:176-187 | the loop writes the specified header |
| `Headers.ColumnsHeaderRoundTrip` | internal/rows/plan.go:176-187 | the columnar header is a JSON object whose members are named columns and rows, and a JSON reader gets the list of column names from it |
| `Documents.JsonArrayRoundTrip` | pgz/query.go:75-91 | a whole ModeArray response is one JSON array whose objects are exactly the rows |
| `Documents.NdjsonRoundTrip` | pgz/query.go:94-96 | a whole ModeNDJSON response splits into exactly the rows |
| `Documents.ColumnarRoundTrip` | pgz/query.go:99-101 | a whole ModeColumnar response reads back to the column names and the rows |
| `Documents.ToonDocumentRoundTrip` | pgz/query.go:103-117 | a whole ModeTOON response reads back to the column names and the rows |
| `Documents.BodyPrefix` | pgz/query.go:560-601 | fewer rows are always a prefix of more rows: what has been flushed never has to be taken back |
| `Stream.Writer.Flush` | pgz/stream.go:111-125 | all buffered bytes go out and the counters follow, or the destination fails after some of them and nothing else changes |
| `Stream.Writer.MaybeFlush` | pgz/stream.go:101-109 | flushes at the threshold, may flush when the timer says so, and otherwise changes nothing |
| `Stream.Writer.Reset` | pgz/stream.go:130-135 | before anything is committed it restores the pristine state; afterwards it does nothing |
| `Stream.Writer.GrowForRow` | pgz/stream.go:141-157 | growing the buffer never changes content or counters, and the copy always fits |
| `Query.WriteRow` | pgz/query.go:560-601 | a row that decodes is appended whole, with its separator, before any flush; a row that does not leaves the writer as it was |
| `Query.CheckCaps` | pgz/query.go:17-33 | reports a cap exactly when one is reached, the row cap first, with what was observed |
| `Query.AbortOversize` | pgz/query.go:39-61 | reads up to and including the first ReadyForQuery, whatever comes before it |
| `Query.OnDataRow` | pgz/query.go:425-439 | header, row and caps: after it the destination holds whole rows only and both caps are respected or reported |
| `Query.BindExecute` | pgz/query.go:376-474 | whatever the server answers, the result names its cause: on success every DataRow has become a row and the destination holds the complete document; on any failure but a write failure it holds the first rows of this execution and nothing else; the message that ended the loop is one that explains the result; a row is only accepted while both caps are unreached |
| `Query.EveryRowDecoded` | pgz/query.go:425-433 | the rows of an execution are its DataRow messages, one for one and in order |
| `Query.Client.RunCached` | pgz/query.go:255-282 | one attempt, or two exactly if the server called a cached statement unknown and nothing had been flushed; each attempt executes the cached or the just prepared plan on the next answer of the server, and what the writer holds is the output of the last one |
| `Query.Client.RunQueryInner` | pgz/query.go:142-193 | at most three rounds of two executions; another round exactly if the last one ended in a retryable error, nothing had been committed, the switch is on and the context was alive; the writer holds the output of the last attempt, or nothing if the context ended while waiting |
| `Query.OneAttemptShown` | pgz/query.go:163-193 | every attempt that was repeated had put nothing into the destination and ended in an error of the server that calls for a repetition |
| `Query.ResponseReadsBack` | pgz/query.go:75-117 | on success a reader of the response finds one row per DataRow of the server, with its cells, in order, under the plan that was cached or just prepared, in all four forms |
| `Query.RetriedIff` | pgz/query.go:163-193 | a further round follows if and only if the error is 40001 or 40P01, the switch is on, nothing has been flushed and the context is alive at both checks; never more than three rounds; the next one starts with nothing in the destination |
| `Query.PreparedAgainIff` | pgz/query.go:255-282 | a second attempt follows if and only if the plan was cached, the error is 26000 and nothing has been flushed; it prepares the statement anew |
| `Query.UnpreparedIs` | pgz/query.go:255-270 | without a plan nothing is executed or written, and the result is what the server said to the Parse, its own error code included |
| `Query.ErrorsReported` | pgz/query.go:376-474 | a successful execution met no error message, and a failed one reports the last it met |
| `Query.LastErrorIs` | pgz/query.go:455-460 | the error kept is that of the last error message |
| `Query.RowPlans` | pgz/query.go:425-450 | each row is decoded under the last RowDescription before it, or the cached plan if there is none |
| `Arrays.AppendArrayDim` | internal/types/array.go:66-102 | succeeds exactly when the body holds all elements of the shape, then has nested exactly those and consumed exactly their bytes |
| `Arrays.EncodeArray` | internal/types/array.go:30-60 | header errors give the quoted raw bytes; otherwise the nested text; a short body keeps the partial text in front of the quoted bytes, and a reader of arrays takes the two together for no value |
| `Arrays.NestReads` | internal/types/array.go:10-24 | for every shape and element type the nested text is JSON for the row-major array |
| `Arrays.TreeAt` | internal/types/array.go:19-23 | the element at an index path of the nested array is the row-major element of the flat body |
| `ServerArrays.SentArrayReads` | internal/types/array.go:30-102 | the header and elements of array_send are found for every shape, and the nested JSON shows at every index path the value sent at that row-major place, NULLs included |
| `ServerArrays.SentSliceReads` | pgz/scan.go:1444-1490 | the slice setter finds the length and every element of a sent 1-D array, each showing its value and NULL the zero value |
| `Arrays.SetArray1` | pgz/scan.go:1446-1489 | the 1-D setter fills slot k with wire element k, and fails on every malformed header, body or element |
| `Arrays.SetArray2` | pgz/scan.go:1498-1546 | the 2-D setter fills the rows of the row-major body in order, and fails in the same cases |
| `Arrays.CutAt` | pgz/scan.go:1492-1495 | row i, column j of the 2-D slice is flat element i*inner+j |
| `Arrays.SameElement` | pgz/scan.go:1526-1545 | the 2-D slice and the JSON form show the same wire element at the same index |
| `Arrays.ElemAgreesIff` | pgz/scan.go:1552-1565 | the JSON and the slice readers of an element agree exactly unless the length is below -1 |
| `Scan.InlineAgrees` | pgz/scan.go:630-708 | wherever the inline switch stores a cell it stores what the setter would have stored |
| `Scan.ConvertExactIff` | pgz/scan.go:959-980 | an integer survives the setter exactly when it fits the field's kind |
| `ServerValues.FieldShows` | pgz/scan.go:784-1070 | a scanned field shows the value the server sent, whatever it held before: integers cut to the field's width, timestamps as seconds and nanoseconds since 1970 |
| `Scan.SetOverwritesIff` | pgz/scan.go:943-946 | a setter ignores the old field exactly for the cells that are not NULL into an integer, sql.Null or time field (or an infinite or malformed time) |
| `Scan.FillStructRow` | pgz/scan.go:595-714 | succeeds exactly when the row decodes and every cell can be stored, then has stored all of them in column order; other slots are untouched |
| `Scan.BindExecuteScan` | pgz/scan.go:381-446 | the result is each row filled from a zero slot, in order, through every growth of the slice |
| `Scan.BindExecuteScanBatched` | pgz/scan.go:481-568 | the calls carry the unbatched rows in order, all but the last full, none after a refused one; with no refusal the outcome is the unbatched one; after one it is what the messages behind the row that completed the batch give, the callback's error if they are regular |
| `ScanCauses.ScanEnds` | pgz/scan.go:381-446 | a scan is done only if no error stands before the first ReadyForQuery; its end is the code of the last error there, and every other end is that of the one message that stopped it; the rows are the DataRows before that message, one for one and in order |
| `ScanCauses.DrainEnds` | pgz/scan.go:520-568 | behind a refused callback the rest is read up to the first ReadyForQuery, unless a message that cannot be there comes first |
| `ScanCauses.FilledCells` | pgz/scan.go:595-714 | each field of a filled row is set from the cell of its own column, and fields without a column are left alone |
| `Scan.ClearBatchSlots` | pgz/scan.go:575-583 | exactly the first n slots become zero |
| `Scan.StaleValueShows` | pgz/scan.go:943-946 | without clearing, a NULL would show the row that used the slot before |
| `CopyIn.CopyWriter.WriteField` | pgz/copy.go:349-427 | each typed field method appends length and value of its type and counts one field |
| `CopyIn.CopyWriter.Flush` | pgz/copy.go:454-465 | the reserved header is patched in place: one CopyData message of the payload leaves, the payload is empty afterwards |
| `CopyIn.WriteRow` | pgz/copy.go:144-168 | a full row is appended with its count patched in; an end of stream rolls back everything the callback wrote |
| `CopyIn.CopyFromBinary` | pgz/copy.go:120-185 | on success the messages carry header, every row and trailer, each message ending on a row boundary and all but the last at least the flush threshold long; on failure only whole rows have left and no trailer; each failure names its cause |
| `CopyIn.PumpCopyData` | pgz/copy.go:223-246 | the input is cut into CopyData frames of at most the given size that carry exactly its bytes in order |
| `CopyOut.CopyReader.Read` | pgz/copy_to.go:371-490 | typed reads with a sticky error: value, NULL flag and cursor exactly as specified |
| `CopyOut.CopyReader.IsNull` | pgz/copy_to.go:344-354 | tells whether a NULL comes next and leaves the cursor alone |
| `CopyOut.CopyReader.SkipNull` | pgz/copy_to.go:359-368 | consumes a NULL if one comes next, and otherwise nothing |
| `CopyOut.HeaderDropsNineteen` | pgz/copy_to.go:237-250 | exactly 19 bytes are dropped however they are split, and a wrong signature is noticed if and only if the first non-empty message holds all 11 bytes of it |
| `CopyOut.CopyToBinary` | pgz/copy_to.go:142-231 | the loops deliver the specified rows and status, for any handler that ends, fails or goes on; the connection is left right behind ReadyForQuery unless a tuple was malformed or a message unexpected |
| `CopyCauses.ReadsFailIff` | pgz/copy_to.go:321-490 | typed reads fail if and only if the bytes do not start with a tuple of those types |
| `CopyCauses.ScanExact` | pgz/copy_to.go:142-231 | the rows are the tuples of the data behind the 19 header bytes, one for one and in order, up to the first reason to stop; without one the status is what the message behind the data says |
| `CopyCauses.CopyEnds` | pgz/copy_to.go:142-231 | complete exactly if a CommandComplete ended the data with ReadyForQuery behind it and no error response before it; refused exactly if an error response ended the data; a handler that ends or fails at call n gets no row behind it |
| `ServerValues.CopyFieldIs` | pgz/copy.go:349-427 | the bytes of each written field are what the server's send functions write for its value |
| `ServerValues.CopyFieldReads` | pgz/copy_to.go:371-490 | and the typed read of a sent value gives that value and stops behind it |
| `CopyOut.EverySplitReads` | pgz/copy_to.go:153-160 | for any split of the header, packing of tuples, place of the trailer and notices in between, the handler gets every row in order and the COPY completes |
| `CopyOut.CopyRoundTrip` | pgz/copy.go:120-185 | the writer's messages, for any flush threshold, give the reader the same typed rows, NULLs included |
| `Protocol.WellNamedServes` | pgz/pipeline.go:100-167 | whatever fails and whenever, a pipeline that only names held or earlier-parsed statements never meets a missing or duplicate name |
| `Protocol.FirstErrorServed` | pgz/pipeline.go:108-158 | messages without a Sync fail at the first one that is refused, and the error reported is the one of that message |
| `StmtCache.NamesDistinct` | pgz/stmtcache.go:85-96 | different sequence numbers never give the same statement name |
| `StmtCache.StmtCache.Put` | pgz/stmtcache.go:59-72 | at capacity exactly one entry makes room and its name is queued for Close |
| `StmtCache.StmtCache.Invalidate` | pgz/stmtcache.go:100-107 | the entry is dropped and its name queued for Close |
| `StmtCache.PutKeepsCacheInv` | pgz/stmtcache.go:59-72 | no two entries share a name, and a name queued for Close is neither queued twice nor still in use |
| `Pipeline.SendBatch` | pgz/pipeline.go:108-167 | the batch writes pending Closes, then each item's messages, then one Sync |
| `Pipeline.ParsedOnce` | pgz/pipeline.go:118-149 | an item is Parsed exactly when its SQL is neither cached nor seen earlier in the batch, and items with the same SQL share one name |
| `Pipeline.ServeBatch` | pgz/pipeline.go:100-167 | for every fate of every message the server's answer is one block per item, with that item's own tag or its own first error, cut short behind the first error, then what Sync reports, then ReadyForQuery; it has executed exactly the texts of the items that went well |
| `Pipeline.BatchResults.Exec` | pgz/pipeline.go:192-210 | in step, the result is this item's; after a failure ErrBatchAborted; only a newly parsed, successful statement is cached |
| `Pipeline.BatchResults.Close` | pgz/pipeline.go:236-257 | leaves the connection right behind this batch's ReadyForQuery |
| `Pipeline.RunBatch` | pgz/pipeline.go:192-257 | send, any server outcome, any number of Exec calls, Close: without a pending Close each result is told by the server's decisions alone (the item's tag, its first error, or ErrBatchAborted behind a failed item), otherwise the first call fails; if all results are good the server reported an error exactly if Sync failed; the cache keeps the statements of the successful items; the connection is realigned in every case |
| `Statements.NamesNeverFail` | pgz/pipeline.go:108-158 | over any run of prepare, bind, evict, invalidate and batch, every Bind names a held or just-parsed statement and no Parse reuses a name, so the server never reports either |
| `Statements.OwnTextsRun` | pgz/pipeline.go:117-167 | after any run the server executes, for the next operation, exactly the texts it was given: a cached statement's own text if nothing fails, and those of a batch's items, new, cached or repeated, up to the first that fails |
| `Statements.RunsKeepInv` | pgz/query.go:255-282 | in every run the cache names only statements the server holds, each for the text it is cached under, and the server holds only names the cache handed out |
| `Statements.PlanIsWellNamed` | pgz/pipeline.go:117-158 | the messages of a batch only rely on held or earlier-parsed names, and every name they parse is new |
| `Census.LostStep` | pgz/stmtcache.go:59-107 | after any run: executing, evicting and invalidating lose no statement of the server; a Prepare loses its new one exactly if the server holds it and it was not stored; a batch loses exactly the new ones behind the first failing item or the last Exec, and all of them if Close messages went out in front |
| `Census.CleanRunsLoseNothing` | pgz/stmtcache.go:36-72 | while nothing fails every statement of the server is cached or queued for Close, so it never holds more than the cache and its queue |
| `Census.PutTracks` | pgz/stmtcache.go:59-72 | storing makes the new statement known under its text, queues the evicted one and touches no other |
| `Args.WriteBindParams` | pgz/args.go:47-91 | succeeds exactly when every argument has a binary or a text form, and then appends the whole parameter block |
| `Args.AppendParamBinary` | pgz/args.go:137-204 | length and big-endian bytes; the two 32-bit halves of a 64-bit integer are its eight bytes |
| `Args.BlockRoundTrip` | pgz/args.go:36-46 | a server reading the block gets one format and one value an argument, NULLs included, and stops behind it |
| `Args.IntParamExactIff` | pgz/args.go:147-171 | an integer argument reaches the server unchanged exactly when it goes as text or fits the server's type, which for `oid` is unsigned |
| `Args.IntEncodableIff` | pgz/args.go:266-310 | an integer argument cannot be sent exactly when it is of an 8- or 16-bit type and the server type is not an integer |
| `ServerValues.ParamReceived` | pgz/args.go:137-310 | the server's receive functions, or its readers of text forms, take every argument for the value it stands for |
| `ServerValues.BinaryIff` | pgz/args.go:98-135 | an argument goes in binary exactly when its type is the server's, integers of any size among each other |
| `Wire.Builder.Finish` | internal/wire/conn.go:227-235 | the length is patched in place: what was appended since Begin becomes the body, nested messages included, and earlier bytes stay |
| `Wire.Conn.WriteRaw` | internal/wire/conn.go:159-168 | all bytes leave in order over any number of partial writes, or a prefix and an error |
| `Wire.SendAll` | internal/wire/conn.go:170-200 | messages built one after the other leave as their frames in order |
| `Wire.BufReader.Peek` | internal/wire/conn.go:107-125 | gives the next n bytes exactly when the stream still has them, for every chunking, and consumes nothing |
| `Wire.ReadMessage` | internal/wire/conn.go:99-149 | the result depends on the byte stream alone: not on buffer size, chunking or which of the two paths is taken; bogus and oversized lengths are reported |
| `Wire.TakeMessageIff` | internal/wire/conn.go:99-149 | a message is taken exactly if the stream starts with its frame and its body has at most 2^28 bytes |
| `Wire.MessagesRoundTrip` | internal/wire/conn.go:170-235 | any sequence of messages built and sent is read back type for type and body for body |
| `PoolModel.Pool.New` | pgz/pool/pool.go:97-116 | MinIdle connections are opened and counted; if a dial fails the pool is closed and what was opened is handed to be closed |
| `PoolModel.Pool.AcquireOnce` | pgz/pool/pool.go:192-222 | the critical section takes the newest idle connection, or a slot, or queues a waiter |
| `PoolModel.Pool.Put` | pgz/pool/pool.go:246-270 | a returned connection goes to the oldest waiter, the idle stack, or is closed |
| `PoolModel.Pool.Retire` | pgz/pool/pool.go:272-307 | the slot goes, and the oldest waiter gets a replacement dial |
| `PoolModel.Pool.CancelWait` | pgz/pool/pool.go:234-241 | the waiter's first entry is removed, if it is still queued |
| `PoolModel.Pool.EvictIdle` | pgz/pool/pool.go:451-465 | the loop keeps and drops exactly as specified |
| `PoolModel.RunsObeyLaws` | pgz/pool/pool.go:130-306 | in every run: inUse counts holders and acquire-time dials; every connection is in exactly one place or closed once; open is exact up to failed replacements and Close; open is within MaxConns unless replacements were dialled |
| `PoolModel.StepKeepsInv` | pgz/pool/pool.go:192-306 | every critical section, channel operation and dial outcome keeps every law |
| `PoolModel.SendsNeverBlock` | pgz/pool/pool.go:261-303 | in every run a goroutine about to send finds its channel empty |
| `PoolModel.OneSenderEach` | pgz/pool/pool.go:220-243 | in every run an unanswered waiter is in the waiter list or with exactly one goroutine, and after Drain or Close with a goroutine |
| `PoolRuns.AnswerableStep` | pgz/pool/pool.go:192-306 | while callers are queued in an open pool: after a step a goroutine will come to look for them if and only if one is left that the step does not lose, or a new caller gets in; a step loses one by a failed replacement dial, a cancelled wait with the answer on its way, or a handover to a waiter that has given up |
| `PoolRuns.RunsServe` | pgz/pool/pool.go:192-306 | in every run without such a loss no queued caller is ever stranded |
| `PoolRuns.FailedReplacementStrands` | pgz/pool/pool.go:281-292 | a run after which a caller is queued, nothing inside the pool can happen any more, and open is -1 |
| `PoolRuns.ErrClosedIff` | pgz/pool/pool.go:224-232 | in every run an answered caller gets ErrClosed if and only if Drain or Close took it from the list, its replacement dial failed, or the pool closed during that dial; otherwise it gets a connection |
| `PoolRuns.OverLimitStep` | pgz/pool/pool.go:281-303 | a step takes open above MaxConns exactly when it registers a replacement in an open pool that is full |
| `PoolRuns.OverLimitIff` | pgz/pool/pool.go:281-303 | a run exceeds MaxConns at some point if and only if it has such a step |
| `PoolRuns.OrphanedStep` | pgz/pool/pool.go:233-268 | a connection is lost in a channel exactly when the receiver leaves the full channel, or the connection is sent after the receiver has left |
| `PoolRuns.OrphanedIff` | pgz/pool/pool.go:233-268 | a run ends with a lost connection in a channel if and only if it has such a step |
| `PoolModel.EvictionKeeps` | pgz/pool/pool.go:451-469 | eviction preserves order, drops only stale entries, keeps at least min(MinIdle, previous length), and keeps a stale entry only among the first MinIdle it keeps |
| `PoolRuns.ReplacementExceedsMaxConns` | pgz/pool/pool.go:281-303 | a run with MaxConns 1 that ends with two open connections |
| `PoolRuns.FailedReplacementUndercounts` | pgz/pool/pool.go:284-292 | a run after which open is -1 |
| `PoolRuns.CancelledHandover` | pgz/pool/pool.go:233-243 | a run in which a cancelled wait strands a connection in its channel |
| `PoolRuns.NewestFirst` | pgz/pool/pool.go:192-270 | in an open pool without waiters a returned connection is the next one handed out, and the others keep their places |
| `PoolRuns.OrphansStay` | pgz/pool/pool.go:233-243 | no later run ever moves or closes such a connection |

## Left out

- TCP, TLS, DNS, deadlines, authentication, observers and counters: input and output, or plumbing.
- Float cells: their text is Go's shortest formatting; `json` and `jsonb` cells: bytes are passed through unread, so no row grammar can be promised for them.
- `time` and `timetz` cells, text-format encoders and range types: they repeat shapes already covered.
- Rows.ObjectRoundTrip: array columns; what their text means is `Arrays.NestReads`.
- Rows.ArrayRoundTrip: array columns.
- Rows.ToonRoundTrip: array columns.
- JsonWriter.ReadStringOf: the reader knows only the escapes below U+0080, which is all the writer emits.
- `runSimple` and `execBind`: they repeat the message loop of `bindExecute` without new state.
- Aliasing of wire buffers: slices handed out by `ReadMessage`, `CopyReader.Text` and the row encoders are copies here, so their lifetime until the next read is not captured. The pooled buffer returned after a write error is not modelled.
- Query.BindExecute: after a failed write the destination holds a prefix of the document that need not end on a row boundary, as io.Writer allows; its errors are not server errors.
- Query.Client.RunQueryInner: the context is a function that says at each check whether it has ended; waiting takes no time.
- Batch `Query`: its iterator reads on to ReadyForQuery, past the item's own answer.
- Pipeline.SendBatch: arguments are assumed to be encodable, since a failure leaves an unfinished frame in the write buffer; parameter OIDs and plans stored with a cached statement are not modelled.
- Args.WriteBindParams: float and time arguments, whose text forms are Go's own formatting.
- Args.AppendParamBinary: float and time arguments.
- Arrays.EncodeArray: that a malformed array is unreadable is stated for every element type but numeric.
- Statements.NamesNeverFail: one backend; rotation behind a pooler is what the retry in `Query.Client.RunCached` is for. The 64-bit wrap of the name counter is not modelled.
- Pool: the lifetime and ping checks around `acquireOnce`, and the waiting part of Drain and WaitIdle.
- Scan: field types other than bool, integers, string, bytes, time, sql.NullInt and integer pointers; named types that implement sql.Scanner.
- Scan.BindExecuteScanBatched: the callback is assumed not to keep or change the slice it is given.
- CopyIn.CopyFromBinary: the messages of the COPY protocol around the data (CopyInResponse, CopyDone, CopyFail) are not modelled.
- CopyOut.CopyRoundTrip: values below 2^31 bytes and messages up to 2^32 bytes, as the length fields demand; `Bytes` is Text, and the timestamp and float fields have the wire form of Int8 and Int4.
- Headers.ParseRowDescription: choosing an encoder for a type OID is a table and is left to the column kinds of `Rows`.
