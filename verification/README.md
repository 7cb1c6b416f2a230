# Model of a Firebird wire-protocol driver

A Dafny model of the state and arithmetic behind a Go driver for Firebird: what travels on the wire and in
which order, how values are turned into bytes and back, how a session key is agreed on, and how the connection
keeps its transactions apart. Everything below holds for all inputs, all chunkings of the stream, all answers
of the server and all runs, except where a line says otherwise.

How the pieces fit together:

- `Common`, `BigInt`: shared types, integer powers, modular arithmetic and big-endian numbers.
- `Srp`, `DateTime`: SRP-6a key agreement and civil-date arithmetic.
- `Decimal`, `Numeric`, `ScaledText`, `Dpd`, `DecFloat`, `DecFloatWire`, `Int128`: decimal text, scaled numbers,
  decimal floating point and 128-bit integers.
- `Xdr`, `Writers`, `Readers`: byte encodings, the growing and the fixed output buffer, and the sliding input
  window. A `Source` delivers its bytes in arbitrary chunks.
- `Descriptors`, `NullBitmap`, `RowFormat`, `RowRoundTrip`, `RowValues`, `RowLayout`, `ParamEncoder`, `ParamStack`,
  `RowDecoder`: the row format as functions on byte sequences, the proof that decoding inverts encoding, what that
  means for every kind of value and what its bytes are, and the imperative encoders and decoders that compute those
  functions.
- `Fetch`, `Cursor`, `FetchWire`: row windows in a reused, growing array, iteration over batches, and the bytes a
  server sends for them.
- `DescribeParser`, `Describe`, `DescribeNumbers`, `DescCache`, `DescHonest`: describing a statement, resuming a
  truncated description, what comes of given columns, and caching it by its raw bytes, which share a buffer with the
  continuations.
- `HandlePool`, `WireServer`, `WireSession`, `Blobs`, `WireRuns`: the pipelined session as a state machine. The
  server answers requests in order and as it likes, following a script; every answer carries the number of the
  request it answers, which only proofs look at. `InSync` says that the responses still unread are exactly those counted as
  deferred, `Owning` that every statement handle has one owner.
- `Trace`, `Connection`, `ConnectionRuns`: auto-commit and explicit transactions, bad connections, the retry signal
  and who holds which statement handle, over an arbitrary sequence of successes, server errors and transport
  failures. A status error may leave a response unread, as a refused allocate does (`WireSession` says when); from
  then on `inStep` is down, and an acknowledgement counts as the server's own (`Acked`) only while it was up. One
  operation may be several requests: all the continuations of a description, or none; a whole blob.
- `WireTrace`, `WireSteps`: the logs of wire runs replay to the same pool and the same handles in use, and lose step
  when the wire does.

Code that updates buffers, arrays or fields is modelled by classes and methods whose contracts tie the new state
to functions of the old one; the lemmas are about those functions.

Where a property the driver aims at fails, the model keeps the code's behaviour and states exactly when the
property holds:

- `Numeric.ScaledExactly`: decimal exponents wrap around at 64 bits.
- `ScaledText.PrintedReadsBack`: the 64-bit printer loses negative numbers at scale 0. Its callers
  (internal/wire/types_decode.go:22-37) print only negative scales, so the driver never meets that case.
- `Int128.Int128RoundTrip`: the 128-bit range is not checked.
- `ParamStack.OptimalAgrees`: a DOUBLE without room in the fixed buffer is dropped in silence, when everything after
  it that is no DOUBLE fits.
- `Cursor.DeliversEverything`: an empty batch before the end ends iteration.
- `DescCache.ConfusedExactly`: continuations overwrite the bytes a query is remembered under, so a later query can be
  answered with another description; `DescCache.Misremembered` is a run in which it is. Against an honest server
  (`DescHonest.HonestUntruncatedAreRight`) only truncated queries can be.
- `WireSession.WireConnection.AllocateAndPrepare`, `Execute2`, `FetchRowsReuse`: a failed deferred response, or a
  refused allocate, leaves a response unread. `consumeDeferred` (internal/wire/database.go:81-90) does not count the
  failed response; operations with as many plain responses as requests stay in step because of that, but report
  an older request's error.
- `Connection.Stmt.ExecContext`: the transaction handle 0 is taken for no transaction.
- `ConnectionRuns.Run`: closing a prepared statement on a live connection gives its handle away even while its rows
  are open, and exactly then ownership is lost; `Connection.ClosedTooEarly` is a run in which the rows go on to use it.
- `Connection.Stmt.Close`: the comment in statement.go announces a commit at close; no execution ever leaves one due.

## Model

| member | source | states |
|---|---|---|
| `Srp.GroupElementFits` | internal/bignum/srp.go:44-48 | Every residue modulo N fits the 128-byte key field, so padding an honest key never overruns it. |
| `Srp.ScrambleInputInjective` | internal/wire/auth.go:98-103 | What is hashed into u determines both public keys: no two pairs of keys pad to the same bytes. |
| `Srp.DigestBound` | internal/wire/auth.go:98-119 | Any 20-byte digest read as a number is below 2^160, the bound the exponent argument rests on. |
| `Srp.ExponentBelowModulus` | internal/wire/auth.go:140-146 | For a, below 2^128, and u, x below 2^160, the exponent a + u*x is below 2^321 and hence below N, so reducing it modulo N changes nothing. |
| `Srp.ComputeClientSecret` | internal/wire/auth.go:124-149 | The code's computation with two reused temporaries and a reduction after every step gives the client secret of section 2.6 of RFC 5054, defined without any intermediate reduction. |
| `Srp.SecretsAgree` | internal/wire/auth.go:121-155 | For all private keys and all hash values u and x, the client's and the server's secrets are the same number modulo N. |
| `Srp.ToUpperHex` | internal/wire/auth.go:313-321 | The two digits per byte written in place are the upper-case hexadecimal form of the bytes. |
| `Srp.UpperHexDigits` | internal/wire/auth.go:313-321 | That form has two digits per byte, each 0 to 9 or A to F, the high half of the byte first. |
| `Srp.HexRoundTrip` | internal/wire/auth.go:197-226 | Parsing that hexadecimal form as a number gives back the number the bytes encode. |
| `Srp.ChallengeRoundTrip` | internal/wire/auth.go:197-226 | Salt and server key survive building and parsing a challenge; the key 0, written as no digits, is the one that is refused. |
| `Srp.ClientSessionKey` | internal/wire/auth.go:124-155 | The session key is the digest of the client secret's minimal big-endian bytes. |
| `Srp.UserHashSeparates` | internal/wire/auth.go:108-119 | Unless the hash collides, x tells any two passwords apart, and any two salts of one length. |
| `Srp.Exchange` | internal/wire/auth.go:77-92 | Against an honest server, which derives its verifier, secret and key by its own definitions, the exchange succeeds exactly when B is not zero, and then both sides hold the same session key. |
| `BigInt.BigBytesRoundTrip` | internal/bignum/srp.go:51-58 | Minimal big-endian bytes give back their number, without leading zero bytes. |
| `BigInt.FillBytesRoundTrip` | internal/bignum/srp.go:44-48 | A number that fits a fixed-width field is read back from it unchanged. |
| `BigInt.FillsBigEndian` | internal/bignum/srp.go:44-48 | Every byte of a fixed-width field is the one its place names, the most significant first, in two's complement for negative numbers. |
| `BigInt.BytesToBigInjective` | internal/bignum/srp.go:51-58 | Byte strings of equal length are different numbers. |
| `DateTime.NextDayNumber` | internal/wire/types_datetime.go:33-49 | For every year, negative ones included, the day number of the next proleptic Gregorian day is exactly one more. |
| `DateTime.DayNumbersIncrease` | internal/wire/types_datetime.go:33-49 | Later dates have larger day numbers, so the numbering is strictly increasing and injective. |
| `DateTime.MJDRoundTrip` | internal/wire/types_datetime.go:22-54 | Converting "1858-11-17 plus n days" to a modified Julian date gives n, exactly for n in 32 bits. |
| `DateTime.TicksRoundTrip` | internal/wire/types_datetime.go:57-74 | A time of day comes back from ticks cut to 100 microseconds, and ticks of a day come back unchanged. |
| `DateTime.TimestampRoundTrip` | internal/wire/types_datetime.go:77-82 | A date and time come back from their two wire numbers. |
| `DecimalText.ParseDecimalStringStrict` | internal/wire/types_numeric.go:169-242 | The scanner's loops, flags and 64-bit exponent arithmetic compute the declarative parse of the text, with the same errors in the same cases. |
| `DecimalText.ParseRendered` | internal/wire/types_numeric.go:169-242 | Every numeral of the accepted grammar is read as the sign, digits and power it denotes, or refused exactly when its written exponent leaves 64 bits. |
| `DecimalText.AcceptedIsRendered` | internal/wire/types_numeric.go:169-242 | Conversely, every accepted text is such a numeral apart from surrounding space, so the grammar is exactly the accepted language. |
| `Numeric.DecimalStringToScaledBigInt` | internal/wire/types_numeric.go:133-167 | The in-place scaling, with its wrapping 64-bit shift, computes the specified scaled integer or error. |
| `Numeric.ScaledInRange` | internal/wire/types_numeric.go:133-167 | While the shift stays within 64 bits the result is the nearest integer, ties away from zero, and shifts over 128 of a nonzero number are refused. |
| `Numeric.ScaledExactly` | internal/wire/types_numeric.go:133-167 | Over every accepted text and scale, the result is correctly rounded if and only if the number is zero or its exact shift lies above -2^63 and at most at 128. |
| `Numeric.WrappedExponentIsWrong` | internal/wire/types_numeric.go:133-167 | Concrete texts whose exponent wraps around: 1e9223372036854775807 at a negative scale, and its mirror image, come out as 1. |
| `Numeric.NearestUnique` | internal/wire/types_numeric.go:150-166 | Nearest with ties away from zero determines the rounded integer. |
| `ScaledText.RoundingMonotone` | internal/wire/types_numeric.go:133-167 | Rounding never reverses the order of two decimals, whatever powers of ten they are written with. |
| `ScaledText.OddSymmetric` | internal/wire/types_numeric.go:133-167 | Writing the opposite sign negates the scaled result, or leaves the same error. |
| `ScaledText.ScaleIntegralInt64` | internal/wire/types_numeric.go:109-120 | The step-by-step multiplication equals exact multiplication by 10^(-scale) and fails exactly when the product leaves 64 bits. |
| `ScaledText.IntegralAgreesWithText` | internal/wire/types_numeric.go:109-131 | An integer binds to the same NUMERIC value, or error, whether passed as a number or as decimal text. |
| `ScaledText.Int64ToString` | internal/wire/types_numeric.go:378-394 | The digit loop writes the decimal form; a negative number comes out empty. |
| `ScaledText.PrintedReadsBack` | internal/wire/types_numeric.go:353-426 | Printing and parsing undo each other for every integer and scale; for the 64-bit printer this fails exactly for negative numbers at scale 0. |
| `Dpd.DecletRoundTrip` | internal/wire/types_decfloat.go:164-221 | Decoding the densely packed form of any three digits (section 3.5.2 of IEEE 754-2008) gives those digits. |
| `Dpd.EveryDecletDecodes` | internal/wire/types_decfloat.go:164-214 | All 1024 ten-bit patterns decode, to a number below 1000: the failure branch is dead. |
| `Dpd.CalcDPDSignificand` | internal/wire/types_decfloat.go:140-162 | The two loops combine leading digit and declets, most significant first, for any number of bits. |
| `Dpd.DecletsRoundTrip` | internal/wire/types_decfloat.go:140-162 | A coefficient of any length is recovered from its declets. |
| `DecFloat.FormatDecimalCoefficient` | internal/wire/types_decfloat.go:231-289 | The appending loops produce the specified text in the zero, plain and E-notation branches. |
| `DecFloat.FormatDenotes` | internal/wire/types_decfloat.go:231-289 | For every sign, coefficient and 32-bit exponent, the text read back by the decimal parser denotes exactly sign * coefficient * 10^exponent. |
| `DecFloatWire.Decfloat64BytesToString` | internal/wire/types_decfloat.go:43-89 | The bit fields are taken apart as specified, special values included. |
| `DecFloatWire.Decfloat128BytesToString` | internal/wire/types_decfloat.go:91-138 | The same for the 128-bit format. |
| `DecFloatWire.Decimal64Exact` | internal/wire/types_decfloat.go:43-89 | Every decimal64 number of up to 16 digits and any legal exponent becomes text denoting exactly that number. |
| `DecFloatWire.Decimal128Exact` | internal/wire/types_decfloat.go:91-138 | The same for decimal128 and up to 34 digits. |
| `DecFloatWire.EveryPatternHasText` | internal/wire/types_decfloat.go:43-138 | Decoding is empty exactly for input that is too short: no bit pattern is rejected. |
| `Int128.CopyMagnitude` | internal/wire/types_int128.go:54-79 | The copied bytes are the magnitude modulo 2^128, however long it is. |
| `Int128.StringToInt128Err` | internal/wire/types_int128.go:54-79 | The result is the two's complement form of the scaled integer, or the scaling error. |
| `Int128.Int128RoundTrip` | internal/wire/types_int128.go:54-79 | The 16 bytes read back as the number if and only if it lies in the signed 128-bit range; nothing checks that range. |
| `Int128.Int128Layout` | internal/wire/types_int128.go:54-79 | The 16 bytes are the number's two's complement, the most significant first. |
| `Int128.Int128Overflow` | internal/wire/types_int128.go:54-79 | 2^127 is written without an error and reads back as -2^127. |
| `Xdr.BufferRoundTrip` | internal/wire/reader.go:192-212 | Reading a written buffer returns its data and what follows if and only if it is at most 64 MiB long. |
| `Xdr.PaddedRoundTrip` | internal/wire/reader.go:192-212 | The filler used for padding does not matter to the reader. |
| `Xdr.Int64RoundTrip` | internal/wire/reader.go:170-184 | Eight big-endian bytes give back the 64-bit number. |
| `Xdr.NumberLayout` | internal/wire/writer.go:155-173 | Numbers of four and of eight bytes are written in two's complement, the most significant byte first. |
| `Writers.Writer.Grow` | internal/wire/writer.go:141-152 | Growing keeps everything written and makes room. |
| `Writers.Writer.WriteRaw` | internal/wire/writer.go:214-218 | Writes append, and nothing else. |
| `Writers.Writer.WriteBuffer` | internal/wire/writer.go:176-186 | Length, data and zero padding to a multiple of four are appended. |
| `Writers.Writer.WritePadded` | internal/wire/types_encode.go:195-211 | A padded buffer with a chosen filler is appended. |
| `Writers.Writer.Flush` | internal/wire/writer.go:221-228 | A stream that takes everything gets exactly what was written; one that fails gets a prefix and the error is reported; either way the buffer is empty, and an empty buffer asks nothing of the stream. |
| `Writers.StackWriter.WriteRaw` | internal/wire/writer.go:53-80 | Data that fits is appended; otherwise nothing is written and the overflow flag is raised and stays raised. |
| `Writers.StackWriter.WritePadded` | internal/wire/writer.go:83-112 | The same for padded buffers, which are written whole or not at all. |
| `Readers.Reader.Ensure` | internal/wire/reader.go:84-133 | Compacting, growing and refilling leave the byte sequence still to be read unchanged; n bytes become available exactly when the stream holds n more, however it is chunked. |
| `Readers.Reader.ReadView` | internal/wire/reader.go:70-80 | Removes exactly the first n bytes of the remaining stream and returns them. |
| `Readers.Reader.ReadInt32` | internal/wire/reader.go:150-157 | Takes one big-endian number off the stream. |
| `Readers.Reader.ReadInt64` | internal/wire/reader.go:170-184 | Takes one 64-bit number off the stream. |
| `Readers.Reader.ReadBuffer` | internal/wire/reader.go:192-212 | Takes one padded buffer off the stream, and fails exactly when the stream does not start with one under the cap. |
| `Readers.Reader.ReadOpcode` | internal/wire/reader.go:248-255 | Skips dummy packets and takes the first real opcode off the stream. |
| `NullBitmap.BitmapMarks` | internal/wire/types_encode.go:435-445 | A bit of the bitmap is set exactly for the columns marked null. |
| `NullBitmap.BitmapRoundTrip` | internal/wire/types_decode.go:169-183 | What the reader keeps of the padded bitmap answers every column as it was marked. |
| `ParamEncoder.CopyTextParam` | internal/wire/types_encode.go:150-186 | A fixed-length field receives the converted text and blanks up to its length, or the conversion's error. |
| `ParamEncoder.WriteVaryingParam` | internal/wire/types_encode.go:195-211 | A varying field receives length, converted text and the column's padding byte, or the conversion's error. |
| `ParamEncoder.EncodeValueHeap` | internal/wire/types_encode.go:448-604 | Writing a value appends exactly its specified encoding or reports its specified error, for every type branch. |
| `ParamEncoder.EncodeNamedParamsErr` | internal/wire/types_encode.go:50-66 | Null bits set in place and values appended in a loop produce the specified row, or the first error. |
| `ParamStack.EncodeValueStack` | internal/wire/types_encode.go:235-397 | One value on the fixed buffer: appended, refused with the overflow flag, or, for a DOUBLE without room, skipped in silence. |
| `ParamStack.EncodeNamedParamsStackErr` | internal/wire/types_encode.go:121-148 | A whole row on the fixed buffer, with bitmap, data and sticky overflow as specified. |
| `ParamStack.EstimateParamSize` | internal/wire/types_encode.go:107-118 | The loop adds up bitmap and estimated sizes. |
| `ParamStack.EncodeParamsOptimalErr` | internal/wire/types_encode.go:83-103 | The fixed buffer is used when the estimate allows and it did not overflow, the heap otherwise. |
| `ParamStack.OptimalAgrees` | internal/wire/types_encode.go:83-103 | The result equals the heap encoder's, or both fail, if and only if no DOUBLE is squeezed out: an estimate of at most 1024 bytes, a row that encodes, and a DOUBLE whose predecessors leave less than 8 bytes free while every later value that is no DOUBLE still fits. |
| `ParamStack.DropsExactly` | internal/wire/types_encode.go:273-282 | That condition on encoded sizes, which a caller can check beforehand, holds exactly when the run on the fixed buffer skips a DOUBLE and does not overflow. |
| `ParamStack.EstimatedListsAgree` | internal/wire/types_encode.go:107-118 | A list whose values keep to their estimates never takes the silent branch. |
| `ParamStack.EstimateCovers` | internal/wire/types_encode.go:400-433 | The estimate is an upper bound for every type the driver knows and text in identity character sets. |
| `ParamStack.DoubleVanishes` | internal/wire/types_encode.go:273-282 | A concrete list, 1016 bytes bound to an unknown type and a DOUBLE after them, for which the DOUBLE is lost. |
| `RowRoundTrip.ColumnRoundTrip` | internal/wire/types_decode.go:16-165 | Whatever the encoder accepts for a column, the decoder reads back as that value and consumes exactly the bytes written. |
| `RowRoundTrip.RowRoundTrip` | internal/wire/types_decode.go:186-212 | The same for whole rows of any length, NULLs anywhere, with other data following. |
| `RowRoundTrip.ValuesComeBack` | internal/wire/types_decode.go:16-165 | In terms of values: integers, truth values, doubles, blob ids and bytes come back as themselves, numbers and text bound to BOOLEAN as what they count for, scaled numbers as text naming the same number, INT128 exactly within its range, dates exactly when their day number fits 32 bits, clocks exactly when they fall on 100 microseconds, varying text unchanged in lossless character sets, and fixed-length text without its trailing blanks in identity ones. |
| `RowRoundTrip.MomentsComeBack` | internal/wire/types_decode.go:57-82 | The same for dates, clocks and timestamps, and for the universal date and clock of zoned ones. |
| `RowRoundTrip.TextComesBack` | internal/wire/types_decode.go:83-112 | In the identity character sets (UTF8, UNICODE_FSS), a fixed-length column gives back its text less the trailing blanks, for every text that fits. |
| `RowValues.IntegersComeBack` | internal/wire/types_decode.go:16-37 | Every value bound to an integer column comes back as the number it names: integers and truth values exactly, scaled by their column, others through their decimal text. |
| `RowValues.SimpleComeBack` | internal/wire/types_decode.go:16-165 | Every value bound to BOOLEAN, BLOB, FLOAT or DOUBLE comes back as what it counts for there, type by type. |
| `RowValues.TextsComeBack` | internal/wire/types_decode.go:83-112 | Every value bound to a text column comes back as its text, or as its bytes where the column has no character set. |
| `RowValues.ZonesComeBack` | internal/wire/types_encode.go:571-591 | Zoned values come back with their offset in whole minutes, cut towards zero, and a zone id of minutes plus 1439. |
| `RowValues.Int128ComesBack` | internal/wire/types_decode.go:16-165 | INT128 columns come back as text naming the number bound, as long as it is in range. |
| `RowValues.AcceptedExactly` | internal/wire/types_encode.go:448-604 | A value is encoded if and only if it can be expressed in its column: type by type, which values, which numbers and which lengths those are. |
| `RowValues.TravelsAsText` | internal/wire/types_encode.go:448-604 | DECFLOAT parameters and those of unknown types travel as their UTF-8 text behind its length. |
| `RowLayout.NumbersTravel` | internal/wire/types_encode.go:448-604 | Byte by byte: integers and blob ids in two's complement, the most significant byte first, in four, eight or sixteen bytes; truth values as a byte of 0 or 1 and three zeros; floats as their bits. |
| `RowLayout.MomentsTravel` | internal/wire/types_encode.go:499-520 | A date travels as the number of days since 17 November 1858, a time as tenths of milliseconds since midnight, a timestamp as both. |
| `RowLayout.ZonesTravel` | internal/wire/types_encode.go:571-591 | Zoned values travel in universal time, followed by the zone id and the offset in minutes. |
| `RowLayout.TextsTravel` | internal/wire/types_encode.go:150-211 | Fixed-length text travels filled up with blanks, varying text behind its length, in the character set the low byte of the subtype names; both are completed to four bytes. |
| `RowLayout.NullsTravel` | internal/wire/types_encode.go:435-445 | Column i is null exactly if bit i mod 8 of byte i / 8 of the bitmap is set; the bitmap is completed to four bytes. |
| `RowDecoder.TrimRightSpaces` | internal/wire/types_numeric.go:445-451 | The loop removes exactly the trailing blanks. |
| `RowDecoder.ReadColumn` | internal/wire/types_decode.go:16-165 | Decoding through the sliding reader equals decoding the byte sequence, for every type branch and for truncated input. |
| `RowDecoder.ReadRow` | internal/wire/types_decode.go:186-212 | A row is decoded into its window of the value array and no other cell changes. |
| `Fetch.FetchRowsReuse` | internal/wire/execute.go:159-284 | For any reused capacities and any growth the returned windows hold exactly the batch's decoded rows, in order; it fails exactly when the stream holds no complete batch. |
| `Fetch.WindowContents` | internal/wire/execute.go:226-280 | Each window's contents are its row, and windows do not overlap. |
| `Fetch.GrowValues` | internal/wire/execute.go:231-255 | After moving to a larger array every earlier row is re-pointed to a window with the same contents. |
| `Cursor.Rows.Next` | rows.go:124-154 | Each call delivers the next deliverable row, fetching when the batch is used up, or reports the end. |
| `Cursor.Drain` | rows.go:124-218 | Calling Next until the end collects exactly the deliverable rows. |
| `Cursor.DeliversEverything` | rows.go:124-154 | Every cursor row is delivered, once and in order, if and only if no empty batch comes before a non-empty one. |
| `Cursor.BatchingIrrelevant` | rows.go:124-218 | Two ways of splitting a cursor into batches, without such gaps, deliver the same rows. |
| `FetchWire.OpcodeRead` | internal/wire/reader.go:248-255 | Behind any number of keep-alives, whose opcode is 71, an opcode is read as it was sent. |
| `FetchWire.BatchRead` | internal/wire/execute.go:208-282 | The bytes of a batch, each row announced by opcode 66 with a nonzero message count and the end by one without messages, are read as its rows; the batch is the last exactly if the end has status 100. |
| `FetchWire.ErrorRefuses` | internal/wire/execute.go:208-282 | Opcode 9 in place of a row refuses the batch. |
| `FetchWire.CursorRead` | internal/wire/execute.go:208-282 | However a server splits a cursor into batches, all of them are read, and nothing behind the last. |
| `FetchWire.DrainSent` | rows.go:124-218 | Calling Next until the end on the bytes of such batches delivers the first rows sent, and all of them if and only if no empty batch comes before a non-empty one. |
| `FetchWire.EncodedHolds` | internal/wire/types_decode.go:186-212 | A row the encoder accepts is one a server can send that way, and holds what its values read back as. |
| `DescribeParser.DescribeState.ParseSQLDescribeChunk` | internal/wire/info.go:223-343 | The position loop computes the specified state and truncation flag for every buffer, cut short or malformed anywhere, except that a count following an open descriptor in its own section is read without the source's stale pointer. |
| `DescribeParser.ParseTokens` | internal/wire/info.go:223-343 | On a buffer made of well-formed items parsing applies them one after the other. |
| `DescribeNumbers.NumbersRead` | internal/wire/info.go:391-408 | Every 32-bit number, negative ones included, is read back from its four little-endian bytes, and smaller ones from one byte or two. |
| `DescribeNumbers.Requested` | internal/wire/info.go:76-112 | The two requests, byte by byte. |
| `DescribeNumbers.FieldsDescribe` | internal/wire/info.go:223-343 | Whatever items are asked of a descriptor, in any order, it is parsed with those attributes as they are and the others untouched. |
| `DescribeNumbers.DescribeColumns` | internal/wire/statement.go:163-212 | A statement of any type with any columns and parameters, described by a server that sends what was asked for, cut anywhere: if it succeeds, the description has exactly that type, as many descriptors, and each with the name, alias, type, subtype, scale, length and nullability given, NONE columns reread. |
| `Describe.ItemsWithSqldaStart` | internal/wire/info.go:349-362 | The loop inserts a start item before every section marker and nothing else. |
| `Describe.ContinuationTokens` | internal/wire/info.go:349-362 | A server that walks the rebuilt request answers from the first descriptor not yet complete in each section. |
| `Describe.Restart` | internal/wire/info.go:206-222 | Describing a variable again after any prefix of its fields ends where describing it once does. |
| `Describe.ScanAnswer` | internal/wire/info.go:223-343 | After any prefix of an answer, cut anywhere, exactly the descriptors completed so far are final, and a whole answer gives the one-shot state. |
| `Describe.Continue` | internal/wire/statement.go:166-177 | One round either fails, or brings the exchange closer to its end: the number of descriptors still missing decreases while the answer is truncated. |
| `Describe.CompleteSQLDescribe` | internal/wire/statement.go:163-182 | It succeeds if and only if no answer fails and every truncated continuation completes a descriptor, and then returns what parsing the one uncut answer gives; it always terminates. |
| `Describe.ApplyNoneCharset` | internal/wire/statement.go:200-212 | Descriptors are rewritten in place, each as specified and no other. |
| `Describe.NoneCharsetIsLocal` | internal/wire/blr.go:7-20 | Reinterpreting NONE columns does not change the character set asked for on the wire, and doing it twice changes nothing more. |
| `DescCache.DescCacheIndex` | connection.go:80-87 | The loop computes the 32-bit FNV-1a hash and picks one of 32 slots. |
| `DescCache.KnownHashes` | connection.go:80-87 | The published hash values of three texts. |
| `DescCache.Cache.DescCacheLookup` | connection.go:94-100 | A hit needs the same text and the same bytes, and returns what was stored with them. |
| `DescCache.Cache.DescCacheStore` | connection.go:102-110 | Replaces one slot, whatever it held, under the bytes the buffer holds by then; the entry owns a fresh copy of them. |
| `DescCache.Receive` | internal/wire/response.go:36-43 | Response data overwrites the beginning of the reused buffer when it is large enough, and moves to a new one otherwise. |
| `DescCache.LastShows` | internal/wire/response.go:36-43 | Of any responses received after the describe bytes, the last that went into their buffer shows in full as far as they reach; if none did they are unchanged. |
| `DescCache.CompleteSQLDescribe` | internal/wire/statement.go:163-182 | Against any answers: the description or failure is that of the rounds it takes, and the describe bytes it started from end up overlaid by the continuations received on the way. |
| `DescCache.EntryFrom` | connection.go:102-110 | After any history a slot holds what the last query to store there was described as, under its describe bytes as the continuations left them. |
| `DescCache.ConfusedExactly` | connection.go:94-100 | After any history the answer is what describing afresh would give, if and only if the last query to store in the slot does not have the same text, another answer, and an overlaid key equal to the bytes that have come now. |
| `DescCache.DescribeQuery` | connection.go:477-486 | Looking up, describing afresh in the shared buffer and storing take the cache and the buffer's capacity from one remembered state to the next. |
| `DescCache.Run` | connection.go:477-486 | Any run of queries through one cache and one response buffer, other responses in between, hash collisions, evictions, failed and truncated describes included: each result is what describing afresh gives, if and only if the query is not confused with an earlier one. |
| `DescCache.UntruncatedAreRight` | connection.go:88-100 | A query whose bytes are not truncated gets what they yield if no earlier query with its text had truncated ones. |
| `DescCache.Misremembered` | connection.go:480-485 | A concrete run in which it does not: the continuation leaves a key equal to another statement's untruncated bytes. |
| `DescCache.StaleWhenTruncated` | connection.go:94-110 | A truncated query repeated at once gets the first description, whatever the continuations would add now, if they left its bytes as they were, and is described afresh otherwise. |
| `DescHonest.PrefixFree` | internal/wire/info.go:223-343 | No answer made of whole items and an end mark is the beginning of another. |
| `DescHonest.KeyIs` | internal/wire/response.go:36-43 | For answers made of whole items, an overlaid key equals an answer if and only if it is the last continuation that went into the buffer, and as long, or none did and it was there already. |
| `DescHonest.StaleExactly` | connection.go:94-110 | So a truncated query repeated at once is found again if and only if its first continuation was too long for the buffer, or the last that was not repeats the truncated bytes. |
| `DescHonest.HonestUntruncatedAreRight` | connection.go:477-486 | Against a server that walks the request items, whatever statements a text was prepared as before and however those answers were cut: a query whose bytes are not truncated gets its statement's description. |
| `DescHonest.HonestCompletes` | internal/wire/statement.go:163-182 | Against such a server describing afresh succeeds if and only if no answer fails and every truncated continuation completes a descriptor. |
| `WireSession.WireConnection.ConsumeDeferred` | internal/wire/database.go:81-90 | Deferred responses are consumed up to the first failure, which is read but not counted as consumed. |
| `WireSession.WireConnection.ReadResponse` | internal/wire/database.go:93-98 | The response taken for one's own is the first after the deferred ones, or the first failure among them. |
| `WireSession.WireConnection.Call` | internal/wire/database.go:109-125 | Any one-request operation leaves exactly the counted responses owed, whatever fails, and takes its own response when none of the owed ones failed. |
| `WireSession.WireConnection.Execute` | internal/wire/execute.go:31-43 | The same, for execution. |
| `WireSession.WireConnection.ExecuteAndCommitRetaining` | internal/wire/execute.go:47-67 | Two requests in one flush: succeeds exactly when both are accepted, and stays in step even when a deferred response fails. |
| `WireSession.WireConnection.PrepareStatement` | internal/wire/statement.go:13-31 | The description returned is the one for this prepare. |
| `WireSession.WireConnection.AllocateAndPrepare` | internal/wire/statement.go:42-87 | Keeps step if and only if a pooled handle is used, or the allocate is accepted and no deferred response fails; a returned handle is held on the server and was nobody's. |
| `WireSession.WireConnection.FreeStatement` | internal/wire/statement.go:118-137 | For any handle: with lazy send one more response is owed; otherwise the outcome is this request's. Dropping a handle that is not in the pool keeps every handle with one owner. |
| `WireSession.WireConnection.RecycleStatement` | internal/wire/statement.go:93-106 | For any handle: it joins the pool exactly when there is room for an eighth at most and nothing was refused, and is dropped when the pool is full. Handles stay distinct, held and with one owner if the handle was held and not pooled already; a pool that grew shows that it was. |
| `WireSession.WireConnection.DrainStatementPool` | internal/wire/statement.go:110-115 | Each pooled handle is sent one drop, latest first, whatever the answers; the pool ends empty and the caller's handles are untouched. |
| `WireSession.WireConnection.Execute2` | internal/wire/execute.go:71-155 | The row and outcome are this request's; step is lost if and only if a deferred response fails and the answer is more than one response. |
| `WireSession.WireConnection.FetchRowsReuse` | internal/wire/execute.go:159-299 | All rows of the batch or its error, which discards them but keeps step; step is lost if and only if a deferred response fails and the fetch is not refused outright. |
| `Blobs.UnpackPacked` | internal/wire/blob.go:234-245 | Unpacking inverts length-prefixed packing and ignores a segment cut short. |
| `Blobs.UnpackSegments` | internal/wire/blob.go:234-245 | The loop appends exactly the unpacked segments. |
| `Blobs.ReadsEverySegment` | internal/wire/blob.go:207-230 | However the server batches a blob's segments, the content read is their concatenation if the close is accepted, and the error is that of the close otherwise, after one request per batch. |
| `Blobs.BlobReadsBack` | internal/wire/blob.go:207-230 | So a blob that is opened and sent comes back segment for segment; a refused open or close gives its own error. |
| `Blobs.ReadBlobDataSequential` | internal/wire/blob.go:207-230 | The outcome is the specified one, nothing is left owed, and the requests are an open, get-segments until the end or a refusal, and a close of the handle the open brought back. |
| `Blobs.ReadBlobDataPipelined` | internal/wire/blob.go:144-204 | The same outcome, byte for byte and error for error, from open and first read in one flush; the same requests, the first get-segment naming no handle yet. |
| `Blobs.ReadBlobData` | internal/wire/blob.go:134-141 | Reading does not depend on whether the connection pipelines: what the server sends comes back, and the requests made are determined by its answers. |
| `Blobs.SegmentsConserve` | internal/wire/blob.go:266-281 | The segments written are 1 to 32768 bytes long, all but the last full, and concatenate to the data. |
| `Blobs.QueueBlob` | internal/wire/blob.go:258-284 | The pipeline queues one create, the segments in order, and one close. |
| `Blobs.WriteBlobDataPipelined` | internal/wire/blob.go:257-307 | All responses are read even after a failure; the first failure decides the outcome. |
| `Blobs.WriteBlobDataSequential` | internal/wire/blob.go:310-330 | The same outcome from one request at a time; the requests name the handle the create brought back, stop at a refused segment and then cancel the blob. |
| `Blobs.WriteBlobData` | internal/wire/blob.go:250-331 | Both ways have the same outcome, success exactly if every request was accepted and otherwise the first refusal; a successful write has handed the server exactly the data, and the requests made are determined by the answers. |
| `WireRuns.Run` | internal/wire/statement.go:42-137 | Over every run of requests, prepares, executions, fetches, frees, recyclings, drains, blob reads and writes, failing at will except for allocates and deferred frees: each operation's outcome, error, description, row, batch, handle or blob, is the server's verdict on that operation; the requests made, responses owed, pool and live statements it leaves behind are determined by what it met; between operations the responses owed number the deferred count, 0 without lazy send; and the pool holds at most eight handles, distinct from each other and from those of live statements, all held on the server. |
| `WireTrace.StepMirrors` | internal/wire/statement.go:42-115 | Each operation of such a run moves handles between the pool and their users just as the log entry of it says in the connection model: a prepare takes the latest pooled handle or a new one, a recycle puts one back while there is room, a drain empties the pool. |
| `WireTrace.RunMirrors` | internal/wire/statement.go:42-115 | At every point of such a run, replaying its log on an empty pool gives the client's real pool, and the handles in use are those of its live statements. No handle is misused, every prepare brings the latest pooled handle or one not in use, and pool and users never share one. |
| `WireSteps.Perform` | internal/wire/database.go:81-125 | For every operation, against a server that may refuse anything: what is sent is that operation's own requests; the reply the connection hears loses step if and only if a response is left unread, by a refused allocate or by a failed deferred response before an answer of more than one message; and a success means the server accepted the operation itself. |
| `WireSteps.PerformBoth` | internal/wire/execute.go:47-67 | An execution and its commit go out in one flush, keep step whatever is refused, and succeed only if both are accepted. |
| `WireSteps.Listen` | internal/wire/database.go:81-125 | Over any operations up to the first that leaves a response unread, the connection model's in-step flag agrees with the wire, every event has sent its own requests to the server, and every event counted as acknowledged was accepted by it. |
| `Connection.Conn.HandleError` | connection.go:713-733 | Only a transport failure condemns the connection, and only where retrying is allowed does it become the retry signal. |
| `Connection.Conn.MarkBad` | connection.go:735-746 | A bad connection has neither transaction, and becoming bad happens once. |
| `Connection.Conn.GetAutoTx` | connection.go:249-260 | The persistent transaction is reused while there is one and begun otherwise. |
| `Connection.Conn.MaterializeNamedBlobs` | connection.go:670-699 | Blob arguments are stored in order in the given transaction up to the first failure. |
| `Connection.Conn.BeginTx` | connection.go:274-316 | An explicit transaction begins only after a pending auto-commit one was committed. Refused options touch nothing; a begin that fails later leaves the explicit transaction as it was, or the connection bad, and the pending auto-commit transaction asked to commit and forgotten. |
| `Connection.Conn.PrepareContext` | connection.go:174-225 | Preparing begins a transaction if there is none, prepares and describes, and sends nothing else; the statement has the kind and inputs described and, unless a handle was misused before, a handle that was nobody's. |
| `Connection.Conn.ExecContext` | connection.go:319-440 | The retry signal means nothing was executed or stored, and an error over the transport that the connection is bad. Success means that the whole conversation took place, operation by operation: a transaction begun if there was none, prepare, describe, the blobs stored, one execution in that transaction, in auto-commit mode its commit-retaining, in one flush with it unless a procedure is run, the rows counted and the handle given back; all of it acknowledged while the wire is in step, and the transaction kept for the next statement. Of a failed auto-commit execution no transaction is kept to commit it later. An explicit transaction keeps everything and is not committed; nothing is executed twice; only a handle brought back by this call is relied on. |
| `Connection.Conn.QueryContext` | connection.go:443-566 | The same for queries, described again only if not cached, and with the blobs of a returned row read. Rows carry the kind the server described, come from an execution of this call, and alone hold the handle it brought back. |
| `Connection.Conn.ResetSession` | connection.go:582-603 | An idle connection is reused without any traffic; one with an explicit transaction is condemned. |
| `Connection.Conn.Close` | connection.go:228-246 | A second close, or closing a bad connection, sends nothing. |
| `Connection.Tx.Finish` | transaction.go:21-56 | Commit and rollback send once, free the connection for auto-commit, and the retry signal means nothing was sent. |
| `Connection.Rows.Close` | rows.go:89-121 | The first close on a live connection gives the handle back or closes the cursor, and then commits in auto-commit mode whatever kind of statement is neither SELECT nor SELECT FOR UPDATE, unless the transport has failed by then. If it succeeds, that commit was acknowledged after the execution and in its transaction; rows of those two kinds, and of explicit transactions, are closed without any commit-retaining. |
| `Connection.Rows.FetchBatch` | rows.go:156-218 | Fetching never gives the retry signal and executes nothing; success means that the batch was fetched and every blob in it read. |
| `Connection.Stmt.Close` | statement.go:31-58 | Closing a prepared statement gives its handle up once and never commits: the branch that would is dead. |
| `Connection.Stmt.ExecContext` | statement.go:78-181 | As for ad-hoc execution, from binding to counting rows, but the retry signal after a blob was stored is possible: if and only if the server gave the auto-commit transaction the handle 0 and beginning another failed in the transport. Only with handle 0 does a statement begin twice. |
| `Connection.ZeroHandleRepeats` | statement.go:110-142 | A concrete run in which that happens. |
| `Connection.Stmt.QueryContext` | statement.go:184-276 | The retry signal means nothing was executed or stored, without any condition on handles; success means begin if need be, blobs stored, one execution, and a returned row's blobs read, in this order and nothing else. |
| `Connection.ClosedTooEarly` | statement.go:31-43 | A concrete run in which a statement is closed while its rows are open, and the rows then rely on a handle already given up. |
| `Trace.PoolStaysApart` | internal/wire/statement.go:93-115 | Replaying any log on the pool of eight: if every prepare brought the latest pooled handle, or for an empty pool one not in use, and every handle relied on was in use, then at every moment the pool's handles are at most eight, all different, and none is in use. |
| `Trace.HandedOutFree` | internal/wire/statement.go:42-60 | As long as no handle was misused, the one taken from the pool, or handed out by an honest server, is nobody's: the pool cannot return the handle of an open statement, open rows or a running execution. |
| `ConnectionRuns.Run` | connection.go:319-566 | Any calls on any number of statements, rows and transactions, against any answers, return a session and the story of how it came about, call by call from the empty state. An explicit transaction excludes an auto-commit one, a bad connection has neither, and bad needs a transport failure or a reset under an open transaction; objects change only as their call says; every error has its reason in the call, its state or an answer; every error over the transport leaves the connection bad or closed; a call that succeeds has sent exactly the operations it should, in order, and got the acknowledgements it promises; a statement that succeeds hands its auto-commit transaction on, one that fails after an effect leaves none; with nonzero handles the retry signal never follows an effect. While the wire is in step, everything open owns its handle at every point of the run if and only if no statement gave its handle away under its open rows; and then no handle was ever relied on after it was given up, and the pool never held a handle in use. |
| `ConnectionRuns.OrderedIfOwned` | statement.go:31-43 | In every run, in step or not, ownership throughout means that no statement gave its handle away under open rows: such a close leaves the rows open with a handle that is not in use. |
| `ConnectionRuns.ActiveIsOpen` | connection.go:274-316 | At every point of a run, an explicit transaction in force is the one begun last, and not finished. |
| `ConnectionRuns.ExecutionsAreCommitted` | connection.go:319-440 | In every run, an execution that succeeds while no transaction is unfinished has been acknowledged, and after it a commit-retaining of the transaction it ran in, as long as the wire is in step. |
| `ConnectionRuns.RowsStay` | rows.go:18-40 | In every run, open rows keep their handle, transaction, kind and execution until they are closed. |
| `ConnectionRuns.ClosedRowsAreCommitted` | rows.go:89-121 | In every run, rows opened outside any explicit transaction, when their first close succeeds on a live connection in step: of any kind but SELECT and SELECT FOR UPDATE, the query and afterwards a commit of its transaction were acknowledged; of those two, the close committed nothing. |

## Left out

- Srp.ClientSessionKey: keys wider than 1024 bits are excluded, because padding them stops the original program.
- Srp: SHA-1 is any function to 20 bytes; the proof sent to the server, which hashes further fields, and the other hash plugins are not modelled.
- DateTime: time zones are an offset in minutes; location names and the host's time-zone database are not modelled.
- Numeric.ScaledExactly: text of 2^62 characters or more is excluded, and powers of ten cost nothing here; the original program runs out of memory on 0e9000000000000000000 or 1e-9000000000000000000, for which a result is stated.
- ScaledText.PrintedReadsBack: scale -2^31, whose negation is no 32-bit number, is excluded.
- RowRoundTrip.RowRoundTrip: DECFLOAT columns are excluded, because parameters travel as text and results as densely packed decimals; their decoding is covered by DecFloatWire.
- Descriptors.Env: character-set transcoders, conversions between floating point, integers and text, and Go's time rendering are arbitrary functions; LosslessText and BlanksAreSpaces name what the text round trips need of them.
- Readers.Reader.ReadView: the returned bytes are a value; that a view is only valid until the next read is not captured.
- Fetch.FetchRowsReuse: the slice of row headers is a value, not a reused buffer.
- Describe.CompleteSQLDescribe: the server walks the request items as Firebird does for the two item lists the driver uses, and describes each variable with the same fields in every round; for arbitrary answers only the parser itself is specified.
- DescribeParser.DescribeState.ParseSQLDescribeChunk: growing the capacity of a descriptor list moves it, and the original then keeps writing to the old copy of the current descriptor if a count follows it in the same section; no well-formed buffer does that.
- WireSession.WireConnection.ReadResponse: a response that never comes, and a stream that breaks off, are not modelled at this level; Connection treats them as transport failures.
- WireSession.WireConnection.FetchRowsReuse: a row that cannot be decoded is not modelled at this level; Fetch covers it.
- WireRuns.Run: the server never refuses an allocate or a free whose answer is read late; what a refusal does to the step is stated per operation in WireSession. A failed prepare loses the handle it was given.
- Connection.Conn.ExecContext: row contents do not appear here; the number of affected rows is reported separately and its failure is not an error of the call.
- Trace.PoolStaysApart: giving a handle back to a pool with room sends nothing in the original and cannot fail; here it may be answered with an error, and is then not pooled.
- Connection.Conn.Do: whether a failed request reached the server is left open; it counts as sent and not acknowledged. Handles dropped this way count as given up, and a failed prepare as having brought none.
- Connection.Conn.QueryContext: ad-hoc rows opened in an explicit transaction keep their handle when closed, as in the original; nobody uses it again.
- Connection.Rows.FetchBatch: the error a cancelled context replaces is not modelled.
- Status vectors, error messages and time-zone tables: tables and rendering.
- BLR generation, info buffers other than describe, column metadata, DSN parsing.
- Connecting, encryption, deadlines, the cancel goroutine and the retry delay: input, output and real time.
- Locks: every operation is taken as one step, as the connection's mutex makes it.
