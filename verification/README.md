# Verified model of a webhook-publishing client

The client sends webhooks through its own retry engine, HTTP/1.1 and HTTP/2
lanes, a connection pool, a strict JSON scanner and a bounded JSON encoder. This
project models those parts in Dafny and proves what they promise over every
input, every run and every interleaving.

`dafny verify dfyconfig.toml` verifies the whole project.

## How it is laid out

- Readers and writers of bytes: `JsonGrammar`, `JsonScanner`, `JsonTheorems` and
  `JsonLimits` (the strict scanner against the RFC 8259 grammar), `Http1Framing`,
  `Http1Message`, `Http1Heads`, `Http1NoContent` and `Http1Transfer` (RFC 9112
  messages), `Http2Message`, `Http2Blocks` and `Http2Sending` (RFC 9113 header
  blocks, bodies and frames), `OrderedJson` and `OrderedMeaning` (the bounded
  encoder and what its output says), with `Wrappers`, `Bytes`, `Utf8` and
  `Utf8Text` below them.
- Input validation: `ValidationIssues`, `IssuePaths`, `JsonValidation` and
  `JsonIssues`.
- State machines, each as a pair. `PoolModel`, `AdmissionModel`,
  `ObserverModel` and `Http2Session` hold one function for every section under a
  mutex, the steps made of them, and what holds in every state of every run.
  `PoolObject`, `AdmissionObject`, `ObserverObject` and `Http2Object` hold the
  classes whose methods update the fields in place. They are proved to take
  exactly those steps and to keep the invariant of the model, which is their
  `Valid()`. `PoolLeases` says what is lent and `PoolProgress` when an
  acquisition waits; `Http2Invariant`, `Http2Wakeups`, `Http2Exchange`,
  `Http2Effects`, `Http2Endings` and `Http2Departures` hold the theorems about
  sessions.
- What a function computes is said a second time apart from it: as a grammar, as
  a property of runs, or as an exact condition in plain numbers. The lemmas
  called `...Exactly` are of the last kind.
- The operation: `SendLoop` (the attempt loop), `Observability` (its events),
  `Backoff` (its delays) and `Int64` (64-bit arithmetic).

## How concurrency and the outside are modelled

- A section under a mutex is one step; a run is any sequence of enabled steps.
- A channel that is closed and replaced is an epoch number, and a condition
  variable is a count of its broadcasts.
- Records reached through pointers (pool entries, streams, permits) are entries
  of a map or a sequence named by their identity. What happened to them earlier
  (credits, closings, blocks seen) is kept beside them as history.
- Clocks, contexts, transports, entropy, the scheduler, the decompressor, the
  peer of a connection and the fragments of a buffered reader are arbitrary
  functions or arbitrary choices. Of contexts only one thing is used: a deadline
  that has passed stays passed.
- 64-bit integers are written out where width matters.

## What turned out differently

- The bounded encoder is there to give the plain encoding cut off at the limit.
  It does not for every value: a nil list is `null` for one and `[]` for the
  other (ordered.go:113-127), and at a nil object inside a value the bounded one
  panics (ordered.go:92-96). `OrderedJson.NilListDisagrees` and
  `OrderedJson.NilObjectPanics` are such payloads, and
  `OrderedJson.BoundedAgreesWithPlain` says exactly when the two agree.
- Validation reports a cycle exactly when a walk meets the same kind, address and
  length twice (serialize.go:341-382). A pointer to an array and one to its first
  element have all three in common, so an acyclic value can be refused:
  `JsonValidation.OverlaidIsReported`. For a valid, acyclic value
  `JsonValidation.NoIssuesExactlyWhenValidAndAcyclic` says exactly when it passes.
- An acquisition can wait with no lease and no dial outstanding
  (internal/pool/pool.go:92-137): an idle entry found not to be reusable is
  marked, but counts against the cap until the next expiry pass, and nothing
  signals. `PoolProgress.AcquireIsStranded` is such a run,
  `PoolProgress.WaitsExactly` says exactly when it happens, and
  `PoolProgress.QuietLasts` that only closing or a later acquisition ends it.
- A retry delay can end after the deadline, when the clock has passed the
  deadline by so much that the subtraction wraps around (operation.go:455).
  `SendLoop.WrappedReading` is such a reading, and `SendLoop.DelayBounds` says
  exactly when the delay ends in time.
- A 204 or 304 response with a content-length has the declared body read
  (internal/h1/h1.go:217-223), unlike section 6.3 of RFC 9112:
  `Http1NoContent.NoContentIsRead` and `Http1NoContent.BodyByRfcExactly`.
- A reset or malformed block for a stream id that has not been opened yet ends
  the stream if it is opened before the reader carries out its verdict
  (internal/h2/session.go:402-424): `Http2Departures.EarlyResetEndsStream` and
  `Http2Departures.VerdictOutrunsStream`. The other theorems hold with this
  interleaving.
- A change of the initial window can take a stream window past 2^31 - 1
  (internal/h2/session.go:583-589), unlike section 6.9.2 of RFC 9113:
  `Http2Departures.SettingsPassMaximum`, `Http2Departures.RebaseWithinMaximum`.
- A response to an unsuccessful request is stored with an empty body over
  HTTP/1.1 (internal/h1/h1.go:255-259) and with a cut one over HTTP/2
  (internal/h2/framing.go:262-268). Both follow the code.

## Model

| member | source | states |
|---|---|---|
| `JsonTheorems.AcceptsExactlyTheGrammar` | internal/strictjson/parser.go:48-356 | the scanner accepts a text if and only if it is valid UTF-8 within the document limit and spells one RFC 8259 value with paired surrogate escapes, keys distinct after unescaping, and every depth, token, length and member limit met |
| `JsonTheorems.RejectsWellFormedOnlyForLimits` | internal/strictjson/parser.go:48-356 | a well-formed document without repeated keys is accepted when it keeps to the limits and is otherwise rejected with the limit failure, never with the protocol failure |
| `JsonTheorems.RejectsRepeatedKeys` | internal/strictjson/parser.go:113-160 | a document with a repeated key is rejected however its keys are escaped, and when it keeps to every limit, as a protocol failure |
| `JsonLimits.LimitMeansPassed` | internal/strictjson/parser.go:48-356 | a limit failure means that a limit was passed by what had been read: the text is too long, or a front of it, finished with at most one null and the closing brackets, is a document without repeated keys that passes a limit |
| `JsonLimits.OpeningStops` | internal/strictjson/parser.go:113-186 | a bracket that opens a 33rd container or is the 10001st token fails with the limit failure, whatever follows it |
| `JsonTheorems.DocumentScanned` | internal/strictjson/parser.go:74-84 | scanning a spelling of a document succeeds exactly when keys are distinct and limits hold |
| `JsonTheorems.DocumentSpelled` | internal/strictjson/parser.go:74-84 | everything the scanner accepts is the spelling of some document |
| `Utf8Text.ValidExactly` | internal/strictjson/parser.go:53-56 | a text is valid UTF-8 if and only if it is the encodings of scalar values one after another, and it has as many runes as it encodes |
| `JsonTheorems.UnquoteRendered` | internal/strictjson/parser.go:188-219 | the text a scanned string stands for is what its pieces denote |
| `JsonScanner.Parse` | internal/strictjson/parser.go:48-66 | the verdict on a text, failure kind included, up to the library decoder |
| `JsonScanner.Scanner.Parse` | internal/strictjson/parser.go:74-84 | a value between whitespace and nothing after it; result and new position equal the scanning function proved against the grammar |
| `JsonScanner.Scanner.Value` | internal/strictjson/parser.go:86-111 | dispatch on the first byte, counting tokens and depth; result and new position equal the scanning function proved against the grammar |
| `JsonScanner.Scanner.Object` | internal/strictjson/parser.go:113-160 | members of an object and their limit; result and new position equal the scanning function proved against the grammar |
| `JsonScanner.Scanner.Members` | internal/strictjson/parser.go:126-159 | the loop over members with the keys seen so far; result and new position equal the scanning function proved against the grammar |
| `JsonScanner.Scanner.Member` | internal/strictjson/parser.go:126-151 | one member: key, colon, value, duplicate refused; result and new position equal the scanning function proved against the grammar |
| `JsonScanner.Scanner.Key` | internal/strictjson/parser.go:127-137 | a key and the tokens it counts; result and new position equal the scanning function proved against the grammar |
| `JsonScanner.Scanner.Array` | internal/strictjson/parser.go:162-186 | elements of an array; result and new position equal the scanning function proved against the grammar |
| `JsonScanner.Scanner.Items` | internal/strictjson/parser.go:174-185 | the loop over elements; result and new position equal the scanning function proved against the grammar |
| `JsonScanner.Scanner.String` | internal/strictjson/parser.go:188-219 | the string literal scanned and the text it stands for, within the length limits; result and new position equal the scanning function proved against the grammar |
| `JsonScanner.Scanner.StringBody` | internal/strictjson/parser.go:191-217 | the loop to the closing quote, refusing control bytes; result and new position equal the scanning function proved against the grammar |
| `JsonScanner.Scanner.Escape` | internal/strictjson/parser.go:221-251 | one escape; surrogates only in pairs; result and new position equal the scanning function proved against the grammar |
| `JsonScanner.Scanner.HexUnit` | internal/strictjson/parser.go:253-272 | four hexadecimal digits and their value; result and new position equal the scanning function proved against the grammar |
| `JsonScanner.Scanner.Literal` | internal/strictjson/parser.go:274-283 | a literal word; result and new position equal the scanning function proved against the grammar |
| `JsonScanner.Scanner.Number` | internal/strictjson/parser.go:285-326 | an RFC 8259 number of bounded length; result and new position equal the scanning function proved against the grammar |
| `JsonScanner.Scanner.Whitespace` | internal/strictjson/parser.go:328-337 | skips exactly the blanks; result and new position equal the scanning function proved against the grammar |
| `JsonScanner.Scanner.Token` | internal/strictjson/parser.go:339-345 | counts a token and refuses one too many; result and new position equal the scanning function proved against the grammar |
| `Http1Framing.ChunkedRoundTrip` | internal/h1/h1.go:402-450 | any body of at most 1 MiB, split into any non-empty parts, is returned from its chunked encoding and the following bytes stay unread |
| `Http1Framing.ChunksDecoded` | internal/h1/h1.go:402-450 | any chunked spelling, extensions and hexadecimal forms included, decodes to its payload, or fails as too large exactly when the payload is |
| `Http1Framing.ChunksSpelled` | internal/h1/h1.go:402-450 | whatever decodes is a chunked spelling of the body returned |
| `Http1Framing.Reader.ReadSlice` | internal/h1/h1.go:264-283 | the buffered reader: a fragment of any size up to the next line feed |
| `Http1Framing.Reader.ReadLine` | internal/h1/h1.go:264-283 | the line read is the same however the reader fragments it, with its limit and its CR LF ending |
| `Http1Framing.Reader.ReadChunked` | internal/h1/h1.go:402-450 | the decoded body and the exact bytes left unread, for any fragmentation |
| `Http1Framing.Reader.ReadTrailer` | internal/h1/h1.go:419-428 | the empty trailer after the last chunk |
| `Http1Heads.LinesExactly` | internal/h1/h1.go:264-283 | a line is read if and only if it stands before the first line feed with a return before it, within the limit |
| `Http1Heads.SizesExactly` | internal/h1/h1.go:402-418 | a line of at most 256 bytes announces a chunk exactly when it begins with that number in hexadecimal, of at most 63 bits, alone or before a semicolon |
| `Http1Heads.StatusRead` | internal/h1/h1.go:285-293 | the version, three digits from 100 to 599 and a space before any reason are a status line of that number; 0 or 6 to 9 in front is refused |
| `Http1Heads.StatusSpelled` | internal/h1/h1.go:285-293 | whatever is read as a status line is such a line |
| `Http1Heads.HeaderRead` | internal/h1/h1.go:295-332 | a token of at most 256 bytes, a colon and a text of at most 8 KiB between blanks are read as that name and that value |
| `Http1Heads.HeaderSpelled` | internal/h1/h1.go:295-332 | whatever is read as a header line is such a line |
| `Http1Heads.FieldsRead` | internal/h1/h1.go:165-186 | lines up to the empty one are read in order, exactly within 100 fields and 64 KiB, and what follows them is left |
| `Http1Heads.FieldsSpelled` | internal/h1/h1.go:165-186 | whatever is read as a list of fields is such a list of lines |
| `Http1Heads.FramingExactly` | internal/h1/h1.go:334-394 | the framing has a length, a chunked coding and a gzip encoding exactly when the fields of these names say so, each at most once and never a length beside a coding; everything else is refused |
| `Http1Heads.FoldExactly` | internal/h1/h1.go:334-394 | names and codings in ASCII are compared up to the case of letters and nothing else |
| `Http1Heads.FinalHeadExactly` | internal/h1/h1.go:154-207 | a final head is found if and only if it stands behind at most eight informational ones without content, none of them 101, and it is that one |
| `Http1Heads.BodyExactly` | internal/h1/h1.go:211-240 | the body, or the kind of the error: too large above 1 MiB, incomplete when the input ends early, and none without a length except for 204 and 304 |
| `Http1Heads.ResponseExactly` | internal/h1/h1.go:148-262 | when a response is returned, and its fields: the decoded body for success, otherwise only the sizes and whether 64 KiB were passed |
| `Http1Message.ConsumesExactlyOneMessage` | internal/h1/h1.go:148-262 | a response that is read uses up a front of the input that yields the same response whatever follows, leaves what follows untouched, and of which no shorter front is a message |
| `Http1Message.MessageLocal` | internal/h1/h1.go:148-262 | the response and the bytes consumed depend on the consumed bytes only |
| `Http1Message.BodyIsFramed` | internal/h1/h1.go:211-254 | the body read has the declared length, or is the payload of the chunks that stand in the input, and is at most 1 MiB |
| `Http1Message.FieldsBounded` | internal/h1/h1.go:165-186 | a head that is read has at most 100 fields and 64 KiB |
| `Http1Message.ReadResponse` | internal/h1/h1.go:148-262 | the whole reader: informational heads, framing, body and decompression; the response, or the kind of the error that ends it, decompression errors included |
| `Http1NoContent.BodyByRfcExactly` | internal/h1/h1.go:211-240 | a body that is read is the one of section 6.3 of RFC 9112 if and only if the status allows content or none is declared |
| `Http1NoContent.NoContentIsRead` | internal/h1/h1.go:211-240 | a 204 response that declares one byte is returned with that byte as its body |
| `Http1Message.ReadFinalHead` | internal/h1/h1.go:154-207 | at most eight informational heads are skipped, none of them 101, chunked or with content |
| `Http1Message.ReadHead` | internal/h1/h1.go:155-199 | status line, fields and framing headers of one head |
| `Http1Message.ReadFields` | internal/h1/h1.go:165-186 | the loop over header lines with its limits |
| `Http1Message.ReadBody` | internal/h1/h1.go:211-240 | the body as the framing declares it |
| `Http1Message.SingleContentLength` | internal/h1/h1.go:334-362 | one decimal content-length of at most 63 bits, or an error |
| `Http1Message.TransferChunked` | internal/h1/h1.go:364-376 | exactly one transfer coding, chunked, or an error |
| `Http1Message.ContentEncoding` | internal/h1/h1.go:378-394 | identity or gzip after Unicode lower-casing, or an error |
| `Http1Transfer.WriteAll` | internal/h1/h1.go:114-136 | the bytes acknowledged are a front of the data, all of it exactly when the peer keeps taking bytes, and the signal fires exactly when a byte was taken |
| `Http1Transfer.WriteRequest` | internal/h1/h1.go:73-97 | a request counts as committed exactly when a body byte was taken, and never before the whole head was |
| `Http1Transfer.DecodeGzip` | internal/h1/h1.go:452-489 | decompression succeeds exactly for a clean stream that uses up its input within both limits, whatever the read sizes; the limit that is reported was passed, and is the only one passed or was passed a buffer earlier |
| `OrderedJson.BoundedAgreesWithPlain` | ordered.go:37-146 | the bounded encoder gives the plain encoding, or limit + 1 bytes when that is too long, if and only if the value holds no nil list and no nil object, or the bounded encoder passes the limit before it meets a nil object |
| `OrderedJson.NilListDisagrees` | ordered.go:113-127 | a payload with a nil list, which the plain encoder writes as null and the bounded one as an empty list |
| `OrderedJson.NilObjectPanics` | ordered.go:92-96 | a payload with a nil object, which the plain encoder writes as null and on which the bounded one panics |
| `OrderedJson.SpellingsApart` | ordered.go:90-138 | the two encodings fail together where the library refuses a value, the bounded one alone stops at a nil object, and otherwise they differ by two bytes for each nil list |
| `OrderedMeaning.EncodingMeans` | ordered.go:37-146 | every encoding is a well-formed value of the RFC 8259 grammar that says what the value says: fields and items in order, strings rune by rune with invalid bytes replaced |
| `OrderedJson.RuneWritten` | ordered.go:148-160 | a rune is written as it is if and only if it is valid, not a control, a quote or a backslash, and not U+2028 or U+2029 |
| `OrderedJson.OrderedObject.Set` | ordered.go:28-35 | a new key is appended and an old one keeps its place |
| `OrderedJson.OrderedObject.MarshalJSON` | ordered.go:37-58 | the fields in insertion order |
| `OrderedJson.OrderedObject.MarshalJSONLimit` | ordered.go:60-71 | the whole bounded encoding when it fits the limit, exactly limit + 1 bytes when it does not, and otherwise the error or the panic that stops it |
| `OrderedJson.LimitedEncoder.Write` | ordered.go:73-86 | bytes are appended up to one past the limit; a buffer already past it is answered with the limit error |
| `OrderedJson.LimitedEncoder.FillLimit` | ordered.go:140-146 | the buffer is filled to one past the limit, or left alone when it is past it |
| `OrderedJson.LimitedEncoder.StringValue` | ordered.go:128-137 | a string too long for the room left is replaced by filler, which is sound because its encoding is at least two bytes longer than the string |
| `OrderedJson.LimitedEncoder.Value` | ordered.go:90-138 | the recursive encoder: complete, over the limit, failed, or panicked at a nil object, with the buffer that goes with each |
| `OrderedJson.LimitedEncoder.ObjectValue` | ordered.go:92-112 | fields of an object, or the panic at a nil one |
| `OrderedJson.LimitedEncoder.ListValue` | ordered.go:113-127 | items of a list |
| `OrderedJson.MarshalEnvelope` | operation.go:370-377 | the request body holds type, customerId, timestamp and data in this order; it is the plain encoding, or too long when that is, if and only if the data holds no nil list and no nil object or the limit is passed first |
| `ValidationIssues.AnyNestingSummarised` | serialize.go:493-581 | any nesting of add and merge keeps an order-preserving selection of at most 32 issues, the first sixteen among them, with paths of at most 1024 bytes, a path total that is their sum and at most 16384, and the true number of issues capped at 2^31 - 1 |
| `ValidationIssues.CountIgnoresGrouping` | serialize.go:532-563 | the count does not depend on the grouping |
| `ValidationIssues.RetainsExactly` | serialize.go:542-553 | an issue is kept if and only if fewer than 32 are kept and either fewer than sixteen are or its cut path still fits into 16384 bytes, and it is kept last with its path cut |
| `ValidationIssues.NothingLeftOut` | serialize.go:493-563 | when all issues and their path bytes fit, any nesting of add and merge keeps every one of them in order |
| `IssuePaths.CountsExactly` | serialize.go:555-563 | counts add up, to at most 2^31 - 1 |
| `ValidationIssues.TruncatedShape` | serialize.go:565-581 | a long path becomes a proper prefix of whole segments, plus the marker |
| `IssuePaths.CutExactly` | serialize.go:565-581 | a path over 1024 bytes is cut before the last rune that leaves room for the marker if a segment starts there, and otherwise behind the last segment that ends before it |
| `IssuePaths.TruncatedIsText` | serialize.go:565-581 | what is left of a valid UTF-8 path is valid if and only if the path was not cut, begins with an ASCII byte as the paths of the client do, or has a segment that ends in time; otherwise one byte of its first rune is left |
| `ValidationIssues.TruncatePath` | serialize.go:565-581 | the path cut at a rune and a segment boundary |
| `ValidationIssues.ValidationErrors.RetainIssue` | serialize.go:542-553 | an issue is kept within the number and byte budget |
| `ValidationIssues.ValidationErrors.Add` | serialize.go:517-530 | an issue is counted and offered, an aggregate is merged, any other error is refused |
| `ValidationIssues.ValidationErrors.MergeWith` | serialize.go:532-540 | counts add up and the kept issues are offered in order, for an aggregate merged with itself as well |
| `JsonValidation.NoIssuesExactlyWhenValidAndMarkedApart` | serialize.go:332-432 | validation ends on every finite graph and finds nothing exactly when everything reachable is valid and no walk meets the same kind, address and length twice; shared cells are fine |
| `JsonValidation.NoIssuesExactlyWhenValidAndAcyclic` | serialize.go:332-432 | what passes is valid and acyclic, and what is valid and acyclic passes if and only if no walk meets two different cells of the same kind, address and length |
| `JsonValidation.OverlaidIsReported` | serialize.go:341-382 | a pointer to an array that holds a pointer to its own first element is valid and acyclic, and a cycle is reported |
| `JsonIssues.IssuesExactly` | serialize.go:347-432 | an issue is reported if and only if a walk without repetition leads to a fault of its code, at the path that the walk spells |
| `JsonIssues.DecimalSpelled` | serialize.go:407-410 | an item is named by its index in decimal digits |
| `JsonValidation.Validator.ValidateAt` | serialize.go:347-432 | the issues of a value in order, with the marks of the active ancestors restored |
| `JsonValidation.Validator.ValidateCell` | serialize.go:368-428 | a map, pointer or slice entered once |
| `JsonValidation.Validator.CheckKeys` | serialize.go:412-422 | the first bad key stops the map |
| `JsonValidation.Validator.ValidateItems` | serialize.go:407-410 | items in order |
| `JsonValidation.Validator.ValidateValues` | serialize.go:426-428 | values in the order of their keys |
| `PoolModel.PoolIsSafe` | internal/pool/pool.go:81-246 | over every interleaving: entries plus pending dials of an origin keep to the cap, an exclusive resource has at most one lease, no resource is closed twice or while leased |
| `PoolModel.EveryResourceClosedOnce` | internal/pool/pool.go:81-246 | once the pool is closed and leases and dials have settled, every resource ever dialed was closed exactly once and none is pooled |
| `PoolModel.RunKeeps` | internal/pool/pool.go:81-246 | the invariant behind both, in every reachable state |
| `PoolModel.StepKeeps` | internal/pool/pool.go:81-246 | every section under the mutex keeps the invariant |
| `PoolLeases.AcquiresExactly` | internal/pool/pool.go:81-166 | an acquisition is lent an entry younger than the lifetime and the idle timeout that is usable exactly when there is one, dials exactly below the cap, waits exactly at it, and is refused exactly when the pool is closed |
| `PoolLeases.UnusableIsNeverLent` | internal/pool/pool.go:81-194 | over every run: a resource released as not reusable is never lent again, and it is closed once its last lease is back |
| `PoolProgress.WaitsExactly` | internal/pool/pool.go:81-166 | with no lease and no dial outstanding for its key, an acquisition waits if and only if the pool is open, the entries left after the expiry pass fill the cap, and every one of them reports that it cannot be reused |
| `PoolProgress.QuietLasts` | internal/pool/pool.go:81-246 | an acquisition that waits with no lease and no dial outstanding anywhere is not woken, except by closing the pool, until a later acquisition is given a lease or a dial |
| `PoolProgress.QuietEverywhere` | internal/pool/pool.go:81-246 | in every reachable state, when no lease and no dial is outstanding, no pooled entry of any key is active |
| `PoolProgress.ReturnsSignal` | internal/pool/pool.go:103-194 | every finished dial and every returned lease wakes the waiters of an open pool |
| `PoolProgress.AcquireIsStranded` | internal/pool/pool.go:81-144 | the run in which a resource is returned for reuse, then reports that it cannot be reused, and the next acquisition waits with nothing outstanding |
| `PoolObject.ConnectionPool.SweepLocked` | internal/pool/pool.go:146-166 | expired and doomed entries are closed, the others kept in order; the new state is the model step |
| `PoolObject.ConnectionPool.ExpireLocked` | internal/pool/pool.go:146-166 | retires by lifetime and idle time; the new state is the model step |
| `PoolObject.ConnectionPool.AvailableLocked` | internal/pool/pool.go:134-144 | the first usable entry, retiring those that report they are not reusable; the new state is the model step |
| `PoolObject.ConnectionPool.ChooseLocked` | internal/pool/pool.go:92-124 | lease, dial below the cap, or wait; the new state is the model step |
| `PoolObject.ConnectionPool.AcquirePass` | internal/pool/pool.go:86-125 | one pass of the acquisition loop; the new state is the model step, and the invariant is kept |
| `PoolObject.ConnectionPool.FinishDialing` | internal/pool/pool.go:103-122 | a finished dial joins leased, or is closed with the pool; the new state is the model step, and the invariant is kept |
| `PoolObject.ConnectionPool.ReleaseLease` | internal/pool/pool.go:175-194 | a lease is returned once; a retiring idle resource is removed and closed; the new state is the model step, and the invariant is kept |
| `PoolObject.ConnectionPool.RemoveLocked` | internal/pool/pool.go:196-211 | takes one entry out of its list; the new state is the model step |
| `PoolObject.ConnectionPool.SignalLocked` | internal/pool/pool.go:240-246 | replaces the notification channel unless closed; the new state is the model step |
| `PoolObject.ConnectionPool.Close` | internal/pool/pool.go:213-238 | idle resources are closed and the rest retired, in any order of the keys; the new state is the model step, and the invariant is kept |
| `AdmissionModel.GaugesAreExact` | state.go:82-177 | in every reachable state the in-flight gauge is the number of permits not returned, the byte gauge is the sum of what they hold, both are within limits, and the rejection counters are the true counts, saturated |
| `AdmissionModel.PermitsReturnedOnce` | state.go:128-166 | a permit is returned at most once, never while one of its calls runs, and exactly once when it was released, its calls ended and the return was carried out |
| `AdmissionModel.ClosedMeansEmpty` | runtime.go:96-118 | every snapshot that says closed shows no operation and no bytes, and every permit has been returned |
| `AdmissionModel.NoneAdmittedAfterClose` | state.go:82-87 | nothing is admitted after shutdown has begun |
| `AdmissionModel.CallsEndOnce` | operation.go:667-723 | in every reachable state every call was ended at most once and not before its function returned, exactly once when its goroutine is through and nobody holds its result, and until it is ended someone has yet to end it: the goroutine of a hook call, the operation, or the cleaner left behind; the result of a transport call goes to one of the last two only |
| `AdmissionModel.CallsMakeProgress` | operation.go:667-723 | a call that has not ended can move, and every move brings it nearer to its last one |
| `AdmissionModel.RunKeeps` | state.go:82-230 | the invariant behind these, in every reachable state |
| `AdmissionModel.Deadline` | state.go:105-114 | the exclusive deadline is the earlier of start plus timeout and start plus the caller's remaining time, saturated, with a negative remaining time read as none |
| `AdmissionModel.AdmitsExactly` | state.go:82-126 | an operation is admitted if and only if the runtime is open, has room for one more and for its workspace, the caller has time left and the clock works; the first of these that fails is the reason, and what each outcome counts |
| `AdmissionModel.CloseAdmitsNothing` | state.go:82-87 | from the first call to close on nothing is admitted and every caller is told that the runtime is closed |
| `AdmissionModel.ShrinksExactly` | state.go:168-177 | a serialized request keeps its own size of the 1 MiB set aside for it and gives back the rest, at its own operation only |
| `Int64.AddSaturated` | state.go:243-251 | 64-bit addition clamped to the range, with no overflow on the way |
| `AdmissionObject.RuntimeState.AdmitOperation` | state.go:82-126 | admission and its permit, or the reason for refusing it; the runtime and all its permits take the model step, and the invariant is kept |
| `AdmissionObject.RuntimeState.Snapshot` | state.go:179-183 | a snapshot is within both limits, and empty if it says closed |
| `AdmissionObject.RuntimeState.BeginShutdown` | state.go:203-211 | only the first caller begins; the runtime and all its permits take the model step, and the invariant is kept |
| `AdmissionObject.RuntimeState.FinishShutdown` | state.go:221-230 | published and signalled at most once, with nothing in flight and nothing buffered; the runtime and all its permits take the model step, and the invariant is kept |
| `AdmissionObject.OperationPermit.Release` | state.go:128-139 | returns the permit now or leaves it to the last call; the runtime and all its permits take the model step, and the invariant is kept |
| `AdmissionObject.OperationPermit.FinishCall` | state.go:147-158 | the last call of a released permit returns it; the runtime and all its permits take the model step, and the invariant is kept |
| `AdmissionObject.OperationPermit.ShrinkRequest` | state.go:168-177 | gives back exactly the unused request workspace; the first time before the release; the runtime and all its permits take the model step, and the invariant is kept |
| `ObserverModel.DeliveredOrDroppedOnce` | observer.go:114-249 | once the worker is gone and every emitter has returned, each event was delivered once or counted dropped once, and the drop counter is right |
| `ObserverModel.DeliversInOrder` | observer.go:114-210 | callbacks begin in emission order and the pending count is exactly the work left, never negative |
| `ObserverModel.NothingDeliveredAfterClosing` | observer.go:161-169 | no callback begins after closing is set, from outside or from a callback |
| `ObserverModel.FlushMeansSettled` | observer.go:212-221 | a flush returns only when every accepted event was delivered or counted and no callback runs |
| `ObserverModel.WaitersAreWoken` | observer.go:180-249 | without a broadcast, what a flusher or a closer waits for has not happened |
| `ObserverModel.RunKeeps` | observer.go:114-249 | the invariant behind these, in every reachable state |
| `ObserverModel.EmitsExactly` | observer.go:114-134 | an event is queued last if and only if the dispatcher is open and its queue is not full, and counted as dropped otherwise |
| `ObserverObject.ObserverDispatcher.EmitEvent` | observer.go:114-134 | queued in order while open and not full, else counted dropped; every step is one of the model, and the invariant is kept |
| `ObserverObject.ObserverDispatcher.RefuseEvent` | observer.go:150-152 | an event received too late is counted once and completed; every step is one of the model, and the invariant is kept |
| `ObserverObject.ObserverDispatcher.DropPending` | observer.go:187-201 | the stopped worker empties the queue, counts it as dropped in order, leaves nothing pending and wakes a waiting flusher exactly when there was work; every step is one of the model, and the invariant is kept |
| `ObserverObject.ObserverDispatcher.CloseDispatcher` | observer.go:223-249 | stops at once, or tells the closer to wait for the callback; every step is one of the model, and the invariant is kept |
| `Http2Invariant.WindowsAreExact` | internal/h2/session.go:233-598 | in every reachable state the connection window is 65535 plus credit minus everything reserved and lies in [0, 2^31 - 1], and each live stream window is the current initial window plus its credit minus its reservations, across settings |
| `Http2Invariant.StreamsSettleOnce` | internal/h2/session.go:233-637 | ids are odd, at most 2^31 - 1 and below the next one; a stream is in the map exactly while unfinished, is settled once, and never changes afterwards |
| `Http2Invariant.DrainingOpensNothing` | internal/h2/session.go:600-660 | after a GOAWAY or shutdown nothing is opened, no stream above the smallest boundary is live, and after shutdown none is |
| `Http2Invariant.RunKeeps` | internal/h2/session.go:233-660 | the invariant behind these, in every reachable state |
| `Http2Invariant.RunAdvances` | internal/h2/session.go:557-660 | between any two states of a run ids only grow, settled streams are untouched, and boundaries only sink |
| `Http2Endings.EndedExactly` | internal/h2/session.go:600-660 | a live stream is ended by exactly these steps, each with its error: its cancelling, the shutdown, the verdict on it, and a GOAWAY with a boundary below it |
| `Http2Endings.GoAwaySpares` | internal/h2/session.go:600-613 | across a GOAWAY every stream at or below its boundary stays live and unchanged |
| `Http2Endings.GoAwayErrorsAreBeyond` | internal/h2/session.go:600-613 | over every run: a stream that ended with a GOAWAY error is above the boundary in that error |
| `Http2Effects.VerdictsAreExact` | internal/h2/session.go:451-555 | over every run, on every header block and DATA frame of a live stream: it completes if and only if it has seen a complete response within its bounds, goes on if and only if nothing is wrong or over yet, and fails as too large or malformed as the frames are |
| `Http2Effects.OthersUntouched` | internal/h2/session.go:233-660 | a step changes the streams it is about and no other |
| `Http2Effects.OpensExactly` | internal/h2/session.go:235-257 | a stream is opened if and only if the session is open, not draining, below the last id and below the peer's limit, and otherwise the reason |
| `Http2Effects.ReservesExactly` | internal/h2/session.go:274-290 | a grant is the largest size within the body left, the frame size and both windows, and is taken out of both |
| `Http2Effects.CreditsExactly` | internal/h2/session.go:557-573 | credit goes to the one window named, unless that would pass 2^31 - 1 |
| `Http2Effects.SettingsExactly` | internal/h2/session.go:575-598 | of legal settings the last of each kind counts, and live windows move by the difference of the initial windows |
| `Http2Effects.IllegalStops` | internal/h2/session.go:575-598 | the first illegal setting ends the list: those before it count, it and those after it do not |
| `Http2Effects.ReadsExactly` | internal/h2/session.go:402-449 | the read loop gives up exactly on a push promise, a read error, a window overflow and an illegal setting; a reset ends one stream |
| `Http2Effects.StrayFrames` | internal/h2/session.go:451-520 | a block that cannot be decoded fails its stream as too large or malformed, and a block or data for a stream that is not live changes nothing |
| `Http2Departures.VerdictOutrunsStream` | internal/h2/session.go:402-424 | a frame for a stream that was not open when it was read ends that stream if and only if the stream was opened before the reader carried out its verdict and nothing else had settled it by then |
| `Http2Departures.EarlyResetEndsStream` | internal/h2/session.go:402-424 | the run in which a reset read before stream 1 is opened ends it |
| `Http2Departures.RebaseWithinMaximum` | internal/h2/session.go:583-589 | a new initial window keeps every live stream window within 2^31 - 1 if and only if it does so together with the credit each stream has not used |
| `Http2Departures.OtherStepsWithinMaximum` | internal/h2/session.go:233-660 | no step but a change of settings takes a live stream window past 2^31 - 1 |
| `Http2Departures.SettingsPassMaximum` | internal/h2/session.go:557-598 | the run in which a credit and then a larger initial window take a stream window to 2^31 |
| `Http2Wakeups.SendersAreWoken` | internal/h2/session.go:269-300 | while its flow epoch is current, a sender that found no room still has none |
| `Http2Wakeups.RequestsAreWoken` | internal/h2/session.go:233-267 | while its admission epoch is current and the session is open, a waiting request finds no slot |
| `Http2Exchange.CompletedStreamsAreWellFormed` | internal/h2/session.go:451-555 | a stream that completes without error saw at most eight informational blocks, exactly one final block, then only data with the end on the last frame, a body of at most 1 MiB equal to any declared length, and a decoded length of at most 100 times it |
| `Http2Exchange.RunKeeps` | internal/h2/session.go:451-555 | the same for every stream in every reachable state, the pending verdict of the reader included |
| `Http2Message.DecodesExactly` | internal/h2/framing.go:144-187 | a header block is accepted exactly when it is complete, names one three-digit status, keeps to every field limit and declares at most one canonical length of at most 1 MiB |
| `Http2Blocks.BlocksExactly` | internal/h2/framing.go:144-211 | a block decodes to a status, its fields and a length if and only if it spells them: three digits, at most 100 fields and 65536 bytes as lines, and at most one length in decimal without leading zeros of at most 1048576 |
| `Http2Blocks.RefusedExactly` | internal/h2/framing.go:144-187 | a block is refused as too large if and only if it is cut short, has too many fields, or its first wrong field is too large rather than malformed |
| `Http2Blocks.CodingsExactly` | internal/h2/framing.go:216-230 | the coding is gzip or identity exactly when one field names it in any case between white space, identity without a field or with a blank one, and bad otherwise |
| `Http2Message.DecodeResponseHeaders` | internal/h2/framing.go:144-187 | the decoded block or the failure kind |
| `Http2Message.ResponseCoding` | internal/h2/framing.go:216-230 | the content coding, at most one |
| `Http2Message.FinalizeResponse` | internal/h2/framing.go:213-271 | the decoded response or the failure kind, for any decompressor; corruption past the one byte read beyond the limit stays unseen, and so does corruption right after it unless it is reported together with it |
| `Http2Message.FinalizedBounded` | internal/h2/framing.go:213-271 | body within its limit, at most 100 times the wire length, truncated only for an unsuccessful status, and unchanged without a coding |
| `Http2Blocks.PlainBodies` | internal/h2/framing.go:213-271 | a plain body is kept whole up to 1 MiB for success and 64 KiB for an error; past it success fails and an error is cut |
| `Http2Blocks.ShortBodies` | internal/h2/framing.go:231-271 | a compressed body within the limit is usable if and only if all of it was read cleanly, and too large exactly when it is more than a hundred times its wire length |
| `Http2Blocks.LongBodies` | internal/h2/framing.go:231-271 | of a compressed body past the limit one byte more is read; when it fails, when it is too large and when it is cut |
| `Http2Object.Connection.AcquireStream` | internal/h2/session.go:235-257 | one pass of opening: the next odd id below the limits, or the reason; the new state is the model step, and what holds of every run is kept |
| `Http2Object.Connection.Reusable` | internal/h2/session.go:220-225 | a session is reusable exactly when opening would not be refused |
| `Http2Object.Connection.ReserveSend` | internal/h2/session.go:274-290 | one pass of reserving: the least of the four limits, from both windows; the new state is the model step, and what holds of every run is kept |
| `Http2Object.Connection.FinishLocked` | internal/h2/session.go:631-637 | settles a stream, takes it out of the map and signals twice; the new state is the model step |
| `Http2Object.Connection.FinishStream` | internal/h2/session.go:623-629 | settles a live stream once; the new state is the model step |
| `Http2Object.Connection.CancelStream` | internal/h2/session.go:615-621 | settles an unfinished stream once; the new state is the model step, and what holds of every run is kept |
| `Http2Object.Connection.FinishSet` | internal/h2/session.go:653-655 | settles a set of streams in any order; the new state is the model step |
| `Http2Object.Connection.ShutdownSession` | internal/h2/session.go:649-660 | settles every stream, once; the new state is the model step, and what holds of every run is kept |
| `Http2Object.Connection.HandleGoAway` | internal/h2/session.go:600-613 | the boundary only sinks and everything above it is settled; the new state is the model step, and what holds of every run is kept |
| `Http2Object.Connection.HandleWindowUpdate` | internal/h2/session.go:557-573 | credits a window, or fails the reader on an overflow; the new state is the model step, and what holds of every run is kept |
| `Http2Object.Connection.RebaseWindows` | internal/h2/session.go:583-589 | live windows follow a new initial window; the new state is the model step |
| `Http2Object.Connection.HandleSettings` | internal/h2/session.go:575-598 | settings take effect in order, and an invalid one fails the reader; the new state is the model step, and what holds of every run is kept |
| `Http2Object.Connection.ApplyFrame` | internal/h2/session.go:575-598 | settings take effect in order up to the first invalid one; the new state is the model step |
| `Http2Object.Connection.HandleHeaders` | internal/h2/session.go:451-502 | a header block judged and carried out; the new state is the model step, and what holds of every run is kept |
| `Http2Object.Connection.TakeBlock` | internal/h2/session.go:460-500 | the section on a live stream; the new state is the model step |
| `Http2Object.Connection.HandleData` | internal/h2/session.go:504-555 | data judged and carried out; the new state is the model step, and what holds of every run is kept |
| `Http2Object.Connection.TakePiece` | internal/h2/session.go:520-552 | the section on a live stream; the new state is the model step |
| `Http2Sending.WriteHeaderBlock` | internal/h2/framing.go:127-142 | the frames written are a front of the fragments of the block, all of them exactly when every write succeeds |
| `Http2Sending.HeaderFramesWhole` | internal/h2/framing.go:127-142 | the fragments make up the block, fit the frame size, one HEADERS then CONTINUATION, with END_HEADERS only on the last |
| `Http2Sending.SendBody` | internal/h2/session.go:167-193 | for every schedule the DATA chunks are a front of the body, none empty, each within the frame size and the window found when reserving, END_STREAM only on the one completing the body, the signal first and never alone; and with room and working writes the body is sent |
| `Http2Sending.TurnIsReservation` | internal/h2/session.go:274-290 | what the session grants a turn is the least of the body left, the frame size and both windows, or nothing when that is not positive or the stream is finished |
| `Http2Sending.SendRequest` | internal/h2/session.go:162-193 | no DATA before the whole header block, END_STREAM on it exactly without a body, and committed exactly when a DATA frame was handed over |
| `SendLoop.Operation.Send` | operation.go:194-327 | for every world: the log holds, for each attempt, what the world holds for it at the look at which its transport is called, and the looks are those the world determines; there is a next attempt exactly when the loop goes on and its gate opens; an error after an attempt raised the acceptance floor is POSSIBLY_SENT or CANCELLED_UNKNOWN and counts the attempts made; it delivers exactly when the last attempt is accepted in time, and unless something else ends the operation the error of the last attempt does, with the code, the state and the retryability that its status, its body or its failure stands for; the events are one start, the attempts in order with one delay between, each as long as the clock of its own wait makes it, at most one delay after, an optional cancel and one end with the summary of each attempt end; timestamps never decrease |
| `SendLoop.LogIsDetermined` | operation.go:194-327 | the configuration, the world, the deadline and the look at which the loop begins determine how many attempts are made and what the loop sees of each |
| `SendLoop.AttemptsHeedLooks` | operation.go:194-327 | an attempt is made only after looks that find neither an end of the operation nor a failing clock; a further one also only after a report worth repeating, a jitter within base * 2^(attempt - 1), the maximum and the time left, and a sleep that returned to such a look |
| `SendLoop.AskedExactly` | operation_response.go:135-215 | what a response asks for by the spelling of its Retry-After value; a date counts only with the wall clock |
| `SendLoop.OnlyRetryable` | operation.go:273-324 | only a retryable attempt is followed by another, and only an accepted 2xx delivers |
| `SendLoop.ErrorsExactly` | operation_response.go:15-75 | the code and the state of the error of every answer and every failure, by status class and body class, and that it is retryable if and only if the literal condition on status and body or on the failure holds |
| `SendLoop.TerminalExactly` | operation.go:379-447 | a look ends the operation if and only if the deadline has passed, the runtime is closing, the caller has cancelled or the clock fails, and the first of these in that order gives the error |
| `SendLoop.RaisesExactly` | operation.go:244-254 | a report raises the acceptance floor if and only if its answer is 2xx, 409 or from 500 on, or it is a failure past the connection with a byte of the request committed |
| `SendLoop.WellFormedExactly` | operation.go:343-359 | which reports are answers or failures at all: exactly one of the two, with a response of valid shape or a failure of a known code |
| `SendLoop.Operation.Attempts` | operation.go:194-327 | the loop itself, with the same log and the same end; its end is never run off |
| `SendLoop.Operation.Round` | operation.go:196-324 | one attempt: made exactly when the gate opens, its entry that of its own call, followed by a delay exactly when one is chosen and by another attempt exactly when the sleep returns in time, with its events and the floor it leaves |
| `SendLoop.Operation.TakeAnswer` | operation.go:273-308 | a response: delivered exactly when accepted in time, repeated exactly when it is retryable, not the last and the wait passes, otherwise an error that keeps the floor |
| `SendLoop.Operation.TakeFailure` | operation.go:310-324 | a failure, classified so that it keeps the floor, and repeated exactly when it is retryable, not the last and the wait passes |
| `SendLoop.Operation.RetryOrFail` | operation.go:299-307 | a final error is returned unchanged, a retryable one waits |
| `SendLoop.Operation.Gate` | operation.go:196-206 | the checks before an attempt: it starts exactly when none of them ends the operation |
| `SendLoop.Operation.CallTransport` | operation.go:688-723 | the bounded attempt: its report, or an empty one after the deadline |
| `SendLoop.Operation.Await` | operation.go:218-241 | what the log says of the attempt is what the world holds for it: its report, a made-up timeout if the next look ends nothing, or the commit tracker alone if it does |
| `SendLoop.Operation.BoundedCall` | operation.go:667-686 | a call given up only once the deadline has passed |
| `SendLoop.Operation.Terminal` | operation.go:379-409 | the terminal error of one look, which keeps the floor and is there whenever the deadline has passed |
| `SendLoop.TerminalKeepsFloor` | operation.go:379-447 | both terminal checks keep the floor |
| `SendLoop.ResponseKeepsFloor` | operation_response.go:15-75 | the error of a response keeps a floor raised before it or by it |
| `SendLoop.FailureKeepsFloor` | operation.go:549-560 | the classified failure keeps the floor |
| `SendLoop.Operation.Backoff` | operation.go:449-536 | a delay event exactly when a delay can be chosen, and going on exactly when the sleep after it passes; the delay is exactly the longer of the jitter and the Retry-After asked for, cut to 60 s and to the time left; every error keeps the floor |
| `SendLoop.DelayBounds` | operation.go:449-511 | such a delay is at least the jitter and at most the larger of the cap and 60 s, and it ends by the exclusive deadline if and only if the deadline minus the clock reading does not wrap around below |
| `SendLoop.DelayHonoursRetryAfter` | operation.go:489-511 | a number of seconds asked for is waited out, up to 60 s and the time left |
| `SendLoop.WrappedReading` | operation.go:449-472 | an operation that no look ends before the wait after its first attempt, where the subtraction wraps around and a delay is chosen past the deadline |
| `SendLoop.Operation.Sleep` | operation.go:512-535 | no error exactly when the sleep returns in time and the look after it ends nothing; every error keeps the floor |
| `Backoff.RetryCap` | operation.go:463-472 | the doubling loop computes min(base * 2^(attempt - 1), maximum, remaining) in 64 bits without overflow, also for a base above the maximum |
| `Backoff.DelayExactly` | operation.go:489-511 | the delay is the longest one that the request to wait, 60 s and the time left allow, unless the jitter is longer |
| `Backoff.ParseRetryAfterDelta` | operation_response.go:191-206 | digits naming a number of seconds that a duration holds, or not |
| `Backoff.DeltaExactly` | operation_response.go:191-206 | so many seconds are asked for by exactly that number in digits, from 1 to 9223372036 |
| `Backoff.OneRetryAfter` | operation_response.go:147-158 | the one value that all repetitions agree on |
| `Backoff.RetryAfterExactly` | operation_response.go:147-158 | there is a value exactly when there is a field, it is not empty and all fields say the same |
| `Observability.OperationObservability.constructor` | telemetry.go:82-90 | the first event |
| `Observability.OperationObservability.Sample` | telemetry.go:290-299 | the later of the clock and the last timestamp |
| `Observability.OperationObservability.Emit` | telemetry.go:273-278 | one event stamped no earlier than the one before |
| `Observability.OperationObservability.EmitAt` | telemetry.go:280-288 | one event at a sampled time |
| `Observability.OperationObservability.StartAttempt` | telemetry.go:131-137 | attempt.start |
| `Observability.OperationObservability.EndAttempt` | telemetry.go:188-226 | attempt.end and its summary, for a running attempt only, with the time since it started |
| `Observability.OperationObservability.Retry` | telemetry.go:228-237 | retry.delay |
| `Observability.OperationObservability.Finish` | telemetry.go:239-271 | operation.cancel exactly for a cancelled operation, then operation.end with the time since the operation started and the summaries, once |
| `Observability.OutcomeExactly` | telemetry.go:301-322 | the outcome reported, by the error and whether the runtime is closed |

## Left out

- TLS, PKCS#8, DNS, dialing and proxy CONNECT: input, output and cryptographic libraries.
- HPACK, frame encoding, gzip and encoding/json: library code; the decompressor is an arbitrary function, and the value decoded after a document was scanned is not modelled.
- Endpoint and option checks in config.go, option snapshots, error tables, generators, the telemetry adapter and the helpers for users' own suites: checks of single values, tables and delegation, with no property that spans operations.
- Preparation before the first attempt (operation.go:26-185): any NOT_SENT error with no attempt may come out of it.
- Request head text and its validation (internal/h1/h1.go:73-112, internal/h2/framing.go:68-125): the head and the header block are given bytes.
- Evidence fields of errors (HTTP status, byte counts, header counts, cause categories) and status classes of events: they do not influence control.
- The other diagnostic counters of state.go:46-56 and 185-201: each is one saturating addition, like the two that are modelled.
- Http1Message.ReadResponse: the partial response returned beside an error is not modelled, only the kind of the error.
- Model descriptors (serialize.go:27-330): recursion over descriptors, not over the value graph.
- Frames queued by the reader (acknowledgements, window updates, resets) and the write loop's deadlines (internal/h2/session.go:308-400): a write is any outcome.
- Aliasing of filtered slices: pool lists and header lists are sequences that are reassigned.
- Http1Transfer.DecodeGzip: when both size limits are passed within one buffer of each other, which one is reported depends on the read sizes and is left open.
- Http2Invariant.WindowsAreExact: no upper bound for stream windows, because there is none; Http2Departures.RebaseWithinMaximum says when it is kept.
- JsonValidation.Validator.ValidateAt: the order of sorted map keys is given with the value.
- SendLoop.Operation.CallTransport: the begin and the end of the call on its permit are in AdmissionModel.CallsEndOnce, over every interleaving.
- AdmissionObject.OperationPermit.ShrinkRequest: the invariant is kept by the one call before the release that an operation makes (operation.go:182, runtime.go:63); of a second one only the effect is stated, which gives the workspace back again.
- OrderedJson.OrderedObject.MarshalJSON: the library refuses the output of an ordered object nested more than 10000 deep; the plain encoding of the model has no such limit.
- Http2Sending.WriteHeaderBlock: the frame size is positive, as every reachable session state guarantees.
