# A verified model of the IR REST server's request pipeline

`SimpleWebServer` is the HTTP server inside an Android app that turns a
phone's infrared emitter into a REST endpoint. For each connection it:

- reads the request's header lines and takes the route from the first
  `GET /` line;
- answers the root route (`""` or `"/"`) with `Hello World`;
- treats a route that contains `sendIRcmd` (in any case) as a command:
  - it takes the route's last `/`-free segment;
  - it splits that segment on commas and parses each token as a `double`;
  - it scales each value by 26.3, rounds it with `Math.rint` and narrows it
    to an `int` pulse;
  - it sends the pulses on a 38 kHz carrier and answers `IR cmd sent`, or
    `IR cmd failed` when anything on the way throws;
- answers every other route, and a request without a route, with a bare
  `HTTP/1.0 500 Internal Server Error`;
- frames a 200 response as the status line, `Content-Type: null`,
  `Content-Length: <n>`, an empty line and the body.

The project has five modules:

- `JavaText`: the `String` operations the pipeline relies on. These are
  `startsWith`, `indexOf`, `lastIndexOf`, `contains`, ASCII `toLowerCase`,
  `split` with its limit-0 treatment of trailing empty strings,
  `Integer.toString` and `getBytes(UTF_8)` on ASCII text.
- `PulseEncoding`: `dec2SamsungIRDec`. A `double` is a datatype of exact
  reals plus the two infinities and NaN. `Math.rint` rounds ties to even.
  `(int)` narrows as Java's section 5.1.3 says: NaN gives 0, and values
  saturate at the `int` bounds. The method scales its argument array in
  place and returns a fresh pattern array.
- `Platform`: the library objects the pipeline touches, as classes whose
  methods update their fields:
  - a `ByteArrayInputStream` with a read position;
  - a `ByteArrayOutputStream`;
  - a `PrintStream` that records the chunks written to the connection;
  - a `ConsumerIrManager` that logs every `transmit` call. Whether the
    hardware accepts a call is its `working` flag.
- `SimpleWebServer`:
  - the header loop of `handle` (`ReadRoute`);
  - `loadContent`: `LoadContent`, `OpenContent`, `SendCommand`,
    `ParseCommands` and `CopyStream`;
  - the response framing (`Handle`, `WriteContent`, `WriteServerError`).
  Each method is proved against a specification function: `ScanRoute`,
  `Classify`, `Content`, `Transmissions`, `ResponseFor` and `Render`.
- `ServerProperties`: lemmas about those functions, and whole requests
  worked end to end.

`Double.valueOf` is a parameter `parse: string -> Option<Double>`, where
`None` stands for a `NumberFormatException`. Lemmas that need the empty
token to be rejected say so in a `requires`.

A request line with no space after the path (`GET /sendIRcmd/10`) makes
`substring` throw. The exception leaves `handle`, and nothing is written.
The model calls this `Malformed` for the scan and `Aborted` for the
response. `run` catches only `IOException`, so in the source this ends the
server thread. That is part of the environment and is not modelled.

## Model

| member | source | states |
|---|---|---|
| JavaText.IndexOf | app/src/main/java/com/elsonsmith/IRRESTAPIServer/SimpleWebServer.java:127-128 | `indexOf(c, from)`: -1 exactly when no position at or after `from` holds `c`; otherwise the first such position |
| JavaText.IndexOfFirst | app/src/main/java/com/elsonsmith/IRRESTAPIServer/SimpleWebServer.java:127-128 | the first position holding `c` at or after `from` is the one `indexOf` returns |
| JavaText.LastIndexOf | app/src/main/java/com/elsonsmith/IRRESTAPIServer/SimpleWebServer.java:190 | `lastIndexOf('/')`: -1 exactly when there is no `/`; otherwise a position holding it, with none after it |
| JavaText.ContainsPrefixOfOccurrence | app/src/main/java/com/elsonsmith/IRRESTAPIServer/SimpleWebServer.java:188 | a string containing `t + u` contains `t`, which makes the `sendIRcmd/` test implied by the `sendIRcmd` test |
| JavaText.ToLower | app/src/main/java/com/elsonsmith/IRRESTAPIServer/SimpleWebServer.java:188 | `toLowerCase` keeps the length and maps every character through the ASCII lower-case mapping |
| JavaText.SplitAll | app/src/main/java/com/elsonsmith/IRRESTAPIServer/SimpleWebServer.java:192 | cutting at every comma gives at least one piece, and no piece holds a comma |
| JavaText.JoinSplitAll | app/src/main/java/com/elsonsmith/IRRESTAPIServer/SimpleWebServer.java:192 | joining the pieces with the comma gives the payload back |
| JavaText.SplitAllJoin | app/src/main/java/com/elsonsmith/IRRESTAPIServer/SimpleWebServer.java:192 | comma-free pieces, once joined, split back into the same pieces |
| JavaText.DropTrailingEmpty | app/src/main/java/com/elsonsmith/IRRESTAPIServer/SimpleWebServer.java:192 | keeps a prefix, drops only empty strings, and leaves no empty string at the end |
| JavaText.SplitIsTrimmedSplitAll | app/src/main/java/com/elsonsmith/IRRESTAPIServer/SimpleWebServer.java:192 | `split(",")` is a prefix of the full cut whose dropped tail is all empty; it gives `[""]` exactly for `""`, and otherwise never ends in an empty token |
| JavaText.SplitAllAppendSeparator | app/src/main/java/com/elsonsmith/IRRESTAPIServer/SimpleWebServer.java:192 | one more trailing comma adds exactly one empty piece to the full cut |
| JavaText.TrailingSeparatorIgnored | app/src/main/java/com/elsonsmith/IRRESTAPIServer/SimpleWebServer.java:192 | a trailing comma after a non-empty payload adds no token |
| JavaText.OnlySeparatorsNoTokens | app/src/main/java/com/elsonsmith/IRRESTAPIServer/SimpleWebServer.java:192 | a payload made only of commas splits to no tokens at all |
| JavaText.SplitAllFirst | app/src/main/java/com/elsonsmith/IRRESTAPIServer/SimpleWebServer.java:192 | the first piece runs up to the first comma, and the rest is cut the same way |
| JavaText.SplitThree | app/src/main/java/com/elsonsmith/IRRESTAPIServer/SimpleWebServer.java:192 | three comma-free pieces, the last one non-empty, split back into exactly those three |
| JavaText.Decimal | app/src/main/java/com/elsonsmith/IRRESTAPIServer/SimpleWebServer.java:151 | the Content-Length text is all digits, with no leading zero |
| JavaText.DecimalRoundTrip | app/src/main/java/com/elsonsmith/IRRESTAPIServer/SimpleWebServer.java:151 | the Content-Length text reads back as the number written |
| JavaText.AsciiBytes | app/src/main/java/com/elsonsmith/IRRESTAPIServer/SimpleWebServer.java:186 | `getBytes(UTF_8)` of ASCII text is one byte per character, each equal to the character's code |
| PulseEncoding.Scale | app/src/main/java/com/elsonsmith/IRRESTAPIServer/SimpleWebServer.java:173 | `d * 26.3`: finite values are scaled; infinities and NaN are unchanged |
| PulseEncoding.Rint | app/src/main/java/com/elsonsmith/IRRESTAPIServer/SimpleWebServer.java:174 | the result is within one half of `x`, and even when `x` is a tie |
| PulseEncoding.MathRint | app/src/main/java/com/elsonsmith/IRRESTAPIServer/SimpleWebServer.java:174 | `Math.rint` rounds finite values and returns infinities and NaN as they are |
| PulseEncoding.Truncate | app/src/main/java/com/elsonsmith/IRRESTAPIServer/SimpleWebServer.java:174 | rounds toward zero: the result lies within one unit of `x`, on the side of zero |
| PulseEncoding.Clamp | app/src/main/java/com/elsonsmith/IRRESTAPIServer/SimpleWebServer.java:174 | saturates into the `int` range and leaves in-range values alone |
| PulseEncoding.IntCast | app/src/main/java/com/elsonsmith/IRRESTAPIServer/SimpleWebServer.java:174 | `(int)` always gives an `int`: NaN gives 0, and the infinities give the two bounds |
| PulseEncoding.ScaleAll | app/src/main/java/com/elsonsmith/IRRESTAPIServer/SimpleWebServer.java:172-173 | one scaled value per input value |
| PulseEncoding.EncodeAll | app/src/main/java/com/elsonsmith/IRRESTAPIServer/SimpleWebServer.java:171-175 | one pulse per input value |
| PulseEncoding.EncodePulseFinite | app/src/main/java/com/elsonsmith/IRRESTAPIServer/SimpleWebServer.java:173-174 | a finite value becomes the saturated nearest integer to 26.3 times it, within one half of the product when that is in range |
| PulseEncoding.EncodePulseMonotonic | app/src/main/java/com/elsonsmith/IRRESTAPIServer/SimpleWebServer.java:173-174 | a larger value never gives a shorter pulse |
| PulseEncoding.EncodeWhole | app/src/main/java/com/elsonsmith/IRRESTAPIServer/SimpleWebServer.java:173-174 | a value whose product with 26.3 is an in-range integer is encoded as exactly that integer |
| PulseEncoding.EncodeTensExactly | app/src/main/java/com/elsonsmith/IRRESTAPIServer/SimpleWebServer.java:170-177 | 10, 20 and 30 become the pulses 263, 526 and 789 |
| PulseEncoding.EncodePulseNonFinite | app/src/main/java/com/elsonsmith/IRRESTAPIServer/SimpleWebServer.java:174 | NaN gives a zero pulse, and the infinities give `Integer.MAX_VALUE` and `Integer.MIN_VALUE` |
| PulseEncoding.Dec2SamsungIrDec | app/src/main/java/com/elsonsmith/IRRESTAPIServer/SimpleWebServer.java:170-177 | the argument array ends up holding every value scaled by 26.3; the returned array is fresh and holds one encoded pulse per original value, in order |
| Platform.ByteArrayInputStream.constructor | app/src/main/java/com/elsonsmith/IRRESTAPIServer/SimpleWebServer.java:186 | a new stream is positioned at the start of its bytes |
| Platform.ByteArrayInputStream.Read | app/src/main/java/com/elsonsmith/IRRESTAPIServer/SimpleWebServer.java:210 | -1 at the end of the stream with nothing changed; otherwise copies the next min(buffer length, remaining) bytes into the front of the buffer, returns their count and advances past them |
| Platform.ByteArrayOutputStream.Write | app/src/main/java/com/elsonsmith/IRRESTAPIServer/SimpleWebServer.java:211 | appends exactly `b[off..off+len]` |
| Platform.PrintStream.Println | app/src/main/java/com/elsonsmith/IRRESTAPIServer/SimpleWebServer.java:149-152 | appends one line to what the connection received |
| Platform.PrintStream.Write | app/src/main/java/com/elsonsmith/IRRESTAPIServer/SimpleWebServer.java:153 | appends the raw body bytes |
| Platform.ConsumerIrManager.Transmit | app/src/main/java/com/elsonsmith/IRRESTAPIServer/SimpleWebServer.java:200 | logs the call's frequency and pattern, and succeeds exactly when the hardware works |
| SimpleWebServer.HeaderCount | app/src/main/java/com/elsonsmith/IRRESTAPIServer/SimpleWebServer.java:125 | the header lines are the non-empty lines before the first empty line or the end |
| SimpleWebServer.ReadRoute | app/src/main/java/com/elsonsmith/IRRESTAPIServer/SimpleWebServer.java:120-132 | the header loop's outcome is the scan specification: no route, the first request line's route, or a malformed line |
| SimpleWebServer.ParseCommands | app/src/main/java/com/elsonsmith/IRRESTAPIServer/SimpleWebServer.java:193-196 | the parse loop gives every token's value in order, or fails at the first token that does not parse |
| SimpleWebServer.ParseAllPointwise | app/src/main/java/com/elsonsmith/IRRESTAPIServer/SimpleWebServer.java:193-196 | parsing succeeds exactly when every token parses, and then value k is token k's value |
| SimpleWebServer.LoadContent | app/src/main/java/com/elsonsmith/IRRESTAPIServer/SimpleWebServer.java:179-222 | the bytes returned are the content the route's dispatch selects, given the emitter's state; the emitter's log grows by exactly the dispatch's transmissions |
| SimpleWebServer.OpenContent | app/src/main/java/com/elsonsmith/IRRESTAPIServer/SimpleWebServer.java:180-207 | there is no stream exactly for a route with no content; otherwise a fresh stream at position 0 over that content |
| SimpleWebServer.SendCommand | app/src/main/java/com/elsonsmith/IRRESTAPIServer/SimpleWebServer.java:188-206 | the command branch transmits the encoded pattern exactly when every token parses, and reports sent or failed accordingly |
| SimpleWebServer.CopyStream | app/src/main/java/com/elsonsmith/IRRESTAPIServer/SimpleWebServer.java:208-214 | the 1024-byte copy loop appends every remaining input byte to the output, in order, and leaves the input at its end |
| SimpleWebServer.WriteServerError | app/src/main/java/com/elsonsmith/IRRESTAPIServer/SimpleWebServer.java:165-168 | writes exactly the 500 status line |
| SimpleWebServer.WriteContent | app/src/main/java/com/elsonsmith/IRRESTAPIServer/SimpleWebServer.java:149-153 | writes exactly the rendered 200 response for the body |
| SimpleWebServer.Handle | app/src/main/java/com/elsonsmith/IRRESTAPIServer/SimpleWebServer.java:116-163 | an exception escapes exactly on a malformed request line; the connection receives exactly the rendered response for the request, and the emitter exactly the request's transmissions |
| ServerProperties.ScanRouteFirstGet | app/src/main/java/com/elsonsmith/IRRESTAPIServer/SimpleWebServer.java:125-132 | there is no route exactly when no header line starts with `GET /`; otherwise the route comes from the first such line |
| ServerProperties.RouteOfRequestLine | app/src/main/java/com/elsonsmith/IRRESTAPIServer/SimpleWebServer.java:126-129 | on a `GET /` line the route starts right after `GET /` and runs to the next space and holds no space; the line is malformed exactly when no space follows |
| ServerProperties.RouteOfWellFormedLine | app/src/main/java/com/elsonsmith/IRRESTAPIServer/SimpleWebServer.java:126-129 | the route of `GET /<route> <rest>` is `<route>`, for any space-free route |
| ServerProperties.RouteOfLineWithoutSpace | app/src/main/java/com/elsonsmith/IRRESTAPIServer/SimpleWebServer.java:127-129 | `GET /<route>` with no space after it is malformed |
| ServerProperties.BodiesDistinct | app/src/main/java/com/elsonsmith/IRRESTAPIServer/SimpleWebServer.java:186-205 | the three bodies are pairwise different |
| ServerProperties.RootRouteGreets | app/src/main/java/com/elsonsmith/IRRESTAPIServer/SimpleWebServer.java:185-186 | the root routes get `Hello World` and send nothing |
| ServerProperties.CommandRouteIgnoresCase | app/src/main/java/com/elsonsmith/IRRESTAPIServer/SimpleWebServer.java:188 | a route is a command exactly when its lower-cased text contains `sendircmd` |
| ServerProperties.PayloadIsLastSegment | app/src/main/java/com/elsonsmith/IRRESTAPIServer/SimpleWebServer.java:190-191 | the payload is the route's suffix after its last `/`, or the whole route when it has no `/`; it holds no `/` |
| ServerProperties.MarkedCommandRoute | app/src/main/java/com/elsonsmith/IRRESTAPIServer/SimpleWebServer.java:185-191 | `sendIRcmd/<payload>` is a command route, not a root route, and its payload is `<payload>` |
| ServerProperties.CommandOutcome | app/src/main/java/com/elsonsmith/IRRESTAPIServer/SimpleWebServer.java:188-206 | if every token parses: one transmission at 38 kHz with one pulse per token, in order, and the body reports the emitter's verdict; otherwise nothing is sent and the body is the failure message |
| ServerProperties.EmptyPayloadFails | app/src/main/java/com/elsonsmith/IRRESTAPIServer/SimpleWebServer.java:191-206 | an empty payload gives one empty token, which fails to parse: nothing is sent and the body is the failure message |
| ServerProperties.CommasOnlySendEmptyPattern | app/src/main/java/com/elsonsmith/IRRESTAPIServer/SimpleWebServer.java:190-200 | a payload of commas alone yields no tokens, so an empty pattern is transmitted |
| ServerProperties.UnroutedHasNoContent | app/src/main/java/com/elsonsmith/IRRESTAPIServer/SimpleWebServer.java:208-216 | any other route selects no body (the null stream's read throws and `null` comes back) and sends nothing |
| ServerProperties.ContentIsAMessage | app/src/main/java/com/elsonsmith/IRRESTAPIServer/SimpleWebServer.java:179-222 | `loadContent` returns null exactly for an unrouted route, and otherwise one of the three bodies |
| ServerProperties.ServerErrorCases | app/src/main/java/com/elsonsmith/IRRESTAPIServer/SimpleWebServer.java:138-146 | the bare 500 is sent exactly when there is no route or the route has no content; the response is aborted exactly on a malformed line, and then nothing is written or sent |
| ServerProperties.SuccessRendering | app/src/main/java/com/elsonsmith/IRRESTAPIServer/SimpleWebServer.java:149-153 | a 200 response is five chunks: the status, `Content-Type: null`, a digit-only Content-Length that reads back as the body length, an empty line, and exactly the body |
| ServerProperties.SuccessBodies | app/src/main/java/com/elsonsmith/IRRESTAPIServer/SimpleWebServer.java:142-150 | every 200 response has no detected content type and carries one of the three bodies |
| ServerProperties.CommandsAnswerOk | app/src/main/java/com/elsonsmith/IRRESTAPIServer/SimpleWebServer.java:188-207 | every command route gets a 200, whether the command succeeds or fails |
| ServerProperties.OneLineRequest | app/src/main/java/com/elsonsmith/IRRESTAPIServer/SimpleWebServer.java:122-153 | a one-line request with a well-formed request line is answered from its route |
| ServerProperties.RootRequestGreets | app/src/main/java/com/elsonsmith/IRRESTAPIServer/SimpleWebServer.java:122-153 | `GET / HTTP/1.0` is answered with `Hello World` and sends nothing |
| ServerProperties.TensTokens | app/src/main/java/com/elsonsmith/IRRESTAPIServer/SimpleWebServer.java:192 | `10,20,30` splits into `10`, `20` and `30` |
| ServerProperties.TensValues | app/src/main/java/com/elsonsmith/IRRESTAPIServer/SimpleWebServer.java:193-196 | those tokens parse to 10, 20 and 30 when each one parses as its number |
| ServerProperties.TensPattern | app/src/main/java/com/elsonsmith/IRRESTAPIServer/SimpleWebServer.java:188-199 | `sendIRcmd/10,20,30` is a command with the pattern 263, 526, 789 |
| ServerProperties.CommandRequestSends | app/src/main/java/com/elsonsmith/IRRESTAPIServer/SimpleWebServer.java:116-206 | `GET /sendIRcmd/10,20,30 HTTP/1.0` transmits 263, 526, 789 at 38 kHz and answers 200 with the emitter's verdict |
| ServerProperties.NotACommand | app/src/main/java/com/elsonsmith/IRRESTAPIServer/SimpleWebServer.java:188 | `foo/bar` is not a command route |
| ServerProperties.UnmatchedRequestFails | app/src/main/java/com/elsonsmith/IRRESTAPIServer/SimpleWebServer.java:138-146 | `GET /foo/bar HTTP/1.0` gets the bare 500 and sends nothing |
| ServerProperties.EmptyRequestFails | app/src/main/java/com/elsonsmith/IRRESTAPIServer/SimpleWebServer.java:125-141 | a connection that sends no line gets the bare 500 |
| ServerProperties.RequestWithoutVersionAborts | app/src/main/java/com/elsonsmith/IRRESTAPIServer/SimpleWebServer.java:127-129 | `GET /sendIRcmd/10` with no version aborts the response and sends nothing |

## Left out

- `start`, `stop`, `run`, the server socket and the accept loop are not modelled. A request is a sequence of lines, and a response is the chunks written to the connection.
- Closing and flushing the streams, line separators and the character encoding of `println` are not modelled.
- Logging is not modelled.
- The thread's end when an unchecked exception escapes `handle` is not modelled.
- `Double.valueOf` is a parameter: its grammar (signs, exponents, hexadecimal forms, `NaN`, `Infinity`, surrounding whitespace) is not part of the model.
- Multiplication by 26.3 is exact arithmetic on reals, so the rounding of an IEEE-754 product, and a product that rounds across a half, are not modelled.
- `JavaText.ToLower` maps only ASCII `A`-`Z`: locale-dependent and non-ASCII case mapping is not modelled.
- The `Context`, the `getSystemService` lookup and a missing emitter (a null `mCIR`, whose `NullPointerException` would also select the failure body) are not modelled. The emitter is always present.
- What makes `transmit` throw (for example, a pattern the hardware rejects) is not modelled. Whether it throws is the emitter's `working` flag, fixed for the call.
- `detectMimeType` always returns null. The model writes `Content-Type: null` as Java's string concatenation does, and no other content type exists.
- `toArray` and `ArrayUtils.toPrimitive` are not separate operations: the parsed values go straight into a `double` array.
- `MainActivity`, the rest of the Android app and the build files are not part of this model.
