/**
 * The request-to-response pipeline of `SimpleWebServer`: find the route in
 * the request's header lines, turn the route into a response body (the
 * greeting, or the outcome of an infrared command), and frame the response.
 */
module SimpleWebServer {
  import opened Wrappers
  import opened JavaText
  import opened PulseEncoding
  import opened Platform

  // ---------------------------------------------------------------------
  // Route extraction

  /** The outcome of scanning the header lines for the route. */
  datatype RouteScan =
    | NoRoute             // no request line before the first empty or absent line
    | Found(route: string)
    | Malformed           // the request line has no space after the path: `substring` throws

  /** A request line as the scan recognises it. */
  predicate IsGetLine(line: string)
  {
    StartsWith(line, "GET /")
  }

  /** The text after the first `/` of `line` up to the next space after it. */
  function RouteOf(line: string): RouteScan
  {
    var start := IndexOf(line, '/', 0) + 1;
    var end := IndexOf(line, ' ', start);
    if 0 <= start <= end <= |line| then Found(line[start..end]) else Malformed
  }

  /** The route of the first request line before the first empty line or the end. */
  function ScanRoute(request: seq<string>): RouteScan
  {
    if request == [] || request[0] == "" then NoRoute
    else if IsGetLine(request[0]) then RouteOf(request[0])
    else ScanRoute(request[1..])
  }

  /** The number of header lines: those before the first empty line or the end. */
  function HeaderCount(request: seq<string>): (n: nat)
    ensures n <= |request|
    ensures forall k :: 0 <= k < n ==> request[k] != ""
    ensures n < |request| ==> request[n] == ""
  {
    if request == [] || request[0] == "" then 0 else 1 + HeaderCount(request[1..])
  }

  /**
   * The header loop of `handle`: reads lines until an empty or absent one and
   * takes the route from the first line that starts with `GET /`.
   */
  method ReadRoute(request: seq<string>) returns (scan: RouteScan)
    ensures scan == ScanRoute(request)
  {
    var route: Option<string> := None;
    var i := 0;
    while i < |request| && request[i] != ""
      invariant 0 <= i <= |request|
      invariant ScanRoute(request[i..]) == ScanRoute(request)
      invariant route.None?
    {
      var line := request[i];
      assert request[i..][1..] == request[i + 1..];
      if StartsWith(line, "GET /") {
        var start := IndexOf(line, '/', 0) + 1;
        var end := IndexOf(line, ' ', start);
        if !(0 <= start <= end <= |line|) {
          return Malformed;
        }
        route := Some(line[start..end]);
        break;
      }
      i := i + 1;
    }
    if route.None? {
      return NoRoute;
    }
    return Found(route.value);
  }

  // ---------------------------------------------------------------------
  // Route dispatch and command decoding

  /** The command keyword as the source spells it; it is matched ignoring case. */
  const COMMAND_MARKER: string := "sendIRcmd"

  /** The three bodies the server can send, as UTF-8 bytes. */
  const HELLO_WORLD: seq<byte> := AsciiBytes("Hello World")
  const IR_CMD_SENT: seq<byte> := AsciiBytes("IR cmd sent")
  const IR_CMD_FAILED: seq<byte> := AsciiBytes("IR cmd failed")

  predicate IsRootRoute(route: string)
  {
    route == "" || route == "/"
  }

  /** The source's test for a command route: either spelling of the marker, ignoring case. */
  predicate IsCommandRoute(route: string)
  {
    || Contains(ToLower(route), ToLower(COMMAND_MARKER + "/"))
    || Contains(ToLower(route), ToLower(COMMAND_MARKER))
  }

  /** The command's payload: everything after the last `/` of the route. */
  function Payload(route: string): string
  {
    route[LastIndexOf(route, '/') + 1..]
  }

  /** The payload split on `,` the way `String.split` does it. */
  function CommandTokens(route: string): seq<string>
  {
    Split(Payload(route), ',')
  }

  /**
   * `Double.valueOf` on each token in order; `None` as soon as one throws.
   * The parser itself is a parameter: its grammar is not part of the model.
   */
  function ParseAll(tokens: seq<string>, parse: string -> Option<Double>): Option<seq<Double>>
  {
    if tokens == [] then Some([])
    else match parse(tokens[0])
      case None => None
      case Some(v) =>
        match ParseAll(tokens[1..], parse)
        case None => None
        case Some(vs) => Some([v] + vs)
  }

  /** The pulse pattern of a command route, or `None` when a token does not parse. */
  function CommandPattern(route: string, parse: string -> Option<Double>): Option<seq<int>>
  {
    match ParseAll(CommandTokens(route), parse)
    case None => None
    case Some(values) => Some(EncodeAll(values))
  }

  /** What `loadContent` decides to do with a route. */
  datatype Dispatch =
    | Greeting                          // the root route
    | Command(pattern: Option<seq<int>>) // a command; `None` when parsing failed
    | Unrouted                          // anything else: no content

  /** The dispatch of `loadContent`: the root test comes before the command test. */
  function Classify(route: string, parse: string -> Option<Double>): Dispatch
  {
    if IsRootRoute(route) then Greeting
    else if IsCommandRoute(route) then Command(CommandPattern(route, parse))
    else Unrouted
  }

  /** The body `loadContent` returns, given whether the emitter accepts a transmission. */
  function Content(d: Dispatch, working: bool): Option<seq<byte>>
  {
    match d
    case Greeting => Some(HELLO_WORLD)
    case Command(None) => Some(IR_CMD_FAILED)
    case Command(Some(_)) => Some(if working then IR_CMD_SENT else IR_CMD_FAILED)
    case Unrouted => None
  }

  /** The calls `loadContent` makes to the emitter. */
  function Transmissions(d: Dispatch): seq<Transmission>
  {
    match d
    case Command(Some(pattern)) => [Transmission(CARRIER_FREQUENCY, pattern)]
    case _ => []
  }

  /** The loop that collects the parsed command values, stopping at the first failure. */
  method ParseCommands(tokens: seq<string>, parse: string -> Option<Double>)
    returns (values: Option<seq<Double>>)
    ensures values == ParseAll(tokens, parse)
  {
    ParseAllPointwise(tokens, parse);
    var cmds: seq<Double> := [];
    for i := 0 to |tokens|
      invariant |cmds| == i
      invariant forall k :: 0 <= k < i ==> parse(tokens[k]).Some? && cmds[k] == parse(tokens[k]).value
    {
      var v := parse(tokens[i]);
      if v.None? {
        return None;
      }
      cmds := cmds + [v.value];
    }
    assert ParseAll(tokens, parse).value == cmds;
    return Some(cmds);
  }

  /**
   * `ParseAll` succeeds exactly when every token parses, and then yields the
   * parsed values in token order.
   */
  lemma {:induction false} ParseAllPointwise(tokens: seq<string>, parse: string -> Option<Double>)
    ensures ParseAll(tokens, parse).Some? <==> forall k :: 0 <= k < |tokens| ==> parse(tokens[k]).Some?
    ensures ParseAll(tokens, parse).Some? ==>
      && |ParseAll(tokens, parse).value| == |tokens|
      && forall k :: 0 <= k < |tokens| ==> ParseAll(tokens, parse).value[k] == parse(tokens[k]).value
  {
    if tokens != [] {
      ParseAllPointwise(tokens[1..], parse);
      if parse(tokens[0]).Some? && ParseAll(tokens[1..], parse).Some? {
        forall k | 0 <= k < |tokens|
          ensures ParseAll(tokens, parse).value[k] == parse(tokens[k]).value
        {
          if k > 0 {
            assert tokens[k] == tokens[1..][k - 1];
          }
        }
      } else if parse(tokens[0]).Some? {
        var k :| 0 <= k < |tokens[1..]| && parse(tokens[1..][k]).None?;
        assert parse(tokens[k + 1]).None?;
      }
    }
  }

  /**
   * `loadContent`: picks the body for a route, sending the command to the
   * emitter on the way, and copies it through a 1024-byte buffer. `None`
   * stands for the `null` it returns when no body was selected.
   */
  method LoadContent(fileName: string, parse: string -> Option<Double>, ir: ConsumerIrManager)
    returns (bytes: Option<seq<byte>>)
    modifies ir
    ensures ir.working == old(ir.working)
    ensures ir.calls == old(ir.calls) + Transmissions(Classify(fileName, parse))
    ensures bytes == Content(Classify(fileName, parse), old(ir.working))
  {
    var input := OpenContent(fileName, parse, ir);
    if input == null {
      // `input.read` throws a NullPointerException, which is caught: no body.
      return None;
    }
    ghost var body := input.buf;
    var output := new ByteArrayOutputStream();
    CopyStream(input, output);
    assert output.bytes == body[0..] == body;
    return Some(output.bytes);
  }

  /**
   * The dispatch of `loadContent`: a stream over the body the route selects,
   * or no stream at all for a route the server does not serve.
   */
  method OpenContent(fileName: string, parse: string -> Option<Double>, ir: ConsumerIrManager)
    returns (input: ByteArrayInputStream?)
    modifies ir
    ensures ir.working == old(ir.working)
    ensures ir.calls == old(ir.calls) + Transmissions(Classify(fileName, parse))
    ensures input == null <==> Content(Classify(fileName, parse), old(ir.working)).None?
    ensures input != null ==>
      && fresh(input) && input.Valid() && input.pos == 0
      && Content(Classify(fileName, parse), old(ir.working)) == Some(input.buf)
  {
    if fileName == "" || fileName == "/" {
      input := new ByteArrayInputStream(HELLO_WORLD);
    } else if IsCommandRoute(fileName) {
      var body := SendCommand(fileName, parse, ir);
      input := new ByteArrayInputStream(body);
    } else {
      input := null;
    }
  }

  /**
   * The command branch of `loadContent`: parse the payload, encode it, send it
   * on the 38 kHz carrier; any failure on the way selects the failure body.
   */
  method SendCommand(fileName: string, parse: string -> Option<Double>, ir: ConsumerIrManager)
    returns (body: seq<byte>)
    modifies ir
    ensures ir.working == old(ir.working)
    ensures ir.calls == old(ir.calls) + Transmissions(Command(CommandPattern(fileName, parse)))
    ensures Some(body) == Content(Command(CommandPattern(fileName, parse)), old(ir.working))
  {
    var start := LastIndexOf(fileName, '/') + 1;
    var tokens := Split(fileName[start..], ',');
    var cmds := ParseCommands(tokens, parse);
    if cmds.None? {
      return IR_CMD_FAILED;
    }
    var values := cmds.value;
    var irDec := new Double[|values|](k requires 0 <= k < |values| => values[k]);
    assert irDec[..] == values;
    var pattern := Dec2SamsungIrDec(irDec);
    assert tokens == CommandTokens(fileName);
    assert pattern[..] == EncodeAll(values);
    assert CommandPattern(fileName, parse) == Some(pattern[..]);
    var ok := ir.Transmit(CARRIER_FREQUENCY, pattern);
    return if ok then IR_CMD_SENT else IR_CMD_FAILED;
  }

  /** The copy loop of `loadContent`: drains `input` into `output` 1024 bytes at a time. */
  method CopyStream(input: ByteArrayInputStream, output: ByteArrayOutputStream)
    requires input.Valid()
    modifies input, output
    ensures input.Valid() && input.pos == |input.buf|
    ensures output.bytes == old(output.bytes) + input.buf[old(input.pos)..]
  {
    var buffer := new byte[1024];
    while true
      invariant input.Valid() && old(input.pos) <= input.pos
      invariant output.bytes == old(output.bytes) + input.buf[old(input.pos)..input.pos]
      decreases |input.buf| - input.pos
    {
      var size := input.Read(buffer);
      if size == -1 {
        break;
      }
      output.Write(buffer, 0, size);
    }
    assert input.buf[old(input.pos)..input.pos] == input.buf[old(input.pos)..];
  }

  // ---------------------------------------------------------------------
  // Response framing

  const STATUS_OK: string := "HTTP/1.0 200 OK"
  const STATUS_SERVER_ERROR: string := "HTTP/1.0 500 Internal Server Error"

  /** What one connection receives. */
  datatype Response =
    | Aborted                                            // an exception left `handle`: nothing is written
    | ServerError                                        // the bare 500 status line
    | Success(contentType: Option<string>, body: seq<byte>)

  /** `detectMimeType`: no type is ever detected. */
  function DetectMimeType(fileName: string): Option<string>
  {
    None
  }

  /** A possibly-null string as Java's string concatenation renders it. */
  function JavaString(s: Option<string>): string
  {
    match s
    case None => "null"
    case Some(t) => t
  }

  /** The response `handle` sends for a request, given the emitter's state. */
  function ResponseFor(request: seq<string>, parse: string -> Option<Double>, working: bool): Response
  {
    match ScanRoute(request)
    case Malformed => Aborted
    case NoRoute => ServerError
    case Found(route) =>
      match Content(Classify(route, parse), working)
      case None => ServerError
      case Some(body) => Success(DetectMimeType(route), body)
  }

  /** The emitter calls `handle` makes for a request. */
  function TransmissionsFor(request: seq<string>, parse: string -> Option<Double>): seq<Transmission>
  {
    match ScanRoute(request)
    case Found(route) => Transmissions(Classify(route, parse))
    case _ => []
  }

  /** The chunks a response puts on the connection. */
  function Render(r: Response): seq<Chunk>
  {
    match r
    case Aborted => []
    case ServerError => [Line(STATUS_SERVER_ERROR)]
    case Success(contentType, body) =>
      [ Line(STATUS_OK),
        Line("Content-Type: " + JavaString(contentType)),
        Line("Content-Length: " + Decimal(|body|)),
        Line(""),
        Raw(body) ]
  }

  /** `writeServerError` */
  method WriteServerError(output: PrintStream)
    modifies output
    ensures output.written == old(output.written) + [Line(STATUS_SERVER_ERROR)]
  {
    output.Println(STATUS_SERVER_ERROR);
  }

  /**
   * `handle` for one connection whose input lines are `request` and whose
   * output is `output`. `escaped` is true where `substring` throws and the
   * exception leaves `handle` before anything is written.
   */
  method Handle(request: seq<string>, parse: string -> Option<Double>,
                ir: ConsumerIrManager, output: PrintStream)
    returns (escaped: bool)
    modifies ir, output
    ensures escaped <==> ScanRoute(request).Malformed?
    ensures ir.working == old(ir.working)
    ensures ir.calls == old(ir.calls) + TransmissionsFor(request, parse)
    ensures output.written == old(output.written) + Render(ResponseFor(request, parse, old(ir.working)))
  {
    var scan := ReadRoute(request);
    if scan.Malformed? {
      return true;
    }
    if scan.NoRoute? {
      WriteServerError(output);
      return false;
    }
    var route := scan.route;
    var bytes := LoadContent(route, parse, ir);
    if bytes.None? {
      WriteServerError(output);
      return false;
    }
    WriteContent(output, route, bytes.value);
    return false;
  }

  /** The success branch of `handle`: status line, headers, blank line, body. */
  method WriteContent(output: PrintStream, route: string, bytes: seq<byte>)
    modifies output
    ensures output.written == old(output.written) + Render(Success(DetectMimeType(route), bytes))
  {
    output.Println(STATUS_OK);
    output.Println("Content-Type: " + JavaString(DetectMimeType(route)));
    output.Println("Content-Length: " + Decimal(|bytes|));
    output.Println("");
    output.Write(bytes);
  }
}
