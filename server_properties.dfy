/**
 * What the request pipeline promises, stated over the specification
 * functions of `SimpleWebServer` that its methods are proved against.
 */
module ServerProperties {
  import opened Wrappers
  import opened JavaText
  import opened PulseEncoding
  import opened Platform
  import opened SimpleWebServer

  // ---------------------------------------------------------------------
  // Route extraction

  /**
   * The scan finds a route exactly when some header line before the first
   * empty one is a request line, and then it is the route of the first such line.
   */
  lemma {:induction false} ScanRouteFirstGet(request: seq<string>)
    ensures ScanRoute(request).NoRoute? <==>
      forall k :: 0 <= k < HeaderCount(request) ==> !IsGetLine(request[k])
    ensures !ScanRoute(request).NoRoute? ==>
      exists k :: && 0 <= k < HeaderCount(request)
                  && IsGetLine(request[k])
                  && (forall j :: 0 <= j < k ==> !IsGetLine(request[j]))
                  && ScanRoute(request) == RouteOf(request[k])
  {
    if request != [] && request[0] != "" && !IsGetLine(request[0]) {
      var rest := request[1..];
      ScanRouteFirstGet(rest);
      assert HeaderCount(request) == 1 + HeaderCount(rest);
      assert forall k :: 0 <= k < |rest| ==> rest[k] == request[k + 1];
      if !ScanRoute(rest).NoRoute? {
        var k :| && 0 <= k < HeaderCount(rest)
                 && IsGetLine(rest[k])
                 && (forall j :: 0 <= j < k ==> !IsGetLine(rest[j]))
                 && ScanRoute(rest) == RouteOf(rest[k]);
        assert forall j :: 0 <= j < k + 1 ==> !IsGetLine(request[j]) by {
          forall j | 0 <= j < k + 1 ensures !IsGetLine(request[j]) {
            if j > 0 {
              assert request[j] == rest[j - 1];
            }
          }
        }
      } else {
        forall k | 0 <= k < HeaderCount(request) ensures !IsGetLine(request[k]) {
          if k > 0 {
            assert request[k] == rest[k - 1];
          }
        }
      }
    }
  }

  /**
   * On a request line the route starts right after `GET /` and runs to the
   * next space; without a space after that point the line is malformed.
   */
  lemma RouteOfRequestLine(line: string)
    requires IsGetLine(line)
    ensures RouteOf(line).Malformed? <==> forall i :: 5 <= i < |line| ==> line[i] != ' '
    ensures RouteOf(line).Found? ==>
      var end := IndexOf(line, ' ', 5);
      && 5 <= end < |line| && line[end] == ' '
      && RouteOf(line).route == line[5..end]
      && ' ' !in RouteOf(line).route
  {
    assert line[..5] == "GET /";
    assert line[4] == '/';
    assert IndexOf(line, '/', 0) == 4;
    var end := IndexOf(line, ' ', 5);
    if end != -1 {
      assert forall i :: 0 <= i < end - 5 ==> line[5..end][i] == line[5 + i];
    }
  }

  // ---------------------------------------------------------------------
  // Dispatch and command decoding

  /** The three bodies are distinct messages. */
  lemma BodiesDistinct()
    ensures HELLO_WORLD != IR_CMD_SENT && HELLO_WORLD != IR_CMD_FAILED && IR_CMD_SENT != IR_CMD_FAILED
  {
    assert HELLO_WORLD[0] as int == 'H' as int && IR_CMD_SENT[0] as int == 'I' as int;
    assert HELLO_WORLD[0] != IR_CMD_FAILED[0];
  }

  /** The root routes always greet and never reach the emitter. */
  lemma RootRouteGreets(route: string, parse: string -> Option<Double>, working: bool)
    requires IsRootRoute(route)
    ensures Content(Classify(route, parse), working) == Some(HELLO_WORLD)
    ensures Transmissions(Classify(route, parse)) == []
  {
  }

  /** A command route is one whose lower-cased text contains `sendircmd`. */
  lemma CommandRouteIgnoresCase(route: string)
    ensures IsCommandRoute(route) <==> Contains(ToLower(route), "sendircmd")
  {
    assert ToLower(COMMAND_MARKER) == "sendircmd";
    assert ToLower(COMMAND_MARKER + "/") == "sendircmd" + "/";
    if Contains(ToLower(route), "sendircmd" + "/") {
      ContainsPrefixOfOccurrence(ToLower(route), "sendircmd", "/");
    }
  }

  /**
   * The payload is the route's last `/`-free segment: the whole route when
   * it has no `/`, else what follows its last `/`.
   */
  lemma PayloadIsLastSegment(route: string)
    ensures '/' !in Payload(route)
    ensures |Payload(route)| <= |route| && route[|route| - |Payload(route)|..] == Payload(route)
    ensures '/' !in route ==> Payload(route) == route
    ensures '/' in route ==> route[|route| - |Payload(route)| - 1] == '/'
  {
    var p := Payload(route);
    var start := LastIndexOf(route, '/') + 1;
    assert forall i :: 0 <= i < |p| ==> p[i] == route[start + i];
  }

  /**
   * A command transmits exactly when every token parses: then once, on the
   * 38 kHz carrier, one pulse per token in token order, and the body reports
   * the emitter's verdict; otherwise nothing is sent and the body is the
   * failure message.
   */
  lemma CommandOutcome(route: string, parse: string -> Option<Double>, working: bool)
    requires !IsRootRoute(route) && IsCommandRoute(route)
    ensures var tokens, d := CommandTokens(route), Classify(route, parse);
      if forall k :: 0 <= k < |tokens| ==> parse(tokens[k]).Some? then
        && |Transmissions(d)| == 1
        && Transmissions(d)[0].carrierFrequency == 38000
        && |Transmissions(d)[0].pattern| == |tokens|
        && (forall k :: 0 <= k < |tokens| ==>
              Transmissions(d)[0].pattern[k] == EncodePulse(parse(tokens[k]).value))
        && Content(d, working) == Some(if working then IR_CMD_SENT else IR_CMD_FAILED)
      else
        && Transmissions(d) == []
        && Content(d, working) == Some(IR_CMD_FAILED)
  {
    ParseAllPointwise(CommandTokens(route), parse);
  }

  /** An empty payload (`sendIRcmd/`) splits to one empty token, which does not parse. */
  lemma EmptyPayloadFails(route: string, parse: string -> Option<Double>, working: bool)
    requires !IsRootRoute(route) && IsCommandRoute(route) && Payload(route) == ""
    requires parse("") == None
    ensures CommandTokens(route) == [""]
    ensures Transmissions(Classify(route, parse)) == []
    ensures Content(Classify(route, parse), working) == Some(IR_CMD_FAILED)
  {
    SplitIsTrimmedSplitAll("", ',');
  }

  /** A route that is neither root nor command selects no body and sends nothing. */
  lemma UnroutedHasNoContent(route: string, parse: string -> Option<Double>, working: bool)
    requires !IsRootRoute(route) && !IsCommandRoute(route)
    ensures Content(Classify(route, parse), working) == None
    ensures Transmissions(Classify(route, parse)) == []
  {
  }

  /** `loadContent` gives `null` or one of the three bodies. */
  lemma ContentIsAMessage(d: Dispatch, working: bool)
    ensures Content(d, working) == None <==> d.Unrouted?
    ensures Content(d, working).Some? ==>
      Content(d, working).value in {HELLO_WORLD, IR_CMD_SENT, IR_CMD_FAILED}
  {
  }

  // ---------------------------------------------------------------------
  // Response framing

  /**
   * The bare 500 line is sent exactly when no route was found or the route
   * selects no body; an exception leaves `handle` exactly on a malformed line.
   */
  lemma ServerErrorCases(request: seq<string>, parse: string -> Option<Double>, working: bool)
    ensures var r := ResponseFor(request, parse, working);
      && (r.ServerError? <==>
            || ScanRoute(request).NoRoute?
            || (ScanRoute(request).Found? && Classify(ScanRoute(request).route, parse).Unrouted?))
      && (r.Aborted? <==> ScanRoute(request).Malformed?)
      && (r.ServerError? ==> Render(r) == [Line("HTTP/1.0 500 Internal Server Error")])
      && (r.Aborted? ==> Render(r) == [] && TransmissionsFor(request, parse) == [])
  {
    match ScanRoute(request)
    case Found(route) =>
      ContentIsAMessage(Classify(route, parse), working);
    case _ =>
  }

  /**
   * A 200 response is the status line, `Content-Type: null`, a
   * Content-Length that reads back as the body's byte count, an empty line
   * and then exactly the body.
   */
  lemma SuccessRendering(body: seq<byte>)
    ensures var chunks := Render(Success(None, body));
      && |chunks| == 5
      && chunks[0] == Line("HTTP/1.0 200 OK")
      && chunks[1] == Line("Content-Type: null")
      && chunks[2].Line? && StartsWith(chunks[2].text, "Content-Length: ")
      && (forall i :: 16 <= i < |chunks[2].text| ==> IsDigit(chunks[2].text[i]))
      && ParseDecimal(chunks[2].text[16..]) == |body|
      && chunks[3] == Line("")
      && chunks[4] == Raw(body)
  {
    assert "Content-Type: " + "null" == "Content-Type: null";
    var text := "Content-Length: " + Decimal(|body|);
    assert text[..16] == "Content-Length: ";
    assert text[16..] == Decimal(|body|);
    DecimalRoundTrip(|body|);
  }

  /** Every 200 response carries no content type and one of the three messages. */
  lemma SuccessBodies(request: seq<string>, parse: string -> Option<Double>, working: bool)
    requires ResponseFor(request, parse, working).Success?
    ensures var r := ResponseFor(request, parse, working);
      && r.contentType == None
      && r.body in {HELLO_WORLD, IR_CMD_SENT, IR_CMD_FAILED}
  {
    ContentIsAMessage(Classify(ScanRoute(request).route, parse), working);
  }

  /** A command's failure never changes the status: every command route gets a 200. */
  lemma CommandsAnswerOk(request: seq<string>, parse: string -> Option<Double>, working: bool)
    requires ScanRoute(request).Found? && IsCommandRoute(ScanRoute(request).route)
    ensures ResponseFor(request, parse, working).Success?
  {
  }

  // ---------------------------------------------------------------------
  // Whole requests

  /** The route of `GET /<route> <rest>` is `<route>`, for a route without spaces. */
  lemma RouteOfWellFormedLine(route: string, rest: string)
    requires ' ' !in route
    ensures IsGetLine("GET /" + route + " " + rest)
    ensures RouteOf("GET /" + route + " " + rest) == Found(route)
  {
    var line := "GET /" + route + " " + rest;
    var end := 5 + |route|;
    assert line[..5] == "GET /";
    assert line[5..end] == route;
    assert line[end] == ' ';
    assert forall i :: 5 <= i < end ==> line[i] != ' ' by {
      forall i | 5 <= i < end ensures line[i] != ' ' {
        assert line[i] == line[5..end][i - 5];
      }
    }
    IndexOfFirst(line, ' ', 5, end);
    RouteOfRequestLine(line);
  }

  /** `GET /<route>` with no space after the path is malformed. */
  lemma RouteOfLineWithoutSpace(route: string)
    requires ' ' !in route
    ensures IsGetLine("GET /" + route)
    ensures RouteOf("GET /" + route).Malformed?
  {
    var line := "GET /" + route;
    assert line[..5] == "GET /";
    assert forall i :: 5 <= i < |line| ==> line[i] == route[i - 5];
    RouteOfRequestLine(line);
  }

  /** `sendIRcmd/<payload>` is a command route whose payload is `<payload>`. */
  lemma MarkedCommandRoute(payload: string)
    requires '/' !in payload
    ensures !IsRootRoute("sendIRcmd/" + payload)
    ensures IsCommandRoute("sendIRcmd/" + payload)
    ensures Payload("sendIRcmd/" + payload) == payload
  {
    var route := "sendIRcmd/" + payload;
    CommandRouteIgnoresCase(route);
    assert ToLower(route)[..9] == "sendircmd";
    assert OccursAt(ToLower(route), "sendircmd", 0);
    assert route[9] == '/';
    assert forall i :: 10 <= i < |route| ==> route[i] == payload[i - 10];
    assert LastIndexOf(route, '/') == 9;
    assert route[10..] == payload;
  }

  /** `GET / HTTP/1.0` is answered with the greeting. */
  lemma RootRequestGreets(request: seq<string>, parse: string -> Option<Double>, working: bool)
    requires request == ["GET / HTTP/1.0", ""]
    ensures ResponseFor(request, parse, working) == Success(None, HELLO_WORLD)
    ensures TransmissionsFor(request, parse) == []
  {
    assert request[0] == "GET /" + "" + " " + "HTTP/1.0";
    RouteOfWellFormedLine("", "HTTP/1.0");
  }

  /** The three tokens of `10,20,30`. */
  lemma TensTokens(payload: string)
    requires payload == "10,20,30"
    ensures Split(payload, ',') == ["10", "20", "30"]
  {
    assert payload == "10" + [','] + "20" + [','] + "30";
    SplitThree("10", "20", "30", ',');
  }

  /** A request made of one well-formed request line is answered from its route. */
  lemma OneLineRequest(route: string, rest: string, parse: string -> Option<Double>, working: bool)
    requires ' ' !in route
    ensures var request := ["GET /" + route + " " + rest];
      && ScanRoute(request) == Found(route)
      && TransmissionsFor(request, parse) == Transmissions(Classify(route, parse))
      && ResponseFor(request, parse, working) ==
           match Content(Classify(route, parse), working)
           case None => ServerError
           case Some(body) => Success(None, body)
  {
    RouteOfWellFormedLine(route, rest);
  }

  /** The values of the tokens `10`, `20` and `30` when each parses as its number. */
  lemma TensValues(parse: string -> Option<Double>)
    requires parse("10") == Some(Finite(10.0))
    requires parse("20") == Some(Finite(20.0))
    requires parse("30") == Some(Finite(30.0))
    ensures ParseAll(["10", "20", "30"], parse) == Some([Finite(10.0), Finite(20.0), Finite(30.0)])
  {
    var tokens := ["10", "20", "30"];
    ParseAllPointwise(tokens, parse);
    assert ParseAll(tokens, parse).value == [Finite(10.0), Finite(20.0), Finite(30.0)];
  }

  /** The pulse pattern of `sendIRcmd/10,20,30` when the three numbers parse. */
  lemma TensPattern(route: string, payload: string, parse: string -> Option<Double>)
    requires route == "sendIRcmd/" + payload && payload == "10,20,30"
    requires parse("10") == Some(Finite(10.0))
    requires parse("20") == Some(Finite(20.0))
    requires parse("30") == Some(Finite(30.0))
    ensures Classify(route, parse) == Command(Some([263, 526, 789]))
  {
    MarkedCommandRoute(payload);
    TensTokens(payload);
    assert CommandTokens(route) == ["10", "20", "30"];
    TensValues(parse);
    EncodeTensExactly();
    assert CommandPattern(route, parse) == Some([263, 526, 789]);
  }

  /**
   * `GET /sendIRcmd/10,20,30 HTTP/1.0` sends 263, 526 and 789 on the 38 kHz
   * carrier and reports the emitter's verdict with a 200.
   */
  lemma CommandRequestSends(request: seq<string>, parse: string -> Option<Double>, working: bool)
    requires request == ["GET /sendIRcmd/10,20,30 HTTP/1.0"]
    requires parse("10") == Some(Finite(10.0))
    requires parse("20") == Some(Finite(20.0))
    requires parse("30") == Some(Finite(30.0))
    ensures TransmissionsFor(request, parse) == [Transmission(38000, [263, 526, 789])]
    ensures ResponseFor(request, parse, working) ==
      Success(None, if working then IR_CMD_SENT else IR_CMD_FAILED)
  {
    var payload := "10,20,30";
    var route := "sendIRcmd/" + payload;
    CommandLine(route);
    TensPattern(route, payload, parse);
    OneLineRequest(route, "HTTP/1.0", parse, working);
  }

  /** The request line of `sendIRcmd/10,20,30`, whose route holds no space. */
  lemma CommandLine(route: string)
    requires route == "sendIRcmd/10,20,30"
    ensures "GET /" + route + " " + "HTTP/1.0" == "GET /sendIRcmd/10,20,30 HTTP/1.0"
    ensures ' ' !in route
  {
    assert forall i :: 0 <= i < |route| ==> route[i] != ' ';
  }

  /** `GET /foo/bar HTTP/1.0` names neither the root nor a command: a bare 500. */
  lemma UnmatchedRequestFails(request: seq<string>, parse: string -> Option<Double>, working: bool)
    requires request == ["GET /foo/bar HTTP/1.0"]
    ensures ResponseFor(request, parse, working) == ServerError
    ensures TransmissionsFor(request, parse) == []
  {
    var route := "foo/bar";
    assert "GET /" + route + " " + "HTTP/1.0" == "GET /foo/bar HTTP/1.0";
    assert request == ["GET /" + route + " " + "HTTP/1.0"];
    assert ' ' !in route by {
      assert forall i :: 0 <= i < |route| ==> route[i] != ' ';
    }
    NotACommand(route);
    OneLineRequest(route, "HTTP/1.0", parse, working);
  }

  /** `foo/bar` does not contain the command marker. */
  lemma NotACommand(route: string)
    requires route == "foo/bar"
    ensures !IsCommandRoute(route)
  {
    CommandRouteIgnoresCase(route);
    assert ToLower(route) == route;
    assert |route| < 9;
  }

  /** A connection that closes before sending a line gets a bare 500. */
  lemma EmptyRequestFails(parse: string -> Option<Double>, working: bool)
    ensures ResponseFor([], parse, working) == ServerError
  {
  }

  /**
   * A request line without a space after the path makes `substring` throw:
   * nothing is written and nothing is sent.
   */
  lemma RequestWithoutVersionAborts(request: seq<string>, parse: string -> Option<Double>, working: bool)
    requires request == ["GET /sendIRcmd/10"]
    ensures ResponseFor(request, parse, working) == Aborted
    ensures TransmissionsFor(request, parse) == []
  {
    var route := "sendIRcmd/10";
    assert "GET /" + route == "GET /sendIRcmd/10";
    assert request == ["GET /" + route];
    assert ' ' !in route by {
      assert forall i :: 0 <= i < |route| ==> route[i] != ' ';
    }
    RouteOfLineWithoutSpace(route);
  }

  /**
   * A payload of commas alone splits to no tokens at all, so the command
   * parses and an empty pattern is handed to the emitter.
   */
  lemma CommasOnlySendEmptyPattern(payload: string, parse: string -> Option<Double>)
    requires payload != "" && forall i :: 0 <= i < |payload| ==> payload[i] == ','
    ensures Classify("sendIRcmd/" + payload, parse) == Command(Some([]))
    ensures Transmissions(Classify("sendIRcmd/" + payload, parse)) == [Transmission(38000, [])]
  {
    var route := "sendIRcmd/" + payload;
    assert '/' !in payload by {
      assert forall i :: 0 <= i < |payload| ==> payload[i] != '/';
    }
    MarkedCommandRoute(payload);
    OnlySeparatorsNoTokens(payload, ',');
    assert CommandTokens(route) == [];
  }
}
