/**
  The download relay handler, `POST` in app/api/download/route.ts.

  It reads the request's `code_or_id_or_url`, rejects a falsy one, looks the
  reference up at the metadata provider, takes the first video variant of
  the first item, fetches that variant's bytes and returns them as an
  attachment. Every failure on the way becomes one JSON error response: 400
  for a missing reference or a response without a video, 500 for anything
  thrown.

  The network, `req.json()`, `Buffer.toString()` and `JSON.parse` are not
  modelled: their results are inputs (`Inbound` and `Environment`). The
  function `Handle` states the handler's behaviour; the method `Post` follows
  the handler's own sequence of steps and buffers the two bodies chunk by
  chunk, and is proved to produce what `Handle` specifies.
 */
module DownloadRoute {
  import opened JsRuntime
  import opened UriComponent
  import opened Chunks

  // ---------------------------------------------------------------------
  // Inputs
  // ---------------------------------------------------------------------

  /** What `await req.json()` settles to: the parsed body, or what it throws. */
  datatype Inbound = Unreadable(fault: Fault) | Body(body: JsValue)

  /**
    The provider's document, in the shape the handler declares (route.ts:5-17).
    Every property and element the handler dereferences is a `Slot`: it may be
    missing or `null`, and then reading through it throws.
   */
  datatype VideoVersion = VideoVersion(url: string, width: int, height: int, kind: int)

  datatype ApiItem = ApiItem(videoVersions: Slot<seq<Slot<VideoVersion>>>)

  datatype ApiData = ApiData(items: Slot<seq<Slot<ApiItem>>>)

  datatype ApiResponse = ApiResponse(status: Slot<string>, data: Slot<ApiData>)

  /** What `JSON.parse` makes of the lookup body: a syntax error, or a document (which may be `null`). */
  datatype Parsed = NotJson | Document(doc: Slot<ApiResponse>)

  /** How an outbound request ends: a transport error, or a status code and the body's chunks. */
  datatype LookupOutcome = LookupFailed(fault: Fault) | LookupReplied(statusCode: int, chunks: seq<seq<Byte>>)

  datatype MediaOutcome = MediaFailed(fault: Fault) | MediaReplied(statusCode: int, chunks: seq<seq<Byte>>)

  /**
    Everything the handler learns from outside: the provider's answer for a
    lookup path, the media server's answer for a URL, the UTF-8 decoding
    done by `Buffer.toString()` and the result of `JSON.parse`.
   */
  datatype Environment = Environment(
    lookup: string -> LookupOutcome,
    media: string -> MediaOutcome,
    decode: seq<Byte> -> string,
    parse: string -> Parsed)

  // ---------------------------------------------------------------------
  // Outputs
  // ---------------------------------------------------------------------

  /** An outbound request the handler made. */
  datatype Call = LookupCall(host: string, path: string) | MediaCall(url: string)

  /** A response body: the video's bytes, or the JSON object `{ data, status, message }`. */
  datatype Payload = Binary(bytes: seq<Byte>) | ErrorJson(data: string, status: string, message: string)

  datatype Response = Response(status: int, headers: seq<(string, string)>, payload: Payload)

  /** The one response the handler returns and the outbound requests it made, in order. */
  datatype Exchange = Exchange(response: Response, calls: seq<Call>)

  function HeaderValue(headers: seq<(string, string)>, name: string): Option<string>
  {
    if headers == [] then None
    else if headers[0].0 == name then Some(headers[0].1)
    else HeaderValue(headers[1..], name)
  }

  // ---------------------------------------------------------------------
  // Constants of the handler
  // ---------------------------------------------------------------------

  const Host := "instagram-scraper-api3.p.rapidapi.com"

  const LookupPrefix := "/media_info?code_or_id_or_url="

  const ReferenceName := "code_or_id_or_url"

  const MissingReferenceMessage := "Missing code_or_id_or_url in request body"

  const NoVideoMessage := "Failed to retrieve video URL from API response"

  const AttachmentDisposition := "attachment; filename=\"instagram_video.mp4\""

  /** `NextResponse.json({ data: "", status: "error", message }, { status: code })`. */
  function ErrorResponse(code: int, message: string): Response
  {
    Response(code, [("content-type", "application/json")], ErrorJson("", "error", message))
  }

  /** What the `catch` block returns for a thrown value (route.ts:114-121). */
  function ServerError(f: Fault): Response
  {
    ErrorResponse(500, CatchMessage(f))
  }

  /** The 200 response carrying the video (route.ts:97-104). */
  function VideoResponse(bytes: seq<Byte>): Response
  {
    Response(200, [("Content-Disposition", AttachmentDisposition), ("Content-Type", "video/mp4")], Binary(bytes))
  }

  function StatusErrorMessage(code: int, body: string): string
  {
    "API responded with status " + Decimal(code) + ": " + body
  }

  function ParseErrorMessage(body: string): string
  {
    "Failed to parse API response: " + body
  }

  // ---------------------------------------------------------------------
  // The steps of the handler
  // ---------------------------------------------------------------------

  /** V8's TypeError for destructuring `undefined` or `null`. */
  function DestructureError(body: JsValue): Fault
  {
    ErrorValue("Cannot destructure property 'code_or_id_or_url' of 'body' as it is "
               + (if body.JsNull? then "null" else "undefined") + ".")
  }

  /**
    `const { code_or_id_or_url } = body` (route.ts:21-24): the property of an
    object body, `undefined` for any other non-null body.
   */
  function Reference(inbound: Inbound): Completion<JsValue>
  {
    match inbound
    case Unreadable(f) => Threw(f)
    case Body(body) =>
      if body.Undefined? || body.JsNull? then Threw(DestructureError(body))
      else if body.Obj? && Ascii(ReferenceName) in body.fields then Normal(body.fields[Ascii(ReferenceName)])
      else Normal(Undefined)
  }

  /** The lookup path, with the reference converted to a string and percent-encoded (route.ts:40). */
  function LookupPath(reference: JsValue): Completion<string>
  {
    match ToJsString(reference)
    case Threw(f) => Threw(f)
    case Normal(units) => PrependText(LookupPrefix, EncodeURIComponent(units))
  }

  /** What the lookup promise settles to (route.ts:49-80). */
  function LookupResult(outcome: LookupOutcome, env: Environment): Completion<Slot<ApiResponse>>
  {
    match outcome
    case LookupFailed(f) => Threw(f)
    case LookupReplied(code, chunks) =>
      var body := env.decode(Flatten(chunks));
      if code != 200 then Threw(ErrorValue(StatusErrorMessage(code, body)))
      else
        match env.parse(body)
        case NotJson => Threw(ErrorValue(ParseErrorMessage(body)))
        case Document(doc) => Normal(doc)
  }

  /**
    The URL of the video to fetch (route.ts:82-85): `Some` of the first
    variant's URL of the first item, `None` when the document offers none,
    or the TypeError that reading through a missing or null property raises.
   */
  function VideoUrl(doc: Slot<ApiResponse>): Completion<Option<string>>
  {
    match doc
    case Absent => Threw(ReadPropertyError(doc, "status"))
    case Null => Threw(ReadPropertyError(doc, "status"))
    case Present(r) =>
      if r.status != Present("ok") then Normal(None)
      else if !r.data.Present? then Threw(ReadPropertyError(r.data, "items"))
      else if !r.data.value.items.Present? then Threw(ReadPropertyError(r.data.value.items, "length"))
      else
        var items := r.data.value.items.value;
        if |items| == 0 then Normal(None)
        else if !items[0].Present? then Threw(ReadPropertyError(items[0], "video_versions"))
        else if !items[0].value.videoVersions.Present? then Normal(None)
        else
          var versions := items[0].value.videoVersions.value;
          if |versions| == 0 then Normal(None)
          else if !versions[0].Present? then Threw(ReadPropertyError(versions[0], "url"))
          else Normal(Some(versions[0].value.url))
  }

  /** What the media promise settles to (route.ts:88-94); the status code is never looked at. */
  function MediaResult(outcome: MediaOutcome): Completion<seq<Byte>>
  {
    match outcome
    case MediaFailed(f) => Threw(f)
    case MediaReplied(_, chunks) => Normal(Flatten(chunks))
  }

  /**
    One response with status 200, 400 or 500: the video, or the JSON error
    shape; at most two outbound requests, the lookup to the provider's host
    first; a 200 only after both.
   */
  predicate WellFormed(x: Exchange)
  {
    && (x.response.status == 200 || x.response.status == 400 || x.response.status == 500)
    && (x.response.status == 200 <==> x.response.payload.Binary?)
    && (x.response.payload.ErrorJson? ==> x.response.payload.data == "" && x.response.payload.status == "error")
    && |x.calls| <= 2
    && (|x.calls| >= 1 ==> x.calls[0].LookupCall? && x.calls[0].host == Host)
    && (|x.calls| == 2 ==> x.calls[1].MediaCall?)
    && (x.response.status == 200 ==> |x.calls| == 2)
  }

  /** How far a request gets before the lookup: a response already, or the lookup path. */
  datatype Admission = Rejected(response: Response) | Admitted(path: string)

  /** The handler up to the lookup request (route.ts:20-40). */
  function Admit(inbound: Inbound): Admission
  {
    match Reference(inbound)
    case Threw(f) => Rejected(ServerError(f))
    case Normal(reference) =>
      if !Truthy(reference) then Rejected(ErrorResponse(400, MissingReferenceMessage))
      else
        match LookupPath(reference)
        case Threw(f) => Rejected(ServerError(f))
        case Normal(path) => Admitted(path)
  }

  /**
    The handler: one response for every request, after at most two outbound
    requests, the lookup first.
   */
  function Handle(inbound: Inbound, env: Environment): (x: Exchange)
    ensures WellFormed(x)
  {
    match Admit(inbound)
    case Rejected(response) => Exchange(response, [])
    case Admitted(path) => Resolve(path, env)
  }

  /** The handler from the lookup request on. */
  function Resolve(path: string, env: Environment): (x: Exchange)
    ensures WellFormed(x) && |x.calls| >= 1 && x.calls[0] == LookupCall(Host, path)
    ensures x.response.status == 400 ==> x.response == ErrorResponse(400, NoVideoMessage)
  {
    match LookupResult(env.lookup(path), env)
    case Threw(f) => Exchange(ServerError(f), [LookupCall(Host, path)])
    case Normal(doc) => Relay(doc, path, env)
  }

  /** The handler from the provider's document on: pick the video, fetch it, answer. */
  function Relay(doc: Slot<ApiResponse>, path: string, env: Environment): (x: Exchange)
    ensures WellFormed(x) && |x.calls| >= 1 && x.calls[0] == LookupCall(Host, path)
    ensures x.response.status == 400 ==> x.response == ErrorResponse(400, NoVideoMessage)
  {
    var looked := [LookupCall(Host, path)];
    match VideoUrl(doc)
    case Threw(f) => Exchange(ServerError(f), looked)
    case Normal(None) => Exchange(ErrorResponse(400, NoVideoMessage), looked)
    case Normal(Some(url)) =>
      var fetched := looked + [MediaCall(url)];
      match MediaResult(env.media(url))
      case Threw(f) => Exchange(ServerError(f), fetched)
      case Normal(bytes) => Exchange(VideoResponse(bytes), fetched)
  }

  /**
    The handler step by step, as route.ts runs it: each response body is
    received chunk by chunk and concatenated before it is used.
   */
  method Post(inbound: Inbound, env: Environment) returns (response: Response, calls: seq<Call>)
    ensures Exchange(response, calls) == Handle(inbound, env)
  {
    var admission := Admit(inbound);
    match admission {
      case Rejected(r) =>
        response, calls := r, [];
      case Admitted(path) =>
        response, calls := LookUp(path, env);
    }
  }

  /** The lookup request, its body buffered and parsed (route.ts:49-80), then the rest. */
  method LookUp(path: string, env: Environment) returns (response: Response, calls: seq<Call>)
    ensures Exchange(response, calls) == Resolve(path, env)
  {
    var lookup := env.lookup(path);
    calls := [LookupCall(Host, path)];
    var doc: Slot<ApiResponse>;
    match lookup {
      case LookupFailed(f) =>
        return ServerError(f), calls;
      case LookupReplied(code, stream) =>
        var bytes := ReadBody(stream);
        var body := env.decode(bytes);
        if code != 200 {
          return ServerError(ErrorValue(StatusErrorMessage(code, body))), calls;
        }
        match env.parse(body) {
          case NotJson =>
            return ServerError(ErrorValue(ParseErrorMessage(body))), calls;
          case Document(d) =>
            doc := d;
        }
    }
    response, calls := Fetch(doc, path, env);
  }

  /** The choice of the video and its fetch, its body buffered (route.ts:82-112). */
  method Fetch(doc: Slot<ApiResponse>, path: string, env: Environment) returns (response: Response, calls: seq<Call>)
    ensures Exchange(response, calls) == Relay(doc, path, env)
  {
    calls := [LookupCall(Host, path)];
    var url := VideoUrl(doc);
    if url.Threw? {
      return ServerError(url.fault), calls;
    }
    if url.value.None? {
      return ErrorResponse(400, NoVideoMessage), calls;
    }
    var media := env.media(url.value.value);
    calls := calls + [MediaCall(url.value.value)];
    match media {
      case MediaFailed(f) =>
        response := ServerError(f);
      case MediaReplied(_, stream) =>
        var bytes := ReadBody(stream);
        response := VideoResponse(bytes);
    }
  }
}
