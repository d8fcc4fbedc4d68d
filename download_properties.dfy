/**
  What the download handler guarantees, stated over `Handle` and its steps:
  which references are rejected, what the lookup path carries, how each
  upstream outcome is answered, which variant is fetched, and what the
  video response holds.
 */
module DownloadProperties {
  import opened JsRuntime
  import opened UriComponent
  import opened Chunks
  import opened DownloadRoute

  /** The request gets as far as the lookup, at `path`. */
  predicate LooksUp(inbound: Inbound, path: string)
  {
    Admit(inbound) == Admitted(path)
  }

  // ---------------------------------------------------------------------
  // Validation of the reference (route.ts:24-33)
  // ---------------------------------------------------------------------

  /**
    A readable body is answered 400 "Missing code_or_id_or_url in request
    body" exactly when its reference is falsy, and then nothing is fetched.
   */
  lemma RejectsOnlyFalsyReference(inbound: Inbound, env: Environment)
    requires Reference(inbound).Normal?
    ensures (Handle(inbound, env).response == ErrorResponse(400, MissingReferenceMessage))
              <==> !Truthy(Reference(inbound).value)
    ensures !Truthy(Reference(inbound).value) ==> Handle(inbound, env).calls == []
  {
    var reference := Reference(inbound).value;
    if Truthy(reference) && LookupPath(reference).Normal? {
      var x := Resolve(LookupPath(reference).value, env);
      assert |MissingReferenceMessage| != |NoVideoMessage|;
      assert x.response != ErrorResponse(400, MissingReferenceMessage);
    }
  }

  /**
    The reference is not trimmed: a body whose reference is any non-empty
    well-formed string, whitespace included, is looked up with that string
    percent-encoded.
   */
  lemma NonEmptyStringIsLookedUp(units: seq<CodeUnit>, others: map<seq<CodeUnit>, JsValue>, env: Environment)
    requires |units| > 0 && WellFormedUtf16(units)
    ensures EncodeURIComponent(units).Normal?
    ensures
      var x := Handle(Body(Obj(others[Ascii(ReferenceName) := Str(units)])), env);
      |x.calls| >= 1 && x.calls[0] == LookupCall(Host, LookupPrefix + EncodeURIComponent(units).value)
  {
    EncodeThrowsIffIllFormed(units);
  }

  /** A single space is a valid reference: it is sent as "%20". */
  lemma SpaceIsLookedUp(env: Environment)
    ensures Handle(Body(Obj(map[Ascii(ReferenceName) := Str([0x20])])), env).calls[0]
              == LookupCall(Host, LookupPrefix + "%20")
  {
    var space: seq<CodeUnit> := [0x20];
    assert WellFormedUtf16(space);
    NonEmptyStringIsLookedUp(space, map[], env);
    assert Utf8(0x20) == [0x20];
    assert PercentEncode([0x20]) == "%20";
    assert EncodeURIComponent(space) == PrependText("%20", EncodeURIComponent([]));
  }

  /**
    An empty array is truthy, so it passes the check, but it converts to the
    empty string: the lookup is made with an empty value.
   */
  lemma EmptyArrayIsLookedUpEmpty(env: Environment)
    ensures LooksUp(Body(Obj(map[Ascii(ReferenceName) := Arr([])])), LookupPrefix)
    ensures Handle(Body(Obj(map[Ascii(ReferenceName) := Arr([])])), env).calls[0] == LookupCall(Host, LookupPrefix)
  {
    assert EncodeURIComponent([]) == Normal([]);
    assert LookupPath(Arr([])) == Normal(LookupPrefix + []);
  }

  /** A one-element array converts to what its element converts to (an absent or null element to nothing). */
  lemma SingletonArray(v: JsValue)
    ensures ToJsString(Arr([v])) == (if v.Undefined? || v.JsNull? then Normal([]) else ToJsString(v))
  {
  }

  /** An unreadable body, or a `null` one, is answered 500 before anything is fetched. */
  lemma UnreadableBody(inbound: Inbound, env: Environment)
    requires inbound.Unreadable? || inbound.body.JsNull?
    ensures Handle(inbound, env).calls == []
    ensures inbound.Unreadable? ==> Handle(inbound, env).response == ServerError(inbound.fault)
    ensures inbound.Unreadable? && inbound.fault.OtherValue? ==>
              Handle(inbound, env).response == ErrorResponse(500, "Internal server error")
    ensures inbound.Body? ==>
              Handle(inbound, env).response
              == ErrorResponse(500, "Cannot destructure property 'code_or_id_or_url' of 'body' as it is null.")
  {
  }

  // ---------------------------------------------------------------------
  // The lookup path (route.ts:40)
  // ---------------------------------------------------------------------

  /** The lookup prefix is a page, '?', the parameter's name and '='. */
  lemma PrefixShape()
    ensures LookupPrefix == "/media_info" + ['?'] + ReferenceName + ['=']
    ensures '?' !in "/media_info"
    ensures '#' !in ReferenceName && '&' !in ReferenceName && '=' !in ReferenceName
  {
    assert forall i :: 0 <= i < |ReferenceName| ==> ReferenceName[i] != '#' && ReferenceName[i] != '&' && ReferenceName[i] != '=';
  }

  /** An encoded text holds no query separator. */
  lemma EncodedSeparators(units: seq<CodeUnit>)
    requires EncodeURIComponent(units).Normal?
    ensures var t := EncodeURIComponent(units).value; '&' !in t && '#' !in t && '=' !in t
  {
    var t := EncodeURIComponent(units).value;
    EncodedChars(units);
    forall i | 0 <= i < |t| ensures t[i] != '&' && t[i] != '#' && t[i] != '=' {
      assert IsEncodedChar(t[i]);
    }
  }

  /**
    The lookup path is the fixed prefix and the encoded reference; its query
    has exactly one parameter, `code_or_id_or_url`, whose decoded value is
    the reference's string: the reference cannot add parameters, end the
    value early or start a fragment.
   */
  lemma LookupQuery(reference: JsValue, path: string)
    requires LookupPath(reference) == Normal(path)
    ensures ToJsString(reference).Normal?
    ensures |path| >= |LookupPrefix| && path[..|LookupPrefix|] == LookupPrefix
    ensures QueryParameters(path) == [(ReferenceName, path[|LookupPrefix|..])]
    ensures DecodeComponent(path[|LookupPrefix|..]) == Some(ToJsString(reference).value)
  {
    var units := ToJsString(reference).value;
    var t := EncodeURIComponent(units).value;
    EncodeDecodeRoundTrip(units);
    EncodedSeparators(units);
    PrefixShape();
    assert path == LookupPrefix + t;
    assert path[|LookupPrefix|..] == t;
    SingleParameter("/media_info", ReferenceName, t);
  }

  /** Building the path throws exactly when converting the reference throws or leaves a lone surrogate. */
  lemma LookupPathThrows(reference: JsValue)
    ensures LookupPath(reference).Threw? <==>
              ToJsString(reference).Threw? || !WellFormedUtf16(ToJsString(reference).value)
  {
    if ToJsString(reference).Normal? {
      EncodeThrowsIffIllFormed(ToJsString(reference).value);
    }
  }

  /**
    When building the path throws, the request is answered 500 with the
    thrown error's message and no request is made.
   */
  lemma PathThrowIsServerError(inbound: Inbound, env: Environment)
    requires Reference(inbound).Normal? && Truthy(Reference(inbound).value)
    requires LookupPath(Reference(inbound).value).Threw?
    ensures Handle(inbound, env) == Exchange(ServerError(LookupPath(Reference(inbound).value).fault), [])
  {
  }

  /** A lone surrogate in the reference is answered 500 "URI malformed" before any request. */
  lemma LoneSurrogateIsServerError(env: Environment)
    ensures Handle(Body(Obj(map[Ascii(ReferenceName) := Str([0xD800])])), env)
            == Exchange(ErrorResponse(500, "URI malformed"), [])
  {
    EncodeThrowsIffIllFormed([0xD800]);
  }

  // ---------------------------------------------------------------------
  // The upstream outcome (route.ts:49-80)
  // ---------------------------------------------------------------------

  /**
    A non-200 lookup is answered 500 "API responded with status <code>:
    <body>", with the provider's body echoed, and no media is fetched.
   */
  lemma UpstreamStatusError(inbound: Inbound, env: Environment, path: string)
    requires LooksUp(inbound, path)
    requires env.lookup(path).LookupReplied? && env.lookup(path).statusCode != 200
    ensures
      var body := env.decode(Flatten(env.lookup(path).chunks));
      var message := StatusErrorMessage(env.lookup(path).statusCode, body);
      && Handle(inbound, env) == Exchange(ErrorResponse(500, message), [LookupCall(Host, path)])
      && message == "API responded with status " + Decimal(env.lookup(path).statusCode) + ": " + body
  {
  }

  /** A 200 lookup whose body is not JSON is answered 500 "Failed to parse API response: <body>". */
  lemma UpstreamNotJson(inbound: Inbound, env: Environment, path: string)
    requires LooksUp(inbound, path)
    requires env.lookup(path).LookupReplied? && env.lookup(path).statusCode == 200
    requires env.parse(env.decode(Flatten(env.lookup(path).chunks))).NotJson?
    ensures Handle(inbound, env) == Exchange(
              ErrorResponse(500, "Failed to parse API response: " + env.decode(Flatten(env.lookup(path).chunks))),
              [LookupCall(Host, path)])
  {
  }

  /** A lookup that fails in transport is answered 500 with that error's message, and nothing else is fetched. */
  lemma UpstreamUnreachable(inbound: Inbound, env: Environment, path: string)
    requires LooksUp(inbound, path)
    requires env.lookup(path).LookupFailed?
    ensures Handle(inbound, env) == Exchange(ServerError(env.lookup(path).fault), [LookupCall(Host, path)])
  {
  }

  // ---------------------------------------------------------------------
  // The choice of the video (route.ts:82-85, 108-112)
  // ---------------------------------------------------------------------

  /** The document offers a video: ok, a first item, a first variant, and `url` is that variant's. */
  predicate OffersVideo(doc: Slot<ApiResponse>, url: string)
  {
    && doc.Present? && doc.value.status == Present("ok")
    && doc.value.data.Present? && doc.value.data.value.items.Present?
    && var items := doc.value.data.value.items.value;
    && |items| > 0 && items[0].Present? && items[0].value.videoVersions.Present?
    && var versions := items[0].value.videoVersions.value;
    && |versions| > 0 && versions[0].Present? && versions[0].value.url == url
  }

  /**
    The document offers no video, without any missing property being read
    through: the status is not "ok", or the item list is empty, or the first
    item's variant list is missing, null or empty.
   */
  predicate OffersNoVideo(doc: Slot<ApiResponse>)
  {
    && doc.Present?
    && (|| doc.value.status != Present("ok")
        || (&& doc.value.data.Present? && doc.value.data.value.items.Present?
            && (|| |doc.value.data.value.items.value| == 0
                || (&& doc.value.data.value.items.value[0].Present?
                    && (|| !doc.value.data.value.items.value[0].value.videoVersions.Present?
                        || |doc.value.data.value.items.value[0].value.videoVersions.value| == 0)))))
  }

  /**
    Choosing the video has three outcomes: the first variant of the first
    item when the document offers it, none when it offers none, and a
    TypeError in every other case (a null document, a missing `data` or
    `items`, a null first item or a null first variant).
   */
  lemma VideoUrlCases(doc: Slot<ApiResponse>, url: string)
    ensures VideoUrl(doc) == Normal(Some(url)) <==> OffersVideo(doc, url)
    ensures VideoUrl(doc) == Normal(None) <==> OffersNoVideo(doc)
    ensures VideoUrl(doc).Threw? <==> !OffersNoVideo(doc) && forall u :: !OffersVideo(doc, u)
  {
    forall u | OffersVideo(doc, u) ensures VideoUrl(doc) == Normal(Some(u)) {
    }
    if VideoUrl(doc).Normal? && VideoUrl(doc).value.Some? {
      assert OffersVideo(doc, VideoUrl(doc).value.value);
    }
  }

  /** Only the first entry of a list. */
  function FirstOnly<T>(s: seq<T>): (r: seq<T>)
    ensures |r| <= 1 && (|r| == 0 <==> |s| == 0) && (|s| > 0 ==> r[0] == s[0])
  {
    if |s| == 0 then [] else [s[0]]
  }

  /** The document with every item but the first, and every variant but its first, dropped. */
  function FirstEntries(doc: Slot<ApiResponse>): Slot<ApiResponse>
  {
    if !doc.Present? || !doc.value.data.Present? || !doc.value.data.value.items.Present? then doc
    else
      var items := FirstOnly(doc.value.data.value.items.value);
      var first :=
        if |items| == 0 || !items[0].Present? || !items[0].value.videoVersions.Present? then items
        else [Present(ApiItem(Present(FirstOnly(items[0].value.videoVersions.value))))];
      Present(doc.value.(data := Present(ApiData(Present(first)))))
  }

  /** Items after the first, and variants after the first, are never consulted. */
  lemma LaterEntriesIgnored(doc: Slot<ApiResponse>)
    ensures VideoUrl(FirstEntries(doc)) == VideoUrl(doc)
  {
  }

  /**
    Once the provider's document is in hand, a media request is made exactly
    when the document offers a video, and it goes to that first variant's URL.
   */
  lemma FetchesFirstVariantOnly(inbound: Inbound, env: Environment, path: string, doc: Slot<ApiResponse>, url: string)
    requires LooksUp(inbound, path)
    requires LookupResult(env.lookup(path), env) == Normal(doc)
    ensures |Handle(inbound, env).calls| == 2 <==> VideoUrl(doc).Normal? && VideoUrl(doc).value.Some?
    ensures OffersVideo(doc, url) ==> Handle(inbound, env).calls == [LookupCall(Host, path), MediaCall(url)]
    ensures OffersNoVideo(doc) ==>
              Handle(inbound, env) == Exchange(ErrorResponse(400, NoVideoMessage), [LookupCall(Host, path)])
  {
    VideoUrlCases(doc, url);
  }

  /**
    When choosing the video reads through a missing or null property, the
    request is answered 500 with that TypeError's message after the lookup
    alone.
   */
  lemma ReadThroughIsServerError(inbound: Inbound, env: Environment, path: string, doc: Slot<ApiResponse>)
    requires LooksUp(inbound, path)
    requires LookupResult(env.lookup(path), env) == Normal(doc)
    requires VideoUrl(doc).Threw?
    ensures Handle(inbound, env) == Exchange(ServerError(VideoUrl(doc).fault), [LookupCall(Host, path)])
  {
  }

  /** A document without `data` is read through `undefined`: 500, not 400. */
  lemma MissingDataIsServerError(inbound: Inbound, env: Environment, path: string)
    requires LooksUp(inbound, path)
    requires LookupResult(env.lookup(path), env) == Normal(Present(ApiResponse(Present("ok"), Absent)))
    ensures Handle(inbound, env) == Exchange(
              ErrorResponse(500, "Cannot read properties of undefined (reading 'items')"), [LookupCall(Host, path)])
  {
    var doc := Present(ApiResponse(Present("ok"), Absent));
    var f := ReadPropertyError<ApiData>(Absent, "items");
    assert f.message == "Cannot read properties of undefined (reading 'items')";
    assert VideoUrl(doc) == Threw(f);
    assert Relay(doc, path, env) == Exchange(ServerError(f), [LookupCall(Host, path)]);
    assert Handle(inbound, env) == Resolve(path, env);
  }

  /** A document whose status is not "ok" is answered 400 without `data` being read, whatever `data` holds. */
  lemma NotOkIsNoVideo(inbound: Inbound, env: Environment, path: string, status: Slot<string>, data: Slot<ApiData>)
    requires LooksUp(inbound, path)
    requires status != Present("ok")
    requires LookupResult(env.lookup(path), env) == Normal(Present(ApiResponse(status, data)))
    ensures Handle(inbound, env) == Exchange(ErrorResponse(400, NoVideoMessage), [LookupCall(Host, path)])
  {
    assert Handle(inbound, env) == Resolve(path, env);
  }

  // ---------------------------------------------------------------------
  // The media fetch and the video response (route.ts:88-104)
  // ---------------------------------------------------------------------

  /**
    A media fetch that completes is answered 200 whatever its status code:
    the body is the chunks in order, as long as all of them together, with
    type video/mp4 and the fixed attachment name.
   */
  lemma VideoDelivered(inbound: Inbound, env: Environment, path: string, url: string)
    requires LooksUp(inbound, path)
    requires LookupResult(env.lookup(path), env).Normal?
    requires VideoUrl(LookupResult(env.lookup(path), env).value) == Normal(Some(url))
    requires env.media(url).MediaReplied?
    ensures
      var x := Handle(inbound, env);
      var chunks := env.media(url).chunks;
      && x.calls == [LookupCall(Host, path), MediaCall(url)]
      && x.response.status == 200
      && x.response.payload == Binary(Flatten(chunks))
      && |x.response.payload.bytes| == TotalLength(chunks)
      && HeaderValue(x.response.headers, "Content-Type") == Some("video/mp4")
      && HeaderValue(x.response.headers, "Content-Disposition") == Some("attachment; filename=\"instagram_video.mp4\"")
  {
    FlattenLength(env.media(url).chunks);
  }

  /** A media fetch that fails is answered 500 with the error's message, after both requests. */
  lemma MediaFetchFailed(inbound: Inbound, env: Environment, path: string, url: string)
    requires LooksUp(inbound, path)
    requires LookupResult(env.lookup(path), env).Normal?
    requires VideoUrl(LookupResult(env.lookup(path), env).value) == Normal(Some(url))
    requires env.media(url).MediaFailed?
    ensures Handle(inbound, env) == Exchange(ServerError(env.media(url).fault), [LookupCall(Host, path), MediaCall(url)])
  {
  }

  /** A 200 comes exactly from a media request that completed. */
  lemma OkOnlyFromCompletedMedia(inbound: Inbound, env: Environment)
    ensures var x := Handle(inbound, env);
      x.response.status == 200 <==> |x.calls| == 2 && env.media(x.calls[1].url).MediaReplied?
  {
    var x := Handle(inbound, env);
    if |x.calls| == 2 {
      var path := Admit(inbound).path;
      var doc := LookupResult(env.lookup(path), env).value;
      assert VideoUrl(doc) == Normal(Some(x.calls[1].url));
    }
  }
}
