# Instagram video download relay, modelled in Dafny

This project models the server-side download handler of the Instagram
reel downloader: `POST` in `app/api/download/route.ts`. The handler runs like
this:

1. It reads the JSON request body and takes its `code_or_id_or_url`.
2. A falsy reference is rejected with 400.
3. Otherwise it asks the media-metadata provider for
   `/media_info?code_or_id_or_url=<encodeURIComponent(reference)>`.
4. A non-200 answer, or one that is not JSON, becomes a thrown error.
5. It takes the first video variant of the first item. When the document
   offers none, the answer is 400.
6. It fetches that variant's URL. Every chunk of both response bodies is
   buffered.
7. It returns the bytes as a `video/mp4` attachment named
   `instagram_video.mp4`.
8. Anything thrown on the way becomes a 500 JSON error that carries the
   error's message, or "Internal server error" when the thrown value is not
   an Error.

The files:

- `js_runtime.dfy` (module `JsRuntime`) holds the JavaScript semantics the
  handler relies on:
  - JSON values;
  - truthiness;
  - ToString, where arrays are joined with "," and objects become
    "[object Object]";
  - decimal text of integers;
  - thrown values and the message the `catch` reports.
- `uri_component.dfy` (module `UriComponent`) holds:
  - `encodeURIComponent` over UTF-16 code units: UTF-8 per section 3 of
    RFC 3629, percent-encoding per section 2.1 of RFC 3986, and a URIError
    on a lone surrogate;
  - a reference decoder that undoes the encoding;
  - a splitter for the query of a request path.
- `chunks.dfy` (module `Chunks`) holds the `'data'`/`'end'` buffering:
  - chunks are pushed one by one onto a list;
  - `Buffer.concat` allocates one array of the total length and copies each
    chunk in at its offset.
- `download_route.dfy` (module `DownloadRoute`) holds:
  - the handler as a function, `Handle`, made of the stages `Admit`,
    `Resolve` and `Relay`;
  - the handler as the step-by-step methods `Post`, `LookUp` and `Fetch`,
    proved to compute exactly what `Handle` specifies.
- `download_properties.dfy` (module `DownloadProperties`) holds the
  properties of the handler.

The outside world is given as inputs:

- An `Inbound` value is what `req.json()` settles to.
- An `Environment` value supplies the provider's answer for each path, the
  media server's answer for each URL, `Buffer.toString()` and `JSON.parse`.
- An `Exchange` is the one response together with the outbound requests made,
  in order.

The model follows `route.ts` as written, including these behaviours:

- The reference is not trimmed. A reference of only whitespace is truthy and
  is looked up, e.g. `" "` becomes `%20`.
- A truthy non-string reference is converted with ToString before it is
  encoded. For example, `[]` is looked up with an empty value, and an object
  becomes `[object Object]`. An object with its own `toString` key makes
  ToString throw a TypeError ("Cannot convert object to primitive value"),
  which is answered 500.
- A non-200 lookup is echoed in full in the 500 message, and so is a body
  that is not JSON.
- The media response's status code is never checked. Whatever body comes
  back is returned with status 200.
- The attachment's file name is always `instagram_video.mp4`.
- Both bodies are buffered completely before they are used. Nothing is
  streamed.
- A document whose status is "ok" but which has no `data`, or no
  `data.items`, makes the handler read through `undefined`. That throws a
  TypeError, so the answer is 500, not the 400 "Failed to retrieve video URL
  from API response". A `null` first item or a `null` first variant does the
  same. A document whose status is not "ok" is answered 400 without `data`
  being read, because the `&&` test stops at the status.

## Model

| member | source | states |
|---|---|---|
| `JsRuntime.FalsyValues` | app/api/download/route.ts:26 | the `!code_or_id_or_url` test rejects exactly `undefined`, `null`, `false`, `0` and `""`, and nothing else |
| `JsRuntime.Decimal` | app/api/download/route.ts:63 | the status code's text starts with a minus sign exactly when the code is negative, and the rest is non-empty digits with no leading zero that read back as the code's magnitude |
| `JsRuntime.Digits` | app/api/download/route.ts:63 | the decimal text of a status code is non-empty, all digits, with no leading zero |
| `JsRuntime.DigitsRoundTrip` | app/api/download/route.ts:63 | reading the decimal text back gives the status code, so distinct codes give distinct messages |
| `UriComponent.EncodeThrowsIffIllFormed` | app/api/download/route.ts:40 | `encodeURIComponent` throws exactly when the reference has a lone surrogate, and then throws "URI malformed" |
| `UriComponent.EncodedChars` | app/api/download/route.ts:40 | an encoded reference holds only unreserved characters and '%', so no '&', '=', '#', '?' or space |
| `UriComponent.PercentDecodeEncoded` | app/api/download/route.ts:40 | percent-decoding the "%XX" form of any octets gives those octets back |
| `UriComponent.Utf8Decodes` | app/api/download/route.ts:40 | the UTF-8 octets the encoder writes for a scalar value decode back to that value |
| `UriComponent.EncodeDecodeRoundTrip` | app/api/download/route.ts:40 | decoding the encoded reference gives back exactly the reference's code units |
| `UriComponent.SingleParameter` | app/api/download/route.ts:40 | a path whose query is one `name=value`, with no separator in either, has exactly that one parameter |
| `Chunks.Receive` | app/api/download/route.ts:51-55 | the `'data'` handler's list is every chunk, in arrival order |
| `Chunks.Total` | app/api/download/route.ts:58 | the length `Buffer.concat` allocates is the length of all chunks laid end to end |
| `Chunks.CopyChunk` | app/api/download/route.ts:58 | copying a chunk in at an offset appends it to what precedes the offset and leaves every byte after the chunk as it was |
| `Chunks.Concat` | app/api/download/route.ts:58 | the concatenated buffer is the chunks laid end to end, in order |
| `Chunks.ReadBody` | app/api/download/route.ts:90-92 | a whole body is every chunk in order, and as long as all the chunks together |
| `Chunks.FlattenLength` | app/api/download/route.ts:92 | the buffered body's length is the sum of the chunk lengths |
| `Chunks.FlattenAt` | app/api/download/route.ts:92 | byte j of chunk i sits at the total length of the earlier chunks plus j, so nothing is lost, duplicated or reordered |
| `DownloadRoute.Handle` | app/api/download/route.ts:19-122 | every request gets one response, with status 200, 400 or 500. 200 goes with the video bytes, and any other status with the `{data: "", status: "error"}` JSON. There are at most two outbound requests, the lookup to the provider's host first, and a 200 comes only after both |
| `DownloadRoute.Resolve` | app/api/download/route.ts:49-112 | once admitted, the first request is the lookup at that path, and a 400 from here on is always "Failed to retrieve video URL from API response" |
| `DownloadRoute.Relay` | app/api/download/route.ts:82-112 | given the document, the lookup is still the only earlier request, a second request is the media fetch, and a 400 is the no-video answer |
| `DownloadRoute.Post` | app/api/download/route.ts:19-122 | the handler run step by step, with both bodies buffered, returns exactly the response and the requests that `Handle` specifies |
| `DownloadRoute.LookUp` | app/api/download/route.ts:49-80 | the lookup and its buffered, decoded and parsed body, then the rest, give exactly what `Resolve` specifies |
| `DownloadRoute.Fetch` | app/api/download/route.ts:82-104 | the choice of the variant and its buffered fetch give exactly what `Relay` specifies |
| `DownloadProperties.RejectsOnlyFalsyReference` | app/api/download/route.ts:26-33 | a readable body is answered 400 "Missing code_or_id_or_url in request body" if and only if its reference is falsy, and then no request is made |
| `DownloadProperties.NonEmptyStringIsLookedUp` | app/api/download/route.ts:26-40 | every non-empty well-formed string reference, whitespace included, is looked up at the prefix plus its encoding |
| `DownloadProperties.SpaceIsLookedUp` | app/api/download/route.ts:26-40 | a single space is not rejected: it is looked up as "%20" |
| `DownloadProperties.EmptyArrayIsLookedUpEmpty` | app/api/download/route.ts:26-40 | an empty array passes the falsy test and is looked up with an empty value |
| `DownloadProperties.SingletonArray` | app/api/download/route.ts:40 | a one-element array reference converts to what its element converts to, or to the empty string when the element is null or undefined |
| `DownloadProperties.UnreadableBody` | app/api/download/route.ts:21-24 | a body that cannot be read, or a `null` body, is answered 500 before any request, with the error's message or V8's destructuring TypeError |
| `DownloadProperties.PrefixShape` | app/api/download/route.ts:40 | the lookup prefix is the page, '?', the parameter's name and '=', with no separator inside the name |
| `DownloadProperties.EncodedSeparators` | app/api/download/route.ts:40 | an encoded reference holds no '&', '#' or '=' |
| `DownloadProperties.LookupQuery` | app/api/download/route.ts:37-45 | the path is the fixed prefix plus the encoded reference. Its query has exactly the one parameter `code_or_id_or_url`, whose decoded value is the reference's string |
| `DownloadProperties.LookupPathThrows` | app/api/download/route.ts:40 | building the path throws exactly when ToString throws or leaves a lone surrogate |
| `DownloadProperties.PathThrowIsServerError` | app/api/download/route.ts:40 | when ToString or `encodeURIComponent` throws while the path is built, the answer is 500 with that error's message and no request is made |
| `DownloadProperties.LoneSurrogateIsServerError` | app/api/download/route.ts:40 | a reference holding a lone surrogate is answered 500 "URI malformed" before any request |
| `DownloadProperties.UpstreamStatusError` | app/api/download/route.ts:62-63 | a non-200 lookup is answered 500 with the message "API responded with status ", the code's decimal text, ": " and the whole body, after the lookup alone |
| `DownloadProperties.UpstreamNotJson` | app/api/download/route.ts:64-69 | a 200 lookup whose body does not parse is answered 500 "Failed to parse API response: <body>", after the lookup alone |
| `DownloadProperties.UpstreamUnreachable` | app/api/download/route.ts:74-77 | a lookup that fails in transport is answered 500 with that error's message, and no media request is made |
| `DownloadProperties.VideoUrlCases` | app/api/download/route.ts:82-85 | the choice gives the first variant's URL if and only if the document offers it, none if and only if the document offers none, and throws in every other case |
| `DownloadProperties.LaterEntriesIgnored` | app/api/download/route.ts:83-85 | items after the first, and variants after the first, never change the outcome |
| `DownloadProperties.FetchesFirstVariantOnly` | app/api/download/route.ts:82-94 | a media request is made if and only if a URL was chosen, and it goes to the first variant's URL. A document that offers no video is answered 400 after the lookup alone |
| `DownloadProperties.NotOkIsNoVideo` | app/api/download/route.ts:82 | a document whose status is not "ok" is answered 400 "Failed to retrieve video URL from API response" after the lookup alone, whatever its `data` holds, missing and null included |
| `DownloadProperties.ReadThroughIsServerError` | app/api/download/route.ts:82-85 | when choosing the video reads through a missing or null property, the answer is 500 with that TypeError's message after the lookup alone |
| `DownloadProperties.MissingDataIsServerError` | app/api/download/route.ts:82 | an "ok" document without `data` is answered 500 "Cannot read properties of undefined (reading 'items')", not 400 |
| `DownloadProperties.VideoDelivered` | app/api/download/route.ts:88-104 | a media fetch that completes is answered 200 whatever its status code. The body is the chunks in order and as long as all of them, with Content-Type video/mp4 and the fixed attachment disposition |
| `DownloadProperties.MediaFetchFailed` | app/api/download/route.ts:93 | a media fetch that fails is answered 500 with the error's message, after both requests |
| `DownloadProperties.OkOnlyFromCompletedMedia` | app/api/download/route.ts:101-104 | a 200 is returned if and only if a media request was made and completed |

## Left out

- Network I/O, TLS and the request options' headers are not modelled. The
  hard-coded API key and host header (route.ts:41-44) are not modelled
  either. Each outbound request the handler attempts is a value in the list
  of calls, and its outcome is an input. An attempt that `https.get` refuses
  before sending anything (an invalid or non-`https:` URL) is still
  recorded, and its failure is part of its outcome.
- `req.json()`, `JSON.parse` and `Buffer.toString()` are inputs, because their
  implementations are outside the handler. Only their results and their
  throws are modelled.
- Logging (`console.log` and `console.error`) is left out, because it does
  not affect the response.
- Numbers in the request body are integers only. Fractions, exponent notation
  and Number formatting of very large values are not modelled.
- The provider's document is typed as the handler declares it, except that
  every dereferenced property may be missing or `null`. Properties with a
  wrong type (a string `items`, say) are not modelled. Neither are accessor
  properties or a `length` that is not a number.
- Timeouts, aborts and streaming are not modelled: an outcome is a complete
  list of chunks, or a transport error. The handler sets no timeout, and it
  attaches no 'error' listener to either response. So when the connection
  closes cleanly before a body ends, 'end' never fires, neither promise
  (route.ts:49, route.ts:88) settles, and no response is sent at all. A
  socket error such as a reset reaches the request's 'error' listener
  (route.ts:74-77, 93) and is a transport error of the model.
  `DownloadRoute.Handle`'s one response therefore holds only for the
  complete-or-failed outcomes the model admits.
- Header names are kept as the handler writes them. The case-insensitive
  `Headers` lookup of the platform is not modelled.
- The UI components that call this endpoint are not part of this model.
- `JsRuntime.Digits`: Number::toString is modelled only for integers, since
  an HTTP status code is always an integer.
