/**
 * What a request handler does that can be observed: the handler calls it
 * makes, the response it writes and the file descriptor it closes; and the
 * header sets `send_headers` builds for each kind of response.
 */
module Http {
  import opened Wrappers
  import opened Resolution

  /** The server's own version, sent in every `Server` header. */
  const Version: string := "2.0"

  /**
   * The header fields `send_headers` can write: `Server`, `Date`,
   * `Content-Length`, `Content-Type` and `Last-Modified`.
   */
  datatype Field = Server | Date | ContentLength | ContentType | LastModified

  datatype HeaderValue = Str(text: string) | Length(bytes: nat) | Time(ms: int)
  datatype Header = Header(name: Field, value: HeaderValue)

  /** An `If-Modified-Since` header that is present and nonempty. */
  datatype DateHeader = Parsed(ms: int) | Unparsable

  /**
   * What the pipeline reads of a request: the raw URL, the path `url.parse`
   * finds in it, and the `Host` and `If-Modified-Since` headers (`None`
   * when absent or empty).
   */
  datatype Request = Request(url: string, pathname: Option<string>, host: Option<string>,
                             ifModifiedSince: Option<DateHeader>)

  /** One observable step of serving a request, in the order it happens. */
  datatype Event =
    | Tested(handler: nat)                            // a custom handler's `test` was called
    | Invoked(handler: nat)                           // a custom handler's `handle` was called
    | Opened(file: Path)                              // `fs.open` gave a descriptor
    | WriteHead(status: nat, headers: seq<Header>)    // `resp.writeHead`
    | Flush                                           // `resp.flush`
    | Write(body: string)                             // `resp.write`
    | SendFile(offset: int, count: int)               // one `fs.sendfile` call
    | SendFailed(message: string)                     // an unexpected `sendfile` error was logged
    | End                                             // `finish`: `resp.end`
    | Close                                           // `close`: `fs.close` of the descriptor

  /** How many of the events satisfy `p`. */
  function Count(events: seq<Event>, p: Event -> bool): (n: nat)
    ensures n <= |events|
  {
    if events == [] then 0 else (if p(events[0]) then 1 else 0) + Count(events[1..], p)
  }

  /** Nothing is counted exactly when no event satisfies `p`. */
  lemma {:induction false} CountZero(events: seq<Event>, p: Event -> bool)
    ensures Count(events, p) == 0 <==> forall i :: 0 <= i < |events| ==> !p(events[i])
  {
    if events != [] {
      CountZero(events[1..], p);
      assert forall i :: 1 <= i < |events| ==> events[i] == events[1..][i - 1];
    }
  }

  /** Counting over a concatenation adds the counts of the parts. */
  lemma {:induction false} CountAppend(a: seq<Event>, b: seq<Event>, p: Event -> bool)
    ensures Count(a + b, p) == Count(a, p) + Count(b, p)
  {
    if a == [] {
      assert a + b == b;
    } else {
      assert (a + b)[1..] == a[1..] + b;
      CountAppend(a[1..], b, p);
    }
  }

  /** The value of the `Server` header. */
  function Banner(nodeVersion: string): string
  {
    "Antinode/" + Version + " Node.js/" + nodeVersion
  }

  /** The value of the first header called `name`, if any. */
  function Lookup(headers: seq<Header>, name: Field): (v: Option<HeaderValue>)
  {
    if headers == [] then None
    else if headers[0].name == name then Some(headers[0].value)
    else Lookup(headers[1..], name)
  }

  /** Looking up a name in two header lists searches the first one first. */
  lemma {:induction false} LookupAppend(a: seq<Header>, b: seq<Header>, name: Field)
    ensures Lookup(a + b, name) == if Lookup(a, name).Some? then Lookup(a, name) else Lookup(b, name)
  {
    if a == [] {
      assert a + b == b;
    } else {
      assert (a + b)[1..] == a[1..] + b;
      LookupAppend(a[1..], b, name);
    }
  }

  /** The header names, in order. */
  function Names(headers: seq<Header>): (names: seq<Field>)
    ensures |names| == |headers|
    ensures forall i :: 0 <= i < |headers| ==> names[i] == headers[i].name
  {
    if headers == [] then [] else [headers[0].name] + Names(headers[1..])
  }

  /**
   * The headers `send_headers` writes. `Server` and `Date` always come
   * first; a length is sent only when it is given and nonzero, a content
   * type only when it is given and nonempty, a modification time whenever
   * it is given.
   */
  function SendHeaders(nodeVersion: string, now: int, length: Option<nat>,
                       contentType: Option<string>, modified: Option<int>): (headers: seq<Header>)
    ensures |headers| >= 2
    ensures headers[0] == Header(Server, Str(Banner(nodeVersion)))
    ensures headers[1] == Header(Date, Time(now))
    ensures Lookup(headers, ContentLength) ==
      if length.Some? && length.value != 0 then Some(Length(length.value)) else None
    ensures Lookup(headers, ContentType) ==
      if contentType.Some? && contentType.value != "" then Some(Str(contentType.value)) else None
    ensures Lookup(headers, LastModified) ==
      if modified.Some? then Some(Time(modified.value)) else None
    ensures forall i, j :: 0 <= i < j < |headers| ==> headers[i].name != headers[j].name
  {
    var lengthHeader :=
      if length.Some? && length.value != 0 then [Header(ContentLength, Length(length.value))] else [];
    var typeHeader :=
      if contentType.Some? && contentType.value != "" then [Header(ContentType, Str(contentType.value))] else [];
    var modifiedHeader :=
      if modified.Some? then [Header(LastModified, Time(modified.value))] else [];
    var fixed := [Header(Server, Str(Banner(nodeVersion))), Header(Date, Time(now))];
    var optional := lengthHeader + typeHeader + modifiedHeader;
    LookupAppend(fixed, optional, ContentLength);
    LookupAppend(fixed, optional, ContentType);
    LookupAppend(fixed, optional, LastModified);
    LookupAppend(lengthHeader + typeHeader, modifiedHeader, ContentLength);
    LookupAppend(lengthHeader + typeHeader, modifiedHeader, ContentType);
    LookupAppend(lengthHeader + typeHeader, modifiedHeader, LastModified);
    LookupAppend(lengthHeader, typeHeader, ContentLength);
    LookupAppend(lengthHeader, typeHeader, ContentType);
    LookupAppend(lengthHeader, typeHeader, LastModified);
    fixed + optional
  }

  /** The body of a 404 for the request URL `url`. */
  function NotFoundBody(url: string): (body: string)
    ensures |body| == |url| + 17
  {
    "404: " + url + " not found.\n"
  }

  /**
   * `file_not_found`: a plain-text 404 whose `Content-Length` is the length
   * of its body, the body itself, and the end of the response.
   */
  function NotFound(nodeVersion: string, now: int, url: string): (events: seq<Event>)
    ensures |events| == 3 && events[0].WriteHead? && events[0].status == 404
    ensures events[1] == Write("404: " + url + " not found.\n") && events[2] == End
    ensures Lookup(events[0].headers, ContentLength) == Some(Length(|events[1].body|))
    ensures Lookup(events[0].headers, ContentType) == Some(Str("text/plain"))
    ensures Lookup(events[0].headers, LastModified) == None
  {
    var body := NotFoundBody(url);
    [WriteHead(404, SendHeaders(nodeVersion, now, Some(|body|), Some("text/plain"), None)), Write(body), End]
  }

  /** `not_modified`: a 304 that carries `Server` and `Date` and nothing else, and no body. */
  function NotModified(nodeVersion: string, now: int): (events: seq<Event>)
    ensures |events| == 2 && events[0].WriteHead? && events[0].status == 304 && events[1] == End
    ensures Names(events[0].headers) == [Server, Date]
  {
    [WriteHead(304, SendHeaders(nodeVersion, now, None, None, None)), End]
  }

  /**
   * The head of a 200: the file's size as `Content-Length` unless it is
   * empty, its type, and its modification time as `Last-Modified`.
   */
  function OkHeaders(nodeVersion: string, now: int, size: nat, contentType: string, mtime: int): (headers: seq<Header>)
    ensures Lookup(headers, ContentLength) == if size == 0 then None else Some(Length(size))
    ensures Lookup(headers, LastModified) == Some(Time(mtime))
    ensures contentType != "" ==> Lookup(headers, ContentType) == Some(Str(contentType))
    ensures contentType == "" ==> Lookup(headers, ContentType) == None
  {
    SendHeaders(nodeVersion, now, Some(size), Some(contentType), Some(mtime))
  }
}
