# Antinode request handling, modelled in Dafny

Antinode is a small static-file web server for Node.js. This project models
what one request goes through in `lib/antinode.js`, and proves properties of
that model:

- the settings the server runs under, where each key the caller gives
  overrides its default;
- the custom handlers, consulted in list order until one claims the request;
- for an unclaimed request, the mapping of the URL and the `Host` header onto
  a local path: the virtual host is chosen from the host name without its
  port, `../` is removed, and `%20` becomes a space;
- `try_stream`. It stats the path and retries a directory with its
  `index.html`. It answers a conditional GET with 304, streams a regular file
  with `sendfile` until nothing remains or the transfer is abandoned, and
  answers 404 for anything else;
- the order in which a response is ended and a file descriptor is closed.

What a request does is written as a trace of events:

- `Tested`/`Invoked` for the handler calls;
- `Opened` for the open;
- `WriteHead`, `Flush` and `Write` for the response;
- `SendFile` for each transfer call;
- `SendFailed` for the error log of a failed transfer;
- `End` for `finish`;
- `Close` for `close`.

The environment comes in as parameters:

- the filesystem is a map from paths to what `fs.stat` reports, plus whether
  `fs.open` succeeds;
- the clock is an integer `now`, and dates are integers;
- the MIME lookup is a function from path to type;
- the `sendfile` results are a sequence of outcomes.

Modules, one per part of the program:

| module | covers |
|---|---|
| `Wrappers` | `Option` |
| `Text` | `split(':')[0]`, and the global `replace(/pat/g, rep)` of a literal pattern, defined as ECMAScript does (search, substitute, continue after the match) and as a left-to-right scan, with the two proved equal |
| `Resolution` | `select_vhost`, `get_local_file_path` |
| `Http` | `send_headers`, `file_not_found`, `not_modified`, the event trace |
| `Handlers` | the custom-handler loop |
| `Transfer` | `send_chunk` and the completion callback of `stream_file` |
| `FileServing` | the stat chain, the conditional-GET decision, `try_stream` |
| `Antinode` | the default settings, the request callback, the end/close properties of a whole response |

The comment at lib/antinode.js:77 presents the cleaning as keeping requests
out of parent directories, as if no `../` could be left behind. The code does
not guarantee that. It removes `../` in a single global replace, so `..././`
cleans to `../` (`Resolution.NestedParentReferenceSurvives`). The model follows
the code.

## Model

| member | source | states |
|---|---|---|
| `Text.BeforeFirst` | lib/antinode.js:86 | the result is a prefix of the input with no separator in it, and when it is shorter than the input the next character is the separator: `split(sep)[0]` |
| `Text.BeforeFirstIgnoresRest` | lib/antinode.js:86 | whatever follows the first separator does not affect `split(sep)[0]`; a string without the separator is its own first part |
| `Text.FirstOccurrence` | lib/antinode.js:78 | a match the search reports lies wholly inside the string |
| `Text.FirstOccurrenceIsFirst` | lib/antinode.js:78 | the search reports a match and no earlier one, and reports none only when the pattern does not occur at all |
| `Text.ReplaceBySearch` | lib/antinode.js:78 | `s.replace(/pat/g, rep)` as ECMAScript defines it: find the first match, substitute, and continue after the match; the reference for `ReplaceAllIsGlobalReplace` |
| `Text.ReplaceAll` | lib/antinode.js:78 | the same replace as one left-to-right scan: a match at the current position is replaced and skipped, any other character is kept; proved equal to `ReplaceBySearch` |
| `Text.ReplaceAllIsGlobalReplace` | lib/antinode.js:78 | the left-to-right scan equals the ECMAScript global replace (find the first match, substitute, continue after it) on every input |
| `Text.ReplaceAllNoLonger` | lib/antinode.js:78 | replacing by something no longer than the pattern never lengthens the string |
| `Text.ReplaceAllFree` | lib/antinode.js:78 | a string in which the pattern does not occur is left unchanged |
| `Text.ReplaceAllLeavesNoMatch` | lib/antinode.js:78 | for a nonempty pattern and a nonempty replacement that shares no character with it, the result contains no occurrence of the pattern |
| `Resolution.HostName` | lib/antinode.js:86 | the host name is the part of the header before its first `:`, and it contains no `:` |
| `Resolution.SelectVhost` | lib/antinode.js:84-91 | a missing or empty header gives the default host; otherwise the entry for the host name if there is one, and the default host if not |
| `Resolution.PortIsIgnored` | lib/antinode.js:86-87 | for a nonempty host name without `:`, `name:port` selects the same virtual host as `name` (an empty name differs: `:port` looks up the empty name, while an empty header falls back to the default host) |
| `Resolution.Pathname` | lib/antinode.js:76 | a URL without a pathname, or with an empty one, stands for `/`; any other pathname is used as it is |
| `Resolution.CleanPathname` | lib/antinode.js:78 | the cleaning of the pathname: `../` removed by one global replace, then every `%20` replaced by a space; its properties are the `CleanPathname…` lemmas |
| `Resolution.CleanPathnameIsTwoReplaces` | lib/antinode.js:78 | cleaning is the global replace of `../` by nothing followed by the global replace of `%20` by a space |
| `Resolution.CleanPathnameNoLonger` | lib/antinode.js:78 | cleaning never makes the pathname longer |
| `Resolution.CleanPathnameDecodesSpaces` | lib/antinode.js:78 | no `%20` is left in a cleaned pathname |
| `Resolution.CleanPathnameKeepsCleanPath` | lib/antinode.js:78 | a pathname without `../` and without `%20` is left unchanged |
| `Resolution.NestedParentReferenceSurvives` | lib/antinode.js:77-78 | `..././` cleans to `../`: removing one `../` can bring another together |
| `Resolution.LocalFilePath` | lib/antinode.js:73-82 | the local path joins a pathname to a virtual host root. The root is the default host's for a missing or empty header or an unknown host name, and otherwise the root of the entry for the host name. The pathname is the request's, after the ECMAScript global replace of `../` by nothing and then of `%20` by a space. It is no longer than the request's pathname and holds no `%20` |
| `Resolution.LocalFilePathIgnoresPort` | lib/antinode.js:79-86 | for a nonempty host name without `:`, a `Host` header `name:port` gives the same local path as `name` |
| `Http.SendHeaders` | lib/antinode.js:94-109 | `Server` (the Antinode and Node.js versions) and `Date` come first; `Content-Length` is present exactly when a nonzero length is given, `Content-Type` exactly when a nonempty type is given, `Last-Modified` exactly when a time is given, each with its value; no header name appears twice |
| `Http.NotFoundBody` | lib/antinode.js:196 | the body is 17 characters longer than the request URL |
| `Http.NotFound` | lib/antinode.js:194-200 | a 404 head, then the body `404: <url> not found.`, then the end; the head's `Content-Length` is the length of the body written, its type is `text/plain`, and it has no `Last-Modified` |
| `Http.NotModified` | lib/antinode.js:187-192 | a 304 head carrying only `Server` and `Date`, then the end, with no body |
| `Http.OkHeaders` | lib/antinode.js:147 | the 200 head carries the file's size as `Content-Length` unless the file is empty, and its modification time as `Last-Modified`. A nonempty MIME type is sent as `Content-Type`; an empty one sends no `Content-Type` |
| `Handlers.ConsultationCalls` | lib/antinode.js:46-51 | one handler's `test` is called exactly when it has one, its `handle` exactly when there is no `test` or the `test` answered yes, and nothing else is called |
| `Handlers.Invokes` | lib/antinode.js:46 | `handle` is called when a handler has no `test` or its `test` answers yes |
| `Handlers.Claims` | lib/antinode.js:46-52 | a handler takes the request when its `test` answers yes, whatever `handle` then returns, or when it has no `test` and `handle` answers yes; `Dispatch` is proved against it |
| `Handlers.Consultation` | lib/antinode.js:46-51 | the calls made on one handler: its `test` if it has one, then its `handle` if `Invokes` holds; described by `ConsultationCalls` |
| `Handlers.Consulted` | lib/antinode.js:43-54 | the calls made on the first `n` handlers, in list order; described by `ConsultedCalls`, `ConsultedOnlyHandlerCalls` and `ConsultedInOrder` |
| `Handlers.ConsultedCalls` | lib/antinode.js:43-54 | over the first `n` handlers, `test` is called on handler `j` exactly when `j < n` and the handler has one, and `handle` exactly when `j < n` and the handler's `test` is missing or answered yes |
| `Handlers.ConsultedOnlyHandlerCalls` | lib/antinode.js:43-54 | consulting the first `n` handlers makes only `test` and `handle` calls, and only on those handlers |
| `Handlers.ConsultedInOrder` | lib/antinode.js:44 | handlers are consulted in list order: the handler numbers along the calls never go down |
| `Handlers.Dispatch` | lib/antinode.js:43-54 | the handler reported as claiming the request claims it, no handler before it does, none does when the fallback runs, and the calls made are those of consulting the handlers up to and including the claimant, or all of them |
| `Transfer.Written` | lib/antinode.js:165-179 | the bytes a run of `sendfile` outcomes moved the offset by: what each write reported, and 0 for `EAGAIN` |
| `Transfer.Calls` | lib/antinode.js:157-181 | the `sendfile` calls made for a run of outcomes, one per outcome; described by `CallsAt` |
| `Transfer.CallsAt` | lib/antinode.js:157-181 | `sendfile` call number `k` asks for everything after the bytes the first `k` calls wrote, starting where they ended |
| `Transfer.CallsAreSendFiles` | lib/antinode.js:157-183 | until it completes, the transfer makes `sendfile` calls and nothing else |
| `Transfer.WouldBlockRetriesSameRange` | lib/antinode.js:163-166 | after an `EAGAIN` the next call asks for exactly the same range again |
| `Transfer.SentAdvancesOffset` | lib/antinode.js:178-181 | after a write of `n` bytes, the next call starts `n` bytes further on and asks for `n` bytes fewer |
| `Transfer.NothingWritten` | lib/antinode.js:178-179 | outcomes that each wrote 0 bytes leave the offset where it was |
| `Transfer.ZeroWritesNeverFinish` | lib/antinode.js:178-181 | for a nonempty file where every `sendfile` call writes 0 bytes, as when the file shrank, no outcome abandons the transfer, the whole size stays to be written after every call, and every call asks for the same range from offset 0, so the test `bytes_to_write < 1` never lets the transfer finish |
| `Transfer.Completion` | lib/antinode.js:150-153 | the completion callback ends the response and then closes the descriptor, with nothing else after. Only a failure other than `EAGAIN` and `EBADF` puts anything first, and that is its error log (`SendFailed` with the error's message) |
| `Transfer.SendChunks` | lib/antinode.js:150-183 | the final offset is what the used outcomes wrote, and offset plus remaining is the file size; every outcome before the last left bytes to write and did not abandon the transfer; the transfer completes exactly when the last outcome abandoned it or nothing remains; it otherwise stops only when the outcomes run out; its events are the `sendfile` calls, followed by the completion when it completed; if no call wrote more than it asked for, the remaining count never goes below zero |
| `FileServing.BelowShrinks` | lib/antinode.js:120-122 | retrying a directory with its `index.html` reaches strictly fewer filesystem entries, so the retry chain ends |
| `FileServing.Resolve` | lib/antinode.js:111-122 | the stat chain ends at a path that is not a directory, reports what the filesystem holds there (or that stat failed), and ends at or below the requested path |
| `FileServing.ResolveFollowsIndexChain` | lib/antinode.js:120-122 | the stat chain ends at the requested path followed by some number of `index.html` components, each path before which is a directory |
| `FileServing.DirectoryIsItsIndex` | lib/antinode.js:120-122 | a request for a directory is answered as the request for its `index.html` |
| `FileServing.NotModifiedSince` | lib/antinode.js:126-129 | the request date shows the file unchanged: the header is present, parses, and its date is no earlier than the modification time and not later than now |
| `FileServing.Decide` | lib/antinode.js:111-144 | a streamed file is the path the stat chain ends at: a regular file that opens, at or below the requested path, whose request date does not show it unchanged. A 304 is for a regular file whose request date shows it unchanged. When the chain ends at a regular file that opens and no 304 applies, the file is streamed, whatever the date (a future date included). A failed stat, a non-regular file, or a file that fails to open with no 304 is answered 404 |
| `FileServing.NotModifiedExactly` | lib/antinode.js:126-135 | a 304 is given if and only if the stat chain ends at a regular file whose modification time is no later than a parsable `If-Modified-Since` date that is not in the future |
| `FileServing.UnservableIsNotFound` | lib/antinode.js:111-124 | a path that fails to stat, or is neither a directory nor a regular file, is answered 404 |
| `FileServing.OpenFailureIsNotFound` | lib/antinode.js:139-144 | a regular file that fails to open, when no 304 applies, is answered 404 |
| `FileServing.NoUsableDateStreams` | lib/antinode.js:126-134 | without an `If-Modified-Since` header, or with one that does not parse, a regular file that opens is streamed |
| `FileServing.SameDateIsNotModified` | lib/antinode.js:129-130 | a request date equal to the file's modification time, not in the future, gives 304 |
| `FileServing.EarlierDateStreams` | lib/antinode.js:129-132 | for a regular file that opens, a request date before the file's modification time streams the file |
| `FileServing.StreamHead` | lib/antinode.js:140-148 | the first events of a 200: the open, the head with `OkHeaders`, and the flush before any body bytes |
| `FileServing.TryStream` | lib/antinode.js:111-185 | a 404 or a 304 is answered and ended at once; a streamed file gives the open, the 200 head, the flush, the `sendfile` calls of the transfer, and the completion if the transfer ended, with the transfer facts of `SendChunks` |
| `Antinode.Effective` | lib/antinode.js:9-26 | every key the caller gives is used as given; every other key takes its default (30 seconds, no hosts, port 8080, root `./`, no custom handlers), and no settings at all means all defaults |
| `Antinode.ServedPath` | lib/antinode.js:56 | an unclaimed request is served from `LocalFilePath` under the running settings' hosts and default host |
| `Antinode.NoResponseEvents` | lib/antinode.js:43-54 | the handler calls write no head, end no response, and open or close no file |
| `Antinode.FinalizedAfterHandlers` | lib/antinode.js:43-57 | the handler calls in front of the file fallback change none of the properties of its response |
| `Antinode.ServedTally` | lib/antinode.js:111-200 | the fallback writes exactly one head, with status 404, 304 or 200 as the decision says; it ends the response once if it finished; it opens a file only to stream it, and closes it once, as the last event and right after the end, when the transfer finished |
| `Antinode.StreamedTally` | lib/antinode.js:139-153 | a streamed file is opened once and gets one 200 head; it is ended and closed once if the transfer completed, and neither ended nor closed otherwise |
| `Antinode.CompletionTally` | lib/antinode.js:150-153 | the completion ends the response once and closes the descriptor once |
| `Antinode.HandleRequest` | lib/antinode.js:30-57 | a claimed request gets the handler calls up to the claimant and no response from the pipeline. No handler before the claimant claims it, and none at all when it is unclaimed. An unclaimed request gets all the handler calls and then exactly the events of `try_stream` for its local path (`FileServing.Serves`): the 404 or 304 response, always ended, or the open, the 200 head, the flush, the `sendfile` calls and the completion. Its trace has one head with the status of the file decision and at most one end. A close comes only when a file was opened, as the very last event, right after the end |

## Left out

- `server.js` and the loading of custom handlers from modules are not part of this model.
- `start`'s `listen` and its `listening` callback, and `stop`, are not modelled (lib/antinode.js:60-71): they only hand sockets to Node.js.
- The connection timeout (lib/antinode.js:34-38) is not modelled. It is a timer that can call `finish` a second time, beside whatever the request is doing, and that concurrency is outside an event trace of one request.
- Logging is left out, except for the marker `SendFailed`, which stands for the error log of a failed transfer because it comes before the end of the response.
- The MIME lookup is a parameter: the content-type table is not part of this model.
- `url.parse` is not modelled: a request carries the pathname it parses to, or `None`.
- `Date` parsing is not modelled: a request carries the parsed `If-Modified-Since` date as an integer, or marks it unparsable.
- `Date.now()` and the clock of `new Date()` are one integer `now` per request. The two readings the source takes are taken as equal.
- `toUTCString` formatting is not modelled: `Date` and `Last-Modified` carry the integer time.
- `pathlib.join` is kept symbolic (`Root`/`Join`) and does not normalise `.` and `..`. The model therefore claims nothing about whether the served path stays under the virtual host's root.
- `server_error` (lib/antinode.js:202-207) is never called, so it is left out.
- The `application/octet-stream` fallback (lib/antinode.js:103) can never apply, since it sits inside a test that the content type is truthy, so it is left out.
- What custom handlers do beyond the truth of what `test` and `handle` return is left out. This includes their own writes to the response and their use of the `send_file` context. A `test` or `handle` is a function of the request.
- `Resolution.SelectVhost` looks host names up in a map with no inherited keys. The source's object lookup would also find names such as `constructor` through the prototype chain.
- `Resolution.SelectVhost` treats every host entry as a real host. The source falls back to the default host for an entry that is falsy; the model has no such values.
- `Http.SendHeaders` counts `Content-Length` in characters of the body or bytes of the file as given. The UTF-16 length the source takes for the 404 body is not distinguished from a byte count.
- `Transfer.SendChunks` models `sendfile` by the outcomes it reports, so it stops when they run out. A file that shrinks during the transfer makes every call write 0 bytes; the source then asks again without end, and `Transfer.ZeroWritesNeverFinish` shows the model does the same for as many outcomes as are given. Reaching the end of the file is not treated as an error, as in the source.
- The mutable `settings` global (lib/antinode.js:21-26) is a `Settings` value handed to `HandleRequest`, and `log_level` is left out with logging.
