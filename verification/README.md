# Verification model of yNet

yNet is a C++20 web framework. This project models its codecs and its stateful protocols in Dafny and
proves what they are for. `dafny verify dfyconfig.toml` checks everything.

| part | files | main results |
|---|---|---|
| JSON | `JsonValues`, `Json`, `JsonParser`, `JsonDoubles`, `JsonRoundTrip` | `parse(stringify(v)) == v` exactly for values of height at most 64 whose doubles have at most six decimals |
| Templates | `Template`, `TemplateTree`, `TemplateProof`, `TemplateEngine`, `TemplateTheorems`, `TemplateFlat`, `TemplateNesting`, `TemplateIncludes` | rendering a printed tree is evaluating the tree exactly when no block is nested in its own kind; when includes end; no markup enters through an escaped value |
| Rate limiter | `RateLimiter` | a request is accepted exactly when it fits into every window that ends now |
| Concurrency | `ThreadPool`, `Server` | one place per task, no lost wake-up, one owner per connection, an erase never hits another connection; both come to rest, with every task done and every live connection listened on |
| File cache | `Cache` | loads are current, the size is bounded, the key set is the front of a recency list, inclusion |
| Multipart | `Multipart`, `MultipartRoundTrip` | printed bodies come back part by part exactly when every part is unambiguous; malformed ones are carved into disjoint slices |
| WebSocket | `WebSocket`, `WebSocketSession` | frames are a bijection with their encodings; what every run delivers and answers |
| URLs | `Url`, `Path`, `PathRfc` | percent-coding and query round trips; path normalisation laws, and agreement with RFC 3986 |
| Requests | `Request`, `RequestRoundTrip`, `FormRoundTrip`, `Exchange` | message framing of everything accepted; what becomes of every printed request; forms come back; when an exception escapes; how a task ends, and how many pieces a request may arrive in |
| Sessions | `Session` | the sweeper cannot be noticed, sliding expiry, exactly when a session is lost |
| Routing | `Router` | resolution if and only if a route matches; captures rebuild the path |

`Text` holds the part of the C++ string library that all of this leans on. `Find` is `std::string::find` and
`std::search`; a position that C++ reports as `npos`, or as the end of the range, is `None`.

Code that loops or updates fields is a method or a class here, proved equal to a specification function; the
theorems are about those functions. An exception that leaves a function is a result (`Thrown`, `Throw`,
`Reject`, `None`). A string is a sequence of characters; where octets matter they are below 256.

Where the code and its documentation differ, the model follows the code:

* The documentation shows `{{#if}}` and `{{#each}}` blocks without restriction. The code closes a block at the
  first closing tag of its kind in the text. `TemplateFlat.TextIsRun` says what that makes of any nesting,
  `TemplateNesting.RenderIsEvalExactly` that the result is the tree's meaning for all variables if and only if
  no block is nested in its own kind, and `TemplateNesting.NestedSpills` what comes out instead.
* On a tag or block that is never closed, `renderString` has appended the text before it already and appends
  it again with the rest (`src/util/template_engine.cpp:60` and `116`): `TemplateSpec.UnclosedDoubled`,
  `TemplateSpec.UnclosedBlockDoubled`.
* The documented "mtime-based invalidation" of the cache can cost an entry when a changed file is reloaded,
  although nothing is added. `Cache.ReloadCostsAnEntry` says exactly when it does not.
* A WebSocket frame without data ends the run like the end of the stream, and pings are delivered as
  messages: `WebSocketSession.RefusedEndsRun`, `WebSocketSession.RunDelivers`.
* A file part without data is dropped. A part whose name, filename or content type looks like the key of
  another parameter is lost or misread: `MultipartRoundTrip.HeaderRead` says as what, and
  `MultipartRoundTrip.HeaderReadExactly` exactly when it is not. The two characters in front of a delimiter are
  dropped whatever they are.
* A request can be refused although its header block and its body are each within their limit, because the
  four characters of the blank line count towards the sum: `HttpRoundTrip.BlankLineCounts`, and for all limits
  `HttpRoundTrip.HeadRoundTrip`.
* The second space of the request line may lie behind that line. `HttpRoundTrip.SecondSpaceBehind` says what
  becomes of every request of that form, and `HttpRoundTrip.OnlySpaced` that no other is accepted with its
  second space there.
* A limit over a period of zero seconds, or of less than one request, refuses everything, and no other limit
  does: `RateLimiter.RefusesAll`.
* A multipart part whose header ends with `Content-Type:` makes the parser throw `std::out_of_range`, which
  leaves `Request::parse` and, as nothing around `src/core/server.cpp:85` catches it, the worker thread.
  `Multipart.ParseThrows` and `Http.RequestThrows` say exactly when, and `FormRoundTrip.OpenTypeEscapes` and
  `FormRoundTrip.OpenTypeExample` give requests that do it.
* A request that is accepted when it arrives at once, with a body of n octets, is refused when it arrives in more
  than 11 + n/4096 pieces behind the one that completes its header block: `Exchange.SlowlySent`,
  `Exchange.LateLimit`. Full reads never come to that: `Exchange.FullReadsSuffice`.

## Model

| member | source | states |
|---|---|---|
| JsonParser.SkipWhitespace | src/util/json.cpp:12-16 | the cursor ends on the first character that is no blank |
| JsonParser.ParseString | src/util/json.cpp:18-60 | escapes and `\u` units decoded, the end of the text accepted as a closing quote, the same rejections as the specification's one-character steps |
| JsonParser.WellFormedNumber | src/util/json.cpp:70-78 | accepts exactly the runs with a minus only in front and at most one dot |
| JsonParser.ParseNumber | src/util/json.cpp:62-85 | the longest run of digits, minus signs and dots, converted to a 64-bit integer or a double, or rejected |
| JsonParser.ParseArray | src/util/json.cpp:87-99 | elements in order with optional commas |
| JsonParser.ParseObject | src/util/json.cpp:101-120 | members assigned in order to an ordered map with optional colons and commas |
| JsonParser.ParseValue | src/util/json.cpp:122-142 | dispatch on the first character, depth limit, unchecked keywords |
| JsonParser.ParseText | src/util/json.cpp:144-151 | one value between blanks and nothing else |
| JsonParser.EscapeString | src/util/json.cpp:153-169 | the loop builds the quoted text, character by character escaped |
| JsonParser.Print | src/util/json.cpp:171-200 | the printer with its local accumulators is the canonical text of the value |
| JsonParser.PrintObject | src/util/json.cpp:188-198 | members in key order, separated by commas |
| JsonRoundTrip.ValueAt | src/util/json.cpp:122-142 | on a printed value in front of anything a number cannot go on with, the parser stops exactly at its end with the value, or rejects it for its depth |
| JsonRoundTrip.RoundTrip | src/util/json.cpp:144-200 | for every value: parsing its text throws if it is higher than 64 and otherwise gives it back with doubles to six decimals |
| JsonRoundTrip.RoundTripExactly | src/util/json.cpp:144-200 | `parse(stringify(v)) == v` if and only if the height is at most 64 and every double has at most six decimals |
| JsonRoundTrip.StringifyInjective | src/util/json.cpp:171-200 | two values with the same text are equal up to the dropped decimals, at every depth |
| JsonRoundTrip.ParsedShape | src/util/json.cpp:87-142 | whatever is accepted has ordered keys in every object and is no deeper than the limit |
| JsonRoundTrip.ReprintStable | src/util/json.cpp:144-200 | printing what any accepted text meant and parsing it again gives the same value, with doubles to six decimals |
| JsonRoundTrip.PrintParseSettles | src/util/json.cpp:144-200 | one print and parse of any value reaches a fixed point of printing and parsing |
| JsonDoubles.FixedTextValue | src/util/json.cpp:80-82 | the six-decimal text of a double reads as that double rounded to six decimals, ties to even |
| JsonDoubles.RoundedIsExact | src/util/json.cpp:202-213 | printing loses nothing exactly when all doubles have at most six decimals |
| JsonDoubles.RoundedAgain | src/util/json.cpp:202-213 | rounding all doubles of a value twice is rounding them once |
| JsonValues.AssignKeepsSorted | src/util/json.cpp:112 | assigning into an ordered map keeps it ordered and adds nothing else |
| TemplateEngine.Engine.EscapeHtml | src/util/template_engine.cpp:13-38 | the loop computes the character-wise escape |
| TemplateEngine.Engine.RenderString | src/util/template_engine.cpp:54-118 | the loop over tags computes `Render` on every text, well formed or not, with its exceptions |
| TemplateEngine.Engine.RenderItems | src/util/template_engine.cpp:97-99 | one rendering of the block per item, each with the item as its variables |
| TemplateProof.RenderIsEval | src/util/template_engine.cpp:54-118 | for every template tree and include graph, rendering the printed tree is the tree's evaluation: per-item scoping, skipped falsy blocks, missing names, exceptions |
| TemplateTheorems.AcyclicRenders | src/util/template_engine.cpp:102-106 | on an include graph without cycle rendering never exhausts the stack |
| TemplateIncludes.CycleNeverRenders | src/util/template_engine.cpp:102-106 | a template that includes, outside blocks, a file from which such includes go round in a circle is rendered at no depth: every one throws or exhausts the stack |
| TemplateIncludes.CycleOverflows | src/util/template_engine.cpp:102-106 | a file that is nothing but the include of itself exhausts any stack |
| TemplateIncludes.IncludesDecide | src/util/template_engine.cpp:102-106 | where no block includes anything: if an unending file is included no depth renders, and otherwise a stack as deep as there are files suffices; the unending files are the largest set that circles |
| TemplateTheorems.DepthUnobservable | src/util/template_engine.cpp:54-118 | a rendering that fits on one stack is the same on every larger one, for any text |
| TemplateTheorems.ValuesAddNoMarkup | src/util/template_engine.cpp:54-118 | without triple braces the `<`, `>`, `"` and `'` of the page are those of the same evaluation with all values erased |
| TemplateTheorems.EscapedHasNoMarkup | src/util/template_engine.cpp:13-38 | an escaped text holds none of the four characters |
| TemplateTheorems.EscapeInverse | src/util/template_engine.cpp:13-38 | escaping has an inverse, so it is injective |
| TemplateTheorems.StrayClose | src/util/template_engine.cpp:107-113 | a closing tag that no block claims is a variable of that name |
| TemplateNesting.NestedIfLeaks | src/util/template_engine.cpp:77-87 | an `#if` inside an `#if` whose condition fails: the tree is empty, and the text behind the inner block is rendered |
| TemplateFlat.CloseAt | src/util/template_engine.cpp:79-90 | in the text of any tags a block ends at the first closing tag of its kind, or nowhere |
| TemplateFlat.TextIsRun | src/util/template_engine.cpp:54-118 | rendering any list of tags, includes among them, however nested, with any variables is the flat reading of the list |
| TemplateNesting.NestedSpills | src/util/template_engine.cpp:77-101 | for both kinds of block, and for conditions that fail or hold and lists of any length, what two nested blocks render to |
| TemplateNesting.NestedStrays | src/util/template_engine.cpp:77-101 | wherever a block is nested in its own kind, some variables bring out a closing tag that no block claims |
| TemplateNesting.RenderIsEvalExactly | src/util/template_engine.cpp:54-118 | where every include exists and include chains fit on the stack: rendering is evaluation for all variables if and only if no block is nested in its own kind |
| TemplateSpec.UnclosedDoubled | src/util/template_engine.cpp:60-75 | a tag without closing braces renders to the text before it followed by the whole rest, which is the rest alone exactly when there is no such text |
| TemplateSpec.UnclosedBlockDoubled | src/util/template_engine.cpp:79-91 | the same for a block whose closing tag is missing |
| RateLimiter.Limiter.Handle | src/security/rate_limiter.cpp:15-34 | accepted exactly when one more request fits into every window from an earlier or the current request of the address to now; the history grows by this decision |
| RateLimiter.RefusesAll | src/security/rate_limiter.cpp:24-28 | some request fits if and only if the period is not zero and the limit at least one, and then the first request of every address does |
| RateLimiter.LevelAfter | src/security/rate_limiter.cpp:25-32 | the stored tokens are again the room of the tightest window after a decision |
| RateLimiter.LevelShifts | src/security/rate_limiter.cpp:24-27 | refilling moves that room to the present |
| RateLimiter.FaithfulAppends | src/security/rate_limiter.cpp:15-34 | a history that followed the window rule still does after one more decision by it |
| RateLimiter.WindowBound | src/security/rate_limiter.cpp:25-29 | in every history no window holds more accepted requests than the burst and the refill of its length |
| RateLimiter.AddressesIndependent | src/security/rate_limiter.cpp:16-18 | a decision depends on the requests of its own address only |
| RateLimiter.SpacedNeverRefused | src/security/rate_limiter.cpp:24-29 | a client that leaves `period/max` between its requests is never refused |
| ThreadPool.Tasks.Push | src/net/thread_pool.cpp:31-36 | the task goes to the end of the queue and one notify is owed |
| ThreadPool.Tasks.Notify | src/net/thread_pool.cpp:35 | some sleeper wakes if there is one, and nothing else changes |
| ThreadPool.Tasks.Evaluate | src/net/thread_pool.cpp:9-14 | with the mutex a worker takes the first task, exits on an empty queue after the stop, or sleeps |
| ThreadPool.Tasks.WakeAll | src/net/thread_pool.cpp:25 | every sleeper wakes |
| ThreadPool.StepKeepsInv | src/net/thread_pool.cpp:5-36 | every step of submitters, notifications, workers and destructor keeps the invariant |
| ThreadPool.StepWakeups | src/net/thread_pool.cpp:9-10 | no lost wake-up: while a worker sleeps, awake workers and pending notifies cover the queue, or the final notify is still to come |
| ThreadPool.ReachableInv | src/net/thread_pool.cpp:5-36 | the invariant holds in every reachable state of any interleaving |
| ThreadPool.ExactlyOnePlace | src/net/thread_pool.cpp:12-15 | each submitted task is in exactly one of queue, one worker and done, and the queue is in submission order |
| ThreadPool.DrainedOnExit | src/net/thread_pool.cpp:11 | when all workers have exited, every task submitted is done |
| ThreadPool.OwnStepsDecrease | src/net/thread_pool.cpp:8-16 | the pool's own steps lower a measure, so it cannot run for ever by itself |
| ThreadPool.RestMeansDone | src/net/thread_pool.cpp:8-29 | a pool at rest has done every task, and after a stop all workers have exited |
| ThreadPool.Settles | src/net/thread_pool.cpp:5-36 | from every reachable state the pool's own steps lead to such a state |
| Server.EventLoop.AcceptConnection | src/core/server.cpp:192-196 | an accepted connection is registered before it is stored |
| Server.EventLoop.StoreConnection | src/core/server.cpp:201-204 | it is stored under its descriptor |
| Server.EventLoop.Deregister | src/core/server.cpp:207-208 | the descriptor of an event leaves epoll |
| Server.EventLoop.FindConnection | src/core/server.cpp:210-215 | the map lookup, which inserts a null pointer under a missing descriptor and then skips the event |
| Server.EventLoop.SubmitTask | src/core/server.cpp:216-218 | the task with its captured descriptor and connection is queued |
| Server.EventLoop.Exchanged | src/core/server.cpp:24-161 | for whatever the peer sends, one of the exits of `handleRequest`: its own connection erased once, its descriptor registered once, or an exception and neither |
| Server.EventLoop.HandleRequest | src/core/server.cpp:24-161 | a task as a step of the server: the erase or the re-registration its input calls for, the invariant kept |
| Server.EventLoop.Dispatch | src/core/server.cpp:206-219 | one event on a connection, uninterrupted: its descriptor leaves epoll, its own live connection is queued, nothing else changes |
| Server.EventLoop.Admit | src/core/server.cpp:192-204 | one accepted connection, uninterrupted: registered and stored under a descriptor that was free |
| Server.StepKeeps | src/core/server.cpp:188-219 | every step of accept, dispatch and workers keeps the ownership invariant |
| Server.ReachableInv | src/core/server.cpp:188-219 | the invariant holds in every reachable state of any interleaving |
| Server.ExactlyOneOwner | src/core/server.cpp:206-219 | each live connection is in exactly one of epoll, event loop, task queue and one worker |
| Server.EraseHitsOwn | src/core/server.cpp:24-29 | an erase by descriptor removes the connection its worker handled and no other, despite reuse of descriptors |
| Server.LookupFindsLive | src/core/server.cpp:206-219 | the lookup after an event finds the live connection the event was for; no null pointer is inserted, no event of a batch is stale |
| Server.StoreOverwritesNothing | src/core/server.cpp:192-204 | storing an accepted connection overwrites nothing and live connections have different descriptors |
| Server.Conservation | src/core/server.cpp:154-160 | every accepted connection is live or erased once; every task taken ends in exactly one erase or re-registration |
| Server.RestingServerListens | src/core/server.cpp:154-160 | when nothing is in progress every live connection is registered |
| Server.StepsDecrease | src/core/server.cpp:188-219 | between two waits for events every step lowers a measure, so the server comes to an end of its work |
| Server.RestMeansListening | src/core/server.cpp:188-219 | with no step of its own left, the server waits with nothing queued or running, every task taken has ended, every live connection is registered |
| Server.Settles | src/core/server.cpp:188-219 | from every reachable state the server's own steps lead to such a state |
| Exchange.ReceiveHead | src/core/server.cpp:31-39 | the first loop stops at the first read that completes a blank line |
| Exchange.ReceiveBody | src/core/server.cpp:68-75 | the second loop stops when the announced length is there, the stream ends, or one read more than the limit was taken |
| Exchange.WholeReceived | src/core/server.cpp:31-75 | a request that announces its length is read to its end if and only if not too many pieces are late, and otherwise loses only the end of its body |
| Exchange.CutRejected | src/core/request.cpp:141-156 | a request with a Content-Length is not accepted with less than its body |
| Exchange.SlowlySent | src/core/server.cpp:31-92 | a request accepted at once, whose header block announces its length, ends the same way in pieces if and only if not too many of them are late, and is refused otherwise |
| Exchange.LateLimit | src/core/server.cpp:68-74 | the limit as a number, and the length at which the `int` that holds it wraps around |
| Exchange.FullReadsSuffice | src/core/server.cpp:68-75 | a request whose reads fill the buffer is never cut off |
| Cache.FileCache.LoadFile | src/cache/cache.cpp:12-27 | hit, miss and eviction as the relation `Loads`; the result is the current content unless the entry hits and the content changed without its time |
| Cache.FileCache.Evict | src/cache/lru_policy.cpp:5-13 | erases exactly one entry that no other is older than |
| Cache.FileCache.Clear | src/cache/cache.cpp:7-10 | the cache is empty |
| Cache.LruIsAPolicy | src/cache/lru_policy.cpp:5-13 | the built-in policy only erases, and erases at least one |
| Cache.LoadsAreCurrent | src/cache/cache.cpp:12-27 | over any interleaving of writes, deletions, loads and clears and any erasing policy, a load returns the current content if equal times mean equal contents |
| Cache.SizeBound | src/cache/cache.cpp:22-25 | the size never exceeds the capacity under any policy that erases something |
| Cache.LoadRefines | src/cache/cache.cpp:12-27 | one load is one move-to-front of the recency list, cut to capacity |
| Cache.HoldsTheMostRecent | src/cache/cache.cpp:12-27 | with unchanged files and increasing times the cache holds, and hits, exactly the most recently loaded paths |
| Cache.Inclusion | src/cache/lru_policy.cpp:5-13 | a larger cache holds whatever a smaller one does and hits whenever it does |
| Cache.ReloadCostsAnEntry | src/cache/cache.cpp:15-25 | loading a cached file keeps the set of cached files if and only if it is unchanged, there is room, or it is itself the oldest; otherwise the oldest is lost |
| Cache.SameTimeIsStale | src/cache/cache.cpp:17-20 | a run of write, load, write under the same time, load: the second load returns the first content |
| Multipart.MultipartParser.ParsePart | src/util/multipart_parser.cpp:27-73 | at most one part is recorded, as the header says; a content type marker at the very end of the header throws |
| Multipart.MultipartParser.ParseBody | src/util/multipart_parser.cpp:75-101 | the loop over delimiters appends exactly the parts of the specification, and throws when it does |
| Multipart.ScanCarves | src/util/multipart_parser.cpp:86-100 | for every body and delimiter the parts are disjoint slices in order, each ending two characters before a delimiter, none containing one |
| Multipart.ParseCarves | src/util/multipart_parser.cpp:75-101 | the same for every body and content type |
| Multipart.HeaderThrows | src/util/multipart_parser.cpp:31-66 | a part throws if and only if its name, and its filename if any, are closed by a quote and its first content type marker is the end of its header |
| Multipart.ParseThrows | src/util/multipart_parser.cpp:27-101 | parsing throws if and only if such a part stands between two delimiters |
| MultipartRoundTrip.OpenHeaderThrows | src/util/multipart_parser.cpp:31-66 | a printed header with an empty content type and no blank in front of it throws unless it is a field that seems to have a filename |
| MultipartRoundTrip.OpenTypeThrows | src/util/multipart_parser.cpp:27-101 | a body that starts with such a part makes the parser throw, whatever follows |
| MultipartRoundTrip.SegKey | src/util/multipart_parser.cpp:32-42 | a parameter key is found at a quote exactly when the text in front of the quote ends with it |
| MultipartRoundTrip.HeaderRead | src/util/multipart_parser.cpp:31-72 | what the header of every legible part is read as, misreadings included, in either order of name and filename |
| MultipartRoundTrip.HeaderReadExactly | src/util/multipart_parser.cpp:31-72 | a legible part is read as what it is if and only if it is unambiguous, and a file without data is skipped in any case |
| MultipartRoundTrip.FieldLost | src/util/multipart_parser.cpp:32-53 | a field without a content type is lost if its name ends with `filename=`, and read otherwise |
| MultipartRoundTrip.BoundaryExtracted | src/util/multipart_parser.cpp:8-25 | a quoted or unquoted boundary parameter is extracted as it was printed |
| MultipartRoundTrip.ScanPrinted | src/util/multipart_parser.cpp:86-100 | on a printed body the scan records each part at its place, as it is read |
| MultipartRoundTrip.RoundTrip | src/util/multipart_parser.cpp:75-101 | parsing a printed body never throws, and gives exactly the entries sent, except files without data, if and only if every entry is unambiguous; for arbitrary data, preamble and epilogue |
| Frames.Unmask | src/net/websocket.cpp:74-78 | masking twice with the same key is the identity |
| Frames.DecodeEncode | src/net/websocket.cpp:31-78 | every readable frame is decoded from its encoding, in any length form, masked or not, with the rest of the stream left over |
| Frames.EncodeDecode | src/net/websocket.cpp:31-78 | nothing is decoded that is not the encoding of a readable frame |
| Frames.DecodeRefused | src/net/websocket.cpp:58-72 | a frame without data reads as the end of the stream, one over 16 MiB is refused |
| Frames.SentDecodes | src/net/websocket.cpp:91-110 | what sendFrame writes decodes to its data and opcode, as a final unmasked frame |
| Frames.SentMinimal | src/net/websocket.cpp:95-106 | no encoding of the same data is shorter |
| WebSocketSession.WebSocket.SendFrame | src/net/websocket.cpp:91-110 | writes exactly the frame, with the length octets computed by the loop |
| WebSocketSession.WebSocket.UnmaskInPlace | src/net/websocket.cpp:74-78 | the buffer is unmasked in place |
| WebSocketSession.WebSocket.ReadLength | src/net/websocket.cpp:41-56 | the 7-bit, 16-bit and 64-bit length forms |
| WebSocketSession.WebSocket.ReadFrame | src/net/websocket.cpp:31-89 | consumes one frame, answers close and ping, closes on close and on too long a payload, returns the payload |
| WebSocketSession.WebSocket.Run | src/net/websocket.cpp:112-135 | one open, the messages of the stream in order, one close; exactly the replies of the stream are written |
| WebSocketSession.StreamDelivers | src/net/websocket.cpp:112-135 | a stream that starts with frames delivers their payloads in order and one pong per ping, and goes on with the rest |
| WebSocketSession.RunDelivers | src/net/websocket.cpp:112-135 | several frames to the end of the stream: exactly their payloads, and for each ping one pong with its payload |
| WebSocketSession.CloseEndsRun | src/net/websocket.cpp:80-83 | a close frame is answered with a close frame and nothing behind it is read |
| WebSocketSession.RefusedEndsRun | src/net/websocket.cpp:58-72 | an empty or overlong frame ends the run without an answer |
| WebSocketSession.StreamIsFrames | src/net/websocket.cpp:112-135 | on every stream whatever, what is delivered is what the frames at its head carry |
| Url.UrlEncode | src/util/url.cpp:8-22 | the loop is the character-wise percent-coding |
| Url.UrlDecode | src/util/url.cpp:24-52 | the loop decodes triples by std::stoi, plus signs to blanks, and keeps what stoi refuses |
| Url.DecodeEncoded | src/util/url.cpp:8-52 | decoding inverts encoding on every octet string, also in front of other text |
| Url.EncodeInjective | src/util/url.cpp:8-22 | different octet strings have different codes |
| Url.EncodedSafe | src/util/url.cpp:12-17 | only unreserved characters and percent signs are written |
| Url.ParseQuery | src/util/url.cpp:97-119 | the loop over `&` puts each token into the map, later ones winning |
| Url.QueryCollects | src/util/url.cpp:97-119 | encoded pairs joined with `&` are collected in order, the last value of a key winning |
| Url.QueryRoundTrip | src/util/url.cpp:97-119 | every finite map, written in any order, comes back, empty keys and values included |
| Path.NormalizePath | src/util/url.cpp:67-95 | the loop with its stack computes the normal form by segments |
| Path.IsDoubleEncoded | src/util/url.cpp:54-65 | true exactly when there is a NUL or a percent triple |
| Path.NormalIdempotent | src/util/url.cpp:67-95 | normalising twice is normalising once |
| Path.NormalPrefix | src/util/url.cpp:67-95 | `norm(p + "/" + q) == norm(norm(p) + "/" + q)` |
| Path.SegmentsClean | src/util/url.cpp:73-78 | no empty, `.` or `..` segment and no slash inside one is left |
| Path.SegmentsOfNormal | src/util/url.cpp:89-94 | splitting a normal form gives back the segments it was made of |
| Path.NormalKeepsDecoded | src/util/url.cpp:54-95 | normalising never creates a percent triple or NUL |
| PathRfc.AgreesWithStandard | src/util/url.cpp:67-95 | on absolute paths without doubled slashes the result is that of remove_dot_segments but for one trailing slash, and when that is missing |
| PathRfc.AgreesOnMerged | src/util/url.cpp:67-95 | on every absolute path the result is that of remove_dot_segments on the path with its slashes merged, but for one trailing slash, and when that is missing |
| PathRfc.NormalMerged | src/util/url.cpp:73 | merging slashes first changes nothing |
| PathRfc.DoubledSlashDiffers | src/util/url.cpp:73 | without merging, two slashes in front of any segment are an empty segment to the standard and one slash here |
| Http.ParseHeaders | src/core/request.cpp:110-140 | the loop ends exactly behind the first blank line with the fields of the lines before it, or at the first field over the limit |
| Http.FinishRequest | src/core/request.cpp:140-176 | Content-Length check, multipart and urlencoded bodies |
| Http.FillForm | src/core/request.cpp:167-171 | parts without a filename become form fields |
| Http.Parse | src/core/request.cpp:42-177 | the whole parser with its error codes in order |
| Http.AcceptedFraming | src/core/request.cpp:50-156 | for everything accepted: the body is what follows the first blank line, any Content-Length equals its size, limits hold, headers have their last values, the path is normal and not double encoded |
| Http.AcceptedFirstLine | src/core/request.cpp:51-53 | the method of an accepted request stands in its first line; so does the version, unless the second space lies behind that line and all that follows the space is the version |
| Http.RequestThrows | src/core/request.cpp:42-172 | an exception leaves the parser if and only if everything in front of the body is in order and the body is a multipart form with a part that throws |
| Http.CollectedHoldsLast | src/core/request.cpp:122-128 | each header maps to its last occurrence and nothing else is stored |
| HttpRoundTrip.HeadRoundTrip | src/core/request.cpp:42-140 | what becomes of every printed request: refused for its size, for a path that is still encoded or for its number of fields, in this order; otherwise it comes back with method, normalised path, query map, version, header map and body |
| HttpRoundTrip.BlankLineCounts | src/core/request.cpp:44-70 | a request within both limits is refused when their sum leaves no room for the blank line |
| HttpRoundTrip.SecondSpaceBehind | src/core/request.cpp:51-95 | what becomes of every request whose first line and blank line end between its two spaces, with any header lines without a space: refused for size, path or number of fields, or finished with all that lies between the spaces as its target |
| HttpRoundTrip.OnlySpaced | src/core/request.cpp:51-95 | everything accepted with its second space behind the first line has that form |
| HttpRoundTrip.BlankInPath | src/core/request.cpp:51-95 | without header lines and with a space and a version as its body such a request is accepted, with the blank line in its path |
| HttpRoundTrip.RequestRoundTrip | src/core/request.cpp:42-176 | a printed request is accepted as it is when its Content-Length is right or absent and its body is no form |
| HttpRoundTrip.FieldsRead | src/core/request.cpp:113-138 | printed header lines are read back field by field |
| FormRoundTrip.UrlFormRoundTrip | src/core/request.cpp:173-175 | a printed urlencoded form comes back as its map, in whatever order it was written |
| FormRoundTrip.MultipartFormRoundTrip | src/core/request.cpp:159-172 | a printed multipart form comes back part by part, its plain fields as the form map |
| FormRoundTrip.OpenTypeEscapes | src/core/request.cpp:157-166 | a printed request whose multipart body starts with a part of empty content type ends in an exception |
| FormRoundTrip.OpenTypeExample | src/core/request.cpp:157-166 | one such request, for every configuration with room for it |
| Session.SessionStore.Lookup | src/security/session.cpp:94-104 | a live session is found and gets a new lease, everything else stays |
| Session.SessionStore.Create | src/security/session.cpp:50-58 | the presented id goes and an empty session with a full lease starts |
| Session.SessionStore.Sweep | src/security/session.cpp:25-32 | exactly the expired sessions are erased |
| Session.RunKeepsInv | src/security/session.cpp:93-112 | in every interleaving an id that missed stays dead and no lease is longer than ttl |
| Session.CreateSparesTheLive | src/security/session.cpp:105-112 | the second-phase erase never removes a live session, under any interleaving |
| Session.SweeperUnobservable | src/security/session.cpp:19-34 | every request gets the same session, data and cookie with the sweeper as without it |
| Session.SessionLasts | src/security/session.cpp:93-104 | a client that returns at gaps under ttl finds its session with everything written to it on every visit |
| Session.ExpiredIsLost | src/security/session.cpp:98 | an expired session is never found again, swept or not |
| Router.SplitPath | src/core/router.cpp:92-102 | the loop gives the segments, without one for a trailing slash |
| Router.Router.AddRoute | src/core/router.cpp:34-36 | the handler is stored under method and path |
| Router.Router.MatchRoute | src/core/router.cpp:124-139 | matches exactly segment by segment and then holds the captures |
| Router.Router.Resolve | src/core/router.cpp:86-149 | a handler if and only if an exact or a same-method parametric route matches, in whatever order routes are visited; captures of the chosen route only |
| Router.KeyParts | src/core/router.cpp:105-107 | a route's key tells its method and path |
| Router.CapturesRebuild | src/core/router.cpp:128-139 | captures put back into a pattern with distinct names give the path's segments |
| Router.PartsOfNormal | src/core/router.cpp:92-102 | on a normalised path the router sees exactly the normaliser's segments |
| Router.ServesSegments | src/core/router.cpp:104-139 | a stored pattern serves a request exactly when it matches the normalised segments |

## Left out

- JsonRoundTrip.RoundTrip: doubles are real numbers, so binary rounding, negative zero, infinities and NaN are not modelled; the printer writes no `\u`, so escapes of that form occur only on the parsing side.
- TemplateProof.RenderIsEval: the stack is a number of nested files, `depth`; running out of it is the result `Overflow`, and `DepthUnobservable` shows that the number is no part of the meaning. Partials are read from a fixed set of files instead of the cache.
- RateLimiter.Limiter.Handle: time and tokens are reals; requests are one at a time, as the map of buckets has no lock.
- ThreadPool.StepKeepsInv: the theorems are about all interleavings of the steps of a value, one step per section under the mutex, per notification and per task; the methods of `Tasks` are those steps. A task that throws is not modelled.
- Server.StepKeeps: likewise, one step per lock section, system call and queue operation; the methods of `EventLoop` are those steps but for waiting, failing to accept and releasing a pointer. `stop` is no step, and the WebSocket handler and what a handler answers are not part of a task.
- Server.Conservation: leaves out tasks that throw; in the source such a task ends the process (`src/net/thread_pool.cpp:15` catches nothing). `Server.EventLoop.HandleRequest` says that it has erased and registered nothing by then.
- Exchange.SlowlySent: a read gives at least one octet or is the end; that its buffer holds 4096 is used by `Exchange.FullReadsSuffice` only. Whether an exception leaves handlers, middleware or the WebSocket code is a parameter.
- Server.Settles: waiting for events and accepting connections are steps from outside; a listener event whose accept fails is dropped.
- Cache.FileCache.LoadFile: the modification time and the content are read together; a capacity of zero, for which the code evicts from an empty map, is excluded.
- Multipart.MultipartParser.ParsePart: a view of the body is a pair of positions, so lifetimes are not modelled.
- WebSocketSession.Connection.Read: a read the stream cannot serve in full finds its end; partial reads, blocking and epoll are not modelled.
- WebSocketSession.WebSocket.ReadFrame: its length and payload stages are methods of their own; shifts and masks on lengths are products and remainders.
- Url.UrlDecode: `std::isalnum` is that of the C locale.
- PathRfc.AgreesWithStandard: stated on absolute paths without doubled slashes; `PathRfc.AgreesOnMerged` covers the others.
- TemplateNesting.RenderIsEvalExactly: for trees, included files among them, without blocks named `/if` or `/each`, and where includes exist and end; that rendering is evaluation where nothing is nested holds without these conditions (`TemplateProof.RenderIsEval`).
- TemplateIncludes.IncludesDecide: for files whose blocks include nothing; whether an include inside a block is reached depends on the variables.
- MultipartRoundTrip.HeaderReadExactly: names and filenames without a quote, a carriage return or `Content-Type:`, content types without a carriage return.
- Http.Parse: a rejected request keeps only its error code; the sum of the two limits does not wrap around.
- Session.SessionStore.Lookup: reading the clock twice within one lock section gives the same time, all requests use the same ttl, and the session id comes parsed out of the cookie header; `random_hex` is a parameter that is fresh.
- Router.Router.Resolve: handlers are opaque values; which of several matching patterns wins is left open, as in an unordered map.
- Sockets, TLS, epoll and signals; the WebSocket opening handshake and hashing: calls into libraries.
- CORS, secure headers, sanitizer, CSRF, logger, MIME table, config parsing, file saver, response builders, static files, path guard and the command line.
