# trs development server core, modelled in Dafny

This project models the core of the `trs` development server (package `packages/trs` of the
tarini repository) and proves properties of that model. The core consists of:

- the **response-compression middleware**: a per-response interceptor that defers the header
  flush, decides once whether to compress, and wires encoder output to socket backpressure;
- **port selection** (`getFreePort`, `getPort`) and address display (`getServerAddresses`,
  `addTimestamp`, the Node version gate);
- the **connection closer** of the dev server, the source-map redirect, the
  index-injection rule and the compression threshold choice;
- the **`.env` parser** and the merge of per-file results;
- **configuration merging** (`mergeConfig`), the plugin test, the dispatch of configuration
  results and plugin hooks, and the ordering of plugins by `enforce` phase;
- the **output helpers**: the namespace colour hash, the debug switch, per-line namespace
  prefixing and the boot message;
- the **path predicates** `hasCustomPrefix` and `pathToUrl`.

One module per source file:

| file | module | models |
|---|---|---|
| compression.dfy | `Compression` | `packages/trs/src/lib/compression.js` |
| net_utils.dfy | `NetUtils` | `packages/trs/src/lib/net-utils.js` |
| dev.dfy | `DevServer` | `packages/trs/src/dev.js` |
| environment.dfy | `Environment` | `packages/trs/src/lib/environment.js` |
| normalize_options.dfy | `NormalizeOptions` | `packages/trs/src/lib/normalize-options.js` |
| output_utils.dfy | `OutputUtils` | `packages/trs/src/lib/output-utils.js` |
| fs_utils.dfy | `FsUtils` | `packages/trs/src/lib/fs-utils.js` |
| strings.dfy | `Strings` | the JavaScript string and number built-ins the core relies on |

## How each part is modelled

The compression interceptor is modelled as classes:

- `Compression.Response` is the underlying response. It records the operations that reach the
  socket (`writeHead`, `write`, `end`, listener attachment) and holds its headers, keyed by
  lower-case name as Node stores them.
- `Compression.Encoder` is the zlib stream: a sink with a `paused` flag and a log of what it
  is given.
- `Compression.Interceptor` holds the closure variables `compress`, `pendingStatus`,
  `pendingListeners`, `started` and `size`. Its methods are the replaced `writeHead`,
  `write`, `end` and `on`, plus the events that feed back into the closure: encoder `data`,
  response `drain`, encoder `drain` and encoder `end`.
- Its invariant `Valid` states that the header goes out exactly once, before any body
  operation; before the decision only listener attachments reach the response.
- `Response` and `Encoder` keep their `drain` listener lists, as an event emitter does. `Valid`
  ties them to the `drain` registrations made through the intercepted `on`.

The other imperative parts are also methods with loops, each proved against a recursive
specification function:

- the probe loop of `getFreePort`;
- the interface loops of `getServerAddresses`;
- the line loop of `parseEnvFile` and the merge fold of `readEnvFiles`;
- the key loop of `mergeConfig`;
- the plugin-hook loop;
- the hash loop of `selectColor`;
- the closer's destroy loop.

The socket set of the closer and the debug flag are classes. The pure rules are functions,
with the promised properties proved as lemmas.

I/O is replaced by parameters:

- The port probe of `isPortFree` is an oracle `int -> ProbeResult` (free, in use, or another
  bind error).
- The content of a `.env` file is given, or `None` when it cannot be read.
- `os.networkInterfaces()` is given as a sequence of interface groups in enumeration order.
- A plugin hook is a function from plugin, hook name and options to the returned value. It cannot change the options object in place, and it cannot throw.
- The index HTML, the HTML transform and the elapsed time are given.
- The terminal colour functions are uninterpreted string functions.
- `process.env.DEBUG` and `process.env.PORT` are given as parameters.

The comment at net-utils.js:38 speaks of a limit of 20 attempts. The guard `attempts <= 20`
admits 21 probes, and after 21 busy ports the port `start + 21` is returned without being
probed (8101 from 8080). The model follows the code.

## Model

| member | source | states |
|---|---|---|
| Compression.ChunkSizeIsByteLength | packages/trs/src/lib/compression.js:7 | a text chunk counts the bytes of its UTF-8 encoding, which is at least its number of characters |
| Compression.Response.SetHeaders | packages/trs/src/lib/compression.js:87 | the headers become those of setting every entry in order (`SetAll`); status and wire log are untouched |
| Compression.Response.RawOnEach | packages/trs/src/lib/compression.js:77 | each queued listener is attached to the response, in queue order, and nothing else is sent; the `drain` ones join the response's `drain` list in that order |
| Compression.Encoder.constructor | packages/trs/src/lib/compression.js:58-68 | a new stream has the chosen kind, level and size hint, is not paused and has received nothing |
| Compression.Encoder.OnEach | packages/trs/src/lib/compression.js:74 | each queued listener is registered on the encoder in queue order, the `drain` ones joining its `drain` list in that order; the paused flag is kept |
| Compression.Encoder.Pause | packages/trs/src/lib/compression.js:71 | the stream is paused and receives nothing |
| Compression.Encoder.Resume | packages/trs/src/lib/compression.js:72 | the stream is resumed and receives nothing |
| Compression.AttachAll | packages/trs/src/lib/compression.js:77 | the attachments of a queue: one per listener, in order, and nothing but attachments |
| Compression.OnAll | packages/trs/src/lib/compression.js:74 | the encoder registrations of a queue: one per listener, in order |
| Compression.DefaultTypeIsCompressible | packages/trs/src/lib/compression.js:50 | a missing, empty or zero content type reads as `text/plain` and is compressible |
| Compression.MimeMatchIgnoresCase | packages/trs/src/lib/compression.js:3 | every content type that holds `text`, `javascript`, `/json` or `xml` with its letters in any ASCII case (and the long s for `s`, under `/iu`) is compressible |
| Compression.Interceptor.constructor | packages/trs/src/lib/compression.js:38-44 | a fresh closure: not started, size 0, no encoder, no pending status, an empty listener queue; the invariant holds |
| Compression.Interceptor.Start | packages/trs/src/lib/compression.js:47-81 | sets `started`; the size is the truncated truthy Content-Length, else the counted bytes; an encoder exists iff the type is compressible, no Content-Encoding is set and size ≥ threshold; compressing sets Content-Encoding to the token, removes Content-Length, sets up the encoder with its data/end listeners and the queued ones, and attaches the resuming `drain` to the response; passing through nulls the queue and attaches the queued listeners to the response; either way exactly one `writeHead` with the pending status, or else the status code, goes out last |
| Compression.Interceptor.StartCompressing | packages/trs/src/lib/compression.js:47-80 | the compressing branch: size set, headers rewritten, encoder created with level, size hint, its listeners and the queued ones, the resuming `drain` on the response, then the one `writeHead` |
| Compression.Interceptor.StartPassingThrough | packages/trs/src/lib/compression.js:75-80 | the passing-through branch: size set, the queue nulled, the queued listeners attached to the response in order, then the one `writeHead`; headers untouched |
| Compression.Interceptor.SendHead | packages/trs/src/lib/compression.js:80 | exactly one `writeHead`, with the pending status, or else the status code, and the headers as they stand, appended after the attachments; the invariant then holds |
| Compression.Interceptor.WriteHead | packages/trs/src/lib/compression.js:83-91 | nothing reaches the wire; before the decision the headers argument (after the swap when `reason` is not a string) is copied by `setHeader` entry by entry and the status is kept as `pendingStatus`; once the header is sent, any entry makes `setHeader` throw ERR_HTTP_HEADERS_SENT and nothing changes |
| Compression.Interceptor.Write | packages/trs/src/lib/compression.js:94-100 | the chunk's size is always added; the first write runs `start` on the size including this chunk, and its one `writeHead` carries the status `writeHead` stored, else the status code; a new encoder has the configured level, the size hint for Brotli and is not paused; after the decision the chunk goes only to the encoder when compressing, and verbatim to the response otherwise; pending status, status code and `drain` registrations are kept |
| Compression.Interceptor.End | packages/trs/src/lib/compression.js:103-112 | as `write`, but only a first argument that is not a function adds to the size; the end goes only to the encoder when compressing and verbatim to the response otherwise; the first call sends the stored status and sets up the encoder as `write` does |
| Compression.Interceptor.Forward | packages/trs/src/lib/compression.js:97-111 | after the decision, a write or end goes to the original method when there is no encoder and only to the encoder when there is; headers and status are untouched |
| Compression.Interceptor.StartAndForward | packages/trs/src/lib/compression.js:94-111 | the first `write` or `end`: the decision, the header with the stored status, then the call to the encoder or to the response |
| Compression.Interceptor.On | packages/trs/src/lib/compression.js:114-120 | non-`drain` events, and every event once the queue is null, attach to the response at once; a `drain` with a live queue goes to the encoder when compressing, else is appended to the queue; each `drain` registration is recorded, in order |
| Compression.Interceptor.OnEncoderData | packages/trs/src/lib/compression.js:71 | encoder output is written to the response; a `false` return pauses the encoder, a `true` one leaves the flag as it was |
| Compression.Interceptor.OnResponseDrain | packages/trs/src/lib/compression.js:72-77 | while compressing only the resuming listener of line 72 runs, besides those the response had before, and the encoder is resumed; when passing through, the user's `drain` listeners run, queued ones first and later ones after them; before the decision none of the user's run |
| Compression.Interceptor.OnEncoderDrain | packages/trs/src/lib/compression.js:74-117 | every `drain` listener registered through the intercepted `on` runs, in registration order: those queued before the decision (line 74) first, those added later (line 116) after them |
| Compression.Interceptor.OnEncoderEnd | packages/trs/src/lib/compression.js:73 | the encoder's end ends the response |
| Compression.BeginCompression | packages/trs/src/lib/compression.js:55-74 | sets Content-Encoding to the token and removes Content-Length; creates the encoder with level and size hint and its listeners; attaches the resuming `drain` to the response |
| Compression.PassThrough | packages/trs/src/lib/compression.js:76-77 | the queued listeners are attached to the response in order and join its `drain` list; headers and status untouched |
| Compression.NewEncoder | packages/trs/src/lib/compression.js:58-74 | a fresh, unpaused encoder whose first listeners pipe to the response and end it, then the queued ones |
| Compression.HeaderEntries | packages/trs/src/lib/compression.js:87 | `for...in` over a string argument yields one entry per character, keyed by its index |
| Compression.SetAllUntouched | packages/trs/src/lib/compression.js:87 | a header named by no entry, in any letter case, keeps its value or its absence |
| Compression.SetAllLastWins | packages/trs/src/lib/compression.js:87 | a header named by some entry holds the value of the last entry naming it |
| Compression.FindWord | packages/trs/src/lib/compression.js:32 | the search succeeds iff `\bword\b` occurs at some index from the start position on |
| Compression.SelectEncodingIff | packages/trs/src/lib/compression.js:32 | Brotli iff enabled and `br` occurs as a word; else Gzip iff enabled and `gzip` occurs as a word; else none (all three directions) |
| Compression.NoWordWithoutLetter | packages/trs/src/lib/compression.js:32 | a text lacking one of a word's letters never contains that word |
| Compression.WrapDecision | packages/trs/src/lib/compression.js:35 | a request is wrapped only when it is not HEAD, and then with the selected encoding; HEAD or no encoding means no wrap |
| Compression.AcceptLiteralNamesNoBrotli | packages/trs/src/lib/compression.js:31-32 | the literal accept text never names `br` |
| Compression.AcceptLiteralNamesNoGzip | packages/trs/src/lib/compression.js:31-32 | the literal accept text never names `gzip` |
| Compression.AsWrittenNeverWraps | packages/trs/src/lib/compression.js:31-35 | with the accept text as written, no request is wrapped, whatever the options and method |
| Compression.AcceptLiteralCounterexample | packages/trs/src/lib/compression.js:31-32 | for a GET with `Accept-Encoding: gzip, deflate` and default options, the header value selects Gzip while the literal selects nothing |
| Compression.Handle | packages/trs/src/lib/compression.js:30-35 | an interceptor is created iff the request is not HEAD and an enabled encoding is named; it is fresh, valid and unstarted, and carries that encoding |
| Compression.MiddlewareAsWritten | packages/trs/src/lib/compression.js:30-35 | the handler as written never creates an interceptor |
| Compression.Middleware | packages/trs/src/lib/compression.js:30-35 | with the accept text read from the header (absent reads as `undefined`), the response is wrapped iff the decision names an encoding, and with that encoding |
| DevServer.InsertMembers | packages/trs/src/dev.js:259 | adding a socket keeps the set duplicate-free and its members are the old ones plus the new one |
| DevServer.RemoveMembers | packages/trs/src/dev.js:260 | deleting a socket keeps the set duplicate-free and removes exactly that socket |
| DevServer.RemoveAbsent | packages/trs/src/dev.js:260 | deleting a socket not in the set changes nothing |
| DevServer.InsertThenRemove | packages/trs/src/dev.js:258-261 | a connection that opens and closes leaves the set as it was |
| DevServer.Closeable.constructor | packages/trs/src/dev.js:255-256 | no sockets, not listened, nothing destroyed, no close call |
| DevServer.Closeable.OnConnection | packages/trs/src/dev.js:258-261 | the socket is added to the set; the rest of the state is untouched |
| DevServer.Closeable.OnSocketClose | packages/trs/src/dev.js:260 | the socket is removed from the set; the rest is untouched |
| DevServer.Closeable.OnListening | packages/trs/src/dev.js:263 | `listened` becomes true (and stays true); the rest is untouched |
| DevServer.Closeable.Close | packages/trs/src/dev.js:265-272 | every open socket is destroyed in set order; `server.close` is called once iff listening was observed; the result rejects with the close error iff one occurred after listening, else resolves |
| DevServer.SourceMapRedirect | packages/trs/src/dev.js:205-216 | a response iff the URL ends with `?%20[sm]`, and then a 302 with one Location header and an empty body; any other URL calls `next()` |
| DevServer.RedirectReplacesTrailingMarker | packages/trs/src/dev.js:206-208 | with the marker only at the end, the Location is the URL with `.map` in its place |
| DevServer.RedirectReplacesFirstMarker | packages/trs/src/dev.js:208 | only the first occurrence is replaced, so an earlier marker becomes `.map` and the trailing one stays |
| DevServer.HasExtensionIff | packages/trs/src/dev.js:53 | a path has an extension iff some dot is followed by one or more letters up to the end |
| DevServer.AssetPathsSkip | packages/trs/src/dev.js:53-55 | asset paths with letter extensions, in either case, skip injection |
| DevServer.NpmPathsSkip | packages/trs/src/dev.js:53-55 | every path starting with `/@npm` skips injection |
| DevServer.NoDotNoExtension | packages/trs/src/dev.js:53 | a path without a dot has no extension |
| DevServer.NonLetterEndNoExtension | packages/trs/src/dev.js:53 | a path not ending in a letter has no extension |
| DevServer.InjectIndex | packages/trs/src/dev.js:47-75 | skipped paths call `next()`; an unreadable index or a failing transform calls `next()`; otherwise the response is 200 with the injected HTML and its headers |
| DevServer.InjectedLengthIsByteLength | packages/trs/src/dev.js:64-69 | an injected response declares Content-Length equal to the UTF-8 byte count of its body, and the HTML content type |
| DevServer.CompressionFor | packages/trs/src/dev.js:191-194 | no compression iff the option is `false` or 0; `true` or absent gives threshold 1024; a number gives that threshold; always Brotli and Gzip at level 4 |
| Environment.ParseEnvFile | packages/trs/src/lib/environment.js:16-47 | the loop computes the recursive parse `ParseEnv` of the text |
| Environment.BlankLineStops | packages/trs/src/lib/environment.js:21-23 | after a line that is blank once trimmed, nothing contributes |
| Environment.CrlfStopsAfterFirstLine | packages/trs/src/lib/environment.js:4-23 | a CRLF file contributes only its first line: the `\r` and `\n` split separately and leave an empty line |
| Environment.CommentIsSkipped | packages/trs/src/lib/environment.js:25 | a line starting with `#` after trimming is skipped |
| Environment.LineWithoutKeyIsSkipped | packages/trs/src/lib/environment.js:28-30 | a non-blank line with no `=`, or with an empty key, is skipped |
| Environment.EntryLine | packages/trs/src/lib/environment.js:28-42 | `key=value` yields the trimmed key and the rest after the first `=` (further `=` kept), trimmed and unquoted; `Bob=` gives the empty value |
| Environment.UnquotePairs | packages/trs/src/lib/environment.js:34-39 | exactly one matching pair of surrounding double or single quotes is removed, nothing unescaped |
| Environment.UnquoteMismatched | packages/trs/src/lib/environment.js:34-39 | a value whose surrounding quotes do not match is kept |
| Environment.ParseLinesCons | packages/trs/src/lib/environment.js:20-44 | one loop step: a stop ends the parse, a skip continues, an entry assigns and continues |
| Environment.LaterEntryWins | packages/trs/src/lib/environment.js:42 | of two entries with the same key, the later value is the one kept |
| Environment.RoundTrip | packages/trs/src/lib/environment.js:16-47 | writing entries as `KEY="value"` lines joined by `\n` and parsing the text gives the map of the entries back, later duplicates winning |
| Environment.QuotedLineParses | packages/trs/src/lib/environment.js:28-42 | one `KEY="value"` line parses to exactly that entry |
| Environment.ParseQuotedLines | packages/trs/src/lib/environment.js:20-44 | parsing the quoted lines assigns their entries in order |
| Environment.ReadEnvFiles | packages/trs/src/lib/environment.js:56-78 | the result is the left-to-right merge of the per-file parses, an unreadable file contributing `{}` |
| Environment.FileEnvs | packages/trs/src/lib/environment.js:57-75 | one map per listed file |
| Environment.MergeAllLastWins | packages/trs/src/lib/environment.js:77 | a key is in the merge iff some file defines it, and its value comes from the last file that does |
| FsUtils.WordRun | packages/trs/src/lib/fs-utils.js:39 | the length of the leading run of `[\w-]` characters: all inside it qualify and the next does not |
| FsUtils.WordRunStops | packages/trs/src/lib/fs-utils.js:39 | the run ends exactly at the first character outside `[\w-]` |
| FsUtils.HasCustomPrefixIsRegexTest | packages/trs/src/lib/fs-utils.js:37-40 | the computed test equals the two anchored regular expressions with the optional leading NUL |
| FsUtils.DriveLetterIsNotPrefix | packages/trs/src/lib/fs-utils.js:38-39 | `C:` followed by anything is not a prefix |
| FsUtils.UrlIsNotPrefix | packages/trs/src/lib/fs-utils.js:39 | ids starting with `file://`, `http://` or `https://` have no custom prefix |
| FsUtils.NulUrlIsNotPrefix | packages/trs/src/lib/fs-utils.js:39 | nor do they after a leading NUL |
| FsUtils.NamedPrefixIsPrefix | packages/trs/src/lib/fs-utils.js:39 | two or more `[\w-]` characters followed by `:` are a custom prefix |
| FsUtils.NulNamedPrefixIsPrefix | packages/trs/src/lib/fs-utils.js:39 | and so they are after a leading NUL |
| FsUtils.PathToUrlPointwise | packages/trs/src/lib/fs-utils.js:48-50 | every backslash becomes `/`, every other character and the length stay |
| FsUtils.PathToUrlNormalForm | packages/trs/src/lib/fs-utils.js:49 | the result has no backslash and a second application changes nothing |
| NetUtils.ScanMeetsOutcome | packages/trs/src/lib/net-utils.js:39-47 | past a run of busy ports, the scan returns the first free port among the 21, or start+21, or the first other bind error, with every earlier probed port busy |
| NetUtils.ScanPorts | packages/trs/src/lib/net-utils.js:39-47 | the loop computes the scan, so its result has that outcome |
| NetUtils.ScanExhausted | packages/trs/src/lib/net-utils.js:39-47 | the scan gives start+21 iff all 21 probed ports are busy |
| NetUtils.AllBusyScan | packages/trs/src/lib/net-utils.js:39-47 | with all 21 ports busy, the scan gives start+21 from any attempt |
| NetUtils.GetFreePort | packages/trs/src/lib/net-utils.js:32-48 | a string start is parsed base-10 (NaN is the bad-port error), then the scan outcome holds |
| NetUtils.GetPort | packages/trs/src/lib/net-utils.js:56-68 | a numeric `options.port` (0 included) is probed once: free gives it, busy the error naming it; otherwise `PORT` is converted by `Number` and probed once likewise; with neither, the scan from 8080 |
| NetUtils.GetServerAddresses | packages/trs/src/lib/net-utils.js:76-109 | a pipe address gives itself; a host other than `0.0.0.0` gives one origin; otherwise `localhost` first, then every non-internal IPv4 address other than the host, in interface order; `https:` iff https |
| NetUtils.AddGroupOrigins | packages/trs/src/lib/net-utils.js:100-105 | one interface group appends exactly its listed origins, in order |
| NetUtils.OriginsOfAppend | packages/trs/src/lib/net-utils.js:99-106 | the origins of consecutive groups are the concatenation of their origins |
| NetUtils.OriginsOfMembers | packages/trs/src/lib/net-utils.js:102-103 | an origin is listed iff some IPv4, non-internal interface other than the host has that address |
| NetUtils.OriginsOfCount | packages/trs/src/lib/net-utils.js:100-104 | one origin per qualifying interface entry |
| NetUtils.SplitVersion | packages/trs/src/lib/net-utils.js:116 | a version `a.b.rest` splits into `a`, `b` and the rest |
| NetUtils.SupportsSearchParamsIff | packages/trs/src/lib/net-utils.js:116-118 | search parameters are supported iff major > 12, or major = 12 and minor ≥ 19 |
| NetUtils.AddTimestampExtends | packages/trs/src/lib/net-utils.js:127 | the result extends the URL and always has a query |
| NetUtils.AddTimestampTwice | packages/trs/src/lib/net-utils.js:127 | a second timestamp is appended as `&t=`, keeping the first |
| NormalizeOptions.IndexEntries | packages/trs/src/lib/normalize-options.js:256 | every own entry of an array is one of its items |
| NormalizeOptions.IndexEntriesAt | packages/trs/src/lib/normalize-options.js:256 | index `i` of an array is the own key `String(i)` holding item `i` |
| NormalizeOptions.CharEntries | packages/trs/src/lib/normalize-options.js:256 | every own entry of a string is a one-character string |
| NormalizeOptions.CharEntriesAt | packages/trs/src/lib/normalize-options.js:256 | index `i` of a string is the own key `String(i)` holding its character |
| NormalizeOptions.OwnEntries | packages/trs/src/lib/normalize-options.js:253-256 | an object's entries are its fields; arrays and strings give their indexed elements; other values give none |
| NormalizeOptions.MergeConfigAt | packages/trs/src/lib/normalize-options.js:251-271 | each key of the merge holds the merged entry for that key |
| NormalizeOptions.MergeConfigRules | packages/trs/src/lib/normalize-options.js:256-267 | a key is present iff it is in `a` or non-null in `b`; null or missing in `b` keeps `a`'s entry; two arrays concatenate in order; two objects merge recursively; otherwise `b` replaces |
| NormalizeOptions.MergeNothing | packages/trs/src/lib/normalize-options.js:253 | merging `{}` copies the first argument |
| NormalizeOptions.MergeIntoNothing | packages/trs/src/lib/normalize-options.js:256-267 | merging into `{}` keeps exactly the non-null entries of `b` |
| NormalizeOptions.MergeStep | packages/trs/src/lib/normalize-options.js:256-267 | assigning one key its merged entry keeps the loop state for the remaining keys |
| NormalizeOptions.MergeDone | packages/trs/src/lib/normalize-options.js:270 | with every key of `b` done, the loop's object is the merge |
| NormalizeOptions.MergeConfigLoop | packages/trs/src/lib/normalize-options.js:251-271 | the copy-then-assign loop, keys visited in any order, builds exactly `MergeConfig(a, b)` |
| NormalizeOptions.IsPluginIff | packages/trs/src/lib/normalize-options.js:13 | an object is a plugin iff one of its fields holds a function, an array iff one of its items does; strings and other primitives never are |
| NormalizeOptions.ApplyConfigResultCases | packages/trs/src/lib/normalize-options.js:96-104 | falsy results are ignored; with an array `plugins`, arrays append their items and plugins append themselves; with a string `plugins`, `String.prototype.concat` appends `String(res)`; other truthy values merge; the call throws iff a result to concatenate meets a `plugins` that is neither an array nor a string |
| NormalizeOptions.HooklessPluginsAreSkipped | packages/trs/src/lib/normalize-options.js:79 | a run over plugins without the hook leaves the options as they were |
| NormalizeOptions.RunConfigHookAppend | packages/trs/src/lib/normalize-options.js:78-90 | running over two lists is running over the first, then the second from its result; an error stops the run |
| NormalizeOptions.PluginsResultThrows | packages/trs/src/lib/normalize-options.js:84-86 | a result carrying `plugins` throws the error naming the plugin and the hook, whatever follows |
| NormalizeOptions.ConfigState.constructor | packages/trs/src/lib/normalize-options.js:40 | the state holds the given options |
| NormalizeOptions.ConfigState.ApplyResult | packages/trs/src/lib/normalize-options.js:96-104 | the options become `ApplyConfigResult` of the result, or stay when `plugins` has no `concat` and the call throws, which is reported |
| NormalizeOptions.ConfigState.RunHook | packages/trs/src/lib/normalize-options.js:77-91 | the loop ends with the options or the error that `RunConfigHook` gives |
| NormalizeOptions.FlatAppend | packages/trs/src/lib/normalize-options.js:131 | flattening distributes over concatenation |
| NormalizeOptions.FilterTruthy | packages/trs/src/lib/normalize-options.js:133 | the kept entries are all truthy, every truthy entry is kept as often as it occurs, and nothing falsy is kept |
| NormalizeOptions.FilterTruthyAppend | packages/trs/src/lib/normalize-options.js:133 | the filter distributes over concatenation, so it keeps the input order |
| NormalizeOptions.FilterTruthySingle | packages/trs/src/lib/normalize-options.js:133 | a single entry is kept exactly when it is truthy |
| NormalizeOptions.ScoreIsThreeValued | packages/trs/src/lib/normalize-options.js:135-136 | the score of every value is -1, 0 or 1 |
| NormalizeOptions.PhaseRanks | packages/trs/src/lib/normalize-options.js:134-138 | every element of a phase has that phase's rank |
| NormalizeOptions.InsertIntoBlocks | packages/trs/src/lib/normalize-options.js:134-138 | a normal plugin inserted into pre/normal/post blocks goes to the front of the normal block |
| NormalizeOptions.InsertIntoPre | packages/trs/src/lib/normalize-options.js:134-138 | a pre plugin goes to the front |
| NormalizeOptions.InsertIntoPost | packages/trs/src/lib/normalize-options.js:134-138 | a post plugin goes to the front of the post block |
| NormalizeOptions.SortIsPhaseConcat | packages/trs/src/lib/normalize-options.js:134-138 | the stable sort is the pre phase, then normal, then post, each in input order |
| NormalizeOptions.InsertMultiset | packages/trs/src/lib/normalize-options.js:134-138 | an insertion adds exactly the one element |
| NormalizeOptions.SortMultiset | packages/trs/src/lib/normalize-options.js:134-138 | the sort neither loses nor duplicates an element |
| NormalizeOptions.SortSortedPermutation | packages/trs/src/lib/normalize-options.js:134-138 | the sorted list is ordered by rank and is a permutation of its input |
| NormalizeOptions.PluginOrderPhases | packages/trs/src/lib/normalize-options.js:129-139 | the final list is the flattened, truthy plugins in pre, normal, post order, each phase keeping its order, and a permutation of the filtered list |
| OutputUtils.ToInt32 | packages/trs/src/lib/output-utils.js:20 | the result lies in [-2^31, 2^31) and agrees with the input modulo 2^32 |
| OutputUtils.ToInt32Facts | packages/trs/src/lib/output-utils.js:20 | ToInt32 fixes 32-bit values and depends only on its argument modulo 2^32 |
| OutputUtils.SelectColor | packages/trs/src/lib/output-utils.js:15-25 | the colour is the table entry at the absolute hash modulo 76, so always one of the 76 colours |
| OutputUtils.Utf16OfBmp | packages/trs/src/lib/output-utils.js:18-20 | text without astral characters has one code unit per character, equal to it |
| OutputUtils.BmpHash | packages/trs/src/lib/output-utils.js:18-22 | for such text the hash is the recurrence over its characters |
| OutputUtils.AstralCodePoints | packages/trs/src/lib/output-utils.js:20 | an astral character is two units: the first reads as the code point, the second as its low surrogate |
| OutputUtils.SevenAsHash | packages/trs/src/lib/output-utils.js:18-22 | seven `a`s hash to 3058106369 |
| OutputUtils.HashLeavesInt32Range | packages/trs/src/lib/output-utils.js:21 | `Math.trunc` does not keep the hash to 32 bits: `aaaaaaa` hashes to 3058106369 |
| OutputUtils.DebugSwitch.constructor | packages/trs/src/lib/output-utils.js:27 | the CLI flag starts off |
| OutputUtils.DebugSwitch.SetDebugCliArg | packages/trs/src/lib/output-utils.js:32-38 | after setting, debugging is on iff the flag was set or `DEBUG` is exactly `true` or `1` |
| OutputUtils.DebugEnvIsExact | packages/trs/src/lib/output-utils.js:36-38 | without the flag only `true` and `1` switch debugging on; other texts and an unset variable do not |
| OutputUtils.PrefixEach | packages/trs/src/lib/output-utils.js:57 | one prefixed line per line |
| OutputUtils.PrefixEachPointwise | packages/trs/src/lib/output-utils.js:57 | each line gets the namespace tag in front |
| OutputUtils.PrefixLinesLines | packages/trs/src/lib/output-utils.js:55-58 | the output has one line per input line, each the tag followed by that line |
| OutputUtils.PrefixSingleLine | packages/trs/src/lib/output-utils.js:55-58 | a single line becomes the tag followed by it |
| OutputUtils.DebugCall | packages/trs/src/lib/output-utils.js:50-64 | silent when the flag is off; otherwise a TypeError iff some argument has no `split`, else one logged part per argument, each prefixed line by line |
| OutputUtils.DebugPartsFacts | packages/trs/src/lib/output-utils.js:52-59 | the mapped parts exist iff every argument is text, and then part `i` is argument `i` prefixed |
| OutputUtils.DebugTag | packages/trs/src/lib/output-utils.js:47-48 | the tag is the namespace padded by two spaces, coloured with the given colour or the one picked from the namespace |
| OutputUtils.FormatAddrOrigin | packages/trs/src/lib/output-utils.js:70-72 | an origin `host:port` has its port digits in bold inside cyan, whatever the host holds |
| OutputUtils.FormatAddrPlain | packages/trs/src/lib/output-utils.js:70-72 | an address without a trailing `:digits` is only coloured |
| OutputUtils.NetworkLines | packages/trs/src/lib/output-utils.js:86-88 | one Network line per address |
| OutputUtils.NetworkLinesPointwise | packages/trs/src/lib/output-utils.js:86-88 | Network line `i` formats address `i` |
| OutputUtils.FormatBootMessage | packages/trs/src/lib/output-utils.js:79-93 | the message fails iff there is no address (reading the first address throws) |
| OutputUtils.BootMessageLayout | packages/trs/src/lib/output-utils.js:79-93 | intro, then the Local line of the first address, then either the disabled notice for one address or one Network line per further address, in order, then a blank line |
| Strings.IndexOf | packages/trs/src/dev.js:208 | the leftmost occurrence of the pattern, or none when there is none |
| Strings.TrimStartSpec | packages/trs/src/lib/environment.js:21 | the leading whitespace is dropped, exactly |
| Strings.TrimEndSpec | packages/trs/src/lib/environment.js:21 | the trailing whitespace is dropped, exactly |
| Strings.TrimNoop | packages/trs/src/lib/environment.js:32 | text without surrounding whitespace is its own trim |
| Strings.TrimEmptyIff | packages/trs/src/lib/environment.js:21-23 | a line trims to empty iff it is all whitespace |
| Strings.TrailingRun | packages/trs/src/lib/output-utils.js:71 | the maximal trailing run of characters that satisfy the test |
| Strings.MarkBeforeRun | packages/trs/src/lib/output-utils.js:71 | the match of `M[p]+$`: a mark followed by a run up to the end, or none anywhere |
| Strings.MarkBeforeRunIff | packages/trs/src/lib/output-utils.js:71 | that match is at exactly the index that qualifies |
| Strings.Split | packages/trs/src/lib/environment.js:17 | a split always has at least one piece |
| Strings.JoinSplit | packages/trs/src/lib/environment.js:28-32 | joining the pieces after the first `=` with `=` restores the text |
| Strings.SplitNoSep | packages/trs/src/lib/environment.js:28 | text without a separator splits into itself |
| Strings.SplitAtSep | packages/trs/src/lib/environment.js:28 | a separator after separator-free text splits it off |
| Strings.SplitPiecesHaveNoSep | packages/trs/src/lib/environment.js:17 | no piece holds a separator |
| Strings.SplitJoin | packages/trs/src/lib/environment.js:17 | joining separator-free pieces and splitting gives the pieces back |
| Strings.ParseIntToString | packages/trs/src/lib/net-utils.js:60 | `Number(String(n)) === n` for every integer |
| Strings.ParseIntPrefix | packages/trs/src/lib/net-utils.js:36 | `parseInt(s, 10)` is NaN iff no digit follows the leading whitespace and optional sign |
| Strings.ToLowerAscii | packages/trs/src/lib/compression.js:49-51 | header names are looked up case-insensitively: every ASCII capital lowered, the rest kept |
| Strings.Utf8LengthIsEncodedSize | packages/trs/src/dev.js:66 | `Buffer.byteLength` counts exactly the bytes of the UTF-8 encoding, at least one per character |

## Left out

- `isPortFree` (net-utils.js:9-24) binds a real socket. It is the probe oracle; any bind error other than EADDRINUSE is its `Failed` case.
- zlib: what the encoder does with its input, and any decompression round trip. The encoder is a sink; its `data` chunks and their `write` results are given by the caller (`OnEncoderData`).
- The `mimes` option (a caller-supplied regular expression) and object-valued `brotli`/`gzip` options (zlib parameters). The default pattern and boolean flags are modelled.
- Compression.Interceptor.Write: the method does not return the boolean result of `write` (Compression.Interceptor.End likewise for `end`).
- Compression.Response.SetHeaders: header-name and header-value validation by `setHeader` (which throws) is not modelled; array-valued headers are not modelled.
- Compression.Interceptor.Write: the `enc` argument is not modelled, and neither is the callback. A text chunk is always counted as UTF-8 (`Compression.ChunkSize`), so a `'hex'`, `'base64'` or `'latin1'` chunk is counted by its UTF-8 length, and the chunk goes on without `enc` or the callback.
- Compression.Interceptor.End: the same limits on `enc` and the callback as for `write`.
- Compression.ChunkSize: `Buffer.byteLength(chunk, enc)` is modelled for the default UTF-8 encoding only.
- Compression.Interceptor.OnResponseDrain: event timing is not modelled. Events are method calls in a given order, and there is no concurrency.
- Compression.Interceptor.Start: a Content-Length is read as a number only when it is an integer or decimal integer text. Text in fraction, exponent or hexadecimal form (`"1e3"`, `"0x400"`) is read as NaN and so as absent, where `Math.trunc` gives a number: for such a header the model decides on the counted size, not on the header's value.
- Compression.Handle: `next()` is not a modelled call. The handler calls it in both branches, so the method returns only the interceptor it installs, if any.
- Strings.ParseIntToString: `Number(s)` is modelled for decimal text with optional sign and surrounding whitespace (`Strings.ParseDecimal`). Hexadecimal, binary and octal forms, exponents, fractions and `Infinity` are read as NaN.
- NetUtils.GetPort: a `PORT` value in hexadecimal, binary, octal, exponent or fraction form (`"0x1F90"`, `"8.08e3"`) is read as NaN, so the model reports the bad-port error where `Number` at net-utils.js:59-61 reads a port and probes it.
- NormalizeOptions.Truthy: NaN is not modelled (numbers are integers).
- NormalizeOptions.MergeConfigLoop: the key order of the merged object is not modelled. Objects are maps, and each key is assigned once and independently.
- NormalizeOptions.Display: objects display as `[object Object]` and functions as their source text. A custom `toString` is not modelled.
- NormalizeOptions.RunConfigHook: a hook cannot mutate the options object it is given. `await plugin[name](opts)` passes the live object, and a hook that changes it in place and returns nothing changes the options in JavaScript. In the model a falsy result leaves the options as they were (also in NormalizeOptions.HooklessPluginsAreSkipped). A hook that throws or whose promise rejects is not modelled either: `call` always returns a value, so `Threw` covers only the errors of normalize-options.js itself (a hook that is not a function, a result carrying `plugins`), not an error that `await plugin[name](opts)` passes on (also in NormalizeOptions.ConfigState.RunHook).
- NormalizeOptions.ApplyConfigResult: an object `plugins` that carries its own `concat` function is treated as having none, so the call is reported as throwing.
- NormalizeOptions.PluginOrder: a string `plugins` left by a config result makes `.flat()` throw at normalize-options.js:131. The ordering is modelled for an array of plugins.
- The custom-config dispatch of `normalizeOptions` (normalize-options.js:106-119) is not modelled, nor the rest of its orchestration: process environment, `cwd`, reading `package.json`, `mkdir`, alias resolution, `isDirectory`, and config loading through `eval`/`require` in `getConfigsFromFile`. The rules it applies (`applyConfigResult`, `runConfigHook`, the plugin order) are modelled.
- `configWatchFiles` bookkeeping (environment.js:65-67 and the callers in normalize-options.js) is not modelled: it only collects file names.
- `bootServer`, `server()` and `dev()` wiring: polka, sirv, devcert, the HTTP/HTTP2 server creation and the listen callback. This wiring is not modelled. Two observations: `close()` uses `app.ws`, which is never created (dev.js:124-129, 189); and the listen callback passes `https: app.http2` (dev.js:109), which is never `true`, while the secure path sets `app.https` (dev.js:176).
- DevServer.InjectIndex: `posix.normalize` of the path, `readFile`, the HTML transform and the clock are parameters, not modelled behaviour.
- `rm`, `isDirectory`, `isFile` (fs-utils.js:9-30) are filesystem I/O.
- OutputUtils.SelectColor: the hash is an unbounded integer. JavaScript doubles lose exactness beyond 2^53, which takes millions of characters.
- OutputUtils.DebugCall: `console.log` and `util.inspect` are not modelled. An object argument is given as its inspected text, and the call returns the parts it would print.
- OutputUtils.FormatBootMessage: the terminal colour functions are uninterpreted, so the exact escape sequences are not modelled.
- Strings: Dafny strings hold Unicode scalar values, so a JavaScript string with a lone surrogate is not representable.
- Strings.ToLowerAscii: only ASCII letters are lowered. Header names are ASCII tokens.
- NetUtils.GetServerAddresses: the interface groups are given in enumeration order; `os.networkInterfaces()` itself is not modelled.

## Findings

| source | as written | input that shows it | evidently intended | confidence | as-written member | corrected member |
|---|---|---|---|---|---|---|
| packages/trs/src/lib/compression.js:31 | the accept text is a template literal whose content is the code `String(req.headers['accept-encoding'])`, so it never contains `br` or `gzip` and no response is ever compressed | a GET with `Accept-Encoding: gzip, deflate` and default options is not wrapped (Compression.AcceptLiteralCounterexample) | `String(req.headers['accept-encoding'])` evaluated, so Gzip is selected | not executed | Compression.MiddlewareAsWritten | Compression.Middleware |
