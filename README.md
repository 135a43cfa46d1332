# supergate gateway core in Dafny

supergate is an HTTP-to-RPC gateway built on Zuul and Netty. A concrete filter
subclass of `AbstractFilter` describes one endpoint: a service code matched
against the request URI, the application, the remote interface and method,
and the shape of the call. The shape comes as class-info records and
parameter links appended to two string buffers. On each claimed request the
filter does the following:

- it turns the schema into a request template, cached process-wide by a key
  derived from the schema;
- it fills in the call's arguments from the HTTP parameters, in sorted key
  order;
- it hands the call to the `RequestSenderHandler` registered for its
  application;
- it strips fastjson `@type` tags from the reply, then writes either a fixed
  failure text or the reply's `targetResult`.

The handler keeps the calls in flight in two maps keyed by trace id, and it
frames messages on the wire with a 4-byte length prefix. `RpcRequestContext`
is the process-wide registry of handlers by application name. It also holds
the router server slot.

The model has these modules:

| module | what it models |
|---|---|
| `Wrappers` | `Option` and `Result` |
| `Strings` | `StringUtil.isBlank`, `String.split` with a literal separator, and the `compareTo` order behind `Collections.sort` |
| `Schema` | the marker-delimited record buffers, their parse, and the cache key `buildGenKey` |
| `ArgumentTree` | `Node`/`NodeTree` as values: `addNode` as insert-or-replace by path, `setArray`, `addFixedNode` |
| `Template` | the tree `buildGen` builds on a cache miss |
| `Json` | a JSON value datatype, plus fastjson's `get`, `getBoolean` and `getJSONObject` |
| `TypeTags` | `removeJsonType`, as a method with its loops and a recursive specification `Strip` |
| `Reply` | the decision `run` makes, as a function to an outcome value |
| `Parameters` | `getParameterKeys` and `getParameterByKeys`, as array-filling methods |
| `Filter` | class `AbstractFilter` with its fields, setters, `buildGen`, `getResponse` up to the call, and handler loading; class `GenCache` for `GEN_MAP` |
| `Sender` | class `RequestSenderHandler`: the two maps, registration, result filling, receiving, connection release, and the connect failure rule |
| `Frame` | the `LengthFieldPrepender(4)` / `LengthFieldBasedFrameDecoder(MAX_VALUE, 0, 4, 0, 4)` pair |
| `Context` | class `RpcRequestContext` |

Inputs the model takes as parameters:

- `render` stands for the tree-to-JSON step `CommonUtil.nodeToJsonString`,
  together with the argument map it fills. That code is not part of this model.
- `freshId` is the trace id `UUID.randomUUID` would give.
- `releaseThrows` says whether releasing a channel fails.
- `succeeded` says whether a connect attempt succeeded.
- `setMeanwhile` is what the application's start-up thread sets while
  `waitRouterServer` waits.
- `request` holds the HTTP request parameters, and `uri` the request URI.

Facts about the source that the proofs bring out:

- **Avoiding the marker strings is not enough for the buffer round trip.**
  Records written by `setClassInfo`/`linkParameter` parse back whenever
  neither part contains a marker *character* (`★` or `☆`) and the value is not
  empty (`Schema.RoundTrip`). That condition is sufficient, not necessary. But
  a part that avoids the two marker *strings* can still fail:
  - A value starting with `☆` merges with the `☆★` before it, so the fragment
    cannot be split (`Schema.ValueStartingWithStarIsMisread`).
  - An empty value leaves a one-piece fragment (`Schema.EmptyValueIsMisread`).
  - In both cases `buildGen` throws: at `classInfo[1]` for a class-info record,
    at `paramInfo[1]` for a parameter link.
- **A second filter instance can fail with a null pointer.** An instance that
  finds its template already cached never builds its own `argumentMap`. Its
  `getResponse` then fails on `getParameterKeys(null)`
  (`Filter.SecondInstanceHitsCache`).
- **Long payloads are encoded but rejected.** The frame decoder counts the 4
  header bytes against `Integer.MAX_VALUE`. A payload longer than 2^31 − 5
  bytes is prefixed by the encoder but makes the decoder fail with a
  too-long frame (`Frame.LongPayloadRejected`).
- **Parameter values are quoted without escaping.** Distinct values still give
  distinct arguments (`Parameters.RenderParameterInjective`).
- **A request is written before it is registered.** `sendRequest` writes the
  request, then registers it. A registration that fails still leaves the
  request written.
- **On a caught exception nothing is written.** Every claimed request gets
  the CORS header. When `run` catches an exception it writes nothing and
  does not switch off Zuul's own routing (`Reply.Unanswered`).

Two behaviours of the code worth noting:

- The body written for a successful call is the whole `targetResult` object,
  not one field of it.
- A null reply never reaches the `NULL_OBJECT` fallback. `removeJsonType(null)`
  throws before the null check.

## Model

| member | source | states |
|---|---|---|
| `Strings.SplitAll` | src/main/java/com/bestv/supergate/filter/AbstractFilter.java:483 | the pieces between separators, joined back with the separator, give the input string |
| `Strings.DropTrailingEmpty` | src/main/java/com/bestv/supergate/filter/AbstractFilter.java:483 | the result is a prefix of the pieces, ends in a non-empty piece, and only empty pieces were dropped (Java's `split` with limit 0) |
| `Strings.SplitFacts` | src/main/java/com/bestv/supergate/filter/AbstractFilter.java:483-492 | `split` keeps a prefix of all the pieces, drops only empty pieces and only after a separator occurred, ends in a non-empty piece when it dropped any, and gives the whole string as its only piece when the separator does not occur |
| `Strings.BlankFacts` | src/main/java/com/bestv/supergate/filter/AbstractFilter.java:487 | a string is blank exactly when every character in it is whitespace; the empty string is blank, and adding whitespace keeps a string blank |
| `Strings.SortedKeys` | src/main/java/com/bestv/supergate/filter/AbstractFilter.java:313-314 | the sorted key list has one entry per key, exactly the keys of the set, in strictly ascending `compareTo` order |
| `Strings.SortedKeysUnique` | src/main/java/com/bestv/supergate/filter/AbstractFilter.java:313-314 | any strictly ascending listing of exactly the set's keys is the sorted key list, so the sort has one possible outcome |
| `Strings.Least` | src/main/java/com/bestv/supergate/filter/AbstractFilter.java:314 | a non-empty key set has a key that is not after any other key |
| `Schema.BufferAppend` | src/main/java/com/bestv/supergate/filter/AbstractFilter.java:400-441 | appending one record to the buffer of earlier records gives the buffer of all records in call order |
| `Schema.RecordLayout` | src/main/java/com/bestv/supergate/filter/AbstractFilter.java:400-408 | a record has the length of its two parts plus six, opens and closes with `★☆`, and holds the path right after the first marker and the value right before the last |
| `Schema.BufferFacts` | src/main/java/com/bestv/supergate/filter/AbstractFilter.java:400-441 | a buffer is empty exactly when no record was appended, and every record adds at least its three markers |
| `Schema.ParseFragmentsFacts` | src/main/java/com/bestv/supergate/filter/AbstractFilter.java:485-517 | at most one binding per fragment; the loops reach the end exactly when every non-blank fragment has a second piece; fragments that are all blank give no bindings |
| `Schema.ParseBufferFacts` | src/main/java/com/bestv/supergate/filter/AbstractFilter.java:482-518 | at most one binding per fragment of the buffer; complete exactly when every non-blank fragment splits into two pieces; a blank buffer, the empty one included, gives no records and is complete |
| `Schema.RoundTrip` | src/main/java/com/bestv/supergate/filter/AbstractFilter.java:482-518 | for records whose parts contain no marker character and whose values are not empty, splitting on the first marker, skipping blanks and splitting on the second gives back every (path, value) pair in append order, with no malformed fragment |
| `Schema.ValueStartingWithStarIsMisread` | src/main/java/com/bestv/supergate/filter/AbstractFilter.java:483-494 | the value "☆x" holds neither marker string, yet the buffer holding it fails to parse at its first fragment |
| `Schema.EmptyValueIsMisread` | src/main/java/com/bestv/supergate/filter/AbstractFilter.java:492-494 | a record with an empty value fails to parse: its fragment splits into one piece only |
| `Schema.DecodeGenKey` | src/main/java/com/bestv/supergate/filter/AbstractFilter.java:533-560 | the cache key of a well-formed schema reads back as the interface/method piece and the record bodies of each buffer |
| `Schema.GenKeyInjective` | src/main/java/com/bestv/supergate/filter/AbstractFilter.java:533-560 | two well-formed schemas with the same cache key have the same interface, method, class-info records and parameter links |
| `Schema.GenKeyLayout` | src/main/java/com/bestv/supergate/filter/AbstractFilter.java:533-560 | the key has the length of its four parts plus fourteen, starts with the interface/method record, and holds the interface, the method and each buffer at fixed places between the markers |
| `ArgumentTree.IndexOf` | src/main/java/com/bestv/supergate/filter/AbstractFilter.java:385 | a found index holds a node with the path; when none is found, no node has the path |
| `ArgumentTree.GetNode` | src/main/java/com/bestv/supergate/filter/AbstractFilter.java:385 | a node found at a path has that path and is in the tree; none is found exactly when no node has the path |
| `ArgumentTree.AddNode` | src/main/java/com/bestv/supergate/filter/AbstractFilter.java:390 | paths stay unique, the node is found at its path afterwards, the head value is kept, and every other path keeps its node |
| `ArgumentTree.GetAddAll` | src/main/java/com/bestv/supergate/filter/AbstractFilter.java:495-517 | after adding nodes in order, the node at a path is the last one added there, or the original one when none was added there |
| `ArgumentTree.SetArray` | src/main/java/com/bestv/supergate/filter/AbstractFilter.java:383-393 | afterwards a node exists at the path and is marked as an array: the node that was there with only its array flag set, or a new valueless array node; every other path keeps its node, paths stay unique and the head value is kept |
| `Template.CompileTree` | src/main/java/com/bestv/supergate/filter/AbstractFilter.java:470-518 | the tree built on a miss keeps node paths unique |
| `Template.CompileTreeOfSchema` | src/main/java/com/bestv/supergate/filter/AbstractFilter.java:470-518 | on a well-formed schema every record is read, the head value is the RpcRequest class name, and every path holds the expected node: an array node `args`, fixed `serviceInterface` and `methodName` nodes, the last class-info record as a fixed node `args.path`, and the last parameter link as a formatted node `args.path` valued by its parameter key; a parameter link overrides a class-info record at the same path |
| `Template.BaseTreeNodes` | src/main/java/com/bestv/supergate/filter/AbstractFilter.java:470-479 | before any record the tree holds exactly the `args` array node and the two fixed nodes |
| `Template.NoRecordAtFixedPath` | src/main/java/com/bestv/supergate/filter/AbstractFilter.java:495 | no record's node lands on `args`, `serviceInterface` or `methodName` |
| `Json.GetBoolean` | src/main/java/com/bestv/supergate/filter/AbstractFilter.java:172-183 | a missing key, null, an array or an object reads as nothing (the unboxing or the cast throws); a boolean reads as itself; a number reads as true exactly when its low 32 bits are 1; a string reads as `castToBoolean` converts it |
| `Json.StringToBoolean` | src/main/java/com/bestv/supergate/filter/AbstractFilter.java:172-183 | a string converts only when it has one to five characters; "1" and "T" are true, "0" and "N" are false |
| `Json.StringToBooleanTrue` | src/main/java/com/bestv/supergate/filter/AbstractFilter.java:172-183 | "true", "TRUE", "True", "1", "y" and "Y" convert to true |
| `Json.StringToBooleanFalse` | src/main/java/com/bestv/supergate/filter/AbstractFilter.java:172-183 | "false", "FALSE", "falſe" (the long s matches an s), "0", "f" and "F" convert to false |
| `Json.StringToBooleanNone` | src/main/java/com/bestv/supergate/filter/AbstractFilter.java:172-183 | the empty string and "null" read as null, and "Null", lower-case "t" and "n", and "yes" are refused |
| `Json.GetObject` | src/main/java/com/bestv/supergate/filter/AbstractFilter.java:176 | an object is read exactly when the key holds one, and it is that object |
| `TypeTags.RemoveJsonType` | src/main/java/com/bestv/supergate/filter/AbstractFilter.java:251-276 | the edited object is `Strip` of the input: `@type` and every entry holding a bare type tag are gone, every other object entry is stripped recursively, arrays and other values are untouched |
| `TypeTags.Strip` | src/main/java/com/bestv/supergate/filter/AbstractFilter.java:251-276 | no `@type` entry remains; every remaining key was in the input and did not hold a bare type tag; every other entry that is not an object is kept as is, and every other object entry is kept as an object |
| `TypeTags.RemoveAll` | src/main/java/com/bestv/supergate/filter/AbstractFilter.java:270-273 | exactly the listed keys are removed, and the remaining entries are unchanged |
| `TypeTags.StripIsTagFree` | src/main/java/com/bestv/supergate/filter/AbstractFilter.java:251-276 | no `@type` entry is left in the object or in any object reached through object entries |
| `TypeTags.StripTagFreeIsIdentity` | src/main/java/com/bestv/supergate/filter/AbstractFilter.java:251-276 | an object without type tags is left unchanged |
| `TypeTags.StripIdempotent` | src/main/java/com/bestv/supergate/filter/AbstractFilter.java:251-276 | removing type tags twice is the same as removing them once |
| `Reply.RequestServiceCode` | src/main/java/com/bestv/supergate/filter/AbstractFilter.java:350-353 | the service code is the URI minus its first character; an empty URI has none (`substring(1)` throws) |
| `Reply.IsServiceCodeMatch` | src/main/java/com/bestv/supergate/filter/AbstractFilter.java:232-235 | an unset service code matches nothing; a set one matches exactly an equal request code |
| `Reply.ClearStackTraces` | src/main/java/com/bestv/supergate/filter/AbstractFilter.java:183-191 | succeeds exactly when `errorContext` is an object whose `errorInfos` is a list of objects; then `errorContext` keeps its keys and every entry but `errorInfos`, the list keeps its length, each ErrorInfo keeps its fields but the stack trace, the reply keeps its keys and every entry other than `errorContext` |
| `Reply.ClearStackTracesKeepsTagFree` | src/main/java/com/bestv/supergate/filter/AbstractFilter.java:183-191 | clearing stack traces keeps an object free of type tags |
| `Reply.Run` | src/main/java/com/bestv/supergate/filter/AbstractFilter.java:156-214 | `run` faults exactly on an empty URI, otherwise handles the request exactly when the URI minus its first character is the service code, and a handled request gets the answer the reply directs |
| `Reply.AnswerFor` | src/main/java/com/bestv/supergate/filter/AbstractFilter.java:160-214 | an exception from `getResponse` or a null reply writes nothing; a failure text is always the fixed message; a body is always HTML-typed |
| `Reply.FailureTextWhenOuterFalse` | src/main/java/com/bestv/supergate/filter/AbstractFilter.java:172-200 | the fixed failure text is written exactly when a reply came back and its stripped `success` reads false |
| `Reply.BodyIsTargetResult` | src/main/java/com/bestv/supergate/filter/AbstractFilter.java:162-206 | a body is written only for a reply whose stripped `success` is true and which has a `targetResult`; the body is that targetResult, kept as is when its own `success` is true and with its stack traces cleared when it is false; it is HTML-typed and holds no type tag |
| `Reply.SuccessfulReplyAnswered` | src/main/java/com/bestv/supergate/filter/AbstractFilter.java:172-206 | a successful reply whose targetResult is itself successful is answered with that targetResult |
| `Reply.FailedResultAnswered` | src/main/java/com/bestv/supergate/filter/AbstractFilter.java:172-206 | a successful reply whose targetResult reports failure is answered with that targetResult with every stack trace cleared when its error context is well formed, and with nothing when the clearing throws |
| `Parameters.GetParameterKeys` | src/main/java/com/bestv/supergate/filter/AbstractFilter.java:308-322 | one entry per map entry; the i-th is the value under the i-th key in ascending key order |
| `Parameters.RenderParameter` | src/main/java/com/bestv/supergate/filter/AbstractFilter.java:290-298 | an absent value is the word null and only it is; a present value is itself between two double quotes |
| `Parameters.GetParameter` | src/main/java/com/bestv/supergate/filter/AbstractFilter.java:373-376 | a parameter is found exactly when the request has the key, and it is the request's value |
| `Parameters.UnrenderRender` | src/main/java/com/bestv/supergate/filter/AbstractFilter.java:288-298 | a rendered argument reads back as the value it came from, present or absent |
| `Parameters.RenderParameterInjective` | src/main/java/com/bestv/supergate/filter/AbstractFilter.java:288-298 | distinct parameter values, present or absent, give distinct arguments |
| `Parameters.GetParameterByKeys` | src/main/java/com/bestv/supergate/filter/AbstractFilter.java:283-301 | one argument per key, in key order, each reading back as the request parameter of its key or as absent |
| `Filter.AbstractFilter.constructor` | src/main/java/com/bestv/supergate/filter/AbstractFilter.java:99-102 | both buffers start empty; every other field starts null |
| `Filter.GenCache.constructor` | src/main/java/com/bestv/supergate/filter/AbstractFilter.java:85 | the shared template cache starts empty |
| `Filter.IsHit` | src/main/java/com/bestv/supergate/filter/AbstractFilter.java:460-463 | a cache hit has an entry under the key and a non-empty template |
| `Filter.AbstractFilter.SetServiceCode` | src/main/java/com/bestv/supergate/filter/AbstractFilter.java:585-587 | sets the service code and changes nothing else |
| `Filter.AbstractFilter.SetAppName` | src/main/java/com/bestv/supergate/filter/AbstractFilter.java:592-594 | sets the application name and changes nothing else |
| `Filter.AbstractFilter.SetServiceInterface` | src/main/java/com/bestv/supergate/filter/AbstractFilter.java:423-426 | sets the interface name and changes nothing else |
| `Filter.AbstractFilter.SetMethodName` | src/main/java/com/bestv/supergate/filter/AbstractFilter.java:414-417 | sets the method name and changes nothing else |
| `Filter.AbstractFilter.SetClassInfo` | src/main/java/com/bestv/supergate/filter/AbstractFilter.java:400-408 | appends exactly `★☆path☆★className★☆` to the class-info buffer, records the call, and changes nothing else |
| `Filter.AbstractFilter.LinkParameter` | src/main/java/com/bestv/supergate/filter/AbstractFilter.java:433-441 | appends exactly `★☆path☆★parameterKey★☆` to the parameter buffer, records the call, and changes nothing else |
| `Filter.AbstractFilter.SetArrayNode` | src/main/java/com/bestv/supergate/filter/AbstractFilter.java:383-393 | the tree then has an array node at the path, and every other path keeps its node |
| `Filter.AbstractFilter.AddFixedNode` | src/main/java/com/bestv/supergate/filter/AbstractFilter.java:573-580 | the tree then holds an unformatted node with the value at the path, and every other path keeps its node |
| `Filter.ReadRecords` | src/main/java/com/bestv/supergate/filter/AbstractFilter.java:482-518 | the record loop adds the node of every binding the buffer parses to, in order, and reports whether it reached the end without a malformed fragment |
| `Filter.AbstractFilter.AddRecords` | src/main/java/com/bestv/supergate/filter/AbstractFilter.java:482-518 | the filter's tree gains the parsed records' nodes; the schema fields are unchanged |
| `Filter.AbstractFilter.BuildGen` | src/main/java/com/bestv/supergate/filter/AbstractFilter.java:447-527 | blank interface, then blank method name, fail with their messages before the cache is read. A hit returns the cached template and leaves the tree, the map and the cache as they were. A miss builds the tree `CompileTree` describes; it renders the tree, stores the template under `GenKey` and returns it, or fails on a malformed record and stores nothing. The schema is never changed |
| `Filter.AbstractFilter.GetResponseArguments` | src/main/java/com/bestv/supergate/filter/AbstractFilter.java:237-245 | a blank interface, then a blank method name, fail with their messages and change neither the cache, the tree nor the map; otherwise the cache, tree and map end as `buildGen` leaves them on a hit, a complete miss or a malformed miss. It succeeds exactly when a handler is present and, on a hit, the instance already has an argument map, or, on a miss, every record is well formed; then the argument map is the old one on a hit and the rendered one on a miss, and the arguments are the request parameters for its values in sorted key order, quoted. Once a template is built, a present handler holds it (the cached one on a hit, the rendered one on a miss), even when the argument map then turns out null; the handler's maps are untouched |
| `Filter.AbstractFilter.WaitRouterServer` | src/main/java/com/bestv/supergate/filter/AbstractFilter.java:135-151 | succeeds exactly when a router is registered, before or during the wait, and then copies it into the filter; otherwise fails with the router message |
| `Filter.AbstractFilter.LoadHandlerByAppName` | src/main/java/com/bestv/supergate/filter/AbstractFilter.java:112-129 | with `seen` the router registered before the call or set during the wait: loading succeeds iff `seen` is present and the application name is non-null; the registry and the filter both end with router `seen` when it is present; a null name then throws in the lookup; with no router it fails and registers nothing. After a success the filter's handler is the one registered for its application: the existing one if any, otherwise a fresh handler built from the application, interface and the registry's router, with empty maps, no template and no released channel, registered under the name |
| `Filter.LoadHandlerTwice` | src/main/java/com/bestv/supergate/filter/AbstractFilter.java:112-129 | once one filter has loaded its handler, a second filter of the same application loads too and gets the same handler and router, leaving the registry unchanged |
| `Filter.BuildGenTwice` | src/main/java/com/bestv/supergate/filter/AbstractFilter.java:459-526 | an unchanged schema gives the same template on a second call whenever the first succeeded; when the first template is non-blank the second call is a cache hit and leaves the tree, the argument map and the cache as the first call left them |
| `Filter.SecondInstanceHitsCache` | src/main/java/com/bestv/supergate/filter/AbstractFilter.java:237-245 | a second instance with the same schema, built after the first one cached its template, fails in `getResponse` with a null pointer |
| `Sender.RequestSenderHandler.constructor` | src/main/java/com/bestv/supergate/util/RequestSenderHandler.java:68-86 | a new handler keeps its application, interface and router, and starts with both maps empty |
| `Sender.RequestSenderHandler.SetRequestGen` | src/main/java/com/bestv/supergate/util/RequestSenderHandler.java:245-247 | sets the template and leaves both maps alone |
| `Sender.RequestSenderHandler.ReleaseConnection` | src/main/java/com/bestv/supergate/util/RequestSenderHandler.java:127-139 | true exactly when releasing the channel does not throw, and only then is the channel released |
| `Sender.Connect` | src/main/java/com/bestv/supergate/util/RequestSenderHandler.java:144-155 | an unsuccessful attempt fails naming the host and port; a successful one yields the channel |
| `Sender.RequestSenderHandler.Register` | src/main/java/com/bestv/supergate/util/RequestSenderHandler.java:163-170 | the message carries the fresh trace id; registration fails exactly when the id is already registered, and otherwise adds exactly that one entry; the result map is untouched |
| `Sender.RequestSenderHandler.AwaitResult` | src/main/java/com/bestv/supergate/util/RequestSenderHandler.java:172-187 | with no result filed after the wait, the error is swallowed and the channel released; with one, nothing happens; the maps are untouched |
| `Sender.RequestSenderHandler.SendRequest` | src/main/java/com/bestv/supergate/util/RequestSenderHandler.java:161-188 | the stamped request is registered unless its id already is, and the connection is released when no result came in time; only a duplicate id fails |
| `Sender.RequestSenderHandler.FillRpcResult` | src/main/java/com/bestv/supergate/util/RequestSenderHandler.java:205-223 | fails for a missing or non-string trace id and for an id already filed; otherwise files exactly that entry; the request map is never changed; it reports whether the waiting request is registered |
| `Sender.RequestSenderHandler.ReceiveResponse` | src/main/java/com/bestv/supergate/util/RequestSenderHandler.java:193-199 | returns the result filed under the request's trace id, or none, and removes that id from both maps and nothing else; a missing id throws |
| `Sender.AnsweredCall` | src/main/java/com/bestv/supergate/util/RequestSenderHandler.java:161-223 | register, file the reply, wait, receive: the caller gets the reply and both maps are back as before |
| `Sender.TimedOutCall` | src/main/java/com/bestv/supergate/util/RequestSenderHandler.java:161-199 | with no reply the caller returns normally, the connection is released, the receive gives null, and both maps are back as before |
| `Frame.ReadLengthField` | src/main/java/com/bestv/supergate/util/RequestSenderHandler.java:306-308 | reading the 4-byte big-endian header back gives the length written |
| `Frame.HeaderDetermined` | src/main/java/com/bestv/supergate/util/RequestSenderHandler.java:306-308 | two headers carrying the same length are the same bytes |
| `Frame.Encode` | src/main/java/com/bestv/supergate/util/RequestSenderHandler.java:306 | a frame is the 4-byte header followed by the payload |
| `Frame.Decode` | src/main/java/com/bestv/supergate/util/RequestSenderHandler.java:308 | a decoded frame consumes at least one byte, fits the maximum frame length, and is exactly its header, its payload and the remaining bytes |
| `Frame.DecodeEncode` | src/main/java/com/bestv/supergate/util/RequestSenderHandler.java:306-308 | an encoded frame followed by anything decodes to its payload and leaves the rest |
| `Frame.DecodePrefix` | src/main/java/com/bestv/supergate/util/RequestSenderHandler.java:308 | any proper prefix of a frame makes the decoder wait for more bytes |
| `Frame.LongPayloadRejected` | src/main/java/com/bestv/supergate/util/RequestSenderHandler.java:306-308 | a payload whose length plus 4 exceeds `Integer.MAX_VALUE` is encoded, but the decoder rejects it as too long |
| `Frame.DecodeAllEncodeAll` | src/main/java/com/bestv/supergate/util/RequestSenderHandler.java:306-308 | messages written one after another on a channel are read back in order, with nothing left over |
| `Context.RpcRequestContext.constructor` | src/main/java/com/bestv/supergate/util/RpcRequestContext.java:17-20 | the registry starts with no handler and no router |
| `Context.RpcRequestContext.GetHandler` | src/main/java/com/bestv/supergate/util/RpcRequestContext.java:27-30 | a handler is found exactly for a name that was put, and it is the one put |
| `Context.RpcRequestContext.PutHandler` | src/main/java/com/bestv/supergate/util/RpcRequestContext.java:37-40 | the name then maps to the handler, replacing any earlier one, and every other name keeps its handler |
| `Context.RpcRequestContext.SetRouterServer` | src/main/java/com/bestv/supergate/util/RpcRequestContext.java:45-54 | the router read afterwards is the one set; the handlers are untouched |
| `Context.RegistryScenario` | src/main/java/com/bestv/supergate/util/RpcRequestContext.java:27-54 | a name never put has no handler, a second put for a name overwrites the first and leaves other names alone, and the router read is the last one set |

## Left out

- I/O is not modelled: writing to the servlet output stream, the response
  header and content type, and `setSendZuulResponse`. `run` returns an outcome
  value naming what would be written.
- Concurrency is modelled sequentially:
  - `wait`/`notify` and the `synchronized` blocks with their double checks;
  - the wait in `waitRouterServer`, which becomes the `setMeanwhile` input;
  - the three-second wait in `sendRequest`, after which the result map is whatever it is then.
- Sender.RequestSenderHandler.FillRpcResult: the busy-poll `while` loop that
  waits for the request to be registered is not modelled, because it only
  terminates through another thread. The method reports `waiterFound` instead
  and does not loop.
- fastjson's parsing, serialisation and `Feature` flags are not modelled.
  Replies are values of the `Json` datatype, with integer numbers.
- Json.GetBoolean: numbers are integers; the conversion of fractional
  numbers (`BigDecimal`) is not modelled. Case-insensitive matching covers
  the ASCII letters and the long s only, as `equalsIgnoreCase` does for these
  words.
- Json.GetObject: fastjson 1.2's `getJSONObject` and `getObject` parse a
  string value that holds JSON object text. The model reads every value that
  is not an object as no object.
- Reply.AnswerFor: the `ErrorContext`/`ErrorInfo` bean conversion is
  modelled on the JSON. Every ErrorInfo must be an object, and its
  `stackTraceElements` entry is removed. Other normalisation done by the bean
  round trip (dropping unknown fields, default values) is not modelled.
- `CommonUtil.nodeToJsonString` and the argument map it fills are not part of
  this model. They are the `render` input of `Filter.AbstractFilter.BuildGen`.
- The `Node` class internals are not part of this model. `needFormat` is
  `Literal` for fixed nodes and left as `DefaultFormat` otherwise. A new
  `Node()` is taken to start with no value and `isArray` false, so only
  `setArray` marks a node as an array.
- `buildRpcRequest` with `MessageFormat.format`, and the base class's
  `doAction`, are not part of this model. They choose the channel and order
  the send and receive. `Filter.AbstractFilter.GetResponseArguments` stops at
  the argument array handed to `doAction`.
- `UUID.randomUUID` is the `freshId` input.
- The Netty bootstrap, `writeAndFlush`, `channel.close`, the reflective
  remote-address lookup, and the `channelRead`/`exceptionCaught` callbacks are
  not modelled. Channels and routers are opaque tokens.
- The discard mode of `LengthFieldBasedFrameDecoder` after a too-long frame is
  not modelled: `Frame.Decode` reports `TooLong` and stops.
- TypeTags.RemoveJsonType: the method returns the edited object instead
  of editing it in place. Aliasing between the reply and its children is not
  modelled, and keys are visited in an unspecified order.
- Strings.SortedKeys: strings are ordered by Unicode code point, where
  `String.compareTo` compares UTF-16 code units. The two orders differ only
  when a character outside the Basic Multilingual Plane is compared with one
  in U+E000-U+FFFF.
- `loadEnvironment` is abstract in the source. A subclass's calls to it are
  written out as calls to the setters.
- `SuperGate` start-up and `ServiceConfig` are not part of this model.
