# mion: verified model

A Dafny 4.11 model of the parts of the mion RPC framework that keep state, move bytes or decide what runs, with
proofs of what each part promises. `dafny verify dfyconfig.toml` checks everything.

| file | models |
|---|---|
| `Basics.dfy` | options, results, duplicate-free sequences, UTF-16 strings |
| `SizeStats.dfy` | per-method size statistics: a ring and its sorted mirror, kept equal in place |
| `BufferPool.dfy` | size classes, free lists, leases |
| `TextEncoding.dfy`, `DataView.dfy` | LEB128, UTF-8, the writers and the measure pass |
| `BodySerializer.dfy`, `BodyDeserializer.dfy` | the multi-method envelope, the choice of buffer, and reading it back |
| `Envelopes.dfy` | what an envelope carries, said of methods and bodies alone |
| `BinaryRuns.dfy` | many envelopes through one lane: what is learnt, and how long a result can be read |
| `RouteTree.dfy` | route trees flattened to one execution chain per path |
| `ChainOrder.dfy` | which trees register and what a registered route runs, said of the places of the tree |
| `RoutesFlow.dfy` | merging chains, weaving mapping steps in, the cache of merged chains |
| `FlowRequests.dfy` | what a flow request gets, said of request and router |
| `Context.dfy`, `Dispatch.dfy` | call contexts and the execution loop with its error rule |
| `TurnOutcomes.dfy` | what a turn does, said of what was sent, returned and thrown |
| `FlowRun.dfy`, `FanOut.dfy` | runs of merged chains: what a target route finds in its parameters |
| `ContextPool.dfy` | context reuse over any interleaving of calls |
| `ServedCalls.dfy` | which chain a call gets, from the route tree to the answer |
| `Graphs.dfy`, `RemoteMethods.dfy`, `ClientRoutes.dfy` | dependency closures over cyclic graphs |
| `MetadataAnswers.dfy` | what a metadata request is answered, said of the registered methods |
| `ClientResult.dfy`, `ClientCall.dfy` | a client call: sub-requests filed, a response sorted into the result's five slots |
| `ErrorOrder.dfy`, `ErrorRuns.dfy` | whether the client's fatal error is the first error of the server's run |
| `Base64Url.dfy`, `QueryBody.dfy` | the codec of query bodies |

Code that updates objects is modelled by classes and loops, each method proved against a function of the old
state; what the source promises is then proved about those functions. Application code is a parameter: handlers,
validators, decoders and encoders are arbitrary functions of everything they could see, so a statement about them
holds for every handler there is. A handler may also report errors on the way, as the response serializer does.

## What the code does differently from its comments

- `dataView.ts:91` says the byte count matches the encoder exactly. It does not for a lone high surrogate followed
  by a wider unit, or at the end of the string: `DataView.CountIsExactIff` has the exact condition.
- `bodySerializer.ts:176` says any serialization error is thrown as a protocol error. The measure pass runs outside the
  handler that converts, so an encoder that throws there reaches the caller unwrapped:
  `BodySerializer.SurfacesAsRpcErrorIff` says when, `BodySerializer.ColdEncoderExceptionEscapes` is an instance.
- A middleFn of a tree that is named like a start or end middleFn registers, but the start or end one runs in its
  place: `RouteTree.TreeIsServedAsWrittenIff`, `RouteTree.StartMiddleFnShadowsTheTree`.
- `routesFlow.ts:184` says a mapping step stands before its target. It does exactly when the source is listed before
  the target: `RoutesFlow.StepPrecedesTargetIff`, `RoutesFlow.BackwardMappingRunsLate`.
- A mapping step is cached under an id without `paramIndex`; two parameters of one target fed by one source and
  mapper share one step. Nor does the id say where the source ends and the mapper begins:
  `RoutesFlow.StepsRunWhatWasAskedIff`, `RoutesFlow.StepIdForgetsTheParameter`, `FlowRequests.StepIdsCollide`.
- `routesFlow.ts:246` says the route index of a merged chain is where the first route is. Each mapping fed by a method
  in front of the route moves the route one place on, each method in front of it that is merged away moves it one place
  back; the index is right exactly when the two numbers are equal: `RoutesFlow.RouteIndexNamesFirstRouteIff`, and
  `RoutesFlow.FedMiddleFnShiftsTheRoute` and `RoutesFlow.RepeatedStartMiddleFnShiftsTheRoute` for one of each.
- The cache of merged chains is keyed by the query alone, although the path transform may read the request:
  `RoutesFlow.ServedIsRebuiltIff`, `RoutesFlow.CacheKeyForgetsTheRequest`.
- `strictTypes` is only reached after a type check; with a no-op type check unknown keys pass:
  `Dispatch.StrictTypesHoldsIff`, `Dispatch.NoTypeCheckLetsUnknownKeysThrough`. Whether a type with an unknown-key
  function can have a no-op type check is the compiler's affair (`packages/core/src/routerUtils.ts:193`); that it can is
  an assumption here.
- `routesFlow.ts:363-383`: a mapping whose target has no list of parameters is dropped without an error, and the target
  runs: `FlowRun.FlowDeliversIff`, `FlowRun.MappingWithoutParamsIsDropped`.
- `client.ts:195` says the first fatal error is the first in execution order, errors of middleFns that were not part of
  the request included. The order taken is that of the caller's record, restored middleFns after it, routes last, and
  only then come errors of methods that were not asked, thrown before returned:
  `ErrorOrder.FatalIsFirstInExecutionIff` has the exact condition on chain, participants and order. Runs that break it:
  `ErrorRuns.RecordOrderHidesTheFirstError`, `ErrorRuns.UnaskedErrorIsHidden`, `ErrorRuns.ReturnedErrorIsHidden`; and
  `ErrorOrder.SecondErrorIsTaken` for a chain that runs a method twice.
- `client.ts:138` says results and errors are never dropped. Sub-requests are filed under their ids, and only the last
  with an id gets the result; a record name that is the id of a restored middleFn loses its entry altogether:
  `ClientCall.EntryIsHeardIff` has the exact condition for a record entry, `ClientCall.AnsweredIffLast` for any
  sub-request. `ClientCall.RepeatedRouteIsLost`, `ClientCall.RepeatedEntryIsLost`,
  `ClientCall.EntryTakesTheRoutesResult` and `ClientResult.CollidingNameMakesDeclaredFatal` are the cases.
- An empty body in a query string is no body at all: `QueryBody.QueryBodyRoundTrip`.

## Model

| member | source | states |
|---|---|---|
| `SizeStats.LowerBound` | packages/core/src/binary/sizeStats.ts:109-119 | the index found is the first slot of the ascending prefix holding a value at least the one sought |
| `SizeStats.SortedInsert` | packages/core/src/binary/sizeStats.ts:121-126 | in place, the prefix stays ascending and gains exactly the inserted value |
| `SizeStats.SortedRemove` | packages/core/src/binary/sizeStats.ts:128-134 | in place, the prefix stays ascending and loses exactly one copy of the value |
| `SizeStats.AscendingIsUnique` | packages/core/src/binary/sizeStats.ts:30-41 | two ascending sequences with the same elements are equal, so "sorted and a permutation" fixes the mirror |
| `SizeStats.SortSorts` | packages/core/src/binary/sizeStats.ts:30-41 | the reference sort is ascending and a permutation of the window |
| `SizeStats.Remirror` | packages/core/src/binary/sizeStats.ts:90-93 | the mirror of a window becomes the sorted form of the window after one more observation, the oldest value leaving a full one |
| `SizeStats.RingShifts` | packages/core/src/binary/sizeStats.ts:91-95 | writing one slot of the ring and stepping its index drops the oldest observation and appends the new one |
| `SizeStats.SizeWindow.Observe` | packages/core/src/binary/sizeStats.ts:90-96 | ring and mirror keep describing the last ringSize observations: the ring in order, the mirror sorted |
| `SizeStats.SizeWindow.Quantile` | packages/core/src/binary/sizeStats.ts:140-145 | the value read off the mirror is the padded order statistic of the last ringSize observations |
| `SizeStats.SortedIndexIsOrderStatistic` | packages/core/src/binary/sizeStats.ts:140-145 | the element of rank r of the sorted window splits it into r values below or equal and the rest above or equal |
| `SizeStats.OrderStatisticIsUnique` | packages/core/src/binary/sizeStats.ts:140-145 | a multiset has one order statistic of each rank |
| `SizeStats.PredictionIsOrderStatistic` | packages/core/src/binary/sizeStats.ts:140-145 | a prediction is ceil(pad * v) for the v that is the order statistic of rank min(count-1, floor(quantile*count)) |
| `SizeStats.PredictionCoversWindow` | packages/core/src/binary/sizeStats.ts:140-145 | at quantile 1 with pad at least 1 the prediction is at least every observation of the window |
| `SizeStats.SizeTable.ObservationCount` | packages/core/src/binary/sizeStats.ts:71-73 | the count reported is the length of the key's window, zero for an untracked key |
| `SizeStats.SizeTable.PredictSize` | packages/core/src/binary/sizeStats.ts:140-145 | predicts from the window of the key, or from the padded fallback while it has no observation |
| `SizeStats.DropFirst` | packages/core/src/binary/sizeStats.ts:99-106 | removing the first keys one by one leaves the order and the table of the remaining keys |
| `SizeStats.SizeTable.EvictOldest` | packages/core/src/binary/sizeStats.ts:99-106 | exactly the oldest-inserted half (at least one) is dropped, every other key keeps its history |
| `SizeStats.SizeTable.StartRing` | packages/core/src/binary/sizeStats.ts:82-89 | the key gets an empty ring of the configured length, in its old place or last; all other rings are untouched |
| `SizeStats.SizeTable.RecordSize` | packages/core/src/binary/sizeStats.ts:76-96 | the whole table after one record equals the reference step: evict at the cap, restart a ring whose length changed, append the observation |
| `SizeStats.RunsStayWithinCap` | packages/core/src/binary/sizeStats.ts:76-106 | over any sequence of records the table holds at most maxKeys keys, each once, and always the newest |
| `SizeStats.RouteTableNeverEvicts` | packages/core/src/binary/sizeStats.ts:76-106 | while the keys come from a route table no larger than the cap, each key's history is every size ever recorded for it |
| `SizeStats.PredictsTheOrderStatistic` | packages/core/src/binary/sizeStats.ts:140-145 | the prediction is the least whole number not under pad times the order statistic, of rank floor(quantile * count) but not past the last, of as many of the latest sizes as the ring holds |
| `SizeStats.PredictsTheFallback` | packages/core/src/binary/sizeStats.ts:136-145 | for a key without sizes, the least whole number not under the padded fallback |
| `SizeStats.RecordingAppends` | packages/core/src/binary/sizeStats.ts:76-96 | a size of a tracked key is added to its history, and nothing else changes |
| `SizeStats.RecordingStartsAnew` | packages/core/src/binary/sizeStats.ts:76-106 | any other size starts its key's history anew; a table at its cap first loses the older half of its keys, at least one, and every key kept keeps its place and history |
| `BufferPool.SizeClassIsTight` | packages/core/src/binary/bufferPool.ts:114-119 | the class holds the request and the floor; above the floor it is the least power of two that does, under twice the request |
| `BufferPool.SizeClassIsFixedPoint` | packages/core/src/binary/bufferPool.ts:114-119 | a buffer made for a class maps to that class again |
| `BufferPool.BufferPool.Reconcile` | packages/core/src/binary/bufferPool.ts:75-83 | a change of the options that shape classes drops every listed buffer and the byte count, caps alone drop nothing |
| `BufferPool.BufferPool.IsEnabled` | packages/core/src/binary/bufferPool.ts:85-89 | reconciles first, then answers from the options in force |
| `BufferPool.BufferPool.MakeLease` | packages/core/src/binary/bufferPool.ts:150-160 | the buffer moves from nowhere into exactly one live lease |
| `BufferPool.BufferPool.Pop` | packages/core/src/binary/bufferPool.ts:139-143 | takes the newest buffer of a class off its list, the held bytes dropping by the class size |
| `BufferPool.BufferPool.AcquireBuffer` | packages/core/src/binary/bufferPool.ts:131-148 | the lease holds at least the bytes asked for; it is the newest free buffer of its class or a fresh one, direct above the ceiling, and on no free list; counters and lists change accordingly |
| `BufferPool.BufferPool.ReturnToPool` | packages/core/src/binary/bufferPool.ts:162-180 | the buffer is appended to its own class list exactly when it fits the options and both caps, otherwise counted as dropped or ignored |
| `BufferPool.BufferPool.Release` | packages/core/src/binary/bufferPool.ts:150-160 | a first release ends the lease and files the buffer; a repeated or unpooled release changes nothing at all |
| `BufferPool.BufferPool.LiveBuffersAreNotFree` | packages/core/src/binary/bufferPool.ts:131-180 | in every valid state no live lease's buffer waits on a free list |
| `BufferPool.HeldBytesPush` | packages/core/src/binary/bufferPool.ts:162-180 | filing a buffer adds its class size to the sum of key times list length |
| `BufferPool.HeldBytesPop` | packages/core/src/binary/bufferPool.ts:131-148 | lending a listed buffer takes its class size off that sum |
| `BufferPool.PushKeepsLists` | packages/core/src/binary/bufferPool.ts:162-180 | filing keeps every list free of duplicates, disjoint from the others, of its key's length and in a class that is a fixed point |
| `BufferPool.PopKeepsLists` | packages/core/src/binary/bufferPool.ts:131-148 | lending keeps the same and leaves the lent buffer unlisted |
| `BufferPool.FilesExactlyWhen` | packages/core/src/binary/bufferPool.ts:162-180 | a returned buffer is filed if and only if pooling is on, its length is the floor or a larger power of two within the range, and its list and the pool have room |
| `BufferPool.LentIsFiledAgain` | packages/core/src/binary/bufferPool.ts:162-180 | a buffer lent under the same options is filed again if and only if there is room |
| `TextEncoding.Leb128RoundTrip` | packages/core/src/binary/dataView.ts:82-90 | reading a LEB128 length gives the number back and consumes exactly its bytes, whatever follows |
| `TextEncoding.VarintLenExactIff` | packages/core/src/binary/dataView.ts:82-90 | the width table is exact if and only if n is below 2^35 |
| `TextEncoding.Utf8RoundTrip` | packages/core/src/binary/dataView.ts:91-106 | decoding the UTF-8 encoding (section 3 of RFC 3629) of any UTF-16 string gives it back with lone surrogates replaced |
| `TextEncoding.ScrubIsIdentityIff` | packages/core/src/binary/dataView.ts:91-106 | nothing is replaced if and only if the string is well formed |
| `TextEncoding.Leb128IsPositional` | packages/core/src/binary/dataView.ts:82-90 | the bytes are the number's seven-bit groups, least significant first, all but the last marked to go on |
| `TextEncoding.Utf8IsStandard` | packages/core/src/binary/dataView.ts:91-106 | character by character, the bytes have the marks and carry the code point bits that the table of section 3 of RFC 3629 lays out, pairs as in section 2 of RFC 2781 |
| `DataView.Utf8ByteLength` | packages/core/src/binary/dataView.ts:93-106 | the loop counts as the recursive reference does, every high surrogate taking the next unit with it |
| `DataView.CountDrift` | packages/core/src/binary/dataView.ts:93-106 | by how much the count is off on any string, from the lone high surrogates it contains |
| `DataView.CountIsExactIff` | packages/core/src/binary/dataView.ts:91-106 | the count equals the encoded length if and only if those faults are none, or one narrow one made up for by a dangling one |
| `DataView.WellFormedHasNoFaults` | packages/core/src/binary/dataView.ts:91-106 | a well-formed string has no such fault |
| `DataView.DanglingSurrogateIsMiscounted` | packages/core/src/binary/dataView.ts:91-106 | the input [0xD800] is counted as four bytes and encoded in three, against the comment that the count matches exactly |
| `DataView.CountableIsExact` | packages/core/src/binary/dataView.ts:108-115 | a fixed field, a length below 2^35 or a well-formed string below 2^35 bytes is measured at exactly the bytes written |
| `DataView.AllCountableIsExact` | packages/core/src/binary/dataView.ts:108-126 | the same for any list of such writes |
| `DataView.WritesAreStandard` | packages/core/src/binary/dataView.ts:28-126 | a fixed field is its bytes, a length its seven-bit groups, a text its encoded length and then its UTF-8 |
| `DataView.Uint32RoundTrip` | packages/core/src/binary/bodySerializer.ts:257-288 | the four-byte little-endian count reads back, whatever follows it |
| `DataView.Serializer.EnsureCapacity` | packages/core/src/binary/dataView.ts:28-45 | a growing buffer becomes long enough and keeps what was written |
| `DataView.Serializer.Emit` | packages/core/src/binary/dataView.ts:28-126 | one write advances the cursor by the bytes written or counted; on a borrowed buffer bytes past the end are dropped or throw |
| `DataView.Serializer.EmitAll` | packages/core/src/binary/dataView.ts:28-126 | all writes in order: the buffer up to the cursor holds exactly their bytes as far as it reaches |
| `DataView.Serializer.PatchUint32` | packages/core/src/binary/bodySerializer.ts:285-287 | back-patching replaces exactly the four header bytes |
| `BodySerializer.WriteEntry` | packages/core/src/binary/bodySerializer.ts:272-284 | one method adds its key and value bytes exactly when it will be serialized, and records their size when asked to |
| `BodySerializer.WriteEnvelope` | packages/core/src/binary/bodySerializer.ts:257-288 | on success the buffer up to the cursor is the reference envelope and the statistics have one observation per written method; it fails when an encoder throws, or on a short borrowed buffer, and then the statistics hold the observations of a first part of the chain |
| `BodySerializer.MeasureEnvelope` | packages/core/src/binary/bodySerializer.ts:164-168 | the measure pass returns the measured size, touches no statistics and fails with the first encoder's own exception |
| `BodySerializer.MeasurePassIsExact` | packages/core/src/binary/bodySerializer.ts:164-168 | on countable writes the measured size equals the length of the envelope the real encoder writes |
| `BodySerializer.PredictEnvelope` | packages/core/src/binary/bodySerializer.ts:130-150 | one pass over the chain gives the padded worst case, the typical case and whether every written method is warm |
| `BodySerializer.WarmWindowsCover` | packages/core/src/binary/bodySerializer.ts:130-161 | the header plus the padded sums cover the envelope when no entry outgrows the largest size in its own window |
| `BodySerializer.BinaryLane.PlanBuffer` | packages/core/src/binary/bodySerializer.ts:130-161 | the plan is predicted exactly when warm and typical and worst share a size class, otherwise measured |
| `BodySerializer.BinaryLane.WriteOnLease` | packages/core/src/binary/bodySerializer.ts:221-237 | the single check at the end decides: the attempt fits when no encoder throws and the envelope is no longer than the buffer |
| `BodySerializer.BinaryLane.SerializePooled` | packages/core/src/binary/bodySerializer.ts:214-240 | success shows the reference envelope on the leased buffer, which nobody else holds; a failed attempt returns its lease once, leaving the live leases as before and the observations of a first part of the chain |
| `BodySerializer.BinaryLane.SerializeAdaptive` | packages/core/src/binary/bodySerializer.ts:197-207 | the growing buffer yields the envelope unless an encoder throws, whose exception is wrapped |
| `BodySerializer.BinaryLane.AttemptPooled` | packages/core/src/binary/bodySerializer.ts:184-195 | the pooled half: an error exactly when the measure pass runs and an encoder throws, nothing when pooling is off or did not fit, else the envelope |
| `BodySerializer.BinaryLane.SerializeBinaryBody` | packages/core/src/binary/bodySerializer.ts:178-207 | whichever lane ran, the bytes are those of the growing-buffer encode; success is exactly "no encoder throws", and the error is the one Surfaced says; what is returned is new and shares nothing with what is pooled; other live leases' buffers are untouched; no retry when the asked-for size suffices; the statistics gain the whole chain, after part of it when there was a retry, and on an error at most a first part of it |
| `BodySerializer.PooledSizeSuffices` | packages/core/src/binary/bodySerializer.ts:130-161 | a measured plan on countable writes, or a predicted one with entries inside their windows, is never too small |
| `BodySerializer.SurfacesAsRpcErrorIff` | packages/core/src/binary/bodySerializer.ts:164-207 | when an encoder throws, the caller gets a protocol error if and only if the measure pass does not fail with it or the encoder threw one itself |
| `BodySerializer.ColdEncoderExceptionEscapes` | packages/core/src/binary/bodySerializer.ts:164-168 | with pooling on and a method not yet warm, an exception of its encoder surfaces as it is, against the comment at line 176 |
| `BodySerializer.BinaryBodyResult.Release` | packages/core/src/binary/bodySerializer.ts:243-254 | the first release gives the lease back, later ones change nothing |
| `BinaryRuns.RecordedEntriesAreInWindow` | packages/core/src/binary/sizeStats.ts:76-106 | after a full recording into a table with room, every entry is within its own method's window |
| `BinaryRuns.NextRequestIsSized` | packages/core/src/binary/bodySerializer.ts:190-194 | after a delivered envelope, retried or not, the pooled lane asks for enough for the same payload, whenever it predicts or counts countable writes |
| `BinaryRuns.EncodeApart` | packages/core/src/binary/bodySerializer.ts:178-254 | one more encode leaves every result not yet released as it is, and the new one shares no buffer with them |
| `BinaryRuns.ReleaseOne` | packages/core/src/binary/bodySerializer.ts:243-254 | releasing one result leaves the others as they are |
| `BinaryRuns.RunLane` | packages/core/src/binary/bodySerializer.ts:178-254 | over any schedule of encodes and releases through one lane, every result not yet released still shows exactly the envelope it was made for |
| `BodyDeserializer.DeserializeBinaryBody` | packages/core/src/binary/bodyDeserializer.ts:13-65 | the index-advancing loop computes the recursive reading of the buffer, its errors included |
| `BodyDeserializer.StringRoundTrip` | packages/core/src/binary/bodyDeserializer.ts:30-45 | a well-formed key reads back and exactly its bytes are consumed |
| `BodyDeserializer.DeliveredIsWrittenPart` | packages/core/src/binary/bodySerializer.ts:322-332 | the carried record has exactly the ids of the chain that will be serialized, each with its body value |
| `BodyDeserializer.EnvelopeRoundTrip` | packages/core/src/binary/bodyDeserializer.ts:13-86 | reading a written envelope gives exactly that record, and the back-patched count is the number of entries |
| `Envelopes.RequestIgnoresReturns` | packages/core/src/binary/bodySerializer.ts:322-332 | a request's bytes and failures do not depend on return data or return codecs |
| `Envelopes.ResponseIgnoresParams` | packages/core/src/binary/bodySerializer.ts:322-332 | a response's do not depend on params codecs |
| `Envelopes.SilentInRequests` | packages/core/src/binary/bodySerializer.ts:322-332 | a method without params in the body, without a working params encoder or named @thrownErrors can be left out of a request |
| `Envelopes.SilentInResponses` | packages/core/src/binary/bodySerializer.ts:322-332 | likewise in a response, and so can a method without return data |
| `Envelopes.RequestArrives` | packages/core/src/binary/bodySerializer.ts:322-332 | reading a request gives back exactly the values of the methods with params in the body, a working params encoder and another id than @thrownErrors |
| `Envelopes.ResponseArrives` | packages/core/src/binary/bodySerializer.ts:322-332 | reading a response gives back exactly the results of the methods that return data, have one in the body, and a working result encoder |
| `Envelopes.FailsWithTheFirst` | packages/core/src/binary/bodySerializer.ts:257-288 | an envelope fails with the exception of the first method whose encoder is run and throws, and only then |
| `Envelopes.WrappedErrorNamesTheSide` | packages/core/src/binary/bodySerializer.ts:290-298 | outside the pool an encoder's exception becomes a protocol error that names request or response, unless it is one |
| `Envelopes.HeaderIsLittleEndian` | packages/core/src/binary/bodySerializer.ts:257-288 | the four bytes in front are the number of entries, least significant byte first |
| `Envelopes.EntryIsAppended` | packages/core/src/binary/bodySerializer.ts:305-320 | a method that travels appends the length of its id, the id and what its encoder writes, and is counted |
| `Envelopes.NothingOnTheWire` | packages/core/src/binary/bodySerializer.ts:257-288 | an empty chain is four zero bytes |
| `Envelopes.ReadingStopsAt` | packages/core/src/binary/bodyDeserializer.ts:30-86 | a reader gives up at the first entry it cannot read, for the reason there: unknown id, no decoder for this side, or a decoder that refuses |
| `RouteTree.RoutePathIsInjective` | packages/core/src/routerUtils.ts:248-260 | under fixed options a path determines the id it was built from |
| `RouteTree.BetweenRoutesAgree` | packages/router/src/router.ts:340-360 | reusing the previous entry's lists between two routes equals recomputing them |
| `RouteTree.Router.LevelMiddles` | packages/router/src/router.ts:345-356 | the lists are the level's middleFns before and after the entry, each replaced by a method already cached under its id |
| `RouteTree.Router.RecursiveCreateExecutionChain` | packages/router/src/router.ts:329-400 | one entry files its own chains, over the methods really used, and hands on the right property lists, shortcut or not |
| `RouteTree.Router.RecursiveFlatRoutes` | packages/router/src/router.ts:251-327 | a level succeeds exactly when it registers, and then files the flattened chains of all its leaves over the methods really used |
| `RouteTree.Router.GetExecutablesFromMiddleFnsCollection` | packages/router/src/router.ts:570-584 | a collection is fetched exactly when all its entries are middleFns; each is the cached method of its id or is made and cached |
| `RouteTree.Router.RegisterRoutes` | packages/router/src/router.ts:162-173 | registration succeeds if and only if the start and end collections hold middleFns and depth, names, shapes and id uniqueness hold; then start and end methods are cached first, the names grow by the tree's, and the flat router gains exactly the flattened tree over the methods cached beforehand; the cache invariant is kept, so the next tree can be registered |
| `RouteTree.FlattenCoversLeaves` | packages/router/src/router.ts:251-400 | every leaf's path and chain (start, pre outermost first, route, post innermost first, end) is among the flattened ones |
| `RouteTree.FlattenHoldsOnlyLeaves` | packages/router/src/router.ts:251-400 | every flattened chain belongs to a leaf |
| `RouteTree.RouteIndexNamesTheRoute` | packages/router/src/router.ts:371-375 | methods[routeIndex] is the route |
| `RouteTree.EveryLeafIsServed` | packages/router/src/router.ts:251-400 | after registration each leaf's path holds its own chain over the methods used, and its index names the route |
| `RouteTree.NothingElseIsServed` | packages/router/src/router.ts:251-400 | every other path was in the router before |
| `RouteTree.DistinctPaths` | packages/router/src/router.ts:292-297 | distinct route ids give distinct paths, so no chain overwrites another |
| `RouteTree.DistinctIdsAgree` | packages/router/src/router.ts:411-456 | when no id of a tree repeats, its methods by slot and id are one per item |
| `RouteTree.CollectionSettles` | packages/router/src/router.ts:411-456 | what fetching a collection returns is what the cache holds for it afterwards |
| `RouteTree.TreeIsServedAsWrittenIff` | packages/router/src/router.ts:411-456 | the router holds the flattened tree as written if and only if no method of its chains was cached differently before |
| `RouteTree.RegisteredTreeIsServedAsWritten` | packages/router/src/router.ts:162-173 | that is so for every tree that registers and whose middleFns are named like no start or end one, however many trees came before |
| `RouteTree.StartMiddleFnShadowsTheTree` | packages/router/src/router.ts:164-165 | a tree item named like a start middleFn registers, and every chain runs the start one twice and the item never |
| `ChainOrder.IdIsSlashed` | packages/core/src/routerUtils.ts:244-246 | an id is its keys with slashes in between |
| `ChainOrder.LeafRunsInOrder` | packages/router/src/router.ts:329-400 | the path of a leaf, base, keys with slashes, suffix, is served by the start methods, what stands around the leaf in order, and the end methods: what is listed ahead from the outermost level in, the leaf, what is listed behind from its own level out, each level as listed; the index points at the leaf, the serializer is its own |
| `ChainOrder.RegisteredLeafRuns` | packages/router/src/router.ts:162-173 | for a tree that registers with middleFns named like no start or end one, those methods are exactly as defined |
| `ChainOrder.CollectionIsInOrder` | packages/router/src/router.ts:570-584 | start and end methods are those of their definitions, in that order, as defined unless the key was taken |
| `ChainOrder.RegistersIff` | packages/router/src/router.ts:251-327 | a tree registers if and only if it is not empty, every entry has an allowed name and is a route, a middleFn or a non-empty group nested at most ten deep, and no two routes, and no two middleFns, have one id or one that is taken |
| `RoutesFlow.MergeMembers` | packages/router/src/routesFlow.ts:226-234 | the merged middle holds each id of the chains minus start and end ids exactly once |
| `RoutesFlow.MergeKeepsOrder` | packages/router/src/routesFlow.ts:226-234 | a method before the first occurrence of an id stays before it |
| `RoutesFlow.MergeChain` | packages/router/src/routesFlow.ts:226-234 | the seen-set loop adds one chain's methods as the reference merge does |
| `RoutesFlow.MergeChains` | packages/router/src/routesFlow.ts:193-235 | the outer loop resolves every path, stops at the first missing one, and keeps the first index and the shared serializer or the default |
| `RoutesFlow.SpliceIsWeave` | packages/router/src/routesFlow.ts:332-334 | splicing at an index after all higher ones equals weaving the step in |
| `RoutesFlow.SpliceAll` | packages/router/src/routesFlow.ts:329-334 | sorting descending and splicing one by one equals the weave of all insertions |
| `RoutesFlow.FlowCaches.CreateMappingMethod` | packages/router/src/routesFlow.ts:338-360 | a step is created or the one cached under its id is reused |
| `RoutesFlow.FlowCaches.CollectInsertions` | packages/router/src/routesFlow.ts:261-327 | the first mapping in order that is refused, and why; otherwise one insertion per mapping right after its source |
| `RoutesFlow.FlowCaches.InsertMappingMethods` | packages/router/src/routesFlow.ts:260-335 | the same on the spliced list, which is the woven one |
| `RoutesFlow.WovenIsFollowed` | packages/router/src/routesFlow.ts:260-335 | the woven list is each method followed at once by the steps it feeds, in reverse request order |
| `RoutesFlow.EraseFollowed` | packages/router/src/routesFlow.ts:260-335 | erasing the steps gives back the original list |
| `RoutesFlow.WovenAddsOneStepPerMapping` | packages/router/src/routesFlow.ts:270-327 | as a multiset, the list gains exactly one step per mapping |
| `RoutesFlow.StepsHugTheirSource` | packages/router/src/routesFlow.ts:322-326 | between a step and its source there are only steps |
| `RoutesFlow.StepPrecedesTargetIff` | packages/router/src/routesFlow.ts:253-259 | a mapping's step precedes its target if and only if its source is listed before its target |
| `RoutesFlow.StepFollowsSource` | packages/router/src/routesFlow.ts:322-326 | a step always follows its source, and precedes whatever method comes after the source |
| `RoutesFlow.BackwardMappingRunsLate` | packages/router/src/routesFlow.ts:253-259 | mapped from the second method to the first, the step stands after both |
| `RoutesFlow.KeepsItsPlaceIff` | packages/router/src/routesFlow.ts:260-335 | a method keeps its position if and only if no earlier one feeds a mapping |
| `RoutesFlow.StepsRunWhatWasAskedIff` | packages/router/src/routesFlow.ts:337-360 | every step runs the mapping it was inserted for if and only if mappings sharing a step id are equal and the cache agrees |
| `RoutesFlow.StepIdForgetsTheParameter` | packages/router/src/routesFlow.ts:339-341 | two mappings that differ only in paramIndex share a step, so the second writes the first one's parameter |
| `RoutesFlow.FlowCaches.BuildMergedExecutionChain` | packages/router/src/routesFlow.ts:187-251 | the built chain, or the error, is the reference build of the request and the step cache |
| `RoutesFlow.ErasedBuild` | packages/router/src/routesFlow.ts:187-251 | without its steps a built chain is start, the merged methods, end |
| `RoutesFlow.FlowKeepsChainOrder` | packages/router/src/routesFlow.ts:187-251 | whatever precedes a requested route in its own chain, start methods included, precedes it in the built chain, unless the flow moves it to the end as an end method |
| `RoutesFlow.RouteIndexNamesFirstRouteIff` | packages/router/src/routesFlow.ts:245-250 | methods[routeIndex] is the first route if and only if no wrapper or earlier middleFn has its id and the mappings fed by the methods merged in front of it are as many as the methods in front of it that the merge leaves out |
| `RoutesFlow.RepeatedStartMiddleFnShiftsTheRoute` | packages/router/src/routesFlow.ts:226-250 | a start middleFn that also stands in front of the route makes the index point past the end, with no mapping at all |
| `RoutesFlow.FedMiddleFnShiftsTheRoute` | packages/router/src/routesFlow.ts:245-250 | a mapping fed by a middleFn in front of the route makes the index miss it |
| `RoutesFlow.FlowCaches.AddToRoutesFlowCache` | packages/router/src/routesFlow.ts:52-64 | keys and order stay equal and duplicate free, the newest maxSize-1 entries and the new one remain, nothing is filed when caching is off |
| `RoutesFlow.FlowCaches.GetRoutesFlowExecutionChain` | packages/router/src/routesFlow.ts:135-173 | the three refusals in their order, else the cached chain or the one built now; size within the cap; coherence kept |
| `RoutesFlow.BuildIsStable` | packages/router/src/routesFlow.ts:187-251 | a build gives the same chain after routes, mappers and steps were added |
| `RoutesFlow.CoherentGrows` | packages/router/src/routesFlow.ts:52-64 | cached chains stay what a rebuild would give while routes and mappers are only added |
| `RoutesFlow.ServedIsRebuiltIff` | packages/router/src/routesFlow.ts:165-172 | the answer is what a rebuild gives if and only if the query misses, or its paths resolve and merge to the same methods, index and serializer as for the request the chain was filed for |
| `RoutesFlow.SameResolutionResolvesAlike` | packages/router/src/routesFlow.ts:193-235 | in particular when both requests send every path to the same place |
| `RoutesFlow.CacheKeyForgetsTheRequest` | packages/router/src/routesFlow.ts:165-172 | when the path transform sends one query to two places, a request is served the other's chain |
| `FlowRequests.ResolvedExactlyWhen` | packages/router/src/routesFlow.ts:193-210 | a request resolves if and only if every path, transformed or else as it is, is registered, each to the chain there; else the first that is not is named |
| `FlowRequests.BuiltOfTheChains` | packages/router/src/routesFlow.ts:187-251 | without steps a built chain is the start methods, each id of the requested chains once unless a start or end method has it, and the end methods |
| `FlowRequests.BuiltIsSentAs` | packages/router/src/routesFlow.ts:211-250 | it has the index of the first route's chain and the serializer all its chains share, the default one if they differ |
| `FlowRequests.RefusedExactlyWhen` | packages/router/src/routesFlow.ts:270-320 | mappings are refused for the first one whose source or target is not merged, whose index is no parameter or whose mapper is missing, in that order of reasons |
| `FlowRequests.RouteIdsAreThePaths` | packages/router/src/routesFlow.ts:150-163 | the route ids are the paths, each without one leading slash |
| `FlowRequests.StepIdTells` | packages/router/src/routesFlow.ts:339 | two mappings with one step id that agree in two of source, mapper and target agree in the third |
| `FlowRequests.StepIdsCollide` | packages/router/src/routesFlow.ts:339 | two mappings with different sources and mappers share a step id |
| `FlowRequests.FanOutIdsAgree` | packages/router/src/routesFlow.ts:337-360 | mappings from one source through one mapper to different targets have a step each |
| `FanOut.StepForEachTarget` | packages/router/src/routesFlow.ts:260-360 | a flow built from them has a step for each target, which runs that target's mapping |
| `FanOut.EachTargetIsFed` | packages/router/src/routesFlow.ts:363-383 | each of the targets, when it is about to run without an error and had a list of params, finds the mapper's value at its own parameter |
| `Dispatch.OnExecutableError` | packages/router/src/lib/dispatchError.ts:40-60 | records the error under the id; status and flag follow; only a first error sets the header |
| `Dispatch.DeserializeBodyParamsOrThrow` | packages/router/src/dispatch.ts:153-175 | missing or falsy params become a list, binary and no-op ones pass as they are, others are decoded and written back or reported |
| `Dispatch.ValidateParametersOrThrow` | packages/router/src/dispatch.ts:177-210 | throws exactly when the gate does not accept the params |
| `Dispatch.PrepareCall` | packages/router/src/dispatch.ts:106-140 | the arguments each kind of method is called with, or the one reason it is not |
| `Dispatch.OverlayHeaders` | packages/router/src/dispatch.ts:87-96 | exactly the present values of a returned header subset are set |
| `Dispatch.StoreResult` | packages/router/src/dispatch.ts:86-97 | undefined and undeclared results are dropped, header subsets go to the headers, the rest under the method's id |
| `Dispatch.RunOne` | packages/router/src/dispatch.ts:77-102 | one turn of the loop is the reference step |
| `Dispatch.RunExecutionChain` | packages/router/src/dispatch.ts:68-104 | the whole loop is the fold of the reference step over the chain |
| `Dispatch.StepRecordsErrors` | packages/router/src/dispatch.ts:77-102 | a turn changes the error fields by recording what it raised and in no other way |
| `Dispatch.RunErrors` | packages/router/src/lib/dispatchError.ts:40-60 | after any run the flag, the status (the last error's), the recorded ids and each id's last error are determined by the errors raised |
| `Dispatch.FlagMatchesRecord` | packages/router/src/lib/dispatchError.ts:54-59 | for a fresh call hasErrors holds if and only if some error is recorded |
| `Dispatch.RunsIff` | packages/router/src/dispatch.ts:79 | a method is attempted if and only if it runs on errors or nothing before it raised one |
| `Dispatch.HeaderNamesFirstError` | packages/router/src/lib/dispatchError.ts:52-53 | the error header names the first error of the run, for handlers that leave that header alone |
| `Dispatch.OnlyValidatedCalls` | packages/router/src/dispatch.ts:119-140 | a validating handler sees only params that passed isType and the unknown-key gate; a refused one raises one error and changes nothing but its own params |
| `Dispatch.CalledIff` | packages/router/src/dispatch.ts:135-140 | a route's handler is called, with the decoded params, if and only if they decode and pass when validated |
| `Dispatch.StrictTypesHoldsIff` | packages/router/src/dispatch.ts:177-197 | in any state of any run a strict handler sees no unknown key if and only if it has a type check or nothing that can be delivered to it has one |
| `Dispatch.DeliveredBySome` | packages/router/src/dispatch.ts:153-175 | every truthy value, and everything the codec restores from one, is delivered by some request |
| `Dispatch.NoTypeCheckLetsUnknownKeysThrough` | packages/router/src/dispatch.ts:177-197 | without a type check a strict handler is called with params that have unknown keys |
| `TurnOutcomes.RecordingAnswers` | packages/router/src/lib/dispatchError.ts:40-60 | a protocol error is recorded as it is and answers with its own status, 422 without one; anything else as an unknown error with 422; a first error sets the header to its type |
| `TurnOutcomes.RunAnswersWithTheLast` | packages/router/src/dispatch.ts:68-104 | after a run the status is that of the last error raised, and each id has the last error raised under it |
| `TurnOutcomes.HeaderIsOfTheFirst` | packages/router/src/lib/dispatchError.ts:52-53 | the header x-rpc-error is the type of the first error raised, for handlers that leave it alone |
| `TurnOutcomes.CalledExactlyWhen` | packages/router/src/dispatch.ts:106-225 | which handler is called with which arguments, from the request, the codec, the validators and the headers alone |
| `TurnOutcomes.RefusedTurnRaises` | packages/router/src/dispatch.ts:153-210 | a turn that calls no handler does nothing when skipped, else raises one error of status 422 under its own id: a serialization error if the params do not decode, else a validation error |
| `TurnOutcomes.CalledTurnLeaves` | packages/router/src/dispatch.ts:84-102 | what a called handler wrote stays, what it reported and threw is raised, what it returned is stored under its id if it returns data, a header subset in the headers |
| `FlowRun.MapStepWrites` | packages/router/src/routesFlow.ts:363-383 | a mapping step that does not fail writes its mapper's value at its position, filling gaps |
| `FlowRun.MapStepKeeps` | packages/router/src/routesFlow.ts:363-383 | it touches no output and no other position |
| `FlowRun.MissingMapperIsRaised` | packages/router/src/routesFlow.ts:363-383 | a step whose mapper is missing raises an error of status 422 and changes no params |
| `FlowRun.OutputIsStored` | packages/router/src/dispatch.ts:84-97 | a returned result stands under its method's id after the turn |
| `FlowRun.ErrorsStay` | packages/router/src/lib/dispatchError.ts:55 | an error once flagged stays flagged for the rest of the run |
| `FlowRun.BuiltIsThreaded` | packages/router/src/routesFlow.ts:187-335 | in every chain the router builds, a mapping whose source precedes its target has its own step in between, and other writers of the position are the same mapping |
| `FlowRun.ThreadedDelivers` | packages/router/src/routesFlow.ts:363-383 | in any run of such a chain a target reached without an error finds its parameter mapped |
| `FlowRun.FlowDeliversIff` | packages/router/src/dispatch.ts:68-104 | for every built flow and any handlers: when a target that does not run on errors is attempted and its mapping is due, mapper(source output) stands at its paramIndex if and only if the target had a list of params once the source had run |
| `FlowRun.MappingWithoutParamsIsDropped` | packages/router/src/routesFlow.ts:378-381 | a flow of two routes whose request names no params of the second: it runs and the mapped value is nowhere |
| `FlowRun.TwoRouteFlow` | packages/router/src/routesFlow.ts:187-335 | such a flow is start, source, step, target, end |
| `FlowRun.TwoRouteMappingIsDue` | packages/router/src/routesFlow.ts:187-335 | in a flow of two routes, with any start and end middleFns, the mapping is due as soon as the source has run without an error recorded |
| `ContextPool.CreateCallContext` | packages/router/src/callContext.ts:41-77 | a fresh context with every field as the call asks, or the lookup's error |
| `ContextPool.Reset` | packages/router/src/callContext.ts:95-124 | a reused context has the same fields, one by one, as a new one would |
| `ContextPool.Pool.AcquireCallContext` | packages/router/src/callContext.ts:80-128 | hands out a context nobody else has, popped and reset or new; on an error the popped one is gone |
| `ContextPool.Pool.ReleaseCallContext` | packages/router/src/callContext.ts:131-158 | files the context below the cap with a response object of its own; the returned one is not touched |
| `ContextPool.TurnOf` | packages/router/src/dispatch.ts:77-102 | one turn of one call moves that call one method on, as if alone |
| `ContextPool.BeginCall` | packages/router/src/dispatch.ts:37-52 | accepting a call disturbs neither calls in flight nor answers given |
| `ContextPool.TakeTurn` | packages/router/src/dispatch.ts:77-102 | a turn of one call leaves the others and the answers as they are |
| `ContextPool.FinishCall` | packages/router/src/dispatch.ts:51-62 | finishing returns the response of the completed run and releases the context |
| `ContextPool.Serve` | packages/router/src/dispatch.ts:27-63 | over any interleaving: every answer is what its call gives alone and stays so, calls in flight are as far as they would be alone, and open calls, answers and pool size follow the paper ledger |
| `ContextPool.PoolKeepsToItsLimit` | packages/router/src/callContext.ts:131-132 | over any schedule the pool never exceeds its maximum |
| `ContextPool.PoppedIsApart` | packages/router/src/callContext.ts:92-128 | the context about to be reused shares no object with a call in flight or an answer given |
| `ContextPool.FlightsAreApart` | packages/router/src/callContext.ts:80-158 | no two calls in flight share a context, a request or a response |
| `ServedCalls.ChainIsThatOf` | packages/router/src/callContext.ts:169-197 | a call gets the flow it asks for, or the flow's error; else the chain under its path, transformed or else as it is; else the not-found chain; else an error |
| `ServedCalls.RegisteredIgnoresNotFound` | packages/router/src/callContext.ts:185-197 | what a registered path gets does not depend on the not-found route |
| `ServedCalls.NotFoundIsServedIff` | packages/router/src/callContext.ts:185-197 | the not-found chain, whatever it is, is served if and only if the call asks for no flow and its path is not registered, or is the not-found path itself |
| `ServedCalls.ContextIsTheCalls` | packages/router/src/callContext.ts:41-128 | the context has the path looked up, the chain found, and the body as it came, of the kind it was told or looks to be |
| `ServedCalls.AnswerIsTheRunOf` | packages/router/src/dispatch.ts:27-63 | an answer of the pool is the run of the call's chain alone, from status 200, empty bodies and the given headers and data |
| `ServedCalls.LeafAnswersItsPath` | packages/router/src/router.ts:329-400 | a call to the path of a leaf of a registered tree gets that leaf's chain, in order |
| `Graphs.ClosedHolds` | packages/router/src/lib/remoteMethods.ts:147-157 | a table closed under successors, cycles included, holds everything its entries reach |
| `RemoteMethods.NamesRoundTrip` | packages/router/src/lib/remoteMethods.ts:113-117 | a dependency name is the key of its two parts, and a hash without a separator splits back from its key |
| `RemoteMethods.Dependencies.SerializePureDeps` | packages/router/src/lib/remoteMethods.ts:110-145 | adds only sendable reachable pure functions, all of them on success; a failure names a reachable unfit one, or a path of 50 different sendable functions leads on from the root |
| `RemoteMethods.Dependencies.SerializeJitFn` | packages/router/src/lib/remoteMethods.ts:147-157 | the same for compiled functions and the pure functions they need, for any cyclic graph |
| `RemoteMethods.Dependencies.SerializeRegistered` | packages/router/src/lib/remoteMethods.ts:169-183 | every registered hash of a family is added, and foundAny says whether there was one |
| `RemoteMethods.Dependencies.SerializeMethodDeps` | packages/router/src/lib/remoteMethods.ts:159-191 | params and result families are added; an error is a result hash with nothing registered, a missing or unfit reachable function, or a path of 50 different functions from a registered root |
| `RemoteMethods.SmallRegistriesAreSent` | packages/router/src/lib/remoteMethods.ts:110-157 | with fewer than 50 functions of each kind no method fails for its depth |
| `RemoteMethods.ExactlyWhatIsNeeded` | packages/router/src/lib/remoteMethods.ts:110-191 | from self-contained tables a normal return leaves self-contained tables with exactly the reachable functions and the non-built-in pure functions they need |
| `ClientRoutes.Answer.AddRequiredRemoteMethodsToResponse` | packages/router/src/routes/client.routes.ts:84-98 | adds only public methods reachable through middleFnIds, each with its middleFns accounted for and its functions sent, and no function that no listed method needs; terminates on any cycle; an error names a reachable method that cannot be sent |
| `ClientRoutes.ExactlyTheFunctionsNeeded` | packages/router/src/routes/client.routes.ts:72-98 | self-contained tables that hold what each listed method asks for and nothing unneeded are exactly the functions reachable from some listed method and the pure functions those need |
| `ClientRoutes.SmallRegistriesAreAnswered` | packages/router/src/routes/client.routes.ts:41-98 | nor does any request |
| `ClientRoutes.AnswerIsExact` | packages/router/src/routes/client.routes.ts:84-98 | a finished walk lists exactly the public reachable methods and reports exactly the missing reachable ids |
| `ClientRoutes.MionGetRemoteMethodsDataById` | packages/router/src/routes/client.routes.ts:41-70 | the answer is the exact closed listing with exactly the functions its methods need, all as registered, the pure ones with code, or exactly the missing ids when there are any; it throws only for a public reachable method that cannot be sent |
| `MetadataAnswers.WantsExactly` | packages/router/src/routes/client.routes.ts:49-59 | all public methods are wanted when all is asked for and the router is not too large, by default not over a hundred, else what was asked for |
| `MetadataAnswers.ListsExactly` | packages/router/src/routes/client.routes.ts:84-98 | the listing holds exactly the methods a client may see that the wanted ids need through middleFns of such methods |
| `MetadataAnswers.MissesExactly` | packages/router/src/routes/client.routes.ts:84-98 | missing is what is so needed, registered nowhere and none of the framework's own names |
| `MetadataAnswers.SendsExactlyFns` | packages/router/src/lib/remoteMethods.ts:147-191 | the compiled functions sent are those a listed method's params or result functions depend on, themselves included |
| `MetadataAnswers.SendsExactlyPureFns` | packages/router/src/lib/remoteMethods.ts:110-145 | the pure functions sent are those such a function names, or one it names depends on in its own namespace, built-in ones left out |
| `MetadataAnswers.ParsesExactly` | packages/router/src/lib/remoteMethods.ts:113-117 | a name parses to namespace and hash if and only if it is the two with two colons in between and no other |
| `MetadataAnswers.BuiltInExactly` | packages/router/src/lib/remoteMethods.ts:118-120 | built in are exactly the names of the namespaces rt and rtFormats |
| `ClientResult.ClientRequest.AddSubRequest` | packages/client/src/request.ts:224-227 | a resolved sub-request throws; another is filed under its id, in the place of an earlier one with that id, ids staying distinct |
| `ClientResult.FiledIs` | packages/client/src/request.ts:224-227 | what is filed of any submission is, under each id, the last sub-request submitted |
| `ClientResult.FiledIffLast` | packages/client/src/request.ts:224-227 | a sub-request is filed if and only if it is submitted and no later one has its id |
| `ClientResult.ClientRequest.SetFatalError` | packages/client/src/request.ts:240-243 | the error is recorded and its id marked undeclared |
| `ClientResult.ClientRequest.HandlePlatformError` | packages/client/src/request.ts:231-237 | a platform error is recorded once under the request's own id and settles every participant |
| `ClientResult.ClientRequest.RestoreMissing` | packages/client/src/request.ts:391-406 | exactly the prefilled ids named that are neither routes nor already sent are added, each once and untouched |
| `ClientResult.ClientRequest.RestorePrefilledMiddleFns` | packages/client/src/request.ts:334-408 | the participants afterwards are those sent plus the wanted prefilled ones; nothing sent is replaced; each route nothing is known about is one undeclared error |
| `ClientResult.ClientRequest.ApplyThrown` | packages/client/src/request.ts:249-258 | thrown errors settle their participants; all but validation errors are undeclared |
| `ClientResult.ClientRequest.ResolveParticipants` | packages/client/src/request.ts:260-270 | every other participant gets its own value or its own error |
| `ClientResult.ClientRequest.ResolveSubRequests` | packages/client/src/request.ts:249-278 | errors, undeclared ids and every participant after a response, as the reference says |
| `ClientResult.CollectedFinds` | packages/client/src/request.ts:249-278 | which error, if any, is collected for each id |
| `ClientResult.BuildRouteParts` | packages/client/src/client.ts:212-230 | each route's value and declared error at its own place, nothing when all are undefined |
| `ClientResult.BuildMiddleFnParts` | packages/client/src/client.ts:240-250 | results and declared errors under their names, the first thrown middleFn error apart |
| `ClientResult.BuildResult` | packages/client/src/client.ts:198-274 | the five slots of the result |
| `ClientResult.FatalIff` | packages/client/src/client.ts:252-271 | the fatal slot is filled if and only if some error was thrown by a participant or belongs to none |
| `ClientResult.FirstThrownIsFirst` | packages/client/src/client.ts:240-262 | the first thrown error of a list, or none when nothing in it threw |
| `ClientResult.FatalIsFirst` | packages/client/src/client.ts:240-271 | the fatal slot holds the first thrown error of the middleFns and then the routes, in their order; if none of them threw, the first error to arrive that is no participant's |
| `ClientResult.NamedErrorsFind` | packages/client/src/client.ts:240-250 | a name holds its own middleFn's declared error and nothing else |
| `ClientResult.NamedValuesFind` | packages/client/src/client.ts:241-242 | a name holds its own middleFn's value and nothing else |
| `ClientResult.NoErrorIsLost` | packages/client/src/client.ts:190-197 | whatever else failed, a participant's declared error is at its own place; every other error fills the fatal slot |
| `ClientResult.DeclaredFromTheWire` | packages/client/src/request.ts:245-270 | what a participant's response and the thrown errors make of its declared error |
| `ClientResult.UnaskedFromTheWire` | packages/client/src/request.ts:272-277 | an error under an id nobody asked for is collected as undeclared |
| `ClientResult.PlatformErrorIsFatal` | packages/client/src/request.ts:229-237 | a platform error is the fatal error of the call |
| `ClientResult.MergeMiddleFns` | packages/client/src/client.ts:140-149 | record entries first, restored participants under their ids |
| `ClientResult.RecordIsKeptIff` | packages/client/src/client.ts:138-149 | every record entry survives if and only if no other participant's id is a record name |
| `ClientResult.CollidingNameMakesDeclaredFatal` | packages/client/src/client.ts:138-149 | with such a collision a declared error leaves its record and fills the fatal slot |
| `ClientCall.NewRequest` | packages/client/src/request.ts:46-57 | routes and then middleFns are filed one over the other under their ids; there is no request exactly when one of them is already resolved |
| `ClientCall.MergedFinds` | packages/client/src/client.ts:138-149 | each name of the merged record holds the object it stands for: a participant outside the record with that id, else the record's own |
| `ClientCall.EveryoneIsClaimed` | packages/client/src/client.ts:113-149 | with the record's names unused by others, the participants of the slots are those of the request |
| `ClientCall.FatalIsTold` | packages/client/src/client.ts:190-271 | the fatal slot is filled if and only if the response holds an error no participant declared |
| `ClientCall.NameIsTold` | packages/client/src/client.ts:138-250 | under each name the records hold the value its own sub-request got and the error declared under its id, and nothing else |
| `ClientCall.RoutesAreTold` | packages/client/src/client.ts:212-230 | each route's place holds the value its own sub-request got and the error declared under its id |
| `ClientCall.AnsweredIffLast` | packages/client/src/request.ts:260-270 | a sub-request gets what the response says of its id, for every response, if and only if no later one submitted has its id |
| `ClientCall.EntryIsHeardIff` | packages/client/src/client.ts:138-149 | a record entry has under its name what the response says of its middleFn, for every response, if and only if no other participant's id is that name and no later sub-request has the middleFn's id |
| `ClientCall.RepeatedRouteIsLost` | packages/client/src/client.ts:216-226 | a workflow with one route twice: the first place has no result, both have the error |
| `ClientCall.RepeatedEntryIsLost` | packages/client/src/client.ts:240-250 | a record with one middleFn under two names: the first name has no result, both have the error |
| `ClientCall.EntryTakesTheRoutesResult` | packages/client/src/client.ts:212-242 | a record middleFn with the route's id takes the route's result |
| `ClientCall.PlatformIsTold` | packages/client/src/request.ts:229-237 | when the platform refused the call its error is fatal and every other slot is empty |
| `ClientCall.UnknownIsTold` | packages/client/src/request.ts:340-353 | when a route the call needs is unknown that is the fatal error and every other slot is empty |
| `ClientCall.FiledInOrder` | packages/client/src/request.ts:224-227 | sub-requests are filed in the order in which their ids first occur |
| `ClientCall.SlotsAreInOrder` | packages/client/src/client.ts:138-149 | the fatal error is looked for in the record's middleFns as listed and then the other participants that are no routes, as filed |
| `ClientCall.ReadResponse` | packages/client/src/client.ts:113-137 | from a prepared request and the response on the wire to the five slots: each place and name holds what the response says of it when its sub-request is the last submitted under its id, else no value; the fatal slot holds the first error nobody declared |
| `ClientCall.ExecuteRequest` | packages/client/src/client.ts:89-137 | a whole call, for every choice of routes, record, state of the client and response: it throws exactly when a sub-request is already resolved; the participants are those submitted, the prefilled middleFns the routes depend on and the metadata request; missing metadata or a platform error is told alone; otherwise every slot and every sub-request holds what the response says of it, as above, the fatal slot the first error nobody declared |
| `ErrorOrder.FatalIsFirstInExecutionIff` | packages/client/src/client.ts:190-196 | for any chain, whoever of it the client asked: the fatal slot holds the first error in order of execution that nobody declared, thrown or returned, however the chain ends, if and only if every participant in the chain has a slot, whatever runs before a participant that runs on errors is listed before it (middleFns before routes), no method the client did not ask returns data unless it is last, and none of those that runs on errors runs twice |
| `ErrorOrder.AgreedIsFirst` | packages/client/src/client.ts:252-271 | under that condition the slot holds exactly that error, for every way the chain can end |
| `ErrorOrder.UnaskedStartAllowsNoRunOnError` | packages/client/src/client.ts:193-196 | behind a start method, which no client asks, the condition allows no participant to run on errors |
| `ErrorOrder.OnlyExecutionOrderWill` | packages/client/src/client.ts:190-196 | in a chain of participants that all run on errors it is the first if and only if the listed order is the order of execution |
| `ErrorOrder.LostIsFatal` | packages/client/src/client.ts:263-271 | a participant whose slot is lost fails validation: its declared error is fatal |
| `ErrorOrder.SecondErrorIsTaken` | packages/router/src/lib/dispatchError.ts:57-59 | a method nobody asked throws twice: the fatal slot holds its second error |
| `ErrorRuns.RunCanEnd` | packages/router/src/dispatch.ts:77-102 | every run of the dispatch loop ends as its chain can: whoever throws or answers after an error runs on errors, whoever answers returns data |
| `ErrorRuns.RunThrows` | packages/router/src/lib/dispatchError.ts:56-59 | the errors sent, each id in the place of its first error, are those the run recorded |
| `ErrorRuns.RunAnswers` | packages/router/src/dispatch.ts:84-97 | the answers sent are the values the run stored |
| `ErrorRuns.CallHoldsFirstError` | packages/client/src/client.ts:113-137 | from a run of the loop to the result of the call: under the condition the fatal slot holds the first error of the run that nobody declared |
| `ErrorRuns.RecordOrderHidesTheFirstError` | packages/client/src/client.ts:195-196 | a run of auth and then log, both throwing, and a record that lists log first: the fatal slot holds the error of log |
| `ErrorRuns.UnaskedErrorIsHidden` | packages/client/src/client.ts:262-271 | the same run when the client did not ask auth: the fatal slot holds the error of log |
| `ErrorRuns.ReturnedErrorIsHidden` | packages/client/src/client.ts:262-271 | a run in which auth, not asked, returns an error and log then throws: the fatal slot holds the error of log |
| `Base64Url.EncodesUnpadded` | packages/core/src/utils.ts:40-43 | the encoding is unpadded standard base64 with plus and slash swapped |
| `Base64Url.AlphabetIsStandard` | packages/core/src/utils.ts:40-43 | the characters are those of the table of section 4 of RFC 4648 |
| `Base64Url.QuadIsStandard` | packages/core/src/utils.ts:40-43 | up to three bytes are one number, written in six-bit digits, the most significant first |
| `Base64Url.Base64UrlRoundTrip` | packages/core/src/utils.ts:40-48 | every string of code units below 256 survives the codec in url-safe characters only; any other string is refused |
| `QueryBody.ExtractsFirstData` | packages/router/src/lib/queryBody.ts:30-40 | the index search finds the first ampersand-separated part that starts with data= |
| `QueryBody.DataIsNamed` | packages/router/src/lib/queryBody.ts:30-40 | the parameter looked for is data |
| `QueryBody.QueryBodyRoundTrip` | packages/router/src/lib/queryBody.ts:19-28 | a query whose first data part encodes a string gives it back if and only if it is not empty |
| `QueryBody.EncodedBodyIsOnePart` | packages/router/src/lib/queryBody.ts:19-40 | an encoded body put in a query comes back whole |

## Left out

- Network, timers, abort signals, platform adapters, browser storage and the optimistic retry of the client: host
  behaviour or server answers decide them.
- The compiled encoders, decoders and validators of `@ts-runtypes`: they are parameters. An encoder is a list of
  primitive writes followed by an exception or none; a decoder is assumed to invert it where a round trip is stated.
- Upstream's internal buffer growth policy: a growing buffer is one that is always long enough, its size is not stated.
- Malformed UTF-8 in a received key is a failure here; the host's decoder would substitute characters.
- `log2` in `sizeClassFor` is the exact power of two, not a floating-point one.
- Options are passed as arguments instead of read from a global; the two directions' statistics are one table passed in.
- BodySerializer.BinaryLane.SerializeBinaryBody: how far an abandoned pooled attempt got before it failed is not stated,
  so neither is which first part of the chain it had recorded.
- BinaryRuns.NextRequestIsSized: asks that the ids fit the table without an eviction and that no id has two entries in
  one envelope; a later entry of the same id may push an earlier one out of a short window.
- BinaryRuns.RunLane: one lane with one direction's statistics, and calls of it that do not overlap, as the source's are.
- A body getter that returns different values on two reads: bodies are values, read the same each time.
- Route options, reflection, retroactive binary compilation of middleFns, `middleFnIds` collection, the complexity
  counter and whether a name is numeric (a parameter) in `router.ts`.
- BodySerializer.WriteEnvelope: the key writer's own reservation on a borrowed buffer is not modelled, only whether its
  bytes fit.
- RouteTree.Router.RegisterRoutes: a registration that fails may leave methods cached and names taken; nothing is said
  of the router afterwards.
- RoutesFlow.FlowKeepsChainOrder: speaks of the first place a route's id turns up, since a route listed again is merged
  into its first place.
- Decoding and shape checking of a flow query: a query decodes to a well-formed one or not at all.
- A handler's own awaits: one turn of a call is atomic, turns of different calls interleave freely. Handlers see their
  own context; state shared between handlers of different calls is not modelled.
- Bodies, headers and context data are values held by the request and response objects, whose identity is modelled;
  records nested in them are not separate objects. Header names are compared as given, without case folding. No
  recorded error, `undefined` in the source, is the empty map.
- Dispatch.HeaderNamesFirstError: asks that no handler writes the error header itself, as any handler with the context can.
- FlowRun.FlowDeliversIff: asks that no method between source and target rewrites the target's parameters, which a
  handler could do through the context. Parameters that are an object instead of a list are left as they are.
- The empty namespace record that `serializePureDeps` leaves behind when a lookup fails.
- RemoteMethods.Dependencies.SerializeJitFn: that the depth limit is hit only along a path of 50 different functions is
  stated, not that every graph with such a path hits it; what was listed before decides where the walk goes.
- The public-api listing of `remoteMethods.ts` and the middleware wrapper of the metadata route: thin wrappers.
- Prefilled middleFns: how they are stored and removed, and the params a restored one carries.
- ClientCall.ExecuteRequest: a call whose parameters pass the client's own check and whose request can be encoded and
  sent; the check's errors, like an aborted call's, come from outside the model. Nobody takes part under the id that
  platform errors are filed under. An optimistic call that is sent again is the two calls it consists of.
- ErrorOrder.FatalIsFirstInExecutionIff: a method that stands twice in a chain is one method, as the router's cache by
  id makes it, and no error arrives in the headers. What the response serializer reports, late and under the ids of
  other methods, is not an error of the chain here.
- ErrorRuns.RunThrows: asks that handlers raise errors under their own id, leave what others stored as it is, and report
  no error besides a value they store; so does ErrorRuns.RunAnswers.
- ClientRoutes.AnswerIsExact: a record of the source answers for the names every object inherits, like `toString`, as if
  they had been put there; the maps here do not. Ids are taken to be other names, in the metadata walk as in the
  client's tables.
- ClientResult.ClientRequest.ResolveSubRequests: starts from an empty error table, as every caller does; integer-like
  ids, which a JavaScript record lists first, are kept in insertion order.
- Typed listeners, typed events, header wrappers and option merging: map operations with easy claims only.
