# Verified model of skgo's server algorithms

skgo answers SvelteKit's server protocol from Go. Under its HTTP plumbing are several self-contained
algorithms and protocols whose promises are about whole runs. This project models each of them in
Dafny and proves those promises for all inputs, all interleavings or all runs.

| file | what it models |
|---|---|
| `Branch.dfy`, `BranchRuns.dfy`, `BranchResults.dfy`, `BranchRace.dfy` | one memoised load per branch node, all started at once, each free to force its ancestors through `Parent`: a state machine over the goroutines' steps |
| `PromiseTable.dfy` | the table of streamed promises, growing while it is drained in settlement order |
| `Refresh.dfy` | the single-flight refresh set, its client gate with limits, and the re-entrant drain |
| `Downstream.dfy` | the pipe between an application's goroutine and the reader of its response, with commit, close, cancellation and panic: a state machine over steps, and the consumer's loop |
| `JsonFields.dfy`, `Annihilation.dfy`, `Ordering.dfy` | which properties a struct has on the wire: the breadth-first sweep, the sort, the in-place annihilation pass |
| `Reaches.dfy`, `Encode.dfy`, `Walk.dfy` | the cached reachability test over a cyclic type graph, the empty-array rewrite, and the selective walk that has to agree with the plain encoder |
| `MimeType.dfy`, `Pathname.dfy` | a MIME type parsed and printed again; a pathname decoded without ever decoding twice |
| `ErrorPages.dfy` | two walks that have to pick the same error page |
| `TraceWriter.dfy` | a response writer that holds a small body back under a byte budget |
| `CookieJar.dfy` | the cookie jar, its write-outs and the forwarded Cookie header |
| `HeaderRelay.dfy` | response headers and their exactly-once relay in development |
| `TrailingSlash.dfy`, `Redirects.dfy` | accepted paths, trailing-slash redirects, and where their relative Location leads by RFC 3986 once the server has decoded the path it is asked for next |
| `Wrappers.dfy` | a value that may be missing |

Objects the program updates are classes whose methods are proved against functions and predicates of
their state; its loops are loops. Goroutines are interleaved steps: a schedule says who moves next, and
a statement about every schedule is a statement about every interleaving. What the code asks of other
code (a load, a refreshed query, a decoder, a marshaler, the spelling of a Set-Cookie header, a write
that may stop short) is a parameter or a nondeterministic choice, with nothing assumed about it that a
row below does not say. `dafny verify dfyconfig.toml` checks everything.

## Where the code and its comments or first expectations differ

- `requested.go:174-177` says a second copy of a no-argument key comes back refused. The refusal is
  registered first and the acceptance overwrites it, so the key ends up accepted
  (`Refresh.RefreshSet.AcceptTheOneInstance`).
- The guard against draining a key twice (`refresh.go:250-252`) never fires: a key that has been
  registered is in exactly one of the order, the batch and the drained set.
- Where the client leaves out a load that has two asked ones below it, what a branch returns can depend
  on the schedule, because a failing load sets the abort flag before or after another has forced the
  one left out; under every other mask it never does (`BranchRace.SafeMaskIsExact`, both directions).
- The sweep counts the types embedded in a doubly embedded type once (`jsonfields.go:170-183`), so a
  diamond of embedded structs keeps a property Go hides (`Annihilation.DiamondKeepsX`). Nothing that Go
  makes visible is ever lost, and what is kept is visible exactly when no other embedding path of the
  same length leads to its struct. A type has its properties right if and only if none is a lone fork:
  one whose struct is reached by several shortest paths, all through one field of one struct
  (`Annihilation.TypeJSONFields`, for every type).
- A pipe's EOF means that everything arrived and the application returned if and only if no earlier read
  reported a problem and the reader has not closed: whoever reads on after an error is told EOF all the
  same, and so may be whoever has closed, a fetch's reader included, because `release` closes `done`
  before it cancels the context (`downstream.go:159-167`; `Downstream.EOFBelievedExactly`, both directions).
- The walk ignores `,string` and self-marshalling types on its way, and knows no base64 and no map keys
  but strings. For every value, wherever these are nested, it agrees with `encodeValue` if and only if
  each `,string` scalar it meets is quoted as itself, each self-marshalling value writes what its parts
  are walked into, and it meets no byte slice, no other key and no promise never made
  (`Walk.WalkAgreesExactly`).
- `serializeMIMEType` lowercases names by Unicode before checking them, so it takes a parameter the MIME
  Sniffing standard skips if and only if its name holds the Kelvin sign or a capital I with a dot
  (`MimeType.TakesWhatTheStandardTakes`, both directions; `MimeType.KelvinPasses`).
- The chain of guards always begins with an entry for the root layout, filled or not
  (`ErrorPages.ChainLinesUp`).
- A forwarded Cookie header takes the applicable cookie whose key is last in the order, which is the
  order of first writes, while a read takes the longest path; and a cookie the
  request deleted is still forwarded (`CookieJar.Jar.RequestHeader`, `CookieJar.Jar.Get`).
- A header set to an empty value and relayed is lost when it is set again
  (`HeaderRelay.RelayRebuilds`, both directions).
- `normalizePath` accepts `//` (`TrailingSlash.AcceptedExactly`).
- The redirect of a prerendered page (`static.go:764-770`) names the last part of the decoded path, while
  the client resolves it against the path it asked for and the server decodes it again. It leads to the
  page if and only if what the last raw segment is read as has no `?`, `#`, `%` or slash in it and is no
  dot segment, a last slash being allowed to be an escape in the only segment (`Redirects.LeadsExactly`,
  both directions; `/a%2541` and `/a%2Fb` go astray). Redirects made from the routed path always lead
  there (`Redirects.RoutedRedirectsLead`).

## Model

| member | source | states |
|---|---|---|
| Branch.DeeperFieldsWin | loadevent.go:315-337 | In what `Parent` merges, a key is present exactly when some outer node has it, with the value of the deepest node that does. |
| Branch.OutermostFailureWins | loadevent.go:315-334 | The first outer node that failed, redirected or cannot be encoded is the answer, whatever later nodes did. |
| Branch.MergeOfHealthy | loadevent.go:315-337 | `Parent` answers with a merge when every outer node is healthy. |
| Branch.StepKeepsInv | data.go:270-312 | Every step of every goroutine keeps the invariant of the memoised functions: one runner each, callers wait on strictly inner-to-outer stacks, nothing runs twice. |
| BranchRuns.NeverStuck | data.go:270-312 | In every state that satisfies the invariant some goroutine can move unless all have finished: forcing ancestors through `sync.OnceValue` cannot deadlock. |
| BranchRuns.StepGetsCloser | data.go:270-312 | Every step decreases a bound on the steps still to come, so no interleaving runs for ever. |
| BranchRuns.EveryInterleavingEnds | data.go:243-316 | Every schedule is finite, stops only when every goroutine has finished, starts no load twice, and has started each asked load exactly once by then. |
| BranchResults.EveryInterleavingAgrees | data.go:243-316 | Under a mask that leaves out no load with two asked ones below it (every node asked for is one), or with no load failing, every finished run leaves in the asked slots exactly the nodes sequential evaluation in index order gives, and `skip` in the others. |
| BranchResults.StepKeepsResults | data.go:274-295 | The step invariant behind it: each node in progress stands where sequential evaluation would have it, and a node nobody asked for starts only once all outer ones are settled and healthy. |
| BranchResults.SkipsOnlyUnsafely | data.go:274-279 | A present node nobody asked for finds the abort flag set only where two asked nodes are below it, the one that called it and the one that failed. |
| BranchRace.PartialMaskCanRace | data.go:259-315 | Under any other mask there are loads for which two finished runs return different nodes, so one of them differs from sequential evaluation. |
| BranchRace.SafeMaskIsExact | data.go:259-315 | Every finished run of every branch with a given mask agrees with sequential evaluation if and only if no present node left out has two present asked ones below it. |
| BranchRace.AgreementIsIndependence | data.go:259-315 | Where all runs agree with sequential evaluation, no two of them return different nodes. |
| JsonFields.Sweep | jsonfields.go:94-186 | The breadth-first sweep terminates on recursive types and collects the properties of every reachable struct type along one shortest path each, doubled where the type was counted more than once at its level. |
| JsonFields.SweepLevel | jsonfields.go:112-186 | One level: visited types are skipped, the rest are explored and the next level queued with its counts. |
| JsonFields.ExploreType | jsonfields.go:121-184 | The loop over one struct's fields collects exactly its properties and queues exactly its untagged embedded structs. |
| JsonFields.PlainForksAreCounted | jsonfields.go:170-183 | Where a type embedded twice at its shallowest depth embeds no further struct, the counts see exactly the types that really occur twice there. |
| JsonFields.DoublesAreForked | jsonfields.go:170-183 | For every type, a struct counted twice really is reached by two paths of that length. |
| Annihilation.DominantIsSurvivor | jsonfields.go:239-244 | In a sorted group of one name, the dominant field is the one that no other occurrence hides, and there is none exactly when the first two tie. |
| Annihilation.ResolveGroup | jsonfields.go:204-221 | One group of equal names filtered in place: its survivor is kept, or none. |
| Annihilation.Annihilate | jsonfields.go:202-224 | The in-place pass keeps a collected field exactly when no other collected occurrence of its name is as shallow and as strongly tagged or better. |
| Annihilation.SurvivorByCount | jsonfields.go:188-224 | Whether a field survives does not depend on the order it was collected in. |
| Annihilation.SurvivorIsVisible | jsonfields.go:94-233 | For every type, a survivor is visible by Go's rule over the whole, possibly infinite, embedding tree exactly when no other path of the same length leads to its struct. |
| Annihilation.VisibleSurvives | jsonfields.go:94-233 | For every type, every visible property of the embedding tree survives. |
| Annihilation.TypeJSONFields | jsonfields.go:94-233 | The whole function, for every type: distinct names in index order, the survivors of one complete sweep; every property visible in the full embedding tree, and beside them only fields whose embedding path is forked; exactly the visible ones if and only if the type has no lone fork, as under plain forks. |
| Annihilation.LoneForkSurvives | jsonfields.go:170-183 | A property whose struct is reached by several shortest paths through one and the same field, and which nothing else hides, is kept. |
| Annihilation.ForkedSurvivorIsLone | jsonfields.go:170-224 | And every kept field that is not visible is of that kind. |
| Annihilation.DiamondHidesX | jsonfields.go:170-183 | In a diamond of embedded structs Go's rule hides the doubly reached property. |
| Annihilation.DiamondKeepsX | jsonfields.go:170-183 | Whatever the code answers for that diamond, it keeps the property: a forked field can be kept. |
| Ordering.SortedSorts | jsonfields.go:188-200 | The sort used by both passes gives a sorted permutation for any total order. |
| Downstream.NextKeepsInv | downstream.go:90-131 | Every step of application, reader, closer and cancellation keeps the pipe's invariant. |
| Downstream.SnapshotIsFinal | downstream.go:204-223 | Once committed, status and headers never change. |
| Downstream.EveryRunDelivers | downstream.go:204-306 | In every interleaving no frame precedes the commit, what is read is a prefix of what was delivered with flush marks at the same offsets, and of everything written as long as no send failed. |
| Downstream.EOFMeansComplete | downstream.go:270-306 | A reader that has not closed and was told of no other problem gets EOF only when every write and flush reached it in full and the application returned, neither panicking nor cancelled. |
| Downstream.EOFBelievedExactly | downstream.go:270-306 | On either kind of pipe, EOF means that for certain if and only if no earlier read reported a problem and the reader has not closed. |
| Downstream.PanicThenEOF | downstream.go:270-306 | After a panic was reported the next read is told EOF. |
| Downstream.ClosedThenEOF | downstream.go:159-167 | On either kind of pipe a reader that has closed can be told EOF although a write never reached it: the send fails on `done` and the application returns before the context is cancelled. |
| Downstream.CancelledFirstIsSafe | downstream.go:159-167 | Were the context cancelled before `done` is closed, a fetch's reader could believe EOF even after closing: that order is all that is amiss there. |
| Downstream.EndIsReported | downstream.go:282-296 | Once the application has gone and all was read, the next read reports EOF exactly when it returned normally, and the panic exactly when it panicked. |
| Downstream.ReadingOnMisleads | downstream.go:279-296 | `eof` remembers that the end was reached but not how: a reader that reads on after a context error is told EOF although a write was never delivered. |
| Downstream.WriteResponse | middleware.go:569-615 | The consumer's loop passes on every chunk and flush in order up to the end or the client's departure, and aborts exactly on a reported panic. |
| Downstream.ResponseIsWholeOrAborted | middleware.go:569-615 | For a middleware's response, a loop that ends by itself has either aborted because of a panic mid-body or delivered everything the application wrote. |
| Refresh.ClientKeyIsRebuilt | refresh.go:356-375 | Every key the client sent that has a slash is rebuilt byte for byte from the group it was filed under. |
| Refresh.PayloadWasSent | refresh.go:356-375 | Nothing else is in a group: each payload names a key the client sent. |
| Refresh.GroupByID | refresh.go:357-367 | The grouping loop files each payload under its id, in the order sent. |
| Refresh.RefreshSet.constructor | refresh.go:356-375 | A fresh set holds the client's groups and nothing registered. |
| Refresh.RefreshSet.Add | refresh.go:191-196 | The last registration of a key wins, and the key keeps its place in the order. |
| Refresh.RefreshSet.IgnoreKey | refresh.go:198-204 | A key is listed as ignored once. |
| Refresh.RefreshSet.Take | refresh.go:209-213 | Everything registered since the last call, each key once, leaving nothing waiting. |
| Refresh.RefreshSet.RequestedInstances | requested.go:287-337 | A negative limit or a wrong kind changes nothing; otherwise the payloads before the limit that decode are handed out and every other payload is refused onto its own key, in the order sent, no other entry changing. |
| Refresh.RefreshSet.RefreshRequested | requested.go:136-145 | Afterwards every key the client asked for under this query has an entry, accepted exactly when some copy of it before the limit decodes, with the decoded argument; no other entry changes. |
| Refresh.RefreshSet.IgnoreRequested | requested.go:152-161 | What the gate lets through is ignored; what it turns away is still refused. |
| Refresh.RefreshSet.AcceptTheOneInstance | requested.go:232-241 | The gate with a limit of one, and all that it promises; a payload is accepted exactly when it is the first one sent and decodes, so a second copy of the one instance is accepted with it. |
| Refresh.RefreshSet.Execute | refresh.go:68-92 | One operation of application code, from the handler or from a query being refreshed: exactly what it registers, in order, what it is handed, what it declines and the limit it gives. |
| Refresh.RefreshSet.ExecuteAll | refresh.go:68-92 | A sequence of operations has the effect of one after the other, and gives the sum of their limits. |
| Refresh.AfterExtends | refresh.go:191-204 | Application code only adds to the history, and only registrations. |
| Refresh.RefreshSet.TakeTurn | refresh.go:250-289 | One key's turn: the history goes on with the answer made from the key's last registration, then with exactly what its query registers; the key is done with before its query runs, and its answer is in the map of its kind. |
| Refresh.RefreshSet.DrainBatch | refresh.go:248-290 | One round gives the keys taken one turn each, in order, and makes the finite key space left to drain smaller. |
| Refresh.RefreshSet.ResolveExplicit | refresh.go:243-293 | The drain ends for any re-entrant registrations over a finite key space; it leaves what was there followed by one turn for each key ever registered, in the order of first registrations, each answered in the map of its kind with what its query answered at its turn. |
| Refresh.PlayAnswers | refresh.go:248-290 | Turns of registered keys answer exactly these keys, in this order. |
| Refresh.OneTurnEach | refresh.go:250-255 | No key has two turns, so no query runs twice. |
| Refresh.RefreshSet.ClientRunsAreBounded | requested.go:287-337 | At every moment the client's keys that have been run number at most the sum of the limits given so far. |
| Refresh.Respond | refresh.go:390-392 | A whole command: the history begins with exactly what the handler did, goes on with one turn for each key registered in the order of first registrations, every key is answered, and the client's keys that are run number at most the limits the handler gave plus those the queries that ran gave. |
| PromiseTable.Table.Id | data.go:523-533 | Ids are exactly 1 to n in first-encounter order, and a promise met again keeps its id. |
| PromiseTable.HeadIsInEncounterOrder | data.go:523-533 | A fresh table lists what the head holds, each promise once, in the order first met. |
| PromiseTable.Table.Settled | data.go:545-586 | For any settlement order each id is written at most once and only after it was registered; a run that is not cancelled returns exactly when all ids of the grown table are written, and never waits on nothing. |
| PromiseTable.Table.WriteOne | data.go:577-585 | One settled promise: its chunk is written and the promises the chunk holds enter the table. |
| PromiseTable.CompleteIsLeastClosed | data.go:535-586 | A complete run has written the least set of promises that holds the head's and is closed under nesting. |
| PromiseTable.SettlementOrderIsFree | data.go:545-586 | Whatever order things settle in, two complete runs write the same promises. |
| Reaches.OneStep | transport_encode.go:192-231 | Reachability around the types on the stack, one type at a time: the recursion the search makes. |
| Reaches.CutsLoops | transport_encode.go:206-209 | A path out of a type can leave it for good, so refusing to re-enter a type loses nothing. |
| Reaches.TreeEncoder.ReachesWith | transport_encode.go:192-231 | The search terminates on cyclic types, leaves the stack as it found it, and is true exactly when a path that enters no type on the stack leads to a claimed, promised or enabled interface type. |
| Reaches.TreeEncoder.FieldsReach | transport_encode.go:217-228 | The loop over a struct's fields, unexported and `-` fields skipped. |
| Reaches.TreeEncoder.Reaches | transport_encode.go:178-186 | The answer, cached or not, is reachability in the type graph, and every cached answer stays so. |
| Reaches.InnerAnswersAreWeaker | transport_encode.go:178-209 | On a two-type cycle the answer inside the stack differs from reachability: inner answers must not be cached. |
| Encode.AssembleIs | transport_encode.go:133-146 | The object made of the written properties holds exactly those names, each with its own value. |
| Encode.EmptyArrays | emptyarray.go:31-90 | Over the round trip of a value the rewrite gives exactly what an encoder would that writes `[]` for nil non-byte slices in the first place. |
| Encode.EmptyItems | emptyarray.go:63-66 | The loop over a list's items. |
| Encode.EmptyEntries | emptyarray.go:73-82 | The loop over a map's entries, in any order. |
| Encode.EmptyArrayFields | emptyarray.go:99-114 | The loop over a struct's properties consults the field that produced each. |
| Encode.Corrected | emptyarray.go:11-30 | The rewrite never fails and changes nothing but nulls, which become empty arrays. |
| Encode.EncodeValue | transport_encode.go:244-250 | `encodeValue` is the one-pass encoder. |
| Walk.WalkValue | transport_encode.go:39-125 | The walk, with its cached reachability test, against its specification. |
| Walk.StructFields | transport_encode.go:133-146 | The properties jsonFields lists, walked and assembled. |
| Walk.FillingIsEncoding | transport_encode.go:39-145 | Where the walk goes it finds nothing encoding/json writes another way; then replacing each kept value by its plain encoding gives exactly `encodeValue`, failures included. |
| Walk.WalkAgreesExactly | transport_encode.go:39-145 | For every value: replacing each kept value by its plain encoding gives exactly `encodeValue` if and only if, at every place the walk goes to, self-marshalling types write what their parts are walked into, `,string` scalars are quoted as themselves, and there is no byte slice, no map with other keys than strings and no promise never made; or, where `encodeValue` fails, the walk fails too. |
| Walk.AgreesExactly | transport_encode.go:39-145 | The same for the values `encodeValue` can encode. |
| Walk.FillsExactly | transport_encode.go:39-145 | When the walk and the encoding of what it kept succeed. |
| Walk.QuotedAgrees | transport_encode.go:133-146 | What is written under `,string`, a scalar or a pointer to one, agrees exactly where the scalar is quoted as itself. |
| Walk.WalksIntoParts | transport_encode.go:63-118 | Where the walk goes into a value it writes what its parts are walked into, whether or not the value marshals itself. |
| Walk.ShownIsReached | transport_encode.go:168-231 | A value shows a transported or promised value only if its type reaches one, promoted fields included: handing the others to encoding/json loses nothing. |
| Walk.KeepsWhatIsShown | transport_encode.go:39-145 | The walk keeps exactly the transported and promised values the value shows. |
| Walk.QuotedFieldsPart | transport_encode.go:133-146 | A struct the walk goes into writes a `,string` field bare, so there the two encoders always part. |
| Walk.OwnMarshalingIsPassedOver | transport_encode.go:63-118 | A struct that marshals itself and is not claimed is written from its fields all the same: the two encoders agree on it if and only if it writes itself as the object of its fields. |
| Walk.OwnMarshalingOfAgreeableFields | transport_encode.go:63-118 | Where its fields are agreeable, if and only if its marshaler writes what encoding/json would write without it. |
| MimeType.QuotedString | fetch_data.go:178-194 | The loop collects exactly the quoted string and what follows it. |
| MimeType.CollectsWhatIsEscaped | fetch_data.go:170-194 | A value escaped and quoted is collected back, whatever follows. |
| MimeType.ParsedIsValid | fetch_data.go:121-173 | What parses is in normal form: lower-case tokens, distinct parameter names, printable values. |
| MimeType.PrintedParsesBack | fetch_data.go:121-173 | A record in normal form, printed, parses to the same type, subtype and ordered parameters, quoted values included. |
| MimeType.SerializeParams | fetch_data.go:135-171 | The parameter loop prints exactly the parameters it parses. |
| MimeType.SerializeMIMEType | fetch_data.go:121-173 | The function prints what it parses, and is a fixed point of itself. |
| MimeType.ParsesAsTheStandard | fetch_data.go:121-173 | Against the parse of section 4.4 of the WHATWG MIME Sniffing standard: the same inputs parse, to the same type and subtype, and to the same record wherever no name taken holds the Kelvin sign or a capital I with a dot. |
| MimeType.TakesWhatTheStandardTakes | fetch_data.go:135-171 | The loop takes the very parameters the standard takes, each at its place with its name and value, if and only if no name it takes holds one of these two signs. |
| MimeType.PlainInputsParseAsTheStandard | fetch_data.go:121-173 | An input without the two signs parses as the standard has it. |
| MimeType.KelvinPasses | fetch_data.go:142 | `a/b;K=v` with the Kelvin sign for a name gets the parameter `k` from the code and none from the standard. |
| MimeType.KelvinIsRepeated | fetch_data.go:142-163 | Followed by a plain `k` of the same value the records are equal though the parameters taken are not, so the condition is one on what is taken. |
| Pathname.DecodePathname | routing_path.go:13-43 | Splitting at `%25`, decoding and checking the parts, and joining is one decoding pass from the left and one UTF-8 check of the whole. |
| Pathname.SplittingIsOnePass | routing_path.go:14-42 | The split and the join change nothing: the parts decode to the one-pass result. |
| Pathname.JoinIsValid | routing_path.go:38-40 | Checking the parts for UTF-8 is checking the whole. |
| Pathname.DecodesOnce | routing_path.go:13-43 | Fully decoding the result equals fully decoding the input, raw slashes are as many, every percent sign begins `%25` or a reserved escape, and decoding again changes nothing. |
| Pathname.PathnameIsNormal | routing_path.go:13-43 | The same for what the function accepts and returns. |
| Pathname.DecodingAddsNoReserved | routing_path.go:29-33 | Decoding brings out no reserved character that was not there. |
| Pathname.PercentDecodeAll | fetch_data.go:63-74 | The URL standard's percent-decode, as the loop does it. |
| ErrorPages.NearestErrorPages | document.go:1158-1172 | All pages declared above the slot, nearest first, each attached below the nearest filled slot at or above its own. |
| ErrorPages.BuildErrorChain | document.go:1179-1199 | The chain the loops build. |
| ErrorPages.SamePage | document.go:1158-1199 | From any filled slot, with any holes, the first page of the walk and the nearest guard met walking the chain outward are the same node, or neither finds one. |
| ErrorPages.GuardsGoInward | document.go:1179-1199 | Each guard is a declared page and no page guards two slots. |
| ErrorPages.ChainLinesUp | document.go:1174-1199 | The chain lines up with the compacted branch exactly when the root layout's slot is filled. |
| TraceWriter.Sink.Append | tracing_native.go:71-83 | An operation that does not marshal or fit is dropped and nothing else is; the queue stays within its budget. |
| TraceWriter.Sink.Drain | tracing_native.go:84-91 | The queue is handed over whole. |
| TraceWriter.AnnotationsFit | tracing_native.go:225-242 | An annotation header is at most 4096 base64 characters. |
| TraceWriter.OneSinkDropsNothing | tracing_native.go:225-242 | With one sink everything queued is carried. |
| TraceWriter.DrainAll | tracing_native.go:226-237 | Across sinks, operations are taken greedily in order while they fit, and every queue is emptied. |
| TraceWriter.Writer.Annotations | tracing_native.go:225-242 | The header value for everything queued. |
| TraceWriter.Writer.Add | tracing_native.go:213-224 | A sink is added once. |
| TraceWriter.NoTrailerBesideLength | tracing_native.go:287-293 | Declaring the trailer removes a length and carries it in its own header. |
| TraceWriter.Writer.WriteHeader | tracing_native.go:244-250 | A status is held until the commit, but for an informational one. |
| TraceWriter.Writer.Write | tracing_native.go:251-266 | Bytes sent followed by bytes held equal the accepted writes in order unless the response broke; at most 2048 are held; overflow commits, and unless a status went out before any sink was added, the header that is sent declares the trailer and has no length beside it. |
| TraceWriter.Writer.Flush | tracing_native.go:267-272 | A flush sends what is held, under a header that declares the trailer beside no length. |
| TraceWriter.Writer.Commit | tracing_native.go:277-304 | The header it sends, with which status, the bytes it sends, and that a second commit does nothing. |
| TraceWriter.Writer.Finish | tracing_native.go:305-317 | Nothing stays held; the wire has exactly what was accepted; annotations since a commit go in the trailer, and with no commit everything goes in the header and no trailer is declared. |
| CookieJar.EscapingRoundTrips | event.go:274-276 | QueryEscape is undone by QueryUnescape and writes no question mark. |
| CookieJar.KeysCoincide | event.go:274-276 | Two keys are the same if and only if the names are and domain and path together read the same. |
| CookieJar.KeysAreInjective | event.go:274-276 | Keys tell cookies apart where domains hold no slash and paths begin with one. |
| CookieJar.RelativePathsCollide | event.go:354-377 | Two different cookies set by other hosts' answers, with relative paths, are stored under one key. |
| CookieJar.Jar.Get | event.go:285-304 | A read finds the applicable cookie with the longest path, the earliest key on a tie; a deletion hides the browser's own; only with none applying is the browser's read. |
| CookieJar.BestIsUnique | event.go:289-295 | That cookie is settled: there is at most one. |
| CookieJar.Jar.Store | event.go:354-360 | The order stays a duplicate-free listing of the keys written. |
| CookieJar.Jar.Set | event.go:306-352 | Only an empty name or a relative path is refused; otherwise exactly this cookie is stored. |
| CookieJar.Jar.SetInternal | event.go:366-377 | Only a path of this host's own is resolved; the value stays as it came. |
| CookieJar.Jar.WriteTo | event.go:450-464 | Every cookie's headers in key order, after those already there. |
| CookieJar.Jar.WriteMissingTo | event.go:469-489 | What is there is kept and not repeated, everything wanted is there afterwards, and after any earlier write-out nothing is added. |
| CookieJar.NothingIsMissingTwice | event.go:466-489 | Writing what is missing adds nothing exactly when the jar has been written out, which either way of writing achieves. |
| CookieJar.ParseCookieHeader | event.go:576-593 | The first occurrence of a name wins. |
| CookieJar.HeaderParsesBack | fetch.go:559-563 | A header made of plain names and values parses back to them. |
| CookieJar.ParsesBackExactly | fetch.go:559-563 | And only of such: what is parsed from any header is plain. |
| CookieJar.Jar.RequestHeader | fetch.go:530-564 | Each name once: the fetch's own value, else the last applicable key's, else the browser's; and the header parses back to exactly these pairs if and only if every cookie that comes from the jar has a plain name and, if raw, a plain value. |
| HeaderRelay.ResponseState.Set | loadevent.go:256-286 | A header is refused when it is a cookie, sealed, or set to something non-empty and not Server-Timing; otherwise it is set or added to. |
| HeaderRelay.ResponseState.DevelopmentHeaders | prerender_request.go:572-599 | The loop sends exactly what is new and what Server-Timing gained. |
| HeaderRelay.RelayRebuilds | prerender_request.go:570-599 | Over any run a relay leaves the receiver with exactly the headers set so far if and only if no call set a header already relayed empty. |
| HeaderRelay.NonEmptyNeverClobbers | loadevent.go:277-285 | In particular whenever every value set is non-empty. |
| HeaderRelay.RelayedOnce | prerender_request.go:586-598 | A relay with nothing set since sends nothing. |
| HeaderRelay.EmptyValueIsLost | loadevent.go:277-285 | The smallest run that goes wrong. |
| TrailingSlash.AcceptedExactly | static.go:1089-1111 | A path is accepted exactly when it is empty, the root, two slashes, or good segments of well-formed UTF-8 with or without a last slash. |
| TrailingSlash.OtherForm | endpoint.go:667-681 | A normalization changes a path only to its trailing-slash inversion, and normalizing again changes nothing. |
| TrailingSlash.LeadsToTheOtherForm | static.go:865-874 | By section 5.2 of RFC 3986, the relative Location made from a path, with any query, resolved against that same text leads exactly to the inversion if and only if the segment it names has no raw `?` or `#`. |
| TrailingSlash.RedirectsOnce | endpoint.go:656-681 | For every accepted path, policy and base without a last slash: the redirect is to the other form, which redirects nowhere. |
| TrailingSlash.RawQuestionMarkMisleads | static.go:865-874 | A raw question mark in the segment sends the Location elsewhere. |
| Redirects.LeadsExactly | static.go:640-770 | For every request that is routed, whose path is decoded in full: the Location, with any query, resolved against the path asked for leads to a path that is decoded as the inversion if and only if what the last raw segment is read as stands for itself. |
| Redirects.RawSegments | routing_path.go:45-51 | What is read as good segments, in full or for routing, is asked for with good raw segments. |
| Redirects.RoutedRedirectsLead | endpoint.go:409-476 | For the path a request is routed by, the Location resolved against the escaped path always leads to a path that is routed as the target. |
| Redirects.ReadsAround | routing_path.go:14-42 | Decoding, in full or for routing, works segment by segment: no escape reaches across a slash. |
| Redirects.UnescapeIsPercentDecode | fetch_data.go:63-74 | Strict unescaping is the URL standard's percent-decode wherever it succeeds. |
| Redirects.EscapedPercentMisleads | static.go:764-770 | `/a%2541` is read as `/a%41`; its redirect leads to `/a%41/`, which is read as `/aA/`. |
| Redirects.EscapedSlashMisleads | static.go:764-770 | `/a%2Fb` is read as `/a/b`; its redirect `./b/` leads to `/b/`. |
| Redirects.EscapedQuestionMarkMisleads | static.go:764-770 | `/a%3Fb` is read as `/a?b`, and its redirect does not lead to `/a?b/`. |
| Redirects.EscapedLastSlashLeads | static.go:764-770 | `/a%2F` is read as `/a/`, and its redirect does lead to `/a`. |

## Left out

- HTTP serving, sockets, the JavaScript render engine, devalue, OpenTelemetry and regular expressions are not part of this model.
- encoding/json itself: `Encode.RoundTrip` says what it writes for the values modelled; a marshaler with a pointer receiver counts as marshalling whether or not the value is addressable, and map keys are taken as encoding/json spells them, so a key type of kind string with its own MarshalText, which `jsonMapKey` spells differently, is not covered.
- Encode.EmptyArrays: the tree is rewritten as a value, not in place, so aliasing inside one decoded tree is not captured; json.Unmarshal makes no aliases.
- Encode values are finite trees: cyclic Go values, on which encoding/json fails, are not modelled, and a kept promise stands for its Deferred rather than the pointer inside.
- Walk.FillingIsEncoding: stated for values in which the walk meets nothing encoding/json writes another way; Walk.WalkAgreesExactly says for all values when the two agree.
- BranchResults.EveryInterleavingAgrees: a load is a pure function of what `Parent` answers it, with a bound on how often it asks; under a mask that is not safe it is stated for branches in which no load fails, and which loads race there beyond those of BranchRace.PartialMaskCanRace is not worked out.
- Branch and Downstream are state machines on values: the fields goroutines share are one state that one goroutine at a time changes, which is what their locks, channels and `sync.OnceValue` give; memory order below that is not modelled.
- Downstream content-type sniffing is an abstract function, and `startDownstream`'s re-raising of a panic before the commit is only the state it is told from.
- Refresh.RefreshSet.Execute: operations are data, so application code decides each turn's operations when the turn begins, from all that has happened by then.
- Refresh keeps error texts and the encoding of answers abstract; the set being absent (a call outside a command or form) is not modelled.
- PromiseTable: a promise that never settles simply keeps the loop waiting; termination is proved for promises that settle, over a finite universe of them.
- JsonFields tag syntax (`validJSONTag`, option parsing) and the reflection that fetches a field's value are parameters of a field.
- TraceWriter: operations are opaque JSON texts, base64 is known by its length only, and two writers draining one sink at once are not modelled.
- CookieJar keeps a cookie's spelling, date parsing and the resolution of a relative path abstract, and reads the received cookies as a map.
- HeaderRelay takes names in lower case and one response state; the error paths of SetHeader outside a load or action are not modelled.
- MimeType text is code points; what is not UTF-8 is U+FFFD. The rest of `fetchDataURL` and base64 decoding are not part of this model.
- TrailingSlash path.Clean is modelled for paths that begin with a slash, the only ones `normalizePath` gives it.
- Redirects resolve by RFC 3986 alone: a client that reads a backslash as a slash, or drops or escapes control characters and spaces in a Location, is not modelled; nor is a rerouted request, whose path is not the one the client asked for.
- Mutexes around the jar, the promise table, the sink and the header state: each method is one step.
- Document assembly, CSP, the boot script, parameter matchers, registries, option tables, development fetch exchange, prerender service, plugins, CLI, timers, hashing and tokens would add easy members or foreign code.
