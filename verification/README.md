# Verified model of rustls-ffi

rustls-ffi is a C interface to rustls. TLS itself happens inside rustls and is opaque here. What
rustls-ffi adds is state of its own: reference counts behind the pointers that C holds, a
per-thread stack of userdata pointers, a broker for session callbacks, config builders and root
stores, two routes by which a certificate is chosen, and the demo programs' plaintext buffer and
header scanner with the client's read loop. This project models that state in Dafny and proves
properties of whole runs.

| file | what it models |
|---|---|
| `HandleHeap.dfy`, `HandleApi.dfy`, `HandleRuns.dfy` | handles: strong counts, the API calls that take and give them back, and whole runs |
| `UserdataStack.dfy`, `CallTrees.dfy` | the userdata stack with its guards, and nested calls of `process_new_packets` |
| `SessionStore.dfy` | the session store broker over arbitrary C callbacks |
| `KeySelection.dfy` | choosing a certificate directly and through a ClientHello callback |
| `RootStore.dfy`, `ConfigBuilders.dfy` | root stores and the two config builders |
| `ResultCodes.dfy` | result codes and the translation of certificate errors |
| `ByteSearch.dfy`, `HttpHeaders.dfy`, `PlaintextBuffer.dfy` | the demo's `memmem`, header scanner, growable buffer and drain loop |
| `HttpResponse.dfy`, `ClientLoop.dfy` | the demo's response: one look at a partly received one, and the client's loop over many network reads |
| `Base.dfy` | `Option`, shared by all modules |

## Main results

- **Reference counting is a tracing collector.** The specification of a run (`Effect`, `RunEffect`)
  has no counts: after each call the live objects are those reachable from the pointers C still
  holds. `Run` proves that the counted process does exactly this in every legal run, that every
  count equals its owners, and that nothing is left once C holds nothing. The key lemma is
  `CountedIsCollected`. Setters that fail in the middle of a key list restore every count. Two laws
  of runs follow: a builder that is neither freed nor built in between gives a config iff it is a
  client's or some call installed a resolver (`BuildAfterRun`), and once C holds a connection only,
  exactly that, its config and what the config holds are alive (`LastConnection`).
- **The stack is lexical scope.** `RunActions` and `ProcessNewPackets` prove, for every finite tree
  of nested calls with any mix of success, error and panic, that the stack comes back unchanged,
  that every guard pops without an error (during unwinding too, where the code discards the
  result; the stack's own record of pops says so), and that every lookup answers as in `Scoped`, a
  specification without a stack. In terms of C alone: a callback sees what the last setters before
  the call gave, wherever in the body it looks (`SettersSeen`), and what it sets itself stays set
  however the call ends (`InnerSetterStays`).
- **The broker is a family of maps.** For any callbacks that keep to the buffer they are offered, a
  run with nested calls has exactly the store and the replies that passing each operation on, in
  order and under the innermost userdata, gives (`RunAll`, `Serve`). For callbacks that meet the
  documented contract, including puts that fail halfway, these are the replies of one map per
  userdata pointer (`ServeExplained`, `RunBroker`), and what was put is what a later get answers
  (`StoredThenFound`). A nested call touches the maps of its own frames only (`RunBroker`).
- **Both certificate resolvers choose the same key**; `ResolveBothWays` states exactly when not.
- **The demo's search is exact except for one family of inputs.** `memmem` compares the whole needle
  at a first byte near the end, so it can report a match that runs past the haystack. `FalseMatch`
  gives such an input and `SearchCorrectIff` the exact condition on the bytes. `InMemory` says what
  memory the comparisons need; `Memmem` has to show that each stays inside it. The header scanner
  inherits this: `SealedIff` says when all its searches are exact, and `GetFirstHeaderValue` says
  for every block what it returns and exactly when it leaves the block (`Escapes`, with the input
  `ScannerEscapes`). Its answer is the same for names that differ in the case of letters
  (`ScanIgnoresCase`).
- **Each setting is the last one that a call gave**, said in terms of the calls: which client
  certificates a server asks for (`ServerAuthIs`), which server certificates a client accepts
  (`ClientVerifierIs`), and so on for every field of both builders.
- **A response is received unless a read stops in one bad place.** The client looks for the head
  after every network read, so also in a partial head, where that false match matters.
  `PartialSearch` gives the search's answer on every proper prefix of a head, `EarlySpill` a
  response on which it goes wrong after 16 bytes. `ClientLoop.ReceiveResponse` covers every split
  of a response over rounds. The client gives up iff some round's buffer spills to the wrong place,
  completes iff after some round the head is known and the body is there, and otherwise fails or
  ends only for a cause in the next read, which the contract names. `SpillPossibleIff` shows that a
  spill is possible exactly after 16 or 17 bytes. So a response that arrives smoothly, with room for
  it and no round that ends there, is printed with its body (`RunClient`, `SmoothSucceeds`). `FitsIff`
  states for which sizes the server's own buffer is large enough: at most eight digits.

Conventions: the address of a new object, the outcome of parsing and of TLS set-up, panics, the
reads' sizes and the largest size `realloc` grants are parameters. NULL pointers are `None` or
`null`. `size_t` arithmetic in the buffer and the client loop wraps at 2^64; no object exceeds
PTRDIFF_MAX. The sum computed by `bytevec_ensure_available` wraps iff length and request reach
2^64; the call then reports success without making room (`NewSizeExact`, `WrappedRequest`).

Where code and documentation differ, the model follows the code: `rustls_client_config_builder_use_roots`
is documented as adding to a reference count of the store, but it clones the store's contents.

## Model

| member | source | states |
|---|---|---|
| HandleHeap.CountedIsCollected | src/lib.rs:350-380 | a typed heap whose counts equal owners plus held references is exactly what a tracing collector keeps from the owners |
| HandleHeap.NoOwnersNoHeap | src/lib.rs:350-380 | without owners nothing is allocated: held references cannot keep each other alive |
| HandleHeap.CountedClosed | src/lib.rs:350-380 | no handle and no live object refers to a released object |
| HandleHeap.CountsDetermined | src/lib.rs:350-380 | the counts are a function of the objects and the owners |
| HandleHeap.ResolverReleased | src/server.rs:279-279 | dropping a replaced resolver gives back exactly one count per key in its list |
| HandleApi.Process.DropRefs | src/cipher.rs:385-388 | cascading release terminates, keeps the counting law, and leaves what the remaining owners reach |
| HandleApi.Process.ToArc | src/lib.rs:366-375 | rebuilding, cloning and forgetting adds one count; NULL changes nothing |
| HandleApi.Process.Create | src/cipher.rs:298-321 | a successful constructor (key, verifier or builder) adds one object owned by C; a failure adds nothing |
| HandleApi.Process.Free | src/cipher.rs:380-390 | free removes the handle and leaves exactly what the other handles reach; NULL is fine |
| HandleApi.Process.SetClientVerifier | src/server.rs:167-193 | the builder holds a counted reference to the new verifier, keeps its resolver, and the old verifier is released; NULL changes nothing |
| HandleApi.Process.SetHelloCallback | src/server.rs:571-586 | the builder keeps its verifier and refers to the new resolver; the keys of the old one are released; NULL changes nothing |
| HandleApi.Process.TakeKeys | src/server.rs:274-278 | a NULL at any position gives back every count taken so far; otherwise one count per occurrence is held |
| HandleApi.Process.GiveBack | src/server.rs:276-276 | dropping the vector of an early return restores the heap, counts included |
| HandleApi.Process.InstallResolver | src/server.rs:279-279 | after the assignment exactly the replaced resolver's key counts are lower |
| HandleApi.Process.InstallClones | src/server.rs:413-419 | while the vector is cloned each key is held twice per occurrence |
| HandleApi.Process.SetCertifiedKeys | src/server.rs:266-282 | OK iff nothing is NULL; then the resolver has exactly these keys in order, one count more per occurrence, and the replaced list is released; an error leaves the heap as it was |
| HandleApi.Process.SetCertifiedKey | src/client.rs:439-455 | the same for the client, whose vector moves into the resolver |
| HandleApi.Process.Unbox | src/lib.rs:331-337 | taking the builder out of its Box makes its references the running code's |
| HandleApi.Process.Build | src/server.rs:287-307 | NULL iff a server has no resolver; otherwise a config of the same side with the same verifier and resolver; the builder is consumed in any case |
| HandleApi.Process.ConnectionNew | src/server.rs:335-353 | a connection holds one count of its config; refusal and panic leave the heap as it was, with their codes |
| HandleRuns.Invoke | src/lib.rs:330-380 | each API call has the effect that the count-free specification gives it |
| HandleRuns.Run | src/lib.rs:330-380 | every legal run keeps counts exact and equals the count-free specification; with no handles left the heap is empty |
| HandleRuns.FreesInAnyOrder | src/connection.rs:546-552 | freeing distinct handles in any order ends in the same state |
| HandleRuns.KeyOutlivesHandle | src/cipher.rs:291-296 | a key freed by C lives on in the config that holds it, and is released with the config iff no other handle reaches it |
| HandleRuns.BuilderRun | src/server.rs:167-282 | through any calls that neither free nor build it, a builder has a resolver iff it had or was given one, and the last verifier set |
| HandleRuns.BuildAfterRun | src/client.rs:486-500 | after such calls building gives a config of the builder's side iff it is a client's or some call installed a resolver |
| HandleRuns.ConnectionKeeps | src/connection.rs:546-552 | a connection alone keeps itself, its config, the config's verifier and resolver, and the resolver's keys, and nothing else |
| HandleRuns.LastConnection | src/connection.rs:546-552 | after C frees all but a connection, in any order, exactly that is left |
| UserdataStack.ThreadLocal.Push | src/lib.rs:140-159 | pushes one entry and returns a guard for it, or an error and no change |
| UserdataStack.ThreadLocal.Last | src/lib.rs:161-187 | answers with the top entry, or says why it cannot; the borrow flag is restored |
| UserdataStack.Guard.TryPop | src/lib.rs:93-115 | pops one entry for a guard that has not popped, with every error case, and records the result |
| UserdataStack.Guard.Drop | src/lib.rs:118-122 | pops for a guard that has not popped; the result that the code discards is recorded |
| UserdataStack.Guard.TryDrop | src/lib.rs:89-91 | the second pop that `Drop` makes has no effect after a pop, and otherwise repeats the error |
| UserdataStack.HeightIsPending | src/lib.rs:61-122 | over any history the height is the number of guards still to pop, and no pop finds the stack empty |
| UserdataStack.PopsAtMostOnce | src/lib.rs:118-122 | a guard that has popped stays popped and using it again changes nothing |
| UserdataStack.RunGuardOp | src/lib.rs:61-122 | a push, drop, try_pop or try_drop on real guards is one step of the history, with its recorded results |
| UserdataStack.RunFrom | src/lib.rs:61-122 | any history on real guards: final state and all recorded results |
| UserdataStack.RunGuards | src/lib.rs:61-122 | from an empty stack: the height is the number of guards still to pop, and no recorded pop found the stack empty |
| UserdataStack.DropGuards | src/lib.rs:118-122 | dropping real guards in any order has the stack and the recorded results of `DropAll` |
| UserdataStack.DropAllTop | src/lib.rs:246-259 | dropping k guards in any order removes the top k entries; each drop succeeds iff its pointer is the one then on top |
| CallTrees.ProcessNewPackets | src/connection.rs:248-266 | on success, error and panic alike: stack unchanged, the pops recorded are one Ok per guard pushed in the tree, and the code is that of the processing |
| CallTrees.RunActions | src/connection.rs:111-130 | the observations of any tree of nested calls equal those of lexical scoping, and the pops recorded are all Ok |
| CallTrees.RunAction | src/lib.rs:161-187 | each single lookup, setter or nested call has its lexically scoped meaning; a lookup answers with the top of the stack, a setter changes its field and no other |
| CallTrees.CapturedPair | src/lib.rs:175-187 | lookups and logging get the pair captured at entry, whatever setters and nested calls come before or after |
| CallTrees.NestingInvisible | src/lib.rs:42-51 | what follows nested calls is read in the same environment as before them |
| CallTrees.FieldKept | src/connection.rs:111-130 | a field changes only when some action, at any depth, sets it |
| CallTrees.LastSetter | src/connection.rs:111-130 | the last setter decides a field, whatever happens before it or to other fields |
| CallTrees.InnerSetterStays | src/connection.rs:111-130 | what a callback sets stays set, however the call around it ends |
| CallTrees.CallShowsFields | src/connection.rs:248-266 | a call shows its callbacks the connection's own pair, wherever they look |
| CallTrees.SettersSeen | src/connection.rs:111-130 | what the last setters gave is what a later call shows, anywhere in its body |
| SessionStore.Broker.Retrieve | src/session.rs:93-121 | one call of the get callback under the current userdata decides reply and store; without userdata nothing is called |
| SessionStore.Broker.Store | src/session.rs:123-133 | one call of the put callback under the current userdata; true iff it returned OK; without userdata false and no call |
| SessionStore.Perform | src/session.rs:136-147 | put, get and take are the broker's store and retrieve with the right removal flag |
| SessionStore.RunAll | src/session.rs:136-152 | any callbacks that keep to their buffer, any nesting: store and replies are those of passing each operation on in order under the innermost userdata |
| SessionStore.AskExplained | src/session.rs:16-35 | one request agrees with the map of its userdata: lookup with removal of values that do not fit, update, or a failing put under its key only |
| SessionStore.ServeExplained | src/session.rs:16-35 | any sequence of requests is explained by a family of maps |
| SessionStore.NoPutRefused | src/session.rs:131-132 | a put callback that always succeeds makes every put succeed |
| SessionStore.FlattenNested | src/connection.rs:248-266 | the operations of a nested call run in order under the userdata of that call |
| SessionStore.FlattenUsers | src/session.rs:123-133 | every operation runs under the caller's userdata or that of a frame around it |
| SessionStore.RunBroker | src/session.rs:136-152 | every run with callbacks that meet the contract: the exact replies, explained by a family of maps; only the maps of the frames' userdata (and the caller's, for its own operations) change; no put is refused without cause |
| SessionStore.Undisturbed | src/session.rs:16-30 | a session survives everything that does not ask for it under the same userdata |
| SessionStore.LookupDetermined | src/session.rs:93-121 | a lookup can get exactly one reply: the stored value if it fits the buffer, otherwise nothing |
| SessionStore.LastWriteFound | src/session.rs:16-30 | a lookup answers with the last value stored, or nothing when it is larger than the buffer |
| SessionStore.StoredThenFound | src/session.rs:16-35 | through the callbacks: a get answers what a successful put stored, whatever is asked for in between elsewhere |
| SessionStore.GoneAfter | src/session.rs:21-30 | a value taken, or found too large, is gone |
| SessionStore.ContractIsMet | src/session.rs:16-35 | the documented contract is satisfiable: a plain map store meets it |
| KeySelection.CodePointTable | src/server.rs:590-612 | the named code points: hash and signature numbers of RFC 5246, and those that RFC 8446 adds |
| KeySelection.CodePointSurvives | src/server.rs:590-612 | decoding then encoding any u16 is the identity |
| KeySelection.SchemeSurvives | src/server.rs:590-612 | one scheme comes back iff it is not an unnamed one with a named code point |
| KeySelection.SchemesSurvive | src/server.rs:519-523 | encoding then decoding a list is the identity iff unnamed schemes have unnamed code points |
| KeySelection.ResolveFromChoices | src/server.rs:421-434 | returns the earliest compatible key, or none when there is none |
| KeySelection.FirstIsUnique | src/server.rs:421-434 | the earliest compatible key is unique, so two resolvers that both find it agree |
| KeySelection.SelectCertifiedKey | src/server.rs:629-653 | the loop computes the scan of the pointer array, with every NULL case |
| KeySelection.ScanStops | src/server.rs:642-651 | the first pointer that is NULL or compatible decides the result |
| KeySelection.NullsMatter | src/server.rs:642-651 | NULLs do not change the choice iff none stands before it |
| KeySelection.ResolveByCallback | src/server.rs:507-547 | what the callback resolver passes on and when it gives up |
| KeySelection.CallbackAgrees | src/server.rs:519-545 | a callback that uses the selection function finds the earliest compatible key |
| KeySelection.ResolveBothWays | src/server.rs:507-547 | the two resolvers agree iff no key is compatible or the callback is reached |
| RootStore.AddPem | src/cipher.rs:479-505 | NULL is refused; otherwise appends the parsable certificates or changes nothing, strictness as documented |
| RootStore.RootCertStore.Add | src/cipher.rs:487-503 | the temporary store makes the addition all-or-nothing, with every error code |
| RootStore.StrictTest | src/cipher.rs:498-500 | the two counts decide a strict addition |
| RootStore.RootCertStore.AddParsable | src/cipher.rs:496-497 | keeps the parsable certificates in order and counts both kinds |
| RootStore.RootCertStore.Snapshot | src/cipher.rs:543-544 | the copy has the same roots and is a new object |
| RootStore.RootCertStore.RunWithCopy | src/cipher.rs:540-545 | a store is the in-order concatenation of the successful additions; a copy keeps what it had |
| RootStore.ParsableAll | src/cipher.rs:496-500 | the rejection count is zero iff every certificate parses, and then all are kept |
| RootStore.ParsableKept | src/cipher.rs:496-497 | kept are exactly the certificates that parse |
| RootStore.ParsableOne | src/cipher.rs:496-497 | one certificate is kept iff it parses |
| RootStore.ParsableAppend | src/cipher.rs:496-497 | what is kept of two lists in a row is what is kept of each, in order |
| RootStore.AddedIs | src/cipher.rs:496-503 | a strict call contributes all or nothing, any other each certificate that parses as often as it occurs |
| RootStore.ContentsGrow | src/cipher.rs:502-502 | additions only append |
| ConfigBuilders.CopyArray | src/client.rs:403-408 | an array is copied in full, or not at all when an element is NULL |
| ConfigBuilders.LoadRoots | src/client.rs:341-380 | the roots of a file all of whose certificates parse, or the error code |
| ConfigBuilders.ClientConfigBuilder.Call | src/client.rs:302-424 | a setter writes its field, or fails with the code for its cause and changes nothing |
| ConfigBuilders.ClientVerifierIs | src/client.rs:302-380 | the verifier is that of the last call that gave a callback, roots or a clean file; at first it rejects everything |
| ConfigBuilders.ClientKeysAre | src/client.rs:439-455 | the keys are those of the last array without a NULL, in order |
| ConfigBuilders.ClientAlpnIs | src/client.rs:394-411 | the protocols are those of the last array without a NULL, in order |
| ConfigBuilders.ClientSniIs | src/client.rs:416-424 | SNI is as last set, and enabled at first |
| ConfigBuilders.ClientConfigBuilder.RunAndBuild | src/client.rs:486-500 | each field of the built config is the last successful write |
| ConfigBuilders.KeepsRejectAll | src/client.rs:71-108 | a client keeps the verifier that rejects everything iff no verifier setter succeeded |
| ConfigBuilders.EmptyFileSucceeds | src/client.rs:366-378 | a file without certificates is no error: it installs a verifier without roots |
| ConfigBuilders.CallClient | src/client.rs:302-424 | a setter through a pointer: a NULL builder is refused, otherwise the call decides |
| ConfigBuilders.CallServer | src/server.rs:212-251 | the same for the server's setters |
| ConfigBuilders.ServerConfigBuilder.Call | src/server.rs:212-251 | a setter writes its field, or fails for a NULL and changes nothing |
| ConfigBuilders.ServerAuthIs | src/server.rs:167-193 | client certificates are required, or optional, as the last verifier setter says; at first none are asked for |
| ConfigBuilders.ServerCertIs | src/server.rs:266-282 | the resolver has the keys, or the callback, of the last call that gave one |
| ConfigBuilders.ServerAlpnIs | src/server.rs:234-251 | the protocols are those of the last array without a NULL, in order |
| ConfigBuilders.ServerStorageIs | src/server.rs:664-684 | the session callbacks are the last pair without a NULL, get and put in their places |
| ConfigBuilders.ServerOrderIs | src/server.rs:212-222 | the cipher order is as last set |
| ConfigBuilders.ServerConfigBuilder.RunAndBuild | src/server.rs:287-307 | each field of the built config is the last successful write; NULL without a resolver |
| ConfigBuilders.BuildableIff | src/server.rs:293-297 | a config results iff some call installed keys or a hello callback |
| ConfigBuilders.LastWriteAt | src/server.rs:287-307 | last write, by position |
| ResultCodes.VerifyCallbackRoundTrip | src/client.rs:258-264 | only 7000 accepts; certificate codes come back unchanged; every other u32 becomes General |
| ResultCodes.CertErrorRoundTrip | src/error.rs:68-83 | which errors survive translation to a code and back |
| ResultCodes.CertificateCodes | src/error.rs:68-83 | each certificate error has its code, both ways |
| ResultCodes.CertCodesDistinct | src/error.rs:229-279 | a certificate error's code determines the error, up to the text of invalid data |
| ByteSearch.Memmem | tests/common.c:270-293 | the answer, the empty needle included, with every comparison inside memory |
| ByteSearch.Memcmp | tests/common.c:280-280 | compares bytes that must all be in memory |
| ByteSearch.ComparedInMemory | tests/common.c:278-281 | the condition on memory covers each comparison the search makes |
| ByteSearch.SlackSuffices | tests/common.c:270-293 | one byte less than the needle after the haystack is always enough |
| ByteSearch.Memchr | tests/common.c:279-279 | the first occurrence of a byte |
| ByteSearch.SearchCorrectIff | tests/common.c:270-293 | the answer is the leftmost occurrence iff the needle occurs or the tail does not spill into a match |
| ByteSearch.FalseMatch | tests/common.c:278-281 | an input on which a match past the end is reported |
| HttpHeaders.Strncasecmp | tests/common.c:332-332 | comparison without case that ends at a NUL |
| HttpHeaders.FoldsLetters | tests/common.c:332-332 | folding identifies exactly the two cases of each of the 26 letters |
| HttpHeaders.SameNameIff | tests/common.c:332-332 | the comparison is equality up to case at every position up to the first NUL |
| HttpHeaders.GetFirstHeaderValue | tests/common.c:307-346 | the first qualifying line's value; without one, NULL, except that it leaves the block iff the end cuts a CRLF and the last line is long |
| HttpHeaders.NextCandidateLine | tests/common.c:318-331 | one step skips no qualifying line, and leaves the block exactly when the length wraps |
| HttpHeaders.ScanIsUnique | tests/common.c:307-346 | the scanner's answer is determined |
| HttpHeaders.ScanIgnoresCase | tests/common.c:332-332 | names that differ in case only have the same answer |
| HttpHeaders.FoundInAnyCase | tests/common.c:332-342 | the first line with the name in any case gives its value up to the next line break |
| HttpHeaders.LowerCaseLine | tests/common.c:332-332 | a lower-case content-length line is found |
| HttpHeaders.ShortestHeader | tests/common.c:318-331 | a header needs a byte after its colon and a line break before it |
| HttpHeaders.SealedScan | tests/common.c:307-346 | on a sealed block the scanner stays inside and finds the first header's value |
| HttpHeaders.ScannerEscapes | tests/common.c:323-325 | a block that the scanner leaves |
| HttpHeaders.BreakSearched | tests/common.c:319-319 | the search finds the first line break, or else the one that an unsealed block's end cuts |
| HttpHeaders.NextLine | tests/common.c:323-331 | the next line that can qualify follows the next line break, so none is skipped |
| HttpHeaders.FirstHeaderIsUnique | tests/common.c:307-346 | the answer is determined |
| HttpHeaders.SealedIff | tests/common.c:318-325 | all searches for a line break are exact iff the block's end does not cut a CRLF in two |
| HttpHeaders.ValueEndsInBlock | tests/common.c:336-342 | in a block that ends in CRLF the value is followed by one |
| PlaintextBuffer.ByteVec.EnsureAvailable | tests/common.c:187-207 | for every request: contents kept, room made iff the sum does not wrap, failure iff realloc refuses; each reallocation is counted with the bytes it moves, and growth is amortized |
| PlaintextBuffer.NewSizeExact | tests/common.c:194-197 | the size asked for, in `size_t` arithmetic: enough iff the sum does not wrap |
| PlaintextBuffer.WrappedRequest | tests/common.c:194-194 | a request for 2^64 - 1 bytes that asks `realloc` for two |
| PlaintextBuffer.ByteVec.Realloc | tests/common.c:198-204 | the contents move to a larger buffer |
| PlaintextBuffer.ByteVec.Consume | tests/common.c:178-182 | the length grows by n and the amortized bounds are kept |
| PlaintextBuffer.PlaintextReader.Read | src/connection.rs:464-496 | NULLs are refused; moves bytes from the queue to the buffer; zero bytes into a non-empty buffer only on a clean close |
| PlaintextBuffer.CopyPlaintext | tests/common.c:213-247 | terminates; bytes are conserved in order; success drains the queue, EOF means clean close, and room for 1024 bytes is left |
| PlaintextBuffer.ReadOnce | tests/common.c:225-240 | one read conserves the bytes and makes progress or tells why not |
| PlaintextBuffer.BodyBeginning | tests/common.c:295-305 | the search's answer plus four, with reads inside the capacity |
| HttpResponse.DecimalValue | tests/server.c:136-136 | printing a number and reading it back |
| HttpResponse.DecimalAppend | tests/server.c:136-136 | the least significant digit is printed last |
| HttpResponse.DemoHead | tests/server.c:126-136 | the head that the demo server sends, byte by byte |
| HttpResponse.FitsIff | tests/server.c:127-139 | the response fits its buffer iff the size has at most eight digits |
| HttpResponse.BodyFound | tests/client.c:237-239 | once the head has arrived the blank line is found where the body begins |
| HttpResponse.PartialSearch | tests/client.c:236-237 | before that the search answers None iff the tail does not spill, and spills only to position 15 or to the head's own blank line |
| HttpResponse.EarlySpill | tests/client.c:236-248 | after 16 bytes of any response, stale memory can make the search report position 15 |
| HttpResponse.LengthFound | tests/client.c:241-245 | the Content-Length lookup finds the text that was printed |
| HttpResponse.LengthRead | tests/client.c:250-251 | the number read is the number written, up to the largest unsigned long |
| HttpResponse.TextRead | tests/client.c:250-252 | white space is skipped, reading stops at a byte that is no digit, and text without a digit is no number |
| HttpResponse.JudgeBlock | tests/client.c:241-260 | in a sealed block, what scanner and `strtoul` determine |
| HttpResponse.ReadHead | tests/client.c:236-260 | any buffer: nothing, a head without usable length, or both numbers, as search, scanner and `strtoul` determine |
| HttpResponse.LookAtGenuine | tests/client.c:236-260 | on any genuine start of a response: both numbers iff the head shows, giving up iff a wrong spill, otherwise nothing |
| ClientLoop.Round | tests/client.c:95-143 | one drain appends exactly what arrived; the result is determined by how the connection closes, except where `realloc` refuses |
| ClientLoop.Inspect | tests/client.c:236-260 | records the buffer it looked at; a look is bad iff it spills to the wrong place; the head is known iff some look showed it |
| ClientLoop.HasAll | tests/client.c:262-265 | the client stops at head plus length, modulo 2^64, and then has the body |
| ClientLoop.Judge | tests/client.c:236-265 | gives up, completes or goes on, each with its reason |
| ClientLoop.Turn | tests/client.c:225-266 | one turn of the loop keeps what is known or stops for a stated cause |
| ClientLoop.ReceiveResponse | tests/client.c:225-266 | any split over rounds: gives up iff a look spills to the wrong place, completes iff the body is there, fails or ends only for a cause in the next read |
| ClientLoop.FinalDrain | tests/client.c:292-296 | the drain after the loop changes nothing and cannot fail |
| ClientLoop.SmoothSucceeds | tests/client.c:225-303 | conditions checked beforehand under which the whole body is received |
| ClientLoop.RunClient | tests/client.c:225-306 | prints exactly what the rounds brought, iff the loop completes or the server closes cleanly; under those conditions the body is printed |
| ClientLoop.SpillPossibleIff | tests/client.c:236-237 | stale memory can mislead the client exactly after 16 or 17 bytes |
| ClientLoop.NoSplitNoSpill | tests/client.c:236-237 | nothing goes wrong unless a round ends after 16 or 17 bytes |

## Left out

- rustls, webpki, rustls-pemfile and sct: handshake, records, PEM and certificate parsing and `choose_scheme` are parameters.
- Destructors of payloads at the last release: counts and holders are modelled, not what rustls frees inside an object.
- Internal `Arc`s without references of their own (server-certificate verifiers, session brokers): they cannot keep a handle alive.
- `rustls_{client,server}_config_builder_new_custom`: the lists are looked up in a constant table and go to rustls; no later call of the model depends on them.
- `rustls_connection_get_negotiated_ciphersuite` and the other slice accessors: single lookups.
- `rustls_server_connection_get_sni_hostname` writes `*out_n = 0` on InsufficientSize, so "outputs are written only on success" does not hold there; it is not part of this model.
- The table of `map_error` for errors that no verifier reports (such errors are represented by their codes), `Display` strings and `rustls_error`.
- `src/io.rs`, sockets, select loops, log registration and `write_all`: plumbing over foreign calls.
- Data races: each thread has its own stack; concurrent use of one handle is the caller's obligation.
- The client's select loop, `CRUSTLS_DEMO_AGAIN`, errors of `read_tls` or `process_new_packets`, and of the write to stdout: such a read brings no plaintext, and an error ends the client as `Failed` does.
- What the scanner reads after it has left its block (`LeavesBlock`): undefined behaviour of the C program.
- HttpResponse.LengthRead: `strtoul`'s optional sign is not modelled, because the server never prints one.
