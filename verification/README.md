# Glutton, verified in Dafny

Glutton is a honeypot: it accepts connections on every port, chooses a handler by rule or by a look at the first bytes,
and records what it is sent. This project models the parts of it where state, loops or interleavings meet, and proves
what those parts promise for every input, every run and every interleaving.

`dafny verify dfyconfig.toml` checks everything.

## What is modelled

**Spicy values and their keys.** The bridge flattens a parsed value to fields named like `headers[0].name`; a Go helper
nests such a flat map again, visiting it in the runtime's order. `Keys` is the grammar of one key, `Trees` the effect
of writing one value into a tree, `Building` and `FlatMaps` the effect of writing many, `Orders` which maps nest alike
in every order, `Flatten` the bridge's recursion and the shape it leaves of a value, `Wholes` the value's own tree,
`RoundTrip` and `Identity` the two directions together, and `Nested` the Go code on its heap of maps and slices. A
`Layout` is a ghost picture of that heap: the tree every map and slice stands for, and the one place that refers to it.

**The field buffer and the worker.** `ParsedBuffer` is the growable array on a C heap in which any allocation of an add
may fail; a ledger gives each live block its one role. A whole dump, of which `Walks` says which fields it keeps, may
end in an exception after any number of fields, and is followed for as long as a growth that is refused can say so.
`ParseCall` reads a result into a Go map, frees it and nests it. `Worker` is the command and reply protocol as a
machine over any number of concurrent calls, time-outs, drains and one shutdown.

**The TCP proxy.** `Pipes` is one direction as a machine whose environment chooses chunk sizes and errors, `Duplex` two
of them over the same two sockets, and `Proxy` the Go code, whose every execution is shown to be a run of that machine.

**Detection and MongoDB.** `Peeking` is the buffered connection and its nesting, `Detect` the byte classifier,
`Dispatch` the `tcp` handler, `MongoDB` the message reader and responder.

**Rules, table, listener.** `Addresses` splits and joins host and port, `Rules` initialises rules in place and finds
the first match, `Connections` is the connection table over time, `Listener` the accept loop with the ticker beside it.

One `char` of a string stands for one byte, except in rule files, where it stands for one code point. I/O, clocks,
hashes, packet filters and the Spicy parsers are parameters, nondeterministic choices or left open; a time-out is an
error that the environment may choose.

## What the proofs found

- Flattening and nesting give back a struct exactly when its names are free of `.`, `[` and NUL, no container is empty,
  no list is directly in a list, no field with an empty name at the top is itself a struct or dictionary, no text has a
  NUL in it, and nothing lies more than 64 levels below the top or a reference but text that reads `<depth-limit>`
  (`Identity.RoundTripIsIdentityExactly`). Two that fail in one of these alone are in
  `Identity.NulIsLost` and `Identity.DepthIsLost`. A printed key reads as its path exactly when no index follows an
  index and no empty name stands at its front before another (`Keys.KeyRoundTripExactly`).
- A map nests alike in every order exactly when each two of its keys part ways at a step of one kind, or read alike and
  hold the same value (`Orders.OrderIndependentExactly`); some order always succeeds, and all do exactly when no key
  steps into a map where another leaves a leaf or a slice (`Orders.NilExactly`).
- The comments at protocols/spicy/bridge.cpp:51-52 and 172-174 promise more than the code. The buffer stays sound
  through a failed growth exactly when the message about it can be stored (`ParsedBuffer.ParsedData.AddField`), and a
  new buffer can fail to (`ParsedBuffer.SilentGrowth`). The depth limit bounds the calls that are open at once exactly
  when no chain of values through a reference among its first 65 is longer than 66 (`Flatten.LimitHoldsExactly`); each
  reference on a path can add at most a whole limit (`Flatten.FramesAreBounded`), and a tower of references is followed
  to its end (`Flatten.ReferencesLiftTheLimit`).
- An exception that comes after a recorded error overwrites the message at protocols/spicy/bridge.cpp:361-366, and that
  one block is never freed; nothing else is lost, and nothing in any other case (`ParsedBuffer.ParsedData.SetError`,
  `ParsedBuffer.ParseGeneric`, with an input in `ParsedBuffer.ExceptionAfterError`).
- A field that cannot be copied and whose error message cannot be stored either is missing from a result without an
  error (`ParseCall.SilentLoss`); the fields of a result without an error are complete exactly when no message was lost
  (`ParseCall.Parse`).
- The fallback of the `tcp` handler reads the whole stream exactly when Spicy is off: the connection of the second peek
  shadows the first at protocols/protocols.go:102, and the bytes it read ahead are gone (`Dispatch.Handle`). Sixteen
  zero bytes take that way (`Dispatch.SomeStreamFallsBack`).
- MongoDB lengths 1 to 15 pass the guard at protocols/tcp/mongodb.go:77 and the classifier, and panic at line 85
  (`MongoDB.GuardedButUnsliceable`).
- A connection carries the rule that first matched its key and has not been flushed, whatever it was routed by
  (`Listener.Glutton.Serve`); one routed by a `proxy_tcp` rule dials exactly when its key is fresh or that older rule
  is a proxy rule too, and then it is the older rule's target that is dialled (`Listener.AcceptProxied`).
- The report of a pipe carries the first of its errors in the order io.Copy looks at them
  (`Pipes.FirstErrorIsReported`). That is the first that occurred exactly unless a read that brought an error along
  with bytes is followed by a write that fails otherwise, or a short write by a half-close that fails
  (`Pipes.FirstOccurredExactly`; a run is in `Pipes.WriteOvertakesRead`).
- The comment at protocols/tcp/proxy_tcp.go:197 asks for more than 80% printable bytes; the code asks for 81% because
  it rounds down first (`Proxy.IsLikelyText`); 17 printable bytes of 21 are not enough (`Proxy.NotQuiteText`).
- A null result of the C parser crashes its call, and nothing else does (`Worker.FreedExactlyOnce`); a run that ends so
  is in `Worker.NullCrashes`.

## Model

| member | source | states |
|---|---|---|
| GoStrings.AtoiItoa | protocols/spicy/helpers.go:93 | the decimal index the bridge prints is the index the helper parses, for every 64-bit index |
| GoStrings.AtoiReads | protocols/spicy/helpers.go:93 | digits, with a sign or without, are read as the number they stand for, clamped when it is out of range |
| GoStrings.AtoiNeedsDigits | protocols/spicy/helpers.go:93 | nothing else is a number |
| Keys.PrintedKeyReadsAs | protocols/spicy/helpers.go:87-97 | a printed key of clean steps is well formed and reads as its path with indices after an index dropped |
| Keys.KeyRoundTripExactly | protocols/spicy/bridge.cpp:188-230 | a printed key of clean steps, empty names included, reads back as its own path if and only if no index directly follows an index and no empty name stands at the front before another name |
| Keys.LongerSegment | protocols/spicy/helpers.go:90-93 | only the first bracket of a segment is read: whatever follows it changes neither base nor index |
| Keys.IndexReads | protocols/spicy/helpers.go:90-97 | digits in brackets are the index if one more fits an int, negative ones and larger ones panic, and text that does not start like a number is the index 0 |
| Keys.UnclosedPanics | protocols/spicy/helpers.go:92-93 | a bracket that is not closed makes the helper panic |
| Trees.InsertCommutes | protocols/spicy/helpers.go:85-131 | writes at compatible paths commute, also when one of them cannot be made |
| Trees.IncompatibleDoNotCommute | protocols/spicy/helpers.go:85-131 | two different writes at incompatible paths, starting from nothing, are told apart by their order |
| Trees.OrderMattersExactly | protocols/spicy/helpers.go:85-131 | two different writes give the same tree in both orders, from every starting point, if and only if their paths are compatible |
| Trees.InsertStaysPossible | protocols/spicy/helpers.go:110-124 | a write that is possible stays possible after a compatible one |
| Trees.GetInserted | protocols/spicy/helpers.go:104-117 | what was written at a path is found there |
| Trees.GetUntouched | protocols/spicy/helpers.go:104-117 | a write leaves what stands at compatible paths |
| Trees.GetNoNewLeaf | protocols/spicy/helpers.go:95-124 | a write makes no leaf anywhere but at its own path |
| Building.BuildAnyOrder | protocols/spicy/helpers.go:85-131 | two lists of pairwise compatible entries with the same members build the same tree |
| Building.CoherentBuilds | protocols/spicy/helpers.go:85-131 | pairwise compatible entries that are possible one by one are possible together |
| Building.BuiltLeafIsEntry | protocols/spicy/helpers.go:85-131 | every leaf of a built tree is one of the entries or was there before |
| Building.EntryIsBuilt | protocols/spicy/helpers.go:85-131 | every entry is a leaf of the tree it helped build |
| FlatMaps.NestAnyOrder | protocols/spicy/helpers.go:82-132 | for a flat map of well-formed, prefix-free, kind-consistent keys every visiting order nests to the same tree |
| FlatMaps.NeverNil | protocols/spicy/helpers.go:110-124 | such a map never nests to nil, at any point of any order |
| Orders.FoundTogether | protocols/spicy/helpers.go:95-124 | two leaves of one tree are at compatible paths, or are the same leaf |
| Orders.PossibleUnlessBlocked | protocols/spicy/helpers.go:110-124 | a write that is possible stays possible after another if and only if it does not step into a map where the other left a leaf or a slice |
| Orders.AgreeingBuildAlike | protocols/spicy/helpers.go:85-131 | keys that pairwise agree build the same thing in every order, from every starting point |
| Orders.SomeOrder | protocols/spicy/helpers.go:82-132 | any keys of any readable map have an order that does not nest to nil |
| Orders.OrderIndependentExactly | protocols/spicy/helpers.go:82-132 | all orders of a readable map of any size nest alike if and only if every two keys are compatible, or read as one path with the same value |
| Orders.NilExactly | protocols/spicy/helpers.go:110-124 | no order of a readable map nests to nil if and only if no key steps into a map where another leaves a leaf or a slice |
| FlatMaps.LookupAgrees | protocols/spicy/helpers.go:136-159 | a path looked up in the nested form gives the string that the flat map has under it, or nothing |
| FlatMaps.FirstLookupAgrees | protocols/spicy/helpers.go:136-159 | the first of several paths found in the nested form is the first present in the flat map, else the empty string |
| Flatten.DumpPrintsLeaves | protocols/spicy/bridge.cpp:175-250 | exactly one field for each leaf of the tree cut at the depth limit, in order, each under its printed path |
| Flatten.BytesAreTextExactly | protocols/spicy/bridge.cpp:232-247 | within the depth limit bytes are one field, of text if and only if there are at most 256 of them and all are from the blank to the tilde, else of the bytes |
| Flatten.EntryIsNamed | protocols/spicy/bridge.cpp:135-169 | an entry of a dictionary is named by its key: text and bytes as they are, and through a reference |
| Flatten.OtherKeysAreMarked | protocols/spicy/bridge.cpp:166-168 | a key that cannot be printed is named by a mark |
| Flatten.ChildrenAreDumped | protocols/spicy/bridge.cpp:175-250 | within the depth limit a value without children is one field, and any other is the fields of its children, in order, each at the depth it is called with |
| Flatten.FramesAreBounded | protocols/spicy/bridge.cpp:172-186 | for every value the calls of dump_value open at once are at most 66, and 65 more for each reference on a path |
| Flatten.LimitHoldsExactly | protocols/spicy/bridge.cpp:172-186 | they are at most 66 if and only if no chain of values through a reference among its first 65 is longer than 66; without references always |
| Flatten.ReferencesLiftTheLimit | protocols/spicy/bridge.cpp:183-186 | n references on a path let 2n + 1 calls be open at once, for every n |
| Wholes.ShapeIsWholeExactly | protocols/spicy/bridge.cpp:175-250 | what the bridge makes of a value is its own tree with some of it cut off, and the whole of it if and only if no text has a NUL and nothing that does not itself read `<depth-limit>` lies below the limit |
| RoundTrip.BuildImage | protocols/spicy/helpers.go:82-132 | the leaves of a document build the document without its empty containers |
| RoundTrip.LeavesAreCoherent | protocols/spicy/bridge.cpp:188-230 | the leaves of a document with distinct names are prefix-free and kind-consistent |
| RoundTrip.FieldMapHolds | protocols/spicy/parser.go:203-216 | the Go map filled from fields of different names has exactly those names with their values |
| RoundTrip.LastOfNameWins | protocols/spicy/parser.go:206-215 | of several fields of one name the last is in the map |
| RoundTrip.MatchingNest | protocols/spicy/helpers.go:82-132 | fields whose names read as coherent paths nest, in any order, to the tree those paths build |
| RoundTrip.RoundTrip | protocols/spicy/bridge.cpp:175-250 | flatten then nest, in any order, gives the struct as the bridge shapes it without its empty containers, empty names included where they are printed |
| Identity.IdentityExactly | protocols/spicy/bridge.cpp:188-230 | dropping empty containers changes nothing if and only if there are none |
| Identity.BuildKeepsPlausible | protocols/spicy/helpers.go:85-131 | keys never build an empty container, a slice directly in a slice, or a name with a separator in it |
| Identity.BuildKeepsNoBlank | protocols/spicy/helpers.go:85-131 | nor a map under an empty name at the top, unless a key starts with a dot |
| Identity.CutLosesLeaf | protocols/spicy/bridge.cpp:176-179 | a document without empty containers cannot be cut without losing a leaf |
| Identity.RoundTripIsIdentityExactly | protocols/spicy/helpers.go:82-132 | flatten then nest, in any order, gives back the value's own tree if and only if its names are clean, no container in it is empty, no list is directly in a list, no empty name at the top is in front of another, no text has a NUL and nothing lies below the depth limit but what reads as its mark |
| Identity.NulIsLost | protocols/spicy/bridge.cpp:83-89 | a struct that meets every other condition does not come back for a NUL in its one text |
| Identity.DepthIsLost | protocols/spicy/bridge.cpp:176-179 | nor does one whose one text lies below 64 optionals |
| Identity.ListInListCollides | protocols/spicy/helpers.go:90-93 | the elements of a list in a list are printed apart and read as one |
| Nested.PassName | protocols/spicy/helpers.go:119-126 | a plain segment moves to the map it names, made if missing, or finds that the write cannot be made |
| Nested.GrowSlice | protocols/spicy/helpers.go:99-102 | a grown slice keeps its items and its place in the tree |
| Nested.OpenSlice | protocols/spicy/helpers.go:95-102 | a bracketed segment finds a slice with room for its index, whatever stood at its base |
| Nested.PassItem | protocols/spicy/helpers.go:107-113 | the map in the slot is entered, made if nil, or the write cannot be made |
| Nested.PassSegment | protocols/spicy/helpers.go:89-128 | one segment brings the heap one step nearer to the tree after the write; nil means that write is impossible |
| Nested.NestParts | protocols/spicy/helpers.go:86-129 | the inner loop fails exactly when the write is impossible, and otherwise the heap shows the tree after it |
| Nested.NestKey | protocols/spicy/helpers.go:85-130 | one key of the map updates the tree that the heap shows as one write at its path, or fails when that is impossible |
| Nested.NestedFromFlat | protocols/spicy/helpers.go:82-132 | the heap built in the runtime's order shows the nesting of the map in that order; nil only if that fails and the map is not coherent |
| Nested.FollowPath | protocols/spicy/helpers.go:138-156 | one path is followed through the heap to the string the tree has at it, or to nothing |
| Nested.GetDeepStr | protocols/spicy/helpers.go:136-159 | the first path with a string in the tree, else the empty string |
| ParsedBuffer.ParsedData.MoveArray | protocols/spicy/bridge.cpp:58-65 | after a reallocation, granted or not, every live block has one role and the fields are what they were |
| ParsedBuffer.ParsedData.Grow | protocols/spicy/bridge.cpp:54-66 | growing fails exactly when the heap refuses, and otherwise leaves room for a field |
| ParsedBuffer.ParsedData.Reserve | protocols/spicy/bridge.cpp:53-74 | room for a field exactly when there was some or the heap grants it; otherwise an error unless its message is lost |
| ParsedBuffer.ParsedData.Copy | protocols/spicy/bridge.cpp:83-95 | two new blocks, or none at all |
| ParsedBuffer.ParsedData.Push | protocols/spicy/bridge.cpp:68-73 | the copies become the last field and the ledger accounts for them |
| ParsedBuffer.ParsedData.FillDummy | protocols/spicy/bridge.cpp:59-63 | after a growth failure that nothing recorded, no ledger accounts for the blocks |
| ParsedBuffer.ParsedData.AddField | protocols/spicy/bridge.cpp:77-131 | nothing is added after an error; the books balance after an add if and only if growth and its message did not both fail; an error that is recorded says which memory was refused: the array's, the name's or the value's |
| ParsedBuffer.ParsedData.AddFieldStr | protocols/spicy/bridge.cpp:77-98 | the field cut at its first NUL is appended, or it is not and either an error is recorded or one more message was lost |
| ParsedBuffer.ParsedData.AddFieldBin | protocols/spicy/bridge.cpp:101-131 | the same for a field with all its bytes, an empty one as text |
| ParsedBuffer.ParsedData.AddLeaf | protocols/spicy/bridge.cpp:234-249 | the same for a leaf, unless an exception comes first: then the buffer is untouched |
| ParsedBuffer.ParsedData.DumpValue | protocols/spicy/bridge.cpp:175-250 | the value's fields are tried in order up to the exception, if any, and kept up to the first error recorded; each that is missing before that lost its message, and all are kept when nothing fails |
| ParsedBuffer.ParsedData.DumpDict | protocols/spicy/bridge.cpp:205-214 | the same for the entries of a dictionary |
| ParsedBuffer.ParsedData.DumpStruct | protocols/spicy/bridge.cpp:224-230 | the same for the fields of a struct |
| ParsedBuffer.ParsedData.DumpSequence | protocols/spicy/bridge.cpp:188-203 | the same for the elements of a vector or a set |
| ParsedBuffer.ParsedData.Overwrite | protocols/spicy/bridge.cpp:361-366 | an error stored over a recorded one loses the older message: the books balance but for that block, and no ledger accounts for it |
| ParsedBuffer.ParsedData.SetError | protocols/spicy/bridge.cpp:361-366 | the books balance after an exception if and only if no error had been recorded before it |
| ParsedBuffer.ErrorLost | protocols/spicy/bridge.cpp:361-366 | a message written over cannot be accounted for by any ledger, and all else still is |
| ParsedBuffer.ParsedData.FreeFields | protocols/spicy/bridge.cpp:376-379 | the blocks of all fields are freed, each while it is live |
| ParsedBuffer.ParsedData.Free | protocols/spicy/bridge.cpp:372-384 | every block that the buffer refers to is freed, each once, and no other; what is left is the others' blocks and an overwritten message |
| ParsedBuffer.BlockLost | protocols/spicy/bridge.cpp:59-63 | a live block to which nothing refers cannot be accounted for |
| ParsedBuffer.FieldDropped | protocols/spicy/bridge.cpp:84-95 | nor can a field whose count was taken back while its blocks are live |
| ParsedBuffer.CapacityDoubles | protocols/spicy/bridge.cpp:55 | a capacity after some growth is sixteen times a power of two |
| ParsedBuffer.GrowthBound | protocols/spicy/bridge.cpp:53-74 | in every state the capacity is none or sixteen doubled, and fewer than two slots were moved for each field |
| ParsedBuffer.Create | protocols/spicy/bridge.cpp:325-329 | null exactly when the block is refused, else an empty sound buffer |
| ParsedBuffer.ParseGeneric | protocols/spicy/bridge.cpp:321-369 | null, or a buffer with the kept ones of the fields that were tried; it has an error unless all were tried or its message was lost; its books balance unless an exception came after a recorded error, and then but for that one message; no error at all when no message can be stored |
| ParsedBuffer.SilentGrowth | protocols/spicy/bridge.cpp:59-63 | a new buffer on a heap that refuses growth and the message about it is in the state where the next add unbalances the books |
| ParsedBuffer.ExceptionAfterError | protocols/spicy/bridge.cpp:361-366 | a struct whose one name cannot be copied, and an exception after it: a message is lost though every message could be stored |
| ParseCall.ReadFields | protocols/spicy/parser.go:203-216 | the Go map is the map of all fields, the last of a name winning |
| ParseCall.Parse | protocols/spicy/parser.go:186-217 | the fields are the kept ones of those tried, all of them exactly when no message was lost, and none when no name can be copied; an error says why there was no value, what was thrown, or which memory was refused, and none is returned when none can be stored; afterwards the C heap has exactly its old blocks, and one more if and only if an exception came after a recorded error |
| ParseCall.SilentLoss | protocols/spicy/bridge.cpp:83-88 | a struct of one text field is parsed without an error to a map without it when neither its name nor the message about that can be stored |
| ParseCall.KeptFieldsNest | protocols/spicy/helpers.go:82-132 | whichever fields of a struct that survives the round trip were kept, they nest in any order, and to the value's own tree if and only if none is missing and none was cut |
| ParseCall.CleanFieldsAreCoherent | protocols/spicy/bridge.cpp:224-230 | the fields of a clean struct can be nested in any order, whichever were kept |
| ParseCall.ParseAndNest | protocols/spicy/helpers.go:82-132 | from the C value to the Go tree: a parse without error nests, and to the value's own tree if and only if nothing of it was cut and no message was lost; without failed allocations there is no error, and the C heap has exactly its old blocks |
| ParseCall.LeafIsRead | protocols/protocols.go:127 | a member of a struct of leaves is found in the parsed fields under its name: text up to its first NUL, bytes as text if there are at most 256 and all are from the blank to the tilde, else as they are |
| Worker.TakeHolds | protocols/spicy/parser.go:51-92 | every action of a caller, the worker, a drain or the shutdown keeps each result in exactly one place |
| Worker.FreedAtMostOnce | protocols/spicy/parser.go:168-194 | in every interleaving a result is freed at most once, by its own call or that call's drain, and until then that call alone has it |
| Worker.WorkerNeverBlocks | protocols/spicy/parser.go:66-76 | the worker's reply always finds room, whatever callers have given up |
| Worker.FreedExactlyOnce | protocols/spicy/parser.go:168-218 | when nothing more happens every result has been freed exactly once, and a call crashed if and only if its result was null |
| Worker.RunsEnd | protocols/spicy/parser.go:44-95 | n calls and a shutdown are over in five actions a call and three more |
| Worker.NullCrashes | protocols/spicy/parser.go:186-200 | there is a run in which a call receives a null result and crashes |
| Worker.TimeOutDrains | protocols/spicy/parser.go:174-182 | a call that times out before its answer leaves it to its drain, which frees it |
| Worker.NextReturns | protocols/spicy/parser.go:186-217 | the call after it gets a result of its own and frees it |
| Worker.ShutdownStops | protocols/spicy/parser.go:79-92 | a shutdown stops the worker, and a call that has not been sent never is |
| Pipes.StoredIsSample | protocols/tcp/proxy_tcp.go:143-157 | storing write by write gives the front of all the counted bytes, up to the limit |
| Pipes.TakeKeepsInv | protocols/tcp/proxy_tcp.go:210-244 | every step keeps the destination a prefix of the source and the sample a prefix of what is counted |
| Pipes.DeliveredIsPrefix | protocols/tcp/proxy_tcp.go:210-244 | at every point the delivered bytes are a prefix of the source; no error means all of it was delivered and counted |
| Pipes.CaptureIsPrefix | protocols/tcp/proxy_tcp.go:143-174 | the sample is the first min(written, limit) delivered bytes; an event exists exactly when it is not empty, is of the pipe's direction and count, and is truncated exactly when written exceeds the limit |
| Pipes.NoCapture | protocols/tcp/proxy_tcp.go:143-163 | without capture nothing is stored and no event is made |
| Pipes.CountedButForLastWrite | protocols/tcp/proxy_tcp.go:82-107 | delivered and counted bytes differ by what a failed write delivered, and nothing is copied after such a write |
| Pipes.NoErrorExactly | protocols/tcp/proxy_tcp.go:226-243 | a report is without error if and only if no read, write or half-close went wrong, a closed socket aside, and every byte of the source was counted |
| Pipes.FirstErrorIsReported | protocols/tcp/proxy_tcp.go:226-243 | a report carries the first error of its run in the order they are looked at: a write's, short writes included, before that of the read of its bytes, and those before the half-closes' |
| Pipes.FirstOccurredExactly | protocols/tcp/proxy_tcp.go:226-243 | that is the first error that occurred, or else a short write, if and only if no read's error was overtaken by its write's and no short write was followed by a failing half-close |
| Pipes.WriteOvertakesRead | protocols/tcp/proxy_tcp.go:226 | a run in which the read's error is overtaken |
| Pipes.RunsEnd | protocols/tcp/proxy_tcp.go:210-244 | every run ends within two steps a byte and five more, in a report with both halves closed |
| Duplex.StepsCommute | protocols/tcp/proxy_tcp.go:254-256 | a step of one direction and a step of the other can be exchanged |
| Duplex.OtherUntouched | protocols/tcp/proxy_tcp.go:210-236 | a pipe leaves the halves of the sockets that the other pipe uses |
| Duplex.OneAfterTheOther | protocols/tcp/proxy_tcp.go:247-260 | every interleaving ends as running one pipe after the other does: same sockets, same bytes, same multiset of reports |
| Duplex.AnySchedule | protocols/tcp/proxy_tcp.go:254-259 | any two schedules in which each goroutine does the same end alike |
| Duplex.RunsAlone | protocols/tcp/proxy_tcp.go:247-260 | the steps of one direction in an interleaving are a run of that pipe alone, to the same halves |
| Duplex.BothDirections | protocols/tcp/proxy_tcp.go:247-260 | at every point of every interleaving each side has a prefix of what the other sent, and in the end exactly two reports |
| Duplex.BothCapture | protocols/tcp/proxy_tcp.go:143-174 | at every point of every interleaving and in both directions: sample, event and truncation are those of the counted bytes, which differ from the delivered ones by a failed write; a report carries the first error of its own direction, is without one if and only if nothing in it went wrong and all was counted, and both its halves are closed |
| Duplex.BothEnd | protocols/tcp/proxy_tcp.go:258-259 | waiting for both reports ends, in a number of steps linear in what the peers send |
| Proxy.Writer.Write | protocols/tcp/proxy_tcp.go:75-107 | only the bytes a write without error put on the wire are counted and sampled; a short write is an error; on undisturbed sockets there is none |
| Proxy.Writer.StorePayload | protocols/tcp/proxy_tcp.go:143-157 | the in-place update is the machine's |
| Proxy.Writer.Event | protocols/tcp/proxy_tcp.go:160-174 | the event is the machine's |
| Proxy.Copy | protocols/tcp/proxy_tcp.go:226 | the copy loop is a run of the machine that ends at the half-closes |
| Proxy.Finish | protocols/tcp/proxy_tcp.go:228-236 | the half-closes follow; the copy's error stays if there was one, else the first error of a half-close counts that is not of a closed socket |
| Proxy.Pipe | protocols/tcp/proxy_tcp.go:210-244 | the whole goroutine is a run of the machine that ends in its report |
| Proxy.PipeOnce | protocols/tcp/proxy_tcp.go:210-244 | what a report means to the two peers: delivered prefix, whole stream without error, the first error of the run, exact event of this direction, both halves closed; and on undisturbed sockets there is no error |
| Proxy.PipeBothWays | protocols/tcp/proxy_tcp.go:247-260 | the two goroutines, one after the other, are an interleaving of the two pipes that ends with both reports in the channel; on undisturbed sockets neither has an error |
| Proxy.ProxyOnce | protocols/tcp/proxy_tcp.go:247-260 | between fresh sockets each peer is sent a prefix of what the other sent, all of it on undisturbed sockets or without an error, and all four halves are closed |
| Proxy.EventsFromResults | protocols/tcp/proxy_tcp.go:263-271 | the events of the results that have one, in order |
| Proxy.EventsAnyOrder | protocols/tcp/proxy_tcp.go:258-271 | whatever order the reports come in, the same multiset of events is produced |
| Proxy.IsLikelyText | protocols/tcp/proxy_tcp.go:185-199 | text exactly when there are bytes and at least 81 in a hundred are from the blank to the tilde, tabs or line ends |
| Proxy.NotQuiteText | protocols/tcp/proxy_tcp.go:185-199 | 17 printable bytes of 21 are more than 80 in a hundred and no text |
| Peeking.BufferedConn.Read | protocols/peek.go:23-25 | a read takes what it returns off the front of the stream and no more, through any number of layers |
| Peeking.BufferedConn.Peek | protocols/peek.go:19-21 | a peek takes nothing off the stream and without error shows exactly its first n bytes |
| Dispatch.Peek | protocols/peek.go:28-35 | the wrapped connection still has the whole stream ahead |
| Dispatch.PeekOver | protocols/protocols.go:102 | so has the inner connection; what it read ahead is gone from the outer one |
| Dispatch.Handle | protocols/protocols.go:82-116 | for every chunking, whether Spicy is on and whichever parses answer: http and rdp by the first four bytes if the first parse answers, mongodb by the header if the second does, the fallback else and always without Spicy; no handler if and only if the stream is too short, on an undisturbed connection; the http, rdp and mongodb handlers read the whole stream, the fallback if and only if Spicy is off, else all but what the inner reader pulled |
| Dispatch.MongoRouteIsExact | protocols/protocols.go:93-112 | with Spicy on and both parses answering each class of first bytes has its handler and the rest the fallback |
| Dispatch.SomeStreamFallsBack | protocols/protocols.go:115 | sixteen zero bytes take the fallback though both parses answer, and on an undisturbed connection none of them is left for it |
| Detect.ParseTcpProtocol | protocols/protocols.go:120-130 | both hooks together compute the classification |
| Detect.SameHeader | protocols/spicy/parsers/tcp.spicy:22-29 | the unsigned fields of the classifier and the signed fields of the handler decide alike |
| Detect.SameOpCodes | protocols/tcp/mongodb.go:29-50 | the classifier looks for exactly the op codes that the handler has names for |
| Detect.Words | protocols/spicy/parsers/tcp.spicy:13-16 | the words of a request line and the head of a connection request, byte for byte |
| Detect.LengthLimit | protocols/tcp/mongodb.go:77 | 48 MiB pass, and one byte more does not |
| Detect.DetectorMeetsHandler | protocols/tcp/mongodb.go:71-79 | sixteen bytes are classified mongodb if and only if the handler's guard and op code table accept the header |
| Detect.ClassesAreDisjoint | protocols/spicy/parsers/tcp.spicy:13-29 | no sample is of two classes, though none of the three tests looks at the others |
| Detect.AnswersAreStable | protocols/protocols.go:94-110 | an answer stands whatever bytes follow, and four bytes are never mongodb |
| LittleEndian.PutThenGet | protocols/tcp/mongodb.go:121-152 | a 32-bit integer written is the integer read |
| LittleEndian.GetThenPut | protocols/tcp/mongodb.go:71-72 | four bytes read are the four bytes written back |
| MongoDB.EncodeThenDecode | protocols/tcp/mongodb.go:71-72 | a header written in front of anything is the header read |
| MongoDB.DecodeThenEncode | protocols/tcp/mongodb.go:121 | sixteen bytes read as a header are the bytes it is written as |
| MongoDB.HeaderLayout | protocols/tcp/mongodb.go:21-26 | the four fields stand in their order, least significant bytes first |
| MongoDB.NamesAreExact | protocols/tcp/mongodb.go:40-50 | exactly the known op codes have a name, each its own |
| MongoDB.GuardedButUnsliceable | protocols/tcp/mongodb.go:77-85 | a header that is accepted cannot be sliced if and only if its length is below sixteen, and there is one |
| MongoDB.FramesAreUnique | protocols/tcp/mongodb.go:64-90 | a stream can be cut into messages in one way only |
| MongoDB.CreateOkResponse | protocols/tcp/mongodb.go:110-157 | writing, then patching the length, gives the response's header and bytes |
| MongoDB.ResponseReads | protocols/tcp/mongodb.go:110-157 | for every request the 38 bytes decode to the returned header, wrap-around included, the document states its size, and a reader takes them for one message |
| MongoDB.ResponseSaysOk | protocols/tcp/mongodb.go:110-157 | every response is an OP_MSG without flags, of one section of kind 0, whose document of 17 bytes has the one element ok with the number 1.0 |
| MongoDB.ReadFull | protocols/tcp/mongodb.go:67 | n bytes off the front if there are so many, else all there are, with a clean end only when nothing was left; any other error is the connection's |
| MongoDB.Server.Read | protocols/tcp/mongodb.go:64-90 | exactly what the front of the stream is under any chunking: one message whole and alone, a refused length, a panic if and only if the length cannot be sliced, or its end; any other error only on a disturbed connection |
| MongoDB.Server.Write | protocols/tcp/mongodb.go:93-107 | the wire gains a front of the response, all of it on an undisturbed connection, and the log gains it exactly when the connection took it |
| MongoDB.Server.Respond | protocols/tcp/mongodb.go:194-229 | a message is logged before it is answered, and stays logged when the answer fails; on an undisturbed connection the whole answer is on the wire |
| MongoDB.Server.Handle | protocols/tcp/mongodb.go:180-230 | the stream is cut into messages from the front and the log holds each with its answer; on an undisturbed connection the loop ends for what is left of the stream, with every reply on the wire |
| MongoDB.HandleMessages | protocols/tcp/mongodb.go:180-230 | on a stream of messages under any chunking the loop never panics or refuses a length; on an undisturbed connection it reads exactly those messages, logs and answers each, and ends at the end of the stream |
| MongoDB.LogAlternates | protocols/tcp/mongodb.go:200-226 | the log alternates, and the k-th response answers the k-th request by its identifier |
| MongoDB.HandleRecovers | protocols/tcp/mongodb.go:180-230 | what is left of a stream of messages after some have been read is the others, and reads as the next of them or as the end of the stream |
| Addresses.SplitParts | rules/rules.go:108 | no bracket is left in a host or port that was split, and no colon in the port |
| Addresses.SplitsExactly | rules/rules.go:131-141 | an address splits into a host and a port if and only if it is written from them, with brackets or without |
| Addresses.SplitErrors | rules/rules.go:108 | which addresses lack a port, lack a bracket or have too many colons |
| Addresses.JoinThenSplit | rules/rules.go:127 | a joined address splits into what was joined |
| Addresses.SplitThenJoinExactly | rules/rules.go:108-127 | a split address joins to itself if and only if its host was not in brackets without need |
| Addresses.AcceptedIsDialable | rules/rules.go:102-129 | every accepted target has a host, a port from 1 to 65535 and a dial address that reads back as both |
| Addresses.PrintedIsAccepted | rules/rules.go:102-129 | every printed host and port is accepted as what it prints |
| Addresses.TrimIsMiddle | rules/rules.go:103 | trimming takes blanks off the two ends and nothing else |
| Addresses.BlanksInAscii | rules/rules.go:103 | the blanks among the ASCII characters are the space and those from the tab to the carriage return |
| Addresses.HostIsNeeded | rules/rules.go:104-114 | nothing, and a port by itself, are no targets |
| Addresses.PortDecides | rules/rules.go:116-122 | with a host, a target is accepted if and only if its port is a number from 1 to 65535 |
| Rules.Rule.Init | rules/rules.go:64-100 | a rule is ready for dispatch exactly when its type is one of three, a proxy's target is accepted and its filter compiles; another type is the error of that |
| Rules.InitRules | rules/rules.go:228-236 | a rule set is accepted if and only if every rule is, the error is that of the first rule which is not, and each accepted rule knows its first place |
| Rules.AcceptsItsFilter | rules/rules.go:84-89 | an initialised rule accepts what the filter in its file accepts, and nothing without one |
| Rules.ForgedBetween | rules/rules.go:196-205 | the packet that stands for a connection goes from the client's host and port to those it connected to |
| Rules.ForgesExactly | rules/rules.go:131-141 | there is one if and only if both addresses are written from a host and a port that is a number |
| Rules.Match | rules/rules.go:196-225 | the first rule in file order that accepts the packet, or none when none does |
| Rules.MatchBetween | rules/rules.go:196-225 | between two printed ends the answer is the first rule in file order that accepts the packet from the one to the other |
| Connections.LivesExactly | connection/connection.go:100-132 | an entry is in the table after a run if and only if no flush found it too old, whatever was registered since |
| Connections.LivesItsAge | connection/connection.go:108-131 | until its age is up its key finds the first registration |
| Connections.GoneInTime | connection/connection.go:65-75 | with flushes a period apart nothing in the table is older than a period and an age |
| Connections.FirstWins | connection/connection.go:108-110 | a second registration changes nothing before a flush |
| Connections.FoundExactly | connection/connection.go:108-132 | metadata is found under a key if and only if it is of a registration that found none and that no flush since has found too old |
| Connections.OriginIsRecent | connection/connection.go:65-75 | with punctual flushes that registration is no older than a period and an age |
| Connections.ConnTable.Register | connection/connection.go:100-119 | the table is the old one with this registration, and the answer is what it then holds for the key |
| Connections.ConnTable.FlushOlderThan | connection/connection.go:121-132 | exactly the entries older than the threshold go |
| Listener.Glutton.RegisterConn | connection/connection.go:82-97 | a fresh key gets the matched rule, a known one keeps its older metadata, malformed addresses change nothing; the table takes the registration step |
| Listener.Glutton.Accept | glutton.go:205-247 | the connection goes by the first rule that matches, to the proxy by a proxy rule, to its target by any other and to default by none, if there is such a handler; its metadata is that rule's exactly as its key is fresh; a skipped connection leaves the table alone and an unhandled one is registered |
| Listener.Glutton.EntersBetween | connection/connection.go:32-40 | between two printed ends the key is made from the client's host and port, and the target port is the port connected to |
| Listener.AcceptBetween | glutton.go:205-247 | between two printed ends a connection goes by the first rule that accepts its packet and is registered under its client's key with the port it connected to, unless the packet cannot be forged or the client has no key |
| Listener.Glutton.Tick | connection/connection.go:72-73 | the ticker's flush keeps every rule in the table known |
| Listener.Glutton.Serve | glutton.go:195-247 | over any sequence of connections and ticks every connection handed on carries the rule of the first connection to match its key since the key was last missing, and that registration has not been flushed |
| Listener.CarriedIsRecent | connection/connection.go:65-75 | with a tick every five minutes at most, the registration carried is no older than ten, and no tick since has found it older than five |
| Listener.GuardsPassExactly | protocols/tcp/proxy_tcp.go:443-458 | the proxy dials if and only if its metadata is of a proxy rule, and then a valid address |
| Listener.AcceptProxied | glutton.go:211-247 | a connection routed by a proxy rule dials this rule's target when its key is fresh, the older rule's when it was registered for a proxy rule, and nothing otherwise |
| Listener.StaleKeyIsRefused | connection/connection.go:108-110 | a client is handed to ftp, returns from the same port to a proxied one, carries its older rule and is refused |

## Left out

- Nested.NestedFromFlat: keys must be well formed; a `[` without `]`, a negative index and an index too large to allocate make the Go code panic and are outside the model.
- Nested.GrowSlice: growth makes a new slice; that Go may grow in place behind the same reference is not modelled, nothing else refers to it.
- Identity.RoundTripIsIdentityExactly: is about structs that have a field, lie at the top within the depth limit and have lists that an int can count, with distinct names, since otherwise there is no tree to compare with, and keys that are well formed, since otherwise the helper panics; the tree of a value forgets what the bridge forgets on purpose: references, kinds of container, and that `<nil>` was a missing optional.
- ParsedBuffer.ParsedData.AddField: the field count is raised after the copies instead of before and taken back, and the 32-bit width of count, capacity and length is not modelled.
- ParsedBuffer.ParsedData.DumpValue: needs every refused growth to be able to store its message. AddField says that the books do not balance otherwise; what the rest of such a dump then does to them is not followed, because it writes through slots that the buffer does not have.
- ParsedBuffer.ParseGeneric: an exception comes before, between or after fields, not inside one: adding a field calls nothing that throws.
- ParsedBuffer.ParsedData.MoveArray: a reallocation always gives a new block.
- Worker.FreedExactlyOnce: the list command of Initialize and repeated Cleanup are not part of the machine; a crashed call does not take the process with it, which only adds runs.
- Proxy.Pipe: deadlines are possible errors of the environment, sockets can be half-closed, the payload hash and all logging, with the classification of expected errors for it, are left out, and counters do not wrap.
- Proxy.PipeBothWays: runs the goroutines one after the other, since a method has no threads; Duplex.AnySchedule says that every other schedule in which they do the same ends alike.
- Duplex.OneAfterTheOther: is about runs that are not cancelled; closing both sockets on cancellation is left out.
- Peeking.BufferedConn.Read: the buffered reader's retry after empty reads is left out because a socket read that is not empty brings a byte or an error; reads of no bytes are left out.
- Dispatch.Handle: the connection is not closed when a peek fails, and lower-casing and trimming the protocol name are left out because the classifier's names need neither.
- MongoDB.Server.Handle: the producer's report and the close on return are left out.
- Rules.Match: the packet forged for the filter and the filter itself are parameters.
- Connections.ConnTable.Register: the key's hash is a parameter, so different clients may share a key; the lock is left out because each operation is atomic under it.
- Connections.GoneInTime: takes flushes to happen on time; a ticker that is late by some time adds that time.
- Listener.Glutton.Serve: an endless loop is modelled by any finite sequence of its turns; the connection timeout and the goroutine it starts are left out, and so is the same loop for UDP.
- The Spicy runtime, the grammar of HTTP, ReadInitialBytes and the registration of parsers by name are not part of this model.
- SMB, RDP, FTP, telnet, SMTP, SIP, RFB, MQTT, memcache, Jabber, ADB, iSCSI, BitTorrent and Ethereum responders would add only fixed replies and fixed layouts.
- sanitizePayload, producers, configuration, iptables, TPROXY and file storage are input and output.
