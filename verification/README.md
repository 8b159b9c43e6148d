# Verified models of five C programs' hard parts

The repository holds independent C programs. This project models the parts of them whose behaviour is
decided by the code alone, and proves what they promise for every input, every run and every schedule:

* the incremental HTTP parser of the web server,
* the heap allocator,
* the thread pool and the parallel graph traversal, against the serial one,
* the pointer rings behind the task queue and the list of mappings,
* the integer, string and character conversions of the formatter.

Where the code updates state in place, so does the model: classes with the source's fields, loops with
invariants, arrays for its buffers. Each such method is proved against a function or relation over
values, and the properties are proved about those. `dafny verify dfyconfig.toml` checks everything.

## The HTTP parser

`HttpTypes`, `HttpArms`, `HttpMachine`, `HttpSplit`, `HttpPieces`, `HttpExecute`, `HttpHeaders`, `HttpBody`,
`HttpMessage`, `HttpCalls`, `HttpUpgrade`, `HttpMethods`, `HttpFailures`, `HttpTables`, `HttpTargets`, `HttpTokens`,
`HttpLines`. `HttpParser.Execute` is the buffer loop: marks that are set and
re-opened, callbacks with the stretch from a mark, bodies taken in one jump, locals that are stored at the
end (two of them through an 8-bit cast) or, after an error, not at all. The arms of its switch are functions.
It is proved equal to a machine that takes one byte at a time and shows one byte at a time (`Feed`, `Exec`),
minus, after an error, the bytes of the data that are open at the failing byte (`HeldBack`): a call that
fails does not deliver them. What is seen comes in two sequences: the url bytes, and all other data; both
contain the notifications, so that their order is fixed in each. The nested spans of the url and its parts
are the reason for two.

Assumptions: callbacks return 0, except that on_headers_complete may return 1 (`skip`); strict mode,
as the build sets it; a buffer of length 0 is the end-of-file signal, as in the source. Characters
above 127 stand for the high bytes. Fields that http_parser_init leaves unset start as zero.

What is accepted is proved both ways. A message that is written from its parts is parsed back
(`RequestRoundTrip`, `ResponseRoundTrip`), in any pieces, and one after another as long as version and Connection
lines let the connection go on (`TwoRequests`, `ClosedAfter`). And no other first lines, header lines or size lines
are accepted than those of the grammars in `HttpTargets`, `HttpTokens` and `HttpLines`, which are stated in literal
characters, apart from the parser's tables (`TargetExact`, `VersionExact`, `StatusExact`, `HeaderExact`, `SizeExact`).

Where the code differs from what its comments say, and exactly when:

* Names may hold four characters that the standard cited at the table does not allow: space, '"', '/' and '}'
  (`TokenIs`). Case does not matter for the names and values that are looked for (`NameDecides`).
* Other texts than their names are taken for four methods (`MethodExact`): "C?PY" for COPY, "M?ACTIVITY" for
  MKACTIVITY, and most texts of the right length that start with C or M for CONNECT and MKCOL.
* The stored byte count is cut to eight bits, so the header limit depends on how the input is cut
  (`LimitDependsOnSplit`). The pieces of an input give the same parse as the whole exactly if the whole stays
  within the limit, or the byte that exceeds it is rejected by its arm anyway, or that byte comes more than
  81920 - 256 bytes after the start of its piece (`SplitInvariance`). All ways to cut agree exactly in the first
  two cases (`AllCutsAgree`).
* A call that fails does not deliver the data that are open, while a call that ends does. With the same parse,
  the callers of an input in pieces are shown the same as the caller of the whole exactly if it does not fail,
  or all that is open at the failing byte came in the same piece (`SplitCallbacks`, `BothWays`; `TargetIsKeptBack`
  is an input that shows the difference).
* The body length is unsigned. A message without Content-Length and without chunks counts as one of
  2^64 - 1 bytes instead of ending at its headers or at end of file (`NoFramingIsABody`); the state for
  reading until end of file cannot be reached.
* While it reads a method the parser can run past the end of its string. `MethodOverrun` says for which texts:
  those that start with C or M, never leave CONNECT or MKCOL by one of the letters that lead to other methods,
  have no NUL, and no space where the string ends, followed by one more byte. "CONNECTxx" is one
  (`MethodIsOverrun`); no text with another first letter and no valid method is (`TokensStayInside`).
* After an upgrade the stored state is the one the call started in, but the flags are the new message's. The
  next call with input fails an assertion exactly if that state is one of a chunked body and the new message is
  not chunked (`AfterUpgrade`). Nothing else makes an assertion fail, whatever buffers come and even if the
  caller goes on after errors and upgrades (`AssertionsHold`). `UpgradeFails` is an input: a chunked request that
  is cut in a chunk, and whose second buffer goes on with a request that asks for an upgrade.
* The size of a chunk is taken modulo 2^64: any multiple of it ends the body (`SizeLine`). If bit 63 of what is
  left is set, the next byte is undefined in the source, which compares the length as a signed one (`HugeSize`).

## The allocator

`HeapSpec`, `ReallocSpec`, `HeapRuns` speak of the list of blocks as a sequence of cells; `HeapLinks`
of headers in memory, linked by addresses; `Heap` is the allocator that rewrites them. The break grows
and shrinks by exactly what is asked for, mappings are placed below all earlier ones in whole pages, and
both calls succeed. Addresses from the break are positive, those of mappings negative, NULL is 0. The
payloads are a map from addresses to bytes.

The prev links and list_tail are not always kept right by the source. The invariant asks only for the
next links, for a list_tail that is the last block or a block that has been absorbed, and for the
layout; the prev links of the mappings, which are the only ones that are ever followed, are part of the
view (`links`), and every operation says what it does to them. The invariant survives a call exactly under
these conditions, which `Safe` collects:

* Coalescing leaves a prev link stale exactly if a run of several free blocks is followed by another
  block (`CoalescedLinks`); a later split of the block before a mapping sets its link right again.
* free of a mapping: it is not the only block, and its prev link leads to the block before it (`FreeOk`).
  malloc(200000) and free of it is not safe (`LoneMappingExample`); nor is free of the mapping after malloc(8),
  malloc(131072), free of the first and malloc(131072) (`StaleLinkExample`).
* realloc of a mapping: the same, or malloc splits the block before it on the way (`MoveOk`).
* realloc of any other block: it is not extended into a block that it has just absorbed (`TailLostAt`; two calls
  are enough, `TailLostExample`).
* calloc of a mapping clears as many bytes from the payload on as header and payload have together. They lie in
  the pages of the mapping if these have room for another header (`StaysInPages`); otherwise the invariant
  is lost exactly if the header of a block stands there. calloc(1, 4064) twice is enough (`OverrunExample`).

Realloc asks its caller for one thing (`WalkOk`): if it comes to search for the last block from the break, the
links of the mappings behind that block lead to it. With a stale link the source reads a header that is no
longer one and may lie in the payload of a user, so that what it finds is not decided by the allocator.
`StaleWalkExample` gets there with one more call than `StaleLinkExample`.

`Allocated`, `FreedView` and `Reallocated` say which path is taken: the first smallest free block that fits,
split if the rest can hold more than a header; only if none fits, the last block extended or a new one;
in place, merged with the next block, extended, moved into the last free block, or moved. `Effect` collects
them. `Heap.Perform` makes any call: if it is safe, the invariant holds afterwards and the effect is the
specified one; if it is not, the invariant is lost, except for a calloc that clears past its pages where no
block is. `RunsSound` draws the conclusion for every sequence of safe calls. Sequences of malloc, calloc and free
that ask for no mapping are always safe (`SmallRunsSafe`).

`HeapPrev` follows the prev links through whole runs: they stay right as long as no call merges a run of several
free blocks before a mapping (`RunsLinked`), and while they are right only the free of a mapping that is the
whole list fails (`RightIsSafe`). `HeapLaws` says what the user sees of where blocks are: free space is used before
the break moves (`AllocatedPlace`), a block is moved only if it must be, and what it does not need is free again
(`ReallocatedPlace`).

## The traversal

`Graphs`, `GraphBuild`, `Serial`: the adjacency arrays are built from an edge list by loops over arrays,
and the recursive program marks and adds up what node 0 reaches. `Pool`, `PoolProof`, `PoolRuns`,
`PoolProgress`: the parallel program as a transition system with one step for each critical section and
each access in between, any number of workers, any graph, any schedule. Memory is sequentially
consistent and waits do not wake up on their own. The gate's flag is tested and the wait begun in two
steps, and the broadcast does not take the gate's mutex; leaving that mutex out only adds schedules.
The sum is a mathematical integer. There is at least one worker (the source has four) and one node.

Workers leave as soon as they see an empty queue, so completeness at the join is an invariant about the
workers that are still busy. A broadcast that comes between a worker's test and its wait is lost
(`SignalLost`); `EndsUnlessSignalLost` says, from the state in which the broadcast is made, that nothing else keeps
the program from ending: workers that are already waiting are woken. Just before the broadcast it is not settled
yet: a worker that is about to wait may still wait in time (`WaitsInTime`), so `EndsFromBroadcast` asks whether each
of these moves before the main thread does.

## The rings

`Rings` is the list header: pointer operations on nodes against the sequence of nodes on the ring.
`TaskQueue` and `MemList` use it. The queue keeps the tasks that were put in and those that were taken out as
ghost fields; its invariant says that the former are the latter followed by the waiting ones.

## The formatter

`PrintfDigits`, `PrintfSpec`, `Printf`, `PrintfParse`, `PrintfStandard`, `PrintfPrefix`, `PrintfHash`,
`PrintfDirective`, `PrintfStrings`. The sink is the bounded buffer with its index; digits are filled backwards into
a buffer of 32 characters. Arguments are taken in the widths that the length modifiers ask for, long and pointers in
64 bits, char signed. The floating-point conversions are a parameter: any function from flags, precision, width and
argument to a text. An argument of the wrong kind counts as 0 or as the empty string, and a format that ends
inside a directive as if more NULs followed; both are undefined in the source.

d, i, u, o, x and X are compared with section 7.19.6.1 of C99, first the layout for given flags, width and
precision (`StandardText`, `HashText`), then whole directives as they stand in a format, whose meaning - flags,
width, precision, type and value of the argument, base and figures - is computed apart from the source's
functions (`Read`; `StandardDirective`, `HashDirective`). The text is the standard's exactly if

* width and precision are below 2^32 (`Represented`): the source reads them in unsigned int;
* the precision is not a star with a negative argument, which the standard takes as omitted and the source as
  zero, forgetting the zeros of '0' and the digit of zero ("%05.*d" of -1 and 42, `StarExample`; "%.*d" of -1 and 0,
  `BareStarExample`), or neither makes a difference (`StarFits`);
* in all other cases `Fits` or, with '#', `HashFitsValue` holds: with '-' the zeros of the precision are left out
  ("%-5.3d" of 7, `LeftPrecisionExample`), zeros and sign are cut off at 32 characters, and with '#' the prefix can
  take the place of digits (`HashKeepsValue`; "%#2x" of 0x12, `HashExample`).

%s writes nothing but spaces for a negative star as precision (`StringDirective`), and %b at most the lowest 32 bits
(`BinaryDirective`).

## Model

| member | source | states |
|---|---|---|
| HttpExecute.HttpParser.Init | async-web-server/src/http-parser/http_parser.c:1608-1617 | A fresh parser is the record Init(t), from which every run starts |
| HttpExecute.HttpParser.Execute | async-web-server/src/http-parser/http_parser.c:321-1578 | The buffer loop with marks, jumps and stored locals returns what the byte machine returns and leaves its record; the callbacks show the machine's data and notifications, byte for byte in both sequences, and after an error all but the bytes of the data that are open at the failing byte |
| HttpExecute.HttpParser.Scan | async-web-server/src/http-parser/http_parser.c:379-1578 | The loop over a non-empty buffer: at every byte the log and the open marks together show what the machine has shown |
| HttpExecute.HttpParser.TakeIdentity | async-web-server/src/http-parser/http_parser.c:1439-1451 | Taking the rest of a body, or of the buffer, in one callback is feeding these bytes one by one |
| HttpExecute.HttpParser.TakeRest | async-web-server/src/http-parser/http_parser.c:1453-1459 | Taking the rest of the buffer is feeding it byte by byte |
| HttpExecute.HttpParser.TakeChunk | async-web-server/src/http-parser/http_parser.c:1524-1541 | The same for the data of a chunk |
| HttpExecute.HttpParser.TakeByte | async-web-server/src/http-parser/http_parser.c:388-1558 | Performing the macros of an arm on marks and log is one step of the byte machine |
| HttpExecute.BodyRun | async-web-server/src/http-parser/http_parser.c:1439-1451 | A stretch of an identity body delivers exactly its bytes, and completes the message exactly when the length is used up |
| HttpExecute.ChunkRun | async-web-server/src/http-parser/http_parser.c:1524-1541 | A stretch of chunk data delivers exactly its bytes and never completes the message |
| HttpExecute.Discipline | async-web-server/src/http-parser/http_parser.c:361-377 | In every arm the marks are set and cleared so that the open ones are those that the next state re-opens at the start of a buffer |
| HttpMachine.FeedAppend | async-web-server/src/http-parser/http_parser.c:379-1559 | Feeding a concatenation is feeding its parts one after the other, verdict, record and output |
| HttpMachine.GoodStep | async-web-server/src/http-parser/http_parser.c:379-1559 | No step from a good record fails an assertion, and it ends in a good record |
| HttpMachine.GoodMethod | async-web-server/src/http-parser/http_parser.c:608-633 | For one byte: reading a method leaves the method string exactly if a byte other than NUL comes one past its terminator |
| HttpMethods.MethodOverrun | async-web-server/src/http-parser/http_parser.c:574-647 | From the start of a request, the method string is overrun if and only if the text starts with C or M, stays with CONNECT or MKCOL, has no NUL, and no space at the end of the string, before one more byte, all within the header limit |
| HttpMethods.TokensStayInside | async-web-server/src/http-parser/http_parser.c:574-647 | No valid method token and no text with another first letter overruns |
| HttpFailures.MethodIsOverrun | async-web-server/src/http-parser/http_parser.c:608-633 | "CONNECTxx" overruns |
| HttpTables.MethodNames | async-web-server/src/http-parser/http_parser.c:76-101 | The names of the 23 methods |
| HttpTables.HexTable | async-web-server/src/http-parser/http_parser.c:145-154 | The hexadecimal digits in both cases have the values 0 to 15 |
| HttpTables.UrlTable | async-web-server/src/http-parser/http_parser.c:157-190 | The characters that continue a path |
| HttpTokens.MethodExact | async-web-server/src/http-parser/http_parser.c:574-645 | From the start of a request a text up to a space is read as a method if and only if it is its name or one of the four patterns of TakenFor |
| HttpTargets.TargetExact | async-web-server/src/http-parser/http_parser.c:648-930 | A text up to a space is accepted as target if and only if it is one of the grammar: a path, an absolute URL, or a host; and then all of it is delivered as URL |
| HttpLines.VersionExact | async-web-server/src/http-parser/http_parser.c:932-1022 | The rest of a request line is accepted if and only if it is "HTTP/" and a version of two numbers below 1000 |
| HttpLines.StatusExact | async-web-server/src/http-parser/http_parser.c:427-572 | A line is accepted as status line if and only if it has version, code and reason as in the grammar |
| HttpLines.HeaderExact | async-web-server/src/http-parser/http_parser.c:1024-1380 | A header line is accepted if and only if its name has the right characters and, for Content-Length, its value is a number |
| HttpLines.SizeExact | async-web-server/src/http-parser/http_parser.c:1461-1522 | A size line is accepted if and only if it is hexadecimal digits, and perhaps an extension |
| HttpCalls.AssertionsHold | async-web-server/src/http-parser/http_parser.c:1174-1550 | For any sequence of buffers, empty ones included, from a fresh parser, and a caller that goes on after errors and upgrades: the calls that fail an assertion are exactly those with input from a trapped record, and only an upgrade leaves one |
| HttpCalls.AfterUpgrade | async-web-server/src/http-parser/http_parser.c:1404-1408 | After an upgrade the next call fails an assertion if and only if the call with the upgrade started in a state of a chunked body and the new message is not chunked |
| HttpUpgrade.UpgradeInChunk | async-web-server/src/http-parser/http_parser.c:1404-1408 | A buffer that starts in a chunk and ends with any request for another protocol leaves a trapped record if and only if that request is not chunked |
| HttpUpgrade.UpgradeFails | async-web-server/src/http-parser/http_parser.c:1404-1408 | Three buffers for a fresh parser of which the third fails an assertion |
| HttpSplit.DeadStaysDead | async-web-server/src/http-parser/http_parser.c:388-394 | A dead parser rejects every byte at once, calls nothing and stays as it is |
| HttpSplit.SplitFeed | async-web-server/src/http-parser/http_parser.c:330-377 | Pieces fed to a parser whose counter has been cut are the concatenation fed to one whose counter has not, unless the latter is stopped by the limit |
| HttpSplit.SplitInvariance | async-web-server/src/http-parser/http_parser.c:330-377 | Non-empty pieces in one call each give the verdict, position, record (but for the byte counter) and machine output of one call with all of them, if and only if that call is within the header limit, or the byte that exceeds it is rejected anyway, or that byte is far enough into its piece that no counted byte was lost |
| HttpSplit.AllCutsAgree | async-web-server/src/http-parser/http_parser.c:330-377 | All ways to cut an input give the parse of the whole if and only if it stays within the limit or the byte that exceeds it is rejected anyway |
| HttpFailures.LimitDependsOnSplit | async-web-server/src/http-parser/http_parser.c:1568-1571 | A request line with a path of 120001 bytes fails in one call and passes in two |
| HttpExecute.HttpParser.ExecutePieces | async-web-server/src/http-parser/http_parser.c:330-377 | Consecutive calls with the pieces show what the machine shows of them, all but what the failing call keeps back |
| HttpPieces.SplitCallbacks | async-web-server/src/http-parser/http_parser.c:1561-1578 | With the same parse, an observer is shown the same by the pieces as by the whole if and only if the input does not fail or all that is open at the failing byte came in its piece |
| HttpPieces.AllCutsShowTheSame | async-web-server/src/http-parser/http_parser.c:1561-1578 | Every way to cut an input shows what one call with all of it shows, if and only if it does not fail or nothing is open at the failing byte |
| HttpExecute.BothWays | async-web-server/src/http-parser/http_parser.c:321-1578 | The same for the logs of two fresh parsers, one given the whole and one the pieces |
| HttpFailures.TargetIsKeptBack | async-web-server/src/http-parser/http_parser.c:1573-1578 | A control byte after "GET /": one call keeps the target back, two deliver it |
| HttpHeaders.TokenIs | async-web-server/src/http-parser/http_parser.c:104-142 | The characters of a name are those of RFC 2616 and four more, and the table folds their case |
| HttpHeaders.NameDecides | async-web-server/src/http-parser/http_parser.c:1026-1200 | The automaton ends in the class that comparison of the whole name, without regard to case, with the five words gives |
| HttpHeaders.ValueDecides | async-web-server/src/http-parser/http_parser.c:1202-1363 | The end of a value sets the flags that comparing the whole folded value gives |
| HttpHeaders.HeaderLine | async-web-server/src/http-parser/http_parser.c:1026-1363 | A line delivers its name and value, and sets flags and body length as comparison of the whole name and value, without regard to case, with the fixed words does |
| HttpHeaders.BadLength | async-web-server/src/http-parser/http_parser.c:1241-1294 | A Content-Length that is not a digit followed by digits and spaces is an error |
| HttpBody.SizeLine | async-web-server/src/http-parser/http_parser.c:1461-1522 | A size line in any case and with any extension sets the length to the value of its hex digits modulo 2^64, and ends the body if that is zero |
| HttpBody.HugeSize | async-web-server/src/http-parser/http_parser.c:1524-1541 | The byte after a size line is undefined if and only if bit 63 of the size is set |
| HttpBody.ChunkedRoundTrip | async-web-server/src/http-parser/http_parser.c:1461-1553 | A body cut into chunks, with extensions and trailers, is delivered as exactly its bytes, the trailers as headers, and one message_complete |
| HttpMessage.MethodToken | async-web-server/src/http-parser/http_parser.c:574-647 | Each of the 23 method tokens and a space leads to the target with that method |
| HttpMessage.TargetFeed | async-web-server/src/http-parser/http_parser.c:649-929 | A target is delivered whole as url, and its path, query and fragment as such |
| HttpMessage.VersionFeed | async-web-server/src/http-parser/http_parser.c:964-1017 | The version numbers are read as decimal |
| HttpMessage.ContentFeed | async-web-server/src/http-parser/http_parser.c:1365-1553 | After the blank line a body of the announced length, or in chunks, is delivered as exactly its bytes |
| HttpMessage.RequestRoundTrip | async-web-server/src/http-parser/http_parser.c:321-1578 | A written request is parsed back: method, version, target with its parts, header lines and body once each and in order; then the parser waits for the next request, or is dead, as version and the Connection lines, those of the trailer included, say |
| HttpMessage.TwoRequests | async-web-server/src/http-parser/http_parser.c:1419-1448 | Two written requests in one input are both parsed back if the first lets the connection go on |
| HttpMessage.ClosedAfter | async-web-server/src/http-parser/http_parser.c:390-394 | If it does not, the first byte after it is an error |
| HttpMessage.RequestInPieces | async-web-server/src/http-parser/http_parser.c:330-377 | The same for any cut of the request into non-empty buffers |
| HttpMessage.ResponseRoundTrip | async-web-server/src/http-parser/http_parser.c:427-572 | The same for a written response |
| HttpMessage.NoFramingIsABody | async-web-server/src/http-parser/http_parser.c:1415-1435 | The blank line completes a message at once exactly for a length of zero; without any framing a body of 2^64 - 1 bytes is expected |
| GraphBuild.OsGraph.FromData | parallel-graph/src/os_graph.c:27-64 | The array rows hold for each node exactly its neighbours in edge order, nothing is visited, and no row overflows |
| GraphBuild.OsGraph.AddEdges | parallel-graph/src/os_graph.c:48-55 | The loop over the edges fills the rows with the neighbours of the list |
| GraphBuild.Symmetric | parallel-graph/src/os_graph.c:48-55 | The adjacency is symmetric with multiplicity, loops included |
| GraphBuild.HandShake | parallel-graph/src/os_graph.c:48-55 | The neighbour counts add up to twice the number of edges |
| GraphBuild.GraphOfValid | parallel-graph/src/os_graph.c:41-55 | Every neighbour is a node |
| Serial.SerialProgram.ProcessNode | parallel-graph/src/serial.c:13-24 | The call marks only nodes reachable from its own, leaves no neighbour of them unvisited, adds each value once, and ends |
| Serial.SerialProgram.Run | parallel-graph/src/serial.c:40-42 | The program marks exactly what node 0 reaches, and reports the sum of their values |
| Serial.SerialSum | parallel-graph/src/serial.c:26-45 | The same from an edge list |
| Graphs.ClosedIsReachSet | parallel-graph/src/serial.c:13-24 | A set that holds node 0, is reachable from it and is closed under edges is the set that node 0 reaches |
| PoolProof.InitInv | parallel-graph/src/parallel.c:96-99 | The invariant holds when the pool has been created |
| PoolProof.StepInv | parallel-graph/src/parallel.c:29-82 | Every enabled step of every worker and of the main thread keeps it |
| PoolRuns.CompleteWhenExited | parallel-graph/src/parallel.c:99-104 | Once all workers have exited the queue is empty, the done nodes are exactly those that node 0 reaches, and the sum is the serial program's |
| PoolRuns.QueuedAndAddedOnce | parallel-graph/src/parallel.c:44-64 | Each node is queued and added at most once in any run; when the workers have exited, exactly once if node 0 reaches it and never if not |
| PoolRuns.MarksAdvance | parallel-graph/src/parallel.c:49-63 | A mark only moves from not visited to processing to done, and never skips processing |
| PoolRuns.NoUseAfterFree | parallel-graph/src/os_threadpool.c:29-34 | In every reachable state no node that is queued or in work has been freed, no two workers have the same node, and none is queued twice |
| PoolRuns.FreedOnce | parallel-graph/src/parallel.c:101-110 | At the end of the program every node has been freed exactly once |
| PoolProgress.WorkerDecreases | parallel-graph/src/os_threadpool.c:97-105 | Every worker step decreases a measure over unvisited nodes, queued tasks and neighbours left to scan |
| PoolProgress.RunsEnd | parallel-graph/src/os_threadpool.c:87-116 | Every run has at most 3 steps for each adjacency entry, 7 for each node, 5 for each worker, and 7 more |
| PoolProgress.OnEdgeList | parallel-graph/src/parallel.c:84-104 | On the graph of an edge list that is 6 for each edge; and the sum at the join is the serial sum of the same list |
| PoolProgress.StuckAtGate | parallel-graph/src/os_threadpool.c:90-95 | A run that cannot go on has ended, or waits in the join for a worker that waits at the gate |
| PoolProgress.EndsUnlessSignalLost | parallel-graph/src/parallel.c:79-81 | From the state in which the broadcast is made: a run that cannot go on has ended if and only if no worker was between its test of the flag and its wait; then the queue is empty and the sum is that of the serial program |
| PoolProgress.EndsFromBroadcast | parallel-graph/src/parallel.c:79-81 | From any state before the broadcast, with the flag set: a run that cannot go on has ended, with the serial program's sum, if and only if each worker that is between its test and its wait in that state moves before the main thread; in particular if there is none |
| PoolProgress.WaitsInTime | parallel-graph/src/parallel.c:79-81 | With a worker between its test and its wait the run still ends when the wait begins before the broadcast |
| PoolProgress.SignalLost | parallel-graph/src/parallel.c:79-81 | There is a run in which the signal is lost and nothing can move |
| Rings.ListAdd | parallel-graph/src/os_list.h:23-29 | The ring has the node after its head |
| Rings.ListAddTail | parallel-graph/src/os_list.h:31-37 | The ring has the node at its end |
| Rings.ListDel | parallel-graph/src/os_list.h:39-45 | The node is off the ring, which is otherwise the same, and a ring of its own |
| Rings.Inverse | parallel-graph/src/os_list.h:13-15 | prev and next undo each other at every node of a ring |
| TaskQueue.Queue.Enqueue | parallel-graph/src/os_threadpool.c:37-48 | The task is the last of the waiting ones; what was put in is what was taken out and what is waiting |
| TaskQueue.Queue.Dequeue | parallel-graph/src/os_threadpool.c:66-84 | The oldest task is taken off, or none if there is none; what was put in is what was taken out and what is waiting |
| TaskQueue.Queue.Destroy | parallel-graph/src/os_threadpool.c:177-180 | The safe iteration destroys each waiting task once, in order, and leaves the queue empty |
| TaskQueue.Fifo | parallel-graph/src/os_threadpool.c:37-84 | The same law for every list of calls, with the waiting tasks computed from the calls |
| MemList.List.Add | mini-libc/src/mm/mem_list.c:24-42 | The mapping is the last of the list |
| MemList.List.Find | mini-libc/src/mm/mem_list.c:44-53 | It finds the earliest item with this start, and nothing exactly if there is none |
| MemList.List.Del | mini-libc/src/mm/mem_list.c:55-84 | It removes that item and no other, or reports that there is none |
| MemList.List.Cleanup | mini-libc/src/mm/mem_list.c:86-103 | It frees each item once, in order, and leaves the list empty |
| MemList.List.NumItems | mini-libc/src/mm/mem_list.c:105-114 | It counts the items |
| HeapSpec.BlocksApart | mem-allocator/src/osmem.c:116-191 | In a valid layout no two blocks overlap, headers and payloads, break and mappings |
| HeapSpec.CoalescedApart | mem-allocator/src/osmem.c:74-94 | No two neighbours are free after coalescing |
| HeapSpec.CoalesceRun | mem-allocator/src/osmem.c:80-88 | A maximal run of free blocks becomes one free block with the payloads and all headers but one |
| HeapSpec.CoalescedTiles | mem-allocator/src/osmem.c:74-94 | Merging the maximal runs keeps the tiling, its end and so every byte |
| HeapSpec.CoalescedInUse | mem-allocator/src/osmem.c:74-94 | The blocks in use are the same, in the same order |
| HeapSpec.CoalescedLinks | mem-allocator/src/osmem.c:84-87 | The prev links still lead back exactly if no run of several free blocks is followed by another block (of mappings: by a mapping) |
| HeapSpec.AllocatedSound | mem-allocator/src/osmem.c:206-253 | An allocation keeps the layout, adds one block of at least the size asked for and at most as much more as rounding and a header need, apart from all others, and changes no other block in use; it is a mapping exactly from the threshold on |
| ReallocSpec.ReallocatedSound | mem-allocator/src/osmem.c:367-462 | On every path realloc keeps the layout and replaces the block by one of at least the size asked for, and by less than a header and 8 bytes more than its rounding, apart from all others, which stay where and as they are |
| ReallocSpec.PayloadsKept | mem-allocator/src/osmem.c:367-462 | Every other block in use keeps its contents |
| ReallocSpec.FreedSound | mem-allocator/src/osmem.c:257-291 | free keeps the layout and takes exactly this block from those in use |
| HeapRuns.RunsSound | mem-allocator/src/osmem.c:206-462 | After any run of safe calls the blocks in use are exactly those handed out and not given back, they do not overlap, and headers and payloads add up to what was taken from the break |
| HeapRuns.EffectSound | mem-allocator/src/osmem.c:206-462 | The effect that each method promises for a safe call keeps the layout and changes the blocks in use as the call says |
| HeapRuns.TailLostExample | mem-allocator/src/osmem.c:416-450 | malloc(8) and realloc to 131048 reach the bad path of realloc, which is not safe |
| HeapRuns.StaleLinkExample | mem-allocator/src/osmem.c:84-87 | Four safe calls from an empty heap leave the prev link of a mapping stale, and its free is not safe |
| HeapRuns.StaleWalkExample | mem-allocator/src/osmem.c:350-364 | One more call, and realloc would search over that link, which leads into the payload of the block that is reallocated |
| HeapRuns.SmallRunsSafe | mem-allocator/src/osmem.c:206-347 | Every run of malloc, calloc and free below the limits for mappings is safe and makes no mapping |
| HeapLaws.AllocatedPlace | mem-allocator/src/osmem.c:52-71 | The first of the smallest free blocks that are large enough is taken, and what is left of it stays free; only if there is none does the break move, by no more than is needed |
| HeapLaws.ReallocatedPlace | mem-allocator/src/osmem.c:403-460 | A block stays where it is if and only if it is the last one or there is room up to the end of a free block after it; what it does not need of that is a free block again |
| HeapLaws.ShrinkExample | mem-allocator/src/osmem.c:416-426 | malloc(1000) as the first call and realloc to 8 leave one free block of 131000 bytes |
| HeapPrev.EffectLinks | mem-allocator/src/osmem.c:74-462 | Every call keeps the prev links of all mappings right, unless it merges a run of several free blocks before a mapping |
| HeapPrev.RunsLinked | mem-allocator/src/osmem.c:74-462 | The same for whole runs |
| HeapPrev.RightIsSafe | mem-allocator/src/osmem.c:267-291 | With right links only the free of a mapping that is the whole list fails, and the search for the last block from the break finds its way |
| HeapRuns.LoneMappingExample | mem-allocator/src/osmem.c:270-273 | malloc(200000) as the first call, and free of it is not safe |
| HeapRuns.OverrunExample | mem-allocator/src/osmem.c:187-188 | calloc(1, 4064) twice: the second one clears where the header of the first mapping is |
| ReallocSpec.MovePlace | mem-allocator/src/osmem.c:390-401 | Whether the old mapping can be freed after malloc, in terms of the list before malloc |
| HeapLinks.UnmapState | mem-allocator/src/osmem.c:267-291 | free of a mapping leaves a valid list of the other blocks, the next one linked to the one before, exactly if it is not the only block and its prev link leads to the block before |
| HeapLinks.SplitState | mem-allocator/src/osmem.c:139-160 | Linking the rest of a split block keeps the invariant, cuts the block in two and links a mapping that follows to the rest |
| Heap.Heap.CoalesceFreeBlocks | mem-allocator/src/osmem.c:74-94 | The loops end with exactly the maximal runs merged, list_tail right, and both kinds of prev links kept exactly under their conditions |
| Heap.Heap.FindBestBlock | mem-allocator/src/osmem.c:52-71 | The first of the smallest free blocks that fit, or 0 exactly if none fits |
| Heap.Heap.AllocateSmall | mem-allocator/src/osmem.c:216-249 | The path below the limit: the chunk prepared, then the best block carved, the last one extended or a new one added |
| Heap.Heap.TakeBest | mem-allocator/src/osmem.c:231-248 | The best block is allocated, and cut exactly if the rest can hold more than a header |
| Heap.Heap.CheckPrealloc | mem-allocator/src/osmem.c:193-204 | True exactly if all blocks are mappings |
| Heap.Heap.HeapPreallocation | mem-allocator/src/osmem.c:25-49 | One free block of the whole chunk is appended |
| Heap.Heap.ExtendLastBlock | mem-allocator/src/osmem.c:97-113 | The last block and the break change by the same amount; calloc's payload is zero, nothing else is written |
| Heap.Heap.AddNewBlock | mem-allocator/src/osmem.c:116-136 | A block is appended at the break |
| Heap.Heap.SplitBlock | mem-allocator/src/osmem.c:139-160 | The block keeps n bytes and a free block takes the rest of its extent |
| Heap.Heap.MemoryMapping | mem-allocator/src/osmem.c:163-191 | A mapped block is appended below all others, linked to the last block; for calloc as many bytes as header and payload have are cleared from the payload on, and the invariant survives exactly if they stay in the pages or meet no header |
| Heap.Heap.Malloc | mem-allocator/src/osmem.c:206-254 | The effect is Allocated with malloc's limit, NULL for 0; no payload changes |
| Heap.Heap.Calloc | mem-allocator/src/osmem.c:293-347 | The effect is Allocated with the page size as limit; the payload is zero, and for a mapping as many more bytes as a header has; no other payload changes, and the invariant survives exactly if these bytes stay in the pages or meet no header |
| Heap.Heap.Free | mem-allocator/src/osmem.c:257-290 | The effect is FreedView, and the invariant holds afterwards exactly if FreeOk held |
| Heap.Heap.FindLastBrkFree | mem-allocator/src/osmem.c:350-364 | With the links of the mappings at the end of the list right, the last block from the break if it is free, or 0; or the block that list_tail was left on |
| Heap.Heap.Trim | mem-allocator/src/osmem.c:423-426 | The block keeps its address, and its rest is cut off exactly if it can hold a header and 8 bytes |
| Heap.Heap.Absorb | mem-allocator/src/osmem.c:416-421 | The next block, if free, is taken in and a mapping after it linked to this block; list_tail is left behind exactly if that was the last block |
| Heap.Heap.Grow | mem-allocator/src/osmem.c:442-451 | The last free block takes the contents and the old one is freed; valid exactly if list_tail had not been left behind |
| Heap.Heap.Move | mem-allocator/src/osmem.c:390-401 | A new block gets the contents and the old one is freed; nothing outside the new block changes; the invariant holds afterwards exactly if MoveOk held |
| Heap.Heap.Relocate | mem-allocator/src/osmem.c:428-460 | Which of these two is done, and when the invariant survives |
| Heap.Heap.ReallocLast | mem-allocator/src/osmem.c:403-413 | The last block grows with the break or is trimmed in place |
| Heap.Heap.Realloc | mem-allocator/src/osmem.c:367-462 | The effect is Reallocated: the first min(old, new) bytes are at the result, nothing outside it changes, every other block keeps its contents, and the invariant holds afterwards exactly if ReallocOk held |
| Heap.Heap.Perform | mem-allocator/src/osmem.c:206-462 | Any call on blocks of the list: safe ones keep the invariant and have the specified effect, others lose the invariant (a calloc only if it meets a header) |
| PrintfDigits.DigitsDenote | mem-allocator/utils/printf.c:257-281 | The digits denote the value modulo base^room, and all of it if they do not fill the room |
| PrintfDigits.AtoiDenotes | mem-allocator/utils/printf.c:181-187 | Reading digits gives what they denote, modulo 2^32 |
| PrintfDigits.AtoiRoundTrip | mem-allocator/utils/printf.c:181-281 | Reading a printed decimal gives the value back exactly if it is below 2^32 |
| Printf.Sink.FillDigits | mem-allocator/utils/printf.c:267-277 | The digit loop fills the buffer with the digits, at most 32 |
| Printf.AtoiAt | mem-allocator/utils/printf.c:181-186 | The loop reads the whole run of digits at a position |
| Printf.ParseDirective | mem-allocator/utils/printf.c:574-679 | Flags, width, precision and length of a directive, with the arguments that stars take |
| PrintfParse.WrittenIsParsed | mem-allocator/utils/printf.c:574-679 | A directive written from flags in any order, width, precision (numbers or stars) and length is parsed back wherever it stands in a format, numbers modulo 2^32, and its conversion is the character after it |
| Printf.Sink.Convert | mem-allocator/utils/printf.c:682-855 | Each conversion passes on its text, for d, i, u, x, X, o, b, c, s, p, %% and unknown letters |
| Printf.Sink.PutString | mem-allocator/utils/printf.c:804-821 | The string up to its precision, with spaces up to the width |
| Printf.Sink.OutRev | mem-allocator/utils/printf.c:189-208 | The buffer is written backwards, with spaces before or after it up to the width |
| Printf.Sink.NtoaFormat | mem-allocator/utils/printf.c:211-254 | Zeros, prefix and sign never leave the 32 characters, and the text is FormatText |
| Printf.Sink.Vsnprintf | mem-allocator/utils/printf.c:555-862 | For every format and arguments the unlimited text has been passed on, and the buffer holds as much of it as fits before a NUL |
| Printf.Snprintf | mem-allocator/utils/printf.c:888-896 | The result is the length of the text, as int, whatever the limit; the buffer holds the first min(length, n - 1) characters and NUL, and nothing else changes |
| PrintfStandard.StandardText | mem-allocator/utils/printf.c:211-281 | The text is the one of section 7.19.6.1 of C99 exactly if Fits holds |
| PrintfDirective.ParseReads | mem-allocator/utils/printf.c:572-643 | The source reads flags, width and precision as the standard does, but numbers modulo 2^32 and a negative star as a precision of zero |
| PrintfDirective.WrittenIsRead | mem-allocator/utils/printf.c:572-643 | What the standard reads in a format is what the parts of the written directive mean |
| PrintfDirective.StandardDirective | mem-allocator/utils/printf.c:572-735 | d, i, u, o, x and X without '#', for every directive in every format and every argument, taken in the type that the written length asks for: the text is the standard's if and only if Represented, and StarFits for a negative star as precision or else Fits |
| PrintfDirective.HashDirective | mem-allocator/utils/printf.c:572-735 | o, x and X with '#', in the same way, with HashFitsValue for Fits |
| PrintfDirective.StarExample | mem-allocator/utils/printf.c:630-640 | "%05.*d" of -1 and 42 is written as three spaces and "42", where the standard has "00042" |
| PrintfDirective.BareStarExample | mem-allocator/utils/printf.c:630-640 | "%.*d" of -1 and 0 is written as nothing, where the standard has "0" |
| PrintfParse.LeftPrecisionExample | mem-allocator/utils/printf.c:215-222 | "%-5.3d" of 7 is written as "7" and four spaces, where the standard has "007" |
| PrintfStandard.BufferDigits | mem-allocator/utils/printf.c:257-281 | In base 8 or more the buffer holds the whole 64-bit value, its highest digit first and not zero |
| PrintfPrefix.HashKeepsValue | mem-allocator/utils/printf.c:231-246 | Under '#' the digits that are kept denote the value exactly if the width does not make the prefix take a digit's place |
| PrintfDirective.HashExample | mem-allocator/utils/printf.c:231-246 | "%#2x" of 0x12 is written as "0x", where the standard has "0x12" |
| PrintfStrings.StringDirective | mem-allocator/utils/printf.c:805-822 | %s: the text is the standard's, if width and precision fit unsigned int, unless the precision is a negative star and the string more than spaces within the width |
| PrintfStrings.CharDirective | mem-allocator/utils/printf.c:789-803 | %c: the argument as unsigned char, with spaces up to the width |
| PrintfStrings.PointerDirective | mem-allocator/utils/printf.c:824-842 | %p: 16 hexadecimal digits in capitals |
| PrintfStrings.BinaryDirective | mem-allocator/utils/printf.c:684-767 | %b: without flags, width and precision: at most 32 digits, which denote the lowest 32 bits of the argument in its length |
| PrintfStrings.FormatPieces | mem-allocator/utils/printf.c:564-858 | A format is written piece by piece: ordinary characters, the conversion of the argument after those of the stars, and the rest |
| PrintfHash.HashText | mem-allocator/utils/printf.c:211-254 | o, x and X with '#' of any value, zero included: the text is the one of section 7.19.6.1 of C99 if and only if HashFitsValue holds |

## Left out

- HTTP: callbacks that abort, and what is read after an upgrade; the round trips are stated for messages with a Content-Length or chunks and without CONNECT; the parser type that accepts both requests and responses is modelled, but no round trip is stated for it.
- HTTP: the arms of the switch are functions from record and byte to new record and callbacks; the loop around them updates fields in place.
- Heap.Heap.ReallocInner: says nothing about the contents of memory on the bad path of realloc, where the source copies overlapping areas.
- Heap.Heap.Realloc: says nothing for a search for the last block from the break over mappings with stale links (`WalkOk`), where the source reads what users may have written.
- Heap.Heap.Calloc: a write past the pages of a mapping that meets no header of the list changes the bytes there in the model; in a process it may fault or hit memory of others.
- HeapLinks.UnmapState: a write through a stale prev link that leads to no header is left out.
- Allocator: system call failure, overflow of nmemb * size.
- Traversal: weak memory, spurious wake-ups, the width of the sum, reading the input file, initialisation of the pthread objects.
- Rings: the address arithmetic of list_entry; a node carries its task.
- MemList.List.Add: does not model a failing mmap, whose result the source compares with NULL instead of MAP_FAILED.
- Formatter: sprintf and printf without a limit, and floating point (a parameter).
- PrintfStrings.StringDirective: says nothing for widths and precisions of 2^32 or more, where strings as long as these would have to be told apart.
- PrintfDirective.StandardDirective: takes "%#d" and the like, which the standard leaves undefined, as without '#'.
- Printf.Snprintf: a buffer and count as the caller gives them; a null buffer is allowed and is never written.
- mini-shell, the system call wrappers and string functions of mini-libc, and the sockets, epoll and asynchronous I/O of the web server.
