# FlashWebserver in Dafny

A model of FlashWebserver's reactor and proofs about it. One thread accepts connections and hands
them in turn to event loops. Each loop waits on epoll, handles the ready connections, runs the
callbacks that other threads queued for it, and closes the connections whose timers have run out. A
connection parses pipelined HTTP requests out of a buffer and writes the responses as the socket
takes them. Two loops of the vendored test header are modelled as well.

`dafny verify dfyconfig.toml` checks everything.

| file | what it holds |
|---|---|
| `Text.dfy`, `Utils.dfy` | string searches; reading and writing a non-blocking descriptor whose kernel answers as it likes |
| `RequestLine.dfy` | `ParseURI` as a function, for any terminator |
| `HeaderLines.dfy` | the header automaton as a function, the language it accepts, and reads that split a request |
| `MendedHeaders.dfy` | the header parser as it is meant, for which the division into reads does not matter |
| `Sessions.dfy` | what a connection makes of its input: rounds of reading as a machine on values, whole requests and split ones |
| `Connections.dfy` | what an event, a sweep and a round of the loop do to a connection, as relations between what can be seen of it |
| `Requests.dfy` | whole printed requests, with the intended and with the actual terminator, and pipelining |
| `Clock.dfy` | the wrapped millisecond clock |
| `Reactor.dfy` | `Channel`, `TimerNode`, `Http` and `Epoll` as classes, with the invariant that links them |
| `EventLoop.dfy` | the loop, and what holds after every run of it |
| `CallbackQueue.dfy` | producers and loop as atomic steps in any order |
| `RoundRobin.dfy` | the assignment of accepted connections to loops |
| `Wildcards.dfy`, `Tokenizer.dfy` | the wildcard matcher and the comma tokenizer of doctest.h |

## How the code is taken

The model follows the code as written. Where that differs from its documentation or evident intent,
the property is stated with the exact condition under which the code meets it:

- The terminator of the request line is the multi-character literal `'/r'`. It narrows to the
  letter `r` when it is passed as a `char`. The parser is a function of the terminator, and
  `RequestLine.TERMINATOR` is that letter. `SourceTerminatorRecovers` says for which requests the
  request line still comes out right, `NoLetterNoRequest` which requests are never even seen to be
  complete, `SourceNeverRecoversHeaders` that the headers never come out right, and `CrRoundTrip`
  that with a CR everything would.
- The README promises pipelining, but the header loop runs one byte past the empty line, so a
  request that follows directly loses its first byte (`FollowingBytesSurvive`). With a CR as
  terminator `PipelinedGetIsRejected` says exactly which GET requests then fail, and
  `PaddedRequestsArrive` that any number of requests would arrive with a spare byte behind each.
- When input runs out inside a header block, the state is kept but the offsets of key and value are
  lost and the buffer is rewound. `SplitReadsAgree` says exactly when the next read still gives the
  right answer, whatever it brings and however the input before it was divided: when nothing but CR
  and LF had been read. `BlockInOneRead` does the same for what is left over. Ending a line with an
  offset of -1 forms an iterator before the buffer, which is undefined; the verdict is then
  `HeaderUndefined`. A parse that starts afresh never gets there; for one that is resumed inside a
  line, `ResumedLineIsLost` says exactly when it does, and that otherwise it fails or waits. For a
  connection the same is `RetryAgrees` and `CutLineIsLost`. The parser that rewinds state and
  buffer together is `MendedHeaders`; `ReadsDoNotMatter` proves it independent of every division
  into reads. In `HandleRead` the undefined case is any verdict, success included, with any headers
  and any cut of the buffer.
- A failed write leaves the buffer whole although part of it may have gone out, and `HandleWrite`
  goes on to write it again. `WriteToFd` says exactly when bytes are counted twice; from then on
  `writeFailed` is set and the ledger of a connection says nothing.
- A deadline is not reduced modulo the clock's cycle. A timer whose unreduced deadline reaches
  1,000,000 never expires, and one that has expired is revived by the next wrap
  (`EventuallyExpires`, `StaysExpired`).
- A half-closed connection is kept while output is announced, but without a timer and without
  telling epoll. With output left after an event it is kept exactly when that event reported
  writability or a request was answered in it; otherwise it is closed and the rest is never sent
  (`Http.HalfCloseDecided`, `Channel.OutputIsLost`). The round that meets the end of the input is
  the last that can answer, and it takes one request only; what is buffered behind it gets no
  answer (`Sessions.Continues`, `EndedAnswersNothing`).
- The loop ends for good after five waits in all that returned nothing or failed: between two
  rounds it has ended without Quit exactly when there were five, there are never more, and what is
  pushed later never runs (`FiveEmptyWaitsEndTheLoop`, `IdleWaitsStopTheLoop`).

## The invariant of the reactor

`Epoll.Core` holds at every point outside the registry's own methods: the two descriptor maps and
the kernel's interest set have the same keys and are linked consistently (`Maps`); a connection is
registered until its one close (`Lives`); a queued node is either live, and then the timer of its
connection, or flagged deleted without data (`Nodes`). `Epoll.Boundary` adds, between two steps of
the loop, that every connection is `Http.Quiet`: it has a live timer exactly when it is
`CONNECTED`, an error only when it is closed, its parser waits for bytes and has no whole request
line in its buffer, and the bytes delivered followed by the bytes buffered are all responses in
order. It also says where the responses come from (`Http.Lived`): the rounds of reading that the
connection has made since it was accepted have taken exactly the bytes that are gone from its
socket, and by the steps of `Sessions` they lead from a new session to the log of answers and to
the state that the parser now keeps. Every connection that is not closed is watched by the kernel
for input or for output, edge-triggered (`Http.Armed`). `Epoll.Deadlines` is the plain map from
connections to deadlines that the lazily deleted queue stands for.

The assumptions about the surroundings are the contracts of `Socket.Read` and `Socket.Write`
(finite input, end of file after it, finitely many interrupts and empty writes), of
`EventLoop.KernelReport` (registered descriptors, each once) and of `EventLoop.DoCallbacks` (the
queued connections have different descriptors, and one that is not free is passed over). Everything
else about them is arbitrary. What an error page says is arbitrary too, but not empty.

`Http.Look` is all that can be seen of a connection between two steps: its session, what was read
and written, whether it is kept alive, its state, its mask in the kernel and its timer. The loop is
stated in these terms: `Connections.Event` is what one event does to them, `Sweep` what a sweep of
the timers does, and `Loop` says that every connection goes through its rounds by these steps.

## Model

| member | source | states |
|---|---|---|
| `EventLoops.EventLoop.Loop` | src/Server/EventLoop.cpp:35-55 | over every run, of any length and with any events, clock, new connections and kernel answers, the clock running on even during a sweep: the loop goes on exactly until Quit or five empty waits; every connection goes through the rounds one after the other, each time by the event that is reported of it and the sweep; it is closed at most once and never reopened, and the rounds it has read, its answers and its delivered bytes are only added to; at the end every connection is quiet and watched by the kernel until it is closed |
| `EventLoops.EventLoop.Round` | src/Server/EventLoop.cpp:38-53 | one round, for any report and any queued callbacks: every connection makes the step of the event reported of it, or none, and then that of a sweep; every callback with a free descriptor is run; what was due at the start is gone unless the reading wraps |
| `EventLoops.EventLoop.Dispatch` | src/Server/EventLoop.cpp:47-49 | every connection whose channel is in the batch makes the step of its event, and of no other connection can anything be seen to change |
| `EventLoops.EventLoop.Wait` | src/Server/EventLoop.cpp:40-41 | waiting returns the registered channels of the reported descriptors in order, with the reported events and emptied listen masks |
| `EventLoops.EventLoop.DoCallbacks` | src/Server/EventLoop.cpp:57-73 | every queued connection with a free descriptor is taken in, new, armed for input and with its first timer, and of the others nothing can be seen to change |
| `EventLoops.EventLoop.Expire` | src/Server/EventLoop.cpp:52 | for a clock that runs on during the sweep: every connection is as before or closed by its timer, never before the full timeout of the timer it had; if the reading does not wrap meanwhile, all that was due at the start is closed and nothing that is not due at the end; the top is live |
| `EventLoops.EventLoop.constructor` | src/Server/EventLoop.cpp:12-27 | a new loop is in order and has only its wake-up channel |
| `EventLoops.EventLoop.Handle` | src/Server/EventLoop.cpp:47-49 | the connection of the channel makes the step of the reported event, which stays as it was; of no other connection can anything be seen to change, and the other channels keep their masks |
| `Reactor.Channel.HandleEvents` | src/Server/Channel.cpp:89-106 | one event of any kind, which stays as reported, keeps the boundary and every entry of the other descriptors; its connection makes the step of the event (rounds of reading, writing, keep-alive, staying or closing, mask and timer), and nothing can be seen to change of the others |
| `Reactor.Channel.OutputIsLost` | src/Server/Http.cpp:215-220 | one error event closes a half-closed connection with output left, which the peer then does not get |
| `Reactor.Http.React` | src/Server/Channel.cpp:93-104 | the write, read and connection callbacks in this order take a quiet connection to a quiet one by the step of the event: an open one stays when it is kept alive or still busy, and is closed when it is neither and no write was refused; it is armed for writing while it is busy and for reading when there is nothing to do; half-closed with output left it stays exactly when it could write or has answered, and is closed otherwise with that output lost |
| `Reactor.Http.HandleRead` | src/Server/Http.cpp:74-179 | terminates by the bytes pending; closes exactly on an error, which removes exactly the own entry; an open connection keeps no whole request line in its buffer; the recursion is the rounds of one event: a round follows exactly after an answer, with bytes left and the input not ended, what is kept is what the last round leaves, input is asked for exactly when not everything read is answered, output is left only after two refusals, and the connection is kept alive exactly from the first answer that asks for it |
| `Reactor.Http.ReadAndProcess` | src/Server/Http.cpp:78-149 | one round, from any state of the parser: the bytes read are appended, and then the session makes a step: it answers the request in front, keeps an unfinished one as the parsing functions say, fails, or meets the end of the input |
| `Reactor.Http.ProcessBuffered` | src/Server/Http.cpp:102-148 | the same for the bytes that are buffered, without reading: line, block and answer together are one pass of the parser |
| `Reactor.Http.ProcessBlock` | src/Server/Http.cpp:116-148 | the header block and the answer: what is kept of a block that is cut, what a finished one is answered with |
| `Reactor.Http.NextRequest` | src/Server/Http.cpp:156-162 | the recursion for pipelined requests keeps everything HandleRead promises |
| `Reactor.Http.HandleWrite` | src/Server/Http.cpp:483-497 | two writes keep delivered plus buffered bytes equal to all responses; output is left exactly when the kernel has refused both, and then it announces itself |
| `Reactor.Http.ProcessRequest` | src/Server/Http.cpp:390-454 | success appends one response to the buffer and to the log of the answered requests; the connection is kept alive exactly from a header that asks for it |
| `Reactor.Http.ParseURI` | src/Server/Http.cpp:224-300 | computes the request-line function on buffer and fields, and uses bytes up unless it must wait |
| `Reactor.Http.ParseHeaders` | src/Server/Http.cpp:302-388 | the loop over the switch computes the header function on buffer, state and headers |
| `Reactor.Http.HandleCurrentConn` | src/Server/Http.cpp:181-222 | the connection ends quiet; which mask, deadline, registration and state it gets, case by case |
| `Reactor.Http.Linger` | src/Server/Http.cpp:215-221 | a half-closed connection stays as it is in the registry exactly when output was announced |
| `Reactor.Http.SeparateTimer` | src/Server/Http.cpp:500-507 | the timer is unlinked and its node flagged, and the shared invariant holds |
| `Reactor.Http.Reset` | src/Server/Http.cpp:509-515 | a finished connection waits for a request line again, without a timer |
| `Reactor.Http.HandleClose` | src/Server/Http.cpp:517-522 | closing an unclosed connection removes exactly one entry from each map and from the kernel |
| `Reactor.Http.Init` | src/Server/Http.cpp:524-529 | a new connection enters all maps at once, armed for input, with its first deadline |
| `Reactor.Epoll.EpollAdd` | src/Server/Epoll.cpp:27-45 | an existing entry is left alone, a new one is inserted; only channels with a connection get a timer |
| `Reactor.Epoll.EpollModify` | src/Server/Epoll.cpp:47-63 | the mask of the one descriptor and the deadline of its connection change, nothing else |
| `Reactor.Epoll.AddTimerNode` | src/Utils/Timer.cpp:59-64 | the new node is the one live node of the connection; the map of deadlines gains this entry |
| `Reactor.Epoll.EpollDel` | src/Server/Epoll.cpp:72-87 | how many entries the erase removes |
| `Reactor.Epoll.EpollWait` | src/Server/Epoll.cpp:89-123 | the ready channels in order with their events and empty masks; indexing the map never makes an entry |
| `Reactor.Epoll.Inspect` | src/Utils/Timer.cpp:21-31 | destroying a popped node closes its connection when it still has one, and only then |
| `Reactor.Epoll.HandleExpire` | src/Utils/Timer.cpp:66-77 | for a clock between two readings: everything due at the first is closed, nothing not due at the second, never before the full timeout; the map of deadlines loses exactly these; what is left is not due and the top is live |
| `Reactor.Epoll.Top` | src/Utils/Timer.h:38-43 | the top of the queue has a least deadline |
| `Reactor.TimerNode.IsExpired` | src/Utils/Timer.cpp:39-51 | the comparison with the wrapped reading, and the flag it sets |
| `Clock.ReadingIsWrappedTime` | src/Utils/Timer.cpp:15-17 | the reading is the elapsed milliseconds modulo 1,000,000 |
| `Clock.ExpiredExactly` | src/Utils/Timer.cpp:39-51 | when a timer reports expired, exactly and for every later time: each wrap since its creation puts it off by a cycle |
| `Clock.NeverEarly` | src/Utils/Timer.cpp:39-51 | across any number of wraps a timer never expires before its full timeout |
| `Clock.ExactWithinCycle` | src/Utils/Timer.cpp:39-51 | in the cycle of its creation it is expired exactly from its timeout on |
| `Clock.EventuallyExpires` | src/Utils/Timer.cpp:15-17 | it expires at some time, and then at its timeout, exactly when the unreduced deadline is below the cycle |
| `Clock.StaysExpired` | src/Utils/Timer.cpp:39-51 | it stays expired exactly when its deadline is zero |
| `Utils.ReadFromFd` | src/Utils/Utils.cpp:100-130 | what was read is appended in order and nothing is lost, even when a later read fails; reading goes on until the kernel has nothing more, which is what the result says |
| `Utils.WriteToFd` | src/Utils/Utils.cpp:132-157 | sent and kept bytes make up the old buffer exactly unless a write failed after some had gone out; bytes are left exactly when the kernel refused a write, and the call fails exactly when that was a failure |
| `Utils.WriteRaw` | src/Utils/Utils.cpp:74-98 | a prefix is sent, and its length is the result unless a write failed; it is everything unless the kernel would block or fails |
| `RequestLine.MoreInputIsAppended` | src/Server/Http.cpp:224-238 | for any terminator: waiting changes nothing, and any other verdict is the same on every longer buffer, with the rest appended |
| `RequestLine.LineMeaning` | src/Server/Http.cpp:241-299 | the accepted lines and the fields they set, exactly: the first GET, or else the first POST; no slash behind it, or a target up to a space and a version behind the next slash; of the target what stands before a question mark |
| `RequestLine.UriMeaning` | src/Server/Http.cpp:224-238 | a buffer is accepted exactly when a line in front of the terminator asks for the fields |
| `RequestLine.PathIsNamed` | src/Server/Http.cpp:265-276 | the path is the index for an empty target, the target without a question mark, and what stands before the first one otherwise |
| `RequestLine.PrintedRequestLine` | src/Server/Http.cpp:255-299 | with a terminator that is not in the line, method, version and the path that the target names come back |
| `RequestLine.SourceTerminatorRecovers` | src/Server/Http.cpp:225 | with the actual terminator they come back exactly when the letter is not in the target but in the bytes behind the line |
| `HeaderLines.BlockIsAccepted` | src/Server/Http.cpp:308-388 | every printed block is accepted, the headers are updated last-wins in order, and the rest lacks one byte |
| `HeaderLines.SuccessIsBlock` | src/Server/Http.cpp:308-388 | only buffers that begin with a block are accepted |
| `HeaderLines.HeaderLanguage` | src/Server/Http.cpp:302-388 | a fresh parse succeeds exactly on buffers with a block in front |
| `HeaderLines.ThreeVerdicts` | src/Server/Http.cpp:302-388 | a fresh parse succeeds exactly with a block in front, waits exactly while there is only the beginning of one, and fails exactly on everything else |
| `HeaderLines.FirstLineIsKept` | src/Server/Http.cpp:310-317 | of a block cut in its first line the beginning of that line is kept, without the breaks in front, and the state is that of the place |
| `HeaderLines.LaterLineIsKept` | src/Server/Http.cpp:353-366 | of a block cut after whole lines these are in the headers, and the LF of the last and the beginning of the next are kept |
| `HeaderLines.EmptyLineIsKept` | src/Server/Http.cpp:353-372 | the same for a cut in the empty line |
| `HeaderLines.FollowingBytesSurvive` | src/Server/Http.cpp:374-383 | the bytes behind a block are kept whole exactly when there are none |
| `HeaderLines.FreshParseIsDefined` | src/Server/Http.cpp:347-353 | a fresh parse never commits a line with an offset outside the buffer |
| `HeaderLines.ResumedLineIsLost` | src/Server/Http.cpp:303-305 | after a read that ends inside a line, the next one waits, fails or is undefined, and it is undefined exactly when what was kept and what is read begin with the rest of a line |
| `HeaderLines.SplitReadsAgree` | src/Server/Http.cpp:382-387 | one more read gives the answer of one buffer, for every continuation and however the input before was divided into reads, exactly when that held only breaks |
| `Connections.ReadOnceAndOn` | src/Server/Http.cpp:74-168 | a round and what follows it make up what HandleRead promises of the whole event |
| `Connections.TalkedThenSettled` | src/Server/Http.cpp:181-222 | what the callbacks leave the channel listening for decides the connection as the step of an event says |
| `HeaderLines.LostInThreeWays` | src/Server/Http.cpp:303-305 | an innocent request split in two reads that is undefined, one that fails, one that waits |
| `HeaderLines.BlockInOneRead` | src/Server/Http.cpp:374-387 | a block that comes whole in one read leaves what one buffer would leave exactly when the reads do not part right behind its empty line |
| `Sessions.WholeIsAnswered` | src/Server/Http.cpp:102-148 | a whole GET request in front is answered with its own fields and headers, unless the file system refuses it; the rest lacks one byte |
| `Sessions.AnsweredIsWhole` | src/Server/Http.cpp:102-148 | whatever is answered is a whole GET request that stands in front |
| `Sessions.BegunIsAwaited` | src/Server/Http.cpp:102-121 | an incomplete line is waited for with the buffer as it is, a block that has only begun behind its line |
| `Sessions.BadIsRefused` | src/Server/Http.cpp:107-125 | a line that asks for nothing, or a block that is neither whole nor begun, is an error |
| `Sessions.PostIsNeverAnswered` | src/Server/Http.cpp:127-136 | a whole POST request is kept for its body, and nothing is answered any more |
| `Sessions.RetryIsOneRead` | src/Server/Http.cpp:76-131 | appending what is read and trying again does what one read of all the bytes would have done, while the block of the request has not begun |
| `Sessions.RetryAgrees` | src/Server/Http.cpp:76-131 | behind the request line it does so, whatever is read next, exactly as long as only breaks were read of the block |
| `Sessions.CutLineIsLost` | src/Server/Http.cpp:116-131 | a request whose block was cut inside a line is answered only by undefined behaviour, when the kept and the new bytes begin with the rest of a line |
| `Sessions.EndedAnswersNothing` | src/Server/Http.cpp:80-101 | once the input has ended, or after an error, no rounds answer anything |
| `Sessions.ServesRuns` | src/Server/Http.cpp:155-162 | the rounds that recursion makes are steps of the session like any others |
| `MendedHeaders.MendedIsParse` | src/Server/Http.cpp:302-388 | on one buffer the parser as it is meant gives verdict and headers of the code, and leaves whole what the code leaves without its first byte |
| `MendedHeaders.ReadsDoNotMatter` | src/Server/Http.cpp:76 | the parser as it is meant gives, for every division of the input into reads, the verdict, headers, state and rest of one buffer |
| `Requests.CrRoundTrip` | src/Server/Http.cpp:224-388 | with CR every printed GET request gives back its fields and exactly its headers |
| `Requests.SourceNeverRecoversHeaders` | src/Server/Http.cpp:225 | with the actual terminator no printed request gives back its headers |
| `Requests.NoLetterNoRequest` | src/Server/Http.cpp:225-228 | with the actual terminator a printed request is never recognised as complete exactly when the letter is in neither its target nor its headers |
| `Requests.PipelinedRequestArrives` | src/Server/Http.cpp:374-383 | with CR, what follows a request arrives whole exactly when it is empty |
| `Requests.PipelinedGetIsRejected` | src/Server/Http.cpp:241-253 | with CR, a GET request that follows directly is an error exactly unless a method name with a slash behind it stands in its target |
| `Requests.PaddedRequestsArrive` | src/Server/Http.cpp:156-162 | with CR and a spare byte behind each, any number of pipelined requests comes back in order with fields and headers |
| `CallbackQueue.NoLostWakeUp` | src/Server/EventLoop.cpp:87-115 | in every interleaving, failing waits included, a queued callback has an edge, a producer about to write or a loop about to swap, while the loop runs |
| `CallbackQueue.PushOrder` | src/Server/EventLoop.cpp:57-98 | executed, swapped and queued callbacks together are the push log, so each runs at most once and in order |
| `CallbackQueue.PushedCallbacksRun` | src/Server/EventLoop.cpp:35-73 | whatever the producers do, all that was pushed has run after a stated number of steps of the loop |
| `CallbackQueue.BatchIsComplete` | src/Server/EventLoop.cpp:61-72 | everything pushed before a swap has run when that batch ends |
| `CallbackQueue.BlockedMeansIdle` | src/Server/EventLoop.cpp:110-115 | a blocked loop has nothing queued unless a producer is still to write, and that write unblocks it |
| `CallbackQueue.StoppedRunsNothing` | src/Server/EventLoop.cpp:38-54 | a loop that has ended never runs anything again |
| `CallbackQueue.FiveEmptyWaitsEndTheLoop` | src/Server/EventLoop.cpp:37-44 | in every run there are at most five empty waits, and between two rounds the loop has ended without Quit exactly when there were five |
| `CallbackQueue.LoopEnds` | src/Server/EventLoop.cpp:38-54 | a loop has ended exactly when it came to the end of a batch after Quit or after its fifth empty wait |
| `CallbackQueue.IdleWaitsStopTheLoop` | src/Server/EventLoop.cpp:37-44 | without traffic a new loop stops by itself, and a callback pushed then is never run, however the run goes on |
| `RoundRobin.EventLoopThreadPool.Start` | src/Server/EventLoopThreadPool.cpp:28-35 | one loop for each thread, with nothing queued |
| `RoundRobin.EventLoopThreadPool.GetNextLoop` | src/Server/EventLoopThreadPool.cpp:37-45 | the loops are given out in turn |
| `RoundRobin.EventLoopThreadPool.HandleNewConn` | src/Server/Server.cpp:63-93 | the accept loop queues on every loop its share of the accepted connections, in order |
| `RoundRobin.OnExactlyOneLoop` | src/Server/Server.cpp:75-78 | a connection is in the share of exactly the loop whose turn it is |
| `RoundRobin.EvenLoad` | src/Server/EventLoopThreadPool.cpp:41-42 | of k connections each of n loops gets k / n rounded down or up, from any start |
| `Wildcards.WildCmp` | src/Utils/doctest.h:4061-4095 | backtracking to the last star only decides matching as defined by recursion, for every string, pattern and case mode |
| `Wildcards.CaseCounts` | src/Utils/doctest.h:4069-4070 | with case mode a character matches only itself, without it also its other case |
| `Wildcards.NewStarSuffices` | src/Utils/doctest.h:4075-4080 | at a new star the alternatives of the previous one can be forgotten |
| `Wildcards.MatchesAny` | src/Utils/doctest.h:4098-4106 | some filter matches, or there is none and that counts |
| `Tokenizer.ParseCommaSepArgs` | src/Utils/doctest.h:6444-6471 | the loop appends the tokens of the text |
| `Tokenizer.TextMeaning` | src/Utils/doctest.h:6444-6471 | the tokens of every text: a backslash escapes a comma or a backslash and otherwise stands for itself |
| `Tokenizer.Spell` | src/Utils/doctest.h:6452-6466 | every text is made of such pieces |
| `Tokenizer.JoinedTokens` | src/Utils/doctest.h:6444-6471 | tokenizing an escaped and joined list gives its non-empty tokens, for every list |
| `Tokenizer.RoundTrip` | src/Utils/doctest.h:6444-6471 | the list comes back exactly when no token is empty |

## Left out

- System calls: epoll, sockets, eventfd, the file system and the clock are arbitrary within the assumptions above; a successful `epoll_ctl` is one whose descriptor is new, or present, as the call needs.
- Reference counts and the life of objects behind raw pointers: objects live for ever, `TimerNode.alive` stands for the expiry of weak links, and the destructor of a node is part of `Inspect`.
- The heap array of the priority queue: the queue is a set whose `Top` is any node of least deadline, as the library promises; `TimerNode::Update` has no caller.
- The delegations of `EventLoop` to `Epoll`, and of `Epoll` to the timer manager: a connection calls `Epoll` directly, and the queue is a field of it.
- `Channel`'s callbacks as function objects: a channel calls its connection; channels without one have no callbacks, and those of the listening channel are `RoundRobin`.
- `EventLoop.DoCallbacks`: takes one free descriptor after the other for the queued connections; the queue itself, with its threads, is `CallbackQueue`.
- `EventLoop.Loop`: is watched for a number of rounds, which is arbitrary; it need not end in the program.
- Request bodies: the body state has no code, so a POST stays in it.
- Response and error texts, MIME types and file contents: a response is any string; after an error only the close is modelled.
- Widths of `int` and `size_t`: buffers are shorter than 2^31 bytes and the eventfd counter does not overflow.
- The first round of the second loop of `wildcmp`, which always sees a star, stands before the loop in `FromStar`.
- `parseOption`, logging, printing, the demos, thread start and shutdown, and the rest of doctest.h.
