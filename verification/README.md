# A verified model of the web server's connection handling

This project models one connection of the server, from the moment its descriptor is accepted until its
record is released, and proves what the server promises about it. The code that changes objects step by step
is modelled by classes and methods that do the same (`HttpRequest`, `TransferRingBuffer`, `BlockStorage`,
`Loop`, and one class per executor). Each method is proved equal to a function on values, and the properties
of whole runs are proved about those functions. The kernel and the TLS library appear only as the answers
they give: bytes read, bytes taken, would block, end of stream, error. An answer is arbitrary within what
the call could return.

How the modules follow the program:

- `HttpSyntax`, `HttpMachine`: the scanners and the parser's state machine, one step per pass of its loop.
  `HttpChunks`, `HttpSplits`: the parser re-entered with more and more bytes. `HttpNames`: header names, the
  length of the body, lookups. `HttpRender`: rendering and parsing back. `HttpRecorded`: what the recorded
  offsets mean. `Decimals`: numbers in decimal and how they are read. `UrlCodec`, `UrlPrefix`, `CString`: decoding,
  checking and matching URLs. `HttpRequestObject`: the parser as the object it is.
- `ExecutorLimits`, `ProcessResults`: the limits of a connection record, how a call of an executor ends.
  `RingBuffer`: the byte ring, on values and as a class. `Sequences`: concatenation.
- `RequestModel`, `RequestRuns`, `RequestExecutorObject`: reading a request and choosing where it goes.
  `Destinations`: where a whole request goes, from the text its URL stands for.
- `ProxyModel`, `ProxyRuns`, `ProxyExecutors`: forwarding through a pipe or through the ring. `ProxyOutcomes`: which
  answers drop a connection, and that every exchange can be finished.
- `FileModel`, `FileRuns`, `FileExecutors`: serving a file, in clear or over TLS. `FileOutcomes`: the same two questions.
- `Connections`: the stages put together.
- `BlockStorage`: the intrusive used and free lists. `PollBooks`, `PollRuns`: registrations, the timeout
  sweep and the dispatch of a batch of events, on values. `PollActivity`: how long a connection lives. `PollLoop`: the
  loop over two real storages.
  `PollFailures`: a kernel that does not forget a descriptor. `Registrations`: the executors' view of what is
  polled and the loop's. `ConnectionRecord`: the whole record and its release.
- `ConfigReader`: the configuration scanner, the line-by-line reader and the printer. `ConfigGrammar`: which texts it
  reads, and as what.

## What the code does that its intent does not say

Each of these is stated as an exact condition, in both directions, or as a reachable run:

- Some parse call of a connection never returns exactly when one of the views ends inside the query string
  (`HttpChunks.FeedHangsExactly`; for the first call, `HttpChunks.HangsExactlyInQuery`).
- The incremental and the one-shot parse disagree exactly when a chunk ends between the blank line and a body
  that starts with a line break (`HttpChunks.ChunkIndependence`); every message with such a body is affected
  (`HttpSplits.ChunksMatter`).
- A header name is compared as far as it goes. The parser sees the body length of the standard exactly when the
  last header it takes for one is not an abbreviated name with another value (`HttpNames.AnnouncedExactly`), and
  a message is parsed back exactly when that holds, no such value is too long and the body does not start with
  a line break (`HttpRender.ParseRender`); a POST with `Content-Length: 3`, `C: 7` and the body `abc` is waited
  for for ever (`HttpRender.MisledForEver`). A lookup finds the first header of the very name exactly when no
  abbreviation stands in front of it (`HttpNames.LookupExactly`).
- A request without headers is refused (`HttpRender.HeaderlessIsRefused`).
- A URL above a prefix of several segments is selected by it, and no other unrelated URL
  (`UrlPrefix.OneSegmentPrefix`, `UrlPrefix.AncestorIsSelected`).
- A well-formed request is routed exactly when no read ends inside its query string; otherwise the server hangs
  (`RequestRuns.WellFormedRequestIsRouted`).
- An upstream that hangs up while its socket is not ready for what it is polled for ends the connection, and
  nothing else that is reported does (`ProxyRuns.RefusedExactly`, `ProxyRuns.HangupDrops`).
- The read/write proxy leaves a connection with nothing polled exactly when the upstream ends, the client is
  not polled and takes some of the bytes held (`ProxyRuns.StuckExactly`); every request can end so
  (`ProxyRuns.StuckIsReachable`).
- A queued descriptor is closed twice exactly when its registration fails (`PollRuns.ClosedTwiceExactly`,
  `PollRuns.QueueClosesExactly`).
- An event of a batch reaches the record and the descriptor that its slot stood for when the batch was taken
  exactly when no earlier event of the batch registered the slot for something else last
  (`PollRuns.DeliveredExactly`); otherwise a new connection receives an event that was meant for a closed one
  (`PollRuns.ReusedSlotIsMisdelivered`).
- Closing a descriptor and releasing a record keep the registrations in order exactly when the kernel forgets
  what was registered (`PollFailures.CloseExactly`, `PollFailures.RemoveExactly`).
- The name of a file outgrows its buffer exactly for the index of a document folder of more than 290 characters
  (`RequestModel.FileNameFits`).
- An empty file, or one that has become shorter, is never reported as finished (`FileRuns.ServedExactly`).
- Over TLS a file that grew after it was opened is sent beyond the announced length, unless its size then was a
  multiple of the ring's, not zero: there the ring wraps and one write ends with the last byte announced
  (`FileRuns.OverrunExactly`).
- The TLS file executor counts no retry when TLS wants to write and nothing was read
  (`FileRuns.NoProgressExactly`, `FileRuns.IdleForever`), and while it sends headers it drops the connection
  if TLS asked to read and the socket is readable but not writable (`FileRuns.RefusedExactly`).
- Configuration keys cannot contain the digit 9 and blanks at the end of a value are kept
  (`ConfigGrammar.NineIsNoKey`, `ConfigReader.TrimBlanks`).

## Model

| member | source | states |
|---|---|---|
| HttpMachine.StepProgress | src/HttpRequest.cpp:522-718 | Every pass of the parser's loop returns, moves on in the bytes, or moves to a later state; the one pass that changes nothing happens exactly in the query string with no blank left |
| HttpMachine.RunIsTheLoop | src/HttpRequest.cpp:527-717 | Repeating the single step any number of times follows the run until it returns, so the run is the loop's meaning |
| HttpMachine.RunReturns | src/HttpRequest.cpp:527-717 | A run that is said to return does so after finitely many passes, with that result and that state |
| HttpChunks.RunExtend | src/HttpRequest.cpp:493-519 | A parse that stopped on some bytes continues on more bytes as if it had seen them all, except when it stopped at the end of the headers and one more line break follows |
| HttpChunks.InvalidStays | src/HttpRequest.cpp:522-718 | finishInvalid on a prefix is finishInvalid on every extension when the parser is called again |
| HttpChunks.FeedInvalid | src/HttpRequest.cpp:81-94 | The same for a whole sequence of calls |
| HttpChunks.FinishedStays | src/HttpRequest.cpp:712-713 | After finishOk a further call changes nothing and returns finishOk |
| HttpChunks.FeedHangsExactly | src/HttpRequest.cpp:581-594 | Over any sequence of calls with growing views, some call never returns if and only if one of the views ends inside the query string |
| HttpChunks.HangsExactlyInQuery | src/HttpRequest.cpp:581-594 | The first call never returns if and only if the bytes are method, blanks, URL, question mark and then no blank |
| HttpChunks.FeedAgrees | src/HttpRequest.cpp:81-94 | Without the two exceptions, feeding growing prefixes gives the result, offsets and headers of one parse of the last prefix |
| HttpChunks.ChunkIndependence | src/HttpRequest.cpp:506-510 | The incremental and the one-shot parse agree if and only if no chunk boundary splits the line breaks behind the headers |
| HttpSplits.ChunksMatter | src/HttpRequest.cpp:506-510 | For every message whose body starts with a line break, two chunks finish with that body and one chunk asks for more |
| HttpSplits.UnderstoodIsNotSplit | src/HttpRequest.cpp:506-510 | No two reads of a message that the parser understands and whose headers end with their second line feed split the line breaks behind its headers |
| HttpSplits.PartWaits | src/HttpRequest.cpp:522-718 | Of such a message the parser asks for more as long as some is missing, unless what is there ends inside the query string |
| HttpRender.ParseRender | src/HttpRequest.cpp:522-718 | For every message in any layout (blanks behind the method and the colon, line ends of either kind) whose Content-Length, read as a decimal number, is that of its body: the parse recovers method, URL, query, every header and the body if and only if the parser is not misled about the length, no length is too long and the body does not start with a line break |
| HttpRender.ParseEnds | src/HttpRequest.cpp:636-712 | The result of every valid message, finished, refused or waiting, from its headers and its body, and the offset where its content starts |
| HttpRender.DecimalBodyIsParsed | src/HttpRequest.cpp:649-665 | A message in which one header is taken for the length, is named so and holds the length of the body in decimal is parsed back with that body if and only if the number has at most 30 digits and the body does not start with a line break |
| HttpRender.NumberedBodyIsParsed | src/HttpRequest.cpp:649-665 | The same for the last header taken for the length, with leading zeros allowed, unless some length is too long |
| HttpRender.HeaderlessIsRefused | src/HttpRequest.cpp:401-413 | A request line followed by an empty line is refused, whatever comes behind it |
| HttpRender.EmptyValueStops | src/HttpRequest.cpp:452-468 | A header without a value is refused, wherever it stands |
| Decimals.AtoiReads | src/HttpRequest.cpp:662-662 | White space, one sign or none and digits are read as the positional value of the digits, up to the first other character |
| Decimals.DecimalIsRead | src/HttpRequest.cpp:662-662 | Every number is read back from its decimal form, also behind white space and zeros |
| Decimals.NumbersAreDecimals | src/HttpRequest.cpp:662-662 | Every text of digits is zeros and the decimal form of its value |
| Decimals.DecimalLength | src/HttpRequest.cpp:651-656 | The decimal form of a number has at most k characters if and only if the number is below the k-th power of ten |
| HttpRender.MisledForEver | src/HttpRequest.cpp:649-665 | A POST of three bytes with an abbreviated header that announces seven asks for more, and again on every further call |
| HttpNames.AnnouncedExactly | src/HttpRequest.cpp:649-665 | The parser's body length is that of section 3.3.2 of RFC 7230, a decimal number, if and only if the last header it takes for one is named so or announces the same |
| HttpNames.NumberAnnounced | src/HttpRequest.cpp:649-665 | A last header of the very name that holds a number announces that number |
| HttpNames.CaseDoesNotMatter | src/HttpRequest.cpp:649-649 | A name matches if and only if it agrees with the wanted one, as far as it goes, letter by letter in either case |
| HttpNames.LookupExactly | src/HttpRequest.cpp:183-191 | The header a lookup finds is the first of that very name if and only if no header in front of it abbreviates the name |
| HttpNames.AbbreviationIsFound | src/HttpRequest.cpp:183-191 | The header `I` in front answers a lookup of If-Modified-Since |
| HttpRecorded.RunRecorded | src/HttpRequest.cpp:390-519 | Recorded slices are in range, ordered and disjoint, keys of key symbols only, values non-empty and free of line breaks, in every state in which a run finishes or asks for more |
| HttpRecorded.RunRefused | src/HttpRequest.cpp:653-656 | A refused run leaves the same, with at most one more header, whose slices are in order too |
| HttpRecorded.FeedRefused | src/HttpRequest.cpp:81-94 | The same for the first refused call of a sequence |
| HttpRecorded.FeedRecorded | src/HttpRequest.cpp:81-94 | The same after any sequence of calls with growing prefixes that was not refused |
| UrlCodec.HexValueIsHex | src/HttpRequest.cpp:721-733 | The digit converter accepts exactly the hexadecimal digits of both cases and gives their value |
| UrlCodec.DecodeInvertsEncoding | src/HttpRequest.cpp:736-771 | With complete triplets the decoder returns a text exactly when the input is one of its percent-encodings (section 2.1 of RFC 3986) |
| UrlCodec.DecodeTail | src/HttpRequest.cpp:736-771 | Behind complete triplets a cut-off one stands for itself, and a NUL hides the rest |
| UrlCodec.DecodeEncode | src/HttpRequest.cpp:736-771 | Decoding the canonical encoding of any byte string gives the bytes back |
| UrlPrefix.OneSegmentPrefix | src/HttpRequest.cpp:224-263 | A one-segment prefix selects exactly the URLs at or below it; any other selection is of an ancestor of the prefix |
| UrlPrefix.RootSelects | src/HttpRequest.cpp:238-247 | A prefix of slashes only selects exactly the URLs that start with one, and the empty URL |
| UrlPrefix.AncestorIsSelected | src/HttpRequest.cpp:251-254 | Whatever slashes either starts with: a URL that is selected without lying below the prefix is one that the prefix goes on from behind an inner slash, and each of those is selected |
| UrlPrefix.SelectsAt | src/HttpRequest.cpp:229-263 | The two-index comparison decides the declarative selection from the place where the strings differ |
| HttpRequestObject.PercentDecode | src/HttpRequest.cpp:736-771 | The loop writes the decoding and a NUL into the buffer, in at most one byte more than the input, and fails exactly on a bad triplet |
| HttpRequestObject.CheckUrl | src/HttpRequest.cpp:156-173 | Accepts exactly the decoded URLs made of allowed symbols without two adjacent dots, up to the first NUL |
| HttpRequestObject.SelectsBuffer | src/HttpRequest.cpp:224-263 | The two-index walk over the prefix and the URL buffer decides selection |
| HttpRequestObject.HttpRequest.Reset | src/HttpRequest.h:65-88 | All parser fields return to their initial values; only the URL buffer stays |
| HttpRequestObject.HttpRequest.ReadMethod | src/HttpRequest.cpp:293-314 | The scanner loop finds the longest run of method symbols and classifies the byte behind it |
| HttpRequestObject.HttpRequest.ReadUrl | src/HttpRequest.cpp:339-365 | The same for URL symbols, with the question mark as its own answer |
| HttpRequestObject.HttpRequest.ReadToNextLine | src/HttpRequest.cpp:390-422 | Skips to the end of the line, counts line feeds, and recognises the end of the headers |
| HttpRequestObject.HttpRequest.ReadHeaderLineBreak | src/HttpRequest.cpp:493-519 | Skips line breaks and says whether the headers ended |
| HttpRequestObject.HttpRequest.Pass | src/HttpRequest.cpp:527-717 | One pass of the switch makes the fields equal to one step of the machine |
| HttpRequestObject.HttpRequest.ParseInternal | src/HttpRequest.cpp:522-718 | The loop ends in the state and with the result of the run, or is found to repeat itself exactly when the run does not return |
| HttpRequestObject.HttpRequest.DecodeUrl | src/HttpRequest.cpp:124-153 | A buffer of at least the URL's length plus one receives the decoding; it fails exactly before finishOk, for an empty URL and for a bad triplet |
| HttpRequestObject.HttpRequest.PostParse | src/HttpRequest.cpp:97-110 | A request stays finished exactly if it was and its URL decodes and is allowed; otherwise the state becomes invalid |
| HttpRequestObject.HttpRequest.Parse | src/HttpRequest.cpp:81-94 | A call with everything received so far continues the run of the stored state, for every result and with every field |
| HttpRequestObject.HttpRequest.GetUrl | src/HttpRequest.cpp:113-121 | The accepted URL after finishOk, nothing before |
| HttpRequestObject.HttpRequest.IsUrlPrefix | src/HttpRequest.cpp:224-263 | Selection of the accepted URL by a prefix; never before finishOk |
| HttpRequestObject.HttpRequest.GetHeaderValue | src/HttpRequest.cpp:176-194 | The value of the first header whose name is a case-insensitive prefix of the key, and nothing exactly if there is none; that is the header of the very name if and only if no abbreviation stands in front of it |
| RingBuffer.RoomIsFree | src/utils/TransferRingBuffer.h:49-75 | startWrite refuses only a buffer that holds at least its size less one, and whatever is stored into what it offers changes no unread byte |
| RingBuffer.ExposedIsPrefix | src/utils/TransferRingBuffer.h:82-100 | startRead offers a prefix of the unread bytes, non-empty exactly if there are any |
| RingBuffer.WrittenAppends | src/utils/TransferRingBuffer.h:49-80 | A write of no more than was offered appends to the queue, across the wrap as well |
| RingBuffer.ConsumedDrops | src/utils/TransferRingBuffer.h:102-113 | endRead drops a prefix of the queue, across the wrap as well |
| RingBuffer.FirstInFirstOut | src/utils/TransferRingBuffer.h:27-113 | Over any legal interleaving, bytes out followed by bytes held are bytes held at first followed by bytes in |
| RingBuffer.TransferRingBuffer.Init | src/utils/TransferRingBuffer.h:27-41 | An empty queue of the new size; the memory is replaced only if the size changes |
| RingBuffer.TransferRingBuffer.StartWrite | src/utils/TransferRingBuffer.h:49-75 | Moves only the write head, keeps the contents, and reports the free room exactly |
| RingBuffer.TransferRingBuffer.EndWrite | src/utils/TransferRingBuffer.h:77-80 | Appends what was stored behind the write head |
| RingBuffer.TransferRingBuffer.StartRead | src/utils/TransferRingBuffer.h:82-100 | Returns the exposed prefix without changing anything |
| RingBuffer.TransferRingBuffer.EndRead | src/utils/TransferRingBuffer.h:102-113 | Drops that many bytes from the front |
| RequestModel.FirstMatchIsFirst | src/executors/RequestExecutor.cpp:116-130 | An index is the chosen proxy if and only if its prefix selects the URL and no earlier one does |
| RequestModel.FileNameFits | src/executors/RequestExecutor.cpp:170-188 | The file name fits the buffer, except exactly for the index of a folder of more than 290 characters |
| RequestModel.FilesStayInRoot | src/executors/RequestExecutor.cpp:161-191 | The file name of a request starts with the document folder and has no two adjacent dots behind it; which file it is, Destinations says |
| Destinations.WantedExactly | src/executors/RequestExecutor.cpp:133-212 | The destination of a message is determined by the text its URL is an encoding of: the first proxy that selects it if that takes the kind of connection, or else the folder followed by this text if it fits, the index for "/", and otherwise nothing |
| Destinations.SameFileExactly | src/executors/RequestExecutor.cpp:170-188 | Two paths are served the same file if and only if they are equal, or one is "/" and the other names the index |
| Destinations.SymbolTables | src/HttpRequest.cpp:30-62 | The characters that may stand in a URL are those that are allowed after decoding without the blank, and two that are refused later; a method is made of upper-case letters |
| Destinations.RequestGoesTo | src/executors/RequestExecutor.cpp:215-238 | Over whole runs: a well-formed request, in any pieces of which none ends in the query string, goes where the text of its URL says, with all its bytes |
| Destinations.FileRequest | src/executors/RequestExecutor.cpp:161-191 | Over whole runs: an allowed path that no proxy selects is handed over to the file of that name behind the folder if and only if the name has at most 300 characters, and "/" to the index |
| Destinations.EveryPathIsServed | src/executors/RequestExecutor.cpp:161-191 | Every allowed path can be asked for: percent-encoded it is routed as its text says |
| Destinations.DecimalIsUnderstood | src/HttpRequest.cpp:649-665 | A message that fits the buffer, says its length in decimal and starts its body with no line break is understood |
| Destinations.PostIsRouted | src/executors/RequestExecutor.cpp:215-238 | Over whole runs: a POST that says its length in decimal is routed with its body |
| RequestRuns.CallKeepsInv | src/executors/RequestExecutor.cpp:50-98 | After any call the ring starts with everything received and has not wrapped, and the parser's state is that of the successive views; a connection handed over carries all bytes and their finished parse |
| HttpMachine.NeedMoreIsStable | src/executors/RequestExecutor.cpp:133-140 | Parsing the same bytes again after needMoreData changes nothing |
| RequestRuns.RunKeepsInv | src/executors/RequestExecutor.cpp:215-238 | Over any run, what is handed over is exactly what the socket delivered, and the destination is that of its URL |
| RequestRuns.DecisionFromBytes | src/executors/RequestExecutor.cpp:133-212 | Without the two parser exceptions and with a socket that does not fail: a run never hangs; it waits if and only if a one-shot parse of all bytes asks for more and the buffer was not full when last read; it is handed over if and only if that parse finishes and leads somewhere, and there; it is given up in exactly the other cases |
| RequestRuns.WellFormedRequestIsRouted | src/executors/RequestExecutor.cpp:133-212 | A well-formed request that fits the buffer, in whatever pieces it arrives and however often the socket has nothing in between: it is handed over to the destination of its URL with all its bytes, or dropped if it has none, if and only if no read ends inside the query string; and exactly if one does, a parse call never returns |
| RequestRuns.LiveHangsExactly | src/executors/RequestExecutor.cpp:133-140 | For any bytes and a socket that does not fail: some call never returns if and only if some read ends inside the query string |
| RequestRuns.OnePieceIsRouted | src/executors/RequestExecutor.cpp:50-98 | A well-formed request that fits the buffer and arrives in one piece is routed |
| RequestRuns.WhyRemoved | src/executors/RequestExecutor.cpp:50-98 | With a socket that does not fail, a connection is given up only if its request is refused or leads nowhere, or fills the buffer unfinished |
| RequestRuns.ReadingIsBounded | src/executors/RequestExecutor.cpp:88-95 | A connection survives a bounded number of calls in this stage, whatever the socket answers |
| RequestExecutorObject.RequestExecutor.Up | src/executors/RequestExecutor.cpp:18-35 | A removable record of the executor's kind of connection with an empty ring of the fixed size and a parser in its initial state, and the client registered for reading, or failure |
| RequestExecutorObject.RequestExecutor.ReadRequest | src/executors/RequestExecutor.cpp:50-98 | Refines the model's read in place, for every answer |
| RequestExecutorObject.RequestExecutor.FindProxy | src/executors/RequestExecutor.cpp:116-130 | The loop returns the first selecting proxy |
| RequestExecutorObject.RequestExecutor.ParseRequest | src/executors/RequestExecutor.cpp:133-212 | Refines the model's decision, for every outcome of the parser |
| RequestExecutorObject.RequestExecutor.Process | src/executors/RequestExecutor.cpp:38-47 | Refines the model's call for a readable client while a request is read and drops the connection for any other event or state |
| RequestExecutorObject.RequestExecutor.Serve | src/executors/RequestExecutor.cpp:215-238 | A call in a reachable state leaves the record in order, or hands it over with everything received, or gives it up for a stated reason |
| ProxyRuns.RefusedExactly | src/executors/ProxyExecutorSplice.cpp:76-98 | In every reachable state an event reaches the step written for it, except exactly a hang-up of the upstream that is not ready for what it is polled for |
| ProxyRuns.HangupDrops | src/PollLoop.cpp:241-243 | Such a hang-up drops the connection in every state in which the upstream is polled |
| ProxyRuns.CallKeepsInv | src/executors/ProxyExecutorSplice.cpp:101-323 | Every surviving call keeps conservation of bytes, the pipe counter and back-pressure; a finished connection has passed on the whole request and the whole response |
| ProxyRuns.RequestForwarded | src/executors/ProxyExecutorSplice.cpp:123-166 | The request is forwarded in order, and the clear at its end drops no byte |
| ProxyRuns.SpliceNeverStuck | src/executors/ProxyExecutorSplice.cpp:242-304 | With bytes in the pipe the client is polled, without any the upstream is |
| ProxyRuns.StuckExactly | src/executors/ProxyExecutorReadWrite.cpp:241-259 | The read/write executor leaves nothing polled if and only if the upstream ended, the client was not polled and took only some of the held bytes |
| ProxyRuns.StuckIsReachable | src/executors/ProxyExecutorReadWrite.cpp:241-259 | For every request that is handed over, a run of exactly three calls reaches that state, with two of three response bytes delivered |
| ProxyRuns.CallMakesProgress | src/executors/ProxyExecutorReadWrite.cpp:98-302 | Every surviving call moves a byte or the phase forward or counts a retry |
| ProxyRuns.RunsConserveBytes | src/executors/ProxyExecutorReadWrite.cpp:147-280 | Over any run of either executor the client's bytes and those in transit are what came from upstream, and removal as finished means all of it was delivered |
| ProxyRuns.RunsAreBounded | src/PollLoop.cpp:126-134 | A proxied connection survives a bounded number of calls |
| ProxyOutcomes.CallEndsExactly | src/executors/ProxyExecutorSplice.cpp:101-323 | For either executor in every reachable state: a call drops the connection if and only if one of the answers it uses is a failure, finishes it if and only if the response has ended and all of it is delivered, and counts a retry exactly if no byte crossed a socket |
| ProxyOutcomes.SplicePollsExactly | src/executors/ProxyExecutorSplice.cpp:176-323 | Behind each call the client is polled exactly while bytes wait in the pipe, and the upstream as the last read and the pipe say |
| ProxyOutcomes.RingPollsExactly | src/executors/ProxyExecutorReadWrite.cpp:147-280 | Behind each call: what was delivered wakes the upstream, a full ring puts it to sleep, and the client is polled when it would block and no longer when nothing is left |
| ProxyOutcomes.CanFinish | src/executors/ProxyExecutorReadWrite.cpp:98-280 | From every state in which the request is still going out there is a run that passes on all of it and all of any response |
| ProxyOutcomes.EveryExchangeCanFinish | src/executors/ProxyExecutorSplice.cpp:20-73 | For either executor, every request and every response of any length: the set-up succeeds if and only if the two registrations are granted, and then some run delivers both whole |
| ProxyExecutors.ExecutorData.AddPollFd | src/PollLoop.cpp:210-265 | As seen by an executor, a registration succeeds only for an unregistered descriptor and records the interest, as the view that is compared with the loop's books does |
| ProxyExecutors.ExecutorData.CloseFd1 | src/PollLoop.cpp:526-551 | Closing drops the registration if the kernel does, and goes on if it does not |
| ProxyExecutors.Up | src/executors/ProxyExecutorSplice.cpp:20-73 | Refines the model's set-up: upstream registered for writing, client unregistered |
| ProxyExecutors.ProcessForwardRequest | src/executors/ProxyExecutorSplice.cpp:123-173 | Refines the model's step in place, for every answer |
| ProxyExecutors.ProcessWaitConnect | src/executors/ProxyExecutorSplice.cpp:101-120 | The same for a pending connection |
| ProxyExecutors.ProxyExecutorSplice.ProcessForwardResponseRead | src/executors/ProxyExecutorSplice.cpp:176-218 | The same for reading into the pipe |
| ProxyExecutors.ProxyExecutorSplice.ProcessForwardResponseWrite | src/executors/ProxyExecutorSplice.cpp:221-323 | The same for emptying the pipe |
| ProxyExecutors.ProxyExecutorSplice.Process | src/executors/ProxyExecutorSplice.cpp:76-98 | The same for the dispatch on state, descriptor and event |
| ProxyExecutors.ProxyExecutorSplice.Serve | src/executors/ProxyExecutorSplice.cpp:76-98 | A call in a reachable state leaves the record in its invariant and never without a polled descriptor, or everything has been passed on |
| ProxyExecutors.ProxyExecutorReadWrite.ProcessForwardResponseRead | src/executors/ProxyExecutorReadWrite.cpp:147-205 | The same for reading into the ring |
| ProxyExecutors.ProxyExecutorReadWrite.ProcessForwardResponseWrite | src/executors/ProxyExecutorReadWrite.cpp:208-280 | The same for emptying the ring |
| ProxyExecutors.ProxyExecutorReadWrite.Process | src/executors/ProxyExecutorReadWrite.cpp:73-95 | The same for the dispatch on state, descriptor and event |
| ProxyExecutors.ProxyExecutorReadWrite.Serve | src/executors/ProxyExecutorReadWrite.cpp:73-95 | A call in a reachable state leaves the record in its invariant, without a polled descriptor exactly in the one case, or everything has been passed on |
| FileRuns.UpInv | src/executors/FileExecutor.cpp:23-87 | Set-up leaves the response in the ring, nothing of the request, and the announced size |
| FileRuns.RefusedExactly | src/executors/SslFileExecutor.cpp:9-19 | A registered event is refused exactly when a TLS header write asked to read and the socket is readable but not writable |
| FileRuns.StartReadNeverFails | src/executors/SslFileExecutor.cpp:87-94 | The branch that reports a failed startRead is never taken |
| FileRuns.CallKeepsInv | src/executors/FileExecutor.cpp:174-252 | Sent bytes and bytes to send add up to the size, the client has header and file prefix, the TLS ring holds the read but unsent bytes; removal as finished means the announced bytes were sent |
| FileRuns.NoProgressExactly | src/executors/SslFileExecutor.cpp:69-72 | A surviving call makes progress or counts a retry if and only if TLS did not want to write with nothing read; that call changes nothing |
| FileRuns.RunsSendWholeFile | src/executors/FileExecutor.cpp:174-252 | Over any run the client has a prefix of header and file, and removal as finished means header and announced bytes |
| FileRuns.RunsSendHeader | src/executors/FileExecutor.cpp:174-221 | The same for an answer without a body: a proper prefix of the header while the connection lives, all of it if it is removed as finished |
| FileRuns.RunsAreBounded | src/PollLoop.cpp:126-134 | A bounded number of calls that are not idle; over a clear connection of all calls |
| FileRuns.IdleForever | src/executors/SslFileExecutor.cpp:69-72 | A TLS connection survives any number of calls in which TLS wants to write |
| FileRuns.ServedExactly | src/executors/FileExecutor.cpp:224-252 | Some run finishes a file if and only if it was not empty when opened and has not become shorter |
| FileRuns.OverrunExactly | src/executors/SslFileExecutor.cpp:58-106 | Some run sends the client more than its header announced if and only if the connection is TLS, the file has grown since it was opened, and its size then was zero or no multiple of the ring's |
| FileOutcomes.CallEndsExactly | src/executors/SslFileExecutor.cpp:22-106 | For either executor in every reachable state: a call drops the connection if and only if one of the answers it uses is a failure, finishes it if and only if the last announced byte went out, and clears or counts the retries |
| FileOutcomes.AnsweredExactly | src/executors/FileExecutor.cpp:23-87 | The set-up fails if and only if the file could not be opened for another reason than that it is missing, its data could not be read, the text does not fit or the registration was refused; otherwise some run delivers the whole response, and for a modified file response and file if and only if it was not empty and has not shrunk |
| FileExecutors.CreateResponse | src/executors/FileExecutor.cpp:107-171 | The formatted response replaces the ring's contents, or fails if it does not fit with its NUL |
| FileExecutors.Up | src/executors/FileExecutor.cpp:23-87 | Refines the model's set-up for a missing, unmodified or readable file |
| FileExecutors.ProcessSendHeaders | src/executors/FileExecutor.cpp:174-221 | Refines the model's step in place, for every answer |
| FileExecutors.WriteFd0 | src/utils/SslUtils.cpp:10-44 | What an executor sees of a write, and the registration that a TLS write may change |
| FileExecutors.FileExecutor.ProcessSendFile | src/executors/FileExecutor.cpp:224-252 | Refines the model's step in place |
| FileExecutors.FileExecutor.Process | src/executors/FileExecutor.cpp:90-104 | Refines the dispatch on state and event |
| FileExecutors.FileExecutor.Serve | src/executors/FileExecutor.cpp:90-104 | A call in a reachable state leaves the record in its invariant, or everything announced has been sent |
| FileExecutors.SslFileExecutor.Serve | src/executors/SslFileExecutor.cpp:9-19 | The same over TLS |
| FileExecutors.SslFileExecutor.ProcessSendFile | src/executors/SslFileExecutor.cpp:22-106 | Refines the model's step through the ring |
| FileExecutors.SslFileExecutor.Process | src/executors/SslFileExecutor.cpp:9-19 | Refines the dispatch of the TLS variant |
| Connections.ProxiedConnection | src/executors/RequestExecutor.cpp:228-231 | From accept to removal: upstream gets a prefix of the client's bytes, the client a prefix of upstream's, all of both if finished, within a bounded number of calls; over TLS as far as SSL_read and SSL_write answer as read and write do |
| Connections.FileConnection | src/executors/RequestExecutor.cpp:224-227 | From accept to removal, whatever is found when the file is opened: the client gets the header, and the file behind it if one is to be sent, nothing left over from the request, all of it if finished, and in clear within a bounded number of calls |
| BlockStorage.BlockStorage.Partition | src/utils/BlockStorage.h:154-161 | The used and the free list are duplicate-free, disjoint and together hold every item |
| BlockStorage.BlockStorage.NextInUse | src/utils/BlockStorage.h:67-75 | head and next follow the used list |
| BlockStorage.BlockStorage.AllocateBlock | src/utils/BlockStorage.h:101-117 | A new block of items, linked in order, becomes the free list |
| BlockStorage.BlockStorage.AddToUsedList | src/utils/BlockStorage.h:119-129 | The link updates put the item in front of the used list |
| BlockStorage.BlockStorage.RemoveFromUsedList | src/utils/BlockStorage.h:131-147 | The link updates take exactly this item out, wherever it stands |
| BlockStorage.BlockStorage.Allocate | src/utils/BlockStorage.h:42-56 | Hands out the newest free item, or one of a new block, that is not in use, and makes it the newest used one |
| BlockStorage.BlockStorage.Free | src/utils/BlockStorage.h:58-64 | The item leaves the used list, whose order stays, and is the next to be handed out |
| BlockStorage.BlockStorage.Walk | src/utils/BlockStorage.h:67-75 | Iteration visits exactly the live items, newest first |
| BlockStorage.BlockStorage.GetStorageInfo | src/utils/BlockStorage.h:83-98 | Counts the live items, which with the free ones fill the blocks |
| PollBooks.CreateOk | src/PollLoop.cpp:466-482 | A new record keeps the registration bijection |
| PollBooks.AddOk | src/PollLoop.cpp:210-265 | Registering keeps the bijection and the counter, whether or not the kernel accepts |
| PollBooks.RemovePollOk | src/PollLoop.cpp:298-337 | Unregistering keeps them |
| PollBooks.CloseOk | src/PollLoop.cpp:526-551 | Closing a descriptor keeps them |
| PollBooks.CloseEffects | src/PollLoop.cpp:526-551 | The descriptor is closed once, its record has neither it nor a slot for it any more, the kernel no longer reports it, and other records stay as they were |
| PollBooks.RemoveExecutorOk | src/PollLoop.cpp:485-501 | Releasing a record takes down exactly its own registrations, closes its descriptors, and leaves every other record and slot alone |
| PollFailures.CloseExactly | src/PollLoop.cpp:526-551 | For any answer of the kernel: closing keeps the books if and only if the descriptor was not registered or is forgotten |
| PollFailures.RemoveExactly | src/PollLoop.cpp:485-501 | For any answers of the kernel: releasing a record keeps the books if and only if each registered descriptor is forgotten |
| ConnectionRecord.DownIsFreshExactly | src/ExecutorData.cpp:11-66 | A released record is as good as new, but for its port, if and only if no descriptor field was zero or garbage |
| ConnectionRecord.DownTwice | src/ExecutorData.h:29-32 | Releasing twice changes nothing more and closes nothing twice |
| ConnectionRecord.BooksSeeTheRelease | src/ExecutorData.cpp:11-66 | The release that the loop's books know is the loop's part of the whole one |
| ConnectionRecord.ExecutorData.Down | src/ExecutorData.cpp:11-66 | Closes exactly the open descriptors, in order, and resets every field but the port |
| PollBooks.DownIsFresh | src/ExecutorData.cpp:11-66 | In the loop's books a released record is as good as new |
| Registrations.PolledIsReported | src/PollLoop.cpp:210-265 | What an executor takes for polled is exactly what the kernel reports to a slot that leads back to this record and descriptor |
| Registrations.AddAgrees | src/PollLoop.cpp:210-265 | Registering succeeds in the executor's view exactly when it does in the loop's, and the two stay in agreement |
| Registrations.RemoveAgrees | src/PollLoop.cpp:298-337 | The same for unregistering |
| Registrations.CloseAgrees | src/PollLoop.cpp:526-551 | The same for closing the upstream's descriptor |
| Registrations.EditAgrees | src/PollLoop.cpp:267-295 | The same for changing what a registered descriptor is polled for |
| Registrations.OthersLeave | src/PollLoop.cpp:88-138 | Nothing the loop does for another record changes this one |
| Registrations.TurnsAgree | src/PollLoop.cpp:88-138 | Over any sequence of requests of this record's executor, operations of others and releases of others, the executor's view and the loop's books stay in agreement |
| Registrations.AgreesFromStart | src/PollLoop.cpp:504-523 | A record that was just accepted is in agreement, polled for reading, and so is what any such sequence makes of it |
| PollBooks.CreateRequestOk | src/PollLoop.cpp:504-523 | Accepting a descriptor registers it, or leaves no trace but its closing |
| PollRuns.SweepExactly | src/PollLoop.cpp:358-382 | The sweep removes exactly the expired removable records with their registrations and keeps the order of the rest |
| PollRuns.ClosedTwiceExactly | src/PollLoop.cpp:183-194 | A queued descriptor is closed twice if its registration fails, and otherwise not at all |
| PollRuns.QueueClosesExactly | src/PollLoop.cpp:183-194 | Emptying the queue keeps the books and closes, twice, exactly the descriptors whose set-up fails |
| PollRuns.DoAllOk | src/PollLoop.cpp:88-138 | Whatever a handler asks of the loop, the bijection holds afterwards |
| PollRuns.BatchIsSafe | src/PollLoop.cpp:88-138 | No event of a batch reaches a record that is not in use, the books stay in order, and every slot stands for what was last registered for it |
| PollRuns.DeliveredExactly | src/PollLoop.cpp:88-138 | For each event of a batch: it is dispatched if and only if its slot is still in use by a live record, and then reaches the record and descriptor the slot stood for when the batch was taken if and only if no earlier event of the batch registered the slot for something else last |
| PollRuns.ReusedSlotIsMisdelivered | src/utils/BlockStorage.h:58-64 | A batch of three events in which a new connection is given the event of a closed connection's descriptor, because it got its slot |
| PollActivity.OneEvent | src/PollLoop.cpp:106-136 | What an event does to every record in use: the one it is given to ends exactly on a hang-up of its client, a final result or too many retries, and otherwise gets the time of the batch and the executor's counter; all others stay as they were |
| PollActivity.BatchTimes | src/PollLoop.cpp:88-138 | Over a batch, a record that no event ends has the time of the batch and the counter of the last event it served, or its old ones if it served none |
| PollActivity.LastServedIs | src/PollLoop.cpp:88-138 | That last event is the last of those given to the record and processed |
| PollActivity.BatchThenSweep | src/PollLoop.cpp:358-382 | A record that times out survives a sweep behind a batch if and only if it was active within the timeout, by that batch or before, and is at most thirty minutes old |
| PollActivity.AcceptedTimes | src/PollLoop.cpp:466-482 | An accepted descriptor gets a record that was created and active at that time and times out |
| PollActivity.IdleIsBounded | src/PollLoop.cpp:140-147 | Behind every round of the loop no connection that times out has been idle for twice the timeout or is older than thirty minutes and the timeout |
| PollLoop.Loop.CreateExecutorData | src/PollLoop.cpp:466-482 | Over the real storages, refines the operation on the books |
| PollLoop.Loop.AddPollFd | src/PollLoop.cpp:210-265 | The same |
| PollLoop.Loop.EditPollFd | src/PollLoop.cpp:267-295 | The same; no slot changes |
| PollLoop.Loop.RemovePollFd | src/PollLoop.cpp:298-337 | The same |
| PollLoop.Loop.CloseFd | src/PollLoop.cpp:526-551 | The same |
| PollLoop.Loop.RemoveExecutorData | src/PollLoop.cpp:485-501 | The same |
| PollLoop.Loop.CreateRequestExecutor | src/PollLoop.cpp:504-523 | The same |
| PollLoop.Loop.AcceptQueued | src/PollLoop.cpp:188-191 | The same for one queued descriptor, with the descriptors closed stated outright |
| PollLoop.Loop.CheckNewFd | src/PollLoop.cpp:183-194 | The loop over the queue, with the descriptors closed stated outright |
| PollLoop.Loop.CollectExpired | src/PollLoop.cpp:360-374 | The walk over the live records collects the expired removable ones in order and changes nothing |
| PollLoop.Loop.CheckTimeout | src/PollLoop.cpp:358-382 | The sweep over the real storages |
| PollLoop.Loop.DispatchEvent | src/PollLoop.cpp:90-137 | One event: ignored, removed on hang-up, or processed and concluded; the record and descriptor it was given to are those of the model |
| PollLoop.Loop.RunBatch | src/PollLoop.cpp:88-138 | The dispatch loop refines the batch on the books, and what it dispatched to whom is the model's log, so its safety applies |
| PollLoop.Loop.RunRound | src/PollLoop.cpp:65-148 | A batch, and the sweep if it is due, refine the round on the books |
| ConfigReader.ParseSplits | src/utils/ConfigReader.cpp:29-113 | A line break of either kind is where a parse can be cut in two, whatever stands on either side |
| ConfigGrammar.NineIsNoKey | src/utils/ConfigReader.cpp:20-23 | Keys are made of letters, dots and all digits but the nine |
| ConfigGrammar.LineIsRead | src/utils/ConfigReader.cpp:29-113 | A blank line, a comment or a parameter in any layout is read as what it means |
| ConfigGrammar.LineExactly | src/utils/ConfigReader.cpp:29-113 | A line is read if and only if it is one of these, and one that is refused adds nothing |
| ConfigGrammar.TextExactly | src/utils/ConfigReader.cpp:29-113 | A text is read without error if and only if each of its lines is one of these |
| ConfigGrammar.DocumentIsRead | src/utils/ConfigReader.cpp:29-113 | A document of such lines is read as its parameters in order, a later one overriding an earlier one |
| ConfigReader.RoundTrip | src/utils/ConfigReader.cpp:139-149 | Reading what was printed gives the map back if and only if keys are non-empty words in the key alphabet and values non-empty lines that start with no blank |
| ConfigReader.ReadIsFixpoint | src/utils/ConfigReader.cpp:29-113 | Any map that was read is a fixpoint of printing and reading |
| ConfigReader.LineByLine | src/utils/ConfigReader.cpp:127-133 | Line-by-line reading gives what reading the whole text gives; a NUL hides only the rest of its line |
| ConfigReader.TrimBlanks | src/utils/ConfigReader.cpp:94-94 | The trimming loop steps back only over blanks that start at the character behind the value |
| ConfigReader.ReadEntry | src/utils/ConfigReader.cpp:47-105 | The loops of the key branch find the key and the value, or refuse |
| ConfigReader.ConfigReadString | src/utils/ConfigReader.cpp:29-113 | The loop over a C string computes the parse of the text up to its NUL |
| ConfigReader.ConfigReadFile | src/utils/ConfigReader.cpp:116-136 | The loop over the lines, with the two ways to fail |
| ConfigReader.ConfigToString | src/utils/ConfigReader.cpp:139-149 | One line per parameter in the map's order |

## Left out

- epoll, sockets, eventfd, splice, sendfile, pipe2, open and fstat: only their answers, which are parameters.
- OpenSSL: handshake, contexts, locks and the rule that a repeated SSL_write must offer the same bytes.
- Threads, the queue of accepted descriptors and the choice of a loop: a queued descriptor is a parameter.
- Listening sockets, the event descriptor, loop start-up and shut-down.
- Logging, HTTP response formatting and the parsing of dates: the response text and whether the file is
  unmodified are parameters. Server parameters are parameters.
- SslRequestExecutor: its reading and its decision are those of the clear executor with another channel; the
  handshake is not modelled. SslProxyExecutor: the read/write executor with another write.
- A call to sendfile or read that leaves errno as an earlier call set it is covered by letting the answer be
  "would block" or "failed" freely.
- Bytes are modelled as Dafny characters. `atoi` is modelled for values that fit an `int`; the parser limits
  the number of digits.
- HttpRequestObject.HttpRequest.ParseInternal: a pass that changes nothing would be repeated for ever; the
  method detects it and returns instead, since a method here must end.
- HttpRender.ParseRender: the message has at least one header and no header without a value; what is refused otherwise
  is the subject of `HttpRender.HeaderlessIsRefused` and `HttpRender.EmptyValueStops`.
- HttpNames.AnnouncedExactly: a length that is not one or more digits is an error in the standard; there the parser's
  reading is taken.
- RequestRuns.WellFormedRequestIsRouted: for messages whose headers end behind their second line feed, as with CR LF
  CR LF; for all others `RequestRuns.DecisionFromBytes` says what each run decides.
- HttpSplits.UnderstoodIsNotSplit: for headers that end behind their second line feed, as with CR LF CR LF; where more
  line breaks follow, `HttpChunks.ChunkIndependence` says when a split matters.
- ProxyRuns.CallKeepsInv: assumes that splice moves something out of a pipe that is not empty, that epoll
  forgets a registered descriptor when told to, and that counts stay within what was asked for.
- PollBooks.CloseOk: assumes that the kernel forgets a registered descriptor when told to; PollFailures says
  exactly what happens otherwise.
- PollBooks.RemoveExecutorOk: the same assumption.
- PollLoop.Loop.CloseFd: the same assumption.
- PollLoop.Loop.RemoveExecutorData: the same assumption. Descriptor 0 is never a connection's.
- PollLoop.Loop.EditPollFd: the event mask that epoll_ctl changes is not kept in the loop's books; it is the
  interest of the executors' views.
- Registrations.CloseAgrees: assumes that the kernel forgets a registered descriptor when told to.
- Connections.ProxiedConnection: SSL_read and SSL_write are not modelled for a proxied connection; for a TLS
  channel the lemma speaks of answers like those of read and write.
- PollBooks.DownIsFresh: the loop's part of the record; the whole record is the subject of ConnectionRecord.
- ProxyExecutors.ExecutorData.AddPollFd: the executors see a registration as one interest per descriptor;
  Registrations relates it to the slots, the counter and the kernel's table.
- ProxyExecutors.ExecutorData.CloseFd1: the one descriptor that an executor closes through the loop.
- The record is one object in the program and one class per stage here, with the fields of that stage;
  ConnectionRecord has all fields, and Connections passes buffer, counter and request from stage to stage.
- FileRuns.CallKeepsInv: the bytes of the file are assumed not to change while it is sent; its length may
  differ from the size when it was opened.
- ConfigReader.ConfigToString: the map is given with a listing of its keys; the order of std::map is one such
  listing, and the round trip holds for all.
