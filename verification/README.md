# IoT.js: HTTP, streams and BLE attributes, modelled in Dafny

A model of the parts of IoT.js in which many small steps have to add up: the incremental HTTP parser with
the wrapper and the JavaScript handlers above it and the client's printer opposite it, the two stream
queues, and the BLE attribute server with the reassembly of ACL packets below it.

`dafny verify dfyconfig.toml` checks the whole project.

## How it is put together

**The HTTP parser.** `Bytes` and `HttpTypes` hold the byte classes and the registers of an `http_parser`.
`HttpSwitch.Switch` is one evaluation of the big switch of `http_parser_execute`: a pure function from the
registers and a byte to the new registers, an effect on the data callbacks, and whether the byte is spent,
looked at again, or returned to the caller. `HttpRun.Run` iterates it, one byte at a time, and keeps the log
of the callbacks; it knows no buffers, marks or pauses. `HttpParser.Parser` is the real thing: a class with
the C fields whose methods loop over a buffer, keep marks, count header bytes, jump with memchr, take body
bytes in one go, call back, and stop when a callback fails or pauses. `Parser.Execute` is proved to refine
`Run`, so that everything proved about `Run` holds of it: `HttpInvariant` and `HttpSafety` (no failing assert,
no matcher out of bounds, nothing after a closing message), `HttpGrammar` (one grammar for all callback
traces) and `HttpSessions` (cuts and pauses make no difference).

**Messages.** What the parser makes of text, in all the ways it may be written: `HttpMethods`, `HttpStart` (request
and status lines), `HttpHeaders` and `HttpLines` (header lines and lists of them), `HttpOptions` and `HttpLengths`
(what their values say), `HttpFraming` (which body follows a head, and in which state the next message finds the
parser), `HttpChunked` (chunked bodies with extensions and trailers), and `HttpMessages`, which puts them together:
any request or response is reported exactly as it is written, with exactly the body its head announces.
`HttpErrors` says which bytes are refused where, and `HttpRequests` that what the client prints is read back.

**Above and opposite.** `HeaderDigest` says what the callbacks mean, without slots; `HeaderBatch.Wrapper` is
the wrapper with its ten slots together with the handlers of `http_common.js`, proved against it.
`HttpOutgoing` is the printer; `HttpCounting` is what the header-size counter makes of printed bytes in pieces;
`HttpExchange` goes all the way round, and `HttpDelivery` takes any message from its bytes to the handlers.

**URLs.** `UrlParser` has the two loops over an `http_parser_url`; `UrlLayout` says position by position what
a URL is, and proves that exactly those are accepted, and when their fields survive being kept in 16 bits;
`UrlTargets` that the targets of requests are laid out in the same way.

**Streams.** `Readable` and `Writable` are the two classes with their fields; every public call and every
callback is a method that keeps `Valid()`.

**BLE.** `GattTable` is the loop of `setServices` with the table it should build, `GattServer` the request
handlers on bytes, `GattAccess` says who may read and write what in terms of the services that were set,
`GattClient` has the procedures of a client against them, and `Acl` the reassembly.

Bytes of HTTP are `char`; those of BLE are integers below 256. Sizes are unbounded except where the code
depends on the width: `content_length` (64 bits, with the sentinel 2^64-1), `nread` (32 bits), the 8-bit
`index`, and the 16-bit offsets of the URL parser and of ATT.

The callbacks of the application are a parameter, `HttpParser.Env`: for every sequence of calls so far, return
0, fail, or pause; and for every log, whether on_headers_complete answers 1. The latter depends on the log of
the message and not on how it was cut. A callback that is not set is one that returns 0.

## Where the code does less than it seems to promise

- **The header-size counter can fall behind.** After a header value the CR is handled before the value is
  counted (deps/http-parser/http_parser.c:1528-1532, the count being at 1701): if the callback pauses or fails
  there, the bytes of the value in this buffer are never counted. `HttpParser.Parser.Execute` states the number
  of bytes a call loses, for every call, and for a value open at the start of the buffer the condition under
  which it does, in terms of what is known before the call (`HttpParser.Cuts`). Nothing else is ever lost: the
  counter and the bytes lost are together the header bytes and those counted twice. `HttpSessions.Feed` draws
  the conclusion: with callbacks that let values pass, and whatever the others do, no header section above
  80 KiB is accepted. `HttpUncounted.PauseLosesCount` is a session in which one is.
- **The counter counts bytes twice.** A buffer that ends inside a header name or value makes it count one byte
  twice (deps/http-parser/http_parser.c:1432-1437, 1701-1706), so that a head below 80 KiB can be refused.
  `HttpParser.Doubled` says exactly which buffers do, `HttpCounting` follows the counter over a printed request,
  and `HttpExchange.Serve` has the exact condition: a request is accepted if and only if its head and the bytes
  counted twice are no more than 80 KiB. `HttpSessions.Feed` bounds the same for pauses in any callbacks.
- **Targets pile up.** `parserOnHeadersComplete` clears `this.url` and not `this._url`
  (src/js/http_common.js:57-60), and `flushed` stays set (src/modules/iotjs_module_httpparser.c:68).
  `HeaderDigest.TargetExact` gives the exact condition under which a handler sees the target of its own
  message, `HeaderDigest.PipelineDigest` the targets of any number of requests in a row, and
  `HttpExchange.ServeAll` takes them through the parser and the wrapper.
- **Connection options get lost.** An item that begins like a known option and stops short of it takes the comma
  after it along (deps/http-parser/http_parser.c:1643-1651), and a tab before an item, which the table lookup
  has turned into another byte, ends the reading (1614-1629). `HttpOptions.ConnectionExact` has the exact
  reading of any value, `HttpOptions.SecondOption` when an option in second place is read, and
  `HttpOptions.TabHides` what a tab does.
- **Continued lines are forgotten.** A header value may go on in a further line that begins with a blank, but then
  the matching begins anew (deps/http-parser/http_parser.c:1717-1721): a Transfer-Encoding in two lines never makes a
  message chunked (`HttpLines.FoldForgets`), and a Content-Length in two lines is an error (`HttpLines.LengthLine`).
- **'finish' can come too soon.** A chunk written between `end()` and the next tick is still in flight when
  'finish' is emitted (src/js/stream_writable.js:236-247). `Writable.Stream.Tick` has the exact condition,
  `Writable.FinishedTooSoon` the sequence of calls.
- **Long URLs.** Offsets and lengths are kept in 16 bits. `UrlLayout.FieldsExact` has no bound on the length of
  the URL: the fields reported are those of the layout exactly if each of them, and the authority as a whole,
  fits. `UrlLayout.AuthorityCut` shows that the last condition is needed, `UrlLayout.LongPath` what becomes of a
  long path.

## Model

| member | source | states |
|---|---|---|
| `HttpRun.RunAppend` | deps/http-parser/http_parser.c:672-2079 | parsing a concatenation is parsing the first part and then, if it succeeded, the second from where that left off |
| `HttpRun.RunPosition` | deps/http-parser/http_parser.c:697-2087 | a run that succeeds has consumed exactly its input; one that fails or returns early stopped inside it |
| `HttpInvariant.SwitchKeeps` | deps/http-parser/http_parser.c:704-2054 | from registers that meet the invariant no transition reaches a failing assert or reads a matcher string out of bounds, and the new registers meet it again: the 8-bit index never wraps, lengths are where the body states need them |
| `HttpGrammar.SwitchFollows` | deps/http-parser/http_parser.c:706-2048 | every callback a transition makes is one that the grammar of callback traces allows where it comes |
| `HttpGrammar.PhaseMerge` | deps/http-parser/http_parser.c:95-133 | a further piece of a data run leaves a trace where it is in the grammar |
| `HttpSafety.EveryRun` | deps/http-parser/http_parser.c:697-2087 | for every parser type, input and callback answer: no assert fails, the register invariant holds, and the trace follows the grammar (Begin first, a nonempty target before the end of a request head, each name followed by a value, bodies after heads, chunks in pairs, one Complete) |
| `HttpSafety.RunKeeps` | deps/http-parser/http_parser.c:697-2087 | the same from any reachable configuration |
| `HttpSafety.DeadForever` | deps/http-parser/http_parser.c:706-714 | after a message that closes the connection a run accepts exactly inputs of line ends, logs nothing, and fails with HPE_CLOSED_CONNECTION on all others |
| `HttpSafety.CompleteStartsNext` | deps/http-parser/http_parser.c:1833-1928 | a completed message is followed by the start state exactly if its version and connection options keep the connection open and it is no response without an end (not 1xx, 204, 304, chunked, of known length, or without a body on the word of the application); nothing else leads to s_dead |
| `HttpSafety.EofCompletes` | deps/http-parser/http_parser.c:650-669 | the end of the stream completes a body read until then; it is no error between messages, and in the middle of one only for a response of which nothing but line ends has come |
| `HttpBulk.GeneralValueRun` | deps/http-parser/http_parser.c:1546-1569 | the memchr jump over a general header value agrees with a scan byte by byte |
| `HttpBulk.BodyRun` | deps/http-parser/http_parser.c:1878-1919 | taking any stretch of a body at once agrees with taking it byte by byte |
| `HttpBulk.BodyEnd` | deps/http-parser/http_parser.c:1878-1913 | the last byte of a body is delivered with it and looked at once more by s_message_done |
| `HttpBulk.CountsFirst` | deps/http-parser/http_parser.c:700-701 | a byte counted on arrival does reach the header count unless the run fails on it |
| `HttpParser.AtMostOneMark` | deps/http-parser/http_parser.c:2067-2071 | at most one data run is open at any point |
| `HttpParser.MarkEnds` | deps/http-parser/http_parser.c:672-695 | a parser inside a name, value, target or status has delivered part of it, so that marking the next buffer from its start continues it |
| `HttpParser.EndlessValue` | deps/http-parser/http_parser.c:1552-1565 | a jump past 80 KiB without a line end means that the header is too long |
| `HttpParser.Parser.constructor` | deps/http-parser/http_parser.c:2138-2147 | a new parser is in the initial configuration, with every counter at zero |
| `HttpParser.Parser.CountHeaderSize` | deps/http-parser/http_parser.c:154-161 | the counter grows by what is counted, without wrapping, and errs exactly above 80 KiB |
| `HttpParser.MemChr` | deps/http-parser/http_parser.c:1554-1555 | the first occurrence of the byte in the stretch, or none |
| `HttpParser.SkipGeneral` | deps/http-parser/http_parser.c:1548-1566 | the jump goes to the first line end, or to the end of the buffer; it misses one only beyond 80 KiB |
| `HttpParser.Parser.Callback` | deps/http-parser/http_parser.c:80-133 | one call is added to the trace and its outcome goes into errno |
| `HttpParser.Parser.Act` | deps/http-parser/http_parser.c:80-133 | marks and callbacks of one transition deliver exactly the bytes the byte-at-a-time machine logs |
| `HttpParser.Parser.Transition` | deps/http-parser/http_parser.c:704-2055 | one pass through the switch agrees with one step of the machine, whatever the callback does |
| `HttpParser.Parser.FieldLoop` | deps/http-parser/http_parser.c:1320-1447 | the loop over a header name agrees with the machine and counts every byte, one of them twice exactly if the buffer ends in the name |
| `HttpParser.Parser.ValueLoop` | deps/http-parser/http_parser.c:1522-1706 | the loop over a header value agrees with the machine; bytes go uncounted exactly when the callback at a CR fails or pauses, and then exactly those of this stretch; a value that ends in this buffer and whose callback will stop the parser is known to be cut before it is read |
| `HttpParser.Parser.BodyLoop` | deps/http-parser/http_parser.c:1878-1913 | reading a body of known length agrees with the machine; the asserts on the length hold |
| `HttpParser.Parser.ReadBody` | deps/http-parser/http_parser.c:2011-2032 | the same for chunk data and for a body read until the end of the stream |
| `HttpParser.Parser.FlushMarks` | deps/http-parser/http_parser.c:2057-2077 | the callbacks at the end of a buffer deliver what the machine has logged, and the assert on the marks holds |
| `HttpParser.Parser.Execute` | deps/http-parser/http_parser.c:632-2087 | on any buffer and any callbacks: success, the error and its offset, and the state after a pause are those of the machine on the same bytes; callbacks are obeyed, the first that fails or pauses being the last; the number of header bytes that go uncounted is exactly that of a value cut at its CR, and 0 otherwise; a value open from the buffer before is cut if its callback, a function of what is known before the call, stops the parser, and only then; one byte at most is counted twice, and on success exactly if the buffer ends inside a name or value and not at its first byte; an overflow error is justified by a long head; a pause makes progress |
| `HttpParser.Parser.Finish` | deps/http-parser/http_parser.c:646-669 | the end of the stream: completion, nothing, or HPE_INVALID_EOF_STATE |
| `HttpParser.Parser.SetPaused` | deps/http-parser/http_parser.c:2416-2428 | pausing and resuming a parser that is not in error changes errno only |
| `HttpUncounted.PauseLosesCount` | deps/http-parser/http_parser.c:1522-1532 | a request with any header value, in three buffers and with one pause, is accepted with all its events, although the counter never saw the value: the head accepted has 24 bytes more than the value |
| `HttpUncounted.AboveTheLimit` | deps/http-parser/http_parser.c:154-161 | a session that ends without an error and in which a header section was longer than 80 KiB |
| `HttpSessions.FeedOne` | deps/http-parser/http_parser.c:632-2087 | one buffer, resumed after each pause, is parsed as it would be at once; at most one byte for each pause, and one if it ends in a name or value, is counted twice |
| `HttpSessions.Feed` | deps/http-parser/http_parser.c:632-2087 | any nonempty pieces, with pauses in any callbacks and resumption on the bytes not consumed, are parsed as their concatenation: same registers and trace, or same error at the same offset; an overflow error needs a head above the limit once one byte is added for each piece that ends in a header name or value and for each pause; if no callback stops the parser at a value, nothing goes uncounted and no header section above the limit is accepted |
| `HttpSessions.TwoWays` | deps/http-parser/http_parser.c:632-2087 | two parsers fed the same bytes in different pieces by callbacks that pause at different times agree on every register and every event, or on the error |
| `HttpMethods.MethodExact` | deps/http-parser/http_parser.c:949-1073 | the word before the first space is accepted exactly if it is one of the 27 method names, and is then the method |
| `HttpMethods.ReguessKeepsPrefix` | deps/http-parser/http_parser.c:1004-1066 | a switch to another method in mid-word keeps all that has been read |
| `HttpMethods.MethodRun` | deps/http-parser/http_parser.c:949-1003 | each method name and a space lead to the target, with one Begin |
| `HttpHeaders.NameExact` | deps/http-parser/http_parser.c:1270-1430 | over all token strings: exactly connection, proxy-connection, content-length, transfer-encoding and upgrade, in any case of letters, are recognised |
| `HttpHeaders.TokenExact` | deps/http-parser/http_parser.c:182-221 | the token table has exactly the bytes of a token |
| `HttpHeaders.BadName` | deps/http-parser/http_parser.c:1270-1447 | a header name that meets any other byte than a token byte or its colon is an error, at that byte |
| `HttpHeaders.LineRun` | deps/http-parser/http_parser.c:1270-1781 | any header line, with any blanks and line ends before its value, with or without a value, with continuation lines, ended by a line feed or both: one name and one value are reported, without the blanks before it and the line ends in it; the only error there is, is a bad length |
| `HttpHeaders.FoldRun` | deps/http-parser/http_parser.c:1712-1744 | a continuation line goes on with the value, its blank included, and with the matching from the beginning |
| `HttpLines.LinesRun` | deps/http-parser/http_parser.c:1270-1797 | a header section in any writing: all headers in order, the last Content-Length, exactly the options of the Connection values, chunked exactly if a Transfer-Encoding is that word, upgrade exactly if there is an Upgrade value; nothing else changes |
| `HttpLines.NamesMeant` | deps/http-parser/http_parser.c:164-171 | the names and options by which these are known |
| `HttpLines.LengthLine` | deps/http-parser/http_parser.c:1500-1601 | a Content-Length is accepted, as its decimal value, exactly if it is one number below the limit in one line |
| `HttpLines.FoldForgets` | deps/http-parser/http_parser.c:1717-1721 | a Transfer-Encoding that goes on in a further line never makes the message chunked |
| `HttpOptions.ConnectionExact` | deps/http-parser/http_parser.c:1464-1690 | any Connection value sets exactly the flags of the options read from its text as a list, and changes nothing else |
| `HttpOptions.ListExact` | deps/http-parser/http_parser.c:1614-1690 | of a list of tokens, exactly those options are read that are tokens in their place, unless the token before was taken for the beginning of an option |
| `HttpOptions.PlainList` | deps/http-parser/http_parser.c:1614-1690 | without such beginnings, exactly the options listed are read |
| `HttpOptions.SecondOption` | deps/http-parser/http_parser.c:1643-1651 | an option after one other token is read if and only if that token is not a beginning of an option |
| `HttpOptions.TabHides` | deps/http-parser/http_parser.c:1614-1629 | a tab after a comma ends the reading |
| `HttpOptions.ChunkedExact` | deps/http-parser/http_parser.c:1604-1612 | a Transfer-Encoding value marks the message as chunked exactly if it is the word chunked, in any case of letters, and spaces |
| `HttpLengths.ContentLengthExact` | deps/http-parser/http_parser.c:1576-1601 | a Content-Length value is accepted exactly if it is digits and spaces, begins with a digit and is below the limit, and is then kept as its decimal value; it is never the sentinel |
| `HttpLengths.ChunkSizeExact` | deps/http-parser/http_parser.c:1930-1980 | a chunk size is kept as its value under the unhex table, or is an error above the limit |
| `HttpChunked.ChunkLogBody` | deps/http-parser/http_parser.c:2011-2048 | the body events of a log of chunks are the chunks, one after the other |
| `HttpChunked.ChunksRun` | deps/http-parser/http_parser.c:1930-2048 | any list of nonempty chunks, with any sizes that write their lengths and any extensions, is decoded to matched chunk events and its data |
| `HttpChunked.ChunkedDecodes` | deps/http-parser/http_parser.c:1921-2048 | a whole chunked body: the chunks, the trailer as headers, exactly one Complete, and the next state chosen by the connection options of head and trailer, or the rest handed back to the caller if the message upgrades |
| `HttpStart.NumberRun` | deps/http-parser/http_parser.c:764-894 | a number of a first line is kept as its decimal value, or is the error of its place, exactly above 999 |
| `HttpStart.ResponseStartRun` | deps/http-parser/http_parser.c:745-948 | a status line, with any spaces before the code, with or without a text, and either line end: one Begin, the text as one Status event, version and code by their decimal values; HPE_INVALID_VERSION and HPE_INVALID_STATUS exactly above 999 |
| `HttpStart.TargetExact` | deps/http-parser/http_parser.c:1075-1146 | the word after the method is reported whole if it is a target, and is HPE_INVALID_URL otherwise |
| `HttpStart.RequestStartRun` | deps/http-parser/http_parser.c:949-1268 | a request line, with any spaces in it, with a version or of HTTP/0.9: one Begin, the target, method and version kept, and the error of a bad target or version |
| `HttpStart.EitherExact` | deps/http-parser/http_parser.c:715-762 | a parser of both kinds settles for one by the first two bytes and goes on as one of that kind |
| `HttpStart.LeadingRun` | deps/http-parser/http_parser.c:764-787 | line ends before a request are passed over; before a response each of them begins a message |
| `UrlTargets.TargetLaid` | deps/http-parser/http_parser.c:1075-1146 | the targets are exactly the words laid out as URLs, an authority for CONNECT |
| `HttpFraming.HeadEndRun` | deps/http-parser/http_parser.c:1798-1876 | at the blank line exactly the body follows that the head announces: none for CONNECT or on the word of the application, else chunks, else so many bytes, else none for requests, for 1xx, 204 and 304 and for switched protocols, else all that comes |
| `HttpFraming.NextExact` | deps/http-parser/http_parser.c:2090-2131 | the connection stays open by default from HTTP/1.1 on and on request before, unless a response is without an end |
| `HttpFraming.SizedRun` | deps/http-parser/http_parser.c:1878-1928 | a body of n bytes is exactly n bytes, and completes the message |
| `HttpFraming.OpenRun` | deps/http-parser/http_parser.c:1915-1919 | a body without an end is every byte that comes |
| `HttpMessages.HeadRun` | deps/http-parser/http_parser.c:704-1876 | the head of any request or response, in any writing: everything in it reported in order, and the framing, version, method or status read off its text |
| `HttpMessages.MessageRun` | deps/http-parser/http_parser.c:704-2048 | any message with the body its head announces: head, body and trailer reported in order, one Complete; then the next message, a closed connection, or the rest for the caller, as head and trailer say; the highest header count is exactly known |
| `HttpMessages.ResponseBodies` | deps/http-parser/http_parser.c:1852-1876 | without chunks and upgrades: a response with a length has exactly so many bytes, a 1xx, 204 or 304 without one ends at the blank line, and any other takes all that comes; the parser is open for another exactly in the first two cases, if version and options allow |
| `HttpMessages.OpenMessageRun` | deps/http-parser/http_parser.c:1869-1876 | a response without an end: all later bytes are its body |
| `HttpMessages.MessagesRun` | deps/http-parser/http_parser.c:704-2048 | any number of messages of one kind, of which only the last may close the connection, are parsed one after the other |
| `HttpErrors.RefusedExact` | deps/http-parser/http_parser.c:704-2054 | in every state but those of methods and targets: exactly which bytes may stand there, and which error any other is |
| `HttpErrors.FirstRefused` | deps/http-parser/http_parser.c:2080-2087 | a run fails on the first byte that may not stand where it comes, with the error of that place |
| `HttpRequests.PrintedHead` | src/js/http_outgoing.js:136-151 | what the client prints is a head the parser takes, with the same headers |
| `HttpLines.HeadersRun` | deps/http-parser/http_parser.c:1270-1781 | the same of headers as they are printed |
| `HttpRequests.RequestRun` | deps/http-parser/http_parser.c:949-1928 | printing a request and parsing it is the identity: one Begin, the target, the headers in order, the body, one Complete, the method; the header count reaches exactly the length of the head; the parser is then dead if a Connection header says close, and ready for a request if none does |
| `HttpRequests.PipelineRun` | deps/http-parser/http_parser.c:949-1928 | any number of printed requests, of which only the last may say close, are parsed one after the other |
| `HttpRequests.ClosedAfter` | deps/http-parser/http_parser.c:706-714 | after a request that says close, anything but line ends is the closed-connection error, at the first byte |
| `HttpOutgoing.PutKeeps` | src/js/http_outgoing.js:153-168 | setting a header changes no other one, and no place |
| `HttpOutgoing.DeleteObject` | src/js/http_outgoing.js:171-177 | removing a header removes that one only |
| `HttpOutgoing.OutgoingMessage.SetHeader` | src/js/http_outgoing.js:153-168 | an empty value is refused; what has been stored to be sent does not change |
| `HttpOutgoing.OutgoingMessage.StoreHeader` | src/js/http_outgoing.js:136-151 | the first line and then every header, in order |
| `HttpOutgoing.OutgoingMessage.Send` | src/js/http_outgoing.js:101-116 | the header goes out exactly once, before the first chunk |
| `HttpOutgoing.OutgoingMessage.Write` | src/js/http_outgoing.js:119-132 | a chunk is appended to the body, unless there is none |
| `HttpOutgoing.OutgoingMessage.End` | src/js/http_outgoing.js:45-91 | the last chunk and the header, if it is still due, are sent; the second time nothing is |
| `HttpOutgoing.NewRequest` | src/js/http_client.js:25-62 | a request stores its line and the given headers, with the defaults for method and path, or throws exactly on an empty value |
| `HttpCounting.ByteCounts` | deps/http-parser/http_parser.c:697-704 | a byte counts for the header size at most once, and what is parsed does not depend on the count |
| `HttpCounting.StretchAt` | deps/http-parser/http_parser.c:632-2087 | over any stretch of a printed request the count is that of the bytes up to there and those counted twice before, while in the head; it is 0 after it, and its highest value is then that of the whole head |
| `HttpCounting.DoubledAt` | deps/http-parser/http_parser.c:1432-1437 | whether the last byte of a piece is counted twice depends only on where in the text it is, and no byte outside the head is |
| `HttpExchange.ServeOne` | deps/http-parser/http_parser.c:154-161 | a printed request in one buffer is parsed whole exactly if its head has at most 80 KiB, and fails with the header-size error otherwise |
| `HttpExchange.Serve` | src/modules/iotjs_module_httpparser.c:412-438 | however a printed request is cut, the handler gets its target, headers and body if and only if its head, with one byte more for each piece that ends inside a header name or value and not at its first byte, has at most 80 KiB; the only error there is otherwise is the header-size error |
| `HttpExchange.CutsInHead` | deps/http-parser/http_parser.c:1432-1437 | pieces of the body count for nothing: only those that end before the end of the head can make a byte count twice |
| `HttpExchange.ShortHead` | deps/http-parser/http_parser.c:154-161 | a head of at most 40 KiB is accepted in any pieces |
| `HttpExchange.ServeAll` | src/modules/iotjs_module_httpparser.c:412-438 | any number of requests on one connection, in any pieces, are all handed over, each with its own headers and body, and with the targets that have piled up, if the longest head and the pieces that end inside a header name or value leave room in the 80 KiB |
| `HttpExchange.ServeTwo` | src/js/http_common.js:53-60 | the second of two requests parsed one after the other gets both targets if the first has ten headers, and its own if not |
| `HttpExchange.RoundTrip` | src/js/http_client.js:25-62 | what is given to a ClientRequest and written in any chunks is what the handler of the server gets, in whatever pieces the bytes arrive, if and only if head and bytes counted twice have at most 80 KiB; its headers object has exactly the names given, each with its value |
| `HttpDelivery.Deliver` | src/modules/iotjs_module_httpparser.c:412-438 | any message, request or response, in any pieces: the parser has its version and method or status, and the handler its target, headers and body, chunked or not, if the header sections leave room in the 80 KiB |
| `HttpDelivery.DeliverOpen` | deps/http-parser/http_parser.c:646-669 | a response until the end of the stream, which completes it |
| `HttpDelivery.SwitchOver` | deps/http-parser/http_parser.c:1836-1842 | a message that switches protocols, with more in the same buffer: complete, marked as an upgrade, and the call returns exactly at its end |
| `HeaderDigest.ObjectExact` | src/js/http_incoming.js:53-62 | the headers object has exactly the names of the headers, each with the value it comes with last |
| `HeaderDigest.MessageDigest` | src/js/http_common.js:53-113 | any message is handed over with its headers after the trailer of the one before, the bytes of its body, and one end |
| `HeaderDigest.DigestCoalesced` | src/modules/iotjs_module_httpparser.c:198-236 | however names, values, targets and bodies are cut into callbacks, they mean the same |
| `HeaderDigest.Conserved` | src/modules/iotjs_module_httpparser.c:198-269 | the headers handed over and those still held are all name-value pairs of the trace, in order |
| `HeaderDigest.TargetExact` | src/js/http_common.js:53-60 | a handler gets the target of its own message exactly if no ten headers had come before the message began |
| `HeaderDigest.TargetsPile` | src/js/http_common.js:53-60 | of the events of two requests in a row, the second is handed both targets, one after the other, if the first has ten headers, and its own if not |
| `HeaderDigest.PipelineDigest` | src/js/http_common.js:53-60 | of any number of requests in a row, each is handed over with its own headers and body; its target has in front of it all those since the first request with ten headers, if that came before |
| `HeaderDigest.RequestDigest` | src/js/http_common.js:53-113 | a request is handed over with exactly its headers, after trailers still pending, its body and one end |
| `HeaderDigest.StepsOn` | src/modules/iotjs_module_httpparser.c:198-269 | in every trace the parser can make the asserts of the wrapper hold |
| `HeaderBatch.Wrapper.MakeHeader` | src/modules/iotjs_module_httpparser.c:116-129 | the array holds the names and values of the slots in turn |
| `HeaderBatch.Wrapper.Flush` | src/modules/iotjs_module_httpparser.c:132-154 | the slots and the target move to the JavaScript side |
| `HeaderBatch.Wrapper.OnField` | src/modules/iotjs_module_httpparser.c:198-218 | a piece of a name keeps the slots and the list equal to the headers of the digest; slot indices stay in range and the assert holds |
| `HeaderBatch.Wrapper.OnValue` | src/modules/iotjs_module_httpparser.c:221-236 | the same for a piece of a value |
| `HeaderBatch.Wrapper.OnHeadersComplete` | src/modules/iotjs_module_httpparser.c:239-314 | the handler gets exactly the headers since the previous headers-complete |
| `HeaderBatch.Wrapper.ParserOnHeadersComplete` | src/js/http_common.js:53-87 | the message made from what came along, or else from what was collected |
| `HeaderBatch.Wrapper.AddHeaders` | src/js/http_incoming.js:53-62 | the object has exactly the names in the even places of the list, each with the value after its last place |
| `HeaderBatch.Wrapper.OnBody` | src/js/http_common.js:92-102 | a piece of the body is pushed into the current message |
| `HeaderBatch.Wrapper.OnMessageComplete` | src/js/http_common.js:38-49 | the end is pushed into the current message |
| `HeaderBatch.Wrapper.On` | src/modules/iotjs_module_httpparser.c:358-369 | every callback, where the grammar allows it, keeps the wrapper in step with the digest |
| `HeaderBatch.Wrapper.Replay` | src/modules/iotjs_module_httpparser.c:116-355 | over a whole trace, however fragmented: lists handed over, then the collected list, then the slots are all headers parsed, in order, and the messages are those of the digest |
| `UrlParser.Url.ParseHost` | deps/http-parser/http_parser.c:2235-2310 | the loop over the authority agrees with the fold over its bytes |
| `UrlParser.Url.StrToUl` | deps/http-parser/http_parser.c:2402 | the decimal value of the digits at an offset, up to the first byte that is none |
| `UrlParser.Url.Parse` | deps/http-parser/http_parser.c:2312-2413 | the loop over a URL agrees with the two folds; the port is refused exactly above 65535 |
| `UrlLayout.HostExact` | deps/http-parser/http_parser.c:2172-2310 | an authority of any length is accepted exactly if it is userinfo and '@' if there is one, a host or a bracketed address, and a port if there is a colon; the fields are exactly these, modulo 2^16 |
| `UrlLayout.FieldsExact` | deps/http-parser/http_parser.c:2312-2396 | for a URL of any length: what is accepted has an outline; if the authority fits into 16 bits, the URL is accepted exactly if it has a layout; the fields reported are those of the layout if and only if each of them fits into 16 bits and the authority as a whole does |
| `UrlLayout.ShortFaithful` | deps/http-parser/http_parser.c:2312-2396 | every accepted URL of at most 65535 bytes is reported with the fields of its layout |
| `UrlLayout.AuthorityCut` | deps/http-parser/http_parser.c:2235-2250 | a URL all of whose fields fit into 16 bits, refused because its authority does not |
| `UrlLayout.AcceptedTiled` | deps/http-parser/http_parser.c:2312-2413 | the fields of a URL that are reported as they are are nonempty, in bounds, in order and disjoint; "://" follows the scheme, '@' the userinfo, ':' stands before the port, '?' before the query, '#' before the fragment, the path begins with '/' or '*', and every byte outside the fields is a delimiter; the exact places are those of the layout in UrlLayout.FieldsExact |
| `UrlLayout.PortExact` | deps/http-parser/http_parser.c:2400-2410 | in a URL of any length the digits read as the port are exactly the port field, if it begins within 16 bits, the authority fits, and no digit follows the URL in memory |
| `UrlLayout.ParseUrl` | deps/http-parser/http_parser.c:2312-2413 | a whole call: for a URL whose fields fit, tiled fields and the exact port, or a refusal because there is no layout or the port is too large |
| `UrlLayout.LongPath` | deps/http-parser/http_parser.c:2369-2379 | any path reports its length modulo 2^16; the URL is still tiled exactly if something is left of that and the rest is delimiters |
| `UrlLayout.PathCut` | deps/http-parser/http_parser.c:2369-2379 | a path of 65537 bytes of which one is reported, so that the fields do not cover the URL |
| `Writable.Stream.WriteOrBuffer` | src/js/stream_writable.js:167-191 | a chunk is written at once exactly if the stream is ready, idle and has nothing waiting, and is queued last otherwise; back-pressure from the high-water mark on |
| `Writable.Stream.Write` | src/js/stream_writable.js:91-100 | an ended stream takes nothing and reports an error |
| `Writable.Stream.EndWith` | src/js/stream_writable.js:110-131 | the last chunk is taken, and 'finish' is due at the next tick exactly if nothing is left |
| `Writable.Stream.WriteBuffered` | src/js/stream_writable.js:194-231 | the first waiting chunk is written, or 'finish' or 'drain' is emitted |
| `Writable.Stream.ReadyToWrite` | src/js/stream_writable.js:136-141 | a stream that gets ready starts with the first waiting chunk |
| `Writable.Stream.OnWrite` | src/js/stream_writable.js:145-154 | an acknowledged write is taken off the length and the next one begins |
| `Writable.Stream.Tick` | src/js/stream_writable.js:236-247 | 'finish' comes with chunks unacknowledged if and only if some are waiting or in flight, which takes a write after end() |
| `Writable.Perform` | src/js/stream_writable.js:91-267 | over every interleaving: chunks written and then those waiting are the chunks accepted, the length is that of what is waiting and in flight, one write at most is in flight, 'finish' comes at most once, and with nothing written after end() only when all is acknowledged |
| `Writable.AcknowledgeAll` | src/js/stream_writable.js:145-231 | a ready stream whose writes are acknowledged writes every chunk, in order, owes no 'drain', and finishes if it is ending |
| `Writable.FinishedTooSoon` | src/js/stream_writable.js:236-247 | a chunk written between end() and the tick is in flight at 'finish' |
| `Readable.Stream.Push` | src/js/stream_readable.js:122-145 | a chunk goes straight out while flowing, waits while paused, and is refused after the end |
| `Readable.Stream.PushEnd` | src/js/stream_readable.js:195-203 | the end is reported at once exactly if nothing is waiting |
| `Readable.Stream.Resume` | src/js/stream_readable.js:105-114 | everything waiting is delivered as one chunk, and then the end if it has come |
| `Readable.Stream.Pause` | src/js/stream_readable.js:95-102 | a flowing stream stops, and says so once |
| `Readable.Stream.Read` | src/js/stream_readable.js:57-78 | a read takes everything or nothing; asking for less than there is throws |
| `Readable.Stream.EmitData` | src/js/stream_readable.js:183-192 | the assertion that nothing is held back in flowing mode never fails |
| `Readable.Perform` | src/js/stream_readable.js:57-203 | over every sequence of calls: bytes delivered and then those waiting are the bytes pushed before the end, 'end' comes at most once with nothing after it, and a read or resume after the end has delivered all |
| `GattTable.MaskExact` | src/js/ble_hci_socket_gatt.js:176-217 | the bits are exactly the properties, and security is only asked for what is allowed |
| `GattTable.Table.SetServices` | src/js/ble_hci_socket_gatt.js:115-276 | the nested loops fill exactly the handles from 1 on with the rows of the table, without a gap |
| `GattTable.ValuesPlaced` | src/js/ble_hci_socket_gatt.js:219-239 | in any table every value handle is right after its characteristic's |
| `GattTable.RangesPartition` | src/js/ble_hci_socket_gatt.js:159-276 | for any services, their handle ranges partition 1..N in order, and service rows are exactly at the starts |
| `GattServer.Gatt.HandleMtu` | src/js/ble_hci_socket_gatt.js:397-416 | the MTU is the one asked for, within 23 and 256 |
| `GattServer.Gatt.CollectServices` | src/js/ble_hci_socket_gatt.js:557-571 | the services of a range of handles, up to the first handle that holds nothing |
| `GattServer.Gatt.ListServices` | src/js/ble_hci_socket_gatt.js:573-606 | an answer lists the first services, at least one, all with UUIDs of one length, and fits into the MTU |
| `GattServer.Gatt.HandleReadByGroup` | src/js/ble_hci_socket_gatt.js:547-615 | a list of services, or the error that says why there is none |
| `GattServer.Gatt.HandleRead` | src/js/ble_hci_socket_gatt.js:752-854 | the bytes of a value from the offset on, as far as the MTU allows, or the error for its permissions |
| `GattServer.Gatt.HandlePrepareWrite` | src/js/ble_hci_socket_gatt.js:975-1036 | a piece is queued exactly if it continues what is queued for a writable value, and echoed; each refusal has its code |
| `GattServer.Gatt.HandleExecuteWrite` | src/js/ble_hci_socket_gatt.js:1038-1079 | the handler gets exactly the pieces accepted since the last execute, joined, at the first one's offset; nothing stays queued |
| `GattAccess.Placed` | src/js/ble_hci_socket_gatt.js:115-276 | the rows of any characteristic of any service stand at the handle its place gives |
| `GattAccess.ReadExact` | src/js/ble_hci_socket_gatt.js:752-854 | what a read comes to at each handle of a characteristic, from its properties: declaration and own descriptors to anyone, the value as it may be read, the client configuration hidden exactly by secured notifications on an open link |
| `GattAccess.ServiceRead` | src/js/ble_hci_socket_gatt.js:791-793 | a service handle reads as its UUID in reverse order |
| `GattAccess.ReadAt` | src/js/ble_hci_socket_gatt.js:752-854 | any read of any handle: its value from the offset on as far as the MTU allows, its handler, or its refusal, byte by byte |
| `GattAccess.ReadValue` | src/js/ble_hci_socket_gatt.js:805-840 | bytes of a value are answered if and only if it is readable, the link is encrypted where that is asked for, and there is a value that reaches to the offset; 0x02 if and only if it is not readable, 0x05 if and only if security is asked for and the link is open |
| `GattAccess.ReadDeclaration` | src/js/ble_hci_socket_gatt.js:794-804 | a declaration: property bits by number, value handle, UUID in reverse order |
| `GattAccess.PrepareValue` | src/js/ble_hci_socket_gatt.js:975-1036 | a piece is queued if and only if the characteristic is writable, the link is encrypted where that is asked for, and it goes on where the pieces so far end; each refusal has its code if and only if its reason holds |
| `GattAccess.RefusedApart` | src/js/ble_hci_socket_gatt.js:323-332 | an error answer tells its code, and is told from other answers |
| `GattClient.EntryRoundTrip` | src/js/ble_hci_socket_gatt.js:595-606 | the handles and UUID of an entry are read back from its bytes |
| `GattClient.FoundFrom` | src/js/ble_hci_socket_gatt.js:561-571 | a search from the handle after a service finds exactly the services after it |
| `GattClient.Discover` | src/js/ble_hci_socket_gatt.js:547-615 | a client that asks again from the last end handle plus one finds every service exactly once, in order, and terminates, at any MTU |
| `GattClient.ServeAndDiscover` | src/js/ble_hci_socket_gatt.js:547-615 | the same from any list of services and any MTU asked for |
| `GattClient.ReadLong` | src/js/ble_hci_socket_gatt.js:752-854 | Read and then Read Blob until a short answer rebuild any value the client may read, as far as 16-bit offsets reach |
| `GattClient.WriteLong` | src/js/ble_hci_socket_gatt.js:975-1079 | a value written in any pieces reaches the handler whole, from offset 0 |
| `Acl.FrameRoundTrip` | src/js/ble_hci_socket_hci.js:477-509 | start and continuation frames are read as they were put into bytes |
| `Acl.Hci.OnSocketData` | src/js/ble_hci_socket_hci.js:477-517 | one packet takes one step of the reassembly, or throws if it is too short |
| `Acl.EmittedExact` | src/js/ble_hci_socket_hci.js:481-515 | whatever arrives, a packet that is emitted has exactly the length and channel declared by a start fragment it begins with |
| `Acl.Independent` | src/js/ble_hci_socket_hci.js:481-515 | what a connection gets depends on its own fragments alone |
| `Acl.Reassembled` | src/js/ble_hci_socket_hci.js:477-517 | for any interleaving, a connection whose fragments are those of its packets gets exactly these packets, in order, with nothing left over |
| `Acl.Receive` | src/js/ble_hci_socket_hci.js:477-517 | the bytes of any frames, one socket event each, are reassembled as the frames are |

## Left out

- Engine values, reference counts, native handles, sockets, timers and the event loop; `process.nextTick` in
  the writable stream is a step of its own.
- Non-strict parsing, buffers of 2^31 bytes or more, error descriptions, and the end of the stream twice after
  a body read until the end.
- A parser that returns early for another protocol: the results about several buffers stop there.
- HttpSessions.TwoWays: nothing is said where one of the two runs fails with the header-size error or a failing
  callback, because the counter counts the byte at the end of each buffer twice.
- HttpExchange.ServeAll: leaves room for pieces that end right after the first byte of a header name or value too,
  and for all of them in the longest head; HttpExchange.Serve has the exact condition for one request.
- HttpRequests.RequestRun: CONNECT, upgrades and chunked bodies are outside what the client prints; HttpMessages.MessageRun
  has them.
- HttpLines.LinesRun: continuation lines only after headers that the parser makes nothing of; the others are in
  HttpLines.LengthLine and HttpLines.FoldForgets, but for Connection options before a continuation.
- HttpDelivery.Deliver: leaves room for pieces that end right after the first byte of a header name or value too, and
  for all of them in the longest header section; HttpExchange.Serve has the exact condition for printed requests.
- HttpErrors.RefusedExact: the letters of methods and the bytes of targets, for which see HttpMethods.MethodExact and
  HttpStart.TargetExact.
- The printing of responses by http_server.js; the status, method, versions and `upgrade` of a message are those of the
  parser, and their way into the JavaScript object is left out, as are status texts.
- HeaderBatch.Wrapper.OnHeadersComplete: the target of a response, undefined in JavaScript, is the empty string;
  `reinitialize` is the constructor.
- HeaderBatch.Wrapper.OnBody: IncomingMessage is a value that collects what is pushed, not a stream object; the
  offset and length passed to JavaScript are the bytes they denote.
- HttpOutgoing.OutgoingMessage.SetHeader: keys stay in the order they were first set, as they do for names that
  are not integers; connection errors, `setTimeout` and the 'finish' and 'prefinish' events are left out.
- Callbacks of a wrapper are replayed from the trace of the parser after the call, in the same order, and not
  made from within it.
- UrlParser.Url.StrToUl: the saturation of strtoul is left out; every saturated value is above 65535.
- Readable.Stream.Push: handlers that push again from inside an event, and encodings of string chunks.
- Writable.Stream.EndWith: the end marker for NuttX, and the callbacks given to `write` and `end`.
- GattServer.Gatt.HandleReadByGroup: UUIDs have two or sixteen bytes and are kept as bytes, not hex digits; no
  included service exists, as setServices makes none; tables have fewer than 65536 handles.
- GattServer.Gatt.HandlePrepareWrite: the characteristic is known by its handle, so that replacing all services
  between the pieces of one write is not covered.
- GattServer.Gatt.HandleRead: a value left to the application is asked for, and its answer not followed.
- Find-information, find-by-type, read-by-type, plain writes, notifications, indications, SMP and the other
  branches of onSocketData.
