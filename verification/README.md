# Verification of the HTTP framing, the byte buffers and the fiber wake-up of a C++ server framework

The project models three components of the framework in `src/` and proves what each of them is for.

**HTTP framing.** The request-head parser (sections 3.1.1 and 3.2 of RFC 7230) is a set of grammar
functions over the text received so far; the C loops are methods over a buffer that are proved to
compute them. On top of them stand: verdicts that never change when more bytes arrive, a "is the head
complete yet" scan that never loses a request, a printer whose output the parser reads back, a receive
loop whose result does not depend on how the network cuts the stream, and the in-place, resumable
chunked decoder (section 4.1 of RFC 7230). Parser and decoder accept exactly the language that is given by
literal forms of lines, chunks and messages, and what is dumped is received. A byte is a `char`, so the
theorems cover arbitrary bytes.

**Byte buffers.** `ByteArray` is a linked chain of fixed-size blocks with cached read and write nodes.
The class keeps a ghost sequence `cells`, the bytes of all blocks in order, and every method is specified
on it, so that callers see one flat array. The codecs, the typed stream and the segment lists with their
short sends and receives are built on that view.

**Fiber wake-up.** The event registrations of `IOManager`, the ordered timer set, the queue of tasks and the
worker loop are classes proved against functions on values, and the functions are proved to keep their
invariants over every run. `Protocol` puts them together as a transition system with one thread: fibers
that park in `do_io` or in a sleep, callbacks, timeouts, cancellation, dispatch and stopping.
`WakeUps` proves that whoever waits there is woken and resumed: by the reported event, the expired timeout or
the expired sleep. `TimerWakeup` is a second transition system, with many threads, for the wake-up of the
idle thread.

| file | models |
|---|---|
| `Common.dfy` | options, the conversion to `int` |
| `Chunked.dfy`, `ChunkedLanguage.dfy` | `phr_decode_chunked`; which streams it accepts and rejects |
| `RequestParser.dfy`, `Grammar.dfy` | `phr_parse_request` and what it calls; which heads it accepts |
| `HeaderMap.dfy`, `Http.dfy` | the header map, `HttpRequest::dump`, `HttpRequestParser::execute` |
| `HttpSession.dfy` | `recvRequest` |
| `Codec.dfy`, `ByteArray.dfy`, `TypedStream.dfy` | zigzag, varint and fixed codecs; the block chain; typed reads and writes |
| `Transport.dfy` | `SocketStream::read` and `write`, `readfixsize`, `writefixsize` |
| `Events.dfy`, `Timers.dfy`, `Scheduler.dfy` | `IOManager`, `TimerManager`, `Scheduler` and `Fiber` |
| `TimerWakeup.dfy`, `Hook.dfy`, `Protocol.dfy` | the idle wait, the control flow of `do_io`, the whole protocol |
| `WakeUps.dfy` | what the protocol is for: every event, timeout and expired sleep resumes its fiber |

## How the code behaves where it departs from its intent

The models do what the code does. Where that is not what the code is meant to do, the exact condition is
proved.

- `recvRequest` compares the result of `readfixsize`, which is the number of bytes converted to `int`,
  with 0 (src/Http/HttpSession.cc:92, src/Stream.cc:14). For a declared length of 2^31 and more the result
  can depend on how many bytes were received together with the head. `HttpSession.SegmentationIndependence`
  says for which lengths it does not, and `HttpSession.TwoCuts` receives the same stream twice, with different
  results, for every other length; `HttpSession.WholeBody` covers all lengths below 2^31.
- `addCapacity` sets only the write node again (src/Bytearray.cc:81). A reader that stands at the end of
  the chain has a null node and keeps it when the chain grows; `read` then dereferences it, also for zero
  bytes. The field `anchor` records the capacity at the time the read position was last set, and
  `ByteArrays.ByteArray.ReadCursorRight` states exactly when the cached node is the right one. One
  consequence: a list of values that ends with an empty string cannot be read back when its bytes fill
  the blocks exactly (`TypedStream.RoundTrip`).
- `listExpiredCb` moves the iterator one step behind `upper_bound` (src/Timer.cc:140-141). It may therefore take
  a timer that is not due, leave a due one out (when several are due in this very millisecond behind the key),
  or run past the end of the set, which has no defined meaning. `Timers.ExpiryExact` states when it takes
  exactly the due timers, `Timers.ExpiryExactForCallers` that a caller, who does not know the address of the
  search key, can rely on it only when none is due, and `Timers.ExpiryFails` gives inputs for which it goes
  wrong. After the clock has been set back by an hour it always runs past the end. The theorems about whole
  runs (`Timers.RunValid`, `CancelIsFinal`, `OneShotOnce`, `TimerWakeup.NoLostWakeup`) let an expiry take any
  number of timers from the front of the set, and so hold for the code and for what it is meant to do.
- `addEvent` tests `fd > size` where `fd >= size` is needed (src/IOManager.cc:84): `Events.AddEventValid` shows
  that the access is out of bounds exactly for `fd == size`.
- The dispatch loop does not mask the reported events with the registered ones (src/IOManager.cc:344-351), so
  that the assertion of `triggerEvent` can fail (`Events.DispatchValid`, `Events.StaleReportFails`). With one
  thread it never does (`Events.BatchSafe`).
- The timeout callback of `do_io` notes ETIMEDOUT before it cancels the event (src/Hook.cc:131-132). When the
  kernel refuses that cancellation, the fiber stays parked, and no later timeout wakes it because ETIMEDOUT is
  noted already. `WakeUps.TimeoutTaken` gives the exact condition, and `WakeUps.TimeoutsAreInTime` shows that
  with a kernel that never refuses every timeout takes effect.
- The chunked decoder gives up when less than a quarter of what it has read was data
  (src/Http/picohttpparser.c:694); the comment above that line speaks of more than 80 % of framing.
  `Chunked.LimitOnFraming` states the limit as the code has it.
- A time until the next timer with bit 31 set makes `epoll_wait` wait without limit
  (src/IOManager.cc:281-286): `TimerWakeup.EndlessSleep`.
- `reset` without `from_now` counts the new period from when the timer would have fallen due
  (src/Timer.cc:69), and does nothing at all when the period is the same.

## Model

| member | source | states |
|---|---|---|
| Chunked.SizeNeverWraps | src/Http/picohttpparser.c:555-576 | in the size state the value stays below 16^digits, so that sixteen digits never overflow a size_t |
| Chunked.DecodeValid | src/Http/picohttpparser.c:552-698 | every input leads from a reachable decoder state to a reachable one |
| Chunked.SplitInvariance | src/Http/picohttpparser.c:545-698 | decoding a and then b gives the return code, output and leftover of decoding a + b at once, from every decoder state |
| Chunked.PiecesDoNotMatter | src/Http/picohttpparser.c:545-698 | however the network cuts a stream, the outcome is that of the whole stream |
| Chunked.DecodeShrinks | src/Http/picohttpparser.c:683-698 | output and leftover together never exceed the input, and the leftover is exactly its undecoded tail |
| Chunked.DecodeUndoesEncode | src/Http/picohttpparser.c:552-698 | for all non-empty chunks with any extensions, size digits and trailer lines, whichever of them end in a carriage return, decoding the encoding puts out exactly the data and stops exactly behind the message, or in front of the trailer when that is not consumed |
| Chunked.ToHexRoundTrip | src/Http/picohttpparser.c:532-543 | hexadecimal sizes of any width read back, which makes every length below 2^64 encodable |
| Chunked.CanonicalChunk | src/Http/picohttpparser.c:555-576 | any piece shorter than 2^64 bytes has a well-formed chunk |
| Chunked.HexDigits | src/Http/picohttpparser.c:532-543 | the digits are 0 to 9, A to F and a to f with the values 0 to 15, and no other byte is a digit |
| Chunked.AnyCaseReadsBack | src/Http/picohttpparser.c:532-543 | a size reads back from capitals, small letters or any mixture |
| Chunked.SpelledChunk | src/Http/picohttpparser.c:555-576 | a chunk whose size is written in capitals or in a mixture is well formed too |
| ChunkedLanguage.MessageShape | src/Http/picohttpparser.c:552-698 | the converse of DecodeUndoesEncode: whatever the decoder completes is the encoding of a list of chunks and of trailer lines, its output is their data, and what it leaves is what follows |
| ChunkedLanguage.Completable | src/Http/picohttpparser.c:552-698 | from every reachable decoder state some input completes a message |
| ChunkedLanguage.RejectedForGood | src/Http/picohttpparser.c:552-698 | a stream is rejected exactly when no continuation of it begins with a message |
| Chunked.TallyBalances | src/Http/picohttpparser.c:550-696 | after any run of calls that ask for more, bytes read minus overhead is the number of bytes put out, also when the counters wrap around |
| Chunked.LimitOnFraming | src/Http/picohttpparser.c:691-696 | for a message that has come in any pieces and is incomplete, the account reaches the limit exactly when at least 102400 of all the bytes were framing and less than a quarter of them was put out |
| Chunked.ChunkedDecoder.Loop | src/Http/picohttpparser.c:552-682 | the loop over the buffer stops where the decoding of the original input stops; the write position never passes the read position, and unread input is untouched |
| Chunked.ChunkedDecoder.PhrDecodeChunked | src/Http/picohttpparser.c:545-698 | the buffer holds the output followed by the undecoded bytes, the return value is their number or -1 or -2, the decoder fields and the counters are those of the model, and a tripped overhead limit turns -2 into -1 |
| RequestParser.VerdictStable | src/Http/picohttpparser.c:355-427 | an acceptance or rejection never changes when bytes are appended, and an accepted request is accepted from its own bytes alone |
| RequestParser.PrefixVerdicts | src/Http/picohttpparser.c:355-427 | an accepted request of r bytes is incomplete on every shorter prefix and accepted with the same result on every longer one |
| RequestParser.PrescanFinds | src/Http/picohttpparser.c:197-223 | over text without stray carriage returns the scan finds the blank line, wherever it starts in front of it |
| RequestParser.PrescanWaits | src/Http/picohttpparser.c:197-223 | the scan never rejects a beginning of an acceptable head |
| RequestParser.PrescanSound | src/Http/picohttpparser.c:197-223 | if the full parse accepts r bytes, a parse resumed with any last_len below r accepts them too; backing up three bytes is always enough |
| RequestParser.ResumedVerdicts | src/Http/picohttpparser.c:401-427 | for every received prefix and every earlier reading the resumed parse says "incomplete" or accepts exactly as the parse of the whole stream does |
| RequestParser.ScanEight | src/Http/picohttpparser.c:149-166 | the unrolled body passes at most eight printable bytes and changes nothing about where the line ends |
| RequestParser.GetTokenToEol | src/Http/picohttpparser.c:134-195 | the unrolled scan and the byte loop behind it together are the byte-at-a-time line scan |
| RequestParser.IsComplete | src/Http/picohttpparser.c:197-223 | the loop computes the pre-scan from three bytes before last_len on |
| RequestParser.ParseToken | src/Http/picohttpparser.c:245-278 | the loop computes the token grammar up to the given stop character |
| RequestParser.ParseHttpVersion | src/Http/picohttpparser.c:280-296 | accepts exactly "HTTP/1." and a digit, and is incomplete on less than nine bytes |
| RequestParser.ParseHeaderLine | src/Http/picohttpparser.c:309-349 | one header line: a name, or a continuation of the previous line, and the value without trailing blanks |
| RequestParser.ParseHeaders | src/Http/picohttpparser.c:298-353 | the loop computes the header list, its limit and the blank line behind it |
| RequestParser.ParseRequest | src/Http/picohttpparser.c:355-399 | the request line and headers, behind at most one blank line |
| RequestParser.PhrParseRequest | src/Http/picohttpparser.c:401-427 | the pre-scan guards the parse whenever last_len is not 0 |
| Grammar.TokenBytes | src/Http/picohttpparser.c:96-103 | the bytes of a name are the visible ASCII characters except seventeen separators, listed literally |
| Grammar.LineAccepted | src/Http/picohttpparser.c:309-349 | a line of a token or a blank, a colon, and a value between blanks is accepted, and what it yields is that name and that value without the blanks at its ends |
| Grammar.LineShape | src/Http/picohttpparser.c:309-349 | no other line is accepted |
| Grammar.BadNameRejected | src/Http/picohttpparser.c:313-332 | a line whose name holds a byte that is not part of a token, or is empty, is rejected |
| Grammar.BlockAccepted | src/Http/picohttpparser.c:298-353 | lines of that form up to the blank line are accepted, as many as the limit allows |
| Grammar.BlockShape | src/Http/picohttpparser.c:298-353 | no other list of lines is accepted |
| Grammar.LimitRejects | src/Http/picohttpparser.c:300-308 | lines of that form that are more than the limit are rejected |
| Grammar.RequestAccepted | src/Http/picohttpparser.c:355-399 | a request line and header lines of that form, behind at most one blank line, are accepted as method, target, version digit and header list |
| Grammar.RequestShape | src/Http/picohttpparser.c:355-399 | the parser accepts nothing else |
| HeaderMap.SetGet | src/Http/Http.cc:166-169 | setting a header is seen under every spelling of its key and leaves all other keys alone |
| HeaderMap.SetValid | src/Http/Http.cc:9-11 | the map stays strictly ordered, so that no key occurs twice |
| HeaderMap.GetAt | src/Http/Http.cc:147-151 | in an ordered map, looking up a key finds the entry with that key |
| HeaderMap.SameIsSpelling | src/Http/Http.cc:9-11 | keys without NUL are the same if and only if they have the same length and each byte is equal or the same ASCII letter in the other case |
| HeaderMap.NulEndsKey | src/Http/Http.cc:9-11 | of a key with a NUL only what stands before it counts |
| HeaderMap.LessIs | src/Http/Http.cc:9-11 | of two keys in small letters the first difference decides which comes first; a shorter key comes before its continuations |
| HeaderMap.GetBySpelling | src/Http/Http.cc:147-151 | a lookup finds a value if and only if it stands under some spelling of the key |
| HeaderMap.SetAllGet | src/Http/HttpParser.cc:54-60 | after all entries of a map have been set, lookups are those of that map, except for a dropped key |
| Http.MethodRoundTrip | src/Http/Http.cc:13-37 | every known method reads back from its printed name; no two are printed alike |
| Http.HeadReadsBack | src/Http/Http.cc:218-251 | the printed text of a sendable request is accepted, consumed exactly up to the body, with the printed method, target, version and header lines |
| Http.TargetSplits | src/Http/HttpParser.cc:41-49 | the target splits into the path and query it was printed from |
| Http.HeadersReadBack | src/Http/Http.cc:64-68 | the headers, with the connection line and the content length, and the close flag are recovered from the printed lines |
| Http.PrintThenParse | src/Http/Http.cc:218-251 | execute after dump recovers method, path, query, version, close flag and all headers, and leaves the body, for every sendable request |
| Http.RequestLineIs | src/Http/Http.cc:218-233 | the request line, spelled out: method, space, target, " HTTP/", the two halves of the version in decimal, and CR LF |
| Http.EveryLineIs | src/Http/Http.cc:234-248 | each header line is printed in its place as key, colon, space, value and CR LF |
| Http.DecReadsBack | src/Http/Http.cc:244-248 | a length printed in decimal has that value when its digits are read |
| Http.HttpRequest.SetHeader | src/Http/Http.cc:166-169 | afterwards the key is found under every spelling with the new value, every other lookup is unchanged, and the map stays ordered |
| Http.HttpRequest.Dump | src/Http/Http.cc:218-251 | what is written is the head text followed by the body; the invalid method has no name to write |
| Http.HttpRequest.DumpHeaders | src/Http/Http.cc:234-242 | the loop prints the connection line once and every other header in map order |
| Http.HttpRequestParser.Execute | src/Http/HttpParser.cc:20-72 | the return value, the flags and the filled-in request for an accepted, a rejected and an incomplete head |
| Http.HttpRequestParser.FillHeaders | src/Http/HttpParser.cc:54-60 | the loop sets the parsed headers in order, so that later ones win |
| Http.HttpRequestParser.FillTarget | src/Http/HttpParser.cc:41-49 | path and query are split at the first question mark; without one the query stays |
| Http.HeadApplied | src/Http/HttpParser.cc:33-53 | the method of an accepted head is the one printed like it, or none if no method is; path and query joined by the first question mark are the target; every version but HTTP/1.1 counts as 1.0; fragment, body and websocket flag stay |
| Http.CloseDecided | src/Http/Http.cc:64-68 | for headers without NUL in their names, a request is to be closed unless a connection header, under any spelling, holds keep-alive |
| HttpSession.Socket.ReadFixSize | src/Stream.cc:5-15 | over any short reads the buffer receives exactly the next len bytes, and the result is len as an int; an early end gives 0 or, on a broken connection, -1 |
| HttpSession.Verdict | src/Http/HttpSession.cc:34-58 | on each prefix the parser asks for more until the head of the stream is complete and then accepts it; a stream without a head is never accepted |
| HttpSession.ReceiveHead | src/Http/HttpSession.cc:26-59 | the loop succeeds exactly for streams whose head ends within 4096 bytes, whether they then end or break, and keeps the over-read bytes, whose number the segments determine |
| HttpSession.ReceiveBody | src/Http/HttpSession.cc:76-99 | the over-read bytes and the rest of the stream together make up the body; it fails exactly when the stream ends or breaks before, or the number of missing bytes is no positive int |
| HttpSession.RecvRequest | src/Http/HttpSession.cc:12-105 | the request, or null, is the outcome of the segments in which the stream arrives, and nothing else decides it; the stream goes on behind what was declared or over-read; for what dump writes the outcome is SentIsReceived |
| HttpSession.SegmentationIndependence | src/Http/HttpSession.cc:76-99 | for a stream that holds a whole request, every way of cutting it into segments has the same outcome if and only if the declared length is clear of the sign changes of an int |
| HttpSession.TwoCuts | src/Http/HttpSession.cc:76-99 | for every other length there are two connections that carry the same stream in different segments: one yields the request and the other null |
| HttpSession.WholeBody | src/Http/HttpSession.cc:76-99 | for every declared length up to 2^31 - 1 the body is the declared number of bytes behind the head, however the stream was cut |
| HttpSession.DeclaredBy | src/Http/HttpSession.cc:64-73 | the length of the body is the decimal number that stands under any spelling of Content-Length, and 0 if there is none |
| HttpSession.SentIsReceived | src/Http/HttpSession.cc:12-105 | for every sendable request with a head of at most 4096 bytes and a body of at most 2^31 - 1, every cut of what dump writes yields that request again, with method, path, query, version, close flag, headers and the whole body |
| HttpSession.LongHeadRefused | src/Http/HttpSession.cc:26-59 | a sendable request with a longer head is not received, however it is cut |
| HttpSession.SendAndReceive | src/Http/Http.cc:218-251 | the same on objects: one request is dumped, the text cut and received, and the other request is the one that was sent |
| Codec.ZigzagBijection | src/Bytearray.cc:232-249 | zigzag is a bijection between signed and unsigned words of 32 and 64 bits, the minimum integer included |
| Codec.ZigzagMagnitude | src/Bytearray.cc:232-241 | small magnitudes get small codes |
| Codec.ZigzagOnBits | src/Bytearray.cc:243-249 | the shift and exclusive-or expression, bit by bit on words of 32 and 64 bits, computes the decoder |
| Codec.VarintAtMost | src/Bytearray.cc:269-290 | a varint takes at most 5 bytes for 32 bits and 10 for 64 |
| Codec.VarRoundTrip | src/Bytearray.cc:301-327 | reading a varint undoes writing it, whatever follows |
| Codec.VarintAt | src/Bytearray.cc:269-290 | byte i of a varint is v / 128^i % 128, with the top bit set on all but the last byte |
| Codec.OrIsAdd | src/Bytearray.cc:301-327 | bit by bit, "or" of a number below 2^k and a multiple of 2^k is their sum |
| Codec.GroupsDisjoint | src/Bytearray.cc:301-327 | a group of seven bits, shifted and cut off at the word, joins the groups read before it with "or" as with addition, and the result stays below the next group and inside the word |
| Codec.WireOrder | src/Bytearray.cc:215-229 | what is written depends on the chosen byte order and not on that of the machine |
| Codec.FixedRoundTrip | src/Bytearray.cc:215-229 | fixed-width values read back, also on a machine of the other byte order |
| Codec.MemoryAt | src/Bytearray.cc:215-229 | byte i of an n-byte value is v / 256^(n-1-i) % 256 in the big-endian order and v / 256^i % 256 in the other |
| ByteArrays.ByteArray.AddCapacity | src/Bytearray.cc:60-84 | the chain grows by whole blocks, no more than needed, and keeps its bytes and its write cursor |
| ByteArrays.ByteArray.Write | src/Bytearray.cc:86-112 | the flat bytes are replaced from the write position on; size and position follow, and the chain grows only if it must |
| ByteArrays.ByteArray.Read | src/Bytearray.cc:114-138 | the next n flat bytes, an error when there are fewer, and a null node when the reader stands at an outgrown end |
| ByteArrays.ByteArray.ReadAt | src/Bytearray.cc:140-178 | the n flat bytes from the given position, without moving the read position; the range check is computed modulo 2^64 |
| ByteArrays.ByteArray.SetReadPosition | src/Bytearray.cc:180-194 | the cursor is the node of the position; positions behind the size are refused |
| ByteArrays.ByteArray.SetWritePosition | src/Bytearray.cc:196-213 | the cursor is the node of the position, the size grows with it; positions behind the capacity are refused |
| ByteArrays.ByteArray.Clear | src/Bytearray.cc:46-59 | one block is left, with both cursors at its start |
| ByteArrays.ByteArray.ReadCursorRight | src/Bytearray.cc:60-84 | the cached read node is the node of the read position if and only if the chain has not grown since the position was put at its end |
| ByteArrays.CaughtUpReader | src/Bytearray.cc:114-138 | a reader that has caught up at the end of a block fails on the byte that is written next |
| ByteArrays.ByteArray.CoveredBytes | src/Bytearray.cc:477-570 | the segments of a list read, end to end, exactly the flat bytes from one position to the other |
| ByteArrays.ByteArray.GetReadBuffers | src/Bytearray.cc:477-502 | ordered, disjoint segments without a gap cover exactly the next min(len, size - position) bytes |
| ByteArrays.ByteArray.GetWriteBuffers | src/Bytearray.cc:545-570 | after growing, ordered and disjoint segments cover exactly the next len bytes of room |
| ByteArrays.ByteArray.Scatter | src/Stream/SocketStream.cc:14-22 | filling a segment list in order is writing the bytes at the position it covers |
| TypedStream.WriteItem | src/Bytearray.cc:251-299 | a value of any kind is written as its encoding |
| TypedStream.WriteString | src/Bytearray.cc:361-379 | a string is written behind its length in the chosen form, which FixedLengthText and VarLengthText give byte by byte; a length that does not fit its field loses its high bits |
| TypedStream.ReadVar | src/Bytearray.cc:301-327 | the byte-by-byte loop over the bits of the word, joining groups with "or", computes the varint reader on any bytes: value, bytes used, or where it runs out |
| TypedStream.DecodeUndoesEncode | src/Bytearray.cc:251-408 | every value of every kind decodes from its encoding, whatever follows, using exactly its bytes |
| TypedStream.FixedLengthText | src/Bytearray.cc:361-384 | every string shorter than 2^16, 2^32 or 2^64 is written as its length in exactly 2, 4 or 8 bytes, by position in the chosen order, and the string; and it is read back |
| TypedStream.VarLengthText | src/Bytearray.cc:386-408 | every string shorter than 2^64 is written as the varint of its length, of at most ten bytes, and the string; and it is read back |
| TypedStream.FixedNumber | src/Bytearray.cc:251-267 | every number of 1, 2, 4 or 8 bytes, signed or not, takes just these, by position in the chosen order, negative ones in two's complement |
| TypedStream.VarNumber | src/Bytearray.cc:269-299 | every 32-bit or 64-bit number is written seven bits a byte, lowest first; a signed v as 2v or -2v - 1 |
| TypedStream.ReadItem | src/Bytearray.cc:260-408 | on any bytes a read yields what they decode to, or the range error at the place where they run out; the null node is met exactly by a reader at an outgrown end and by an empty string at the end of the chain |
| TypedStream.WriteAll | src/Bytearray.cc:251-379 | a list of values is written as the concatenation of its encodings, in a chain no longer than needed |
| TypedStream.ReadAll | src/Bytearray.cc:260-408 | the list is read back, and fails exactly if it ends with an empty string and the chain is full |
| TypedStream.RoundTrip | src/Bytearray.cc:215-408 | for every list of fixed, varint, zigzag and string values, every block size and every byte order of the two machines, the list reads back, unless it ends with an empty string and its bytes fill the blocks exactly |
| Transport.SocketWrite | src/Stream/SocketStream.cc:26-34 | the bytes sent are those the read position moves over |
| Transport.SocketRead | src/Stream/SocketStream.cc:14-22 | the bytes received appear at the write position, which moves behind them |
| Transport.WriteFixSize | src/Stream.cc:39-47 | however short the sends are, the bytes sent are the next ones in order, and len of them unless the array ends or a call fails |
| Transport.ReadFixSize | src/Stream.cc:17-25 | however short the receives are, the bytes arrive in order, and len of them unless the stream ends or a call fails |
| Transport.Transfer | src/Stream.cc:17-47 | between two arrays of any block sizes exactly the next len bytes are moved, in order, and nothing is left in the connection |
| Events.InitialValid | src/IOManager.cc:47-66 | a new manager satisfies the invariant |
| Events.AddEventValid | src/IOManager.cc:79-120 | addEvent keeps kernel mirror, context discipline and pending count; its assertion never fails; the access is out of bounds exactly for fd == size |
| Events.DelEventValid | src/IOManager.cc:122-157 | delEvent keeps the invariant, whatever the kernel refuses |
| Events.CancelEventValid | src/IOManager.cc:160-194 | cancelEvent keeps the invariant |
| Events.CancelAllValid | src/IOManager.cc:197-235 | cancelAll keeps the invariant and leaves no event of the descriptor registered |
| Events.DispatchValid | src/IOManager.cc:314-352 | dispatch keeps the invariant, and its assertion fails exactly when an unregistered event is reported together with a registered one and the kernel call succeeds; whom it wakes is DispatchWakes |
| Events.TriggerAllWakes | src/IOManager.cc:32-45 | triggering registered events queues their waiters, READ first, each as its fiber or else its callback, clears their registrations and counts them off |
| Events.AddRegisters | src/IOManager.cc:79-120 | a successful addEvent registers the callback, or else the running fiber, for just this event; every other registration, and the queue, stay |
| Events.DeleteForgets | src/IOManager.cc:122-157 | a successful delEvent takes one registration out and queues nobody |
| Events.CancelWakes | src/IOManager.cc:160-194 | a successful cancelEvent takes one registration out and queues its waiter |
| Events.CancelAllWakes | src/IOManager.cc:197-235 | a successful cancelAll takes every registration of the descriptor out and queues the waiters, READ first |
| Events.DispatchWakes | src/IOManager.cc:314-352 | for every report within the registered events, an error standing for all of them, and a kernel call that succeeds: the queue grows by exactly the waiters of the hit events, READ first, these registrations are gone, the others kept, and pending drops by their number |
| Events.BatchWakes | src/IOManager.cc:305-352 | a batch of reports queues, entry by entry, exactly the waiters of what is reported |
| Events.WatchedEventsAreSafe | src/IOManager.cc:314-352 | a report of what the kernel was told to watch never trips the assertion |
| Events.StaleReportFails | src/IOManager.cc:329-351 | cancelling one of two reported events before they are dispatched makes the assertion fail |
| Events.BatchSafe | src/IOManager.cc:305-352 | a whole batch of reports is dispatched without tripping and keeps the invariant |
| Events.RunValid | src/IOManager.cc:79-352 | over every run, including failing kernel calls, the kernel watches exactly the registered events, and the pending count is the number of registrations, each with one fiber or callback |
| Events.FdContext.TriggerEvent | src/IOManager.cc:32-45 | the fiber, or else the callback, leaves its context for the queue |
| Events.IOManager.AddEvent | src/IOManager.cc:79-120 | the method does to the objects what the model says, keeps the invariant, and runs out of bounds exactly for fd == size |
| Events.IOManager.DelEvent | src/IOManager.cc:122-157 | the method forgets the waiter of the objects as the model says, and keeps the invariant |
| Events.IOManager.CancelEvent | src/IOManager.cc:160-194 | the method queues the waiter as if the event had happened, and keeps the invariant |
| Events.IOManager.CancelAll | src/IOManager.cc:197-235 | the method queues both waiters; on success no event of the descriptor is registered |
| Events.IOManager.DispatchAll | src/IOManager.cc:305-352 | the dispatch loop does what the model says for any batch, up to the entry on which the assertion fails, if there is one; so it queues the tasks of BatchWakes |
| Events.IOManager.ResizeContext | src/IOManager.cc:359-367 | the new contexts are fresh and distinct, the old ones are kept |
| Timers.Ordered | src/Timer.cc:5-20 | in the set every timer comes strictly before every later one |
| Timers.FindExact | src/Timer.cc:32-35 | searching by due time and address finds exactly the timers in the set |
| Timers.InsertSorted | src/Timer.cc:84-89 | inserting keeps the order, adds just the timer, and places it first exactly when no other falls due before it |
| Timers.AddedValid | src/Timer.cc:78-95 | a new timer is due one period from now, modulo 2^64, and a notification is asked for exactly when it is the first and the flag is clear |
| Timers.RefreshedValid | src/Timer.cc:27-41 | refresh succeeds exactly while the timer has its callback and makes it due one period from now |
| Timers.WithResetValid | src/Timer.cc:57-72 | reset keeps the timers of the set and the order, and changes only the times of its timer |
| Timers.CancelledValid | src/Timer.cc:43-55 | cancel succeeds exactly while the timer has its callback, and takes it out of the set |
| Timers.FirstIsEarliest | src/Timer.cc:107-120 | the first timer of the set is the first to fall due |
| Timers.NextTimerIs | src/Timer.cc:107-120 | getNextTimer gives the time until the timer that falls due first, 0 if one is due, and all ones if there is none |
| Timers.FireValid | src/Timer.cc:145-155 | a repeating timer of the batch is back in the set, due at (now + ms) % 2^64 and otherwise unchanged; a one-shot timer is out and has lost its callback, and nothing else; no other timer changes |
| Timers.FireCalls | src/Timer.cc:145-148 | the callbacks handed out are those of the batch, in order |
| Timers.ExpiredValid | src/Timer.cc:122-158 | expiry keeps the order and every timer except the one-shot timers of the batch; each timer of the batch is re-armed or spent as in FireValid |
| Timers.WhatExpires | src/Timer.cc:139-143 | the batch reaches one timer behind the search key, and the iterator passes the end exactly when there is none |
| Timers.ExpiryExact | src/Timer.cc:122-158 | exactly the due timers expire if and only if there are none, or the clock has not jumped back and exactly one timer is due in this very millisecond with an address above the search key |
| Timers.ExpiryExactForCallers | src/Timer.cc:122-158 | whatever the address of the search key, exactly the due timers expire if and only if none is due |
| Timers.ExpiryFails | src/Timer.cc:140-143 | two inputs: a timer that is not due expires, and the iterator passes the end |
| Timers.ExpiredIsTaken | src/Timer.cc:122-158 | an expiry of the code that stays inside the set takes the first timers of the set, so that the theorems about runs cover it |
| Timers.DueAreFirst | src/Timer.cc:139-143 | the due timers are the first ones of the set, so that the theorems about runs cover the expiry that is meant |
| Timers.RunValid | src/Timer.cc:5-168 | over every run, where an expiry may take any number of timers from the front, the set stays strictly ordered and holds every timer that has its callback; a timer that is out never expires again |
| Timers.CancelIsFinal | src/Timer.cc:43-55 | a timer whose cancel returned true is in no later batch |
| Timers.OneShotOnce | src/Timer.cc:145-155 | over every run a one-shot timer expires at most once |
| Timers.UntouchedStays | src/Timer.cc:5-168 | over every run a timer that is neither changed nor in a batch stays in the set as it is |
| Timers.EveryPeriod | src/Timer.cc:145-155 | a repeating timer that expired at time `now` and was then left alone over any run is in a later batch of exactly the due timers if and only if that batch is taken at now + ms or later; it keeps its callback |
| Timers.TimerManager.NewTimer | src/Timer.cc:78-95 | a new object enters the set of the manager as the model says, and no other object changes |
| Timers.TimerManager.Refresh | src/Timer.cc:27-41 | the timer object is taken out, changed and put back as the model says; only its fields change |
| Timers.TimerManager.Reset | src/Timer.cc:57-72 | the timer object gets its new period and due time while it is out of the set |
| Timers.TimerManager.Cancel | src/Timer.cc:43-55 | the timer object loses its callback and leaves the set |
| Timers.TimerManager.GetNextTimer | src/Timer.cc:107-120 | the flag is cleared and the time until the first timer returned |
| Timers.TimerManager.DetectClockRollover | src/Timer.cc:161-168 | the clock counts as set back when it is more than an hour behind, or behind at all in the first hour of its range; otherwise the time is noted |
| Timers.TimerManager.ListExpiredCb | src/Timer.cc:122-158 | the search, the batch and the loop over it do what the model says, and pass the end exactly when the model does; what becomes of each timer of the batch is ExpiredValid |
| TimerWakeup.TimeoutExact | src/IOManager.cc:278-286 | the timeout is the time until the first timer as a 32-bit int, at most a minute, and a minute without timers; so it never exceeds that time, and is endless exactly when bit 31 of it is set |
| TimerWakeup.ChangeKeeps | src/Timer.cc:84-95 | a change of the timers that asks for no notification while the flag is clear lets no timer fall due earlier |
| TimerWakeup.NoLostWakeup | src/IOManager.cc:242-294 | in every reachable state, whatever the expiries took: while the thread sleeps until d, every timer falls due at d or later, or the eventfd has been written, or somebody is on the way to write it |
| TimerWakeup.PostArrives | src/IOManager.cc:242-253 | whoever is on the way while the thread sleeps does write |
| TimerWakeup.EndlessSleep | src/IOManager.cc:278-286 | the sleep is endless exactly when bit 31 of the time until the first timer is set |
| Scheduler.ScanConserves | src/Schedule1.cc:78-95 | a scan takes at most one valid task and loses none of the others |
| Scheduler.FirstIsTaken | src/Schedule1.cc:78-95 | behind entries that are empty or pinned to other threads, the first task whose thread is -1 or this one is taken; all the others keep their order, without the empty ones in front |
| Scheduler.NothingTaken | src/Schedule1.cc:78-95 | from a queue of tasks that are all pinned to other threads nothing is taken |
| Scheduler.TaskQueue.Take | src/Schedule1.cc:71-96 | the first task unpinned or pinned to this thread is taken, invalid entries in front of it are removed, all the others keep their order, and notification is asked for exactly when any are left |
| Scheduler.TaskQueue.AddFiberPtr | src/Schedule1.h:117-125 | an empty variable is refused; otherwise its fiber is queued and the variable is empty afterwards |
| Scheduler.TaskQueue.AddCbPtr | src/Schedule1.h:128-136 | an empty variable is refused; otherwise its callback is queued and the variable is empty afterwards |
| Scheduler.TaskQueue.PushTasks | src/Schedule1.h:30-41 | the callbacks are queued in order, and notification is asked for exactly if there are any |
| Scheduler.RoundBalanced | src/Schedule1.cc:71-146 | one round of the loop accounts for what it takes, and leaves the callback fiber free |
| Scheduler.ParkedUntouched | src/Schedule1.cc:115-132 | a parked fiber keeps its state and its callback unless the round resumes it: the fiber that is reset and reused is never a parked one |
| Scheduler.FiberIsRun | src/Schedule1.cc:133-146 | a round runs the fiber of the first such task: it is held with its callback if it yields and finished otherwise, and no other fiber changes |
| Scheduler.CallbackIsRun | src/Schedule1.cc:115-132 | a round runs the callback of the first such task on the callback fiber or a new one, which is given up if it yields and kept, empty, otherwise |
| Scheduler.PinnedStays | src/Schedule1.cc:78-95 | no round takes a task that is pinned to another thread |
| Scheduler.PinnedWaits | src/Schedule1.cc:71-146 | over every run in which the thread that owns a parked fiber does not work, the fiber stays as it is, whatever the other threads do |
| Scheduler.RunBalanced | src/Schedule1.cc:71-146 | over every run, valid tasks pushed = finished + held + dropped as terminated + still queued |
| Scheduler.Fiber.SwapIn | src/Fiber1.cc:117-123 | a switch ends with the fiber held in the middle of its callback, or finished and without callback |
| Scheduler.WorkerThread.WorkOnce | src/Schedule1.cc:71-146 | one round does to queue, fibers and callback fiber what the model says |
| Scheduler.WorkerThread.Settle | src/Schedule1.cc:128-132 | after its callback the fiber is reset and kept if it finished, and given up if it is held |
| Hook.Retry | src/Hook.cc:106-155 | the last answer of the system call is the result, unless it asks to wait: then the last wait was refused, or it timed out and the result is ETIMEDOUT; every answer before was an interruption or asked to wait, with one wait for each of the latter |
| Hook.DoIo | src/Hook.cc:86-155 | a closed descriptor fails with EBADF; only open sockets that the user left blocking, with the hook on, go through the loop, with the results of Retry; all other calls go straight to the system |
| Hook.TimersPaired | src/Hook.cc:122-150 | replayed in order, the actions of any waits arm a timer only when none is armed, register and park only under it when the call has a timeout, and leave none armed |
| Hook.WaitsCounted | src/Hook.cc:119-152 | the call registers once for each wait, parks once for each wait that was not refused, and arms and disarms one timer for each if it has a timeout |
| Protocol.TriggerHeld | src/IOManager.cc:32-45 | a trigger moves the waiting fiber from its registration to the queue and changes no other source |
| Protocol.AddHeld | src/IOManager.cc:107-119 | a successful addEvent makes the running fiber a source of itself |
| Protocol.ParkInv | src/Hook.cc:135-142 | a fiber that parks in do_io has its registration as its only source |
| Protocol.SleepInv | src/Hook.cc:168-183 | a fiber that sleeps has its timer as its only source |
| Protocol.ResumeInv | src/Hook.cc:142-152 | a resumed fiber was parked, and has no source from then on; its own timer is cancelled |
| Protocol.CallInv | src/Hook.cc:126-134 | the callbacks of sleeps, timeouts and users keep the invariant, also late ones of earlier waits and calls; that a timeout wakes its fiber is WakeUps.TimeoutTaken |
| Protocol.ExpireInv | src/Timer.cc:122-158 | what an expired timer held is held by the queue |
| Protocol.StepInv | src/Hook.cc:86-212 | every step of the protocol keeps the invariant |
| Protocol.ExactlyOneHolder | src/Hook.cc:103-152 | in every reachable state a parked fiber is held by exactly one armed event, sleep timer, queued sleep callback or queue entry, and a fiber that runs or has finished by none |
| Protocol.WatchedByKernel | src/IOManager.cc:98-108 | an event a fiber waits for is watched by the kernel |
| Protocol.ResumesParked | src/Schedule1.cc:133-146 | a fiber taken from the queue is parked: none is dropped as finished, none is switched to while it runs |
| Protocol.TimeoutIsOwn | src/Hook.cc:126-150 | do_io reports ETIMEDOUT only if a timer of that call has expired |
| Protocol.CallsStartClean | src/Hook.cc:104 | a new call starts without ETIMEDOUT and without any timer of its own |
| Protocol.KindsStay | src/Hook.cc:124-134 | a callback never changes what it does |
| Protocol.TimersBelongToCalls | src/Hook.cc:124-134 | a callback becomes the timeout of a call only by being armed as a timer in that very call |
| Protocol.OnlyTimersExpire | src/Timer.cc:122-158 | a callback counts as expired only when it was taken from the live timers |
| Protocol.TimersDisarmed | src/Hook.cc:124-150 | in every reachable state a live timeout timer has exactly one fiber in its call, and that fiber is parked with it: a call that runs on or has returned, on whatever way, has left no timer armed |
| Protocol.TimeoutHistory | src/Hook.cc:124-150 | whenever do_io is about to report ETIMEDOUT, the run holds the step that armed a timer in that very call and, later, the step in which it expired |
| Protocol.StoppingStrandsNothing | src/IOManager.cc:255-259 | whenever CanStop holds, every fiber has finished, no event is registered and the kernel watches nothing |
| WakeUps.NobodyStranded | src/Hook.cc:135-142 | in every reachable state a fiber parked in do_io is registered, with the kernel watching, for the descriptor and event of its call, or it is in the queue |
| WakeUps.TaskIsTaken | src/Schedule1.cc:71-146 | a queued task is taken once the tasks in front of it have been, whatever else happens, and a parked fiber is still as it was unless it has been switched to before |
| WakeUps.ResumedFiber | src/Hook.cc:142-152 | a fiber that is switched to has cancelled its timer, and leaves its call if ETIMEDOUT is noted for it, or else tries again |
| WakeUps.TimeoutTaken | src/Hook.cc:126-134 | when the timeout callback of a call in which a fiber is registered comes to the head of the queue, ETIMEDOUT is noted; the fiber is the last entry of the queue and no longer registered if and only if the kernel does not refuse and ETIMEDOUT had not been noted before |
| WakeUps.LateTimeout | src/Hook.cc:126-131 | a timeout that comes when no fiber is in its call any more changes nothing |
| WakeUps.TimeoutEndsCall | src/Hook.cc:126-150 | after such a timeout the fiber is switched to behind the tasks that were queued before, and leaves its call, with its timer cancelled |
| WakeUps.ExpiredTimerActs | src/Hook.cc:126-150 | an expired timer of a parked call acts once the tasks in front of its callback have been taken: the fiber is switched to before, or ETIMEDOUT is noted and, with a willing kernel, the fiber queued |
| WakeUps.TimeoutsAreInTime | src/Hook.cc:126-150 | over every run with a kernel that never refuses, nobody stays registered in a call for which ETIMEDOUT is noted: every timeout takes effect |
| WakeUps.EventQueues | src/IOManager.cc:305-352 | a reported event, or an error, queues the fiber that is registered for it |
| WakeUps.EventEndsWait | src/Hook.cc:142-152 | that fiber is then switched to, and tries its call again unless ETIMEDOUT has been noted meanwhile |
| WakeUps.SleepEnds | src/Hook.cc:168-183 | a fiber whose sleep has expired is switched to and goes on |

## Left out

- The vector instructions of the parser (`findchar_fast`, SSE4.2): the portable path is modelled.
- `phr_parse_response`, `HttpResponseParser` and `HttpConnection`: they add no other kind of property, and the body arithmetic of `recvResponse` presumes a parser that shifts the buffer.
- The address parser `Uri`, `UrlDecode`, cookies and parameters, servlets, `TcpServer`, configuration and logging: plumbing, or generated tables.
- `std::stoll` on the content length is an arbitrary function of the header text.
- The overhead limit of the chunked decoder is tested at the end of each call, so where it trips depends on where the calls are cut; split invariance is about the decoder and not about that limit. Each call is modelled with the limit, and `Chunked.LimitOnFraming` says what the account is after any pieces.
- `Dump` for websocket requests is modelled, but the round trip is stated for requests that are not, as the connection line is missing there.
- Header lines that continue the previous one are passed on with an empty name, as `execute` does; their folding into the value is not modelled because the code does not do it.
- Bytes that were over-read behind the body are lost by `recvRequest`; the contract of `RecvRequest` says where the stream continues.
- Floats, file input and output, `toString` and `toHexString` of `ByteArray`, and the variant of `getReadBuffers` with a position.
- The number of blocks in `addCapacity` is computed with `ceil` on a double; the model divides exactly.
- Writes through null pointers, allocation failure, and the 64-bit limits of sizes other than those named in the contracts.
- Transport.ReadFixSize: does not say which bytes were received when a call fails, beyond that they are a beginning of the stream in order.
- System calls, the clock and thread scheduling are steps of the environment; sections under a lock are atomic.
- The set operations of the C++ library are modelled by their order and not by a red-black tree; a search is a scan.
- Addresses of timers are not used again after a timer is gone.
- In `TimerWakeup` the deadline counts from the moment the clock was read, not from when `epoll_wait` begins; one thread idles.
- In `Protocol` there is one scheduler thread, so that an event cannot fire between registering it and parking; expiry may take any timer at any time; `delEvent` on an event a fiber waits for, and queueing any fiber but a new one or the running one that then yields, are excluded.
- Closing a descriptor without `cancelAll` removes it from the kernel's interest set; that removal is not modelled.
- `ucontext` stacks and their reuse, the root fiber of the main thread, and starting and joining threads.
- The test-only `Idle` of the base scheduler.
