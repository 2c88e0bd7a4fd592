# Verified model of an HTTP/1.1 server

armature-h1 is a thread-per-core HTTP/1.1 server. This project models the parts of it
that decide where one message ends and the next begins, and the protocol by which its
worker threads place connections, and proves what they promise. Verify everything with
`dafny verify dfyconfig.toml`.

## What is modelled

**Requests.** A connection keeps a read buffer with a resumable search for the end of a
request head (`HeadScan`). It splits the head off, decides the framing (`Framing`,
`FramingRules`, `Target`), and lends the buffer to a body (`Body`), which takes exactly
its own octets and gives back what it over-read. Chunked bodies go through an incremental
decoder (`Chunked`, `ChunkExt`), which reads a body exactly when the stream starts with a
chunked-body of RFC 9112 section 7.1 (`ChunkedGrammar`). `ChunkedSplit` and
`RequestStream` prove that what handlers see does not depend on how the input was split
into reads, and say exactly where it does; and that whatever handlers do with bodies, no
body octet is ever taken for a request. `Messages` says the same by the grammar: a stream
made of well-formed messages is taken off message by message.

**Responses.** Handler-supplied fields are filtered and one framing field is chosen
(`ResponseHead`, `ResponseFraming`; the code that does it is `ResponseWriter`). Bodies are
written as they are, in chunks (`ChunkCodec`), or not at all (`ResponseStream`), and go out
through a buffer beside a possibly half-written `100 Continue` under short writes
(`Interim`). A reader that follows section 6.3 of RFC 9112 recovers what was sent, from one
response, from a run of them, and from what a completed run put on the wire, an error
response at its end included; of a stream that broke off it can tell so, except on
HTTP/1.0.

**Both.** `Pipelining` is the loop over both streams: requests taken off the one, and
responses, some held back for the next, put on the other. Whenever it waits, every octet
of a finished response has been written.

**Workers.** `Balance` is the choice of a worker for a connection, one call at a time;
`WorkerProtocol` is every interleaving of the atomic steps of any number of workers:
compare-and-swap, handoff, retirement, drain. `WorkerProgress` shows what a worker can
always do from there, by itself: serve what is queued, place what it holds, stop.
`WorkerRuns` shows what goes wrong outside its assumptions, by runs in which every
connection goes where `Balance` sends it.

**Deadlines.** `Deadline` is the cached timer that stands for an eager one.

`Octets`, `Numerals`, `Headers`, `FieldLines` and `HeadLines` hold what these share.
`Spelling` and `Alphabets` write the letters, digits and classes of octets out, so that case
folding, hexadecimal and every character test are held to the alphabets themselves, and
`HeadByName` says what a response head states by the names and words on the wire.

## How the source is rendered

- An octet is a `char`; no code above 0xFF is given a meaning of its own.
- A transport is the list of reads it will deliver, then end of stream. A poll that would
  block changes nothing and is left out, except where it separates two partial writes
  (`Interim`) or makes the loop wait (`Pipelining`).
- `usize` and `u64` values are unbounded numbers with the source's overflow tests written
  out; worker counts are integers shown never to wrap.
- A header name is `Known` or `Other`, as in the source; the 33 known names are one enum.
- The request-head tokenizer, the handler, the date and the reason phrases are parameters:
  any function from head octets to a request or a status, any date and phrase without line
  breaks. A handler may take any number of pieces of a body, then gather the rest up to any
  cap, and let the connection persist or not, each as any function of everything that went
  before.
- `hide` statements in proofs only limit what the solver looks at.

## Where the code does not do what it says

Each exception is stated exactly: the property is proved outside the case named, and the
case is proved to break it.

- `src/chunked.rs:334-341` says a size line's verdict cannot depend on how it was split.
  It does for content of exactly 272 octets when a read ends between its CR and its LF,
  unless the line is the last chunk's and the trailer section after it is refused anyway
  (`ChunkedSplit.SplitInvariance`, `ChunkedSplit.CutExhibited`,
  `RequestStream.RequestsRefine`).
- A head over its size limit is not refused when all of it was buffered before the peer
  stopped; and with a limit of zero a stray CRLF read octet by octet is refused
  (`HeadScan.HeadVerdict`, `HeadScan.ExceptionsExhibited`).
- An empty piece of a streamed body ends the body on the wire
  (`ResponseStream.ResponseReadsBack`, `ChunkCodec.RoundTrip`).
- A trailer value with a control octet is written but not read back
  (`ChunkCodec.RoundTrip`, `ChunkCodec.TrailerRefusalExhibited`).
- `src/conn.rs:1060-1076` closes after a stream that failed, without a last chunk, to say
  that it failed. It says so unless a piece was empty, and on HTTP/1.0, where every body
  ends in a close, it says nothing (`ResponseStream.BrokenOffReads`).
- A cap above half the retirement mark lets a retired worker be reserved again
  (`WorkerRuns.LargeCapBreaks`, `WorkerRuns.BoundIsExact`).
- A worker that dies before it starts loses what was already handed to it
  (`WorkerRuns.LossExhibited`); every way of losing is named, for a step
  (`WorkerProtocol.LossIsExactly`) and for a run (`WorkerProtocol.NothingLostIff`).
- A duration past 64 bits of nanoseconds is shortened by rounding
  (`Deadline.RoundUpNeverShortens`).

## Model

| member | source | states |
|---|---|---|
| `ChunkExt.AcceptsExactly` | src/chunked.rs:433-491 | the chunk-extension recogniser accepts a string exactly when it derives from the chunk-ext grammar of RFC 9112 section 7.1.1 with bad whitespace, trailing whitespace, quoted pairs and obs-text |
| `ChunkExt.GrammarAccepted` | src/chunked.rs:433-491 | completeness: everything the grammar derives is accepted |
| `ChunkExt.AcceptedDerives` | src/chunked.rs:433-491 | soundness: everything accepted has a derivation |
| `ChunkExt.CheckChunkExt` | src/chunked.rs:433-491 | the loop terminates and answers as the recogniser does |
| `ChunkExt.ScanQuoted` | src/chunked.rs:448-468 | the quoted-string scan ends just past the closing quote, or fails when there is none or an octet is not allowed |
| `Chunked.LineVerdict` | src/chunked.rs:344-366 | a line is found exactly where the first LF ends one within the bound, more input is asked for exactly while there is no LF and one can still fit, and a refusal names a missing CR or a line too long |
| `Chunked.Next` | src/chunked.rs:156-249 | every turn of the decoder stays within its buffer and makes progress unless it starves |
| `Chunked.EventsAreFull` | src/chunked.rs:156-249 | no event is empty: no piece without data, no trailer section without a field |
| `Chunked.ParseSizeLine` | src/chunked.rs:373-420 | a size line is parsed to the value of its digits, leading zeros free of charge, with overflow and bad extensions refused |
| `Chunked.SizeOfDigits` | src/chunked.rs:401-419 | digits give their value, refused exactly when it exceeds 64 bits |
| `Chunked.SumDigits` | src/chunked.rs:406-419 | the digit loop gives the value of the digits or reports that it does not fit |
| `Chunked.LeadingZeros` | src/chunked.rs:391-404 | dropping leading zeros keeps the value |
| `Chunked.SizeCaseIgnored` | src/chunked.rs:406-412 | size lines whose digits differ in case alone are read alike |
| `Chunked.ChunkedDecoder.Poll` | src/chunked.rs:156-249 | one poll of the decoder object is one poll of the state machine: fields, event and buffer |
| `Chunked.ChunkedDecoder.PollTurn` | src/chunked.rs:157-248 | one turn of its loop is one turn of the state machine |
| `Chunked.ChunkedDecoder.PollSize` | src/chunked.rs:166-192 | the size-line arm: line, size, running limit, next state |
| `Chunked.ChunkedDecoder.PollTrailers` | src/chunked.rs:220-247 | the trailer arm: byte budget, field rules, end of section |
| `ChunkedSplit.DrainIsPolling` | fuzz/fuzz_targets/chunked.rs:42-99 | running the decoder over a buffer is polling it again and again, each poll contributing its event |
| `ChunkedSplit.DrainExtends` | src/chunked.rs:344-366 | off a cut, extending a buffer only continues the run over it |
| `ChunkedSplit.CutDiffers` | src/chunked.rs:350-360 | at a cut, the split run fails where the whole stream delivers more |
| `ChunkedSplit.SplitInvariance` | fuzz/fuzz_targets/chunked.rs:42-99 | any segmentation gives the body, trailers, outcome and tail of the stream read whole, exactly when no read ends between the CR and LF of an accepted size line of 272 octets, the last chunk's excepted where the trailer section after it is refused anyway |
| `ChunkedSplit.CutExhibited` | src/chunked.rs:350-360 | a concrete size line that is accepted whole and refused when split |
| `ChunkedGrammar.ReadsTheGrammar` | src/chunked.rs:156-366 | a stream is read to the end of a body, with these data, these trailer fields and this tail, exactly when it is a chunked-body of RFC 9112 section 7.1 that carries them, within the limits, followed by the tail |
| `ChunkedGrammar.SizeLineIff` | src/chunked.rs:373-420 | a line is a size exactly when it is hexadecimal digits of that value and a chunk extension |
| `ChunkedGrammar.BodyDerived` | src/chunked.rs:156-249 | every stream read to the end of a body has a derivation |
| `ChunkedGrammar.BodyRead` | src/chunked.rs:156-249 | every derivation within the limits is read, and gives its data, its fields and its tail |
| `ChunkedGrammar.TooLargeIff` | src/chunked.rs:177-184 | a body is refused for its size, with 413, exactly when the stream starts with chunks within the limit and then announces one past it |
| `Numerals.NumeralRoundTrip` | src/write.rs:142-156 | writing a number and parsing it back is exact for every 64-bit value and refused above, in both bases |
| `Numerals.ValueNumeral` | src/framing.rs:400-412 | a decimal text is what its value is written as exactly when it has no leading zero |
| `Numerals.WriteU64` | src/write.rs:142-156 | the digit loop appends the decimal numeral of any 64-bit value within its 20-digit scratch |
| `Numerals.WriteHex` | src/write.rs:664-678 | the digit loop appends the hexadecimal numeral of any 64-bit value within its 16-digit scratch |
| `Numerals.ParseContentLength` | src/framing.rs:400-412 | the fold gives the value of a non-empty digit string that fits 64 bits, and nothing else |
| `ChunkCodec.WriteChunk` | src/write.rs:617-622 | a chunk is its size in hexadecimal, CRLF, its data, CRLF |
| `ChunkCodec.WriteLastChunk` | src/write.rs:633-661 | the last chunk and exactly the trailer fields that may be sent, in order |
| `ChunkCodec.SendableIff` | src/write.rs:633-661 | a trailer field is sent exactly when it can be written and its name, however built, is not one barred from trailers |
| `ChunkCodec.PollStaysBounded` | src/chunked.rs:177-205 | octets decoded and octets promised never exceed the body limit together |
| `ChunkCodec.DrainChunks` | src/write.rs:617-622 | decoding written chunks delivers their concatenation, refused exactly when past the limit |
| `ChunkCodec.DrainTrailers` | src/write.rs:633-661 | decoding written trailers delivers them, refused exactly when they do not fit the decoder |
| `ChunkCodec.EmptyChunkEnds` | src/write.rs:617-622 | an empty chunk is written as a last chunk without trailers |
| `ChunkCodec.RoundTrip` | src/write.rs:617-661 | decoding what was written yields the chunks and the sent trailers and leaves what follows, exactly when no chunk is empty and the limits and control-octet rule are met |
| `ChunkCodec.TrailerRefusalExhibited` | src/chunked.rs:273-332 | a trailer field with a control octet that is written and that every decoder refuses |
| `Headers.Found` | src/header.rs:163-222 | a lower-case name is only ever matched to the well-known field it spells |
| `Headers.LooksItselfUp` | src/header.rs:163-222 | every well-known name is found under its own spelling |
| `Headers.KnownName` | src/header.rs:225-262 | every well-known name is a lower-case token that is looked up as itself |
| `Headers.CanonicalReadsBack` | src/header.rs:131-142 | a canonical name is what its own spelling reads back as |
| `Headers.FromBytesIff` | src/header.rs:163-222 | a name is taken for a well-known one exactly when it spells it letter by letter, in whatever case |
| `Headers.CaseIsIgnored` | src/header.rs:155-222 | names that differ in case alone are taken for the same |
| `Headers.CanonicalIff` | src/header.rs:125-142 | a handler's field is judged to be a well-known one exactly when its name, however built, spells it |
| `Headers.ForbiddenIff` | src/header.rs:283-298 | no trailer field may have one of eleven names, written out, in whatever case; any other may be sent |
| `Headers.NamesTokenIff` | src/header.rs:381-386 | a list field names a token exactly when some trimmed element of some value spells the word, in whatever case |
| `Spelling.SpellsIsFold` | src/header.rs:155-170 | folded strings are equal exactly when they are letter by letter the same letters of the two alphabets |
| `Spelling.DigitsAre` | src/chunked.rs:406-412 | the digits of both bases, in both cases, against the digit strings themselves: what each denotes, how each is written, and that nothing else is one |
| `Spelling.SameValue` | src/chunked.rs:406-412 | the case of its digits makes no difference to a hexadecimal numeral |
| `Alphabets.ControlIs` | src/chunked.rs:310-314 | the octets a trailer value may not hold are the 32 controls but for the tab, and they are exactly those a quoted pair may not escape |
| `Alphabets.TokenOctets` | src/header.rs:358-377 | what a token is made of, written out |
| `Alphabets.UriOctets` | src/parse.rs:313-339 | what schemes, registered names, bracketed addresses and targets are made of, written out |
| `FieldLines.ContentOfWritable` | src/write.rs:307-331 | a writable field is one unbroken line whose first colon ends its name and whose trimmed rest is its value |
| `FieldLines.WritableIff` | src/write.rs:307-331 | a field can be written exactly when its name is a token and its value holds no CR, LF or NUL |
| `HeadLines.Prescan` | src/parse.rs:99-126 | succeeds exactly when every CR and LF belong to a CRLF that no fold follows; what is reported is decided by the first bad CR, or is a bare LF when every CR is good |
| `HeadLines.StrictIff` | src/parse.rs:99-126 | the scan passes exactly what is made of unbroken lines, each ended by CRLF, none but the first beginning with whitespace |
| `HeadLines.BlockIsHead` | src/parse.rs:91-126 | a block of unbroken lines passes the scan and ends at its first empty line |
| `HeadLines.ReadsFields` | src/parse.rs:207-260 | reading the written field lines yields each name interned and each value trimmed, in order |
| `HeadLines.HeadReadsBack` | src/parse.rs:91-126 | a head of any writable fields passes the scan, ends exactly at its first CRLFCRLF and reads back whole, whatever follows |
| `HeadScan.StripAppend` | src/conn.rs:803-825 | stripping blank lines before or after more input arrives is the same |
| `HeadScan.HeadEndAppend` | src/parse.rs:91-93 | a found end stays; an end found later lies past what was searched |
| `HeadScan.ResumeFinds` | src/conn.rs:826-836 | searching from three octets before the cursor finds what searching from the front would |
| `HeadScan.IoState.ReadMore` | src/conn.rs:126-146 | one read is appended and disturbs neither cursor nor remembered end |
| `HeadScan.IoState.PollFill` | src/conn.rs:150-164 | one read is handed over and the buffer is as it was |
| `HeadScan.IoState.TakeBuffered` | src/conn.rs:166-171 | at most the asked-for octets are taken off the front |
| `HeadScan.IoState.PushBack` | src/conn.rs:173-199 | octets given back precede what is buffered |
| `HeadScan.IoState.CountBlank` | src/conn.rs:811-821 | the octets counted are exactly the leading whole CRLFs |
| `HeadScan.IoState.HasCompleteHead` | src/conn.rs:803-836 | true exactly when the stripped buffer holds a terminator, with the end where a plain search finds it |
| `HeadScan.IoState.ReadUntilHead` | src/conn.rs:690-772 | waits, refuses and gives up as the function of the buffer and the reads does |
| `HeadScan.HeadVerdict` | src/conn.rs:767-770 | head, rest and 431 are those of the stream read whole, exactly when a read was made or the limit kept, and the limit is not zero with a CRLF split |
| `HeadScan.HeadIff` | src/conn.rs:767-836 | the head of a stream is taken exactly where the stream is some empty lines, a head within the limit that begins with none of them and ends at its first empty line, and the rest |
| `HeadScan.ExceptionsExhibited` | src/conn.rs:690-772 | both exceptions, concretely |
| `Target.ValidateTarget` | src/parse.rs:301-343 | accepts exactly the non-empty strings the grammar gives: target characters and complete percent-encodings, one after the other |
| `Target.TargetGrammar` | src/parse.rs:301-343 | the test made at every position of a target is the grammar's |
| `Target.Head.SetTarget` | src/head.rs:117-121 | the cached indices are those of the new target and nothing else changes |
| `Target.Head.ReassemblesExactly` | src/head.rs:166-259 | after any setting, scheme, authority, path and query put together are the target |
| `Target.Head.PathIsRooted` | src/parse.rs:344-353 | an accepted target other than CONNECT or asterisk has a path that begins with a slash |
| `Target.FormsAgree` | src/parse.rs:370-407 | the validator and the splitter agree on what absolute-form is |
| `Target.TunnelForm` | src/parse.rs:370-407 | a CONNECT target is accepted exactly when it has a colon, is not rooted and holds no scheme mark |
| `Target.AuthorityShape` | src/head.rs:71-85 | the authority span follows `scheme://` and stops at the first slash, query or fragment mark, before any query |
| `Target.AbsoluteForm` | src/head.rs:71-85 | a scheme and an authority are found exactly where the target is `scheme "://" authority rest` |
| `Target.Head.AuthorityIs` | src/head.rs:211-253 | a request is addressed to the authority of its absolute-form target, to its CONNECT target, or else to what its first field named host says |
| `Target.Head.QueryIsAll` | src/head.rs:166-174 | the path ends before the first question mark, and there is a query exactly if there is one |
| `Framing.ValidRegName` | src/framing.rs:206-263 | accepts exactly the reg-name grammar of RFC 3986 section 3.2.2 |
| `Framing.ParsesAuthority` | src/framing.rs:168-202 | an authority parses to a host and port exactly when it is `uri-host [":" port]` with them |
| `Framing.IpLiteralIff` | src/framing.rs:168-202 | a bracketed host is brackets around at least one address character, and nothing else |
| `Framing.StripOws` | src/framing.rs:421-429 | strips SP and HTAB from both ends and nothing else |
| `Framing.CountFields` | src/framing.rs:276-291 | the one walk counts Host fields and sees which framing fields are present |
| `Framing.CollectCodings` | src/framing.rs:319-335 | the non-empty codings of all fields in wire order, or a refusal exactly when a value is not ASCII |
| `Framing.AgreedLength` | src/framing.rs:364-381 | the nested loops give the length all elements agree on, or the first element's error |
| `Framing.DecideFraming` | src/framing.rs:275-392 | the decision procedure, statement by statement, is the decision function |
| `FramingRules.HostRulesExact` | src/framing.rs:95-159 | the Host checks succeed exactly when the Host rules hold, stated by the authority and absolute-form grammars, the words http and https and their ports |
| `FramingRules.FieldsRead` | src/framing.rs:276-305 | of a head as parsed, the decision reads exactly the values of the fields that spell host, content-length and transfer-encoding |
| `FramingRules.LengthIff` | src/framing.rs:364-388 | Length(n) exactly when no coding is named, every element of every list denotes n, n fits 64 bits and the limit, and the Host rules hold |
| `FramingRules.ChunkedIff` | src/framing.rs:306-362 | chunked exactly on HTTP/1.1 with no length and, empty elements aside, the single coding chunked |
| `FramingRules.NoBodyIff` | src/framing.rs:390-391 | no body exactly when neither field is present and the Host rules hold |
| `FramingRules.TooLargeIff` | src/framing.rs:383-388 | 413 exactly when the Host rules hold, no coding is named and all elements denote one 64-bit length past the limit |
| `FramingRules.UnsupportedIff` | src/framing.rs:306-362 | 501 exactly when the Host rules hold, no length is given, the version allows codings, all values are ASCII, chunked is named nowhere but last, and it is not all there is |
| `FramingRules.SwapFields` | src/framing.rs:275-392 | swapping neighbouring fields of different names changes neither verdict nor error |
| `FramingRules.MergeFields` | src/framing.rs:275-392 | merging repeated Content-Length or Transfer-Encoding fields into one comma list with any optional whitespace changes neither verdict nor error |
| `Body.LengthIsCut` | src/service.rs:517-571 | a body of known length is the first octets of the stream, and what it leaves is what follows |
| `Body.FeedLeavesTail` | src/service.rs:573-619 | a chunked body that ends leaves exactly what follows its encoding |
| `Body.FeedPoll` | src/service.rs:582-618 | one poll of the decoder takes its event off the front of what the body still delivers |
| `Body.PollLeavesSuffix` | src/chunked.rs:156-249 | a poll leaves a suffix of its input |
| `Body.PollMovesOn` | src/chunked.rs:156-249 | an event a poll produces has moved the decoder or its input on |
| `Body.Body.constructor` | src/service.rs:324-363 | a new body is unread unless it has no octets, and has taken none |
| `Body.Body.Fill` | src/service.rs:682-705 | one read joins the residue, with the connection buffer empty and every octet accounted for |
| `Body.Body.PollChunk` | src/service.rs:480-622 | the next piece, the end or a failure is the next of what the body delivers; every octet stays accounted for in order; a clean end leaves the connection exactly what follows |
| `Body.Body.PollLength` | src/service.rs:517-571 | the known-length arm, which never keeps an octet past its own |
| `Body.Body.PollChunked` | src/service.rs:573-619 | the chunked arm, which gives back what it over-read |
| `Body.Body.Deliver` | src/service.rs:529-555 | what is buffered is delivered up to what is owed and the rest goes back |
| `Body.Body.ReadWhile` | src/service.rs:480-622 | a handler that polls for as long as it likes has seen a prefix of the body, or all of it with its trailers, or the prefix and the failure; it was asked before each piece, and stopped exactly where it wanted no more or the body ended; what it did not poll is still ahead, and the body counts as read only at its clean end |
| `Body.Body.Collect` | src/service.rs:716-754 | the whole body, or TooLarge exactly when more than the cap arrives, before any later failure; a body over its cap counts as read exactly when it was of known length and ended in the overflowing piece, and then what follows it is left in place |
| `RequestStream.SameHead` | src/conn.rs:381-425 | the run and the reference take the same head or neither takes one |
| `RequestStream.SeenTellsCut` | src/service.rs:573-619 | what a handler sees tells a split chunked body from a whole one exactly at a cut |
| `RequestStream.SameBody` | src/service.rs:480-622 | a body of any kind delivers the same split or whole, off a cut |
| `RequestStream.RequestsRefine` | src/conn.rs:381-676 | under handlers that read a body to its end or leave it alone, over any split into reads they see exactly the heads and bodies a one-shot reading of the stream cuts off it, exactly when no chunked body they read has a read boundary on a cut |
| `RequestStream.DispatchedAreHeads` | src/conn.rs:628-657 | however much of each body handlers take or gather, and whatever they decide from what went before, the requests dispatched are a prefix, in order, of the heads the stream holds with every body taken whole |
| `RequestStream.OnlyPersistentContinue` | src/conn.rs:628-657 | what was seen of the body of every dispatched request but the last shows all of it taken; the request says to persist (on HTTP/1.1 no Connection element spells close, on HTTP/1.0 one spells keep-alive) and its response does: nothing is dispatched after a rejection, a body unread, read in part or failed, one over its cap unless its length was announced and it ended in the piece that was too much, or a closing request or response |
| `RequestStream.StopsForAReason` | src/conn.rs:628-657 | conversely, requests the stream still holds go undispatched only because the body of the last one dispatched was not all taken, its Connection elements say to close, or its response closes |
| `Messages.HeadsAreMessages` | src/conn.rs:381-676 | the requests a stream holds are those of the well-formed messages it is made of, one after the other, whatever empty lines stand between them, and then of what follows |
| `Messages.HoldsRequestIff` | src/conn.rs:381-432 | a stream holds a request exactly if it starts with a head within the limit that parses and whose framing can be decided |
| `Messages.AllServed` | src/conn.rs:381-676 | of a stream of messages that persist, handlers that read every body see every message in order, with exactly its data and trailer fields |
| `Messages.Delivered` | src/conn.rs:381-676 | so over any split of such a stream into reads, off the cuts, the loop delivers every message and nothing else |
| `RequestStream.KeepAliveIff` | src/head.rs:276-281 | a request persists exactly as the words of its Connection elements say |
| `RequestStream.CleanBodyIsWhole` | src/service.rs:480-622 | a body that ended cleanly, however it was split, is the body of the stream and leaves the stream's tail |
| `RequestStream.Serve` | src/conn.rs:381-676 | the loop over the real buffer and body objects behaves so under all handlers, and each sees of its body what it chose to see: requests are heads of the stream, each but the last with its body taken whole and both sides persisting, and it stops short of what the stream holds only for a reason named; under handlers that read all or nothing it logs exactly the run |
| `RequestStream.NextRequest` | src/conn.rs:381-432 | a head awaited, split off, parsed and framed is the next turn of the stream; with one buffered whole nothing is read |
| `RequestStream.ServeOne` | src/conn.rs:381-676 | one turn: the next request, dispatched, and whether the loop goes on |
| `RequestStream.Dispatch` | src/conn.rs:453-650 | one request: its body is made and lent, pieces of it polled, the rest gathered or left, and the body asked whether it was fully read, which what was seen decides but for a body over its cap; the loop goes on exactly if that was all of it, the request's own words say so and the response does |
| `RequestStream.TakePieces` | src/service.rs:480-622 | the pieces a handler polls, each wanted after those before it, show a prefix of the body, and whether they are all of it is what the body then reports |
| `RequestStream.GatherRest` | src/service.rs:712-754 | gathering the rest of a body shows it, or why not, and whether the body counts as read |
| `ResponseFraming.TokensThatPass` | src/write.rs:179-192 | an element of a Connection value passes exactly when it is a token other than the server's own and the framing fields' names |
| `ResponseHead.HeadIntegrity` | src/write.rs:409-614 | whatever the handler supplied, the head passes the strict scan, ends exactly at its first CRLFCRLF and reads back as its status line and exactly the surviving fields in order |
| `ResponseHead.EmittedWritable` | src/write.rs:538-613 | every field emitted is a token name with a value that cannot break its line |
| `ResponseWriter.WriteConnectionTokens` | src/write.rs:195-205 | a handler Connection field goes out token by token, or not at all |
| `ResponseWriter.WalkFields` | src/write.rs:451-482 | the one walk learns writability, the first framing values and their counts, as the wire will read them |
| `ResponseWriter.EmitField` | src/write.rs:539-573 | one field is written, filtered or dropped |
| `ResponseWriter.WriteFraming` | src/write.rs:581-601 | the writer's own framing field, when the handler framed nothing and the status allows one |
| `ResponseWriter.WriteHeadFor` | src/write.rs:409-614 | the code appends exactly the status line and the surviving and server fields |
| `ResponseWriter.WriteHead` | src/write.rs:381-397 | a stream on HTTP/1.0 costs the connection |
| `ResponseFraming.KeptLength` | src/write.rs:224-243 | a handler length that is kept is single, well-formed, unaccompanied and, where it frames, the body's |
| `ResponseFraming.KeptCoding` | src/write.rs:497-504 | a handler coding that is kept is single, ends in chunked, and frames a stream on HTTP/1.1 |
| `ResponseFraming.FramingIsTrue` | src/write.rs:451-601 | at most one framing field is written and it is true: the body's length, or chunked over a stream; none on 1xx and 204, at most a well-formed length on 304 |
| `ResponseFraming.ReceivedValues` | src/write.rs:538-613 | a reader finds under a known name exactly the trimmed values written under it |
| `ResponseFraming.JoinedTokens` | src/write.rs:195-205 | the tokens of a written Connection value are the tokens that passed |
| `ResponseFraming.PersistenceIsTrue` | src/write.rs:289-295 | a reader concludes exactly the server's decision on persistence and is never told to strip a framing field |
| `ResponseFraming.OtherFieldsUntouched` | src/write.rs:538-579 | under every name but the framing fields and Connection the values written are exactly the handler's writable ones, in order; a date only where there is none |
| `ResponseFraming.OtherTokensPass` | src/write.rs:179-205 | every other token of a handler's Connection fields reaches the wire, and no more |
| `HeadByName.FramingWritten` | src/write.rs:451-601 | exactly which fields named content-length and transfer-encoding a head carries, by any spelling a handler gave: its own if single and true, else the writer's, else none |
| `HeadByName.FramingIsTrue` | src/write.rs:451-601 | by those names, at most one framing field is written and it is true |
| `HeadByName.KeepsLengthIff` | src/write.rs:224-243 | a handler's length is kept exactly when it is the only one, well formed, unaccompanied, and the body's wherever there is a body to frame; on a HEAD or 304 any well-formed one is |
| `HeadByName.PersistenceIsTrue` | src/write.rs:285-295 | by the words under the name connection, a reader is told exactly the server's decision on persistence |
| `HeadByName.ConnectionWritten` | src/write.rs:539-613 | exactly which fields named connection are written: what is left of the handler's, then close, or keep-alive on HTTP/1.0, or nothing |
| `HeadByName.OthersWritten` | src/write.rs:538-579 | under every other well-known name the values written are the handler's; a date only where there is none |
| `HeadByName.MayNameIff` | src/write.rs:179-192 | the tokens that pass in a Connection field: all but close, keep-alive and the names of the framing fields, in any case |
| `HeadByName.ReceivedByName` | src/write.rs:538-613 | a reader finds under a well-known name the trimmed values of exactly the fields that spell it |
| `HeadByName.ReaderConcludes` | src/head.rs:276-281 | what a reader concludes about persistence is decided by version and by the words close and keep-alive under the name connection |
| `ResponseStream.WriteStream` | src/conn.rs:955-1079 | the stream loop writes a chunk a piece, or the bare pieces when the close delimits, and a last chunk only on success |
| `ResponseStream.WriteResponse` | src/conn.rs:839-1104 | what is appended and what becomes of the connection, for every reply |
| `ResponseStream.PersistsExactly` | src/conn.rs:858-941 | after a response that does not break off the connection persists exactly when the request does, the status may be final and is no upgrade, no field named connection lists close, and no body goes out that only the close would end |
| `ResponseStream.UpgradesExactly` | src/conn.rs:858-864 | the connection is handed over exactly after a 101 to a request that asked for it and whose body is read |
| `ResponseStream.ToldToPersist` | src/conn.rs:839-1104 | and that is exactly what the reader of the response concludes |
| `ResponseStream.ServerNamed` | src/conn.rs:911-917 | the server's own name is added exactly where the handler gave no field of that name |
| `ResponseStream.StatusReadsBack` | src/write.rs:421-428 | version and status are recovered from the status line |
| `ResponseStream.ChunksReadBack` | src/conn.rs:1040-1078 | a streamed body is recovered exactly when no piece is empty |
| `ResponseStream.BodyReadsBack` | src/conn.rs:942-1081 | the reader finds the body sent and what follows it |
| `ResponseStream.InterimIsSkipped` | src/conn.rs:45-45 | a reader looks past a 100 Continue |
| `ResponseStream.ResponseReadsBack` | src/conn.rs:839-1104 | status, body, stated persistence and tail are recovered, and the persistence is what the loop then does, exactly when no written chunk is empty |
| `ResponseStream.RunReadsBack` | src/conn.rs:839-1104 | from the output of any run of responses, all but the last persistent, the reader recovers exactly the statuses and bodies sent |
| `ResponseStream.BrokenOffReads` | src/conn.rs:1040-1081 | a stream that fails part way closes the connection, and a reader of its chunks finds no response exactly when no piece is empty; on HTTP/1.0 it takes the prefix for the whole body |
| `ResponseStream.WriteErrorHead` | src/conn.rs:1192-1222 | an error response is a head without fields of a handler's, that closes |
| `ResponseStream.ErrorReadsBack` | src/conn.rs:1188-1222 | an error response reads back as its status, no body and no more to come, whatever the method of the request |
| `ResponseStream.ErrorEndsRun` | src/conn.rs:387-432 | behind a run of responses that persist an error response reads back as the last |
| `ResponseStream.ImpossibleStatusIs500` | src/conn.rs:871-890 | a status that cannot be final reaches the client as an empty 500 that closes |
| `Interim.Output.Begin` | src/conn.rs:453-497 | held responses go out before an interim one can be owed |
| `Interim.Output.PollSendContinue` | src/conn.rs:213-226 | short writes advance the interim response and nothing else; what is taken, and whether it is done, waiting or failed, is decided by the transport's script alone |
| `Interim.Output.SettleContinue` | src/conn.rs:1165-1186 | an interim response not begun is dropped, one begun is finished, as far as the transport's script takes it; it fails exactly if the script does first |
| `Interim.Output.Append` | src/conn.rs:930-941 | response octets are made ready only with no interim response owed |
| `Interim.Output.Flush` | src/conn.rs:1113-1160 | everything ready is written, however short the writes and however often they block, exactly if the transport's script takes it all before an attempt fails; else the connection is given up with what was taken sent |
| `Interim.OfferIsPushes` | src/conn.rs:1113-1150 | an offer that waits out every block is the same as pushing again after each |
| `Interim.OfferLasts` | src/conn.rs:1113-1150 | an offer fails only if the transport's script holds fewer attempts that take something, before one that fails, than there are octets to take |
| `Interim.StaminaIsWorst` | src/conn.rs:1113-1150 | what a transport is sure to take is what it takes by its shortest writes, whatever blocks between them |
| `Interim.Output.WriteError` | src/conn.rs:1192-1222 | with a request begun or none, the owed interim response is settled, then the error goes out behind what is held |
| `Interim.Conclude` | src/conn.rs:387-432 | a run ends with its last response, an error for a request never read, or an error in a response's place |
| `Interim.ServeOne` | src/conn.rs:453-676 | one request: its response goes out behind what is held, and if one is expected an interim response goes out ahead of it whenever the handler reads its body and the transport takes an octet then |
| `Interim.LastGrows` | src/conn.rs:213-226 | what the requests are owed grows by what is appended |
| `Interim.Serve` | src/conn.rs:381-676 | in every run, ended by an error or not, the wire holds, per request in order, nothing or one whole 100 Continue and then the response; a run given up has sent a prefix of that, and is given up only if the transport is not sure to take all that is owed |
| `Interim.FlattenIsOutput` | src/conn.rs:839-1104 | what the requests are owed is the run of responses a reader takes apart |
| `Interim.CompletedRunReadsBack` | src/conn.rs:381-676 | from what a completed run put on the wire, interim responses and all, a reader recovers every status, body and persistence |
| `Interim.ErrorRunReadsBack` | src/conn.rs:381-676 | the same of a run that an error ends, and the error reads back last |
| `Pipelining.Connection.NextArrival` | src/conn.rs:690-702 | reads are made, and the end of input is met, only with no response held: the flush ahead of them has nothing to write; the loop waits exactly if no head is here whole |
| `Pipelining.Connection.FlushAndWait` | src/conn.rs:534-537 | what is ready is written before a wait |
| `Pipelining.Connection.SendStream` | src/conn.rs:955-1081 | a streamed response is its head, what the stream yields and its end, in order, with everything written before each of its waits, and it waits exactly as often as the stream says |
| `Pipelining.Connection.Respond` | src/conn.rs:1083-1104 | a response is held back exactly if the next head is here whole and fewer than 32 KiB are ready; else all is written |
| `Pipelining.Connection.Handle` | src/conn.rs:453-676 | one request: earlier responses go out before its handler is waited for, its answer is the last entry, and the loop waits exactly as often as handler and stream say |
| `Pipelining.Connection.ServeOne` | src/conn.rs:381-676 | one turn of the loop over both streams |
| `Pipelining.Connection.Serve` | src/conn.rs:381-676 | whenever the loop waits, for a request, a handler or a stream, every octet of a finished response has been written, and at an end in order all that is owed; a run ends out of order only if the transport is not sure to take what is owed; the requests served are a behaviour of the input, each answered in its place |
| `Pipelining.ServedReadsBack` | src/conn.rs:381-676 | what a run in order put on the wire reads back, response by response, as the replies its answers frame, wherever a streamed one waited |
| `Pipelining.FramesWire` | src/conn.rs:955-1081 | an answer that frames a reply, piece by piece, is that reply's response, and ends the connection as an answer exactly if the response breaks off |
| `Pipelining.ErrorsComeLast` | src/conn.rs:387-432 | an error, or a stream that broke off, answers the last request of a run and no other |
| `Balance.PlaceFailsIffFull` | src/server.rs:791-800 | placing fails exactly when every worker is at its cap, and never takes one past it |
| `Balance.HandoffIsWorthwhile` | src/server.rs:802-834 | a connection leaves its acceptor only for a worker at least the margin less loaded, or because the acceptor is full |
| `Balance.PlaceKeepsEven` | src/server.rs:791-834 | with up to four workers, whatever would be sampled of more, a placement keeps every two live counts within two of each other |
| `Balance.BalancingBound` | src/server.rs:703-715 | after any number of placements by any of at most four workers without closes, the largest and smallest count differ by at most two |
| `Balance.FifthIsMissed` | src/server.rs:802-834 | four is all the bound holds for: with a fifth worker that the samples miss, one placement makes counts differ by three |
| `Balance.Balance.Reserve` | src/server.rs:770-780 | one more connection is counted exactly when the worker is below its cap |
| `Balance.Balance.PickFor` | src/server.rs:805-834 | the least loaded worker looked at, if it is the margin below |
| `Balance.Balance.PlaceFor` | src/server.rs:791-800 | the picked worker, else the acceptor, else the first with room, counted: the counts become those the bound is about |
| `Balance.Balance.HasRoom` | src/server.rs:760-762 | whether some worker is below its cap |
| `WorkerProtocol.StepKeepsInv` | src/server.rs:934-1138 | every atomic step of every worker keeps the accounts and the custody |
| `WorkerProtocol.SlotAccounting` | src/server.rs:770-788 | in every interleaving a worker not retired has counted exactly what it serves or is taking up, what is queued, landing or lost in its inbox and what is claimed on it, never past its cap; no count wraps |
| `WorkerProtocol.RetiredForGood` | src/server.rs:841-843 | a retired worker's count stays past the cap, so no compare-and-swap reserves it again |
| `WorkerProtocol.ExactlyOnce` | src/server.rs:934-1138 | every accepted connection is in exactly one place: served, queued, landing, held, in hand (being placed or taken up), closed, dropped, or lost with a worker that never started |
| `WorkerProtocol.NothingStranded` | src/server.rs:1119-1138 | a stopped worker leaves nothing in its inbox, landing, held or in hand; only a worker that never started loses connections |
| `WorkerProtocol.RouteIsBounded` | src/server.rs:949-969 | a worker that sends a connection back is never tried again for it, so at most each worker does so once |
| `WorkerProtocol.PlacingConserves` | src/server.rs:949-1075 | a step of placing moves the connection from one place to one place |
| `WorkerProtocol.OwnConserves` | src/server.rs:932-943 | so does a step of a worker's own life |
| `WorkerProtocol.HoldsAtMostOne` | src/server.rs:944-1010 | a worker with a connection it could not place is placing no other, and accepts none |
| `WorkerProtocol.LossIsExactly` | src/server.rs:497-535 | a step loses a connection exactly when a worker dies with something queued or something lands at a dead worker; what is lost stays lost |
| `WorkerProtocol.CountsExactly` | src/server.rs:770-780 | having read a count, a worker counts its connection there exactly if the count is below the cap and unchanged, and looks elsewhere exactly if it is not below |
| `WorkerProtocol.DropsAndCloses` | src/server.rs:932-1075 | a connection is dropped exactly where it cannot be held, detached or registered, and closed exactly when one served ends |
| `WorkerProtocol.NothingLostIff` | src/server.rs:497-535 | a run has nothing lost, or landing where it would be, exactly when no worker in it died with something queued or landing |
| `WorkerProgress.AlwaysKeepsUp` | src/server.rs:944-1010 | from every reachable state a worker that is up can come, by steps of its own, to serve all that is queued or landing in its inbox, dropping nothing |
| `WorkerProgress.AlwaysStops` | src/server.rs:1108-1138 | from every reachable state a worker that has started can come, by steps of its own, to stop, having served all that was queued, landing or held, and dropping nothing |
| `WorkerProgress.FindsRoom` | src/server.rs:944-975 | a connection accepted, or held for want of room, comes to be served by its worker or to land at any other that is below its cap and takes connections |
| `WorkerProgress.AlwaysCloses` | src/server.rs:782-788 | every connection served can end, whatever has become of its worker, and each is counted down once |
| `WorkerRuns.LargeCapBreaks` | src/server.rs:728-730 | with a cap above half the mark two workers, every connection placed where `place` puts it and no count below zero, reach a state in which a retired one is about to be reserved |
| `WorkerRuns.BoundIsExact` | src/server.rs:728-730 | two workers come to reserve a retired one exactly when the cap is more than half the mark |
| `WorkerRuns.LossExhibited` | src/server.rs:497-535 | under every cap of at least one, a connection handed over where `place` says so is lost with a worker that dies before it starts |
| `WorkerRuns.CodeReaches` | src/server.rs:791-834 | a run that keeps to the placements the code makes is a run of the protocol |
| `Deadline.RoundUpIsLeast` | src/deadline.rs:143-157 | rounding gives the least multiple of the tick not below the duration, exactly when that fits 64 bits of nanoseconds |
| `Deadline.RoundUpNeverShortens` | src/deadline.rs:143-157 | rounding never shortens a duration, exactly when that fits 64 bits of nanoseconds |
| `Deadline.RoundUpSaturates` | src/deadline.rs:143-157 | no duration, however long, is rounded to less than itself or 64 bits of nanoseconds |
| `Deadline.NeverEarly` | src/deadline.rs:63-78 | a deadline never precedes the time asked for, exactly when rounding and clock can hold it; past that it is put off by no less than 64 bits of nanoseconds, or 365 days |
| `Deadline.ConnDeadline.ArmFor` | src/deadline.rs:63-78 | the logical deadline is set and the timer moved only to be earlier |
| `Deadline.ConnDeadline.PollExpired` | src/deadline.rs:93-106 | expired exactly when armed and past, within two turns of the loop |
| `Deadline.ConnDeadline.Run` | src/deadline.rs:63-106 | over every run of arming, disarming, waiting and polling the lazy deadline answers as the eager one |

## Left out

- RequestStream.RequestsRefine: how far a body read in part gets depends on the reads, so for handlers that stop part way or gather the bodies are compared piece by piece (`Body.Body.ReadWhile`, `Body.Body.Collect`), not as a run; the requests are (`RequestStream.DispatchedAreHeads`).
- RequestStream.Serve: a handler that keeps its body past its response is not modelled; polling after gathering finds nothing, because gathering leaves the body done.
- Body.Body.PollChunk: a transport error, a pending poll and the body-finished notification are not modelled; each only ends the run or repeats the call.
- Body.Body.Fill: a transport error and a pending poll are not modelled, here and in `Body.Body.PollLength` and `Body.Body.PollChunked`.
- HeadScan.IoState.ReadMore: a read that fails or is pending is not modelled, here and in `HeadScan.IoState.PollFill`; a failed one ends the connection.
- HeadScan.IoState.ReadUntilHead: the idle and header deadlines are not modelled; an expiry only ends the run, with a 408 or silently.
- ResponseStream.ResponseReadsBack: answers to CONNECT and 101 responses are excluded, because what follows them is not HTTP.
- ResponseStream.WriteResponse: when the buffer is flushed is `Interim`'s concern, where every choice of flushes and held ends is allowed.
- Pipelining.Connection.Serve: a wait for the peer to take octets is not one of the waits meant; while a handler is asked for the first time earlier responses may stand by, and go out before it is waited for.
- Interim.Serve: the one write attempted while a panicking handler unwinds, and a body kept past its response, are not modelled.
- WorkerProtocol.StepKeepsInv: which worker a placement tries is left open, so every choice `place` could make is covered, and more (`WorkerRuns` keeps to those it makes); weak compare-and-swap failures are covered, memory reordering of unrelated locations is not.
- WorkerProtocol.RouteIsBounded: a worker thread that panics is not modelled; the source ends the process's service through its join result.
- Balance.BalancingBound: with more than four workers only a sample is looked at, and the bound fails (`Balance.FifthIsMissed`); `Balance.HandoffIsWorthwhile` covers every sample.
- WorkerProgress.AlwaysStops: that a worker can get there is shown, not that the scheduler takes it there.
- Deadline.ConnDeadline.PollExpired: the timer fires exactly on time; the runtime's millisecond granularity and wakers are not modelled.
- Deadline.NeverEarly: a clock that cannot hold a year from now makes the source panic; that is not modelled.
- Tokenizing a request head, the table of reason phrases, the formatting of dates and the revalidation of UTF-8.
- The hyper backend, TLS, protocol sniffing, upgrades, socket set-up and the classification of accept errors.
- Status-code maps, builders, tracing, and claims about copies and allocations.
