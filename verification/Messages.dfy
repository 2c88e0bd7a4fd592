/** A pipelined stream, message by message: what the server takes off it, and what handlers
    see of it, by the grammar of heads and bodies. */
module Messages {
  import opened Octets
  import opened Headers
  import opened Target
  import opened Framing
  import opened Chunked
  import opened ChunkedSplit
  import opened HeadScan
  import opened Body
  import opened RequestStream
  import Grammar = ChunkedGrammar

  // ---- Messages ------------------------------------------------------------------------

  /** What follows a head: nothing, octets of an announced number, or chunks. */
  datatype Content = Nought | Sized(data: bytes) | InChunks(body: Grammar.ChunkedBody)

  /** Empty lines, a head, and what follows it. */
  datatype Message = Message(blank: nat, head: bytes, content: Content)

  function ContentText(x: Content): bytes {
    match x case Nought => [] case Sized(data) => data case InChunks(b) => Grammar.BodyText(b)
  }

  function Text(m: Message): bytes { EmptyLines(m.blank) + (m.head + ContentText(m.content)) }

  function Texts(ms: seq<Message>): bytes { if ms == [] then [] else Text(ms[0]) + Texts(ms[1..]) }

  function DataIn(x: Content): bytes {
    match x case Nought => [] case Sized(data) => data case InChunks(b) => Grammar.DataOf(b.chunks)
  }

  function FieldsIn(x: Content): seq<Field> {
    match x case Nought => [] case Sized(_) => [] case InChunks(b) => Grammar.FieldsOf(b.trailers)
  }

  function KindOf(x: Content): BodyKind {
    match x case Nought => NoBody case Sized(data) => Length(|data|) case InChunks(_) => ChunkedBody
  }

  /** The message is one the server takes: its head is within the limit and parses, and what
      follows it is as the head says. */
  ghost predicate Takes(c: Server, m: Message) {
    && IsHead(m.head) && |m.head| <= c.limits.maxHeadBytes
    && c.parse(m.head).Ok? && Decide(c.parse(m.head).value, c.limits.maxBodyBytes) == Ok(KindOf(m.content))
    && (m.content.InChunks? ==> Grammar.Derives(m.content.body) && Grammar.Within(c.limits, m.content.body))
  }

  ghost predicate TakesAll(c: Server, ms: seq<Message>) { forall k :: 0 <= k < |ms| ==> Takes(c, ms[k]) }

  function RequestsIn(c: Server, ms: seq<Message>): seq<Request>
    requires forall k :: 0 <= k < |ms| ==> c.parse(ms[k].head).Ok?
  {
    if ms == [] then [] else [c.parse(ms[0].head).value] + RequestsIn(c, ms[1..])
  }

  // ---- One message -----------------------------------------------------------------------

  lemma HeadTaken(max: nat, m: Message, rest: bytes)
    requires IsHead(m.head) && |m.head| <= max
    ensures OneShot(max, Text(m) + rest) == Head(m.head, ContentText(m.content) + rest)
  {
    hide IsHead, ContentText, OneShot;
    var after := ContentText(m.content) + rest;
    Assoc(EmptyLines(m.blank), m.head + ContentText(m.content), rest);
    Assoc(m.head, ContentText(m.content), rest);
    assert IsHeadOf(Text(m) + rest, m.blank, m.head, after);
    HeadIff(max, Text(m) + rest, m.head, after);
  }

  /** What follows the head is its body, with these data and trailer fields, and leaves what
      is behind the message. */
  lemma ContentTaken(l: Limits, x: Content, rest: bytes)
    requires x.InChunks? ==> Grammar.Derives(x.body) && Grammar.Within(l, x.body)
    ensures WholeBody(KindOf(x), l, ContentText(x) + rest) == Outcome(DataIn(x), FieldsIn(x), Complete(rest))
  {
    hide ChunkedSplit.Whole, Grammar.Derives, Grammar.Within;
    match x
    case Nought => assert [] + rest == rest;
    case Sized(data) => assert (data + rest)[..|data|] == data && (data + rest)[|data|..] == rest;
    case InChunks(b) => Grammar.BodyRead(l, b, ContentText(x) + rest, rest);
  }

  lemma MessageAccepted(c: Server, m: Message)
    requires Takes(c, m)
    ensures RequestStream.Accept(c, m.head) == Some((c.parse(m.head).value, KindOf(m.content)))
  {
    hide Decide, IsHead;
  }

  lemma TextsFirst(ms: seq<Message>, tail: bytes)
    requires ms != []
    ensures Texts(ms) + tail == Text(ms[0]) + (Texts(ms[1..]) + tail)
  {
    Assoc(Text(ms[0]), Texts(ms[1..]), tail);
  }

  // ---- The requests of a stream ------------------------------------------------------------

  /** Main result. The requests a stream holds are those of its messages, one after the
      other, and then of what follows them. */
  lemma {:induction false} HeadsAreMessages(c: Server, ms: seq<Message>, tail: bytes)
    requires TakesAll(c, ms)
    ensures Heads(c, Texts(ms) + tail) == RequestsIn(c, ms) + Heads(c, tail)
    decreases |ms|
  {
    hide Heads, OneShot, RequestStream.Accept, WholeBody, Text, ContentText, Decide, IsHead;
    if ms == [] {
      assert [] + tail == tail;
    } else {
      var m, later := ms[0], Texts(ms[1..]) + tail;
      TextsFirst(ms, tail);
      HeadTaken(c.limits.maxHeadBytes, m, later);
      MessageAccepted(c, m);
      ContentTaken(c.limits, m.content, later);
      HeadsStep(c, Text(m) + later);
      HeadsAreMessages(c, ms[1..], tail);
      Assoc([c.parse(m.head).value], RequestsIn(c, ms[1..]), Heads(c, tail));
    }
  }

  /** And a stream holds a request at all exactly if it starts with a head, within the limit,
      that parses and whose framing can be decided. */
  lemma HoldsRequestIff(c: Server, stream: bytes)
    ensures Heads(c, stream) != [] <==>
              exists k, head, rest :: && IsHeadOf(stream, k, head, rest) && |head| <= c.limits.maxHeadBytes
                                      && c.parse(head).Ok? && Decide(c.parse(head).value, c.limits.maxBodyBytes).Ok?
  {
    hide Heads, OneShot, WholeBody, Decide, IsHeadOf;
    var max := c.limits.maxHeadBytes;
    HeadsStep(c, stream);
    forall k, head, rest | IsHeadOf(stream, k, head, rest) && |head| <= max
      ensures OneShot(max, stream) == Head(head, rest)
    {
      HeadIff(max, stream, head, rest);
    }
    match OneShot(max, stream) {
      case Refused =>
      case NoHead =>
      case Head(head, rest) => HeadIff(max, stream, head, rest);
    }
  }

  // ---- What handlers see --------------------------------------------------------------------

  /** The exchanges of handlers that read every message to its end. */
  function Exchanges(c: Server, ms: seq<Message>): (xs: seq<Exchange>)
    requires forall k :: 0 <= k < |ms| ==> c.parse(ms[k].head).Ok?
    ensures |xs| == |ms|
  {
    if ms == [] then []
    else
      [Exchange(c.parse(ms[0].head).value, Read(DataIn(ms[0].content), FieldsIn(ms[0].content), Close.Whole), true)]
      + Exchanges(c, ms[1..])
  }

  /** Handlers read every body, and every response persists. */
  ghost predicate Diligent(c: Server) {
    (forall log, r :: c.wants(log, r, [])) && (forall log, x :: c.keeps(log, x))
  }

  ghost predicate AllPersist(c: Server, ms: seq<Message>)
    requires forall k :: 0 <= k < |ms| ==> c.parse(ms[k].head).Ok?
  {
    forall k :: 0 <= k < |ms| ==> SaysToPersist(c.parse(ms[k].head).value)
  }

  /** Main result. Of a stream of messages that persist, diligent handlers see every one, in
      order, with its data and its trailer fields, and then what follows them. */
  lemma {:induction false} AllServed(c: Server, log: seq<Exchange>, ms: seq<Message>, tail: bytes)
    requires TakesAll(c, ms) && AllPersist(c, ms) && Diligent(c)
    ensures Reference(c, log, Texts(ms) + tail) == Exchanges(c, ms) + Reference(c, log + Exchanges(c, ms), tail)
    decreases |ms|
  {
    hide Reference, OneShot, RequestStream.Accept, WholeBody, Text, ContentText, Decide, IsHead, SaysToPersist, IsKeepAlive;
    if ms == [] {
      assert [] + tail == tail && log + [] == log;
    } else {
      var m, later := ms[0], Texts(ms[1..]) + tail;
      TextsFirst(ms, tail);
      HeadTaken(c.limits.maxHeadBytes, m, later);
      MessageAccepted(c, m);
      ContentTaken(c.limits, m.content, later);
      ReferenceStep(c, log, Text(m) + later);
      KeepAliveIff(c.parse(m.head).value);
      var x := Exchanges(c, ms)[0];
      assert Exchanges(c, ms) == [x] + Exchanges(c, ms[1..]);
      AllServed(c, log + [x], ms[1..], tail);
      Assoc(log, [x], Exchanges(c, ms[1..]));
      Assoc([x], Exchanges(c, ms[1..]), Reference(c, log + Exchanges(c, ms), tail));
    }
  }

  /** So over any split of such a stream into reads, off the cuts, the loop delivers every
      message, and nothing else. */
  lemma Delivered(c: Server, ms: seq<Message>, buf: bytes, wire: seq<bytes>)
    requires TakesAll(c, ms) && AllPersist(c, ms) && Diligent(c)
    requires buf + Concat(wire) == Texts(ms) && Uncut(c, [], buf, wire)
    ensures Run(c, [], buf, wire) == Exchanges(c, ms)
  {
    hide Run, Reference, Uncut, AllPersist, Diligent, Decide, IsHead, Grammar.Derives, Grammar.Within;
    RequestsRefine(c, [], buf, wire);
    AllServed(c, [], ms, []);
    assert Texts(ms) + [] == Texts(ms);
    NothingServed(c, [] + Exchanges(c, ms));
    assert Exchanges(c, ms) + [] == Exchanges(c, ms);
  }

  lemma NothingServed(c: Server, log: seq<Exchange>)
    ensures Reference(c, log, []) == []
  {
  }
}
