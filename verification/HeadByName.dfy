/** What a response head says, by the names, words and numerals on the wire: which framing
    and persistence fields are written, and what a reader finds under a name, in whatever
    case it is spelled. */
module HeadByName {
  import opened Octets
  import opened Numerals
  import opened Spelling
  import opened Headers
  import opened FieldLines
  import opened Target
  import opened Framing
  import opened ResponseHead
  import opened ResponseFraming

  // ---- Values under a name -------------------------------------------------------------

  /** Among fields under the names the wire reads, an id's values are its name's. */
  lemma {:induction false} CanonicalValues(fs: seq<Field>, k: WellKnown)
    requires IsCanonical(fs)
    ensures AllValues(fs, Known(k)) == ValuesNamed(fs, NameOf(k))
  {
    hide NameOf, Canonical, Named;
    if fs != [] {
      assert forall j :: 0 <= j < |fs| - 1 ==> fs[1..][j] == fs[j + 1];
      CanonicalValues(fs[1..], k);
      CanonicalIff(fs[0], k);
    }
  }

  /** The fields a handler gave that can be written. */
  function Writables(fs: seq<Field>): seq<Field> {
    if fs == [] then [] else (if Writable(fs[0]) then [fs[0]] else []) + Writables(fs[1..])
  }

  lemma {:induction false} HandlerValues(fs: seq<Field>, k: WellKnown)
    ensures AllValues(Written(fs), Known(k)) == ValuesNamed(Writables(fs), NameOf(k))
  {
    hide NameOf, Canonical, Named, Writable;
    if fs != [] {
      HandlerValues(fs[1..], k);
      CanonicalIff(fs[0], k);
      var w, v := Written(fs[1..]), Writables(fs[1..]);
      if Writable(fs[0]) {
        var f := Field(Canonical(fs[0].id), fs[0].value);
        assert ([f] + w)[1..] == w && ([fs[0]] + v)[1..] == v;
      } else {
        assert [] + w == w && [] + v == v;
      }
    }
  }

  /** A reader finds under a well-known name the trimmed values of the fields that spell it. */
  lemma {:induction false} ReceivedByName(fs: seq<Field>, k: WellKnown)
    ensures AllValues(ReceivedAll(fs), Known(k)) == TrimAll(ValuesNamed(fs, NameOf(k)))
  {
    hide NameOf, Intern, Spells, AsStr, TrimOws;
    if fs != [] {
      ReceivedByName(fs[1..], k);
      assert ReceivedAll(fs)[0] == Received(fs[0]) && ReceivedAll(fs)[1..] == ReceivedAll(fs[1..]);
      InternIff(AsStr(fs[0].id), k);
    }
  }

  // ---- Framing -----------------------------------------------------------------------------

  /** A status whose message ends with its head. */
  predicate Bodiless(status: nat) { 100 <= status < 200 || status == 204 || status == 304 }

  /** The text is a decimal number that fits 64 bits. */
  ghost predicate Denotes(v: bytes, n: nat) { IsNumeral(10, v) && Value(10, v) == n && n <= U64_MAX }

  ghost predicate IsDecimal(v: bytes) { exists n :: Denotes(v, n) }

  /** The last coding listed spells `chunked`. */
  ghost predicate EndsInChunked(v: bytes) {
    var codings := NonEmpty(TrimAll(SplitOn(v, ',')));
    (forall i :: 0 <= i < |v| ==> v[i] as int < 128) && codings != [] && Spells(codings[|codings| - 1], "chunked")
  }

  /** The one coding a handler may state: that of a chunked stream. */
  ghost predicate TrueCoding(r: Response, c: Context, tes: seq<bytes>) {
    |tes| == 1 && EndsInChunked(tes[0]) && c.body.Stream? && c.version.Http11? && !Bodiless(r.status)
  }

  /** The one length a handler may state: the body's, or any where it describes a body that
      is not sent. */
  ghost predicate TrueLength(r: Response, c: Context, lens: seq<bytes>, coded: bool) {
    && |lens| == 1 && IsDecimal(lens[0]) && !coded
    && (r.status == 304
        || (!Bodiless(r.status) && (c.headRequest || (!c.body.Stream? && Denotes(lens[0], LengthOf(c.body))))))
  }

  function LengthOf(body: OutBody): nat
    requires !body.Stream?
  {
    if body.Fixed? then |body.data| else 0
  }

  lemma ParseLenIs(v: bytes, n: nat)
    ensures ParseLen(v) == Some(n) <==> Denotes(v, n)
    ensures ParseLen(v).Some? <==> IsDecimal(v)
  {
    if ParseLen(v).Some? {
      assert Denotes(v, ParseLen(v).value);
    }
    hide Value;
  }

  lemma FramesChunkedIff(v: bytes)
    ensures FramesChunked(v) <==> EndsInChunked(v)
  {
    assert Lower("chunked") == "chunked";
    hide SplitOn, TrimAll, NonEmpty, Lower;
    var codings := NonEmpty(TrimAll(SplitOn(v, ',')));
    if codings != [] {
      SpellsIsFold(codings[|codings| - 1], "chunked");
    }
    hide Spells;
  }

  lemma KeepsCodingIff(r: Response, c: Context)
    ensures KeepsCoding(r, c) <==> TrueCoding(r, c, HandlerCodings(r))
  {
    if HandlerCodings(r) != [] {
      FramesChunkedIff(HandlerCodings(r)[0]);
    }
    hide FramesChunked, EndsInChunked, HandlerCodings;
  }

  lemma KeepsLengthIff(r: Response, c: Context)
    ensures KeepsLength(r, c) <==> TrueLength(r, c, HandlerLengths(r), TrueCoding(r, c, HandlerCodings(r)))
  {
    KeepsCodingIff(r, c);
    if HandlerLengths(r) != [] {
      ParseLenIs(HandlerLengths(r)[0], if c.body.Stream? then 0 else LengthOf(c.body));
    }
    hide HandlerCodings, HandlerLengths, TrueCoding, StaleCoding, ParseLen, Denotes, IsDecimal;
  }

  /** Main result. Exactly which framing fields are written, by the names on the wire. A
      handler's is kept if it is the one of its name and true; otherwise the writer states
      its own, the decimal length of a body that has one or the chunked coding of a stream,
      and none where the status or a close ends the message. */
  lemma FramingWritten(r: Response, c: Context, date: bytes)
    ensures var lens := ValuesNamed(Writables(r.headers), "content-length");
            var tes := ValuesNamed(Writables(r.headers), "transfer-encoding");
            var coded := TrueCoding(r, c, tes);
            var sized := TrueLength(r, c, lens, coded);
            && ValuesNamed(Emitted(r, c, date), "content-length")
               == (if sized then lens else if coded || Bodiless(r.status) || c.body.Stream? then []
                   else [Numeral(10, LengthOf(c.body))])
            && ValuesNamed(Emitted(r, c, date), "transfer-encoding")
               == (if coded then tes else if sized || Bodiless(r.status) || !c.body.Stream? || c.version.Http10? then []
                   else ["chunked"])
  {
    assert NameOf(ContentLength) == "content-length" && NameOf(TransferEncoding) == "transfer-encoding";
    Terms(r, c);
    hide *;
    HandlerValues(r.headers, ContentLength);
    HandlerValues(r.headers, TransferEncoding);
    EmittedCanonical(r, c, date);
    CanonicalValues(Emitted(r, c, date), ContentLength);
    CanonicalValues(Emitted(r, c, date), TransferEncoding);
    StatedIsValues(r, c, date, ContentLength);
    StatedIsValues(r, c, date, TransferEncoding);
    StatedForm(r, c, date);
    KeepsCodingIff(r, c);
    KeepsLengthIff(r, c);
  }

  /** The writer's own terms. */
  lemma Terms(r: Response, c: Context)
    ensures HandlerLengths(r) == AllValues(Written(r.headers), Known(ContentLength))
    ensures HandlerCodings(r) == AllValues(Written(r.headers), Known(TransferEncoding))
    ensures ForbidsFraming(r.status) <==> Bodiless(r.status)
    ensures CloseDelimited(c) <==> c.version.Http10? && c.body.Stream?
    ensures !c.body.Stream? ==> OwnLength(c.body) == Numeral(10, LengthOf(c.body))
  {
    ZeroIsWritten();
    hide Written, AllValues, Numeral;
  }

  lemma ZeroIsWritten()
    ensures Numeral(10, 0) == "0"
  {
  }

  /** So at most one framing field is written, under either name, and it is true. */
  lemma FramingIsTrue(r: Response, c: Context, date: bytes)
    requires c.body.Fixed? ==> |c.body.data| <= U64_MAX
    ensures var lens := ValuesNamed(Emitted(r, c, date), "content-length");
            var tes := ValuesNamed(Emitted(r, c, date), "transfer-encoding");
            && |lens| + |tes| <= 1
            && (lens != [] ==> IsDecimal(lens[0]))
            && (tes != [] ==> EndsInChunked(tes[0]) && c.body.Stream? && c.version.Http11?)
            && (Bodiless(r.status) ==> tes == [] && (r.status != 304 ==> lens == []))
            && (!Bodiless(r.status) && !c.headRequest ==>
                  if c.body.Stream? then lens == [] && (tes == [] <==> c.version.Http10?)
                  else |lens| == 1 && Denotes(lens[0], LengthOf(c.body)))
  {
    FramingWritten(r, c, date);
    FramesChunkedIff("chunked");
    ChunkedFrames();
    if !c.body.Stream? {
      NumeralRoundTrip(10, LengthOf(c.body));
      ParseLenIs(Numeral(10, LengthOf(c.body)), LengthOf(c.body));
    }
    hide Emitted, Writables, ValuesNamed, Numeral, FramesChunked, EndsInChunked, Denotes, IsDecimal;
  }

  /** Under any other well-known name the values written are the handler's, in order; a date
      is added where there is none. */
  lemma OthersWritten(r: Response, c: Context, date: bytes, k: WellKnown)
    requires k != ContentLength && k != TransferEncoding && k != Connection
    ensures var given := ValuesNamed(Writables(r.headers), NameOf(k));
            ValuesNamed(Emitted(r, c, date), NameOf(k)) == if k == Date && given == [] then [date] else given
  {
    hide *;
    HandlerValues(r.headers, k);
    EmittedCanonical(r, c, date);
    CanonicalValues(Emitted(r, c, date), k);
    OtherFieldsUntouched(r, c, date, Known(k));
  }

  // ---- Persistence -----------------------------------------------------------------------------

  /** The elements of a `Connection` field that a handler may have written: tokens, but for
      the words the writer says itself and the names of the framing fields. */
  lemma MayNameIff(t: bytes)
    ensures MayName(t) <==>
              && t != [] && All(t, IsTchar) && !Spells(t, "close") && !Spells(t, "keep-alive")
              && !Spells(t, "content-length") && !Spells(t, "transfer-encoding")
  {
    WordsAreLower();
    SpellsIsFold(t, "close");
    SpellsIsFold(t, "keep-alive");
    SpellsIsFold(t, "content-length");
    SpellsIsFold(t, "transfer-encoding");
    hide Spells, Lower, All;
  }

  /** What is left of each of a handler's lists, where anything is. */
  function Passing(values: seq<bytes>): seq<bytes> {
    if values == [] then []
    else
      (if ConnectionTokens(values[0]) == [] then [] else [Join(ConnectionTokens(values[0]))]) + Passing(values[1..])
  }

  lemma {:induction false} SurvivorLists(fs: seq<Field>, staleLength: bool, staleCoding: bool)
    ensures AllValues(Survivors(fs, staleLength, staleCoding), Known(Connection)) == Passing(ValuesNamed(fs, "connection"))
  {
    if fs != [] {
      var one, later := Survives(fs[0], staleLength, staleCoding), Survivors(fs[1..], staleLength, staleCoding);
      OneList(fs[0], staleLength, staleCoding);
      SurvivorLists(fs[1..], staleLength, staleCoding);
      AllValuesAppend(one, later, Known(Connection));
      hide AllValues, Survives, Named, ConnectionTokens, Join;
      assert ValuesNamed(fs, "connection")
             == (if Named(fs[0], "connection") then [fs[0].value] else []) + ValuesNamed(fs[1..], "connection");
      if Named(fs[0], "connection") {
        assert ([fs[0].value] + ValuesNamed(fs[1..], "connection"))[1..] == ValuesNamed(fs[1..], "connection");
      } else {
        assert [] + ValuesNamed(fs[1..], "connection") == ValuesNamed(fs[1..], "connection");
        assert [] + Passing(ValuesNamed(fs[1..], "connection")) == Passing(ValuesNamed(fs[1..], "connection"));
      }
    }
  }

  lemma OneList(f: Field, staleLength: bool, staleCoding: bool)
    ensures AllValues(Survives(f, staleLength, staleCoding), Known(Connection))
            == if !Named(f, "connection") || ConnectionTokens(f.value) == [] then [] else [Join(ConnectionTokens(f.value))]
  {
    assert NameOf(Connection) == "connection";
    CanonicalIff(f, Connection);
    hide Named, Canonical, NameOf, ConnectionTokens, Join, Writable;
  }

  /** Main result. Exactly which fields named `connection` are written: what is left of the
      handler's, and then the server's own word, if it has one to say. */
  lemma ConnectionWritten(r: Response, c: Context, date: bytes)
    ensures ValuesNamed(Emitted(r, c, date), "connection")
            == Passing(ValuesNamed(r.headers, "connection"))
               + (if r.status == 101 then [] else if !c.keepAlive then ["close"]
                  else if c.version.Http10? then ["keep-alive"] else [])
  {
    assert NameOf(Connection) == "connection";
    WriterConnection(r, c, date);
    hide *;
    EmittedCanonical(r, c, date);
    CanonicalValues(Emitted(r, c, date), Connection);
    StatedIsValues(r, c, date, Connection);
    StatedConnection(r, c, date);
    SurvivorLists(r.headers, StaleLength(r, c), StaleCoding(r, c));
    OwnWord(c);
  }

  lemma OwnWord(c: Context)
    ensures ConnectionField(c.version, c.keepAlive)
            == if !c.keepAlive then Some("close") else if c.version.Http10? then Some("keep-alive") else None
  {
  }

  lemma {:induction false} TrimmedMention(values: seq<bytes>, word: bytes)
    requires Lower(word) == word
    ensures Mention(TrimAll(values), word) <==> Mention(values, word)
  {
    NamesTokenIff(values, word);
    NamesTokenIff(TrimAll(values), word);
    TrimmedNames(values, word);
    hide Mention, NamesToken, TrimAll;
  }

  /** Main result. By the names and words on the wire the head says that the connection
      closes exactly when it does, and never that a framing field is to be stripped. */
  lemma PersistenceIsTrue(r: Response, c: Context, date: bytes)
    requires r.status != 101
    ensures var said := ValuesNamed(Emitted(r, c, date), "connection");
            && (if c.version.Http11? then Mention(said, "close") <==> !c.keepAlive
                else Mention(said, "keep-alive") <==> c.keepAlive)
            && !Mention(said, "content-length") && !Mention(said, "transfer-encoding")
  {
    Said(r, c, date, "close");
    Said(r, c, date, "keep-alive");
    Said(r, c, date, "content-length");
    Said(r, c, date, "transfer-encoding");
    TokensDiffer();
    hide Emitted, Mention, ValuesNamed;
  }

  /** The server's own words: the one that states its decision, and no other. */
  lemma Said(r: Response, c: Context, date: bytes, word: bytes)
    requires word in ["close", "keep-alive", "content-length", "transfer-encoding"]
    ensures Mention(ValuesNamed(Emitted(r, c, date), "connection"), word)
            <==> r.status != 101 && ConnectionField(c.version, c.keepAlive) == Some(word)
  {
    assert NameOf(Connection) == "connection";
    assert word == CLOSE || word == KEEP_ALIVE || word == NameOf(ContentLength) || word == NameOf(TransferEncoding);
    WordsAreLower();
    hide *;
    EmittedCanonical(r, c, date);
    CanonicalValues(Emitted(r, c, date), Connection);
    StatedIsValues(r, c, date, Connection);
    NamesTokenIff(Stated(r, c, date, Connection), word);
    StatedTokens(r, c, date, word);
  }

  lemma StatedIsValues(r: Response, c: Context, date: bytes, k: WellKnown)
    ensures Stated(r, c, date, k) == AllValues(Emitted(r, c, date), Known(k))
  {
    hide Emitted;
  }

  lemma WordsAreLower()
    ensures Lower("close") == "close" && Lower("keep-alive") == "keep-alive"
    ensures Lower("content-length") == "content-length" && Lower("transfer-encoding") == "transfer-encoding"
  {
  }

  /** A reader concludes what those words say. */
  lemma ReaderConcludes(v: Version, fs: seq<Field>)
    ensures var said := ValuesNamed(fs, "connection");
            ReaderPersists(v, ReceivedAll(fs)) <==> if v.Http11? then !Mention(said, "close") else Mention(said, "keep-alive")
  {
    ReceivedByName(fs, Connection);
    WordsAreLower();
    assert NameOf(Connection) == "connection" && CLOSE == "close" && KEEP_ALIVE == "keep-alive";
    var said := ValuesNamed(fs, "connection");
    hide Mention, NamesToken, TrimAll, ReceivedAll, ValuesNamed, AllValues, Lower, NameOf, CLOSE, KEEP_ALIVE;
    NamesTokenIff(TrimAll(said), "close");
    NamesTokenIff(TrimAll(said), "keep-alive");
    TrimmedMention(said, "close");
    TrimmedMention(said, "keep-alive");
  }
}
