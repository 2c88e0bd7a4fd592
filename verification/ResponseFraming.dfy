/** What a response head says about its body and its connection is true. */
module ResponseFraming {
  import opened Octets
  import opened Numerals
  import opened Headers
  import opened FieldLines
  import opened Target
  import opened Framing
  import opened FramingRules
  import opened ResponseHead

  // ---- The framing fields written ------------------------------------------------------

  function Stated(r: Response, c: Context, date: bytes, k: WellKnown): seq<bytes> {
    AllValues(Emitted(r, c, date), Known(k))
  }

  lemma SurvivesValues(f: Field, staleLength: bool, staleCoding: bool, k: WellKnown)
    requires k.ContentLength? || k.TransferEncoding?
    ensures AllValues(Survives(f, staleLength, staleCoding), Known(k))
            == if (staleLength && k.ContentLength?) || (staleCoding && k.TransferEncoding?) then []
               else AllValues(Written([f]), Known(k))
  {
    hide Canonical, ConnectionTokens, Join, Writable;
    var ts := ConnectionTokens(f.value);
    if ts != [] {
      OneField(Field(Known(Connection), Join(ts)), Known(k));
    }
    OneField(Field(Canonical(f.id), f.value), Known(k));
    assert Written([f]) == if Writable(f) then [Field(Canonical(f.id), f.value)] else [];
  }

  lemma {:induction false} SurvivorValues(fs: seq<Field>, staleLength: bool, staleCoding: bool, k: WellKnown)
    requires k.ContentLength? || k.TransferEncoding?
    ensures AllValues(Survivors(fs, staleLength, staleCoding), Known(k))
            == if (staleLength && k.ContentLength?) || (staleCoding && k.TransferEncoding?) then []
               else AllValues(Written(fs), Known(k))
  {
    if fs != [] {
      SurvivesValues(fs[0], staleLength, staleCoding, k);
      SurvivorValues(fs[1..], staleLength, staleCoding, k);
      WrittenCons(fs);
      hide Survives, Written, AllValues;
      AllValuesAppend(Survives(fs[0], staleLength, staleCoding), Survivors(fs[1..], staleLength, staleCoding), Known(k));
      AllValuesAppend(Written([fs[0]]), Written(fs[1..]), Known(k));
    }
  }

  lemma WrittenCons(fs: seq<Field>)
    requires fs != []
    ensures Written(fs) == Written([fs[0]]) + Written(fs[1..])
  {
    hide Writable, Canonical;
    assert [fs[0]][1..] == [];
    assert Written([]) == [];
  }

  /** The framing fields written are the handler's that are not stale, and the
      writer's. */
  lemma StatedIs(r: Response, c: Context, date: bytes, k: WellKnown)
    requires k.ContentLength? || k.TransferEncoding?
    ensures Stated(r, c, date, k)
            == (if (StaleLength(r, c) && k.ContentLength?) || (StaleCoding(r, c) && k.TransferEncoding?) then []
                else AllValues(Written(r.headers), Known(k)))
               + AllValues(FramingField(r, c), Known(k))
  {
    var id := Known(k);
    NotFraming(r, c, date, k);
    hide Survivors, DateField, FramingField, PersistenceField, StaleLength, StaleCoding, AllValues, Written;
    var s := Survivors(r.headers, StaleLength(r, c), StaleCoding(r, c));
    SurvivorValues(r.headers, StaleLength(r, c), StaleCoding(r, c), k);
    AllValuesAppend(s + DateField(r, date) + FramingField(r, c), PersistenceField(r, c), id);
    AllValuesAppend(s + DateField(r, date), FramingField(r, c), id);
    AllValuesAppend(s, DateField(r, date), id);
  }

  lemma NotFraming(r: Response, c: Context, date: bytes, k: WellKnown)
    requires k.ContentLength? || k.TransferEncoding?
    ensures AllValues(DateField(r, date), Known(k)) == []
    ensures AllValues(PersistenceField(r, c), Known(k)) == []
  {
    hide Written;
  }

  lemma WriterField(r: Response, c: Context)
    ensures AllValues(FramingField(r, c), Known(ContentLength))
            == if HandlerFramed(r, c) || ForbidsFraming(r.status) || c.body.Stream? then []
               else [if c.body.Fixed? then Numeral(10, |c.body.data|) else "0"]
    ensures AllValues(FramingField(r, c), Known(TransferEncoding))
            == if HandlerFramed(r, c) || ForbidsFraming(r.status) || !c.body.Stream? || CloseDelimited(c) then []
               else ["chunked"]
  {
    hide HandlerFramed, ForbidsFraming, Numeral;
  }

  lemma ZeroIsZero()
    ensures ParseLen("0") == Some(0)
  {
    assert "0"[..0] == [];
    assert Value(10, []) == 0;
  }

  lemma ChunkedFrames()
    ensures FramesChunked("chunked")
  {
    var v: bytes := "chunked";
    ChunkedIsToken();
    TokenAlone(v);
    OneCoding(v);
    hide SplitOn, TrimAll, NonEmpty, IsToken, IsAscii, IsChunkedToken;
  }

  lemma ChunkedIsToken()
    ensures IsToken("chunked") && IsAscii("chunked") && IsChunkedToken("chunked")
  {
    var v: bytes := "chunked";
    assert Lower(v) == v;
  }

  lemma OneCoding(v: bytes)
    requires v != []
    ensures NonEmpty([v]) == [v]
  {
    assert [v][1..] == [];
  }

  /** A handler's length that is kept. */
  lemma KeptLength(r: Response, c: Context)
    requires HandlerLengths(r) != [] && !StaleLength(r, c)
    ensures var lens := HandlerLengths(r);
            && |lens| == 1 && ParseLen(lens[0]).Some?
            && (HandlerCodings(r) == [] || StaleCoding(r, c))
            && (ForbidsFraming(r.status) ==> r.status == 304)
            && (!ForbidsFraming(r.status) && !c.headRequest ==> !c.body.Stream? && ParseLen(lens[0]) == BodyLen(c.body))
  {
    hide HandlerLengths, HandlerCodings, ParseLen, FramesChunked;
  }

  /** A handler's coding that is kept. */
  lemma KeptCoding(r: Response, c: Context)
    requires HandlerCodings(r) != [] && !StaleCoding(r, c)
    ensures var tes := HandlerCodings(r);
            && |tes| == 1 && FramesChunked(tes[0])
            && c.body.Stream? && c.version.Http11? && !ForbidsFraming(r.status)
  {
    hide HandlerCodings, FramesChunked;
  }

  predicate KeepsLength(r: Response, c: Context) { HandlerLengths(r) != [] && !StaleLength(r, c) }

  predicate KeepsCoding(r: Response, c: Context) { HandlerCodings(r) != [] && !StaleCoding(r, c) }

  /** The length the writer states for a body that has one. */
  function OwnLength(body: OutBody): bytes { if body.Fixed? then Numeral(10, |body.data|) else "0" }

  lemma StatedForm(r: Response, c: Context, date: bytes)
    ensures Stated(r, c, date, ContentLength)
            == if KeepsLength(r, c) then HandlerLengths(r)
               else if KeepsCoding(r, c) || ForbidsFraming(r.status) || c.body.Stream? then []
               else [OwnLength(c.body)]
    ensures Stated(r, c, date, TransferEncoding)
            == if KeepsCoding(r, c) then HandlerCodings(r)
               else if KeepsLength(r, c) || ForbidsFraming(r.status) || !c.body.Stream? || CloseDelimited(c) then []
               else ["chunked"]
  {
    StatedIs(r, c, date, ContentLength);
    StatedIs(r, c, date, TransferEncoding);
    WriterField(r, c);
    hide FramingField, Written, AllValues, Stated, Numeral, StaleLength, StaleCoding, ForbidsFraming;
  }

  lemma OwnLengthIsTrue(body: OutBody)
    requires body.Fixed? ==> |body.data| <= U64_MAX
    ensures !body.Stream? ==> ParseLen(OwnLength(body)) == BodyLen(body) && BodyLen(body).Some?
  {
    ZeroIsZero();
    if body.Fixed? {
      NumeralRoundTrip(10, |body.data|);
    }
  }

  lemma FramingCases(lens: seq<bytes>, tes: seq<bytes>, handlerLens: seq<bytes>, handlerTes: seq<bytes>,
                     keepsLength: bool, keepsCoding: bool, chunked: bytes, status: nat, c: Context)
    requires keepsLength ==>
               && |handlerLens| == 1 && ParseLen(handlerLens[0]).Some? && !keepsCoding
               && (ForbidsFraming(status) ==> status == 304)
               && (!ForbidsFraming(status) && !c.headRequest ==>
                     !c.body.Stream? && ParseLen(handlerLens[0]) == BodyLen(c.body))
    requires keepsCoding ==>
               && |handlerTes| == 1 && FramesChunked(handlerTes[0])
               && c.body.Stream? && c.version.Http11? && !ForbidsFraming(status)
    requires !c.body.Stream? ==> ParseLen(OwnLength(c.body)) == BodyLen(c.body) && BodyLen(c.body).Some?
    requires FramesChunked(chunked)
    requires lens == if keepsLength then handlerLens
                     else if keepsCoding || ForbidsFraming(status) || c.body.Stream? then [] else [OwnLength(c.body)]
    requires tes == if keepsCoding then handlerTes
                    else if keepsLength || ForbidsFraming(status) || !c.body.Stream? || CloseDelimited(c) then [] else [chunked]
    ensures && |lens| + |tes| <= 1
            && (lens != [] ==> ParseLen(lens[0]).Some?)
            && (tes != [] ==> FramesChunked(tes[0]) && c.body.Stream? && c.version.Http11?)
            && (ForbidsFraming(status) ==> tes == [] && (status != 304 ==> lens == []))
            && (!ForbidsFraming(status) && lens == [] && tes == [] ==> CloseDelimited(c))
            && (!ForbidsFraming(status) && !c.headRequest ==>
                  if c.body.Stream? then lens == [] && (tes == [] <==> c.version.Http10?)
                  else |lens| == 1 && ParseLen(lens[0]) == BodyLen(c.body))
  {
    hide ForbidsFraming, ParseLen, FramesChunked, OwnLength, BodyLen;
  }

  /** Main result. At most one framing field is written, and it is true: on a response
      that may carry a body and answers no HEAD, a length is the body's and a coding
      ends in chunked over a chunked body, with none only for an HTTP/1.0 stream; a 1xx
      or 204 carries none; a 304 at most a well-formed length. */
  lemma FramingIsTrue(r: Response, c: Context, date: bytes)
    requires c.body.Fixed? ==> |c.body.data| <= U64_MAX
    ensures var lens, tes := Stated(r, c, date, ContentLength), Stated(r, c, date, TransferEncoding);
            && |lens| + |tes| <= 1
            && (lens != [] ==> ParseLen(lens[0]).Some?)
            && (tes != [] ==> FramesChunked(tes[0]) && c.body.Stream? && c.version.Http11?)
            && (ForbidsFraming(r.status) ==> tes == [] && (r.status != 304 ==> lens == []))
            && (!ForbidsFraming(r.status) && lens == [] && tes == [] ==> CloseDelimited(c))
            && (!ForbidsFraming(r.status) && !c.headRequest ==>
                  if c.body.Stream? then lens == [] && (tes == [] <==> c.version.Http10?)
                  else |lens| == 1 && ParseLen(lens[0]) == BodyLen(c.body))
  {
    StatedForm(r, c, date);
    ChunkedFrames();
    OwnLengthIsTrue(c.body);
    if KeepsLength(r, c) {
      KeptLength(r, c);
      assert !KeepsCoding(r, c);
    }
    if KeepsCoding(r, c) {
      KeptCoding(r, c);
    }
    hide *;
    FramingCases(Stated(r, c, date, ContentLength), Stated(r, c, date, TransferEncoding), HandlerLengths(r),
                 HandlerCodings(r), KeepsLength(r, c), KeepsCoding(r, c), "chunked", r.status, c);
  }

  // ---- What a reader takes it to say --------------------------------------------------------

  predicate IsCanonical(fs: seq<Field>) { forall k :: 0 <= k < |fs| ==> fs[k].id == Canonical(fs[k].id) }

  lemma CanonicalTwice(id: HeaderId)
    ensures Canonical(Canonical(id)) == Canonical(id)
  {
    hide FromBytes;
  }

  lemma {:induction false} SurvivorsCanonical(fs: seq<Field>, staleLength: bool, staleCoding: bool)
    ensures IsCanonical(Survivors(fs, staleLength, staleCoding))
  {
    if fs != [] {
      SurvivorsCanonical(fs[1..], staleLength, staleCoding);
      CanonicalTwice(fs[0].id);
      hide ConnectionTokens, Join, Writable, Canonical;
      assert IsCanonical(Survives(fs[0], staleLength, staleCoding));
      hide Survives;
      CanonicalAppend(Survives(fs[0], staleLength, staleCoding), Survivors(fs[1..], staleLength, staleCoding));
    }
  }

  lemma CanonicalAppend(a: seq<Field>, b: seq<Field>)
    requires IsCanonical(a) && IsCanonical(b)
    ensures IsCanonical(a + b)
  {
    hide Canonical;
  }

  lemma EmittedCanonical(r: Response, c: Context, date: bytes)
    ensures IsCanonical(Emitted(r, c, date))
  {
    var d, g, q := DateField(r, date), FramingField(r, c), PersistenceField(r, c);
    assert IsCanonical(d) && IsCanonical(g) && IsCanonical(q) by {
      hide Written, HandlerFramed, ForbidsFraming, Numeral;
    }
    hide IsCanonical, Survivors, DateField, FramingField, PersistenceField, StaleLength, StaleCoding;
    var s := Survivors(r.headers, StaleLength(r, c), StaleCoding(r, c));
    SurvivorsCanonical(r.headers, StaleLength(r, c), StaleCoding(r, c));
    CanonicalAppend(s, d);
    CanonicalAppend(s + d, g);
    CanonicalAppend(s + d + g, q);
  }

  /** A reader finds under a well-known name the trimmed values written under it. */
  lemma {:induction false} ReceivedValues(fs: seq<Field>, k: WellKnown)
    requires IsCanonical(fs)
    ensures AllValues(ReceivedAll(fs), Known(k)) == TrimAll(AllValues(fs, Known(k)))
  {
    if fs != [] {
      assert IsCanonical(fs[1..]) by {
        assert forall j :: 0 <= j < |fs| - 1 ==> fs[1..][j] == fs[j + 1];
      }
      ReceivedValues(fs[1..], k);
      assert ReceivedAll(fs)[0] == Received(fs[0]) && ReceivedAll(fs)[1..] == ReceivedAll(fs[1..]);
      ReceivedId(fs[0], k);
      hide Received, ReceivedAll, Canonical, TrimAll, TrimOws, IsCanonical;
      TrimHead(fs[0].value, AllValues(fs[1..], Known(k)));
    }
  }

  /** A written field is received under a well-known name exactly when it has it. */
  lemma ReceivedId(f: Field, k: WellKnown)
    requires f.id == Canonical(f.id)
    ensures Received(f).value == TrimOws(f.value) && (Received(f).id == Known(k) <==> f.id == Known(k))
  {
    CanonicalReadsBack(f.id);
    hide Intern, Canonical, TrimOws, AsStr;
  }

  /** Trimming a list value changes no element of it. */
  lemma TrimmedElements(v: bytes)
    ensures TrimAll(SplitOn(TrimOws(v), ',')) == TrimAll(SplitOn(v, ','))
  {
    hide TrimOws, TrimAll, SplitOn;
    var a, c := TrimSplits(v);
    var m := TrimOws(v);
    PadRight(m, c);
    PadLeft(a, m + c);
    Assoc(a, m, c);
  }

  lemma TrimmedLength(v: bytes)
    requires ParseLen(v).Some?
    ensures TrimOws(v) == v
  {
    SpanIs([], v, IsWs);
    assert [] + v == v && v[0..] == v;
    assert IsDigit(v[0]) && IsDigit(v[|v| - 1]);
  }

  lemma TrimmedCoding(v: bytes)
    requires FramesChunked(v)
    ensures FramesChunked(TrimOws(v))
  {
    TrimmedElements(v);
    var a, c := TrimSplits(v);
    var m := TrimOws(v);
    hide TrimOws, TrimAll, SplitOn, NonEmpty, IsAscii, IsChunkedToken;
    AsciiAppend(a + m, c);
    AsciiAppend(a, m);
  }

  // ---- Persistence ------------------------------------------------------------------------------

  /** A response reader's rule for whether the connection persists. */
  predicate ReaderPersists(v: Version, fields: seq<Field>) {
    var values := AllValues(fields, Known(Connection));
    if v.Http11? then !NamesToken(values, CLOSE) else NamesToken(values, KEEP_ALIVE)
  }

  lemma NamesAppend(a: seq<bytes>, b: seq<bytes>, token: bytes)
    ensures NamesToken(a + b, token) <==> NamesToken(a, token) || NamesToken(b, token)
  {
    hide ValueHasToken;
  }

  /** Whether a value holds a token is a matter of its trimmed elements. */
  lemma TokenIsElement(v: bytes, token: bytes)
    ensures ValueHasToken(v, token) <==> exists e :: e in TrimAll(SplitOn(v, ',')) && Lower(e) == token
  {
    hide TrimOws, Lower;
    var pieces := SplitOn(v, ',');
    var es := TrimAll(pieces);
    if ValueHasToken(v, token) {
      var t :| t in pieces && Lower(TrimOws(t)) == token;
      var i :| 0 <= i < |pieces| && pieces[i] == t;
      assert es[i] == TrimOws(t) && es[i] in es;
    }
    if e :| e in es && Lower(e) == token {
      var i :| 0 <= i < |es| && es[i] == e;
      assert pieces[i] in pieces && TrimOws(pieces[i]) == e;
    }
  }

  lemma TokenAlone(t: bytes)
    requires IsToken(t)
    ensures TrimAll(SplitOn(t, ',')) == [t] && TrimOws(t) == t
  {
    TokenIsPlain(t);
    hide IsToken, SplitOn, IndexOf, TrimOws;
    SplitWhole(t, ',');
    assert TrimAll([t])[0] == t;
  }

  lemma TokenIsPlain(t: bytes)
    requires IsToken(t)
    ensures IndexOf(t, ',') == |t| && TrimOws(t) == t
  {
    TokenHasNoComma(t);
    TokenHasNoSpace(t);
    hide *;
    TrimPadded([], t, []);
    assert [] + t + [] == t;
  }

  lemma TokenHasNoComma(t: bytes)
    requires IsToken(t)
    ensures IndexOf(t, ',') == |t|
  {
    assert IndexOf(t, ',') < |t| ==> IsTchar(t[IndexOf(t, ',')]);
  }

  lemma TokenHasNoSpace(t: bytes)
    requires IsToken(t)
    ensures t != [] && !IsWs(t[0]) && !IsWs(t[|t| - 1]) && All([], IsWs)
  {
    assert IsTchar(t[0]) && IsTchar(t[|t| - 1]);
  }

  lemma JoinTwo(t: bytes, j: bytes)
    requires IsToken(t)
    ensures TrimAll(SplitOn(t + (", " + j), ',')) == [t] + TrimAll(SplitOn(j, ','))
  {
    TokenAlone(t);
    hide TrimAll, SplitOn, IsToken;
    assert ", " + j == [','] + (" " + j);
    Assoc(t, [','], " " + j);
    SplitOnJoin(t, " " + j, ',');
    TrimAllAppend(SplitOn(t, ','), SplitOn(" " + j, ','));
    PadLeft(" ", j);
  }

  /** The tokens of a joined value are the tokens joined. */
  lemma {:induction false} JoinedTokens(ts: seq<bytes>)
    requires ts != [] && forall k :: 0 <= k < |ts| ==> MayName(ts[k])
    ensures TrimAll(SplitOn(Join(ts), ',')) == ts
  {
    assert MayName(ts[0]) && IsToken(ts[0]);
    hide TrimAll, SplitOn, MayName, IsToken;
    if |ts| == 1 {
      TokenAlone(ts[0]);
      assert ts == [ts[0]];
    } else {
      JoinedTokens(ts[1..]);
      JoinTwo(ts[0], Join(ts[1..]));
      assert ts == [ts[0]] + ts[1..];
    }
  }

  /** No token the server keeps for itself is left in a handler's field. */
  lemma JoinNames(value: bytes, token: bytes)
    requires ConnectionTokens(value) != []
    requires token == CLOSE || token == KEEP_ALIVE || token == NameOf(ContentLength) || token == NameOf(TransferEncoding)
    ensures !ValueHasToken(Join(ConnectionTokens(value)), token)
  {
    var ts := ConnectionTokens(value);
    hide ConnectionTokens;
    JoinedTokens(ts);
    TokenIsElement(Join(ts), token);
  }

  lemma SurvivesNames(f: Field, staleLength: bool, staleCoding: bool, token: bytes)
    requires token == CLOSE || token == KEEP_ALIVE || token == NameOf(ContentLength) || token == NameOf(TransferEncoding)
    ensures !NamesToken(AllValues(Survives(f, staleLength, staleCoding), Known(Connection)), token)
  {
    hide Canonical, ConnectionTokens, Join, ValueHasToken, NameOf, Survives, AllValues, NamesToken;
    SurvivesConnection(f, staleLength, staleCoding);
    NamesNothing(token);
    if ConnectionTokens(f.value) != [] {
      JoinNames(f.value, token);
      OneNames(Join(ConnectionTokens(f.value)), token);
    }
  }

  lemma {:induction false} SurvivorNames(fs: seq<Field>, staleLength: bool, staleCoding: bool, token: bytes)
    requires token == CLOSE || token == KEEP_ALIVE || token == NameOf(ContentLength) || token == NameOf(TransferEncoding)
    ensures !NamesToken(AllValues(Survivors(fs, staleLength, staleCoding), Known(Connection)), token)
  {
    if fs != [] {
      SurvivesNames(fs[0], staleLength, staleCoding, token);
      SurvivorNames(fs[1..], staleLength, staleCoding, token);
      hide Survives, AllValues, NamesToken;
      var a, b := Survives(fs[0], staleLength, staleCoding), Survivors(fs[1..], staleLength, staleCoding);
      AllValuesAppend(a, b, Known(Connection));
      NamesAppend(AllValues(a, Known(Connection)), AllValues(b, Known(Connection)), token);
    }
  }

  lemma CloseTokens()
    ensures IsToken(CLOSE) && IsToken(KEEP_ALIVE) && Lower(CLOSE) == CLOSE && Lower(KEEP_ALIVE) == KEEP_ALIVE
    ensures CLOSE != KEEP_ALIVE
  {
  }

  lemma SingleNames(t: bytes, token: bytes)
    requires IsToken(t)
    ensures NamesToken([t], token) <==> Lower(t) == token
  {
    TokenAlone(t);
    TokenIsElement(t, token);
    hide ValueHasToken, Lower, IsToken;
  }

  lemma NamesNothing(token: bytes)
    ensures !NamesToken([], token)
  {
  }

  lemma WriterConnection(r: Response, c: Context, date: bytes)
    ensures AllValues(DateField(r, date), Known(Connection)) == []
    ensures AllValues(FramingField(r, c), Known(Connection)) == []
    ensures AllValues(PersistenceField(r, c), Known(Connection))
            == if r.status == 101 then []
               else match ConnectionField(c.version, c.keepAlive) case Some(t) => [t] case None => []
  {
    hide Written, HandlerFramed, ForbidsFraming, Numeral;
  }

  /** The `Connection` values written are the handler's that survive, and the server's. */
  lemma StatedConnection(r: Response, c: Context, date: bytes)
    ensures Stated(r, c, date, Connection)
            == AllValues(Survivors(r.headers, StaleLength(r, c), StaleCoding(r, c)), Known(Connection))
               + AllValues(PersistenceField(r, c), Known(Connection))
  {
    WriterConnection(r, c, date);
    hide Survivors, DateField, FramingField, PersistenceField, StaleLength, StaleCoding, AllValues;
    var id := Known(Connection);
    var s := Survivors(r.headers, StaleLength(r, c), StaleCoding(r, c));
    AllValuesAppend(s + DateField(r, date) + FramingField(r, c), PersistenceField(r, c), id);
    AllValuesAppend(s + DateField(r, date), FramingField(r, c), id);
    AllValuesAppend(s, DateField(r, date), id);
    assert AllValues(s, id) + [] + [] == AllValues(s, id);
  }

  /** The server's own field names its token and no other. */
  lemma PersistenceNames(r: Response, c: Context, date: bytes, token: bytes)
    ensures NamesToken(AllValues(PersistenceField(r, c), Known(Connection)), token)
            <==> r.status != 101 && ConnectionField(c.version, c.keepAlive) == Some(token)
  {
    WriterConnection(r, c, date);
    CloseTokens();
    NamesNothing(token);
    SingleNames(CLOSE, token);
    SingleNames(KEEP_ALIVE, token);
    hide PersistenceField, AllValues, NamesToken, IsToken, Lower, DateField, FramingField;
  }

  /** Which of the server's own tokens the written `Connection` fields name. */
  lemma StatedTokens(r: Response, c: Context, date: bytes, token: bytes)
    requires token == CLOSE || token == KEEP_ALIVE || token == NameOf(ContentLength) || token == NameOf(TransferEncoding)
    ensures NamesToken(Stated(r, c, date, Connection), token)
            <==> r.status != 101 && ConnectionField(c.version, c.keepAlive) == Some(token)
  {
    hide Survivors, PersistenceField, StaleLength, StaleCoding, AllValues, NamesToken, NameOf, Stated, ConnectionField;
    var id := Known(Connection);
    var s := Survivors(r.headers, StaleLength(r, c), StaleCoding(r, c));
    StatedConnection(r, c, date);
    SurvivorNames(r.headers, StaleLength(r, c), StaleCoding(r, c), token);
    PersistenceNames(r, c, date, token);
    NamesAppend(AllValues(s, id), AllValues(PersistenceField(r, c), id), token);
  }

  lemma {:induction false} TrimmedNames(values: seq<bytes>, token: bytes)
    ensures NamesToken(TrimAll(values), token) <==> NamesToken(values, token)
  {
    if values != [] {
      TrimmedNames(values[1..], token);
      var v, later := values[0], values[1..];
      TrimHead(v, later);
      assert values == [v] + later;
      TokenIsElement(v, token);
      TokenIsElement(TrimOws(v), token);
      TrimmedElements(v);
      hide TrimAll, TrimOws, SplitOn, ValueHasToken, Lower;
      NamesAppend([v], later, token);
      NamesAppend([TrimOws(v)], TrimAll(later), token);
    }
  }

  lemma ReceivedTokens(r: Response, c: Context, date: bytes, token: bytes)
    requires token == CLOSE || token == KEEP_ALIVE || token == NameOf(ContentLength) || token == NameOf(TransferEncoding)
    ensures NamesToken(AllValues(ReceivedAll(Emitted(r, c, date)), Known(Connection)), token)
            <==> r.status != 101 && ConnectionField(c.version, c.keepAlive) == Some(token)
  {
    hide NamesToken, Emitted, ReceivedAll, TrimAll, AllValues, NameOf, ConnectionField, IsCanonical;
    EmittedCanonical(r, c, date);
    ReceivedValues(Emitted(r, c, date), Connection);
    TrimmedNames(Stated(r, c, date, Connection), token);
    StatedTokens(r, c, date, token);
  }

  lemma TokensDiffer()
    ensures CLOSE != KEEP_ALIVE
    ensures NameOf(ContentLength) != CLOSE && NameOf(ContentLength) != KEEP_ALIVE
    ensures NameOf(TransferEncoding) != CLOSE && NameOf(TransferEncoding) != KEEP_ALIVE
  {
  }

  /** Main result. A reader that follows the version's default and the `Connection`
      fields concludes what the server decided, whatever a handler's fields said, and is
      never told to strip a framing field. */
  lemma PersistenceIsTrue(r: Response, c: Context, date: bytes)
    requires r.status != 101
    ensures ReaderPersists(c.version, ReceivedAll(Emitted(r, c, date))) <==> c.keepAlive
    ensures var values := AllValues(ReceivedAll(Emitted(r, c, date)), Known(Connection));
            !NamesToken(values, NameOf(ContentLength)) && !NamesToken(values, NameOf(TransferEncoding))
  {
    ReceivedTokens(r, c, date, CLOSE);
    ReceivedTokens(r, c, date, KEEP_ALIVE);
    ReceivedTokens(r, c, date, NameOf(ContentLength));
    ReceivedTokens(r, c, date, NameOf(TransferEncoding));
    TokensDiffer();
    hide NamesToken, Emitted, ReceivedAll, AllValues, NameOf;
  }

  // ---- What is left alone ------------------------------------------------------------------------

  lemma SurvivesOther(f: Field, staleLength: bool, staleCoding: bool, id: HeaderId)
    requires id != Known(ContentLength) && id != Known(TransferEncoding) && id != Known(Connection)
    ensures AllValues(Survives(f, staleLength, staleCoding), id) == AllValues(Written([f]), id)
  {
    hide Canonical, ConnectionTokens, Join, Writable;
    var ts := ConnectionTokens(f.value);
    if ts != [] {
      OneField(Field(Known(Connection), Join(ts)), id);
    }
    OneField(Field(Canonical(f.id), f.value), id);
    assert Written([f]) == if Writable(f) then [Field(Canonical(f.id), f.value)] else [];
  }

  lemma {:induction false} SurvivorOthers(fs: seq<Field>, staleLength: bool, staleCoding: bool, id: HeaderId)
    requires id != Known(ContentLength) && id != Known(TransferEncoding) && id != Known(Connection)
    ensures AllValues(Survivors(fs, staleLength, staleCoding), id) == AllValues(Written(fs), id)
  {
    if fs != [] {
      SurvivesOther(fs[0], staleLength, staleCoding, id);
      SurvivorOthers(fs[1..], staleLength, staleCoding, id);
      WrittenCons(fs);
      hide Survives, Written, AllValues;
      AllValuesAppend(Survives(fs[0], staleLength, staleCoding), Survivors(fs[1..], staleLength, staleCoding), id);
      AllValuesAppend(Written([fs[0]]), Written(fs[1..]), id);
    }
  }

  lemma WriterOthers(r: Response, c: Context, date: bytes, id: HeaderId)
    requires id != Known(ContentLength) && id != Known(TransferEncoding) && id != Known(Connection)
    ensures AllValues(FramingField(r, c), id) == [] && AllValues(PersistenceField(r, c), id) == []
    ensures AllValues(DateField(r, date), id)
            == if id == Known(Date) && AllValues(Written(r.headers), id) == [] then [date] else []
  {
    hide Written, HandlerFramed, ForbidsFraming, Numeral;
  }

  /** Under every other name the values written are exactly the handler's writable ones,
      in order; a date is added only where there is none. */
  lemma OtherFieldsUntouched(r: Response, c: Context, date: bytes, id: HeaderId)
    requires id != Known(ContentLength) && id != Known(TransferEncoding) && id != Known(Connection)
    ensures AllValues(Emitted(r, c, date), id)
            == if id == Known(Date) && AllValues(Written(r.headers), id) == [] then [date]
               else AllValues(Written(r.headers), id)
  {
    WriterOthers(r, c, date, id);
    hide Survivors, DateField, FramingField, PersistenceField, StaleLength, StaleCoding, AllValues, Written;
    var s := Survivors(r.headers, StaleLength(r, c), StaleCoding(r, c));
    SurvivorOthers(r.headers, StaleLength(r, c), StaleCoding(r, c), id);
    AllValuesAppend(s + DateField(r, date) + FramingField(r, c), PersistenceField(r, c), id);
    AllValuesAppend(s + DateField(r, date), FramingField(r, c), id);
    AllValuesAppend(s, DateField(r, date), id);
  }

  lemma {:induction false} FilterKeeps(ts: seq<bytes>, e: bytes)
    ensures e in Filter(ts) <==> e in ts && MayName(e)
  {
    hide MayName;
    if ts != [] {
      FilterKeeps(ts[1..], e);
      assert ts == [ts[0]] + ts[1..];
    }
  }

  /** The tokens that pass are those of the value that a handler may name. */
  lemma TokensThatPass(value: bytes, token: bytes)
    ensures token in ConnectionTokens(value) <==>
            token in TrimAll(SplitOn(value, ',')) && MayName(token)
  {
    hide MayName;
    FilterKeeps(TrimAll(SplitOn(value, ',')), token);
  }

  /** A token the server does not keep for itself. */
  predicate IsOrdinary(token: bytes) { MayName(token) && Lower(token) == token }

  /** An ordinary token is in a handler's value exactly when it is in what is written of
      it. */
  lemma OrdinaryTokenStays(value: bytes, token: bytes)
    requires IsOrdinary(token)
    ensures ValueHasToken(value, token)
            <==> ConnectionTokens(value) != [] && ValueHasToken(Join(ConnectionTokens(value)), token)
  {
    var es := TrimAll(SplitOn(value, ','));
    var ts := ConnectionTokens(value);
    TokenIsElement(value, token);
    if ts != [] {
      JoinedTokens(ts);
      TokenIsElement(Join(ts), token);
    }
    hide ValueHasToken, TrimAll, SplitOn, Join, Filter, IsToken;
    forall e
      ensures e in ts <==> e in es && MayName(e)
    {
      FilterKeeps(es, e);
    }
    forall e | Lower(e) == token
      ensures MayName(e)
    {
      LowerToken(e);
      LowerToken(token);
    }
  }

  lemma OneNames(v: bytes, token: bytes)
    ensures NamesToken([v], token) <==> ValueHasToken(v, token)
  {
    hide ValueHasToken;
    assert v in [v];
  }

  /** The `Connection` values of one field as it is written. */
  lemma SurvivesConnection(f: Field, staleLength: bool, staleCoding: bool)
    ensures AllValues(Survives(f, staleLength, staleCoding), Known(Connection))
            == if Canonical(f.id) != Known(Connection) || ConnectionTokens(f.value) == [] then []
               else [Join(ConnectionTokens(f.value))]
  {
    hide Canonical, ConnectionTokens, Join, Writable;
    var ts := ConnectionTokens(f.value);
    if ts != [] {
      OneField(Field(Known(Connection), Join(ts)), Known(Connection));
    }
    OneField(Field(Canonical(f.id), f.value), Known(Connection));
  }

  lemma SurvivesOrdinary(f: Field, staleLength: bool, staleCoding: bool, token: bytes)
    requires IsOrdinary(token)
    ensures NamesToken(AllValues(Survives(f, staleLength, staleCoding), Known(Connection)), token)
            <==> Canonical(f.id) == Known(Connection) && ValueHasToken(f.value, token)
  {
    hide Canonical, ConnectionTokens, Join, ValueHasToken, IsOrdinary, Survives, AllValues, NamesToken;
    OrdinaryTokenStays(f.value, token);
    SurvivesConnection(f, staleLength, staleCoding);
    NamesNothing(token);
    if ConnectionTokens(f.value) != [] {
      OneNames(Join(ConnectionTokens(f.value)), token);
    }
  }

  predicate HandlerNames(fs: seq<Field>, token: bytes) {
    exists f :: f in fs && Canonical(f.id) == Known(Connection) && ValueHasToken(f.value, token)
  }

  lemma HandlerNamesCons(fs: seq<Field>, token: bytes)
    ensures fs == [] ==> !HandlerNames(fs, token)
    ensures fs != [] ==>
              (HandlerNames(fs, token)
               <==> (Canonical(fs[0].id) == Known(Connection) && ValueHasToken(fs[0].value, token)) || HandlerNames(fs[1..], token))
  {
    hide Canonical, ValueHasToken;
    if fs != [] {
      assert fs[0] in fs && fs == [fs[0]] + fs[1..];
      assert forall f :: f in fs <==> f == fs[0] || f in fs[1..];
    }
  }

  lemma {:induction false} SurvivorsOrdinary(fs: seq<Field>, staleLength: bool, staleCoding: bool, token: bytes)
    requires IsOrdinary(token)
    ensures NamesToken(AllValues(Survivors(fs, staleLength, staleCoding), Known(Connection)), token)
            <==> HandlerNames(fs, token)
  {
    HandlerNamesCons(fs, token);
    NamesNothing(token);
    hide HandlerNames, Survives, NamesToken, Canonical, ValueHasToken, IsOrdinary;
    if fs != [] {
      SurvivesOrdinary(fs[0], staleLength, staleCoding, token);
      SurvivorsOrdinary(fs[1..], staleLength, staleCoding, token);
      hide AllValues;
      var a, b := Survives(fs[0], staleLength, staleCoding), Survivors(fs[1..], staleLength, staleCoding);
      AllValuesAppend(a, b, Known(Connection));
      NamesAppend(AllValues(a, Known(Connection)), AllValues(b, Known(Connection)), token);
    }
  }

  /** Every token of a handler's `Connection` fields but the server's own and the framing
      fields' names reaches the wire, and no other does. */
  lemma OtherTokensPass(r: Response, c: Context, date: bytes, token: bytes)
    requires IsOrdinary(token)
    ensures NamesToken(Stated(r, c, date, Connection), token) <==> HandlerNames(r.headers, token)
  {
    OrdinaryIsNotOurs(token);
    hide Survivors, PersistenceField, StaleLength, StaleCoding, AllValues, NamesToken, Stated, ConnectionField, HandlerNames,
      IsOrdinary;
    var id := Known(Connection);
    var s := Survivors(r.headers, StaleLength(r, c), StaleCoding(r, c));
    StatedConnection(r, c, date);
    SurvivorsOrdinary(r.headers, StaleLength(r, c), StaleCoding(r, c), token);
    PersistenceNames(r, c, date, token);
    OursIsReserved(c);
    NamesAppend(AllValues(s, id), AllValues(PersistenceField(r, c), id), token);
  }

  lemma OrdinaryIsNotOurs(token: bytes)
    requires IsOrdinary(token)
    ensures token != CLOSE && token != KEEP_ALIVE
  {
    hide IsToken, Lower, NameOf;
  }

  lemma OursIsReserved(c: Context)
    ensures ConnectionField(c.version, c.keepAlive).Some? ==>
              ConnectionField(c.version, c.keepAlive).value in [CLOSE, KEEP_ALIVE]
  {
  }
}
