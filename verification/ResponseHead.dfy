/** The response head writer (`write_head_for` in `src/write.rs`): which fields survive,
    which framing field is stated, and what is stated about persistence. */
module ResponseHead {
  import opened Octets
  import opened Numerals
  import opened Headers
  import opened FieldLines
  import opened HeadScan
  import opened HeadLines
  import opened Target
  import opened Framing

  datatype OutBody = Empty | Fixed(data: bytes) | Stream

  datatype Response = Response(status: nat, headers: seq<Field>)

  /** What the writer is told besides the response. */
  datatype Context = Context(version: Version, body: OutBody, keepAlive: bool, headRequest: bool)

  predicate ForbidsFraming(status: nat) { status == 204 || status == 304 || 100 <= status < 200 }

  predicate LengthIsDescriptive(status: nat) { status == 304 }

  predicate IsFinalStatus(status: nat, upgradeRequested: bool) {
    200 <= status <= 599 || (status == 101 && upgradeRequested)
  }

  function ParseLen(v: bytes): Option<nat> { ParseU64(10, v) }

  /** Whether a `Transfer-Encoding` value ends the message with the chunked coding. */
  predicate FramesChunked(v: bytes) {
    && IsAscii(v)
    && var codings := NonEmpty(TrimAll(SplitOn(v, ',')));
       codings != [] && IsChunkedToken(codings[|codings| - 1])
  }

  predicate LengthIsStale(v: bytes, instances: nat, status: nat, headRequest: bool,
                          bodyLen: Option<nat>, competingTe: bool)
  {
    if instances > 1 || (ForbidsFraming(status) && !LengthIsDescriptive(status)) then true
    else if LengthIsDescriptive(status) || (headRequest && !ForbidsFraming(status)) then
      ParseLen(v).None? || competingTe
    else bodyLen.None? || ParseLen(v) != bodyLen
  }

  // ---- Connection tokens -----------------------------------------------------------------

  const CLOSE: bytes := "close"
  const KEEP_ALIVE: bytes := "keep-alive"

  predicate MayName(t: bytes) {
    && IsToken(t)
    && Lower(t) != CLOSE && Lower(t) != KEEP_ALIVE
    && Lower(t) != NameOf(ContentLength) && Lower(t) != NameOf(TransferEncoding)
  }

  function Filter(ts: seq<bytes>): (r: seq<bytes>)
    ensures forall k :: 0 <= k < |r| ==> MayName(r[k])
  {
    if ts == [] then [] else (if MayName(ts[0]) then [ts[0]] else []) + Filter(ts[1..])
  }

  function ConnectionTokens(value: bytes): (r: seq<bytes>)
    ensures forall k :: 0 <= k < |r| ==> MayName(r[k])
  {
    Filter(TrimAll(SplitOn(value, ',')))
  }

  function Join(ts: seq<bytes>): bytes
    requires ts != []
  {
    if |ts| == 1 then ts[0] else ts[0] + (", " + Join(ts[1..]))
  }

  function ConnectionField(version: Version, keepAlive: bool): Option<bytes> {
    if !keepAlive then Some(CLOSE) else if version.Http10? then Some(KEEP_ALIVE) else None
  }

  // ---- The fields that reach the wire ------------------------------------------------------

  /** The fields that may be written, under the names the wire reads. */
  function Written(fs: seq<Field>): seq<Field> {
    if fs == [] then []
    else (if Writable(fs[0]) then [Field(Canonical(fs[0].id), fs[0].value)] else []) + Written(fs[1..])
  }

  function BodyLen(body: OutBody): Option<nat> {
    match body case Fixed(b) => Some(|b|) case Empty => Some(0) case Stream => None
  }

  predicate CloseDelimited(c: Context) { c.version.Http10? && c.body.Stream? }

  function HandlerLengths(r: Response): seq<bytes> { AllValues(Written(r.headers), Known(ContentLength)) }

  function HandlerCodings(r: Response): seq<bytes> { AllValues(Written(r.headers), Known(TransferEncoding)) }

  predicate StaleCoding(r: Response, c: Context) {
    var tes := HandlerCodings(r);
    tes != [] && (|tes| > 1 || !c.body.Stream? || CloseDelimited(c) || ForbidsFraming(r.status) || !FramesChunked(tes[0]))
  }

  predicate StaleLength(r: Response, c: Context) {
    var lens := HandlerLengths(r);
    lens != [] && LengthIsStale(lens[0], |lens|, r.status, c.headRequest, BodyLen(c.body),
                                HandlerCodings(r) != [] && !StaleCoding(r, c))
  }

  /** One handler field as it is written, if it is. */
  function Survives(f: Field, staleLength: bool, staleCoding: bool): seq<Field> {
    var id := Canonical(f.id);
    if staleLength && id == Known(ContentLength) then []
    else if staleCoding && id == Known(TransferEncoding) then []
    else if id == Known(Connection) then
      if ConnectionTokens(f.value) == [] then [] else [Field(id, Join(ConnectionTokens(f.value)))]
    else if !Writable(f) then []
    else [Field(id, f.value)]
  }

  function Survivors(fs: seq<Field>, staleLength: bool, staleCoding: bool): seq<Field> {
    if fs == [] then [] else Survives(fs[0], staleLength, staleCoding) + Survivors(fs[1..], staleLength, staleCoding)
  }

  function DateField(r: Response, date: bytes): seq<Field> {
    if AllValues(Written(r.headers), Known(Date)) == [] then [Field(Known(Date), date)] else []
  }

  predicate HandlerFramed(r: Response, c: Context) {
    || (HandlerLengths(r) != [] && !StaleLength(r, c))
    || (HandlerCodings(r) != [] && !StaleCoding(r, c))
  }

  function FramingField(r: Response, c: Context): seq<Field> {
    if HandlerFramed(r, c) || ForbidsFraming(r.status) then []
    else
      match c.body
      case Fixed(b) => [Field(Known(ContentLength), Numeral(10, |b|))]
      case Stream => if CloseDelimited(c) then [] else [Field(Known(TransferEncoding), "chunked")]
      case Empty => [Field(Known(ContentLength), "0")]
  }

  function PersistenceField(r: Response, c: Context): seq<Field> {
    if r.status == 101 then []
    else match ConnectionField(c.version, c.keepAlive)
         case Some(t) => [Field(Known(Connection), t)]
         case None => []
  }

  /** Every field of the head, in order. */
  function Emitted(r: Response, c: Context, date: bytes): seq<Field> {
    Survivors(r.headers, StaleLength(r, c), StaleCoding(r, c))
    + DateField(r, date) + FramingField(r, c) + PersistenceField(r, c)
  }

  function VersionBytes(v: Version): bytes { if v.Http11? then "HTTP/1.1" else "HTTP/1.0" }

  /** `phrase` is the reason phrase registered for the status, possibly empty. */
  function StatusLine(v: Version, status: nat, phrase: bytes): bytes {
    VersionBytes(v) + (" " + (Numeral(10, status) + (if phrase == [] then [] else " " + phrase)))
  }

  function ResponseBytes(r: Response, c: Context, phrase: bytes, date: bytes): bytes {
    HeadBytes(StatusLine(c.version, r.status, phrase), Emitted(r, c, date))
  }

  // ---- Every field is writable ----------------------------------------------------------------

  lemma AllWritableAppend(a: seq<Field>, b: seq<Field>)
    requires AllWritable(a) && AllWritable(b)
    ensures AllWritable(a + b)
  {
  }

  lemma TokenIsValue(t: bytes)
    requires IsToken(t)
    ensures ValidValue(t)
  {
    assert forall i :: 0 <= i < |t| ==> IsTchar(t[i]);
  }

  lemma ValidAppend(a: bytes, b: bytes)
    requires ValidValue(a) && ValidValue(b)
    ensures ValidValue(a + b)
  {
  }

  lemma {:induction false} JoinIsValue(ts: seq<bytes>)
    requires ts != [] && forall k :: 0 <= k < |ts| ==> MayName(ts[k])
    ensures ValidValue(Join(ts))
  {
    TokenIsValue(ts[0]);
    if |ts| > 1 {
      JoinIsValue(ts[1..]);
      hide ValidValue, Join;
      CommaIsValue();
      ValidAppend(", ", Join(ts[1..]));
      ValidAppend(ts[0], ", " + Join(ts[1..]));
      JoinStep(ts);
    }
  }

  lemma CommaIsValue()
    ensures ValidValue(", ")
  {
  }

  lemma JoinStep(ts: seq<bytes>)
    requires |ts| > 1
    ensures Join(ts) == ts[0] + (", " + Join(ts[1..]))
  {
  }

  lemma CanonicalWritable(f: Field)
    requires Writable(f)
    ensures Writable(Field(Canonical(f.id), f.value))
  {
    hide FromBytes, ValidValue, IsToken;
  }

  lemma SurvivesWritable(f: Field, staleLength: bool, staleCoding: bool)
    ensures AllWritable(Survives(f, staleLength, staleCoding))
  {
    hide Canonical, ConnectionTokens, Join, ValidValue, IsToken;
    if Writable(f) {
      CanonicalWritable(f);
    }
    var ts := ConnectionTokens(f.value);
    if ts != [] {
      JoinIsValue(ts);
      KnownIsWritable(Connection, Join(ts));
    }
  }

  lemma KnownIsWritable(k: WellKnown, v: bytes)
    requires ValidValue(v)
    ensures Writable(Field(Known(k), v))
  {
  }

  lemma {:induction false} SurvivorsWritable(fs: seq<Field>, staleLength: bool, staleCoding: bool)
    ensures AllWritable(Survivors(fs, staleLength, staleCoding))
  {
    if fs != [] {
      SurvivesWritable(fs[0], staleLength, staleCoding);
      SurvivorsWritable(fs[1..], staleLength, staleCoding);
      hide AllWritable, Survives;
      AllWritableAppend(Survives(fs[0], staleLength, staleCoding), Survivors(fs[1..], staleLength, staleCoding));
    }
  }

  lemma DigitsAreValue(s: bytes)
    requires IsNumeral(10, s)
    ensures ValidValue(s) && All(s, NotBreak)
  {
    assert forall i :: 0 <= i < |s| ==> IsDigit(s[i]);
  }

  lemma WriterFieldsWritable(r: Response, c: Context, date: bytes)
    requires ValidValue(date)
    ensures AllWritable(DateField(r, date) + FramingField(r, c) + PersistenceField(r, c))
  {
    hide HandlerFramed, ForbidsFraming, Written, Numeral;
    if c.body.Fixed? {
      DigitsAreValue(Numeral(10, |c.body.data|));
    }
    assert AllWritable(DateField(r, date)) && AllWritable(FramingField(r, c)) && AllWritable(PersistenceField(r, c));
    hide AllWritable;
    AllWritableAppend(DateField(r, date), FramingField(r, c));
    AllWritableAppend(DateField(r, date) + FramingField(r, c), PersistenceField(r, c));
  }

  lemma EmittedWritable(r: Response, c: Context, date: bytes)
    requires ValidValue(date)
    ensures AllWritable(Emitted(r, c, date))
  {
    hide AllWritable, Survivors, DateField, FramingField, PersistenceField, StaleLength, StaleCoding, ValidValue;
    var s := Survivors(r.headers, StaleLength(r, c), StaleCoding(r, c));
    SurvivorsWritable(r.headers, StaleLength(r, c), StaleCoding(r, c));
    WriterFieldsWritable(r, c, date);
    var w := DateField(r, date) + FramingField(r, c) + PersistenceField(r, c);
    AllWritableAppend(s, w);
    Assoc(s, DateField(r, date), FramingField(r, c));
    Assoc(s, DateField(r, date) + FramingField(r, c), PersistenceField(r, c));
  }

  lemma StatusLineIsContent(v: Version, status: nat, phrase: bytes)
    requires All(phrase, NotBreak)
    ensures IsContent(StatusLine(v, status, phrase))
  {
    var n := Numeral(10, status);
    DigitsAreValue(n);
    var p := if phrase == [] then [] else " " + phrase;
    assert All(" ", NotBreak) && All(VersionBytes(v), NotBreak);
    AllAppend(" ", phrase, NotBreak);
    AllAppend(n, p, NotBreak);
    AllAppend(" ", n + p, NotBreak);
    AllAppend(VersionBytes(v), " " + (n + p), NotBreak);
  }

  /** Main result. Whatever fields a handler supplied, the head written passes the
      strict scan, ends at its first empty line, and reads back as its status line and
      exactly the surviving fields in order, whatever follows it. */
  lemma HeadIntegrity(r: Response, c: Context, phrase: bytes, date: bytes, rest: bytes)
    requires ValidValue(date) && All(phrase, NotBreak)
    ensures var head := ResponseBytes(r, c, phrase, date);
            && Strict(head)
            && HeadEnd(head + rest) == Some(|head|)
            && ReadHead(head + rest)
               == Some((StatusLine(c.version, r.status, phrase), ReceivedAll(Emitted(r, c, date)), rest))
  {
    hide *;
    Unfold(r, c, phrase, date);
    StatusLineIsContent(c.version, r.status, phrase);
    EmittedWritable(r, c, date);
    HeadReadsBack(StatusLine(c.version, r.status, phrase), Emitted(r, c, date), rest);
  }

  lemma Unfold(r: Response, c: Context, phrase: bytes, date: bytes)
    ensures ResponseBytes(r, c, phrase, date) == HeadBytes(StatusLine(c.version, r.status, phrase), Emitted(r, c, date))
  {
  }
}
