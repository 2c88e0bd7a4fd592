/** The response head writer's code against its specification (`write_head_for` and
    `write_connection_tokens` in `src/write.rs`). */
module ResponseWriter {
  import opened Octets
  import opened Numerals
  import opened Headers
  import opened FieldLines
  import opened HeadLines
  import opened Target
  import opened ResponseHead

  function First(vs: seq<bytes>): Option<bytes> { if vs == [] then None else Some(vs[0]) }

  lemma {:induction false} JoinSnoc(ts: seq<bytes>, t: bytes)
    requires ts != []
    ensures Join(ts + [t]) == Join(ts) + ", " + t
  {
    if |ts| == 1 {
      assert ts + [t] == [ts[0], t];
      assert (ts + [t])[1..] == [t];
      Assoc(ts[0], ", ", t);
    } else {
      JoinSnoc(ts[1..], t);
      assert (ts + [t])[1..] == ts[1..] + [t];
      var j := Join(ts[1..]);
      Assoc(", ", j + ", ", t);
      Assoc(", ", j, ", ");
      Assoc(ts[0], ", " + j, ", ");
      Assoc(ts[0], ", " + j + ", ", t);
    }
  }

  /** A handler's `Connection` field, token by token, or nothing. */
  method WriteConnectionTokens(out: bytes, value: bytes) returns (r: bytes)
    ensures var ts := ConnectionTokens(value);
            r == if ts == [] then out else out + Line(FieldContent(Field(Known(Connection), Join(ts))))
  {
    hide ConnectionTokens, Join;
    var ts := ConnectionTokens(value);
    var first := true;
    r := out;
    for i := 0 to |ts|
      invariant first <==> i == 0
      invariant r == if i == 0 then out else out + "connection: " + Join(ts[..i])
    {
      assert ts[..i + 1] == ts[..i] + [ts[i]];
      if first {
        JoinOne(ts[i]);
        assert ts[..1] == [ts[0]];
      } else {
        JoinSnoc(ts[..i], ts[i]);
        Assoc(out + "connection: ", Join(ts[..i]), ", ");
        Assoc(out + "connection: ", Join(ts[..i]) + ", ", ts[i]);
      }
      r := r + (if first then "connection: " else ", ") + ts[i];
      first := false;
    }
    if !first {
      r := r + "\r\n";
      assert ts[..|ts|] == ts;
      ConnectionLine(out, Join(ts));
    }
  }

  lemma JoinOne(t: bytes)
    ensures Join([t]) == t
  {
  }

  lemma ConnectionLine(out: bytes, v: bytes)
    ensures out + "connection: " + v + "\r\n" == out + Line(FieldContent(Field(Known(Connection), v)))
  {
    assert "connection: " + v == "connection" + (": " + v);
    Assoc(out, "connection: ", v);
    Assoc(out, "connection: " + v, "\r\n");
  }

  lemma {:induction false} WrittenAppend(a: seq<Field>, b: seq<Field>)
    ensures Written(a + b) == Written(a) + Written(b)
  {
    if a == [] {
      assert a + b == b;
    } else {
      WrittenAppend(a[1..], b);
      assert (a + b)[0] == a[0] && (a + b)[1..] == a[1..] + b;
      hide Writable, Canonical;
      Assoc(if Writable(a[0]) then [Field(Canonical(a[0].id), a[0].value)] else [], Written(a[1..]), Written(b));
    }
  }

  /** One more field of the walk. */
  lemma WalkStep(fs: seq<Field>, i: nat, id: HeaderId)
    requires i < |fs|
    ensures AllValues(Written(fs[..i + 1]), id)
            == AllValues(Written(fs[..i]), id)
               + (if Writable(fs[i]) && Canonical(fs[i].id) == id then [fs[i].value] else [])
  {
    hide Writable, Canonical;
    assert fs[..i + 1] == fs[..i] + [fs[i]];
    WrittenAppend(fs[..i], [fs[i]]);
    var one := if Writable(fs[i]) then [Field(Canonical(fs[i].id), fs[i].value)] else [];
    assert Written([fs[i]]) == one;
    AllValuesAppend(Written(fs[..i]), one, id);
    assert AllValues(one, id) == if Writable(fs[i]) && Canonical(fs[i].id) == id then [fs[i].value] else [];
  }

  /** What the one walk of the field list learns. */
  datatype Walk = Walk(writable: seq<bool>, hasDate: bool, lens: nat, len: Option<bytes>, tes: nat, te: Option<bytes>)

  ghost predicate Walked(w: Walk, fs: seq<Field>) {
    var lens, tes := AllValues(Written(fs), Known(ContentLength)), AllValues(Written(fs), Known(TransferEncoding));
    && |w.writable| == |fs| && (forall j :: 0 <= j < |fs| ==> w.writable[j] == Writable(fs[j]))
    && (w.hasDate <==> AllValues(Written(fs), Known(Date)) != [])
    && w.lens == |lens| && w.len == First(lens) && w.tes == |tes| && w.te == First(tes)
  }

  method WalkFields(fs: seq<Field>) returns (w: Walk)
    ensures Walked(w, fs)
  {
    w := Walk([], false, 0, None, 0, None);
    for i := 0 to |fs|
      invariant Walked(w, fs[..i])
    {
      hide Writable, Canonical, Walked;
      var ok := Writable(fs[i]);
      w := WalkOne(w, fs, i, ok);
    }
    assert fs[..|fs|] == fs;
  }

  /** One field of the walk, and what it adds. */
  method WalkOne(before: Walk, fs: seq<Field>, i: nat, ok: bool) returns (w: Walk)
    requires i < |fs| && ok == Writable(fs[i]) && Walked(before, fs[..i])
    ensures Walked(w, fs[..i + 1])
  {
    hide Writable, Canonical, Written, AllValues;
    WalkStep(fs, i, Known(Date));
    WalkStep(fs, i, Known(ContentLength));
    WalkStep(fs, i, Known(TransferEncoding));
    w := before.(writable := before.writable + [ok]);
    if ok {
      match Canonical(fs[i].id) {
        case Known(Date) => w := w.(hasDate := true);
        case Known(ContentLength) =>
          w := w.(lens := w.lens + 1, len := if w.len.None? then Some(fs[i].value) else w.len);
        case Known(TransferEncoding) =>
          w := w.(tes := w.tes + 1, te := if w.te.None? then Some(fs[i].value) else w.te);
        case _ =>
      }
    }
  }

  // ---- The emit loop ---------------------------------------------------------------------------

  lemma {:induction false} SurvivorsAppend(a: seq<Field>, b: seq<Field>, staleLength: bool, staleCoding: bool)
    ensures Survivors(a + b, staleLength, staleCoding)
            == Survivors(a, staleLength, staleCoding) + Survivors(b, staleLength, staleCoding)
  {
    hide Survives;
    if a == [] {
      assert a + b == b;
    } else {
      SurvivorsAppend(a[1..], b, staleLength, staleCoding);
      assert (a + b)[0] == a[0] && (a + b)[1..] == a[1..] + b;
      Assoc(Survives(a[0], staleLength, staleCoding), Survivors(a[1..], staleLength, staleCoding),
            Survivors(b, staleLength, staleCoding));
    }
  }

  lemma EmitStep(out: bytes, fs: seq<Field>, i: nat, staleLength: bool, staleCoding: bool)
    requires i < |fs|
    ensures out + FieldLinesOf(Survivors(fs[..i + 1], staleLength, staleCoding))
            == out + FieldLinesOf(Survivors(fs[..i], staleLength, staleCoding))
               + FieldLinesOf(Survives(fs[i], staleLength, staleCoding))
  {
    hide Survives, FieldLinesOf;
    assert fs[..i + 1] == fs[..i] + [fs[i]];
    SurvivorsAppend(fs[..i], [fs[i]], staleLength, staleCoding);
    var before, one := Survivors(fs[..i], staleLength, staleCoding), Survives(fs[i], staleLength, staleCoding);
    assert Survivors([fs[i]], staleLength, staleCoding) == one + [] == one;
    FieldLinesAppend(before, one);
    Assoc(out, FieldLinesOf(before), FieldLinesOf(one));
  }

  method WriteField(out: bytes, f: Field) returns (r: bytes)
    ensures r == out + FieldLinesOf([f])
  {
    r := out + AsStr(f.id) + ": " + f.value + "\r\n";
    OneLine(f);
    FieldShape(out, AsStr(f.id), f.value);
  }

  lemma FieldShape(out: bytes, name: bytes, v: bytes)
    ensures out + name + ": " + v + "\r\n" == out + Line(name + (": " + v))
  {
    Assoc(name, ": ", v);
    Assoc(out, name, ": ");
    Assoc(out, name + ": ", v);
    Assoc(out, name + ": " + v, "\r\n");
  }

  /** One turn of the emit loop. */
  method EmitField(out: bytes, f: Field, writable: bool, staleLength: bool, staleCoding: bool) returns (r: bytes)
    requires writable == Writable(f)
    ensures r == out + FieldLinesOf(Survives(f, staleLength, staleCoding))
  {
    hide Canonical, ConnectionTokens, Join, Writable, FieldContent, Line, FieldLinesOf;
    var id := Canonical(f.id);
    OneLine(f);
    assert out + [] == out;
    if staleLength && id == Known(ContentLength) {
      return out;
    }
    if staleCoding && id == Known(TransferEncoding) {
      return out;
    }
    if id == Known(Connection) {
      r := WriteConnectionTokens(out, f.value);
      if ConnectionTokens(f.value) != [] {
        OneLine(Field(Known(Connection), Join(ConnectionTokens(f.value))));
      }
      return;
    }
    if !writable {
      return out;
    }
    r := WriteField(out, Field(id, f.value));
  }

  method EmitFields(out: bytes, fs: seq<Field>, writable: seq<bool>, staleLength: bool, staleCoding: bool) returns (r: bytes)
    requires |writable| == |fs| && forall j :: 0 <= j < |fs| ==> writable[j] == Writable(fs[j])
    ensures r == out + FieldLinesOf(Survivors(fs, staleLength, staleCoding))
  {
    hide Survives, Writable;
    r := out;
    for i := 0 to |fs|
      invariant r == out + FieldLinesOf(Survivors(fs[..i], staleLength, staleCoding))
    {
      EmitStep(out, fs, i, staleLength, staleCoding);
      r := EmitField(r, fs[i], writable[i], staleLength, staleCoding);
    }
    assert fs[..|fs|] == fs;
  }

  // ---- The whole head ------------------------------------------------------------------------------

  method WriteStatusLine(out: bytes, v: Version, status: nat, phrase: bytes) returns (r: bytes)
    requires status <= U64_MAX
    ensures r == out + Line(StatusLine(v, status, phrase))
  {
    r := out + VersionBytes(v);
    r := r + " ";
    r := WriteU64(r, status);
    if phrase != [] {
      r := r + " ";
      r := r + phrase;
    }
    r := r + "\r\n";
    var n, p := Numeral(10, status), if phrase == [] then [] else " " + phrase;
    StatusShape(out, VersionBytes(v), n, p);
    assert out + VersionBytes(v) + " " + n + [] == out + VersionBytes(v) + " " + n;
    Assoc(out + VersionBytes(v) + " " + n, " ", phrase);
  }

  lemma StatusShape(out: bytes, v: bytes, n: bytes, p: bytes)
    ensures out + v + " " + n + p + "\r\n" == out + Line(v + (" " + (n + p)))
  {
    Assoc(v + " ", n, p);
    Assoc(v, " ", n + p);
    Assoc(out, v, " ");
    Assoc(out, v + " ", n);
    Assoc(out, v + " " + n, p);
    Assoc(out, v + " " + n + p, "\r\n");
  }

  /** `write_head_for`. A status fits the source's `u16`, a length its `u64`. */
  method WriteHeadFor(out: bytes, r: Response, c: Context, phrase: bytes, date: bytes) returns (o: bytes)
    requires r.status <= 0xFFFF && (c.body.Fixed? ==> |c.body.data| <= U64_MAX)
    ensures o == out + ResponseBytes(r, c, phrase, date)
  {
    hide Survivors, Written, AllValues, FieldLinesOf, StatusLine, LengthIsStale, FramesChunked, ForbidsFraming, Line,
      Writable, Numeral;
    var closeDelimited := c.version.Http10? && c.body.Stream?;
    var started := WriteStatusLine(out, c.version, r.status, phrase);
    var w := WalkFields(r.headers);
    var staleCoding := w.te.Some? &&
      (w.tes > 1 || !c.body.Stream? || closeDelimited || ForbidsFraming(r.status) || !FramesChunked(w.te.value));
    assert staleCoding == StaleCoding(r, c);
    var staleLength := w.len.Some? &&
      LengthIsStale(w.len.value, w.lens, r.status, c.headRequest, BodyLen(c.body), w.te.Some? && !staleCoding);
    assert staleLength == StaleLength(r, c);
    var a := EmitFields(started, r.headers, w.writable, staleLength, staleCoding);
    var b := a;
    if !w.hasDate {
      b := WriteField(a, Field(Known(Date), date));
    }
    var framed := (!staleLength && w.len.Some?) || (!staleCoding && w.te.Some?);
    assert framed == HandlerFramed(r, c);
    var f := WriteFraming(b, r, c, framed);
    var p := f;
    if r.status != 101 {
      var token := ConnectionField(c.version, c.keepAlive);
      if token.Some? {
        p := WriteField(f, Field(Known(Connection), token.value));
      }
    }
    o := p + "\r\n";
    NoLines(a, b, f);
    var s := Survivors(r.headers, staleLength, staleCoding);
    Assembled(out, StatusLine(c.version, r.status, phrase), s, DateField(r, date), FramingField(r, c), PersistenceField(r, c),
              started, a, b, f, p);
  }

  lemma NoLines(a: bytes, b: bytes, f: bytes)
    ensures a + FieldLinesOf([]) == a && b + FieldLinesOf([]) == b && f + FieldLinesOf([]) == f
  {
  }

  method WriteFraming(out: bytes, r: Response, c: Context, framed: bool) returns (o: bytes)
    requires framed == HandlerFramed(r, c) && (c.body.Fixed? ==> |c.body.data| <= U64_MAX)
    ensures o == out + FieldLinesOf(FramingField(r, c))
  {
    hide HandlerFramed, ForbidsFraming, FieldLinesOf, Numeral;
    NoLines(out, out, out);
    o := out;
    if !framed && !ForbidsFraming(r.status) {
      match c.body {
        case Fixed(data) =>
          o := o + "content-length: ";
          o := WriteU64(o, |data|);
          o := o + "\r\n";
          LengthShape(out, Numeral(10, |data|));
        case Stream =>
          if !(c.version.Http10? && c.body.Stream?) {
            o := WriteField(out, Field(Known(TransferEncoding), "chunked"));
          }
        case Empty =>
          o := WriteField(out, Field(Known(ContentLength), "0"));
      }
    }
  }

  lemma LengthShape(out: bytes, n: bytes)
    ensures out + "content-length: " + n + "\r\n" == out + FieldLinesOf([Field(Known(ContentLength), n)])
  {
    var f := Field(Known(ContentLength), n);
    OneLine(f);
    assert "content-length: " + n == "content-length" + (": " + n);
    Assoc(out, "content-length: ", n);
    Assoc(out, "content-length: " + n, "\r\n");
  }

  lemma Assembled(out: bytes, start: bytes, s: seq<Field>, d: seq<Field>, g: seq<Field>, q: seq<Field>,
                  started: bytes, a: bytes, b: bytes, f: bytes, p: bytes)
    requires started == out + Line(start)
    requires a == started + FieldLinesOf(s)
    requires b == a + FieldLinesOf(d)
    requires f == b + FieldLinesOf(g)
    requires p == f + FieldLinesOf(q)
    ensures p + "\r\n" == out + HeadBytes(start, s + d + g + q)
  {
    hide FieldLinesOf, Line;
    var all := FieldLinesOf(s + d + g + q);
    FieldLinesAppend(s, d);
    FieldLinesAppend(s + d, g);
    FieldLinesAppend(s + d + g, q);
    Assoc(started, FieldLinesOf(s), FieldLinesOf(d));
    Assoc(started, FieldLinesOf(s + d), FieldLinesOf(g));
    Assoc(started, FieldLinesOf(s + d + g), FieldLinesOf(q));
    Assoc(out, Line(start), all);
    Assoc(Line(start), all, "\r\n");
    Assoc(out, Line(start) + all, "\r\n");
  }

  /** `write_head`: a stream on HTTP/1.0 costs the connection. */
  method WriteHead(out: bytes, r: Response, c: Context, phrase: bytes, date: bytes) returns (o: bytes)
    requires r.status <= 0xFFFF && (c.body.Fixed? ==> |c.body.data| <= U64_MAX)
    ensures var keep := c.keepAlive && !(CloseDelimited(c) && !ForbidsFraming(r.status));
            o == out + ResponseBytes(r, c.(keepAlive := keep, headRequest := false), phrase, date)
  {
    hide ResponseBytes;
    var keep := c.keepAlive && !(c.version.Http10? && c.body.Stream? && !ForbidsFraming(r.status));
    o := WriteHeadFor(out, r, c.(keepAlive := keep, headRequest := false), phrase, date);
  }
}
