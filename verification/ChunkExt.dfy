/** The chunk-extension recogniser (`check_chunk_ext`) against the grammar of
    RFC 9112 section 7.1.1. */
module ChunkExt {
  import opened Octets
  import opened Headers

  // ---- The grammar ---------------------------------------------------------------
  //
  //   chunk-ext      = *( BWS ";" BWS chunk-ext-name [ BWS "=" BWS chunk-ext-val ] )
  //   chunk-ext-name = token
  //   chunk-ext-val  = token / quoted-string

  /** HTAB, SP, VCHAR or obs-text: what may follow a backslash in a quoted-pair. */
  predicate IsQuotable(b: byte) { b == '\t' || b == ' ' || '!' <= b <= '~' || b >= '\U{80}' }

  /** What may stand for itself inside a quoted string. */
  predicate IsQdText(b: byte) { IsQuotable(b) && b != '"' && b != '\\' }

  type QdText = b: byte | IsQdText(b) witness 'q'
  type Quotable = b: byte | IsQuotable(b) witness 'q'
  type Ws = s: bytes | All(s, IsWs)
  type Token = s: bytes | IsToken(s) witness ['t']

  datatype QuotedChar = Plain(text: QdText) | Pair(escaped: Quotable)
  datatype ExtValue = TokenValue(t: Token) | QuotedValue(q: seq<QuotedChar>)
  datatype ExtArgument = NoArgument | Argument(w1: Ws, w2: Ws, v: ExtValue)
  datatype ExtItem = ExtItem(w1: Ws, w2: Ws, name: Token, arg: ExtArgument)

  function CharText(c: QuotedChar): bytes {
    match c case Plain(b) => [b] case Pair(b) => ['\\', b]
  }

  function QuotedText(q: seq<QuotedChar>): bytes {
    if q == [] then []
    else CharText(q[0]) + QuotedText(q[1..])
  }

  function ValueText(v: ExtValue): bytes {
    match v
    case TokenValue(t) => t
    case QuotedValue(q) => ['"'] + (QuotedText(q) + ['"'])
  }

  function ArgText(a: ExtArgument): bytes {
    match a
    case NoArgument => []
    case Argument(w1, w2, v) => w1 + (['='] + (w2 + ValueText(v)))
  }

  function ItemsText(xs: seq<ExtItem>, tail: bytes): bytes {
    if xs == [] then tail
    else xs[0].w1 + ([';'] + (xs[0].w2 + (xs[0].name + (ArgText(xs[0].arg) + ItemsText(xs[1..], tail)))))
  }

  /** The extension derives from the grammar, with optional trailing whitespace. */
  ghost predicate IsChunkExt(s: bytes) {
    exists xs: seq<ExtItem>, tail: Ws :: s == ItemsText(xs, tail)
  }

  // ---- The recogniser --------------------------------------------------------------

  /** The end of the quoted string whose contents are scanned from `i` on. */
  function QuotedEnd(s: bytes, i: nat): (r: Option<nat>)
    ensures r.Some? ==> i < r.value <= |s|
    decreases |s| - i
  {
    if i >= |s| then None
    else if s[i] == '"' then Some(i + 1)
    else if s[i] == '\\' then
      if i + 1 < |s| && IsQuotable(s[i + 1]) then QuotedEnd(s, i + 2) else None
    else if IsQuotable(s[i]) then QuotedEnd(s, i + 1)
    else None
  }

  function TokenRest(s: bytes): (r: Option<bytes>)
    ensures r.Some? ==> |r.value| < |s|
  {
    var n := Span(s, IsTchar);
    if n == 0 then None else Some(s[n..])
  }

  function ValueRest(v: bytes): (r: Option<bytes>)
    ensures r.Some? ==> |r.value| < |v|
  {
    if v != [] && v[0] == '"' then
      match QuotedEnd(v, 1) case Some(e) => Some(v[e..]) case None => None
    else TokenRest(v)
  }

  function ArgumentRest(ext: bytes): (r: Option<bytes>)
    ensures r.Some? ==> |r.value| <= |ext|
  {
    var rest := TrimLeft(ext);
    if rest != [] && rest[0] == '=' then ValueRest(TrimLeft(rest[1..])) else Some(ext)
  }

  function ItemRest(s: bytes): (r: Option<bytes>)
    requires s != []
    ensures r.Some? ==> |r.value| < |s|
  {
    if s[0] != ';' then None
    else
      match TokenRest(TrimLeft(s[1..]))
      case None => None
      case Some(ext) => ArgumentRest(ext)
  }

  predicate Accepts(s: bytes)
    decreases |s|
  {
    var e := TrimLeft(s);
    e == [] || (ItemRest(e).Some? && Accepts(ItemRest(e).value))
  }

  /** `quoted`: the scan of a quoted string, `s[0]` being its opening quote. */
  method ScanQuoted(s: bytes) returns (r: Option<nat>)
    ensures r == QuotedEnd(s, 1)
  {
    var i := 1;
    while i < |s|
      invariant 1 <= i
      invariant QuotedEnd(s, i) == QuotedEnd(s, 1)
      decreases |s| - i
    {
      if s[i] == '"' {
        return Some(i + 1);
      } else if s[i] == '\\' {
        if i + 1 < |s| && IsQuotable(s[i + 1]) {
          i := i + 2;
        } else {
          return None;
        }
      } else if IsQuotable(s[i]) {
        i := i + 1;
      } else {
        return None;
      }
    }
    r := None;
  }

  /** `check_chunk_ext`: accepts exactly what the grammar derives. */
  method CheckChunkExt(s: bytes) returns (ok: bool)
    ensures ok <==> IsChunkExt(s)
  {
    AcceptsExactly(s);
    var ext := TrimLeft(s);
    while ext != []
      invariant ext == [] || !IsWs(ext[0])
      invariant Accepts(s) <==> ext == [] || (ItemRest(ext).Some? && Accepts(ItemRest(ext).value))
      decreases |ext|
    {
      if ext[0] != ';' {
        return false;
      }
      var named := TokenRest(TrimLeft(ext[1..]));
      if named.None? {
        return false;
      }
      var after := named.value;
      var rest := TrimLeft(after);
      if rest != [] && rest[0] == '=' {
        var v := TrimLeft(rest[1..]);
        if v != [] && v[0] == '"' {
          var e := ScanQuoted(v);
          if e.None? {
            return false;
          }
          after := v[e.value..];
        } else {
          var t := TokenRest(v);
          if t.None? {
            return false;
          }
          after := t.value;
        }
      }
      ext := TrimLeft(after);
    }
    ok := true;
  }

  // ---- Soundness and completeness ---------------------------------------------------

  lemma {:induction false} QuotedScans(q: seq<QuotedChar>, pre: bytes, post: bytes)
    ensures QuotedEnd(pre + (QuotedText(q) + (['"'] + post)), |pre|) == Some(|pre| + |QuotedText(q)| + 1)
    decreases |q|
  {
    var s := pre + (QuotedText(q) + (['"'] + post));
    if q == [] {
      assert s[|pre|] == '"';
    } else {
      var c := CharText(q[0]);
      QuotedScans(q[1..], pre + c, post);
      assert s == (pre + c) + (QuotedText(q[1..]) + (['"'] + post));
      assert forall k :: 0 <= k < |c| ==> s[|pre| + k] == c[k];
    }
  }

  lemma {:induction false} QuotedParses(s: bytes, i: nat) returns (q: seq<QuotedChar>)
    requires QuotedEnd(s, i).Some?
    ensures s[i..QuotedEnd(s, i).value] == QuotedText(q) + ['"']
    decreases |s| - i
  {
    var e := QuotedEnd(s, i).value;
    if s[i] == '"' {
      q := [];
    } else {
      var c := if s[i] == '\\' then Pair(s[i + 1]) else Plain(s[i]);
      var k := |CharText(c)|;
      var rest := QuotedParses(s, i + k);
      q := [c] + rest;
      assert q[1..] == rest;
      assert s[i..i + k] == CharText(c);
      assert s[i..e] == s[i..i + k] + s[i + k..e];
      Assoc(CharText(c), QuotedText(rest), ['"']);
    }
  }

  lemma Headed(b: byte, c: bytes)
    ensures ([b] + c)[0] == b && ([b] + c)[1..] == c
  {
  }

  lemma TrimsTo(w: Ws, c: bytes)
    requires c == [] || !IsWs(c[0])
    ensures TrimLeft(w + c) == c
  {
    SpanIs(w, c, IsWs);
  }

  lemma TokenThen(t: Token, c: bytes)
    requires c == [] || !IsTchar(c[0])
    ensures TokenRest(t + c) == Some(c)
    ensures t + c != [] && !IsWs((t + c)[0])
  {
    SpanIs(t, c, IsTchar);
  }

  /** What may follow an item: another item, trailing whitespace, or nothing. */
  predicate FollowsItem(y: bytes) {
    && (y == [] || y[0] == ';' || IsWs(y[0]))
    && (TrimLeft(y) == [] || TrimLeft(y)[0] == ';')
  }

  /** A string of items is cut after its first one exactly where the grammar cuts it. */
  lemma ItemCut(x: ExtItem, y: bytes)
    requires FollowsItem(y)
    ensures ItemRest([';'] + (x.w2 + (x.name + (ArgText(x.arg) + y)))) == Some(y)
  {
    hide *;
    var z := ArgText(x.arg) + y;
    var b := x.name + z;
    var a := x.w2 + b;
    Headed(';', a);
    ArgumentStarts(x.arg, y);
    TokenThen(x.name, z);
    TrimsTo(x.w2, b);
    ArgumentCut(x.arg, y);
    ItemSteps([';'] + a, a, b, z);
  }

  lemma ItemSteps(s: bytes, a: bytes, b: bytes, z: bytes)
    requires s != [] && s[0] == ';' && s[1..] == a
    requires TrimLeft(a) == b && TokenRest(b) == Some(z)
    ensures ItemRest(s) == ArgumentRest(z)
  {
  }

  lemma ArgumentStarts(a: ExtArgument, y: bytes)
    requires FollowsItem(y)
    ensures ArgText(a) + y == [] || !IsTchar((ArgText(a) + y)[0])
  {
    var z := ArgText(a) + y;
    if a.NoArgument? {
      assert z == y;
    } else {
      assert z[0] == if a.w1 == [] then '=' else a.w1[0];
    }
  }

  lemma ArgumentCut(a: ExtArgument, y: bytes)
    requires FollowsItem(y)
    ensures ArgumentRest(ArgText(a) + y) == Some(y)
  {
    if a.NoArgument? {
      assert ArgText(a) + y == y;
    } else {
      var vy := ValueText(a.v) + y;
      var r1 := a.w2 + vy;
      ArgumentShape(a, y);
      Headed('=', r1);
      TrimsTo(a.w1, ['='] + r1);
      ValueCut(a.v, y);
      TrimsTo(a.w2, vy);
    }
  }

  lemma ArgumentShape(a: ExtArgument, y: bytes)
    requires a.Argument?
    ensures ArgText(a) + y == a.w1 + (['='] + (a.w2 + (ValueText(a.v) + y)))
  {
    Assoc(a.w1, ['='] + (a.w2 + ValueText(a.v)), y);
    Assoc(['='], a.w2 + ValueText(a.v), y);
    Assoc(a.w2, ValueText(a.v), y);
  }

  lemma ValueCut(v: ExtValue, y: bytes)
    requires y == [] || y[0] == ';' || IsWs(y[0])
    ensures ValueText(v) + y != [] && !IsWs((ValueText(v) + y)[0])
    ensures ValueRest(ValueText(v) + y) == Some(y)
  {
    if v.TokenValue? {
      TokenThen(v.t, y);
    } else {
      var t := QuotedText(v.q);
      QuotedScans(v.q, ['"'], y);
      Assoc(['"'], t + ['"'], y);
      Assoc(t, ['"'], y);
      var vy := ValueText(v) + y;
      assert vy[0] == '"';
      assert vy[1 + |t| + 1..] == y;
    }
  }

  lemma {:induction false} GrammarAccepted(xs: seq<ExtItem>, tail: Ws)
    ensures var s := ItemsText(xs, tail);
            Accepts(s) && FollowsItem(s)
  {
    if xs == [] {
      TrimsTo(tail, []);
      assert tail + [] == tail;
    } else {
      GrammarAccepted(xs[1..], tail);
      var x, y := xs[0], ItemsText(xs[1..], tail);
      ItemCut(x, y);
      TrimsTo(x.w1, [';'] + (x.w2 + (x.name + (ArgText(x.arg) + y))));
    }
  }

  lemma TrimParts(s: bytes) returns (w: Ws)
    ensures s == w + TrimLeft(s)
  {
    w := s[..Span(s, IsWs)];
  }

  lemma ItemParses(w1: Ws, s: bytes) returns (x: ExtItem)
    requires s != [] && ItemRest(s).Some?
    ensures x.w1 == w1
    ensures s == [';'] + (x.w2 + (x.name + (ArgText(x.arg) + ItemRest(s).value)))
  {
    var a := s[1..];
    var b := TrimLeft(a);
    ItemStarts(s);
    hide *;
    var z := TokenRest(b).value;
    ItemSteps(s, a, b, z);
    var w2 := TrimParts(a);
    var name := TokenParses(b);
    var arg := ArgumentParses(z, ItemRest(s).value);
    x := ExtItem(w1, w2, name, arg);
    assert s == [';'] + a;
  }

  lemma ItemStarts(s: bytes)
    requires s != [] && ItemRest(s).Some?
    ensures s[0] == ';' && TokenRest(TrimLeft(s[1..])).Some?
  {
  }

  lemma TokenParses(t: bytes) returns (name: Token)
    requires TokenRest(t).Some?
    ensures t == name + TokenRest(t).value
  {
    name := t[..Span(t, IsTchar)];
  }

  lemma ArgumentParses(ext: bytes, y: bytes) returns (arg: ExtArgument)
    requires ArgumentRest(ext) == Some(y)
    ensures ext == ArgText(arg) + y
  {
    var rest := TrimLeft(ext);
    if rest != [] && rest[0] == '=' {
      var w1 := TrimParts(ext);
      var w2 := TrimParts(rest[1..]);
      var v := TrimLeft(rest[1..]);
      var val := ValueParses(v);
      arg := Argument(w1, w2, val);
      ArgumentShape(arg, y);
      assert rest == ['='] + rest[1..];
    } else {
      arg := NoArgument;
    }
  }

  lemma ValueParses(v: bytes) returns (val: ExtValue)
    requires ValueRest(v).Some?
    ensures v == ValueText(val) + ValueRest(v).value
  {
    if v != [] && v[0] == '"' {
      var q := QuotedParses(v, 1);
      var e := QuotedEnd(v, 1).value;
      val := QuotedValue(q);
      assert v == [v[0]] + v[1..e] + v[e..];
    } else {
      var t := TokenParses(v);
      val := TokenValue(t);
    }
  }

  lemma {:induction false} AcceptedDerives(s: bytes) returns (xs: seq<ExtItem>, tail: Ws)
    requires Accepts(s)
    ensures s == ItemsText(xs, tail)
    decreases |s|
  {
    var w := TrimParts(s);
    var e := TrimLeft(s);
    if e == [] {
      xs, tail := [], s;
    } else {
      var x := ItemParses(w, e);
      var ys;
      ys, tail := AcceptedDerives(ItemRest(e).value);
      xs := [x] + ys;
      assert xs[1..] == ys;
    }
  }

  /** The recogniser accepts a string exactly when the grammar derives it. */
  lemma AcceptsExactly(s: bytes)
    ensures Accepts(s) <==> IsChunkExt(s)
  {
    if Accepts(s) {
      var xs, tail := AcceptedDerives(s);
    }
    if IsChunkExt(s) {
      var xs: seq<ExtItem>, tail: Ws :| s == ItemsText(xs, tail);
      GrammarAccepted(xs, tail);
    }
  }
}
