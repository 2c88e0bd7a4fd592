/** Field lines as the response writer emits them (`src/write.rs`). */
module FieldLines {
  import opened Octets
  import opened Headers

  predicate BreaksLine(b: byte) { b == '\r' || b == '\n' || b == '\0' }

  /** `valid_field_value`: the value cannot end its line early. */
  predicate ValidValue(v: bytes) { forall i :: 0 <= i < |v| ==> !BreaksLine(v[i]) }

  predicate Writable(f: Field) {
    (f.id.Other? ==> IsToken(f.id.name)) && ValidValue(f.value)
  }

  /** A field can be written exactly when its name is a token and its value has no CR, LF or
      NUL. */
  lemma WritableIff(f: Field)
    ensures Writable(f) <==> IsToken(AsStr(f.id)) && forall b :: b in f.value ==> b !in "\r\n\0"
  {
    if f.id.Known? {
      KnownName(f.id.which);
      LowerTcharLowers(NameOf(f.id.which));
    }
    hide NameOf, LookUp, IsTchar;
    assert forall i :: 0 <= i < |f.value| ==> f.value[i] in f.value;
  }

  function FieldContent(f: Field): bytes { AsStr(f.id) + (": " + f.value) }

  function Line(content: bytes): bytes { content + "\r\n" }

  function FieldLinesOf(fs: seq<Field>): bytes {
    if fs == [] then [] else Line(FieldContent(fs[0])) + FieldLinesOf(fs[1..])
  }

  lemma {:induction false} FieldLinesAppend(a: seq<Field>, b: seq<Field>)
    ensures FieldLinesOf(a + b) == FieldLinesOf(a) + FieldLinesOf(b)
  {
    if a == [] {
      assert a + b == b;
    } else {
      FieldLinesAppend(a[1..], b);
      assert (a + b)[0] == a[0] && (a + b)[1..] == a[1..] + b;
      Assoc(Line(FieldContent(a[0])), FieldLinesOf(a[1..]), FieldLinesOf(b));
    }
  }

  lemma OneLine(f: Field)
    ensures FieldLinesOf([f]) == Line(FieldContent(f)) && FieldLinesOf([]) == []
  {
    assert Line(FieldContent(f)) + [] == Line(FieldContent(f));
  }

  /** What a recipient records for a written field. */
  function Received(f: Field): Field { Field(Intern(AsStr(f.id)), TrimOws(f.value)) }

  function ReceivedAll(fs: seq<Field>): (r: seq<Field>)
    ensures |r| == |fs|
  {
    if fs == [] then [] else [Received(fs[0])] + ReceivedAll(fs[1..])
  }

  predicate NotBreak(b: byte) { b != '\r' && b != '\n' }

  /** A written field's line: its name is a token up to the colon, and nothing in it
      breaks the line. */
  lemma ContentOfWritable(f: Field)
    requires Writable(f)
    ensures var c := FieldContent(f); var n := |AsStr(f.id)|;
            && IsToken(AsStr(f.id))
            && IndexOf(c, ':') == n < |c|
            && c[..n] == AsStr(f.id)
            && c[n + 1..] == " " + f.value
            && TrimOws(c[n + 1..]) == TrimOws(f.value)
            && c != [] && !IsWs(c[0])
            && All(c, NotBreak)
  {
    WrittenName(f);
    hide *;
    ContentShape(AsStr(f.id), f.value, FieldContent(f));
  }

  lemma WrittenName(f: Field)
    requires Writable(f)
    ensures IsToken(AsStr(f.id)) && ValidValue(f.value)
    ensures FieldContent(f) == AsStr(f.id) + (": " + f.value)
  {
    if f.id.Known? {
      KnownName(f.id.which);
      LowerTcharLowers(NameOf(f.id.which));
    }
  }

  lemma ContentShape(name: bytes, v: bytes, c: bytes)
    requires IsToken(name) && ValidValue(v) && c == name + (": " + v)
    ensures IndexOf(c, ':') == |name| < |c|
    ensures c[..|name|] == name && c[|name| + 1..] == " " + v
    ensures TrimOws(c[|name| + 1..]) == TrimOws(v)
    ensures c != [] && !IsWs(c[0]) && All(c, NotBreak)
  {
    CutAtColon(name, v, c);
    ColonAfterName(name, v);
    TrimLeadingSpace(v);
    UnbrokenContent(name, v);
    hide *;
  }

  /** The octets before and after the colon. */
  lemma CutAtColon(name: bytes, v: bytes, c: bytes)
    requires c == name + (": " + v)
    ensures |name| < |c| && c[..|name|] == name && c[|name| + 1..] == " " + v
    ensures name != [] ==> c[0] == name[0]
  {
    assert c[|name|..] == ": " + v;
    assert c[|name|..][1..] == c[|name| + 1..];
  }

  /** A token is all before the first colon. */
  lemma ColonAfterName(name: bytes, v: bytes)
    requires IsToken(name)
    ensures IndexOf(name + (": " + v), ':') == |name|
  {
    TokenHasNoColon(name);
    StartsWithColon(v);
    hide IsToken, IndexOf;
    IndexOfAppend(name, ": " + v, ':');
  }

  lemma StartsWithColon(v: bytes)
    ensures IndexOf(": " + v, ':') == 0
  {
    assert (": " + v)[0] == ':';
  }

  lemma UnbrokenContent(name: bytes, v: bytes)
    requires IsToken(name) && ValidValue(v)
    ensures All(name + (": " + v), NotBreak) && name != [] && !IsWs(name[0])
  {
    TokenHasNoColon(name);
    assert IsTchar(name[0]);
    assert All(v, NotBreak) && All(": ", NotBreak);
    hide IsToken, IsTchar, ValidValue, All;
    AllAppend(": ", v, NotBreak);
    AllAppend(name, ": " + v, NotBreak);
  }

  lemma AllAppend(a: bytes, b: bytes, p: byte -> bool)
    ensures All(a + b, p) <==> All(a, p) && All(b, p)
  {
    assert forall i :: 0 <= i < |b| ==> (a + b)[|a| + i] == b[i];
    assert forall i :: 0 <= i < |a| ==> (a + b)[i] == a[i];
  }

  lemma TokenHasNoColon(t: bytes)
    requires All(t, IsTchar)
    ensures IndexOf(t, ':') == |t| && All(t, NotBreak)
  {
  }

  lemma TrimLeadingSpace(v: bytes)
    ensures TrimOws(" " + v) == TrimOws(v)
  {
    var w := v[..Span(v, IsWs)];
    assert v == w + TrimLeft(v);
    assert " " + v == (" " + w) + TrimLeft(v);
    SpanIs(" " + w, TrimLeft(v), IsWs);
    assert TrimLeft(" " + v) == TrimLeft(v);
  }

  lemma LineHasNoLf(content: bytes, rest: bytes)
    requires All(content, NotBreak)
    ensures IndexOf(Line(content) + rest, '\n') == |content| + 1
    ensures var s := Line(content) + rest;
            s[|content|] == '\r' && s[..|content|] == content && s[|content| + 2..] == rest
  {
    var c := content + "\r";
    assert IndexOf(c, '\n') == |c| by {
      assert forall i :: 0 <= i < |c| ==> c[i] != '\n';
    }
    var s := Line(content) + rest;
    assert s == c + ("\n" + rest);
    IndexOfAppend(c, "\n" + rest, '\n');
    assert ("\n" + rest)[0] == '\n';
    assert s[|content| + 2..] == rest;
  }
}
