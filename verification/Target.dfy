/** Request targets: the parser's two validators (`src/parse.rs`) and the splitter
    (`src/head.rs`). */
module Target {
  import opened Octets
  import opened Numerals
  import opened Headers

  datatype Version = Http10 | Http11

  datatype Method =
    | Get | HeadMethod | Post | Put | Delete | Connect | Options | Trace | Patch | Query
    | OtherMethod(name: bytes)

  predicate IsAlpha(b: byte) { 'a' <= b <= 'z' || 'A' <= b <= 'Z' }

  predicate IsSchemeChar(b: byte) { IsAlpha(b) || IsDigit(b) || b == '+' || b == '-' || b == '.' }

  predicate ValidScheme(s: bytes) { s != [] && IsAlpha(s[0]) && All(s, IsSchemeChar) }

  // ---- The validators ----------------------------------------------------------------

  predicate IsTargetChar(b: byte) {
    || IsAlpha(b) || IsDigit(b)
    || b == '-' || b == '.' || b == '_' || b == '~' || b == ':' || b == '/' || b == '?'
    || b == '[' || b == ']' || b == '@' || b == '!' || b == '$' || b == '&' || b == '\''
    || b == '(' || b == ')' || b == '*' || b == '+' || b == ',' || b == ';' || b == '='
    || b == '%'
  }

  /** A percent sign must start a complete percent-encoding. */
  predicate EscapeOk(t: bytes, i: nat)
    requires i < |t|
  {
    t[i] == '%' ==> i + 2 < |t| && IsHexDigit(t[i + 1]) && IsHexDigit(t[i + 2])
  }

  predicate ValidTarget(t: bytes) {
    t != [] && forall i :: 0 <= i < |t| ==> IsTargetChar(t[i]) && EscapeOk(t, i)
  }

  predicate IsEscape(s: bytes) {
    |s| >= 3 && s[0] == '%' && IsHexDigit(s[1]) && IsHexDigit(s[2])
  }

  /** Characters of a URI and percent-encodings, one after the other. */
  predicate IsUriText(t: bytes)
    decreases |t|
  {
    || t == []
    || (t[0] != '%' && IsTargetChar(t[0]) && IsUriText(t[1..]))
    || (IsEscape(t) && IsUriText(t[3..]))
  }

  ghost predicate Checked(t: bytes) { forall i :: 0 <= i < |t| ==> IsTargetChar(t[i]) && EscapeOk(t, i) }

  /** The test made at every position is the grammar's. */
  lemma {:induction false} TargetGrammar(t: bytes)
    ensures Checked(t) <==> IsUriText(t)
    decreases |t|
  {
    if t != [] {
      TargetGrammar(t[1..]);
      CheckedRest(t, 1);
      if IsEscape(t) {
        TargetGrammar(t[3..]);
        CheckedRest(t, 3);
        assert EscapeOk(t, 0) && EscapeOk(t, 1) && EscapeOk(t, 2);
      }
    }
  }

  lemma CheckedRest(t: bytes, k: nat)
    requires k <= |t|
    ensures Checked(t[k..]) <==> forall i :: k <= i < |t| ==> IsTargetChar(t[i]) && EscapeOk(t, i)
  {
    var s := t[k..];
    forall i | k <= i < |t|
      ensures IsTargetChar(t[i]) && EscapeOk(t, i) <==> IsTargetChar(s[i - k]) && EscapeOk(s, i - k)
    {
    }
    if Checked(s) {
      forall i | k <= i < |t|
        ensures IsTargetChar(t[i]) && EscapeOk(t, i)
      {
        assert IsTargetChar(s[i - k]) && EscapeOk(s, i - k);
      }
    }
    if forall i :: k <= i < |t| ==> IsTargetChar(t[i]) && EscapeOk(t, i) {
      forall i | 0 <= i < |s|
        ensures IsTargetChar(s[i]) && EscapeOk(s, i)
      {
        assert IsTargetChar(t[i + k]) && EscapeOk(t, i + k);
      }
    }
  }

  method ValidateTarget(t: bytes) returns (ok: bool)
    ensures ok <==> ValidTarget(t)
    ensures ok <==> t != [] && IsUriText(t)
  {
    TargetGrammar(t);
    if t == [] {
      return false;
    }
    for i := 0 to |t|
      invariant forall j :: 0 <= j < i ==> IsTargetChar(t[j]) && EscapeOk(t, j)
    {
      if !EscapeOk(t, i) {
        return false;
      }
      if !IsTargetChar(t[i]) {
        return false;
      }
    }
    ok := true;
  }

  /** `validate_target_form`: one of the four request-target forms. */
  predicate ValidForm(t: bytes, m: Method) {
    if t == "*" then m.Options?
    else if m.Connect? then
      Find(t, "://").None? && IndexOf(t, ':') < |t| && !(t != [] && t[0] == '/')
    else if t != [] && t[0] == '/' then true
    else match Find(t, "://")
         case Some(i) => ValidScheme(t[..i])
         case None => false
  }

  // ---- The splitter --------------------------------------------------------------------

  function FindQuery(t: bytes): Option<nat> {
    if IndexOf(t, '?') < |t| then Some(IndexOf(t, '?')) else None
  }

  predicate NotAuthorityEnd(b: byte) { b != '/' && b != '?' && b != '#' }

  /** The span of the authority of an absolute-form target. */
  function FindAbsoluteAuthority(t: bytes): (r: Option<(nat, nat)>)
    ensures r.Some? ==> 3 <= r.value.0 <= r.value.1 <= |t|
  {
    if t == [] || t[0] == '/' || t[0] == '*' then None
    else
      match Find(t, "://")
      case None => None
      case Some(i) =>
        if !ValidScheme(t[..i]) then None
        else Some((i + 3, i + 3 + Span(t[i + 3..], NotAuthorityEnd)))
  }

  function PathEnd(t: bytes): (e: nat)
    ensures e <= |t|
  {
    match FindQuery(t) case Some(i) => i case None => |t|
  }

  class Head {
    var verb: Method
    var target: bytes
    var version: Version
    var headers: seq<Field>
    var queryAt: Option<nat>
    var authorityAt: Option<(nat, nat)>

    /** The two cached indices belong to the target held. */
    predicate Valid()
      reads this
    {
      queryAt == FindQuery(target) && authorityAt == FindAbsoluteAuthority(target)
    }

    constructor (verb: Method, target: bytes, version: Version, headers: seq<Field>)
      ensures Valid()
      ensures this.verb == verb && this.target == target
      ensures this.version == version && this.headers == headers
    {
      this.verb, this.target, this.version, this.headers := verb, target, version, headers;
      queryAt, authorityAt := FindQuery(target), FindAbsoluteAuthority(target);
    }

    method SetTarget(t: bytes)
      modifies this
      ensures Valid() && target == t
      ensures verb == old(verb) && version == old(version) && headers == old(headers)
    {
      queryAt := FindQuery(t);
      authorityAt := FindAbsoluteAuthority(t);
      target := t;
    }

    function Path(): bytes
      requires Valid()
      reads this
    {
      var end := match queryAt case Some(i) => i case None => |target|;
      match authorityAt
      case Some(a) => if a.1 < end then target[a.1..end] else "/"
      case None => target[..end]
    }

    function QueryPart(): Option<bytes>
      requires Valid()
      reads this
    {
      match queryAt case Some(i) => Some(target[i + 1..]) case None => None
    }

    function AbsoluteScheme(): Option<bytes>
      requires Valid()
      reads this
    {
      match authorityAt case Some(a) => Some(target[..a.0 - 3]) case None => None
    }

    /** The target's own authority, or that of the `Host` field. */
    function Authority(): Option<bytes>
      requires Valid()
      reads this
    {
      match authorityAt
      case Some(a) => Some(target[a.0..a.1])
      case None =>
        if verb.Connect? then Some(target)
        else
          var hosts := AllValues(headers, Known(Host));
          if hosts == [] || hosts[0] == [] then None else Some(hosts[0])
    }

    /** Scheme, authority, path and query put back together. An absolute-form target
        with nothing after its authority reports the path `/`, which it does not
        contain. */
    ghost function Reassembled(): bytes
      requires Valid()
      reads this
    {
      var front := match AbsoluteScheme()
                   case Some(s) => s + "://" + Authority().value
                   case None => [];
      var path := if authorityAt.Some? && authorityAt.value.1 >= PathEnd(target) then [] else Path();
      var query := match QueryPart() case Some(q) => "?" + q case None => [];
      front + path + query
    }

    /** The path ends before the first question mark, and the query is all behind it. */
    lemma QueryIsAll()
      requires Valid()
      ensures '?' !in Path()
      ensures QueryPart().None? <==> '?' !in target
    {
      hide FindAbsoluteAuthority;
      var end := PathEnd(target);
      assert '?' !in target[..end];
      assert end < |target| ==> target[end] == '?';
    }

    lemma ReassemblesExactly()
      requires Valid()
      ensures Reassembled() == target
    {
      hide FindQuery, FindAbsoluteAuthority, PathEnd, ValidScheme, NotAuthorityEnd;
      var end := PathEnd(target);
      QuerySplit(target);
      hide AllValues;
      if authorityAt.Some? {
        var (a0, a1) := authorityAt.value;
        AuthorityShape(target);
        Pieces(target, a0, a1, end);
        assert end <= a1 ==> target[a1..end] == [];
      } else {
        OriginPieces(target, end);
      }
    }

    /** Where a request is addressed: to the authority of an absolute-form target, to a
        CONNECT target, or else to what the first `Host` field names. */
    lemma AuthorityIs()
      requires Valid() && forall f :: f in headers ==> Canonical(f.id) == f.id
      ensures forall scheme, authority, rest :: IsAbsolute(target, scheme, authority, rest) ==>
                AbsoluteScheme() == Some(scheme) && Authority() == Some(authority)
      ensures (forall scheme, authority, rest :: !IsAbsolute(target, scheme, authority, rest)) ==>
                && AbsoluteScheme() == None
                && var hosts := ValuesNamed(headers, "host");
                   Authority() == if verb.Connect? then Some(target)
                                  else if hosts != [] && hosts[0] != [] then Some(hosts[0]) else None
    {
      hide FindAbsoluteAuthority, IsAbsolute, FindQuery, ValuesNamed, AllValues, Canonical;
      ValuesOfName(headers, Host);
      forall scheme, authority, rest | IsAbsolute(target, scheme, authority, rest)
        ensures AbsoluteScheme() == Some(scheme) && Authority() == Some(authority)
      {
        AbsoluteFound(target, scheme, authority, rest);
        AbsolutePieces(target, scheme, authority, rest);
      }
      if authorityAt.Some? {
        AbsoluteForm(target, authorityAt.value.0, authorityAt.value.1);
      }
    }

    lemma PathIsRooted()
      requires Valid() && ValidTarget(target) && ValidForm(target, verb)
      requires !verb.Connect? && target != "*"
      ensures Path() != [] && Path()[0] == '/'
    {
      FormsAgree(target, verb);
      if authorityAt.Some? {
        AuthorityShape(target);
      }
    }
  }

  lemma QuerySplit(t: bytes)
    ensures t[PathEnd(t)..] ==
              match FindQuery(t) case Some(i) => "?" + t[i + 1..] case None => []
    ensures PathEnd(t) == match FindQuery(t) case Some(i) => i case None => |t|
  {
  }

  lemma Pieces(t: bytes, a0: nat, a1: nat, end: nat)
    requires 3 <= a0 <= a1 <= end <= |t| && t[a0 - 3..a0] == "://"
    ensures (t[..a0 - 3] + "://" + t[a0..a1]) + t[a1..end] + t[end..] == t
  {
    assert t[..a0] == t[..a0 - 3] + t[a0 - 3..a0];
    assert t[..a1] == t[..a0] + t[a0..a1];
    assert t[..end] == t[..a1] + t[a1..end];
    assert t == t[..end] + t[end..];
  }

  lemma OriginPieces(t: bytes, end: nat)
    requires end <= |t|
    ensures [] + t[..end] + t[end..] == t && [] + t[..end] == t[..end]
  {
  }

  /** Nothing before the end of an authority is a query mark. */
  lemma AuthorityShape(t: bytes)
    requires FindAbsoluteAuthority(t).Some?
    ensures var (a0, a1) := FindAbsoluteAuthority(t).value;
            && t[a0 - 3..a0] == "://" && ValidScheme(t[..a0 - 3])
            && a1 <= PathEnd(t)
            && (forall j :: a0 <= j < a1 ==> NotAuthorityEnd(t[j]))
            && (a1 < |t| ==> !NotAuthorityEnd(t[a1]))
  {
    var (a0, a1) := FindAbsoluteAuthority(t).value;
    var i := a0 - 3;
    assert At(t, i, "://");
    assert t[i..a0] == "://" && t[i..a0][0] == t[i] && t[i..a0][1] == t[i + 1] && t[i..a0][2] == t[i + 2];
    forall j | 0 <= j < i
      ensures t[j] != '?'
    {
      assert t[..i][j] == t[j] && IsSchemeChar(t[..i][j]);
    }
    forall j | a0 <= j < a1
      ensures NotAuthorityEnd(t[j])
    {
      assert t[a0..][j - a0] == t[j];
    }
  }

  /** `t` is `scheme "://" authority rest`. */
  ghost predicate IsAbsolute(t: bytes, scheme: bytes, authority: bytes, rest: bytes) {
    && t == scheme + "://" + authority + rest && ValidScheme(scheme)
    && (forall j :: 0 <= j < |authority| ==> authority[j] !in "/?#")
    && (rest == [] || rest[0] in "/?#")
  }

  /** An authority is found exactly where absolute-form has one. */
  lemma AbsoluteForm(t: bytes, a0: nat, a1: nat)
    ensures FindAbsoluteAuthority(t) == Some((a0, a1)) <==>
              3 <= a0 <= a1 <= |t| && IsAbsolute(t, t[..a0 - 3], t[a0..a1], t[a1..])
  {
    hide FindAbsoluteAuthority, IsAbsolute;
    if FindAbsoluteAuthority(t) == Some((a0, a1)) {
      AbsoluteSplits(t, a0, a1);
    }
    if 3 <= a0 <= a1 <= |t| && IsAbsolute(t, t[..a0 - 3], t[a0..a1], t[a1..]) {
      AbsoluteFound(t, t[..a0 - 3], t[a0..a1], t[a1..]);
    }
  }

  lemma AbsolutePieces(t: bytes, scheme: bytes, authority: bytes, rest: bytes)
    requires IsAbsolute(t, scheme, authority, rest)
    ensures |t| >= |scheme| + 3 + |authority|
    ensures t[..|scheme|] == scheme && t[|scheme| + 3..|scheme| + 3 + |authority|] == authority
  {
    assert t == scheme + ("://" + (authority + rest));
  }

  lemma AbsoluteSplits(t: bytes, a0: nat, a1: nat)
    requires FindAbsoluteAuthority(t) == Some((a0, a1))
    ensures IsAbsolute(t, t[..a0 - 3], t[a0..a1], t[a1..])
  {
    AuthorityShape(t);
    hide FindAbsoluteAuthority, ValidScheme;
    Pieces(t, a0, a1, |t|);
    assert t[a1..|t|] == t[a1..] && t[|t|..] == [];
    NothingBehind(t[..a0 - 3] + "://" + t[a0..a1], t[a1..]);
  }

  lemma NothingBehind(a: bytes, c: bytes)
    ensures a + c + [] == a + c
  {
  }

  lemma AtFirst(s: bytes, i: int, pat: bytes)
    ensures At(s, i, pat) && pat != [] ==> i < |s| && s[i] == pat[0]
  {
    assert At(s, i, pat) && pat != [] ==> s[i..i + |pat|][0] == s[i];
  }

  lemma AbsoluteFound(t: bytes, scheme: bytes, authority: bytes, rest: bytes)
    requires IsAbsolute(t, scheme, authority, rest)
    ensures FindAbsoluteAuthority(t) == Some((|scheme| + 3, |scheme| + 3 + |authority|))
  {
    assert t == scheme + ("://" + (authority + rest));
    FirstMark(t, scheme, authority + rest);
    SpanIs(authority, rest, NotAuthorityEnd);
    hide Find, Span, ValidScheme;
  }

  /** The first mark is the one behind the scheme. */
  lemma FirstMark(t: bytes, scheme: bytes, tail: bytes)
    requires ValidScheme(scheme) && t == scheme + ("://" + tail)
    ensures Find(t, "://") == Some(|scheme|) && t[..|scheme|] == scheme && t[|scheme| + 3..] == tail
    ensures t != [] && t[0] != '/' && t[0] != '*'
  {
    var i := |scheme|;
    forall j | 0 <= j < i
      ensures t[j] != ':'
    {
      assert t[j] == scheme[j] && IsSchemeChar(scheme[j]);
    }
    assert t[0] == scheme[0];
    assert t[i..i + 3] == "://";
    forall j | 0 <= j < i
      ensures !At(t, j, "://")
    {
      AtFirst(t, j, "://");
    }
    FindIs(t, "://", i);
  }

  /** The validator and the splitter agree on what absolute-form is. */
  lemma FormsAgree(t: bytes, m: Method)
    requires ValidTarget(t)
    ensures !m.Connect? ==>
              (ValidForm(t, m) <==>
                t[0] == '/' || (t == "*" && m.Options?) || FindAbsoluteAuthority(t).Some?)
    ensures ValidForm(t, m) && m.Connect? ==> FindAbsoluteAuthority(t).None?
  {
    if t[0] == '*' {
      match Find(t, "://")
      case Some(i) =>
        StarIsNoScheme(t, i);
      case None =>
    }
  }

  /** What is taken for a CONNECT target: it has a colon, is not rooted, and no scheme. */
  lemma TunnelForm(t: bytes, m: Method)
    requires m.Connect?
    ensures ValidForm(t, m) <==> ':' in t && t[0] != '/' && forall i :: !At(t, i, "://")
  {
    if IndexOf(t, ':') < |t| {
      assert t[IndexOf(t, ':')] == ':';
    }
    if Find(t, "://").Some? {
      assert At(t, Find(t, "://").value, "://");
    }
  }

  lemma StarIsNoScheme(t: bytes, i: nat)
    requires t != [] && t[0] == '*' && i <= |t|
    ensures !ValidScheme(t[..i])
  {
    assert i > 0 ==> t[..i][0] == '*';
  }
}
