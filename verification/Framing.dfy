/** The decision of how a request body is framed (`src/framing.rs`). */
module Framing {
  import opened Octets
  import opened Numerals
  import opened Headers
  import opened Target

  datatype BodyKind = NoBody | Length(n: nat) | ChunkedBody

  datatype FramingError =
    | LengthAndTransferEncoding | DuplicateContentLength | InvalidContentLength
    | ChunkedNotFinal | UnsupportedTransferEncoding | TransferEncodingOnHttp10
    | MissingHost | MultipleHost | InvalidHost | InvalidAuthority | UnsupportedScheme
    | HostMismatch | BodyTooLarge

  datatype Request = Request(verb: Method, target: bytes, version: Version, headers: seq<Field>)

  // ---- Authorities ---------------------------------------------------------------------

  predicate IsRegChar(b: byte) {
    || IsAlpha(b) || IsDigit(b)
    || b == '-' || b == '.' || b == '_' || b == '~' || b == '!' || b == '$' || b == '&'
    || b == '\'' || b == '(' || b == ')' || b == '*' || b == '+' || b == ',' || b == ';'
    || b == '='
  }

  /** `reg-name` of RFC 3986 section 3.2.2, possibly empty. */
  predicate IsRegName(s: bytes)
    decreases |s|
  {
    || s == []
    || (IsRegChar(s[0]) && IsRegName(s[1..]))
    || (IsEscape(s) && IsRegName(s[3..]))
  }

  lemma {:induction false} PlainRegName(s: bytes)
    requires All(s, IsRegChar)
    ensures IsRegName(s)
  {
    if s != [] {
      PlainRegName(s[1..]);
    }
  }

  /** `valid_reg_name`: one pass for the common case, then the general scan. */
  method ValidRegName(host: bytes) returns (ok: bool)
    ensures ok <==> IsRegName(host)
  {
    if Span(host, IsRegChar) == |host| {
      PlainRegName(host);
      return true;
    }
    var i := 0;
    while i < |host|
      invariant 0 <= i <= |host|
      invariant IsRegName(host) <==> IsRegName(host[i..])
    {
      if host[i] == '%' {
        if !(i + 2 < |host| && IsHexDigit(host[i + 1]) && IsHexDigit(host[i + 2])) {
          return false;
        }
        assert IsEscape(host[i..]) && host[i..][3..] == host[i + 3..];
        i := i + 3;
      } else if IsRegChar(host[i]) {
        assert host[i..][1..] == host[i + 1..];
        i := i + 1;
      } else {
        return false;
      }
    }
    ok := true;
  }

  predicate IsLiteralChar(b: byte) { IsHexDigit(b) || b == ':' || b == '.' }

  predicate IsIpLiteral(h: bytes) {
    |h| > 2 && h[0] == '[' && h[|h| - 1] == ']' && All(h[1..|h| - 1], IsLiteralChar)
  }

  /** Brackets around address characters, at least one. */
  lemma IpLiteralIff(h: bytes)
    ensures IsIpLiteral(h) <==> exists m :: m != [] && All(m, IsLiteralChar) && h == "[" + m + "]"
  {
    if IsIpLiteral(h) {
      assert h == "[" + h[1..|h| - 1] + "]";
    }
    if m :| m != [] && All(m, IsLiteralChar) && h == "[" + m + "]" {
      assert h[1..|h| - 1] == m;
    }
  }

  /** `uri-host`: a bracketed address or a non-empty registered name. */
  predicate IsHost(h: bytes) { IsIpLiteral(h) || (h != [] && IsRegName(h)) }

  /** What may follow the host, and the port it states; an empty port states none. */
  predicate IsPort(rest: bytes, port: Option<nat>) {
    if rest == [] || rest == ":" then port.None?
    else
      && rest[0] == ':' && |rest| <= 6 && IsNumeral(10, rest[1..])
      && Value(10, rest[1..]) <= 0xFFFF && port == Some(Value(10, rest[1..]))
  }

  /** `a` is exactly `uri-host [ ":" port ]`. */
  predicate IsAuthority(a: bytes, host: bytes, port: Option<nat>) {
    host <= a && IsHost(host) && IsPort(a[|host|..], port)
  }

  function HostEnd(a: bytes): (n: nat)
    ensures n <= |a|
  {
    if a != [] && a[0] == '[' then
      if IndexOf(a, ']') < |a| then IndexOf(a, ']') + 1 else 0
    else IndexOf(a, ':')
  }

  function ParsePort(rest: bytes): Option<Option<nat>> {
    if rest == [] || rest == ":" then Some(None)
    else if rest[0] == ':' && |rest| <= 6 && IsNumeral(10, rest[1..]) && Value(10, rest[1..]) <= 0xFFFF
    then Some(Some(Value(10, rest[1..])))
    else None
  }

  function ParseAuthority(a: bytes): Option<(bytes, Option<nat>)> {
    var host := a[..HostEnd(a)];
    if !IsHost(host) then None
    else match ParsePort(a[HostEnd(a)..])
         case Some(port) => Some((host, port))
         case None => None
  }

  lemma {:induction false} RegNameStops(s: bytes)
    requires IsRegName(s)
    ensures forall i :: 0 <= i < |s| ==> s[i] != ':' && s[i] != '[' && s[i] != ']'
    decreases |s|
  {
    if s != [] {
      var k := if IsRegChar(s[0]) && IsRegName(s[1..]) then 1 else 3;
      RegNameStops(s[k..]);
      assert forall i :: k <= i < |s| ==> s[i] == s[k..][i - k];
    }
  }

  /** The parser cuts an authority exactly where the grammar does. */
  lemma ParsesAuthority(a: bytes, host: bytes, port: Option<nat>)
    ensures ParseAuthority(a) == Some((host, port)) <==> IsAuthority(a, host, port)
  {
    if IsAuthority(a, host, port) {
      var rest := a[|host|..];
      assert a == host + rest;
      if IsIpLiteral(host) {
        assert forall i :: 1 <= i < |host| - 1 ==> host[i] == host[1..|host| - 1][i - 1];
        LiteralHost(a, host);
      } else {
        RegNameStops(host);
        assert rest != [] ==> a[|host|] == ':';
        assert HostEnd(a) == |host|;
      }
    }
  }

  lemma LiteralHost(a: bytes, host: bytes)
    requires |host| > 2 && host <= a && host[0] == '[' && host[|host| - 1] == ']'
    requires forall i :: 1 <= i < |host| - 1 ==> IsLiteralChar(host[i])
    ensures HostEnd(a) == |host|
  {
    assert forall i :: 0 <= i < |host| - 1 ==> a[i] != ']';
    assert a[|host| - 1] == ']';
  }

  // ---- Host rules -------------------------------------------------------------------------

  function HostValues(r: Request): seq<bytes> { AllValues(r.headers, Known(Host)) }

  /** A `Host` beside a target that names its own authority: absent, or the same host
      and an equivalent port. */
  predicate HostAgrees(r: Request, host: bytes, ports: Option<nat> -> bool) {
    HostValues(r) != [] ==>
      && HostValues(r)[0] != []
      && ParseAuthority(HostValues(r)[0]).Some?
      && var (h, p) := ParseAuthority(HostValues(r)[0]).value;
         Lower(h) == Lower(host) && ports(p)
  }

  function DefaultPort(scheme: bytes): Option<nat> {
    if Lower(scheme) == "http" then Some(80)
    else if Lower(scheme) == "https" then Some(443)
    else None
  }

  function PortOr(p: Option<nat>, d: nat): nat { match p case Some(n) => n case None => d }

  /** `check_authority`; `None` is success. */
  function CheckAuthority(r: Request): Option<FramingError> {
    var hosts := HostValues(r);
    var named := hosts != [] && hosts[0] != [];
    if named && ParseAuthority(hosts[0]).None? then Some(InvalidHost)
    else if r.verb.Connect? then
      match ParseAuthority(r.target)
      case Some((host, Some(port))) =>
        if HostAgrees(r, host, (p: Option<nat>) => if p.Some? then p.value == port else port == 80 || port == 443)
        then None else Some(HostMismatch)
      case _ => Some(InvalidAuthority)
    else
      match FindAbsoluteAuthority(r.target)
      case None => None
      case Some((a0, a1)) =>
        match DefaultPort(r.target[..a0 - 3])
        case None => Some(UnsupportedScheme)
        case Some(d) =>
          match ParseAuthority(r.target[a0..a1])
          case None => Some(InvalidAuthority)
          case Some((host, port)) =>
            if HostAgrees(r, host, (p: Option<nat>) => PortOr(p, d) == PortOr(port, d))
            then None else Some(HostMismatch)
  }

  function CheckHost(r: Request): Option<FramingError> {
    if HostValues(r) == [] && r.version.Http11? then Some(MissingHost)
    else if |HostValues(r)| > 1 then Some(MultipleHost)
    else CheckAuthority(r)
  }

  // ---- Lists -------------------------------------------------------------------------------

  function TrimAll(ps: seq<bytes>): (r: seq<bytes>)
    ensures |r| == |ps|
    ensures forall i :: 0 <= i < |ps| ==> r[i] == TrimOws(ps[i])
  {
    if ps == [] then [] else [TrimOws(ps[0])] + TrimAll(ps[1..])
  }

  /** The elements of the comma lists, in wire order. */
  function Elements(values: seq<bytes>): seq<bytes> {
    if values == [] then [] else TrimAll(SplitOn(values[0], ',')) + Elements(values[1..])
  }

  predicate IsAscii(s: bytes) { forall i :: 0 <= i < |s| ==> s[i] < '\U{80}' }

  predicate AllAscii(values: seq<bytes>) { forall i :: 0 <= i < |values| ==> IsAscii(values[i]) }

  function NonEmpty(es: seq<bytes>): seq<bytes> {
    if es == [] then [] else (if es[0] == [] then [] else [es[0]]) + NonEmpty(es[1..])
  }

  predicate IsChunkedToken(e: bytes) { Lower(e) == "chunked" }

  function CountChunked(es: seq<bytes>): nat {
    if es == [] then 0 else (if IsChunkedToken(es[0]) then 1 else 0) + CountChunked(es[1..])
  }

  function TransferVerdict(codings: seq<bytes>): Result<BodyKind, FramingError> {
    var n := CountChunked(codings);
    if n == 1 && IsChunkedToken(codings[|codings| - 1]) then
      if |codings| == 1 then Ok(ChunkedBody) else Err(UnsupportedTransferEncoding)
    else if n >= 1 then Err(ChunkedNotFinal)
    else Err(UnsupportedTransferEncoding)
  }

  /** The elements read one after the other against the length agreed so far. */
  function Agree(agreed: Option<nat>, es: seq<bytes>): Result<Option<nat>, FramingError>
    decreases es
  {
    if es == [] then Ok(agreed)
    else
      match ParseU64(10, es[0])
      case None => Err(InvalidContentLength)
      case Some(n) =>
        if agreed.Some? && agreed.value != n then Err(DuplicateContentLength)
        else Agree(Some(n), es[1..])
  }

  /** The decision as a function of what the head says: version, Host verdict, the
      `Content-Length` and the `Transfer-Encoding` values. */
  function Verdict(version: Version, host: Option<FramingError>, lens: seq<bytes>, tes: seq<bytes>,
                   maxBody: nat): Result<BodyKind, FramingError>
  {
    if host.Some? then Err(host.value)
    else if lens != [] && tes != [] then Err(LengthAndTransferEncoding)
    else if tes != [] then
      if version.Http10? then Err(TransferEncodingOnHttp10)
      else if !AllAscii(tes) then Err(ChunkedNotFinal)
      else TransferVerdict(NonEmpty(Elements(tes)))
    else if lens != [] then
      match Agree(None, Elements(lens))
      case Err(e) => Err(e)
      case Ok(None) => Err(InvalidContentLength)
      case Ok(Some(n)) => if n > maxBody then Err(BodyTooLarge) else Ok(Length(n))
    else Ok(NoBody)
  }

  function Lengths(r: Request): seq<bytes> { AllValues(r.headers, Known(ContentLength)) }

  function Codings(r: Request): seq<bytes> { AllValues(r.headers, Known(TransferEncoding)) }

  function Decide(r: Request, maxBody: nat): Result<BodyKind, FramingError> {
    Verdict(r.version, CheckHost(r), Lengths(r), Codings(r), maxBody)
  }

  // ---- The loops -----------------------------------------------------------------------------

  lemma AllValuesSnoc(fields: seq<Field>, i: nat, id: HeaderId)
    requires i < |fields|
    ensures AllValues(fields[..i + 1], id)
            == AllValues(fields[..i], id) + (if fields[i].id == id then [fields[i].value] else [])
  {
    assert fields[..i + 1] == fields[..i] + [fields[i]];
    AllValuesAppend(fields[..i], [fields[i]], id);
    assert AllValues([fields[i]], id) == if fields[i].id == id then [fields[i].value] else [];
  }

  /** The one walk of the field list. */
  method CountFields(headers: seq<Field>) returns (hosts: nat, hasLen: bool, hasTe: bool)
    ensures hosts == |AllValues(headers, Known(Host))|
    ensures hasLen <==> AllValues(headers, Known(ContentLength)) != []
    ensures hasTe <==> AllValues(headers, Known(TransferEncoding)) != []
  {
    hosts, hasLen, hasTe := 0, false, false;
    for i := 0 to |headers|
      invariant hosts == |AllValues(headers[..i], Known(Host))|
      invariant hasLen <==> AllValues(headers[..i], Known(ContentLength)) != []
      invariant hasTe <==> AllValues(headers[..i], Known(TransferEncoding)) != []
    {
      AllValuesSnoc(headers, i, Known(Host));
      AllValuesSnoc(headers, i, Known(ContentLength));
      AllValuesSnoc(headers, i, Known(TransferEncoding));
      match headers[i].id {
        case Known(Host) => hosts := hosts + 1;
        case Known(ContentLength) => hasLen := true;
        case Known(TransferEncoding) => hasTe := true;
        case _ =>
      }
    }
    assert headers[..|headers|] == headers;
  }

  lemma {:induction false} NonEmptyAppend(a: seq<bytes>, b: seq<bytes>)
    ensures NonEmpty(a + b) == NonEmpty(a) + NonEmpty(b)
  {
    if a == [] {
      assert a + b == b;
    } else {
      NonEmptyAppend(a[1..], b);
      assert (a + b)[0] == a[0] && (a + b)[1..] == a[1..] + b;
      Assoc(if a[0] == [] then [] else [a[0]], NonEmpty(a[1..]), NonEmpty(b));
    }
  }

  lemma {:induction false} ElementsAppend(a: seq<bytes>, b: seq<bytes>)
    ensures Elements(a + b) == Elements(a) + Elements(b)
  {
    hide SplitOn, TrimAll;
    if a == [] {
      assert a + b == b;
    } else {
      ElementsAppend(a[1..], b);
      assert (a + b)[0] == a[0] && (a + b)[1..] == a[1..] + b;
      Assoc(TrimAll(SplitOn(a[0], ',')), Elements(a[1..]), Elements(b));
    }
  }

  lemma ElementsSnoc(values: seq<bytes>, i: nat)
    requires i < |values|
    ensures Elements(values[..i + 1]) == Elements(values[..i]) + TrimAll(SplitOn(values[i], ','))
  {
    assert values[..i + 1] == values[..i] + [values[i]];
    ElementsAppend(values[..i], [values[i]]);
    assert Elements([values[i]]) == TrimAll(SplitOn(values[i], ','));
  }

  /** `trim_ows`. */
  method StripOws(s: bytes) returns (r: bytes)
    ensures r == TrimOws(s)
  {
    r := s;
    while r != [] && IsWs(r[0])
      invariant TrimLeft(r) == TrimLeft(s)
    {
      assert TrimLeft(r) == TrimLeft(r[1..]);
      r := r[1..];
    }
    assert TrimLeft(r) == r;
    while r != [] && IsWs(r[|r| - 1])
      invariant TrimRight(r) == TrimOws(s)
    {
      r := r[..|r| - 1];
    }
  }

  /** The codings of one field appended to those of the fields before it. */
  method PushCodings(before: seq<bytes>, value: bytes) returns (kept: seq<bytes>)
    ensures kept == before + NonEmpty(TrimAll(SplitOn(value, ',')))
  {
    hide SplitOn, TrimAll, NonEmpty;
    var pieces := SplitOn(value, ',');
    kept := before;
    ghost var all := TrimAll(pieces);
    NonEmptyNil();
    for j := 0 to |pieces|
      invariant kept == before + NonEmpty(all[..j])
    {
      var coding := StripOws(pieces[j]);
      PushedCoding(all, j, coding);
      if coding != [] {
        Assoc(before, NonEmpty(all[..j]), [coding]);
        kept := kept + [coding];
      }
    }
    assert all[..|pieces|] == all;
  }

  lemma NonEmptyNil()
    ensures NonEmpty([]) == []
  {
  }

  lemma PushedCoding(all: seq<bytes>, j: nat, coding: bytes)
    requires j < |all| && all[j] == coding
    ensures NonEmpty(all[..j + 1]) == NonEmpty(all[..j]) + (if coding == [] then [] else [coding])
  {
    assert all[..j + 1] == all[..j] + [coding];
    NonEmptyAppend(all[..j], [coding]);
    assert NonEmpty([coding]) == if coding == [] then [] else [coding];
  }

  /** The non-empty codings of every field, in wire order, unless a value is not
      ASCII. */
  method CollectCodings(tes: seq<bytes>) returns (codings: Option<seq<bytes>>)
    ensures codings == if AllAscii(tes) then Some(NonEmpty(Elements(tes))) else None
  {
    hide IsAscii, SplitOn, TrimAll, NonEmpty;
    var kept: seq<bytes> := [];
    NonEmptyNil();
    for i := 0 to |tes|
      invariant AllAscii(tes[..i])
      invariant kept == NonEmpty(Elements(tes[..i]))
    {
      if !IsAscii(tes[i]) {
        return None;
      }
      kept := PushCodings(kept, tes[i]);
      ElementsSnoc(tes, i);
      NonEmptyAppend(Elements(tes[..i]), TrimAll(SplitOn(tes[i], ',')));
    }
    assert tes[..|tes|] == tes;
    codings := Some(kept);
  }

  /** One field's elements against the length agreed so far; `rest` is what the
      fields after it hold. */
  method AgreeOnValue(agreed: Option<nat>, value: bytes, ghost rest: seq<bytes>)
    returns (r: Result<Option<nat>, FramingError>)
    ensures Agree(agreed, TrimAll(SplitOn(value, ',')) + rest)
            == match r case Err(e) => Err(e) case Ok(n) => Agree(n, rest)
  {
    hide SplitOn, TrimAll;
    var pieces := SplitOn(value, ',');
    ghost var all := TrimAll(pieces);
    var now := agreed;
    assert all[0..] == all;
    for j := 0 to |pieces|
      invariant Agree(agreed, all + rest) == Agree(now, all[j..] + rest)
    {
      var element := StripOws(pieces[j]);
      assert all[j..] + rest == [element] + (all[j + 1..] + rest);
      var n := ParseContentLength(element);
      match n {
        case None => return Err(InvalidContentLength);
        case Some(n) =>
          if now.Some? && now.value != n {
            return Err(DuplicateContentLength);
          }
          now := Some(n);
      }
    }
    assert all[|pieces|..] + rest == rest;
    r := Ok(now);
  }

  /** The length every element of every list agrees on. */
  method AgreedLength(lens: seq<bytes>) returns (r: Result<Option<nat>, FramingError>)
    ensures r == Agree(None, Elements(lens))
  {
    hide SplitOn, TrimAll;
    var agreed: Option<nat> := None;
    assert lens[0..] == lens;
    for i := 0 to |lens|
      invariant Agree(None, Elements(lens)) == Agree(agreed, Elements(lens[i..]))
    {
      assert lens[i..][0] == lens[i] && lens[i..][1..] == lens[i + 1..];
      var now := AgreeOnValue(agreed, lens[i], Elements(lens[i + 1..]));
      match now {
        case Err(e) => return Err(e);
        case Ok(n) => agreed := n;
      }
    }
    r := Ok(agreed);
  }

  /** `decide`, statement by statement. */
  method DecideFraming(r: Request, maxBody: nat) returns (k: Result<BodyKind, FramingError>)
    ensures k == Decide(r, maxBody)
  {
    var hosts, hasLen, hasTe := CountFields(r.headers);
    if hosts == 0 && r.version.Http11? {
      return Err(MissingHost);
    }
    if hosts > 1 {
      return Err(MultipleHost);
    }
    var refused := CheckAuthority(r);
    if refused.Some? {
      return Err(refused.value);
    }
    if hasLen && hasTe {
      return Err(LengthAndTransferEncoding);
    }
    if hasTe {
      if r.version.Http10? {
        return Err(TransferEncodingOnHttp10);
      }
      var collected := CollectCodings(Codings(r));
      match collected {
        case None => return Err(ChunkedNotFinal);
        case Some(codings) => return TransferVerdict(codings);
      }
    }
    if hasLen {
      var agreed := AgreedLength(Lengths(r));
      match agreed {
        case Err(e) => return Err(e);
        case Ok(None) => return Err(InvalidContentLength);
        case Ok(Some(n)) => return if n > maxBody then Err(BodyTooLarge) else Ok(Length(n));
      }
    }
    k := Ok(NoBody);
  }
}
