/** What the framing decision means: the conditions for each verdict, and the edits
    of a field list that cannot change it. */
module FramingRules {
  import opened Octets
  import opened Numerals
  import opened Spelling
  import opened Headers
  import opened Target
  import opened Framing

  // ---- Host rules, by the grammar -----------------------------------------------------------

  /** The `Host` field is absent, or spells `host` in some case and a port `port`
      accepts. */
  ghost predicate NamesSame(hosts: seq<bytes>, host: bytes, port: Option<nat> -> bool) {
    hosts != [] ==>
      exists h, p :: IsAuthority(hosts[0], h, p) && Spells(h, host) && port(p)
  }

  predicate TunnelPort(at: nat, p: Option<nat>) {
    if p.Some? then p.value == at else at == 80 || at == 443
  }

  /** A CONNECT target names a host and a port, and `Host` names nothing else. */
  ghost predicate TunnelAgrees(target: bytes, hosts: seq<bytes>) {
    exists host, at :: IsAuthority(target, host, Some(at)) && NamesSame(hosts, host, (p: Option<nat>) => TunnelPort(at, p))
  }

  /** The same port, where `usual` need not be stated. */
  predicate SamePort(p: Option<nat>, q: Option<nat>, usual: nat) {
    p == q || ((p.None? || p == Some(usual)) && (q.None? || q == Some(usual)))
  }

  /** The authority is well formed, and `Host` names nothing else. */
  ghost predicate AgreesOver(authority: bytes, hosts: seq<bytes>, usual: nat) {
    exists host, port :: IsAuthority(authority, host, port)
                         && NamesSame(hosts, host, (p: Option<nat>) => SamePort(p, port, usual))
  }

  /** An absolute-form target is `http` or `https`, and `Host` agrees with it. */
  ghost predicate AbsoluteAgrees(scheme: bytes, authority: bytes, hosts: seq<bytes>) {
    || (Spells(scheme, "http") && AgreesOver(authority, hosts, 80))
    || (Spells(scheme, "https") && AgreesOver(authority, hosts, 443))
  }

  /** The schemes that have a usual port, and the port. */
  lemma UsualPort(scheme: bytes)
    ensures DefaultPort(scheme) == Some(80) <==> Spells(scheme, "http")
    ensures DefaultPort(scheme) == Some(443) <==> Spells(scheme, "https")
    ensures DefaultPort(scheme).Some? ==> DefaultPort(scheme).value == 80 || DefaultPort(scheme).value == 443
  {
    hide Spells;
    SpellsIsFold(scheme, "http");
    SpellsIsFold(scheme, "https");
    assert Lower("http") == "http" && Lower("https") == "https";
  }

  ghost predicate HostRules(r: Request) {
    var hosts := HostValues(r);
    && |hosts| <= 1 && (r.version.Http11? ==> |hosts| == 1)
    && (hosts != [] && hosts[0] != [] ==> exists h, p :: IsAuthority(hosts[0], h, p))
    && (if r.verb.Connect? then TunnelAgrees(r.target, hosts)
        else forall scheme, authority, rest :: IsAbsolute(r.target, scheme, authority, rest) ==>
               AbsoluteAgrees(scheme, authority, hosts))
  }

  /** A target has at most one scheme and authority, and the splitter finds them. */
  lemma OnlyAbsolute(t: bytes, hosts: seq<bytes>)
    ensures (forall scheme, authority, rest :: IsAbsolute(t, scheme, authority, rest) ==>
              AbsoluteAgrees(scheme, authority, hosts))
            <==>
            match FindAbsoluteAuthority(t)
            case None => true
            case Some((a0, a1)) => AbsoluteAgrees(t[..a0 - 3], t[a0..a1], hosts)
  {
    hide FindAbsoluteAuthority, IsAbsolute, AbsoluteAgrees;
    forall scheme, authority, rest | IsAbsolute(t, scheme, authority, rest)
      ensures FindAbsoluteAuthority(t) == Some((|scheme| + 3, |scheme| + 3 + |authority|))
      ensures |t| >= |scheme| + 3 + |authority|
      ensures t[..|scheme|] == scheme && t[|scheme| + 3..|scheme| + 3 + |authority|] == authority
    {
      AbsoluteFound(t, scheme, authority, rest);
      AbsolutePieces(t, scheme, authority, rest);
    }
    if FindAbsoluteAuthority(t).Some? {
      var (a0, a1) := FindAbsoluteAuthority(t).value;
      AbsoluteForm(t, a0, a1);
    }
  }

  lemma AuthorityExists(a: bytes)
    ensures ParseAuthority(a).Some? <==> exists h, p :: IsAuthority(a, h, p)
    ensures forall h, p :: IsAuthority(a, h, p) <==> ParseAuthority(a) == Some((h, p))
  {
    hide IsAuthority, ParseAuthority;
    forall h, p
      ensures IsAuthority(a, h, p) <==> ParseAuthority(a) == Some((h, p))
    {
      ParsesAuthority(a, h, p);
    }
    if ParseAuthority(a).Some? {
      var (h, p) := ParseAuthority(a).value;
      assert IsAuthority(a, h, p);
    }
  }

  lemma EmptyIsNoAuthority()
    ensures ParseAuthority([]).None?
  {
  }

  /** The parsed test and the grammatical one are the same. */
  lemma AgreementIs(r: Request, host: bytes, ports: Option<nat> -> bool)
    ensures HostAgrees(r, host, ports) <==> NamesSame(HostValues(r), host, ports)
  {
    hide IsAuthority, ParseAuthority, Spells, Lower;
    EmptyIsNoAuthority();
    forall h
      ensures Lower(h) == Lower(host) <==> Spells(h, host)
    {
      SpellsIsFold(h, host);
    }
    if HostValues(r) != [] {
      AuthorityExists(HostValues(r)[0]);
    }
  }

  lemma TunnelIs(r: Request)
    requires r.verb.Connect?
    requires HostValues(r) != [] && HostValues(r)[0] != [] ==> ParseAuthority(HostValues(r)[0]).Some?
    ensures CheckAuthority(r).None? <==> TunnelAgrees(r.target, HostValues(r))
  {
    hide IsAuthority, ParseAuthority, HostAgrees, NamesSame, HostValues;
    AuthorityExists(r.target);
    match ParseAuthority(r.target) {
      case Some((host, Some(at))) =>
        var ports := (p: Option<nat>) => if p.Some? then p.value == at else at == 80 || at == 443;
        var tunnel := (p: Option<nat>) => TunnelPort(at, p);
        AgreementIs(r, host, ports);
        SamePorts(r, host, ports, tunnel);
      case _ =>
    }
  }

  lemma SamePorts(r: Request, host: bytes, p: Option<nat> -> bool, q: Option<nat> -> bool)
    requires forall x :: p(x) <==> q(x)
    ensures NamesSame(HostValues(r), host, p) <==> NamesSame(HostValues(r), host, q)
  {
  }

  lemma AbsoluteIs(r: Request)
    requires !r.verb.Connect? && FindAbsoluteAuthority(r.target).Some?
    requires HostValues(r) != [] && HostValues(r)[0] != [] ==> ParseAuthority(HostValues(r)[0]).Some?
    ensures var (a0, a1) := FindAbsoluteAuthority(r.target).value;
            CheckAuthority(r).None? <==> AbsoluteAgrees(r.target[..a0 - 3], r.target[a0..a1], HostValues(r))
  {
    hide IsAuthority, ParseAuthority, HostAgrees, NamesSame, HostValues, DefaultPort, Spells;
    var (a0, a1) := FindAbsoluteAuthority(r.target).value;
    var authority := r.target[a0..a1];
    AuthorityExists(authority);
    UsualPort(r.target[..a0 - 3]);
    match DefaultPort(r.target[..a0 - 3]) {
      case None =>
      case Some(d) =>
        match ParseAuthority(authority) {
          case None =>
          case Some((host, port)) =>
            var ports := (p: Option<nat>) => PortOr(p, d) == PortOr(port, d);
            var same := (p: Option<nat>) => SamePort(p, port, d);
            AgreementIs(r, host, ports);
            SamePorts(r, host, ports, same);
        }
    }
  }

  /** The code's checks succeed exactly on the requests whose `Host` rules hold. */
  lemma HostRulesExact(r: Request)
    ensures CheckHost(r).None? <==> HostRules(r)
  {
    hide IsAuthority, ParseAuthority, HostAgrees, NamesSame, HostValues, CheckAuthority, TunnelAgrees, AbsoluteAgrees,
      FindAbsoluteAuthority, IsAbsolute;
    OnlyAbsolute(r.target, HostValues(r));
    if HostValues(r) != [] {
      AuthorityExists(HostValues(r)[0]);
    }
    HostFirst(r);
    if HostValues(r) != [] && HostValues(r)[0] != [] && ParseAuthority(HostValues(r)[0]).None? {
    } else if r.verb.Connect? {
      TunnelIs(r);
    } else if FindAbsoluteAuthority(r.target).Some? {
      AbsoluteIs(r);
    }
  }

  lemma HostFirst(r: Request)
    ensures HostValues(r) != [] && HostValues(r)[0] != [] && ParseAuthority(HostValues(r)[0]).None?
            ==> CheckAuthority(r).Some?
    ensures (HostValues(r) != [] && HostValues(r)[0] != [] ==> ParseAuthority(HostValues(r)[0]).Some?)
            && !r.verb.Connect? && FindAbsoluteAuthority(r.target).None?
            ==> CheckAuthority(r).None?
  {
    hide ParseAuthority, FindAbsoluteAuthority, HostValues;
  }

  /** The three fields the decision reads, by their names on the wire. */
  lemma FieldsRead(r: Request)
    requires forall f :: f in r.headers ==> Canonical(f.id) == f.id
    ensures HostValues(r) == ValuesNamed(r.headers, "host")
    ensures Lengths(r) == ValuesNamed(r.headers, "content-length")
    ensures Codings(r) == ValuesNamed(r.headers, "transfer-encoding")
  {
    ValuesOfName(r.headers, Host);
    ValuesOfName(r.headers, ContentLength);
    ValuesOfName(r.headers, TransferEncoding);
    hide ValuesNamed, AllValues, Canonical;
  }

  // ---- When each verdict is given ---------------------------------------------------------------

  predicate AllDenote(es: seq<bytes>, n: nat) {
    forall i :: 0 <= i < |es| ==> IsNumeral(10, es[i]) && Value(10, es[i]) == n
  }

  lemma {:induction false} AgreeOnAll(agreed: Option<nat>, es: seq<bytes>, n: nat)
    requires n <= U64_MAX && (agreed.Some? || es != [])
    ensures Agree(agreed, es) == Ok(Some(n)) <==> (agreed == None || agreed == Some(n)) && AllDenote(es, n)
    decreases es
  {
    if es != [] {
      assert forall i :: 1 <= i < |es| ==> es[i] == es[1..][i - 1];
      assert AllDenote(es, n) <==> (IsNumeral(10, es[0]) && Value(10, es[0]) == n) && AllDenote(es[1..], n);
      match ParseU64(10, es[0])
      case None =>
      case Some(m) => AgreeOnAll(Some(m), es[1..], n);
    }
  }

  lemma {:induction false} AgreedIsU64(agreed: Option<nat>, es: seq<bytes>)
    requires agreed.Some? ==> agreed.value <= U64_MAX
    ensures Agree(agreed, es).Ok? && Agree(agreed, es).value.Some? ==> Agree(agreed, es).value.value <= U64_MAX
    decreases es
  {
    if es != [] {
      match ParseU64(10, es[0])
      case None =>
      case Some(m) => AgreedIsU64(Some(m), es[1..]);
    }
  }

  lemma ListHasElement(values: seq<bytes>)
    requires values != []
    ensures Elements(values) != []
  {
  }

  /** A length is accepted exactly when no coding is named, every element of every
      list denotes it, it fits a `u64` and the limit, and the `Host` rules hold. */
  lemma LengthIff(r: Request, maxBody: nat, n: nat)
    ensures Decide(r, maxBody) == Ok(Length(n)) <==>
              && HostRules(r) && Codings(r) == [] && Lengths(r) != []
              && AllDenote(Elements(Lengths(r)), n) && n <= U64_MAX && n <= maxBody
  {
    hide HostRules, CheckHost, Agree, Elements, AllDenote, TransferVerdict;
    HostRulesExact(r);
    var es := Elements(Lengths(r));
    AgreedIsU64(None, es);
    if Lengths(r) != [] {
      ListHasElement(Lengths(r));
      if n <= U64_MAX {
        AgreeOnAll(None, es, n);
      }
    }
    assert TransferVerdict(NonEmpty(Elements(Codings(r)))) != Ok(Length(n)) by {
      TransferIsChunked(NonEmpty(Elements(Codings(r))));
    }
  }

  lemma {:induction false} CountNone(es: seq<bytes>)
    ensures CountChunked(es) <= |es|
    ensures CountChunked(es) == 0 <==> forall i :: 0 <= i < |es| ==> !IsChunkedToken(es[i])
  {
    if es != [] {
      CountNone(es[1..]);
      assert forall i :: 1 <= i < |es| ==> es[i] == es[1..][i - 1];
    }
  }

  lemma TransferIsChunked(codings: seq<bytes>)
    ensures TransferVerdict(codings).Ok? ==> TransferVerdict(codings).value == ChunkedBody
    ensures TransferVerdict(codings).Ok? <==> |codings| == 1 && IsChunkedToken(codings[0])
  {
    CountNone(codings);
    if |codings| == 1 {
      assert codings == [codings[0]] && codings[1..] == [];
    }
  }

  /** A body is chunked exactly when the codings, empty elements aside, are the one
      word `chunked`. */
  lemma ChunkedIff(r: Request, maxBody: nat)
    ensures Decide(r, maxBody) == Ok(ChunkedBody) <==>
              && HostRules(r) && Lengths(r) == [] && r.version.Http11? && AllAscii(Codings(r))
              && Codings(r) != []
              && var codings := NonEmpty(Elements(Codings(r)));
                 |codings| == 1 && Spells(codings[0], "chunked")
  {
    var codings := NonEmpty(Elements(Codings(r)));
    if |codings| == 1 {
      ChunkedTokenIff(codings[0]);
    }
    hide Spells, IsChunkedToken;
    hide HostRules, CheckHost, Agree, Elements, NonEmpty, AllAscii, TransferVerdict;
    HostRulesExact(r);
    TransferIsChunked(NonEmpty(Elements(Codings(r))));
  }

  lemma NoBodyIff(r: Request, maxBody: nat)
    ensures Decide(r, maxBody) == Ok(NoBody) <==> HostRules(r) && Lengths(r) == [] && Codings(r) == []
  {
    hide HostRules, CheckHost, Agree, Elements, NonEmpty, AllAscii, TransferVerdict;
    HostRulesExact(r);
    TransferIsChunked(NonEmpty(Elements(Codings(r))));
  }

  // ---- When each refusal is given ----------------------------------------------------------------

  /** The checks on `Host` give errors of their own. */
  predicate IsHostError(e: FramingError) {
    e.MissingHost? || e.MultipleHost? || e.InvalidHost? || e.InvalidAuthority? || e.UnsupportedScheme? || e.HostMismatch?
  }

  lemma HostErrors(r: Request)
    ensures CheckHost(r).Some? ==> IsHostError(CheckHost(r).value)
  {
    hide HostValues, ParseAuthority, FindAbsoluteAuthority, DefaultPort, HostAgrees;
  }

  lemma AgreedOn(es: seq<bytes>)
    requires es != []
    ensures var r := Agree(None, es);
            if r.Ok? then r.value.Some? && AllDenote(es, r.value.value) && r.value.value <= U64_MAX
            else r.error.InvalidContentLength? || r.error.DuplicateContentLength?
    ensures forall n: nat :: n <= U64_MAX && AllDenote(es, n) ==> Agree(None, es) == Ok(Some(n))
  {
    AgreedIsU64(None, es);
    AgreeErrors(None, es);
    forall n: nat | n <= U64_MAX
      ensures Agree(None, es) == Ok(Some(n)) <==> AllDenote(es, n)
    {
      AgreeOnAll(None, es, n);
    }
    hide Agree, AllDenote;
  }

  lemma {:induction false} AgreeErrors(agreed: Option<nat>, es: seq<bytes>)
    ensures Agree(agreed, es).Err? ==> Agree(agreed, es).error.InvalidContentLength? || Agree(agreed, es).error.DuplicateContentLength?
    ensures es != [] ==> Agree(agreed, es) != Ok(None)
    decreases es
  {
    if es != [] {
      match ParseU64(10, es[0])
      case None =>
      case Some(m) =>
        AgreeErrors(Some(m), es[1..]);
        assert es[1..] == [] ==> Agree(Some(m), es[1..]) == Ok(Some(m));
    }
  }

  /** A body is refused for its size, with 413, exactly when the `Host` rules hold, no coding
      is named, and every element of every list denotes the same 64-bit length, past the
      limit. */
  lemma TooLargeIff(r: Request, maxBody: nat)
    ensures Decide(r, maxBody) == Err(BodyTooLarge) <==>
              && HostRules(r) && Codings(r) == [] && Lengths(r) != []
              && exists n: nat :: maxBody < n <= U64_MAX && AllDenote(Elements(Lengths(r)), n)
  {
    HostRulesExact(r);
    HostErrors(r);
    TransferErrors(NonEmpty(Elements(Codings(r))));
    hide HostRules, CheckHost, Agree, Elements, NonEmpty, AllDenote, AllAscii, TransferVerdict;
    var es := Elements(Lengths(r));
    if Lengths(r) != [] {
      ListHasElement(Lengths(r));
      AgreedOn(es);
      if n: nat :| maxBody < n <= U64_MAX && AllDenote(es, n) {
        AgreeOnAll(None, es, n);
      }
    }
  }

  lemma TransferErrors(codings: seq<bytes>)
    ensures TransferVerdict(codings).Err? ==>
              TransferVerdict(codings).error.ChunkedNotFinal? || TransferVerdict(codings).error.UnsupportedTransferEncoding?
  {
    hide CountChunked, IsChunkedToken;
  }

  /** The codings name `chunked` nowhere but at the end. */
  ghost predicate OnlyLastChunked(codings: seq<bytes>) {
    forall i :: 0 <= i < |codings| ==> Spells(codings[i], "chunked") ==> i == |codings| - 1
  }

  lemma ChunkedTokenIff(e: bytes)
    ensures IsChunkedToken(e) <==> Spells(e, "chunked")
  {
    assert Lower("chunked") == "chunked";
    SpellsIsFold(e, "chunked");
    hide Spells, Lower;
  }

  lemma {:induction false} CountsLast(es: seq<bytes>)
    ensures CountChunked(es) == 0 || (CountChunked(es) == 1 && IsChunkedToken(es[|es| - 1])) <==> OnlyLastChunked(es)
  {
    hide IsChunkedToken, Spells;
    if es != [] {
      var rest := es[1..];
      ChunkedTokenIff(es[0]);
      ChunkedTokenIff(es[|es| - 1]);
      CountsLast(rest);
      CountNone(rest);
      forall i | 1 <= i < |es|
        ensures es[i] == rest[i - 1] && (IsChunkedToken(es[i]) <==> Spells(es[i], "chunked"))
      {
        ChunkedTokenIff(es[i]);
      }
      if rest == [] {
        assert CountChunked(rest) == 0;
      } else if OnlyLastChunked(es) {
        assert !Spells(es[0], "chunked");
        assert forall i :: 0 <= i < |rest| ==> rest[i] == es[i + 1];
        assert OnlyLastChunked(rest);
      } else if OnlyLastChunked(rest) {
        assert forall i :: 0 <= i < |rest| ==> rest[i] == es[i + 1];
        assert Spells(es[0], "chunked");
      }
    }
  }

  /** A coding is refused as one the server does not implement, with 501, exactly when the
      `Host` rules hold, no length is given, the version allows codings, every value is
      ASCII, `chunked` is named nowhere but at the end, and it is not all there is. */
  lemma UnsupportedIff(r: Request, maxBody: nat)
    ensures Decide(r, maxBody) == Err(UnsupportedTransferEncoding) <==>
              && HostRules(r) && Lengths(r) == [] && Codings(r) != [] && r.version.Http11? && AllAscii(Codings(r))
              && var codings := NonEmpty(Elements(Codings(r)));
                 OnlyLastChunked(codings) && !(|codings| == 1 && Spells(codings[0], "chunked"))
  {
    HostRulesExact(r);
    HostErrors(r);
    var codings := NonEmpty(Elements(Codings(r)));
    UnsupportedCodings(codings);
    if Lengths(r) != [] {
      ListHasElement(Lengths(r));
      AgreeErrors(None, Elements(Lengths(r)));
    }
    hide HostRules, CheckHost, Agree, Elements, NonEmpty, AllAscii, TransferVerdict, OnlyLastChunked, Spells;
  }

  lemma UnsupportedCodings(codings: seq<bytes>)
    ensures TransferVerdict(codings) == Err(UnsupportedTransferEncoding) <==>
              OnlyLastChunked(codings) && !(|codings| == 1 && Spells(codings[0], "chunked"))
  {
    CountsLast(codings);
    CountNone(codings);
    if codings != [] {
      ChunkedTokenIff(codings[0]);
      ChunkedTokenIff(codings[|codings| - 1]);
    }
    if |codings| == 1 {
      assert codings == [codings[0]];
    }
    hide Spells, IsChunkedToken, OnlyLastChunked, CountChunked;
  }

  // ---- Edits that change nothing -------------------------------------------------------------------

  predicate SameValues(a: seq<Field>, b: seq<Field>, id: HeaderId) { AllValues(a, id) == AllValues(b, id) }

  lemma DecideReadsValues(r: Request, s: Request, maxBody: nat)
    requires r.verb == s.verb && r.target == s.target && r.version == s.version
    requires SameValues(r.headers, s.headers, Known(Host))
    requires Verdict(r.version, CheckHost(r), Lengths(r), Codings(r), maxBody)
             == Verdict(r.version, CheckHost(r), Lengths(s), Codings(s), maxBody)
    ensures Decide(r, maxBody) == Decide(s, maxBody)
  {
    hide Verdict, ParseAuthority, FindAbsoluteAuthority, DefaultPort;
  }

  lemma AllValuesAround(a: seq<Field>, m: seq<Field>, b: seq<Field>, id: HeaderId)
    ensures AllValues(a + m + b, id) == AllValues(a, id) + AllValues(m, id) + AllValues(b, id)
  {
    AllValuesAppend(a + m, b, id);
    AllValuesAppend(a, m, id);
  }

  /** Swapping two neighbouring fields of different names changes no verdict and no
      error. */
  lemma SwapFields(r: Request, a: seq<Field>, f: Field, g: Field, b: seq<Field>, maxBody: nat)
    requires f.id != g.id
    ensures Decide(r.(headers := a + [f, g] + b), maxBody) == Decide(r.(headers := a + [g, f] + b), maxBody)
  {
    hide Verdict, CheckHost;
    var p, q := r.(headers := a + [f, g] + b), r.(headers := a + [g, f] + b);
    SwapValues(a, f, g, b, Known(Host));
    SwapValues(a, f, g, b, Known(ContentLength));
    SwapValues(a, f, g, b, Known(TransferEncoding));
    DecideReadsValues(p, q, maxBody);
  }

  lemma SwapValues(a: seq<Field>, f: Field, g: Field, b: seq<Field>, id: HeaderId)
    requires f.id != g.id
    ensures SameValues(a + [f, g] + b, a + [g, f] + b, id)
  {
    hide AllValues;
    AllValuesAround(a, [f, g], b, id);
    AllValuesAround(a, [g, f], b, id);
    AllValuesAppend([f], [g], id);
    AllValuesAppend([g], [f], id);
    assert [f] + [g] == [f, g] && [g] + [f] == [g, f];
    OneField(f, id);
    OneField(g, id);
  }

  // ---- Merging two fields into one list --------------------------------------------------------------

  /** Everything `TrimOws` takes off is whitespace around what it leaves. */
  lemma TrimSplits(s: bytes) returns (a: bytes, c: bytes)
    ensures s == a + TrimOws(s) + c && All(a, IsWs) && All(c, IsWs)
  {
    var n := Span(s, IsWs);
    var l := TrimLeft(s);
    var m := TrimRight(l);
    a, c := s[..n], l[|m|..];
    assert forall j :: 0 <= j < |c| ==> c[j] == l[|m| + j];
    CutInThree(s, n, l, m);
  }

  lemma CutInThree(s: bytes, n: nat, l: bytes, m: bytes)
    requires n <= |s| && l == s[n..] && |m| <= |l| && m == l[..|m|]
    ensures s == s[..n] + m + l[|m|..]
  {
    assert l == m + l[|m|..];
    assert s == s[..n] + l;
    Assoc(s[..n], m, l[|m|..]);
  }

  lemma TrimPadding(a: bytes, s: bytes, c: bytes)
    requires All(a, IsWs) && All(c, IsWs)
    ensures TrimOws(a + s + c) == TrimOws(s)
  {
    hide TrimOws;
    var m := TrimOws(s);
    var x, y := TrimSplits(s);
    TrimOwsTrimmed(s);
    assert a + s + c == (a + x) + m + (y + c);
    TrimPadded(a + x, m, y + c);
  }

  lemma NoComma(ws: bytes)
    requires All(ws, IsWs)
    ensures IndexOf(ws, ',') == |ws|
  {
  }

  lemma {:induction false} PadRight(v: bytes, ws: bytes)
    requires All(ws, IsWs)
    ensures TrimAll(SplitOn(v + ws, ',')) == TrimAll(SplitOn(v, ','))
    decreases |v|
  {
    hide TrimOws, TrimAll, SplitOn;
    var i := IndexOf(v, ',');
    IndexOfAppend(v, ws, ',');
    NoComma(ws);
    if i == |v| {
      TrimPadding([], v, ws);
      assert [] + v + ws == v + ws;
      SplitFirst(v, ',', i, v, []);
      SplitFirst(v + ws, ',', |v + ws|, v + ws, []);
      TrimHead(v, []);
      TrimHead(v + ws, []);
    } else {
      assert (v + ws)[..i] == v[..i] && (v + ws)[i + 1..] == v[i + 1..] + ws;
      PadRight(v[i + 1..], ws);
      var tail, padded := SplitOn(v[i + 1..], ','), SplitOn(v[i + 1..] + ws, ',');
      SplitFirst(v, ',', i, v[..i], tail);
      SplitFirst(v + ws, ',', i, v[..i], padded);
      TrimHead(v[..i], tail);
      TrimHead(v[..i], padded);
    }
  }

  lemma TrimHead(p: bytes, ps: seq<bytes>)
    ensures TrimAll([p] + ps) == [TrimOws(p)] + TrimAll(ps)
  {
    assert ([p] + ps)[1..] == ps;
  }

  lemma PadLeft(ws: bytes, v: bytes)
    requires All(ws, IsWs)
    ensures TrimAll(SplitOn(ws + v, ',')) == TrimAll(SplitOn(v, ','))
  {
    hide TrimOws, TrimAll, SplitOn;
    var i := IndexOf(v, ',');
    IndexOfAppend(ws, v, ',');
    NoComma(ws);
    var p := v[..i];
    var tail := if i == |v| then [] else SplitOn(v[i + 1..], ',');
    assert (ws + v)[..|ws| + i] == ws + p;
    assert i < |v| ==> (ws + v)[|ws| + i + 1..] == v[i + 1..];
    SplitFirst(v, ',', i, p, tail);
    SplitFirst(ws + v, ',', |ws| + i, ws + p, tail);
    TrimPadding(ws, p, []);
    assert ws + p + [] == ws + p;
    TrimHead(p, tail);
    TrimHead(ws + p, tail);
  }

  lemma {:induction false} TrimAllAppend(a: seq<bytes>, b: seq<bytes>)
    ensures TrimAll(a + b) == TrimAll(a) + TrimAll(b)
  {
    assert forall i :: 0 <= i < |a| ==> (a + b)[i] == a[i];
    assert forall i :: 0 <= i < |b| ==> (a + b)[|a| + i] == b[i];
  }

  /** Two values with a comma and optional whitespace between them. */
  function Joined(v: bytes, ws1: bytes, ws2: bytes, w: bytes): bytes { v + ws1 + "," + (ws2 + w) }

  lemma JoinedElements(v: bytes, ws1: bytes, ws2: bytes, w: bytes)
    requires All(ws1, IsWs) && All(ws2, IsWs)
    ensures Elements([Joined(v, ws1, ws2, w)]) == Elements([v, w])
  {
    hide TrimAll, SplitOn;
    SplitOnJoin(v + ws1, ws2 + w, ',');
    TrimAllAppend(SplitOn(v + ws1, ','), SplitOn(ws2 + w, ','));
    PadRight(v, ws1);
    PadLeft(ws2, w);
    ElementsAppend([v], [w]);
    assert [v] + [w] == [v, w];
    One(v);
    One(w);
    One(Joined(v, ws1, ws2, w));
  }

  lemma One(v: bytes)
    ensures Elements([v]) == TrimAll(SplitOn(v, ','))
  {
  }

  /** Two list-valued fields of one name with none of that name between them, and the
      one field they merge into. */
  lemma MergedValues(a: seq<Field>, f: Field, m: seq<Field>, g: Field, b: seq<Field>, joined: bytes, id: HeaderId)
    requires f.id == g.id && AllValues(m, f.id) == []
    ensures var before, after := a + ([f] + m + [g]) + b, a + ([f.(value := joined)] + m) + b;
            && (id != f.id ==> SameValues(before, after, id))
            && (id == f.id ==>
                  && AllValues(before, id) == AllValues(a, id) + [f.value, g.value] + AllValues(b, id)
                  && AllValues(after, id) == AllValues(a, id) + [joined] + AllValues(b, id))
  {
    var h := f.(value := joined);
    AllValuesAround(a, [f] + m + [g], b, id);
    AllValuesAround([f], m, [g], id);
    AllValuesAround(a, [h] + m, b, id);
    AllValuesAppend([h], m, id);
    OneField(f, id);
    OneField(g, id);
    OneField(h, id);
    if id == f.id {
      assert [f.value] + [] + [g.value] == [f.value, g.value];
      assert [joined] + [] == [joined];
    } else {
      assert [] + AllValues(m, id) + [] == [] + AllValues(m, id);
    }
  }

  lemma OneField(f: Field, id: HeaderId)
    ensures AllValues([f], id) == if f.id == id then [f.value] else []
  {
  }

  lemma SameElements(A: seq<bytes>, x: seq<bytes>, y: seq<bytes>, B: seq<bytes>)
    requires Elements(x) == Elements(y)
    ensures Elements(A + x + B) == Elements(A + y + B)
  {
    ElementsAppend(A + x, B);
    ElementsAppend(A, x);
    ElementsAppend(A + y, B);
    ElementsAppend(A, y);
  }

  lemma AllAsciiAppend(a: seq<bytes>, b: seq<bytes>)
    ensures AllAscii(a + b) <==> AllAscii(a) && AllAscii(b)
  {
    hide IsAscii;
    assert forall i :: 0 <= i < |a| ==> (a + b)[i] == a[i];
    assert forall i :: 0 <= i < |b| ==> (a + b)[|a| + i] == b[i];
  }

  lemma SameAscii(A: seq<bytes>, v: bytes, w: bytes, ws1: bytes, ws2: bytes, B: seq<bytes>)
    requires All(ws1, IsWs) && All(ws2, IsWs)
    ensures AllAscii(A + [v, w] + B) <==> AllAscii(A + [Joined(v, ws1, ws2, w)] + B)
  {
    var j := Joined(v, ws1, ws2, w);
    JoinedAscii(v, ws1, ws2, w);
    assert AllAscii([j]) <==> IsAscii([j][0]);
    assert AllAscii([v, w]) <==> IsAscii([v, w][0]) && IsAscii([v, w][1]);
    hide IsAscii, Joined, AllAscii;
    AllAsciiAppend(A + [v, w], B);
    AllAsciiAppend(A, [v, w]);
    AllAsciiAppend(A + [j], B);
    AllAsciiAppend(A, [j]);
  }

  lemma AsciiAppend(a: bytes, b: bytes)
    ensures IsAscii(a + b) <==> IsAscii(a) && IsAscii(b)
  {
    assert forall i :: 0 <= i < |a| ==> (a + b)[i] == a[i];
    assert forall i :: 0 <= i < |b| ==> (a + b)[|a| + i] == b[i];
  }

  lemma JoinedAscii(v: bytes, ws1: bytes, ws2: bytes, w: bytes)
    requires All(ws1, IsWs) && All(ws2, IsWs)
    ensures IsAscii(Joined(v, ws1, ws2, w)) <==> IsAscii(v) && IsAscii(w)
  {
    assert IsAscii(ws1) && IsAscii(ws2) && IsAscii(",");
    hide IsAscii;
    AsciiAppend(v, ws1);
    AsciiAppend(v + ws1, ",");
    AsciiAppend(ws2, w);
    AsciiAppend(v + ws1 + ",", ws2 + w);
  }

  /** Merging repeated `Content-Length` or `Transfer-Encoding` fields into one comma
      list, with any optional whitespace, changes no verdict and no error. */
  lemma MergeFields(r: Request, a: seq<Field>, f: Field, m: seq<Field>, g: Field, b: seq<Field>,
                    ws1: bytes, ws2: bytes, maxBody: nat)
    requires f.id == Known(ContentLength) || f.id == Known(TransferEncoding)
    requires g.id == f.id && AllValues(m, f.id) == []
    requires All(ws1, IsWs) && All(ws2, IsWs)
    ensures Decide(r.(headers := a + ([f] + m + [g]) + b), maxBody)
            == Decide(r.(headers := a + ([f.(value := Joined(f.value, ws1, ws2, g.value))] + m) + b), maxBody)
  {
    hide Joined, CheckHost, Agree, TransferVerdict, Elements, AllAscii, NonEmpty;
    var j := Joined(f.value, ws1, ws2, g.value);
    var p, q := r.(headers := a + ([f] + m + [g]) + b), r.(headers := a + ([f.(value := j)] + m) + b);
    MergedValues(a, f, m, g, b, j, Known(Host));
    MergedValues(a, f, m, g, b, j, Known(ContentLength));
    MergedValues(a, f, m, g, b, j, Known(TransferEncoding));
    var A, B := AllValues(a, f.id), AllValues(b, f.id);
    JoinedElements(f.value, ws1, ws2, g.value);
    SameElements(A, [f.value, g.value], [j], B);
    SameAscii(A, f.value, g.value, ws1, ws2, B);
    DecideReadsValues(p, q, maxBody);
  }
}
