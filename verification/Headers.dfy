/** Field names and field lists (`src/header.rs`). */
module Headers {
  import opened Octets
  import opened Numerals
  import opened Spelling

  datatype WellKnown =
    | Host | ContentLength | ContentType | TransferEncoding | Connection | Expect
    | Upgrade | Date | Server | Accept | AcceptEncoding | AcceptLanguage
    | Authorization | CacheControl | Cookie | SetCookie | Etag | IfNoneMatch
    | IfModifiedSince | LastModified | Location | Referer | UserAgent | Vary
    | Allow | Trailer | Te | ContentEncoding | ContentLanguage | Range | IfMatch
    | IfUnmodifiedSince | Origin

  /** An interned field name. `Other` holds any name, lowercased when it was parsed
      but spelled as it likes when a handler built it. */
  datatype HeaderId = Known(which: WellKnown) | Other(name: bytes)

  datatype Field = Field(id: HeaderId, value: bytes)

  /** `tchar` of RFC 9110 section 5.6.2. */
  predicate IsTchar(b: byte) {
    || IsDigit(b) || 'a' <= b <= 'z' || 'A' <= b <= 'Z'
    || b == '!' || b == '#' || b == '$' || b == '%' || b == '&' || b == '\''
    || b == '*' || b == '+' || b == '-' || b == '.' || b == '^' || b == '_'
    || b == '`' || b == '|' || b == '~'
  }

  predicate IsToken(s: bytes) { s != [] && All(s, IsTchar) }

  function NameOf(k: WellKnown): bytes {
    match k
    case Host => "host"
    case ContentLength => "content-length"
    case ContentType => "content-type"
    case TransferEncoding => "transfer-encoding"
    case Connection => "connection"
    case Expect => "expect"
    case Upgrade => "upgrade"
    case Date => "date"
    case Server => "server"
    case Accept => "accept"
    case AcceptEncoding => "accept-encoding"
    case AcceptLanguage => "accept-language"
    case Authorization => "authorization"
    case CacheControl => "cache-control"
    case Cookie => "cookie"
    case SetCookie => "set-cookie"
    case Etag => "etag"
    case IfNoneMatch => "if-none-match"
    case IfModifiedSince => "if-modified-since"
    case LastModified => "last-modified"
    case Location => "location"
    case Referer => "referer"
    case UserAgent => "user-agent"
    case Vary => "vary"
    case Allow => "allow"
    case Trailer => "trailer"
    case Te => "te"
    case ContentEncoding => "content-encoding"
    case ContentLanguage => "content-language"
    case Range => "range"
    case IfMatch => "if-match"
    case IfUnmodifiedSince => "if-unmodified-since"
    case Origin => "origin"
  }

  /** The name as the wire spells it: lower case, except that `Other` keeps its own
      spelling. */
  function AsStr(id: HeaderId): bytes {
    match id case Known(k) => NameOf(k) case Other(name) => name
  }

  /** The well-known name a lower-case string spells, if any: told by its length, then by
      comparison with each name of that length. */
  function LookUp(l: bytes): Option<WellKnown> {
    match |l|
    case 2 => if l == "te" then Some(Te) else None
    case 4 =>
      if l == "host" then Some(Host) else if l == "date" then Some(Date)
      else if l == "vary" then Some(Vary) else if l == "etag" then Some(Etag) else None
    case 5 => if l == "allow" then Some(Allow) else if l == "range" then Some(Range) else None
    case 6 =>
      if l == "accept" then Some(Accept) else if l == "expect" then Some(Expect)
      else if l == "cookie" then Some(Cookie) else if l == "server" then Some(Server)
      else if l == "origin" then Some(Origin) else None
    case 7 =>
      if l == "upgrade" then Some(Upgrade) else if l == "trailer" then Some(Trailer)
      else if l == "referer" then Some(Referer) else None
    case 8 => if l == "if-match" then Some(IfMatch) else if l == "location" then Some(Location) else None
    case 10 =>
      if l == "connection" then Some(Connection) else if l == "set-cookie" then Some(SetCookie)
      else if l == "user-agent" then Some(UserAgent) else None
    case 12 => if l == "content-type" then Some(ContentType) else None
    case 13 =>
      if l == "authorization" then Some(Authorization) else if l == "cache-control" then Some(CacheControl)
      else if l == "if-none-match" then Some(IfNoneMatch) else if l == "last-modified" then Some(LastModified)
      else None
    case 14 => if l == "content-length" then Some(ContentLength) else None
    case 15 =>
      if l == "accept-encoding" then Some(AcceptEncoding) else if l == "accept-language" then Some(AcceptLanguage)
      else None
    case 16 =>
      if l == "content-encoding" then Some(ContentEncoding) else if l == "content-language" then Some(ContentLanguage)
      else None
    case 17 =>
      if l == "transfer-encoding" then Some(TransferEncoding) else if l == "if-modified-since" then Some(IfModifiedSince)
      else None
    case 19 => if l == "if-unmodified-since" then Some(IfUnmodifiedSince) else None
    case _ => None
  }

  /** A field name matched against the well-known set, ignoring case. */
  function FromBytes(name: bytes): Option<WellKnown> { LookUp(Lower(name)) }

  /** The id a field really is: an `Other` that spells a well-known name is that
      name. */
  function Canonical(id: HeaderId): HeaderId {
    match id
    case Other(name) => (match FromBytes(name) case Some(k) => Known(k) case None => id)
    case Known(_) => id
  }

  /** A name read off the wire: well-known, or lowercased. */
  function Intern(name: bytes): HeaderId {
    match FromBytes(name) case Some(k) => Known(k) case None => Other(Lower(name))
  }

  predicate ForbiddenInTrailers(id: HeaderId) {
    id.Known? &&
    var k := id.which;
    || k.TransferEncoding? || k.ContentLength? || k.Host? || k.Connection?
    || k.Expect? || k.Te? || k.Trailer? || k.Upgrade? || k.CacheControl?
    || k.Authorization? || k.SetCookie?
  }

  /** Whether a comma list holds `token`, given in lower case. */
  predicate ValueHasToken(value: bytes, token: bytes) {
    exists t :: t in SplitOn(value, ',') && Lower(TrimOws(t)) == token
  }

  /** Whether some of a field's values holds `token`. */
  predicate NamesToken(values: seq<bytes>, token: bytes) {
    exists v :: v in values && ValueHasToken(v, token)
  }

  /** An element of the comma list spells `word`, in whatever case. */
  ghost predicate Lists(value: bytes, word: bytes) {
    exists t :: t in SplitOn(value, ',') && Spells(TrimOws(t), word)
  }

  /** So does an element of some of the lists. */
  ghost predicate Mention(values: seq<bytes>, word: bytes) {
    exists v :: v in values && Lists(v, word)
  }

  lemma HasTokenIff(value: bytes, token: bytes)
    requires Lower(token) == token
    ensures ValueHasToken(value, token) <==> Lists(value, token)
  {
    hide Spells, Lower, TrimOws, SplitOn;
    forall t
      ensures Lower(TrimOws(t)) == token <==> Spells(TrimOws(t), token)
    {
      SpellsIsFold(TrimOws(t), token);
    }
  }

  lemma NamesTokenIff(values: seq<bytes>, token: bytes)
    requires Lower(token) == token
    ensures NamesToken(values, token) <==> Mention(values, token)
  {
    hide ValueHasToken, Lists, Lower;
    forall v
      ensures ValueHasToken(v, token) <==> Lists(v, token)
    {
      HasTokenIff(v, token);
    }
  }

  function AllValues(fields: seq<Field>, id: HeaderId): (r: seq<bytes>) {
    if fields == [] then []
    else (if fields[0].id == id then [fields[0].value] else []) + AllValues(fields[1..], id)
  }

  lemma {:induction false} AllValuesAppend(a: seq<Field>, b: seq<Field>, id: HeaderId)
    ensures AllValues(a + b, id) == AllValues(a, id) + AllValues(b, id)
  {
    if a == [] {
      assert a + b == b;
    } else {
      AllValuesAppend(a[1..], b, id);
      assert (a + b)[0] == a[0] && (a + b)[1..] == a[1..] + b;
      Assoc(if a[0].id == id then [a[0].value] else [], AllValues(a[1..], id), AllValues(b, id));
    }
  }

  // ---- Names and ids determine each other ----------------------------------------

  lemma LowerToken(s: bytes)
    ensures IsToken(Lower(s)) <==> IsToken(s)
  {
    assert forall i :: 0 <= i < |s| ==> (IsTchar(Lower(s)[i]) <==> IsTchar(s[i]));
  }

  predicate IsLowerTchar(b: byte) { 'a' <= b <= 'z' || b == '-' }

  /** A non-empty string of lower-case letters and hyphens. */
  ghost predicate IsLowerName(name: bytes) { name != [] && All(name, IsLowerTchar) }

  ghost predicate WellNamed(k: WellKnown) {
    LookUp(NameOf(k)) == Some(k) && IsLowerName(NameOf(k))
  }

  /** A name found is the name spelled. */
  lemma Found(l: bytes)
    ensures LookUp(l).Some? ==> NameOf(LookUp(l).value) == l
  {
    if |l| <= 6 {
      FoundShort(l);
    } else if |l| <= 12 {
      FoundMiddling(l);
    } else {
      FoundLong(l);
    }
    hide LookUp, NameOf;
  }

  lemma FoundShort(l: bytes)
    requires |l| <= 6
    ensures LookUp(l).Some? ==> NameOf(LookUp(l).value) == l
  {
  }

  lemma FoundMiddling(l: bytes)
    requires 6 < |l| <= 12
    ensures LookUp(l).Some? ==> NameOf(LookUp(l).value) == l
  {
  }

  lemma FoundLong(l: bytes)
    requires 12 < |l|
    ensures LookUp(l).Some? ==> NameOf(LookUp(l).value) == l
  {
  }

  /** Every well-known name is a lower-case token and is looked up as itself. */
  lemma KnownName(k: WellKnown)
    ensures WellNamed(k)
  {
    LooksItselfUp(k);
    hide NameOf, LookUp, IsLowerName;
    match k
    case Te | Host | Date | Vary | Etag | Allow | Range => ShortestNamesAreLower(k);
    case Accept | Expect | Cookie | Server | Origin | Upgrade | Trailer | Referer => ShortNamesAreLower(k);
    case IfMatch | Location | Connection | SetCookie | UserAgent | ContentType => MiddlingNamesAreLower(k);
    case Authorization | CacheControl | IfNoneMatch | LastModified | ContentLength => LongishNamesAreLower(k);
    case AcceptEncoding | AcceptLanguage | ContentEncoding | ContentLanguage => LongNamesAreLower(k);
    case TransferEncoding | IfModifiedSince | IfUnmodifiedSince => LongestNamesAreLower(k);
  }

  lemma LooksItselfUp(k: WellKnown)
    ensures LookUp(NameOf(k)) == Some(k)
  {
    hide *;
    match k
    case Te | Host | Date | Vary | Etag | Allow | Range => ShortestNamesAreFound(k);
    case Accept | Expect | Cookie | Server | Origin | Upgrade | Trailer | Referer => ShortNamesAreFound(k);
    case IfMatch | Location | Connection | SetCookie | UserAgent | ContentType => MiddlingNamesAreFound(k);
    case Authorization | CacheControl | IfNoneMatch | LastModified | ContentLength => LongishNamesAreFound(k);
    case AcceptEncoding | AcceptLanguage | ContentEncoding | ContentLanguage => LongNamesAreFound(k);
    case TransferEncoding | IfModifiedSince | IfUnmodifiedSince => LongestNamesAreFound(k);
  }

  lemma ShortestNamesAreFound(k: WellKnown)
    requires k.Te? || k.Host? || k.Date? || k.Vary? || k.Etag? || k.Allow? || k.Range?
    ensures LookUp(NameOf(k)) == Some(k)
  {
  }

  lemma ShortestNamesAreLower(k: WellKnown)
    requires k.Te? || k.Host? || k.Date? || k.Vary? || k.Etag? || k.Allow? || k.Range?
    ensures IsLowerName(NameOf(k))
  {
  }

  lemma ShortNamesAreFound(k: WellKnown)
    requires k.Accept? || k.Expect? || k.Cookie? || k.Server? || k.Origin? || k.Upgrade? || k.Trailer? || k.Referer?
    ensures LookUp(NameOf(k)) == Some(k)
  {
  }

  lemma ShortNamesAreLower(k: WellKnown)
    requires k.Accept? || k.Expect? || k.Cookie? || k.Server? || k.Origin? || k.Upgrade? || k.Trailer? || k.Referer?
    ensures IsLowerName(NameOf(k))
  {
  }

  lemma MiddlingNamesAreFound(k: WellKnown)
    requires k.IfMatch? || k.Location? || k.Connection? || k.SetCookie? || k.UserAgent? || k.ContentType?
    ensures LookUp(NameOf(k)) == Some(k)
  {
  }

  lemma MiddlingNamesAreLower(k: WellKnown)
    requires k.IfMatch? || k.Location? || k.Connection? || k.SetCookie? || k.UserAgent? || k.ContentType?
    ensures IsLowerName(NameOf(k))
  {
  }

  lemma LongishNamesAreFound(k: WellKnown)
    requires k.Authorization? || k.CacheControl? || k.IfNoneMatch? || k.LastModified? || k.ContentLength?
    ensures LookUp(NameOf(k)) == Some(k)
  {
  }

  lemma LongishNamesAreLower(k: WellKnown)
    requires k.Authorization? || k.CacheControl? || k.IfNoneMatch? || k.LastModified? || k.ContentLength?
    ensures IsLowerName(NameOf(k))
  {
  }

  lemma LongNamesAreFound(k: WellKnown)
    requires k.AcceptEncoding? || k.AcceptLanguage? || k.ContentEncoding? || k.ContentLanguage?
    ensures LookUp(NameOf(k)) == Some(k)
  {
  }

  lemma LongNamesAreLower(k: WellKnown)
    requires k.AcceptEncoding? || k.AcceptLanguage? || k.ContentEncoding? || k.ContentLanguage?
    ensures IsLowerName(NameOf(k))
  {
  }

  lemma LongestNamesAreFound(k: WellKnown)
    requires k.TransferEncoding? || k.IfModifiedSince? || k.IfUnmodifiedSince?
    ensures LookUp(NameOf(k)) == Some(k)
  {
  }

  lemma LongestNamesAreLower(k: WellKnown)
    requires k.TransferEncoding? || k.IfModifiedSince? || k.IfUnmodifiedSince?
    ensures IsLowerName(NameOf(k))
  {
  }

  lemma LowerTcharLowers(s: bytes)
    requires All(s, IsLowerTchar)
    ensures Lower(s) == s && All(s, IsTchar)
  {
  }

  /** A canonical id is what its own spelling on the wire reads back as, up to the
      case of an unknown name. */
  lemma CanonicalReadsBack(id: HeaderId)
    ensures var c := Canonical(id);
            Intern(AsStr(c)) == (if c.Other? then Other(Lower(c.name)) else c)
    ensures Intern(AsStr(Canonical(id))) == Intern(AsStr(id))
  {
    var c := Canonical(id);
    if c.Known? {
      KnownName(c.which);
      LowerTcharLowers(NameOf(c.which));
    }
  }

  // ---- Names by their spelling ----------------------------------------------------

  /** A name is taken for a well-known one exactly when it spells it, in whatever case. */
  lemma FromBytesIff(s: bytes, k: WellKnown)
    ensures FromBytes(s) == Some(k) <==> Spells(s, NameOf(k))
  {
    KnownName(k);
    LowerTcharLowers(NameOf(k));
    SpellsIsFold(s, NameOf(k));
    Found(Lower(s));
    hide LookUp, NameOf, Spells, Lower;
  }

  /** The case of a name makes no difference to what it is taken for. */
  lemma CaseIsIgnored(s: bytes, t: bytes)
    requires Spells(s, t)
    ensures FromBytes(s) == FromBytes(t) && Intern(s) == Intern(t)
  {
    SpellsIsFold(s, t);
    hide LookUp, Spells;
  }

  /** The field has this name, in whatever case it is spelled. */
  ghost predicate Named(f: Field, name: bytes) { Spells(AsStr(f.id), name) }

  /** The values of the fields of that name, in order. */
  ghost function ValuesNamed(fs: seq<Field>, name: bytes): seq<bytes> {
    if fs == [] then []
    else (if Named(fs[0], name) then [fs[0].value] else []) + ValuesNamed(fs[1..], name)
  }

  /** What the parser makes of a name is what it really is. */
  lemma InternIsCanonical(name: bytes)
    ensures Canonical(Intern(name)) == Intern(name)
  {
    assert Lower(Lower(name)) == Lower(name);
    hide LookUp;
  }

  /** Of a field list as parsed, the values under an id are those of the fields that spell
      its name. */
  lemma {:induction false} ValuesOfName(fs: seq<Field>, k: WellKnown)
    requires forall f :: f in fs ==> Canonical(f.id) == f.id
    ensures AllValues(fs, Known(k)) == ValuesNamed(fs, NameOf(k))
  {
    hide Named, Canonical, NameOf;
    if fs != [] {
      assert fs[0] in fs && forall f :: f in fs[1..] ==> f in fs;
      CanonicalIff(fs[0], k);
      ValuesOfName(fs[1..], k);
    }
  }

  /** An id is a well-known name's, as a response is judged, exactly when it spells it. */
  lemma CanonicalIff(f: Field, k: WellKnown)
    ensures Canonical(f.id) == Known(k) <==> Named(f, NameOf(k))
  {
    FromBytesIff(AsStr(f.id), k);
    if f.id.Known? {
      KnownName(f.id.which);
      LowerTcharLowers(NameOf(f.id.which));
    }
    hide LookUp, NameOf, Spells, Lower;
  }

  /** So is the id of a field as received. */
  lemma InternIff(name: bytes, k: WellKnown)
    ensures Intern(name) == Known(k) <==> Spells(name, NameOf(k))
  {
    FromBytesIff(name, k);
    hide FromBytes, NameOf, Spells;
  }

  /** The names no trailer field may have, in whatever case they are spelled. */
  ghost predicate BarredName(name: bytes) {
    || Spells(name, "transfer-encoding") || Spells(name, "content-length") || Spells(name, "host")
    || Spells(name, "connection") || Spells(name, "expect") || Spells(name, "te")
    || Spells(name, "trailer") || Spells(name, "upgrade") || Spells(name, "cache-control")
    || Spells(name, "authorization") || Spells(name, "set-cookie")
  }

  lemma ForbiddenIff(name: bytes)
    ensures ForbiddenInTrailers(Intern(name)) <==> BarredName(name)
  {
    InternIff(name, TransferEncoding);
    InternIff(name, ContentLength);
    InternIff(name, Host);
    InternIff(name, Connection);
    InternIff(name, Expect);
    InternIff(name, Te);
    InternIff(name, Trailer);
    InternIff(name, Upgrade);
    InternIff(name, CacheControl);
    InternIff(name, Authorization);
    InternIff(name, SetCookie);
    hide Intern, Spells;
  }
}
