/**
 * The client-credential gate (`authenticate` middleware): it reads the
 * `Authorization` header, decodes `Basic base64(clientId:clientSecret)`,
 * looks the pair up among the stored applications and either answers the
 * request or passes it on.
 */
module Authentication {
  import opened Wrappers
  import Text
  import Base64
  import opened ApplicationModel

  /**
   * What the middleware does with a request: answer it with a status and a
   * message, call `next()`, or neither, because an exception escapes the
   * async handler and its promise is rejected.
   */
  datatype Outcome = Respond(status: int, message: string) | Proceed | Rejected

  const MissingHeader: string := "Missing Authorization header"
  const InvalidFormat: string := "Invalid Authorization header format"
  const InvalidCredentials: string := "Invalid credentials"
  const ServerError: string := "Internal server error"

  /** What the header yields before any lookup. */
  datatype Parsed = NoHeader | NoToken | BadFormat | Creds(clientId: string, clientSecret: string)

  /** The second space-separated word of a header value; the first word, the scheme, is never looked at. */
  function Token(header: string): (t: Option<string>)
    ensures t.Some? <==> ' ' in header
    ensures t.Some? ==> ' ' !in t.value
  {
    Text.SplitMany(header, ' ');
    var words := Text.Split(header, ' ');
    if |words| > 1 then Some(words[1]) else None
  }

  /** The token is the word between the first and the second space. */
  lemma TokenIsSecondWord(a: string, b: string, c: string)
    requires ' ' !in a && ' ' !in b
    ensures Token(a + " " + b + " " + c) == Some(b)
    ensures Token(a + " " + b) == Some(b)
  {
    Text.SplitAfterFirst(a, ' ', b + " " + c);
    Text.SplitAfterFirst(b, ' ', c);
    assert a + [' '] + (b + [' '] + c) == a + " " + b + " " + c;
    Text.SplitAfterFirst(a, ' ', b);
    Text.SplitWithoutSeparator(b, ' ');
    assert a + [' '] + b == a + " " + b;
  }

  /** `Buffer.from(token, 'base64').toString('ascii')`. */
  function CredentialText(token: string): (text: string)
    ensures |text| == |Base64.Decode(token)|
    ensures Base64.IsAscii(text)
  {
    Base64.AsciiText(Base64.Decode(token))
  }

  /**
   * Destructuring `credentials.split(':')`: the id is the first piece, the
   * secret the second; further pieces are dropped.
   */
  function ParseCredentials(text: string): (p: Parsed)
    ensures p == BadFormat || p.Creds?
    ensures p.Creds? ==> p.clientId != "" && p.clientSecret != ""
    ensures p.Creds? ==> ':' !in p.clientId && ':' !in p.clientSecret
    ensures ':' !in text ==> p == BadFormat
  {
    var parts := Text.Split(text, ':');
    Text.SplitMany(text, ':');
    if parts[0] == "" || |parts| < 2 || parts[1] == "" then BadFormat
    else Creds(parts[0], parts[1])
  }

  /** The header-reading part of the middleware, up to the lookup. */
  function ParseHeader(header: Option<string>): (p: Parsed)
    ensures p == NoHeader <==> header.None? || header.value == ""
    ensures p == NoToken <==> header.Some? && header.value != "" && ' ' !in header.value
    ensures p.Creds? ==> p.clientId != "" && p.clientSecret != "" && ':' !in p.clientId && ':' !in p.clientSecret
  {
    if header.None? || header.value == "" then NoHeader
    else match Token(header.value)
      case None => NoToken
      case Some(t) => ParseCredentials(CredentialText(t))
  }

  /**
   * The applications collection as the lookup sees it: the stored records in
   * natural order, whether the database answers, and Mongoose's `strictQuery`
   * setting (true by default in Mongoose 6, false in Mongoose 5 and from
   * Mongoose 7 on).
   */
  datatype Database = Database(applications: seq<Application>, reachable: bool, strictQuery: bool)

  /** A query filter: equality conditions on paths. */
  type Filter = seq<(string, string)>

  /** The filter Mongoose sends: under `strictQuery`, conditions on paths the schema does not declare are dropped. */
  function CastFilter(f: Filter, strictQuery: bool): (g: Filter)
    ensures forall c :: c in g <==> c in f && (strictQuery ==> c.0 in SchemaPaths)
    ensures !strictQuery ==> g == f
    decreases |f|
  {
    if f == [] then []
    else if strictQuery && f[0].0 !in SchemaPaths then CastFilter(f[1..], strictQuery)
    else [f[0]] + CastFilter(f[1..], strictQuery)
  }

  /** A stored application satisfies every condition of the filter. */
  predicate Matches(a: Application, f: Filter) {
    forall c :: c in f ==> PathHolds(a, c.0, c.1)
  }

  /** What `findOne` resolves to: a matching application, `null`, or a thrown error. */
  datatype Lookup = Found(app: Application) | NotFound | Failed

  /** The first application, in natural order, that matches the filter. */
  function First(apps: seq<Application>, f: Filter): (r: Option<Application>)
    ensures r.Some? ==> r.value in apps && Matches(r.value, f)
    ensures r.Some? ==> exists k :: 0 <= k < |apps| && apps[k] == r.value && forall j :: 0 <= j < k ==> !Matches(apps[j], f)
    ensures r.None? ==> forall a :: a in apps ==> !Matches(a, f)
    decreases |apps|
  {
    if apps == [] then None
    else if Matches(apps[0], f) then Some(apps[0])
    else
      var r := First(apps[1..], f);
      if r.Some? then
        var k :| 0 <= k < |apps[1..]| && apps[1..][k] == r.value && forall j :: 0 <= j < k ==> !Matches(apps[1..][j], f);
        assert apps[k + 1] == r.value && forall j :: 0 <= j < k + 1 ==> !Matches(apps[j], f);
        r
      else r
  }

  /** `Application.findOne(filter)`. */
  function FindOne(db: Database, f: Filter): (r: Lookup)
    ensures r.Failed? <==> !db.reachable
    ensures r.Found? ==> r.app in db.applications && Matches(r.app, CastFilter(f, db.strictQuery))
    ensures r.NotFound? <==> db.reachable && forall a :: a in db.applications ==> !Matches(a, CastFilter(f, db.strictQuery))
  {
    if !db.reachable then Failed
    else match First(db.applications, CastFilter(f, db.strictQuery))
      case Some(a) => Found(a)
      case None => NotFound
  }

  /** The filter the middleware builds: it names the id `client_id`, while the schema path is `clientId`. */
  function QueryFilter(clientId: string, clientSecret: string): (f: Filter)
    ensures ("clientSecret", clientSecret) in f
    ensures ("client_id", clientId) in f && "client_id" !in SchemaPaths
    ensures forall c :: c in f && c.0 in SchemaPaths ==> c == ("clientSecret", clientSecret)
  {
    [("client_id", clientId), ("clientSecret", clientSecret)]
  }

  /** Some stored application matches the filter as Mongoose sends it. */
  predicate Admits(db: Database, f: Filter) {
    exists a :: a in db.applications && Matches(a, CastFilter(f, db.strictQuery))
  }

  /** The `authenticate` middleware, as written. */
  function Authenticate(header: Option<string>, db: Database): (o: Outcome)
    ensures o == Respond(401, MissingHeader) <==> header.None? || header.value == ""
    ensures o.Rejected? <==> header.Some? && header.value != "" && ' ' !in header.value
    ensures o == Respond(401, InvalidFormat) <==> ParseHeader(header) == BadFormat
    ensures o == Respond(500, ServerError) <==> ParseHeader(header).Creds? && !db.reachable
    ensures o.Proceed? <==>
      ParseHeader(header).Creds? && db.reachable
      && Admits(db, QueryFilter(ParseHeader(header).clientId, ParseHeader(header).clientSecret))
    ensures o == Respond(401, InvalidCredentials) <==>
      ParseHeader(header).Creds? && db.reachable
      && !Admits(db, QueryFilter(ParseHeader(header).clientId, ParseHeader(header).clientSecret))
  {
    match ParseHeader(header)
    case NoHeader => Respond(401, MissingHeader)
    case NoToken => Rejected
    case BadFormat => Respond(401, InvalidFormat)
    case Creds(id, secret) =>
      match FindOne(db, QueryFilter(id, secret))
      case Failed => Respond(500, ServerError)
      case NotFound => Respond(401, InvalidCredentials)
      case Found(_) => Proceed
  }

  /** The header the matching client builds: `Basic ` and the Base64 of the UTF-8 bytes of `user:password`. */
  function BasicHeader(user: string, password: string): (h: string)
    ensures |h| >= 6 && h[..6] == "Basic "
    ensures ' ' !in h[6..]
    ensures |h| == 6 + 4 * ((|Base64.Utf8(user + ":" + password)| + 2) / 3)
  {
    var enc := Base64.Encode(Base64.Utf8(user + ":" + password));
    forall i | 0 <= i < |enc| ensures enc[i] != ' ' {
      Base64.EmittedIsNotSpace(enc[i]);
    }
    assert ("Basic " + enc)[6..] == enc;
    "Basic " + Base64.Encode(Base64.Utf8(user + ":" + password))
  }

  /** The token of `scheme token` is the Base64 text itself. */
  lemma TokenOfBasicHeader(user: string, password: string)
    ensures Token(BasicHeader(user, password)) == Some(Base64.Encode(Base64.Utf8(user + ":" + password)))
  {
    var enc := Base64.Encode(Base64.Utf8(user + ":" + password));
    assert BasicHeader(user, password)[6..] == enc;
    Text.SplitAfterFirst("Basic", ' ', enc);
    Text.SplitWithoutSeparator(enc, ' ');
    assert "Basic" + [' '] + enc == BasicHeader(user, password);
  }

  /** The encoded credential text decodes back to `user:password` when it is ASCII. */
  lemma CredentialTextOfBasic(user: string, password: string)
    requires Base64.IsAscii(user + ":" + password)
    ensures CredentialText(Base64.Encode(Base64.Utf8(user + ":" + password))) == user + ":" + password
  {
    Base64.DecodeEncode(Base64.Utf8(user + ":" + password));
    Base64.AsciiOfUtf8(user + ":" + password);
  }

  /**
   * Round trip with the client's encoder: a non-empty ASCII id and secret,
   * neither holding ':', are read back exactly.
   */
  lemma BasicRoundTrip(id: string, secret: string)
    requires id != "" && secret != ""
    requires ':' !in id && ':' !in secret
    requires Base64.IsAscii(id + ":" + secret)
    ensures ParseHeader(Some(BasicHeader(id, secret))) == Creds(id, secret)
  {
    TokenOfBasicHeader(id, secret);
    CredentialTextOfBasic(id, secret);
    Text.SplitAfterFirst(id, ':', secret);
    Text.SplitWithoutSeparator(secret, ':');
  }

  /** Any first word, `Bearer` included, is read exactly as `Basic` is. */
  lemma SchemeIgnored(scheme: string, rest: string)
    requires ' ' !in scheme
    ensures ParseHeader(Some(scheme + " " + rest)) == ParseHeader(Some("Basic " + rest))
  {
    Text.SplitAfterFirst(scheme, ' ', rest);
    Text.SplitAfterFirst("Basic", ' ', rest);
    assert scheme + [' '] + rest == scheme + " " + rest;
    assert "Basic" + [' '] + rest == "Basic " + rest;
    assert (scheme + " " + rest)[|scheme|] == ' ';
    assert ("Basic " + rest)[5] == ' ';
  }

  /** Two spaces after the scheme make the token empty, which fails the format check. */
  lemma DoubleSpaceIsBadFormat(scheme: string, rest: string)
    requires ' ' !in scheme
    ensures ParseHeader(Some(scheme + "  " + rest)) == BadFormat
  {
    var h := scheme + "  " + rest;
    Text.SplitAfterFirst(scheme, ' ', " " + rest);
    Text.SplitAfterFirst("", ' ', rest);
    assert scheme + [' '] + (" " + rest) == h;
    assert "" + [' '] + rest == " " + rest;
    assert h[|scheme|] == ' ';
    assert Token(h) == Some("");
    assert CredentialText("") == "";
  }

  /**
   * The id is the text before the first ':', the secret the text up to the
   * second ':'; whatever follows a second ':' is dropped.
   */
  lemma CredentialFields(a: string, b: string, c: string)
    requires ':' !in a && ':' !in b
    ensures ParseCredentials(a + [':'] + b) == (if a == "" || b == "" then BadFormat else Creds(a, b))
    ensures ParseCredentials(a + [':'] + b + [':'] + c) == (if a == "" || b == "" then BadFormat else Creds(a, b))
  {
    Text.SplitAfterFirst(a, ':', b);
    Text.SplitWithoutSeparator(b, ':');
    Text.SplitAfterFirst(a, ':', b + [':'] + c);
    Text.SplitAfterFirst(b, ':', c);
    assert a + [':'] + b + [':'] + c == a + [':'] + (b + [':'] + c);
  }

  /** A format error never reaches the lookup: the outcome does not depend on the database. */
  lemma FormatErrorSkipsLookup(header: Option<string>, db1: Database, db2: Database)
    requires ParseHeader(header) == BadFormat
    ensures Authenticate(header, db1) == Authenticate(header, db2) == Respond(401, InvalidFormat)
  {
  }

  /** Every request whose header holds a space gets exactly one of a response or `next()`. */
  lemma SpacedHeaderSettled(header: string, db: Database)
    requires ' ' in header
    ensures Authenticate(Some(header), db) != Rejected
  {
  }

  // ---------------------------------------------------------------------
  // Findings: how the code as written departs from what it evidently means.
  // ---------------------------------------------------------------------

  /** A `client_id` condition never holds of a stored application: the schema has no such path. */
  lemma ClientIdPathUnknown(a: Application, v: string)
    ensures !PathHolds(a, "client_id", v) && "client_id" !in SchemaPaths
  {
  }

  /** Without `strictQuery` the `client_id` condition is sent as is, and no request is ever let through. */
  lemma NonStrictNeverProceeds(header: Option<string>, db: Database)
    requires !db.strictQuery
    ensures !Authenticate(header, db).Proceed?
  {
    if ParseHeader(header).Creds? {
      var f := QueryFilter(ParseHeader(header).clientId, ParseHeader(header).clientSecret);
      forall a | a in db.applications ensures !Matches(a, CastFilter(f, db.strictQuery)) {
        assert f[0] in CastFilter(f, db.strictQuery);
      }
    }
  }

  /** With `strictQuery` the `client_id` condition is dropped, and any application holding the secret lets the request through. */
  lemma StrictMatchesSecretOnly(header: Option<string>, db: Database)
    requires db.strictQuery && db.reachable
    requires ParseHeader(header).Creds?
    ensures Authenticate(header, db).Proceed? <==>
      exists a :: a in db.applications && a.clientSecret == ParseHeader(header).clientSecret
  {
    var p := ParseHeader(header);
    var f := QueryFilter(p.clientId, p.clientSecret);
    var g := CastFilter(f, true);
    assert ("clientSecret", p.clientSecret) in g;
    assert forall c :: c in g ==> c == ("clientSecret", p.clientSecret);
    forall a | a in db.applications ensures Matches(a, g) <==> a.clientSecret == p.clientSecret {
    }
  }

  /**
   * Under `strictQuery` a caller that presents a registered application's
   * secret with some other id is let through.
   */
  lemma WrongIdAdmitted(app: Application, otherId: string)
    requires Conforms(app)
    requires otherId != "" && otherId != app.clientId
    requires ':' !in otherId && ':' !in app.clientSecret
    requires Base64.IsAscii(otherId + ":" + app.clientSecret)
    ensures Authenticate(Some(BasicHeader(otherId, app.clientSecret)), Database([app], true, true)) == Proceed
  {
    var h := Some(BasicHeader(otherId, app.clientSecret));
    BasicRoundTrip(otherId, app.clientSecret);
    StrictMatchesSecretOnly(h, Database([app], true, true));
  }

  /** A non-empty header with no space: `Buffer.from(undefined)` throws before the `try`, so neither a response nor `next()` follows. */
  lemma NoSpaceRejected(db: Database)
    ensures Authenticate(Some("Basic"), db) == Rejected
    ensures Authenticate(Some("dXNlcjpwYXNz"), db) == Rejected
  {
  }

  /** A secret holding ':' is cut at it, against section 2 of RFC 7617, which lets the password hold colons. */
  lemma ColonInSecretTruncated(id: string, a: string, b: string)
    requires id != "" && a != ""
    requires ':' !in id && ':' !in a
    requires Base64.IsAscii(id + ":" + a + ":" + b)
    ensures ParseHeader(Some(BasicHeader(id, a + ":" + b))) == Creds(id, a)
  {
    assert id + ":" + (a + ":" + b) == id + [':'] + a + [':'] + b;
    TokenOfBasicHeader(id, a + ":" + b);
    CredentialTextOfBasic(id, a + ":" + b);
    CredentialFields(id, a, b);
  }

  // ---------------------------------------------------------------------
  // The gate as evidently intended.
  // ---------------------------------------------------------------------

  /** Section 2 of RFC 7617: the user-id runs up to the first ':', the password is all that follows. */
  function ParseCredentialsIntended(text: string): (p: Parsed)
    ensures p == BadFormat || p.Creds?
    ensures p.Creds? ==> p.clientId != "" && p.clientSecret != "" && ':' !in p.clientId
    ensures p.Creds? ==> text == p.clientId + ":" + p.clientSecret
    ensures ':' !in text ==> p == BadFormat
  {
    if ':' !in text then BadFormat
    else
      var i := Text.FirstIndex(text, ':');
      assert text == text[..i] + ":" + text[i + 1..];
      if i == 0 || i + 1 == |text| then BadFormat
      else Creds(text[..i], text[i + 1..])
  }

  /** The header read as intended: a header without a token is a format error, not an exception. */
  function ParseHeaderIntended(header: Option<string>): (p: Parsed)
    ensures p != NoToken
    ensures p == NoHeader <==> header.None? || header.value == ""
    ensures header.Some? && header.value != "" && ' ' !in header.value ==> p == BadFormat
  {
    if header.None? || header.value == "" then NoHeader
    else match Token(header.value)
      case None => BadFormat
      case Some(t) => ParseCredentialsIntended(CredentialText(t))
  }

  /** The filter on the schema's own paths. */
  function IntendedFilter(clientId: string, clientSecret: string): Filter {
    [("clientId", clientId), ("clientSecret", clientSecret)]
  }

  /** Some stored application has exactly this id and secret. */
  predicate Registered(db: Database, clientId: string, clientSecret: string) {
    exists a :: a in db.applications && a.clientId == clientId && a.clientSecret == clientSecret
  }

  /** The middleware as evidently intended. */
  function AuthenticateIntended(header: Option<string>, db: Database): (o: Outcome)
    ensures !o.Rejected?
    ensures o == Respond(401, MissingHeader) <==> header.None? || header.value == ""
    ensures o == Respond(401, InvalidFormat) <==> ParseHeaderIntended(header) == BadFormat
    ensures header.Some? && header.value != "" && ' ' !in header.value ==> o == Respond(401, InvalidFormat)
    ensures o == Respond(500, ServerError) <==> ParseHeaderIntended(header).Creds? && !db.reachable
    ensures o.Proceed? <==>
      ParseHeaderIntended(header).Creds? && db.reachable
      && Registered(db, ParseHeaderIntended(header).clientId, ParseHeaderIntended(header).clientSecret)
    ensures o == Respond(401, InvalidCredentials) <==>
      ParseHeaderIntended(header).Creds? && db.reachable
      && !Registered(db, ParseHeaderIntended(header).clientId, ParseHeaderIntended(header).clientSecret)
  {
    match ParseHeaderIntended(header)
    case NoHeader => Respond(401, MissingHeader)
    case NoToken => Respond(401, InvalidFormat)
    case BadFormat => Respond(401, InvalidFormat)
    case Creds(id, secret) =>
      var f := IntendedFilter(id, secret);
      assert forall c :: c in CastFilter(f, db.strictQuery) <==> c in f;
      assert forall a :: Matches(a, CastFilter(f, db.strictQuery)) <==> a.clientId == id && a.clientSecret == secret by {
        assert f[0] in f && f[1] in f;
      }
      match FindOne(db, f)
      case Failed => Respond(500, ServerError)
      case NotFound => Respond(401, InvalidCredentials)
      case Found(_) => Proceed
  }

  /** Round trip as intended: any non-empty ASCII secret, colons included, is read back whole. */
  lemma IntendedRoundTrip(id: string, secret: string)
    requires id != "" && secret != "" && ':' !in id
    requires Base64.IsAscii(id + ":" + secret)
    ensures ParseHeaderIntended(Some(BasicHeader(id, secret))) == Creds(id, secret)
  {
    TokenOfBasicHeader(id, secret);
    CredentialTextOfBasic(id, secret);
    Text.FirstIndexAfter(id, ':', secret);
    var text := id + ":" + secret;
    assert text == id + [':'] + secret;
    assert text[..|id|] == id && text[|id| + 1..] == secret;
  }

  /** As intended, a registered application presenting its own credentials is let through, whatever `strictQuery` says. */
  lemma IntendedAdmitsRegistered(id: string, secret: string, db: Database)
    requires id != "" && secret != "" && ':' !in id
    requires Base64.IsAscii(id + ":" + secret)
    requires db.reachable
    ensures AuthenticateIntended(Some(BasicHeader(id, secret)), db).Proceed? <==> Registered(db, id, secret)
  {
    IntendedRoundTrip(id, secret);
  }
}
