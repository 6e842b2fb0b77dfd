/** The request dispatch of `handleConnection`: from a parsed request, the configured
    file directory and the file store, the exact bytes written back on the connection and
    the store afterwards.

    The store is a map from a path (the directory prefix followed by the name taken from
    the request path) to the file's contents. A read fails exactly when the path is not
    in the map. Whether a write succeeds is decided outside the model and given as
    `writeOk`. */
module Server {
  import opened Wrappers
  import opened ByteStrings
  import opened Decimal
  import opened Wire

  type Files = map<Bytes, Bytes>

  /** Pieces of the format strings the handlers write responses with. */
  const ContentTypeLine: Bytes := "\r\nContent-Type: "
  const ContentLengthLine: Bytes := "\r\nContent-Length: "
  const EndOfHead: Bytes := "\r\n\r\n"

  /** The methods and path prefixes the dispatch compares against. */
  const Get: Bytes := "GET"
  const Post: Bytes := "POST"
  const EchoPrefix: Bytes := "/echo"
  const EchoSlash: Bytes := "/echo/"
  const UserAgentPrefix: Bytes := "/user-agent"
  const FilesPrefix: Bytes := "/files"
  const FilesSlash: Bytes := "/files/"
  const Root: Bytes := "/"

  /** The reason texts of the status lines. */
  const Ok: Bytes := "OK"
  const Created: Bytes := "Created"
  const NotFound: Bytes := "Not Found"
  const CannotRead: Bytes := "File Cannot Be Read"
  const CannotWrite: Bytes := "File Cannot Be Written"

  /** The header names and content types the handlers write. */
  const ContentTypeName: Bytes := "Content-Type"
  const ContentLengthName: Bytes := "Content-Length"
  const TextPlain: Bytes := "text/plain"
  const OctetStream: Bytes := "application/octet-stream"

  /** What `http.ReadRequest` hands to the dispatch: the method (`verb`), `URL.Path`, the
      `User-Agent` header if the request has one, and the body, `None` when reading it
      fails. */
  datatype Request = Request(verb: Bytes, path: Bytes, userAgent: Option<Bytes>, body: Option<Bytes>)

  /** The bytes written on the connection and the file store afterwards. */
  datatype Outcome = Outcome(wire: Bytes, files: Files)

  /** A 200 response carrying `body`, its type, and its length in octets. */
  function WithBody(contentType: Bytes, body: Bytes): (r: Response) {
    Response(200, Ok, [Header(ContentTypeName, contentType), Header(ContentLengthName, FormatNat(|body|))], body)
  }

  /** A response with no header and no body. */
  function Bare(code: int, text: Bytes): (r: Response) {
    Response(code, text, [], [])
  }

  lemma BareLayout(code: int, text: Bytes)
    ensures GenerateResponse(code, text) + EndOfHead == Serialize(Bare(code, text))
  {
    assert Fields([]) == [];
  }

  /** The numerals and status lines of the three codes the handlers use. */
  lemma Numeral200() ensures FormatInt(200) == "200" {
    assert FormatNat(200) == FormatNat(20) + "0" == FormatNat(2) + "0" + "0";
  }

  lemma Numeral201() ensures FormatInt(201) == "201" {
    assert FormatNat(201) == FormatNat(20) + "1" == FormatNat(2) + "0" + "1";
  }

  lemma Numeral404() ensures FormatInt(404) == "404" {
    assert FormatNat(404) == FormatNat(40) + "4" == FormatNat(4) + "0" + "4";
  }

  lemma OkLine()
    ensures GenerateResponse(200, Ok) == "HTTP/1.1 200 OK"
  {
    Numeral200();
    assert GenerateResponse(200, Ok) == Version + "200" + " " + Ok;
  }

  lemma NotFoundLine()
    ensures GenerateResponse(404, NotFound) == Version + "404" + " " + NotFound
  {
    Numeral404();
  }

  lemma CreatedLine()
    ensures GenerateResponse(201, Created) == Version + "201" + " " + Created
  {
    Numeral201();
  }

  /** Regrouping of the pieces of a two-header response. */
  lemma Regroup(s: Bytes, c: Bytes, k1: Bytes, v1: Bytes, k2: Bytes, v2: Bytes, body: Bytes)
    ensures s + c + ((k1 + v1 + c) + (k2 + v2 + c)) + c + body == s + (c + k1) + v1 + (c + k2) + v2 + (c + c) + body
  {
    Assoc(s, c, k1);
    Assoc(s + c + k1 + v1, c, k2);
    Assoc(s + c + k1 + v1 + c + k2 + v2, c, c);
    Assoc(k1 + v1 + c, k2 + v2, c);
    Assoc(k1 + v1 + c, k2, v2);
    Assoc(s + c, k1 + v1 + c, k2 + v2 + c);
    Assoc(s + c, k1 + v1, c);
    Assoc(s + c, k1, v1);
    Assoc(s + c + k1 + v1 + c, k2 + v2, c);
    Assoc(s + c + k1 + v1 + c, k2, v2);
  }

  lemma FieldsOfTwo(a: Header, b: Header)
    ensures Fields([a, b]) == Field(a) + Field(b)
  {
    assert [a, b][1..] == [b];
    assert [b][1..] == [];
    assert Fields([b]) == Field(b) + Fields([]);
  }

  /** The hand-written layout of a response with a `Content-Type` and a `Content-Length`
      is the generic layout of those two headers. */
  lemma TwoHeaderLayout(status: Bytes, contentType: Bytes, length: Bytes, body: Bytes)
    ensures status + ContentTypeLine + contentType + ContentLengthLine + length + EndOfHead + body
         == status + CRLF + Fields([Header(ContentTypeName, contentType), Header(ContentLengthName, length)]) + CRLF + body
  {
    var k1: Bytes := "Content-Type: ";
    var k2: Bytes := "Content-Length: ";
    assert ContentTypeLine == CRLF + k1;
    assert ContentLengthLine == CRLF + k2;
    assert EndOfHead == CRLF + CRLF;
    var h1 := Header(ContentTypeName, contentType);
    var h2 := Header(ContentLengthName, length);
    assert Field(h1) == k1 + contentType + CRLF;
    assert Field(h2) == k2 + length + CRLF;
    FieldsOfTwo(h1, h2);
    Regroup(status, CRLF, k1, contentType, k2, length, body);
  }

  /** The `/echo` case: the path without a leading `/echo/` (the whole path when it does
      not start with `/echo/`) as a plain-text body. */
  function Echo(path: Bytes): (wire: Bytes)
    ensures wire == Serialize(WithBody(TextPlain, TrimPrefix(path, EchoSlash)))
  {
    var suffix := TrimPrefix(path, EchoSlash);
    var okLine: Bytes := "HTTP/1.1 200 OK";
    OkLine();
    TwoHeaderLayout(okLine, TextPlain, FormatNat(|suffix|), suffix);
    okLine + ContentTypeLine + TextPlain + ContentLengthLine + FormatNat(|suffix|) + EndOfHead + suffix
  }

  /** The `/user-agent` case: the `User-Agent` value, empty when the header is absent,
      as a plain-text body. */
  function UserAgent(userAgent: Option<Bytes>): (wire: Bytes)
    ensures wire == Serialize(WithBody(TextPlain, userAgent.GetOr("")))
  {
    var useragent := userAgent.GetOr("");
    TwoHeaderLayout(GenerateResponse(200, Ok), TextPlain, FormatNat(|useragent|), useragent);
    GenerateResponse(200, Ok) + ContentTypeLine + TextPlain + ContentLengthLine + FormatNat(|useragent|) + EndOfHead + useragent
  }

  /** The GET `/files` case: the stored octets under `filedir` followed by the path without
      a leading `/files/`, or a bare 404 when nothing is stored there. */
  function ServeFile(path: Bytes, filedir: Bytes, files: Files): (wire: Bytes)
    ensures var key := filedir + TrimPrefix(path, FilesSlash);
      && (key in files ==> wire == Serialize(WithBody(OctetStream, files[key])))
      && (key !in files ==> wire == Serialize(Bare(404, NotFound)))
  {
    var key := filedir + TrimPrefix(path, FilesSlash);
    if key !in files then
      BareLayout(404, NotFound);
      GenerateResponse(404, NotFound) + EndOfHead
    else
      var file := files[key];
      TwoHeaderLayout(GenerateResponse(200, Ok), OctetStream, FormatNat(|file|), file);
      GenerateResponse(200, Ok) + ContentTypeLine + OctetStream + ContentLengthLine + FormatNat(|file|) + EndOfHead + file
  }

  /** The GET branch of `handleConnection`. The prefix tests are tried in this order:
      `/echo`, `/user-agent`, `/files`, then the exact path `/`, and anything else is a 404. */
  function HandleGet(path: Bytes, userAgent: Option<Bytes>, filedir: Bytes, files: Files): (wire: Bytes)
    ensures HasPrefix(path, EchoPrefix) ==>
      wire == Serialize(WithBody(TextPlain, TrimPrefix(path, EchoSlash)))
    ensures !HasPrefix(path, EchoPrefix) && HasPrefix(path, UserAgentPrefix) ==>
      wire == Serialize(WithBody(TextPlain, userAgent.GetOr("")))
    ensures !HasPrefix(path, EchoPrefix) && !HasPrefix(path, UserAgentPrefix) && HasPrefix(path, FilesPrefix) ==>
      var key := filedir + TrimPrefix(path, FilesSlash);
      && (key in files ==> wire == Serialize(WithBody(OctetStream, files[key])))
      && (key !in files ==> wire == Serialize(Bare(404, NotFound)))
    ensures !HasPrefix(path, EchoPrefix) && !HasPrefix(path, UserAgentPrefix) && !HasPrefix(path, FilesPrefix) ==>
      && (path == Root ==> wire == Serialize(Bare(200, Ok)))
      && (path != Root ==> wire == Serialize(Bare(404, NotFound)))
  {
    if HasPrefix(path, EchoPrefix) then Echo(path)
    else if HasPrefix(path, UserAgentPrefix) then UserAgent(userAgent)
    else if HasPrefix(path, FilesPrefix) then ServeFile(path, filedir, files)
    else if path == Root then
      BareLayout(200, Ok);
      GenerateResponse(200, Ok) + EndOfHead
    else
      BareLayout(404, NotFound);
      GenerateResponse(404, NotFound) + EndOfHead
  }

  /** The POST branch of `handleConnection`. Only paths under `/files/` are accepted: the
      body is read, then written to the store under `filedir` followed by the rest of the
      path. A failed read or write leaves the store as it was and is reported as a 404. */
  function HandlePost(path: Bytes, body: Option<Bytes>, filedir: Bytes, files: Files, writeOk: bool): (out: Outcome)
    ensures !HasPrefix(path, FilesSlash) ==> out == Outcome(Serialize(Bare(404, NotFound)), files)
    ensures HasPrefix(path, FilesSlash) && body.None? ==>
      out == Outcome(Serialize(Bare(404, CannotRead)), files)
    ensures HasPrefix(path, FilesSlash) && body.Some? && !writeOk ==>
      out == Outcome(Serialize(Bare(404, CannotWrite)), files)
    ensures HasPrefix(path, FilesSlash) && body.Some? && writeOk ==>
      var key := filedir + TrimPrefix(path, FilesSlash);
      && out.wire == Serialize(Bare(201, Created))
      && out.files.Keys == files.Keys + {key}
      && out.files[key] == body.value
      && forall k :: k in files && k != key ==> out.files[k] == files[k]
  {
    if HasPrefix(path, FilesSlash) then
      var name := TrimPrefix(path, FilesSlash);
      match body
      case None =>
        BareLayout(404, CannotRead);
        Outcome(GenerateResponse(404, CannotRead) + EndOfHead, files)
      case Some(data) =>
        if !writeOk then
          BareLayout(404, CannotWrite);
          Outcome(GenerateResponse(404, CannotWrite) + EndOfHead, files)
        else
          BareLayout(201, Created);
          Outcome(GenerateResponse(201, Created) + EndOfHead, files[filedir + name := data])
    else
      BareLayout(404, NotFound);
      Outcome(GenerateResponse(404, NotFound) + EndOfHead, files)
  }

  /** `handleConnection` after the request is parsed. The response starts out empty and
      only the GET and POST branches fill it in, so any other method is answered with no
      bytes at all. Only a POST can change the store, and then only by putting the request
      body under the one path the request names. */
  function HandleConnection(req: Request, filedir: Bytes, files: Files, writeOk: bool): (out: Outcome)
    ensures out.wire == [] <==> req.verb != Get && req.verb != Post
    ensures req.verb != Post ==> out.files == files
    ensures out.files == files
         || (req.body.Some? && out.files == files[filedir + TrimPrefix(req.path, FilesSlash) := req.body.value])
  {
    if req.verb == Get then
      Outcome(HandleGet(req.path, req.userAgent, filedir, files), files)
    else if req.verb == Post then
      HandlePost(req.path, req.body, filedir, files, writeOk)
    else
      Outcome([], files)
  }
}
