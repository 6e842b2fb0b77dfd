/** What the dispatch promises across calls and across the wire: every response reads
    back as itself with a truthful `Content-Length`, a stored file is served back, and
    the routing quirks of the prefix tests. */
module ServerProperties {
  import opened Wrappers
  import opened ByteStrings
  import opened Decimal
  import opened Wire
  import opened Server

  /** A reader can frame the body: every `Content-Length` header reads as the body's
      octet count, and a response with a body has one. */
  predicate Framed(r: Response) {
    && (forall i :: 0 <= i < |r.headers| && r.headers[i].name == ContentLengthName ==>
          ParseInt(r.headers[i].value) == Some(|r.body|))
    && (|r.body| > 0 ==> exists i :: 0 <= i < |r.headers| && r.headers[i].name == ContentLengthName)
  }

  lemma DigitsHaveNoBreak(s: Bytes)
    requires AllDigits(s)
    ensures NoLineBreak(s) && Free(s, ':')
  {
    forall i | 0 <= i < |s|
      ensures s[i] != CR && s[i] != LF && s[i] != ':'
    {
      assert IsDigit(s[i]);
    }
  }

  /** The responses with a body are well formed and framed. */
  lemma WithBodyFramed(contentType: Bytes, body: Bytes)
    requires NoLineBreak(contentType)
    ensures WellFormed(WithBody(contentType, body)) && Framed(WithBody(contentType, body))
  {
    var r := WithBody(contentType, body);
    DigitsHaveNoBreak(FormatNat(|body|));
    assert HeaderOk(r.headers[0]);
    assert HeaderOk(r.headers[1]);
    ParseFormatInt(|body|);
    assert r.headers[0].name != ContentLengthName by {
      assert r.headers[0].name[9] != ContentLengthName[9];
    }
    assert r.headers[1].name == ContentLengthName;
  }

  lemma BareFramed(code: int, text: Bytes)
    requires NoLineBreak(text)
    ensures WellFormed(Bare(code, text)) && Framed(Bare(code, text))
  {
  }

  /** `wire` reads back as a well-formed, framed response that lays out to exactly `wire`. */
  predicate ReadsBack(wire: Bytes) {
    match Parse(wire)
    case None => false
    case Some(r) => WellFormed(r) && Framed(r) && Serialize(r) == wire
  }

  lemma SerializedReadsBack(r: Response)
    requires WellFormed(r) && Framed(r)
    ensures ReadsBack(Serialize(r))
  {
    ParseSerialize(r);
  }

  lemma EchoReadsBack(path: Bytes)
    ensures ReadsBack(Echo(path))
  {
    WithBodyFramed(TextPlain, TrimPrefix(path, EchoSlash));
    SerializedReadsBack(WithBody(TextPlain, TrimPrefix(path, EchoSlash)));
  }

  lemma UserAgentReadsBack(userAgent: Option<Bytes>)
    ensures ReadsBack(UserAgent(userAgent))
  {
    WithBodyFramed(TextPlain, userAgent.GetOr(""));
    SerializedReadsBack(WithBody(TextPlain, userAgent.GetOr("")));
  }

  lemma ServeFileReadsBack(path: Bytes, filedir: Bytes, files: Files)
    ensures ReadsBack(ServeFile(path, filedir, files))
  {
    var key := filedir + TrimPrefix(path, FilesSlash);
    if key in files {
      WithBodyFramed(OctetStream, files[key]);
      SerializedReadsBack(WithBody(OctetStream, files[key]));
    } else {
      BareFramed(404, NotFound);
      SerializedReadsBack(Bare(404, NotFound));
    }
  }

  lemma GetReadsBack(path: Bytes, userAgent: Option<Bytes>, filedir: Bytes, files: Files)
    ensures ReadsBack(HandleGet(path, userAgent, filedir, files))
  {
    if HasPrefix(path, EchoPrefix) {
      EchoReadsBack(path);
    } else if HasPrefix(path, UserAgentPrefix) {
      UserAgentReadsBack(userAgent);
    } else if HasPrefix(path, FilesPrefix) {
      ServeFileReadsBack(path, filedir, files);
    } else if path == Root {
      BareFramed(200, Ok);
      SerializedReadsBack(Bare(200, Ok));
    } else {
      BareFramed(404, NotFound);
      SerializedReadsBack(Bare(404, NotFound));
    }
  }

  lemma PostReadsBack(path: Bytes, body: Option<Bytes>, filedir: Bytes, files: Files, writeOk: bool)
    ensures ReadsBack(HandlePost(path, body, filedir, files, writeOk).wire)
  {
    if !HasPrefix(path, FilesSlash) {
      BareFramed(404, NotFound);
      SerializedReadsBack(Bare(404, NotFound));
    } else if body.None? {
      BareFramed(404, CannotRead);
      SerializedReadsBack(Bare(404, CannotRead));
    } else if !writeOk {
      BareFramed(404, CannotWrite);
      SerializedReadsBack(Bare(404, CannotWrite));
    } else {
      BareFramed(201, Created);
      SerializedReadsBack(Bare(201, Created));
    }
  }

  /** Every non-empty reply reads back as a well-formed response whose `Content-Length`
      tells the reader exactly where the body ends, and that lays out to exactly the
      bytes written. */
  lemma ResponsesAreFramed(req: Request, filedir: Bytes, files: Files, writeOk: bool)
    ensures var out := HandleConnection(req, filedir, files, writeOk);
      out.wire != [] ==> ReadsBack(out.wire)
  {
    if req.verb == Get {
      GetReadsBack(req.path, req.userAgent, filedir, files);
    } else if req.verb == Post {
      PostReadsBack(req.path, req.body, filedir, files, writeOk);
    }
  }

  /** A path under `/files/` passes none of the GET prefix tests before `/files`. */
  lemma FilesPathRoutesToFiles(path: Bytes)
    requires HasPrefix(path, FilesSlash)
    ensures !HasPrefix(path, EchoPrefix) && !HasPrefix(path, UserAgentPrefix) && HasPrefix(path, FilesPrefix)
  {
    assert path[1] == FilesSlash[1];
    NotPrefixAt(path, EchoPrefix, 1);
    NotPrefixAt(path, UserAgentPrefix, 1);
    assert path[..6] == path[..7][..6];
  }

  /** After a successful POST of `data` to a path under `/files/`, a GET of the same path
      serves `data` back, because both branches derive the same store path. */
  lemma PostThenGet(path: Bytes, data: Bytes, filedir: Bytes, files: Files,
                    userAgent: Option<Bytes>, getBody: Option<Bytes>, getWriteOk: bool)
    requires HasPrefix(path, FilesSlash)
    ensures var post := HandleConnection(Request(Post, path, userAgent, Some(data)), filedir, files, true);
      && post.wire == Serialize(Bare(201, Created))
      && HandleConnection(Request(Get, path, userAgent, getBody), filedir, post.files, getWriteOk)
         == Outcome(Serialize(WithBody(OctetStream, data)), post.files)
  {
    var key := filedir + TrimPrefix(path, FilesSlash);
    var post := HandleConnection(Request(Post, path, userAgent, Some(data)), filedir, files, true);
    assert post == HandlePost(path, Some(data), filedir, files, true);
    assert key in post.files && post.files[key] == data;
    FilesPathRoutesToFiles(path);
    assert HandleGet(path, userAgent, filedir, post.files) == ServeFile(path, filedir, post.files);
    assert ServeFile(path, filedir, post.files) == Serialize(WithBody(OctetStream, data));
    var get := HandleConnection(Request(Get, path, userAgent, getBody), filedir, post.files, getWriteOk);
    assert get == Outcome(HandleGet(path, userAgent, filedir, post.files), post.files);
  }

  lemma NotFoundText()
    ensures Version + "404" + " " + NotFound + EndOfHead == "HTTP/1.1 404 Not Found\r\n\r\n"
  {
  }

  lemma CreatedText()
    ensures Version + "201" + " " + Created + EndOfHead == "HTTP/1.1 201 Created\r\n\r\n"
  {
  }

  /** A 404 with the reason "Not Found" goes out as exactly these bytes: a status line and an
      empty header block, with no headers and no body. */
  lemma NotFoundBytes()
    ensures Serialize(Bare(404, NotFound)) == "HTTP/1.1 404 Not Found\r\n\r\n"
  {
    NotFoundLine();
    NotFoundText();
    BareLayout(404, NotFound);
  }

  /** A successful upload is answered with exactly these bytes. */
  lemma CreatedBytes()
    ensures Serialize(Bare(201, Created)) == "HTTP/1.1 201 Created\r\n\r\n"
  {
    CreatedLine();
    CreatedText();
    BareLayout(201, Created);
  }

  /** The bare 200 that GET `/` is answered with goes out as exactly these bytes. */
  lemma RootBytes()
    ensures Serialize(Bare(200, Ok)) == "HTTP/1.1 200 OK\r\n\r\n"
  {
    OkLine();
    BareLayout(200, Ok);
  }

  /** GET `/echo` with no slash after it echoes the whole path. */
  lemma EchoWithoutSlash(userAgent: Option<Bytes>, body: Option<Bytes>, filedir: Bytes, files: Files, writeOk: bool)
    ensures HandleConnection(Request(Get, EchoPrefix, userAgent, body), filedir, files, writeOk).wire
         == Serialize(WithBody(TextPlain, EchoPrefix))
  {
    assert !HasPrefix(EchoPrefix, EchoSlash);
  }

  /** GET `/echo/hello` echoes `hello`. */
  lemma EchoHello(userAgent: Option<Bytes>, body: Option<Bytes>, filedir: Bytes, files: Files, writeOk: bool)
    ensures HandleConnection(Request(Get, "/echo/hello", userAgent, body), filedir, files, writeOk).wire
         == Serialize(WithBody(TextPlain, "hello"))
  {
    TrimPrefixOfConcat(EchoSlash, "hello");
    assert EchoSlash + "hello" == "/echo/hello";
  }

  /** GET accepts `/files` with no slash and looks up the directory followed by `/files`;
      POST to the same path is refused and stores nothing. */
  lemma FilesWithoutSlash(userAgent: Option<Bytes>, body: Option<Bytes>, filedir: Bytes, files: Files, writeOk: bool)
    ensures var get := HandleConnection(Request(Get, FilesPrefix, userAgent, body), filedir, files, writeOk);
      && (filedir + FilesPrefix in files ==>
            get.wire == Serialize(WithBody(OctetStream, files[filedir + FilesPrefix])))
      && (filedir + FilesPrefix !in files ==> get.wire == Serialize(Bare(404, NotFound)))
    ensures HandleConnection(Request(Post, FilesPrefix, userAgent, body), filedir, files, writeOk)
         == Outcome(Serialize(Bare(404, NotFound)), files)
  {
    var p: Bytes := FilesPrefix;
    assert !HasPrefix(p, FilesSlash);
    assert TrimPrefix(p, FilesSlash) == p;
    NotPrefixAt(p, EchoPrefix, 1);
    NotPrefixAt(p, UserAgentPrefix, 1);
    assert HasPrefix(p, FilesPrefix);
    assert HandleGet(p, userAgent, filedir, files) == ServeFile(p, filedir, files);
  }

  /** A GET of a file that is not stored is a bare 404 with an empty body. */
  lemma MissingFileIsNotFound(name: Bytes, userAgent: Option<Bytes>, body: Option<Bytes>, filedir: Bytes, files: Files, writeOk: bool)
    requires filedir + name !in files
    ensures HandleConnection(Request(Get, FilesSlash + name, userAgent, body), filedir, files, writeOk).wire
         == Serialize(Bare(404, NotFound))
  {
    FilesPathRoutesToFiles(FilesSlash + name);
    TrimPrefixOfConcat(FilesSlash, name);
  }

  /** An unknown path is a 404 for GET and POST; any other method gets no bytes at all. */
  lemma UnknownPath(verb: Bytes, userAgent: Option<Bytes>, body: Option<Bytes>, filedir: Bytes, files: Files, writeOk: bool)
    ensures var out := HandleConnection(Request(verb, "/nonexistent", userAgent, body), filedir, files, writeOk);
      && (verb == Get || verb == Post ==> out == Outcome(Serialize(Bare(404, NotFound)), files))
      && (verb != Get && verb != Post ==> out == Outcome([], files))
  {
    var p: Bytes := "/nonexistent";
    NotPrefixAt(p, EchoPrefix, 1);
    NotPrefixAt(p, UserAgentPrefix, 1);
    NotPrefixAt(p, FilesPrefix, 1);
    NotPrefixAt(p, FilesSlash, 1);
  }
}
