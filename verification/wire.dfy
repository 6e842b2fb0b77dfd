/** The response bytes the server writes, seen from both ends of the connection.

    `GenerateResponse` is the server's own status-line formatter. `Serialize` lays a
    structured response out the way the server's handlers do by hand: the status line,
    CRLF, one `name: value` line per header, an empty line, then the body octets. `Parse`
    is an independent reader of such bytes, as a client would do it, and
    `ParseSerialize` shows that reading gives back exactly what was laid out. */
module Wire {
  import opened Wrappers
  import opened ByteStrings
  import opened Decimal

  const Version: Bytes := "HTTP/1.1 "

  datatype Header = Header(name: Bytes, value: Bytes)

  datatype Response = Response(code: int, text: Bytes, headers: seq<Header>, body: Bytes)

  /** `generateResponse`: the status line, with no line terminator of its own. It reads
      back as the code and text it was made from, and it carries no line break unless
      the text does, so every caller must frame it itself. */
  function GenerateResponse(code: int, text: Bytes): (r: Bytes)
    ensures HasPrefix(r, Version)
    ensures NoLineBreak(text) ==> NoLineBreak(r)
    ensures ParseStatusLine(r) == Some((code, text))
  {
    var num := FormatInt(code);
    var r := Version + num + " " + text;
    assert r[..|Version|] == Version;
    var rest := num + " " + text;
    assert r[|Version|..] == rest;
    FindAfterFree(num, " ", text);
    assert rest[..|num|] == num;
    assert rest[|num| + 1..] == text;
    ParseFormatInt(code);
    r
  }

  /** Reads a status line: the version, a decimal code, one space, the reason text. */
  function ParseStatusLine(line: Bytes): (r: Option<(int, Bytes)>) {
    if !HasPrefix(line, Version) then None
    else
      var rest := line[|Version|..];
      match Find(rest, " ")
      case None => None
      case Some(k) =>
        match ParseInt(rest[..k])
        case None => None
        case Some(code) => Some((code, rest[k + 1..]))
  }

  /** A header's `name: value` line, ended by CRLF. */
  function Field(h: Header): (line: Bytes) {
    h.name + ": " + h.value + CRLF
  }

  /** One field line per header, in order. */
  function Fields(headers: seq<Header>): (block: Bytes) {
    if |headers| == 0 then [] else Field(headers[0]) + Fields(headers[1..])
  }

  function Serialize(r: Response): (wire: Bytes) {
    GenerateResponse(r.code, r.text) + CRLF + Fields(r.headers) + CRLF + r.body
  }

  /** A header that can be written on one line and split back at its first `": "`. */
  predicate HeaderOk(h: Header) {
    NoLineBreak(h.name) && Free(h.name, ':') && NoLineBreak(h.value)
  }

  /** The responses whose layout can be read back unambiguously. The body is unrestricted. */
  predicate WellFormed(r: Response) {
    NoLineBreak(r.text) && forall i :: 0 <= i < |r.headers| ==> HeaderOk(r.headers[i])
  }

  /** The part of `s` before its first CRLF and the part after it. */
  function SplitLine(s: Bytes): (r: Option<(Bytes, Bytes)>)
    ensures r.Some? ==> r.value.0 + CRLF + r.value.1 == s
    ensures r.Some? ==> |r.value.1| < |s|
  {
    match Find(s, CRLF)
    case None => None
    case Some(i) =>
      assert s == s[..i] + CRLF + s[i + 2..] by {
        assert s[i..i + 2] == CRLF;
      }
      Some((s[..i], s[i + 2..]))
  }

  /** Reads header lines up to the empty line; what follows it is the body. */
  function ParseFields(s: Bytes): (r: Option<(seq<Header>, Bytes)>)
    decreases |s|
  {
    if HasPrefix(s, CRLF) then Some(([], s[2..]))
    else
      match SplitLine(s)
      case None => None
      case Some((line, rest)) =>
        match Find(line, ": ")
        case None => None
        case Some(j) =>
          var h := Header(line[..j], line[j + 2..]);
          match ParseFields(rest)
          case None => None
          case Some((hs, body)) => Some(([h] + hs, body))
  }

  /** Reads a whole response: status line, header lines, empty line, body. */
  function Parse(s: Bytes): (r: Option<Response>) {
    match SplitLine(s)
    case None => None
    case Some((line, rest)) =>
      match ParseStatusLine(line)
      case None => None
      case Some((code, text)) =>
        match ParseFields(rest)
        case None => None
        case Some((headers, body)) => Some(Response(code, text, headers, body))
  }

  lemma FreeConcat(a: Bytes, b: Bytes, x: byte)
    requires Free(a, x) && Free(b, x)
    ensures Free(a + b, x)
  {
    forall i | 0 <= i < |a + b|
      ensures (a + b)[i] != x
    {
      if i >= |a| {
        assert (a + b)[i] == b[i - |a|];
      }
    }
  }

  /** A header's line, followed by anything, is not the empty line and splits off at its
      own CRLF. */
  lemma FieldLineSplits(h: Header, rest: Bytes)
    requires HeaderOk(h)
    ensures !HasPrefix(Field(h) + rest, CRLF)
    ensures SplitLine(Field(h) + rest) == Some((h.name + ": " + h.value, rest))
  {
    var line := h.name + ": " + h.value;
    var s := Field(h) + rest;
    assert s == line + CRLF + rest;
    if |h.name| > 0 {
      assert s[0] == h.name[0];
    } else {
      assert s[0] == ':';
    }
    NotPrefixAt(s, CRLF, 0);
    FreeConcat(h.name, ": ", CR);
    FreeConcat(h.name + ": ", h.value, CR);
    FindAfterFree(line, CRLF, rest);
  }

  /** A header's line splits back into its name and value at the first `": "`. */
  lemma FieldLineParts(h: Header)
    requires HeaderOk(h)
    ensures var line := h.name + ": " + h.value;
      && Find(line, ": ") == Some(|h.name|)
      && line[..|h.name|] == h.name
      && line[|h.name| + 2..] == h.value
  {
    var line := h.name + ": " + h.value;
    assert line == h.name + ": " + h.value + [];
    FindAfterFree(h.name, ": ", h.value);
  }

  /** Reading a header's line, followed by more input, gives that header in front of what
      the rest of the input reads as. */
  lemma ParseFieldsStep(h: Header, rest: Bytes)
    requires HeaderOk(h)
    ensures ParseFields(Field(h) + rest)
         == match ParseFields(rest)
            case None => None
            case Some((hs, body)) => Some(([h] + hs, body))
  {
    FieldLineSplits(h, rest);
    FieldLineParts(h);
  }

  /** Reading the header lines laid out by `Fields`, followed by the empty line and a body,
      gives back the headers and the body. */
  lemma {:induction false} ParseFieldsOf(headers: seq<Header>, body: Bytes)
    requires forall i :: 0 <= i < |headers| ==> HeaderOk(headers[i])
    ensures ParseFields(Fields(headers) + CRLF + body) == Some((headers, body))
    decreases |headers|
  {
    var s := Fields(headers) + CRLF + body;
    if |headers| == 0 {
      assert s == CRLF + body;
      TrimPrefixOfConcat(CRLF, body);
    } else {
      var h := headers[0];
      assert HeaderOk(h);
      var tail := Fields(headers[1..]);
      var rest := tail + CRLF + body;
      Assoc(Field(h), tail, CRLF);
      Assoc(Field(h), tail + CRLF, body);
      assert s == Field(h) + rest;
      ParseFieldsStep(h, rest);
      ParseFieldsOf(headers[1..], body);
      assert [h] + headers[1..] == headers;
    }
  }

  /** A well-formed response reads back as itself: status code, reason text, every header
      in order, and exactly the body octets. */
  lemma ParseSerialize(r: Response)
    requires WellFormed(r)
    ensures Parse(Serialize(r)) == Some(r)
  {
    var line := GenerateResponse(r.code, r.text);
    var rest := Fields(r.headers) + CRLF + r.body;
    assert Serialize(r) == line + CRLF + rest;
    FindAfterFree(line, CRLF, rest);
    assert SplitLine(Serialize(r)) == Some((line, rest));
    ParseFieldsOf(r.headers, r.body);
  }
}
