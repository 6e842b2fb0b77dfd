# http-server-go: request dispatch and response bytes

This project models the part of the toy HTTP/1.1 server in `app/server.go` that decides
what to answer: once a request has been parsed, `handleConnection` tests the method and
the URL path against a fixed list of prefixes and builds the response text by hand, and
`generateResponse` writes the status line. The model is a pure function from a parsed
request, the configured file directory and the file store to the exact octets written
on the connection and the file store afterwards.

- `wrappers.dfy` (`Wrappers`): an `Option` type.
- `bytes.dfy` (`ByteStrings`): octet strings, `strings.HasPrefix`, `strings.TrimPrefix`,
  and a first-occurrence search used by the response reader. An octet is a character
  below 256, so the server's ASCII literals are written as string literals.
- `decimal.dfy` (`Decimal`): Go's `%d` for non-negative and for arbitrary integers, and
  the reading back of such numerals.
- `wire.dfy` (`Wire`): `generateResponse`; a structured `Response` (code, reason text,
  headers in order, body); `Serialize`, the layout the handlers write by hand; and
  `Parse`, an independent reader of that layout.
- `server.dfy` (`Server`): the GET routes (`/echo`, `/user-agent`, `/files`, `/`, the
  404 fallback), the POST `/files/` route, and the method dispatch.
- `properties.dfy` (`ServerProperties`): framing of every response, a stored file being
  served back, and the routing quirks of the prefix tests.

The file store is a map from a path to the file's octets. The path is the directory
prefix followed by the request path without a leading `/files/`, with no separator added
and nothing sanitised. A read fails exactly when the path is not in the map. Whether a
write succeeds is a boolean input, and a failed read of the request body is a request
whose `body` is `None`.

The quirks of the code are modelled as written:
- GET matches `/files` with no slash, but POST needs `/files/`.
- GET `/echo` echoes `/echo`, because `/echo/` is not a prefix of it.
- Any method other than GET or POST gets no bytes, even for an unknown path, and leaves
  the store alone (`ServerProperties.UnknownPath`).
- Every failure is reported as a 404. This includes a body that cannot be read and a
  file that cannot be written.

## Model

| member | source | states |
|---|---|---|
| ByteStrings.HasPrefix | app/server.go:57 | the routing test `strings.HasPrefix` holds exactly when the path is at least as long as the prefix and agrees with it octet by octet, and then the path is the prefix followed by the rest |
| ByteStrings.HasPrefixOfConcat | app/server.go:80 | any path that is the prefix followed by something passes the prefix test, so with `HasPrefix` a path passes exactly when it extends the prefix |
| ByteStrings.TrimPrefix | app/server.go:58 | the result, put back behind the prefix, is the input when the input starts with the prefix; otherwise the input is returned unchanged |
| ByteStrings.TrimPrefixOfConcat | app/server.go:64 | removing a prefix that was just put in front gives back exactly what followed it |
| ByteStrings.FindAfterFree | app/server.go:59 | the first CRLF (or other separator) in `x + sep + y` is the one right after `x` when `x` does not contain the separator's first octet, which is what lets a reader find the end of each head line |
| Decimal.FormatNat | app/server.go:59 | `%d` of a length is a non-empty string of decimal digits with no leading zero |
| Decimal.ParseFormatNat | app/server.go:59 | reading the numeral `%d` writes gives back the number, so a `Content-Length` value denotes exactly the length that was formatted |
| Decimal.FormatInt | app/server.go:105 | `%d` of any status code is a non-empty string of digits, with a leading minus sign exactly when the code is negative, and with no leading zero (only 0 itself starts with `0`, and no negative numeral has a `0` after its sign) |
| Decimal.ParseFormatInt | app/server.go:105 | reading the status-code numeral gives back the integer, negative or not |
| Wire.GenerateResponse | app/server.go:104-106 | the status line starts with `HTTP/1.1 `, reads back as exactly the given code and reason text, and has no line break of its own (when the text has none), so each caller must add the CRLF framing |
| Wire.ParseSerialize | app/server.go:59-95 | any response whose reason text and headers have no line break (and no `:` in a header name) reads back as itself: same code, same text, the same headers in order, exactly the body octets |
| Server.Echo | app/server.go:57-59 | the echo answer is a 200 `text/plain` response whose body is the path without a leading `/echo/` (the whole path if `/echo/` is not a prefix) and whose `Content-Length` is that body's octet count |
| Server.UserAgent | app/server.go:60-62 | the user-agent answer is a 200 `text/plain` response whose body is the `User-Agent` value (empty when absent) and whose `Content-Length` is its octet count |
| Server.ServeFile | app/server.go:63-70 | the GET file answer looks up the directory followed by the path without a leading `/files/`; a stored file gives a 200 `application/octet-stream` response carrying its octets and their count, a missing one exactly `HTTP/1.1 404 Not Found` followed by an empty line |
| Server.HandleGet | app/server.go:55-76 | the GET answer, with the prefixes tried in source order: `/echo`, `/user-agent`, `/files`, then exactly `/` (a bare 200), and every other path a bare 404 |
| Server.HandlePost | app/server.go:78-97 | a POST outside `/files/` is a bare 404 and stores nothing; an unreadable body is 404 `File Cannot Be Read` and a failed write is 404 `File Cannot Be Written`, both storing nothing; a successful write is a bare 201 `Created`, adds exactly the body under the one path the request names, and leaves every other stored file as it was |
| Server.HandleConnection | app/server.go:53-99 | the answer is empty exactly when the method is neither GET nor POST; only POST can change the store, and any change is the request body put under the path the request names |
| ServerProperties.ResponsesAreFramed | app/server.go:56-96 | every non-empty answer reads back as a well-formed response: every `Content-Length` reads as the body's octet count, every response with a body has one, and laying the response out again gives exactly the octets written |
| ServerProperties.PostThenGet | app/server.go:63-88 | after a successful POST of some octets to a path under `/files/`, which is answered `201 Created`, a GET of the same path is a 200 `application/octet-stream` response carrying exactly those octets, for every directory string and prior map |
| ServerProperties.EchoWithoutSlash | app/server.go:57-58 | GET `/echo` echoes the whole path `/echo` |
| ServerProperties.EchoHello | app/server.go:57-59 | GET `/echo/hello` echoes `hello` |
| ServerProperties.FilesWithoutSlash | app/server.go:63-95 | GET `/files` with no slash looks up the directory followed by `/files`, while POST `/files` is a bare 404 that stores nothing |
| ServerProperties.MissingFileIsNotFound | app/server.go:63-68 | a GET of a file that is not stored is exactly the bare 404 response, with no body |
| ServerProperties.NotFoundBytes | app/server.go:67 | a 404 "Not Found" (missing file, unknown GET or POST path) is exactly the bytes `HTTP/1.1 404 Not Found` followed by an empty line: no headers, no body |
| ServerProperties.CreatedBytes | app/server.go:93 | a successful upload is answered with exactly `HTTP/1.1 201 Created` followed by an empty line |
| ServerProperties.RootBytes | app/server.go:72 | the answer to GET `/` is exactly `HTTP/1.1 200 OK` followed by an empty line: no headers, no body |
| ServerProperties.UnknownPath | app/server.go:53-99 | `/nonexistent` is a bare 404 for GET and for POST and leaves the store alone; any other method gets an empty answer |

## Left out

- Process startup (app/server.go:17-43): flag parsing, the listener, the accept loop and the goroutine per connection. This is I/O and concurrency. The `-directory` flag's value is the `filedir` parameter.
- `bufio.NewReader` and `http.ReadRequest` (app/server.go:46-47) belong to the Go library. Their result is the `Request` record: method, decoded `URL.Path`, `User-Agent` value and body.
- The parse-error path (app/server.go:49-51). `http.ReadRequest` returns a nil request on every error, and the code writes a diagnostic but does not return. `req.Method` at app/server.go:55 then dereferences the nil request and panics. Nothing recovers the panic, so the whole server process stops. This happens on a malformed request, or when a client connects and closes without sending anything. Only parsed requests are modelled.
- Header-name canonicalisation and the multi-value lookup in `req.Header.Get` (app/server.go:61) belong to the library. The model takes the value `Get` returns, or absence, as an input.
- `os.ReadFile`, `io.ReadAll` and `os.WriteFile` (app/server.go:65, 82, 88) are real I/O. Any read failure (a missing file, a directory, no permission) is a path absent from the map. A write's success is the `writeOk` input, and a successful write puts the body under its path, so the model ties what a read returns to the last successful write. Files that can be written but not read back as written (device files, write-only files) and concurrent writers break that tie; see the `ServerProperties.PostThenGet` line below. The file mode 0644 is not modelled.
- Server.HandlePost: a failed write leaves the store unchanged. `os.WriteFile` can leave a truncated or partly written file behind when it fails, and that is not modelled.
- Server.HandlePost: "every other stored file as it was" holds only within the map abstraction, where each spelling of a path is its own file. In a real directory, `d/a`, `d/./a`, `d//a`, `d/x/../a` and symbolic links can all name the same file, and `URL.Path` is not cleaned before it is joined to the directory. So a POST to `/files/./a` followed by a GET of `/files/a` serves the new octets in the program, but not in the model. File-system path resolution is not modelled.
- ServerProperties.PostThenGet: it holds for the same path spelled the same way. A GET of another spelling of the same file (see the line above) is not covered. It also assumes that the path names a regular, readable file and that nothing else writes it between the two requests. In the program, read-after-write fails in three cases. With directory `/dev/` and path `/files/null`, the write succeeds and the POST gets `201 Created`, but the GET then reads `/dev/null` and answers 200 with an empty body. An existing file of mode 0200 can be written, and the write keeps that mode, but reading it fails, so the GET is a 404. And since each connection runs in its own goroutine (app/server.go:41), another connection can POST to the same path between the two requests.
- `defer req.Body.Close()`, `conn.Write` and `conn.Close` (app/server.go:87, 99-100) are socket and stream handling. The model's result is the octet string that would be written.
- Go's `int` is 32 or 64 bits wide depending on the platform. Lengths and status codes are unbounded here. No length a process can hold reaches the 64-bit limit, and the status codes are the constants 200, 201 and 404.
