# Tiny: one HTTP/1.0 transaction, modelled in Dafny

Tiny is a small HTTP/1.0 web server written in C (`tiny/tiny.c`). For each
accepted connection it runs `doit`, which does the following:

- it reads the request line and tokenises it with `sscanf`;
- it refuses any method other than GET or HEAD with a 501 page;
- it skips the request headers up to the blank line;
- it classifies the URI as static content or a CGI program (`parse_uri`);
- it answers 404 when `stat` finds nothing, and 403 when the file is not a
  regular file or lacks the owner permission bit the branch needs;
- otherwise it serves the file (`serve_static`) or starts the CGI program
  (`serve_dynamic`).

Error pages are rendered by `clienterror`.

This project models that transaction in Dafny and proves what it writes
back.

- `clib.dfy` (module `CLib`): the C library routines the server relies on,
  stated on Dafny strings: `strlen`, the C string a buffer denotes,
  `strstr`, `index`, `strcasecmp`, `%d` and `%s` as `sscanf` reads fields.
  A C `char` is a Dafny `char`, and a C string is a sequence without NUL.
- `http.dfy` (module `Http`): the response framing of RFC 1945, section 6.
  A head is lines ending in CR LF followed by an empty line. The module
  states where a client finds the body in the bytes (`BodyStart`) and
  which value the head's lines give as Content-length (`ContentLength`,
  the first line whose name is Content-length, compared without regard to
  case).
- `tiny_parse.dfy` (module `TinyParse`): `parse_uri` and `get_filetype`,
  as pure functions.
- `tiny_response.dfy` (module `TinyResponse`): the bytes written by
  `clienterror`, `serve_static` and the part of `serve_dynamic` that runs
  before the fork, as functions, with their framing proved.
- `tiny_server.dfy` (module `TinyServer`):
  - the decision `doit` makes (`Decide`, `Lookup`), the bytes it writes
    (`Response`) and how many input lines it consumes (`Consumed`);
  - a `Connection` class whose methods are the C routines. Its input is
    the sequence of lines `Rio_readlineb` would return and its output is
    everything `Rio_writen` sent. Each method is proved to write exactly
    what the specification functions say.

The file system is a map from path to file: type, owner read and execute
bits, and bytes. `stat` reports a size equal to the file's length.

Where the code and its usual description differ, the model follows the
code:

- "cgi-bin" is looked for anywhere in the URI, query included (`TinyParse.ParseUriMarkerInQuery`).
- The static branch keeps the query in the file name.
- MIME types are found by substring tests, not by suffix, so "a.jpg.txt" is a JPEG (`TinyParse.GetFiletypeNotSuffix`).
- The 501 reason phrase is spelled "Not implmented".
- The error page writes `bgcolor=ffffff` without quotes.
- The long messages keep their spelling: "Tiny does noe implement this method", "Tiny coudln`t read the file" and "Tinycouldn`t run the CGI program".
- The status line of a CGI response is "HTTP/1.0 200 PF".

## Model

| member | source | states |
|---|---|---|
| CLib.Strlen | tiny/tiny.c:128-133 | strlen counts the characters before the first NUL, which is at the returned index when the count is shorter than the buffer |
| CLib.CStr | tiny/tiny.c:76 | the C string a buffer denotes is the prefix before its first NUL: NUL-free, a prefix, followed by a NUL when shorter than the buffer, and the whole buffer when that holds no NUL |
| CLib.IsSpace | tiny/tiny.c:76 | defines the white space (isspace) that separates the fields %s reads |
| CLib.EqualsIgnoreCase | tiny/tiny.c:77 | defines strcasecmp(a, b) == 0: same length, and equal characters after tolower |
| CLib.StrlenOfCString | tiny/tiny.c:128-133 | strlen of a NUL-free string is its length |
| CLib.Strstr | tiny/tiny.c:156 | strstr gives the first position where the pattern occurs, and gives nothing exactly when it does not occur |
| CLib.Index | tiny/tiny.c:172 | index gives the first position of the character, and nothing exactly when the character is absent |
| CLib.Decimal | tiny/tiny.c:131 | %d prints a non-empty string of digits, with no leading zero unless the number is 0 |
| CLib.DecimalRoundTrip | tiny/tiny.c:197 | reading the %d numeral back gives the number printed |
| CLib.Words | tiny/tiny.c:76 | the fields %s conversions read are non-empty, hold no white space, and hold no NUL when the line holds none |
| CLib.RequestLineFields | tiny/tiny.c:76 | `m SP u SP v CR LF` is read as exactly the three fields m, u, v |
| Http.BodyStart | tiny/tiny.c:131 | a client finds the body just after the first CR LF CR LF (no empty line starts earlier), and finds none exactly when no empty line occurs |
| Http.HeadThenBody | tiny/tiny.c:127-133 | after a head of well-formed lines, the body starts right after the head, whatever the body holds |
| Http.HeadInTwoParts | tiny/tiny.c:243-246 | head lines written by the server, then head lines and a body from elsewhere, make one head: the server's part holds no empty line and the body starts after the combined head |
| Http.ContentLengthLineValue | tiny/tiny.c:131 | a `Content-length:` line with the %d numeral, after any spaces, is read as that number |
| Http.ContentLengthAt | tiny/tiny.c:197 | the first Content-length line among a head's lines decides the Content-length value of the head |
| TinyParse.ParseUri | tiny/tiny.c:149-184 | the target is static exactly when "cgi-bin" does not occur in the URI; the file name is "." and the URI; a dynamic file name holds no '?'; the URI is the dynamic file name, '?' and the arguments, or the file name alone with empty arguments |
| TinyParse.ParseUriStatic | tiny/tiny.c:156-166 | without the marker: static, empty arguments, the file name is "." and the whole URI, with "home.html" appended exactly when the URI ends in '/' |
| TinyParse.ParseUriDynamic | tiny/tiny.c:170-183 | with the marker: dynamic; split at the first '?', the file name is "." and what precedes it and the arguments are what follows; with no '?', the arguments are empty |
| TinyParse.ParseUriSplitUnique | tiny/tiny.c:172-181 | any spelling `prefix ? args` with no '?' in the prefix is the split parse_uri makes |
| TinyParse.ParseUriNoNul | tiny/tiny.c:159-181 | a NUL-free URI gives a NUL-free file name and arguments |
| TinyParse.ParseUriAdder | tiny/tiny.c:170-183 | "/cgi-bin/adder?15&20" is the program "./cgi-bin/adder" with arguments "15&20" |
| TinyParse.ParseUriMarkerInQuery | tiny/tiny.c:156 | the marker counts in the query too: `path ? query`, with the marker in the query, is a CGI request for "." and the path |
| TinyParse.ParseUriStaticKeepsQuery | tiny/tiny.c:161-166 | the static branch keeps the query in the file name: "/index.html?x=1" names "./index.html?x=1" |
| TinyParse.ParseUriRoot | tiny/tiny.c:164-165 | "/" is the static file "./home.html" |
| TinyParse.GetFiletype | tiny/tiny.c:222-236 | the type is always one of text/html, image/gif, image/png, image/jpeg, video/mp4, text/plain |
| TinyParse.FirstMatch | tiny/tiny.c:222-236 | the first-match lookup gives the fallback type or the type of one of its rules |
| TinyParse.GetFiletypeIsFirstMatch | tiny/tiny.c:222-236 | get_filetype is the first-match lookup over the table .html, .gif, .png, .jpg, .mp4 with fallback text/plain |
| TinyParse.FirstMatchRule | tiny/tiny.c:222-236 | with distinct types, the first-match lookup gives rule k's type exactly when rule k's extension occurs in the name and no earlier rule's does |
| TinyParse.FirstMatchFallback | tiny/tiny.c:234-235 | the first-match lookup gives the fallback exactly when no rule's extension occurs |
| TinyParse.GetFiletypeRule | tiny/tiny.c:222-236 | get_filetype gives rule k's type exactly when rule k is the first rule whose extension occurs in the name, and text/plain exactly when none occurs |
| TinyParse.GetFiletypeHtmlFirst | tiny/tiny.c:224-225 | "./a.html.gif" is text/html: the earlier .html test wins over the .gif test |
| TinyParse.GetFiletypeNotSuffix | tiny/tiny.c:230-231 | "a.jpg.txt" is image/jpeg: the test is a substring test |
| TinyResponse.ErrorResponseSpelled | tiny/tiny.c:127-133 | an error response is "HTTP/1.0 errnum shortmsg CR LF", "Content-type:text/html CR LF", "Content-length:" with the body length and CR LF CR LF, then the body |
| TinyResponse.ErrorBody | tiny/tiny.c:117-124 | defines the HTML page clienterror builds from the code, the two messages and the cause |
| TinyResponse.ErrorPage | tiny/tiny.c:112-134 | defines everything clienterror writes: the error head for the page's length, then the page |
| TinyResponse.ErrorBodyIsCString | tiny/tiny.c:131-133 | strlen of the error page built from C strings is its full length, so Content-length counts every byte of it |
| TinyResponse.ErrorResponseFraming | tiny/tiny.c:127-133 | a client finds the body right after the head and reads the page as the body, and the head's Content-length line holds the body length |
| TinyResponse.ErrorResponseOpens | tiny/tiny.c:127-128 | a client reads the status line "HTTP/1.0 errnum shortmsg" and CR LF first |
| TinyResponse.ErrorContentLength | tiny/tiny.c:131 | the error head carries one Content-length line, holding the body length |
| TinyResponse.ErrorBodyEchoes | tiny/tiny.c:117-124 | the page contains the status code, the short message, the long message and the cause verbatim |
| TinyResponse.StaticHeadSpelled | tiny/tiny.c:194-198 | the static head is the 200 OK status line, the Server line, "Connection: close", "Content-length: " and the size, "Content-type: " and the type, then the empty line |
| TinyResponse.IsHead | tiny/tiny.c:205 | defines strcasecmp(method, "HEAD") == 0 |
| TinyResponse.StaticResponse | tiny/tiny.c:193-218 | defines everything serve_static writes: the static head, then nothing for HEAD, otherwise the file's first filesize bytes |
| TinyResponse.StaticFraming | tiny/tiny.c:193-218 | a client finds the body after the head, and the head's Content-length line holds the file size; for HEAD nothing follows the head, otherwise exactly the first filesize bytes of the file follow |
| TinyResponse.StaticHeadLinesOk | tiny/tiny.c:194-198 | every static head line is a well-formed head line (non-empty, no CR or LF inside) |
| TinyResponse.StaticContentLength | tiny/tiny.c:197 | the static head carries one Content-length line, and it holds the size |
| TinyResponse.HeadIsGetWithoutBody | tiny/tiny.c:205-216 | a HEAD response is the GET response's head, and the GET response is that head followed by the file's first filesize bytes |
| TinyResponse.CatIsVideo | tiny/tiny.c:232-233 | "./cat.mp4" is served as video/mp4 |
| TinyResponse.DynamicPrefixSpelled | tiny/tiny.c:243-246 | serve_dynamic writes "HTTP/1.0 200 PF CR LF" then "Server: Tiny Web Server CR LF" |
| TinyResponse.DynamicPrefix | tiny/tiny.c:243-246 | defines the two head lines serve_dynamic writes itself, before the CGI program runs |
| TinyResponse.DynamicFraming | tiny/tiny.c:243-246 | the prefix leaves the head open, so a client finds the body only after the head lines the CGI program adds |
| TinyServer.Stat | tiny/tiny.c:86 | stat fails exactly when no file is at the path, and otherwise reports the file's size |
| TinyServer.LineAt | tiny/tiny.c:72 | the line Rio_readlineb reads at index k, and "" past the end of the input |
| TinyServer.IsBlankLine | tiny/tiny.c:141 | defines strcmp(buf, "\r\n") == 0 on the C string in the buffer |
| TinyServer.HeaderEnd | tiny/tiny.c:136-147 | the index of the first line at or after the start that is the CR LF line |
| TinyServer.BlankLineExactly | tiny/tiny.c:141 | strcmp(buf, "\r\n") is zero exactly for CR LF, possibly followed by a NUL; a bare LF line does not end the headers |
| TinyServer.HeaderEndIsFirstBlank | tiny/tiny.c:141 | the header skipper stops at line e exactly when e is the first CR LF line |
| TinyServer.RequestFields | tiny/tiny.c:76 | the fields sscanf reads from the request line hold no white space and no NUL |
| TinyServer.RequestFieldsOfLine | tiny/tiny.c:76 | a well-formed request line is read back as its method, URI and version, and meets the precondition of doit |
| TinyServer.IsGetOrHead | tiny/tiny.c:77 | defines the method test: strcasecmp with "GET" or with "HEAD" is 0 |
| TinyServer.Decide | tiny/tiny.c:76-109 | a file is served only when it exists, and is served whole |
| TinyServer.Lookup | tiny/tiny.c:85-109 | a file is served only when stat finds it, with the size stat reports |
| TinyServer.Consumed | tiny/tiny.c:72-82 | a refused method consumes the request line only; GET and HEAD consume up to and including the first CR LF line, and no further |
| TinyServer.Written | tiny/tiny.c:79-108 | defines the bytes written for an outcome: the error page, serve_static's output, or serve_dynamic's prefix |
| TinyServer.Response | tiny/tiny.c:62-110 | defines everything doit writes for a request line's fields: the bytes written for its decision |
| TinyServer.NotImplementedFirst | tiny/tiny.c:77-81 | a method other than GET or HEAD gets the 501 page with the method as cause; the response does not depend on the file system and contains the method |
| TinyServer.LookupNotFound | tiny/tiny.c:86-90 | 404 comes exactly when no file is at parse_uri's file name, and it names that file |
| TinyServer.LookupForbidden | tiny/tiny.c:92-107 | 403 comes exactly when the file exists but is not regular or lacks owner-read (static) or owner-execute (dynamic), and it names the file |
| TinyServer.LookupServesFile | tiny/tiny.c:92-99 | the file is served exactly when the target is static and stat finds a regular, owner-readable file; it is served with its whole size |
| TinyServer.LookupRunsProgram | tiny/tiny.c:101-108 | the program runs exactly when the target is dynamic and stat finds a regular, owner-executable file, with parse_uri's arguments |
| TinyServer.StatusLine | tiny/tiny.c:127 | every status line starts with "HTTP/1.0 " |
| TinyServer.ResponseOpensWithStatus | tiny/tiny.c:62-110 | every response doit writes opens with the status line of its outcome and CR LF |
| TinyServer.ExampleCatVideo | tiny/tiny.c:85-99 | "GET /cat.mp4" on a 12345-byte readable file is served as that file, with type video/mp4 |
| TinyServer.ExampleAdder | tiny/tiny.c:85-108 | "GET /cgi-bin/adder?15&20" runs "./cgi-bin/adder" with "15&20", and the server writes only the two prefix lines itself |
| TinyServer.Connection.constructor | tiny/tiny.c:71 | a connection starts at its first input line with nothing written |
| TinyServer.Connection.ReadLine | tiny/tiny.c:72 | Rio_readlineb gives the next line and advances one line; at the end of the input the model gives "" and stays, where the real buffer is left as it was (no caller reaches that case) |
| TinyServer.Connection.WriteString | tiny/tiny.c:128 | Rio_writen(fd, buf, strlen(buf)) appends the C string to the output |
| TinyServer.Connection.WriteBytes | tiny/tiny.c:216 | Rio_writen of a byte buffer appends those bytes to the output |
| TinyServer.Connection.ClientError | tiny/tiny.c:112-134 | clienterror appends exactly the error response around its page to the output |
| TinyServer.Connection.ReadRequestHeaders | tiny/tiny.c:136-147 | read_requesthdrs leaves the reader just past the first CR LF line |
| TinyServer.Connection.ServeStatic | tiny/tiny.c:186-219 | serve_static appends exactly the static head and, unless the method is HEAD, the file's first filesize bytes |
| TinyServer.Connection.ServeDynamic | tiny/tiny.c:238-246 | serve_dynamic appends exactly the two prefix lines |
| TinyServer.Connection.Doit | tiny/tiny.c:62-110 | doit appends exactly the response to the request line's fields and consumes exactly the lines Consumed names |
| TinyServer.Connection.Dispatch | tiny/tiny.c:84-109 | after the method check, doit appends exactly what its look-up of the URI decides |
| TinyServer.ErrorWrites | tiny/tiny.c:117-133 | the four writes of clienterror are C strings, and together they spell the error response |
| TinyServer.StaticWrites | tiny/tiny.c:193-200 | the head buffer of serve_static is a C string that spells the static head |

## Left out

- `main` (tiny/tiny.c:20-60) is not modelled: the listening socket, the accept loop, name lookup and closing the connection are network plumbing.
- `fork`, `setenv`, `Dup2`, `Execve` and `Wait` in serve_dynamic (tiny/tiny.c:249-257) are not modelled. Only the two lines the server writes itself are. What the CGI program writes is outside the model; `Http.HeadInTwoParts` states how it must finish the head.
- The Rio buffered reader and writer are not part of this model. The connection is a sequence of input lines and an output string.
- `printf` logging is not modelled; it does not affect the response.
- The MAXLINE and MAXBUF capacities are not modelled, and neither are the truncation or overflow of `sprintf` and `strcpy`. Strings are unbounded.
- TinyServer.Connection.ClientError, TinyServer.Connection.ServeStatic: a call such as `sprintf(body, "%s...", body, ...)` (tiny/tiny.c:118-124, 195-198) is modelled as appending to the buffer. C leaves a `sprintf` whose source and destination overlap undefined; the header comment (tiny/tiny.c:7) says that aliasing was fixed, but these lines still have it. `TinyResponse.ErrorBodyEchoes` and `TinyResponse.StaticHeadSpelled` rest on the append reading.
- TinyServer.Connection.ServeStatic: for GET of a 0-byte file, `Mmap` with length 0 (tiny/tiny.c:212) fails on Linux and the csapp wrapper ends the server after the head has been written. The bytes on the wire match the model; the end of the process is not modelled.
- TinyServer.Connection.ReadLine: at the end of the input the model gives "", while the real `Rio_readlineb` leaves the buffer as it was. Under Doit's precondition no call reaches the end of the input.
- `open`, `mmap`, `close` and `munmap` are replaced by the file's bytes in the map. The file is assumed unchanged between `stat` and `mmap`. Paths are keys of the map as written: no directory resolution, symbolic links or `..`.
- TinyServer.Stat: reports only the fields doit reads: the file type, the owner read and execute bits, and the size. The size is unbounded, not truncated to the C `int` of serve_static's parameter.
- TinyServer.Connection.WriteString: requires a NUL-free buffer. Every buffer tiny.c writes this way is one, which `TinyServer.ErrorWrites` and `TinyServer.StaticWrites` prove.
- TinyServer.Connection.Doit: requires the request line to have a method field, and also a non-empty URI field when the method is GET or HEAD. The C code reads uninitialised buffers otherwise. The version field is never read, so it is not required.
- TinyServer.Connection.Doit: for GET and HEAD, requires a CR LF line somewhere after the request line. Without one, read_requesthdrs loops forever at the end of the input, which the model does not represent.
- TinyParse.ParseUri: returns new values. The C code writes into the caller's buffers and cuts the caller's `uri` at the '?' (tiny/tiny.c:176); that in-place update is not modelled, and nothing in doit reads `uri` after it.
- TinyParse.ParseUri: requires a non-empty URI, because the C code reads the character before the end (tiny/tiny.c:164).
