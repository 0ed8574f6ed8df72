/** One transaction of the Tiny server (doit and the routines it calls), on a
    connection modelled as the lines the client sends, read one at a time,
    and the bytes the server writes back. The file system is a map from path
    to file: stat finds a file exactly when its path is a key, and mapping
    the file gives its bytes.

    The decision doit makes is stated first as functions (Decide, Response);
    the class Connection then carries the step-by-step code, and each of its
    methods is proved to write exactly what those functions say. */
module TinyServer {
  import opened CLib
  import opened Http
  import opened TinyParse
  import opened TinyResponse

  // ---------------------------------------------------------------------------
  // Files and stat

  /** A file: its type and owner permission bits, and its bytes. */
  datatype File = File(isRegular: bool, ownerRead: bool, ownerExec: bool, data: seq<char>)

  type FileSystem = map<string, File>

  /** What stat puts in `struct stat` that doit looks at. */
  datatype StatBuf = StatBuf(isRegular: bool, ownerRead: bool, ownerExec: bool, size: nat)

  /** stat: fails exactly when there is no file at `path`; otherwise reports
      its type, its owner bits and its size in bytes. */
  function Stat(fs: FileSystem, path: string): (r: Option<StatBuf>)
    ensures r.None? <==> path !in fs
    ensures r.Some? ==> r.value.size == |fs[path].data|
  {
    if path in fs then
      var f := fs[path];
      Some(StatBuf(f.isRegular, f.ownerRead, f.ownerExec, |f.data|))
    else None
  }

  // ---------------------------------------------------------------------------
  // Reading the request

  /** The line Rio_readlineb reads for line `k` of the input. At the end of
      the input the model gives "", where the real buffer is left as it was;
      no caller reaches that case under Doit's precondition. */
  function LineAt(input: seq<string>, k: nat): (l: string)
    ensures k < |input| ==> l == input[k]
    ensures k >= |input| ==> l == ""
  {
    if k < |input| then input[k] else ""
  }

  /** strcmp(buf, "\r\n") == 0: the line that ends the request headers. */
  predicate IsBlankLine(l: string) {
    CStr(l) == CrLf
  }

  /** Some line at or after `from` ends the headers. */
  predicate HasBlankLineFrom(input: seq<string>, from: nat) {
    exists k :: from <= k < |input| && IsBlankLine(input[k])
  }

  /** The index of the first line at or after `from` that ends the headers. */
  function HeaderEnd(input: seq<string>, from: nat): (e: nat)
    requires HasBlankLineFrom(input, from)
    ensures from <= e < |input| && IsBlankLine(input[e])
    ensures forall j :: from <= j < e ==> !IsBlankLine(input[j])
    decreases |input| - from
  {
    if IsBlankLine(input[from]) then from
    else
      assert HasBlankLineFrom(input, from + 1) by {
        var k :| from <= k < |input| && IsBlankLine(input[k]);
        assert k != from;
      }
      HeaderEnd(input, from + 1)
  }

  /** What sscanf(buf, "%s %s %s", ...) reads from a request line: the fields
      of the C string in the buffer. */
  function RequestFields(line: string): (ws: seq<string>)
    ensures forall k :: 0 <= k < |ws| ==> IsWord(ws[k]) && NoNul(ws[k])
  {
    Words(CStr(line))
  }

  /** strcasecmp(method, "GET") == 0 || strcasecmp(method, "HEAD") == 0 */
  predicate IsGetOrHead(requestMethod: string) {
    EqualsIgnoreCase(requestMethod, "GET") || IsHead(requestMethod)
  }

  /** doit reads the method field, and the URI field only once the method
      is GET or HEAD; the version field is never looked at. A field that
      sscanf does not fill is left uninitialised, so the ones doit reads must
      be there. */
  predicate ReadableRequestLine(line: string) {
    var ws := RequestFields(line);
    |ws| >= 1 && (IsGetOrHead(ws[0]) ==> |ws| >= 2)
  }

  // ---------------------------------------------------------------------------
  // The decision doit makes

  /** What doit does with a request: answer with an error page, or hand the
      request to serve_static or serve_dynamic. */
  datatype Outcome =
    | Refuse(cause: string, errnum: string, shortmsg: string, longmsg: string)
    | ServeFile(filename: string, filesize: nat)
    | RunProgram(filename: string, cgiargs: string)

  const NotImplementedText: string := "Tiny does noe implement this method"
  const NotFoundText: string := "Tiny couldn't find this file"
  const CannotReadText: string := "Tiny coudln`t read the file"
  const CannotRunText: string := "Tinycouldn`t run the CGI program"

  /** doit's decision for the request line whose fields are `ws`: the method
      check first, and only for GET and HEAD the look-up of the URI. */
  function Decide(ws: seq<string>, fs: FileSystem): (o: Outcome)
    requires |ws| >= 1 && (IsGetOrHead(ws[0]) ==> |ws| >= 2 && |ws[1]| > 0)
    ensures o.ServeFile? ==> o.filename in fs && o.filesize == |fs[o.filename].data|
  {
    if !IsGetOrHead(ws[0]) then Refuse(ws[0], "501", "Not implmented", NotImplementedText)
    else Lookup(ws[1], fs)
  }

  /** The rest of doit's decision: parse_uri, then stat, then the permission
      check of the branch parse_uri chose. */
  function Lookup(uri: string, fs: FileSystem): (o: Outcome)
    requires |uri| > 0
    ensures o.ServeFile? ==> o.filename in fs && o.filesize == |fs[o.filename].data|
  {
    var t := ParseUri(uri);
    match Stat(fs, t.filename)
    case None => Refuse(t.filename, "404", "Not found", NotFoundText)
    case Some(sbuf) =>
      if t.isStatic then
        if !sbuf.isRegular || !sbuf.ownerRead then
          Refuse(t.filename, "403", "Forbidden", CannotReadText)
        else ServeFile(t.filename, sbuf.size)
      else
        if !sbuf.isRegular || !sbuf.ownerExec then
          Refuse(t.filename, "403", "Forbidden", CannotRunText)
        else RunProgram(t.filename, t.cgiargs)
  }

  /** The bytes written for an outcome. For a CGI program, only the part
      written before the program runs. */
  function Written(o: Outcome, requestMethod: string, fs: FileSystem): string
    requires o.ServeFile? ==> o.filename in fs && o.filesize <= |fs[o.filename].data|
  {
    match o
    case Refuse(cause, errnum, shortmsg, longmsg) => ErrorPage(cause, errnum, shortmsg, longmsg)
    case ServeFile(filename, filesize) => StaticResponse(filename, filesize, requestMethod, fs[filename].data)
    case RunProgram(_, _) => DynamicPrefix()
  }

  /** Everything doit writes for the request line whose fields are `ws`. */
  function Response(ws: seq<string>, fs: FileSystem): string
    requires |ws| >= 1 && (IsGetOrHead(ws[0]) ==> |ws| >= 2 && |ws[1]| > 0)
  {
    Written(Decide(ws, fs), ws[0], fs)
  }

  /** How far doit reads: the request line only, when the method is refused;
      otherwise also the headers, up to and including the first line that is
      exactly CR LF, and not one line further. */
  function Consumed(input: seq<string>, pos: nat): (n: nat)
    requires ReadableRequestLine(LineAt(input, pos))
    requires IsGetOrHead(RequestFields(LineAt(input, pos))[0]) ==> HasBlankLineFrom(input, pos + 1)
    ensures pos < n <= |input|
    ensures !IsGetOrHead(RequestFields(LineAt(input, pos))[0]) ==> n == pos + 1
    ensures IsGetOrHead(RequestFields(LineAt(input, pos))[0]) ==>
      && pos + 1 < n && IsBlankLine(input[n - 1])
      && forall j :: pos + 1 <= j < n - 1 ==> !IsBlankLine(input[j])
  {
    if IsGetOrHead(RequestFields(LineAt(input, pos))[0]) then HeaderEnd(input, pos + 1) + 1
    else pos + 1
  }

  // ---------------------------------------------------------------------------
  // What the decision means

  /** strcmp(buf, "\r\n") == 0 holds exactly for CR LF, possibly followed by a
      NUL and anything after it: a line holding only LF does not end the
      headers, and neither does any longer line. */
  lemma BlankLineExactly(l: string)
    ensures IsBlankLine(l) <==> |l| >= 2 && l[0] == '\r' && l[1] == '\n' && (|l| == 2 || l[2] == '\0')
  {
    var n := Strlen(l);
    if |l| >= 2 && l[0] == '\r' && l[1] == '\n' && (|l| == 2 || l[2] == '\0') {
      assert n == 2;
      assert l[..2] == CrLf;
    }
    if IsBlankLine(l) {
      assert l[..n] == CrLf;
      assert l[0] == l[..n][0] && l[1] == l[..n][1];
    }
  }

  /** The header skipper stops at `e` exactly when `e` is the first line at
      or after `from` that is exactly CR LF. */
  lemma {:induction false} HeaderEndIsFirstBlank(input: seq<string>, from: nat, e: nat)
    requires from <= e < |input| && IsBlankLine(input[e])
    requires forall j :: from <= j < e ==> !IsBlankLine(input[j])
    ensures HasBlankLineFrom(input, from) && HeaderEnd(input, from) == e
    decreases e - from
  {
    if from < e {
      HeaderEndIsFirstBlank(input, from + 1, e);
    }
  }

  /** A refused method gets the 501 page naming it, whatever the file system
      holds: neither the URI nor any file is looked at. The page shows the
      method. */
  lemma NotImplementedFirst(ws: seq<string>, fs: FileSystem, fs': FileSystem)
    requires |ws| >= 1 && !IsGetOrHead(ws[0])
    ensures Decide(ws, fs) == Refuse(ws[0], "501", "Not implmented", NotImplementedText)
    ensures Response(ws, fs) == Response(ws, fs')
    ensures Contains(Response(ws, fs), ws[0])
  {
    var body := ErrorBody(ws[0], "501", "Not implmented", NotImplementedText);
    ErrorBodyEchoes(ws[0], "501", "Not implmented", NotImplementedText);
    ContainsInSuffix(Head(ErrorHeadLines("501", "Not implmented", |body|)), body, ws[0]);
  }

  /** 404 comes exactly when stat finds no file under the name parse_uri
      built, and it names that file. */
  lemma LookupNotFound(uri: string, fs: FileSystem)
    requires |uri| > 0
    ensures var t := ParseUri(uri);
      (Lookup(uri, fs).Refuse? && Lookup(uri, fs).errnum == "404") <==> t.filename !in fs
    ensures var t := ParseUri(uri);
      t.filename !in fs ==> Lookup(uri, fs) == Refuse(t.filename, "404", "Not found", NotFoundText)
  {
  }

  /** 403 comes exactly when the file exists but is not a regular file or
      lacks the owner bit the branch needs: read for a static file, execute
      for a CGI program. It names the file. */
  lemma LookupForbidden(uri: string, fs: FileSystem)
    requires |uri| > 0
    ensures var t := ParseUri(uri);
      (Lookup(uri, fs).Refuse? && Lookup(uri, fs).errnum == "403")
      <==> (t.filename in fs
            && (if t.isStatic then !fs[t.filename].isRegular || !fs[t.filename].ownerRead
                else !fs[t.filename].isRegular || !fs[t.filename].ownerExec))
    ensures var o := Lookup(uri, fs);
      o.Refuse? && o.errnum == "403" ==> o.cause == ParseUri(uri).filename
  {
  }

  /** A file is served exactly when the URI names static content and stat
      finds a regular file its owner may read; it is served whole. */
  lemma LookupServesFile(uri: string, fs: FileSystem)
    requires |uri| > 0
    ensures var t := ParseUri(uri);
      Lookup(uri, fs).ServeFile?
      <==> (t.isStatic && t.filename in fs && fs[t.filename].isRegular && fs[t.filename].ownerRead)
    ensures var t := ParseUri(uri);
      Lookup(uri, fs).ServeFile? ==> Lookup(uri, fs) == ServeFile(t.filename, |fs[t.filename].data|)
  {
  }

  /** A CGI program is run exactly when the URI names dynamic content and stat
      finds a regular file its owner may execute; it gets the arguments
      parse_uri split off. */
  lemma LookupRunsProgram(uri: string, fs: FileSystem)
    requires |uri| > 0
    ensures var t := ParseUri(uri);
      Lookup(uri, fs).RunProgram?
      <==> (!t.isStatic && t.filename in fs && fs[t.filename].isRegular && fs[t.filename].ownerExec)
    ensures var t := ParseUri(uri);
      Lookup(uri, fs).RunProgram? ==> Lookup(uri, fs) == RunProgram(t.filename, t.cgiargs)
  {
  }

  /** The status line of the response to an outcome (section 6.1 of
      RFC 1945: version, status code, reason phrase). */
  function StatusLine(o: Outcome): (l: string)
    ensures |l| >= 9 && l[..9] == "HTTP/1.0 "
  {
    match o
    case Refuse(_, errnum, shortmsg, _) => "HTTP/1.0 " + errnum + " " + shortmsg
    case ServeFile(_, _) => "HTTP/1.0 200 OK"
    case RunProgram(_, _) => "HTTP/1.0 200 PF"
  }

  /** Every response doit writes opens with the status line of its outcome
      and CR LF. */
  lemma ResponseOpensWithStatus(ws: seq<string>, fs: FileSystem)
    requires |ws| >= 1 && (IsGetOrHead(ws[0]) ==> |ws| >= 2 && |ws[1]| > 0)
    ensures var r := Response(ws, fs);
            var l := StatusLine(Decide(ws, fs)) + CrLf;
      |l| <= |r| && r[..|l|] == l
  {
    var o := Decide(ws, fs);
    match o
    case Refuse(cause, errnum, shortmsg, longmsg) =>
      var body := ErrorBody(cause, errnum, shortmsg, longmsg);
      FirstLineOpens(ErrorHeadLines(errnum, shortmsg, |body|), body);
    case ServeFile(filename, filesize) =>
      var data := fs[filename].data;
      FirstLineOpens(StaticHeadLines(GetFiletype(filename), filesize),
        if IsHead(ws[0]) then "" else data[..filesize]);
    case RunProgram(_, _) =>
      FirstLineOpens(DynamicHeadLines, "");
      assert DynamicPrefix() + "" == DynamicPrefix();
  }

  /** A request line written as `method SP uri SP version CR LF` is read by
      sscanf as exactly its three fields. */
  lemma RequestFieldsOfLine(m: string, u: string, v: string)
    requires IsWord(m) && IsWord(u) && IsWord(v)
    requires NoNul(m) && NoNul(u) && NoNul(v)
    ensures RequestFields(m + " " + u + " " + v + "\r\n") == [m, u, v]
    ensures ReadableRequestLine(m + " " + u + " " + v + "\r\n")
  {
    var line := m + " " + u + " " + v + "\r\n";
    assert NoNul(line);
    RequestLineFields(m, u, v);
  }

  /** The example of a video: "GET /cat.mp4" with a readable 12345-byte
      regular file at ./cat.mp4 serves the whole file, as video/mp4. */
  lemma ExampleCatVideo(ws: seq<string>, fs: FileSystem, data: seq<char>)
    requires ws == ["GET", "/cat.mp4", "HTTP/1.1"] && |data| == 12345
    requires fs == map["./cat.mp4" := File(true, true, false, data)]
    ensures Decide(ws, fs) == ServeFile("./cat.mp4", 12345)
    ensures Response(ws, fs) == StaticResponse("./cat.mp4", 12345, "GET", data)
    ensures GetFiletype("./cat.mp4") == "video/mp4"
  {
    var uri := ws[1];
    forall i | 0 <= i <= |uri|
      ensures !OccursAt(uri, CgiMarker, i)
    {
      if i + 7 <= |uri| {
        assert uri[i..i + 7][0] == uri[i] && uri[i..i + 7][1] == uri[i + 1];
      }
    }
    ParseUriStatic(uri);
    assert ParseUri(uri).filename == "./cat.mp4";
    CatIsVideo("./cat.mp4");
  }

  /** The example of the CGI adder: "GET /cgi-bin/adder?15&20" with an
      executable regular file at ./cgi-bin/adder runs it with the arguments
      "15&20"; the server itself writes only its two opening lines. */
  lemma ExampleAdder(ws: seq<string>, fs: FileSystem, program: seq<char>)
    requires ws == ["GET", "/cgi-bin/adder?15&20", "HTTP/1.0"]
    requires fs == map["./cgi-bin/adder" := File(true, true, true, program)]
    ensures Decide(ws, fs) == RunProgram("./cgi-bin/adder", "15&20")
    ensures Response(ws, fs) == "HTTP/1.0 200 PF\r\n" + "Server: Tiny Web Server\r\n"
  {
    ParseUriAdder(ws[1]);
    DynamicPrefixSpelled();
  }

  // ---------------------------------------------------------------------------
  // The connection

  class Connection {
    /** The lines the client sends, each as Rio_readlineb hands it over. */
    const input: seq<string>
    /** How many lines have been read. */
    var pos: nat
    /** The bytes written to the client so far. */
    var output: string

    predicate Valid()
      reads this
    {
      pos <= |input|
    }

    constructor (input: seq<string>)
      ensures Valid() && this.input == input && pos == 0 && output == []
    {
      this.input := input;
      pos := 0;
      output := [];
    }

    /** Rio_readlineb: the next line. At the end of the input nothing is
        consumed and the model gives "", where the real call leaves the
        buffer as it was; Doit's precondition keeps every call short of it. */
    method ReadLine() returns (buf: string)
      requires Valid()
      modifies this`pos
      ensures Valid()
      ensures buf == LineAt(input, old(pos))
      ensures pos == if old(pos) < |input| then old(pos) + 1 else old(pos)
    {
      buf := LineAt(input, pos);
      if pos < |input| {
        pos := pos + 1;
      }
    }

    /** Rio_writen(fd, buf, strlen(buf)) for a buffer that sprintf filled:
        the whole string, since sprintf leaves no NUL inside it. */
    method WriteString(buf: string)
      requires NoNul(buf)
      modifies this`output
      ensures output == old(output) + buf
    {
      output := output + CStr(buf);
    }

    /** Rio_writen(fd, p, n) for `n` bytes at `p`, NUL bytes included. */
    method WriteBytes(bytes: seq<char>)
      modifies this`output
      ensures output == old(output) + bytes
    {
      output := output + bytes;
    }

    /** clienterror: builds the page, then writes the head line by line and
        the page after it. */
    method ClientError(cause: string, errnum: string, shortmsg: string, longmsg: string)
      requires NoNul(cause) && NoNul(errnum) && NoNul(shortmsg) && NoNul(longmsg)
      modifies this`output
      ensures output == old(output) + ErrorPage(cause, errnum, shortmsg, longmsg)
    {
      var body := "<html><title>Tiny Error</title>";
      body := body + "<body bgcolor=ffffff>\r\n";
      body := body + errnum + ":" + shortmsg + "\r\n";
      body := body + "<p>" + longmsg + ": " + cause + "\r\n";
      body := body + "<hr><em>The Tiny Web server</em>\r\n";
      assert body == ErrorBody(cause, errnum, shortmsg, longmsg);
      ErrorWrites(cause, errnum, shortmsg, longmsg);
      ghost var start := output;

      var buf := "HTTP/1.0 " + errnum + " " + shortmsg + "\r\n";
      ghost var status := buf;
      WriteString(buf);
      buf := "Content-type:text/html\r\n";
      ghost var ctype := buf;
      WriteString(buf);
      buf := "Content-length:" + Decimal(Strlen(body)) + "\r\n\r\n";
      WriteString(buf);
      WriteString(body);
      AppendFour(start, status, ctype, buf, body);
    }

    /** read_requesthdrs: reads lines up to and including the first one that
        is exactly CR LF. It stops nowhere else, so such a line must come. */
    method ReadRequestHeaders()
      requires Valid() && HasBlankLineFrom(input, pos)
      modifies this`pos
      ensures Valid()
      ensures pos == HeaderEnd(input, old(pos)) + 1
    {
      ghost var e := HeaderEnd(input, pos);
      var buf := ReadLine();
      while CStr(buf) != CrLf
        invariant Valid()
        invariant old(pos) < pos <= e + 1
        invariant buf == input[pos - 1]
        decreases e + 1 - pos
      {
        buf := ReadLine();
      }
    }

    /** serve_static: writes the head, then, unless the method is HEAD, the
        first `filesize` bytes of the file. */
    method ServeStatic(filename: string, filesize: nat, requestMethod: string, fs: FileSystem)
      requires filename in fs && filesize <= |fs[filename].data|
      modifies this`output
      ensures output == old(output) + StaticResponse(filename, filesize, requestMethod, fs[filename].data)
    {
      var filetype := GetFiletype(filename);
      var buf := "HTTP/1.0 200 OK\r\n";
      buf := buf + "Server: Tiny Web Server\r\n";
      buf := buf + "Connection: close\r\n";
      buf := buf + "Content-length: " + Decimal(filesize) + "\r\n";
      buf := buf + "Content-type: " + filetype + "\r\n\r\n";
      StaticWrites(filetype, filesize);
      ghost var head := Head(StaticHeadLines(filetype, filesize));
      assert buf == head;
      WriteString(buf);

      if IsHead(requestMethod) {
        assert head + "" == head;
        return;
      }
      var srcp := fs[filename].data[..filesize];
      WriteBytes(srcp);
    }

    /** serve_dynamic, up to the point where it starts the CGI program. */
    method ServeDynamic(filename: string, cgiargs: string, requestMethod: string)
      modifies this`output
      ensures output == old(output) + DynamicPrefix()
    {
      var buf := "HTTP/1.0 200 PF\r\n";
      WriteString(buf);
      buf := "Server: Tiny Web Server\r\n";
      WriteString(buf);
      DynamicPrefixSpelled();
    }

    /** doit: one transaction. */
    method Doit(fs: FileSystem)
      requires Valid() && ReadableRequestLine(LineAt(input, pos))
      requires IsGetOrHead(RequestFields(LineAt(input, pos))[0]) ==> HasBlankLineFrom(input, pos + 1)
      modifies this
      ensures Valid()
      ensures output == old(output) + Response(RequestFields(LineAt(input, old(pos))), fs)
      ensures pos == Consumed(input, old(pos))
    {
      ErrorTextsAreCStrings();
      ghost var ws := RequestFields(LineAt(input, pos));
      var buf := ReadLine();
      var fields := RequestFields(buf);
      assert fields == ws;
      var requestMethod := fields[0];
      if !IsGetOrHead(requestMethod) {
        assert pos == Consumed(input, old(pos));
        ClientError(requestMethod, "501", "Not implmented", NotImplementedText);
        return;
      }
      var uri := fields[1];
      ReadRequestHeaders();
      assert pos == Consumed(input, old(pos));
      Dispatch(requestMethod, uri, fs);
    }

    /** The second half of doit, from parse_uri on: the file is looked up,
        and served, run, or refused. */
    method Dispatch(requestMethod: string, uri: string, fs: FileSystem)
      requires |uri| > 0 && NoNul(uri) && NoNul(requestMethod)
      modifies this`output
      ensures output == old(output) + Written(Lookup(uri, fs), requestMethod, fs)
    {
      ErrorTextsAreCStrings();
      var t := ParseUri(uri);
      ParseUriNoNul(uri);
      var st := Stat(fs, t.filename);
      if st.None? {
        ClientError(t.filename, "404", "Not found", NotFoundText);
        return;
      }
      var sbuf := st.value;
      if t.isStatic {
        if !sbuf.isRegular || !sbuf.ownerRead {
          ClientError(t.filename, "403", "Forbidden", CannotReadText);
          return;
        }
        ServeStatic(t.filename, sbuf.size, requestMethod, fs);
      } else {
        if !sbuf.isRegular || !sbuf.ownerExec {
          ClientError(t.filename, "403", "Forbidden", CannotRunText);
          return;
        }
        ServeDynamic(t.filename, t.cgiargs, requestMethod);
      }
    }
  }

  /** The fixed texts doit hands to clienterror are C strings. */
  lemma ErrorTextsAreCStrings()
    ensures NoNul("501") && NoNul("Not implmented") && NoNul(NotImplementedText)
    ensures NoNul("404") && NoNul("Not found") && NoNul(NotFoundText)
    ensures NoNul("403") && NoNul("Forbidden") && NoNul(CannotReadText) && NoNul(CannotRunText)
  {
  }

  /** The four strings clienterror writes are C strings, the length it
      prints is the page's length, and together they make the error
      response. */
  lemma ErrorWrites(cause: string, errnum: string, shortmsg: string, longmsg: string)
    requires NoNul(cause) && NoNul(errnum) && NoNul(shortmsg) && NoNul(longmsg)
    ensures var body := ErrorBody(cause, errnum, shortmsg, longmsg);
            var status := "HTTP/1.0 " + errnum + " " + shortmsg + "\r\n";
            var length := "Content-length:" + Decimal(Strlen(body)) + "\r\n\r\n";
      && NoNul(status) && NoNul("Content-type:text/html\r\n") && NoNul(length) && NoNul(body)
      && Strlen(body) == |body|
      && ErrorPage(cause, errnum, shortmsg, longmsg)
         == status + "Content-type:text/html\r\n" + length + body
  {
    var body := ErrorBody(cause, errnum, shortmsg, longmsg);
    ErrorBodyIsCString(cause, errnum, shortmsg, longmsg);
    DecimalIsCString(|body|);
    ErrorResponseSpelled(errnum, shortmsg, body);
  }

  /** The head serve_static builds is a C string, spelled as it is built. */
  lemma StaticWrites(filetype: string, filesize: nat)
    requires filetype in MimeTypes
    ensures var head := Head(StaticHeadLines(filetype, filesize));
      && NoNul(head)
      && head == "HTTP/1.0 200 OK\r\n" + "Server: Tiny Web Server\r\n" + "Connection: close\r\n"
                 + "Content-length: " + Decimal(filesize) + "\r\n"
                 + "Content-type: " + filetype + "\r\n\r\n"
  {
    StaticHeadSpelled(filetype, filesize);
    var ls := StaticHeadLines(filetype, filesize);
    DecimalIsCString(filesize);
    MimeTypeIsCString(filetype);
    assert NoNul(ls[3]) && NoNul(ls[4]);
    HeadIsCString(ls);
  }

  /** Head lines that are C strings make a head that is a C string. */
  lemma {:induction false} HeadIsCString(ls: seq<string>)
    requires forall k :: 0 <= k < |ls| ==> NoNul(ls[k])
    ensures NoNul(Lines(ls)) && NoNul(Head(ls))
  {
    if ls != [] {
      HeadIsCString(ls[1..]);
    }
  }

  /** Writing four strings one after another writes their concatenation. */
  lemma AppendFour(start: string, a: string, b: string, c: string, d: string)
    ensures start + a + b + c + d == start + (a + b + c + d)
  {
  }

  /** A numeral is a C string. */
  lemma DecimalIsCString(n: nat)
    ensures NoNul(Decimal(n))
  {
    var d := Decimal(n);
    forall i | 0 <= i < |d|
      ensures d[i] != '\0'
    {
      assert IsDigit(d[i]);
    }
  }

  /** Every type get_filetype gives is a C string. */
  lemma MimeTypeIsCString(ft: string)
    requires ft in MimeTypes
    ensures NoNul(ft)
  {
  }
}
