/** The bytes tiny.c writes back: the error page of clienterror, the head
    and body of serve_static, and the two lines serve_dynamic writes before
    it hands the connection to a CGI program. Each is given as a head (a list
    of head lines) and a body; the lemmas say what a client reading the
    response finds in it. */
module TinyResponse {
  import opened CLib
  import opened Http
  import opened TinyParse

  // ---------------------------------------------------------------------------
  // clienterror

  /** The HTML page clienterror builds. The C source writes the colour as
      three adjacent string literals, so no quotes reach the page. */
  function ErrorBody(cause: string, errnum: string, shortmsg: string, longmsg: string): string {
    "<html><title>Tiny Error</title>"
    + "<body bgcolor=ffffff>\r\n"
    + errnum + ":" + shortmsg + "\r\n"
    + "<p>" + longmsg + ": " + cause + "\r\n"
    + "<hr><em>The Tiny Web server</em>\r\n"
  }

  /** The head lines of an error response whose body has `length` bytes. */
  function ErrorHeadLines(errnum: string, shortmsg: string, length: nat): seq<string> {
    ["HTTP/1.0 " + errnum + " " + shortmsg, "Content-type:text/html", ContentLengthName + Decimal(length)]
  }

  /** An error response around `body`: the head, with Content-length taken
      from the body, then the body. */
  function ErrorResponse(errnum: string, shortmsg: string, body: string): string {
    Head(ErrorHeadLines(errnum, shortmsg, |body|)) + body
  }

  /** Everything clienterror writes: the error response around its page. */
  function ErrorPage(cause: string, errnum: string, shortmsg: string, longmsg: string): string {
    ErrorResponse(errnum, shortmsg, ErrorBody(cause, errnum, shortmsg, longmsg))
  }

  /** The bytes of an error response, in the order clienterror writes them:
      status line, content type, Content-length with the blank line that
      ends the head, then the page. */
  lemma ErrorResponseSpelled(errnum: string, shortmsg: string, body: string)
    ensures ErrorResponse(errnum, shortmsg, body)
      == ("HTTP/1.0 " + errnum + " " + shortmsg + "\r\n")
         + "Content-type:text/html\r\n"
         + ("Content-length:" + Decimal(|body|) + "\r\n\r\n")
         + body
  {
    var status := "HTTP/1.0 " + errnum + " " + shortmsg;
    var d := Decimal(|body|);
    HeadOfThree(status, "Content-type:text/html", ContentLengthName + d, body);
    ErrorHeadJoins(d);
  }

  /** A three-line head, then a body, as the three writes of its lines (the
      last one with the empty line) and the body. */
  lemma HeadOfThree(a: string, b: string, c: string, body: string)
    ensures Head([a, b, c]) + body == (a + CrLf) + (b + CrLf) + (c + CrLf + CrLf) + body
  {
    LinesOfThree(a, b, c);
  }

  /** The string constants of clienterror, split where the head lines end. */
  lemma ErrorHeadJoins(d: string)
    ensures "Content-type:text/html" + CrLf == "Content-type:text/html\r\n"
    ensures ContentLengthName + d + CrLf + CrLf == "Content-length:" + d + "\r\n\r\n"
  {
  }

  /** The body of a page built from C strings is a C string itself, so the
      strlen that clienterror uses for its length is the body's length. */
  lemma ErrorBodyIsCString(cause: string, errnum: string, shortmsg: string, longmsg: string)
    requires NoNul(cause) && NoNul(errnum) && NoNul(shortmsg) && NoNul(longmsg)
    ensures Strlen(ErrorBody(cause, errnum, shortmsg, longmsg)) == |ErrorBody(cause, errnum, shortmsg, longmsg)|
  {
    var body := ErrorBody(cause, errnum, shortmsg, longmsg);
    assert NoNul(body);
    StrlenOfCString(body);
  }

  /** A client reading an error response finds the end of the head just
      where the server put it, a Content-length equal to the length of what
      follows, and the page as the body. */
  lemma ErrorResponseFraming(errnum: string, shortmsg: string, body: string)
    requires '\r' !in errnum + shortmsg && '\n' !in errnum + shortmsg
    ensures var r := ErrorResponse(errnum, shortmsg, body);
      && BodyStart(r) == Some(|r| - |body|)
      && r[|r| - |body|..] == body
      && ContentLength(ErrorHeadLines(errnum, shortmsg, |body|)) == Some(|body|)
  {
    var ls := ErrorHeadLines(errnum, shortmsg, |body|);
    var head := Head(ls);
    var r := head + body;
    assert ErrorResponse(errnum, shortmsg, body) == r;
    assert BodyStart(r) == Some(|head|) by {
      ErrorHeadLinesOk(errnum, shortmsg, |body|);
      HeadThenBody(ls, body);
    }
    assert r[|head|..] == body;
    ErrorContentLength(errnum, shortmsg, |body|);
  }

  /** A client reading an error response first finds the status line it
      names: version, status code and reason phrase. */
  lemma ErrorResponseOpens(errnum: string, shortmsg: string, body: string)
    ensures var r := ErrorResponse(errnum, shortmsg, body);
      r[..|errnum| + |shortmsg| + 12] == "HTTP/1.0 " + errnum + " " + shortmsg + "\r\n"
  {
    ErrorStatusLine(errnum, shortmsg, |body|);
    FirstLineOpens(ErrorHeadLines(errnum, shortmsg, |body|), body);
  }

  /** The status line of an error response, with its CR LF. */
  lemma ErrorStatusLine(errnum: string, shortmsg: string, n: nat)
    ensures var l := ErrorHeadLines(errnum, shortmsg, n)[0];
      |l| + 2 == |errnum| + |shortmsg| + 12 && l + CrLf == "HTTP/1.0 " + errnum + " " + shortmsg + "\r\n"
  {
  }

  lemma ErrorHeadLinesOk(errnum: string, shortmsg: string, n: nat)
    requires '\r' !in errnum + shortmsg && '\n' !in errnum + shortmsg
    ensures forall k :: 0 <= k < 3 ==> IsHeadLine(ErrorHeadLines(errnum, shortmsg, n)[k])
  {
    var ls := ErrorHeadLines(errnum, shortmsg, n);
    forall i | 0 <= i < |ls[0]|
      ensures ls[0][i] != '\r' && ls[0][i] != '\n'
    {
      if 9 <= i < 9 + |errnum| {
        assert ls[0][i] == (errnum + shortmsg)[i - 9];
      } else if i >= 10 + |errnum| {
        assert ls[0][i] == (errnum + shortmsg)[i - 10];
      }
    }
    assert ls[2][15..] == Decimal(n);
    forall i | 0 <= i < |ls[2]|
      ensures ls[2][i] != '\r' && ls[2][i] != '\n'
    {
      if i >= 15 {
        assert ls[2][i] == Decimal(n)[i - 15];
      }
    }
  }

  /** The error head carries one Content-length line, holding `n`. */
  lemma ErrorContentLength(errnum: string, shortmsg: string, n: nat)
    ensures ContentLength(ErrorHeadLines(errnum, shortmsg, n)) == Some(n)
  {
    var ls := ErrorHeadLines(errnum, shortmsg, n);
    NotContentLengthLine(ls[0], 0);
    NotContentLengthLine(ls[1], 8);
    ContentLengthAt(ls, 2, "", n);
  }

  /** The page shows the status code, both messages and the cause verbatim
      (the cause is echoed unescaped). */
  lemma ErrorBodyEchoes(cause: string, errnum: string, shortmsg: string, longmsg: string)
    ensures var body := ErrorBody(cause, errnum, shortmsg, longmsg);
      && Contains(body, errnum) && Contains(body, shortmsg)
      && Contains(body, longmsg) && Contains(body, cause)
  {
    var body := ErrorBody(cause, errnum, shortmsg, longmsg);
    var a := |"<html><title>Tiny Error</title>" + "<body bgcolor=ffffff>\r\n"|;
    var b := a + |errnum| + 1;
    var c := b + |shortmsg| + 2 + 3;
    var d := c + |longmsg| + 2;
    assert body[a..a + |errnum|] == errnum;
    assert OccursAt(body, errnum, a);
    assert body[b..b + |shortmsg|] == shortmsg;
    assert OccursAt(body, shortmsg, b);
    assert body[c..c + |longmsg|] == longmsg;
    assert OccursAt(body, longmsg, c);
    assert body[d..d + |cause|] == cause;
    assert OccursAt(body, cause, d);
  }

  // ---------------------------------------------------------------------------
  // serve_static

  /** strcasecmp(method, "HEAD") == 0 */
  predicate IsHead(requestMethod: string) {
    EqualsIgnoreCase(requestMethod, "HEAD")
  }

  /** The head lines serve_static writes for a file of `filesize` bytes. */
  function StaticHeadLines(filetype: string, filesize: nat): seq<string> {
    [ "HTTP/1.0 200 OK",
      "Server: Tiny Web Server",
      "Connection: close",
      ContentLengthName + " " + Decimal(filesize),
      "Content-type: " + filetype ]
  }

  /** Everything serve_static writes: the head, then, unless the method is
      HEAD, the first `filesize` bytes of the file. */
  function StaticResponse(filename: string, filesize: nat, requestMethod: string, data: seq<char>): string
    requires filesize <= |data|
  {
    Head(StaticHeadLines(GetFiletype(filename), filesize))
    + (if IsHead(requestMethod) then "" else data[..filesize])
  }

  /** The bytes of the head serve_static writes, in order. */
  lemma StaticHeadSpelled(filetype: string, filesize: nat)
    ensures Head(StaticHeadLines(filetype, filesize))
      == "HTTP/1.0 200 OK\r\n" + "Server: Tiny Web Server\r\n" + "Connection: close\r\n"
         + "Content-length: " + Decimal(filesize) + "\r\n"
         + "Content-type: " + filetype + "\r\n\r\n"
  {
    LinesOfFive("HTTP/1.0 200 OK", "Server: Tiny Web Server", "Connection: close",
      ContentLengthName + " " + Decimal(filesize), "Content-type: " + filetype);
  }

  /** A client reading a static response finds the head where the server
      ended it, a Content-length of `filesize`, the type get_filetype gives
      the name, and after the head exactly the file's first `filesize` bytes,
      or nothing at all for HEAD. */
  lemma StaticFraming(filename: string, filesize: nat, requestMethod: string, data: seq<char>)
    requires filesize <= |data|
    ensures var ls := StaticHeadLines(GetFiletype(filename), filesize);
            var r := StaticResponse(filename, filesize, requestMethod, data);
      && BodyStart(r) == Some(|Head(ls)|)
      && r[|Head(ls)|..] == (if IsHead(requestMethod) then [] else data[..filesize])
      && ContentLength(ls) == Some(filesize)
      && ls[4] == "Content-type: " + GetFiletype(filename)
  {
    var ft := GetFiletype(filename);
    var ls := StaticHeadLines(ft, filesize);
    StaticHeadLinesOk(ft, filesize);
    HeadThenBody(ls, if IsHead(requestMethod) then [] else data[..filesize]);
    StaticContentLength(ft, filesize);
  }

  lemma StaticHeadLinesOk(ft: string, filesize: nat)
    requires ft in MimeTypes
    ensures forall k :: 0 <= k < 5 ==> IsHeadLine(StaticHeadLines(ft, filesize)[k])
  {
    var ls := StaticHeadLines(ft, filesize);
    var len := ls[3];
    assert len[16..] == Decimal(filesize);
    forall i | 0 <= i < |len|
      ensures len[i] != '\r' && len[i] != '\n'
    {
      if i >= 16 {
        assert len[i] == Decimal(filesize)[i - 16];
      }
    }
    assert '\r' !in ft && '\n' !in ft;
    forall i | 0 <= i < |ls[4]|
      ensures ls[4][i] != '\r' && ls[4][i] != '\n'
    {
      if i >= 14 {
        assert ls[4][i] == ft[i - 14] && ft[i - 14] in ft;
      }
    }
  }

  /** The static head carries one Content-length line, and it holds the size. */
  lemma StaticContentLength(ft: string, n: nat)
    ensures ContentLength(StaticHeadLines(ft, n)) == Some(n)
  {
    var ls := StaticHeadLines(ft, n);
    NotContentLengthLine(ls[0], 0);
    NotContentLengthLine(ls[1], 0);
    NotContentLengthLine(ls[2], 3);
    ContentLengthAt(ls, 3, " ", n);
  }

  /** HEAD gets the very head that GET gets, and nothing after it: the HEAD
      response is the GET response without its body. */
  lemma HeadIsGetWithoutBody(filename: string, filesize: nat, head: string, get: string, data: seq<char>)
    requires filesize <= |data| && IsHead(head) && !IsHead(get)
    ensures var g := StaticResponse(filename, filesize, get, data);
      && StaticResponse(filename, filesize, head, data) == g[..|g| - filesize]
      && g[|g| - filesize..] == data[..filesize]
  {
  }

  /** The example of a video: "./cat.mp4" is served as video/mp4. */
  lemma CatIsVideo(filename: string)
    requires filename == "./cat.mp4"
    ensures GetFiletype(filename) == "video/mp4"
  {
    assert OccursAt(filename, ".mp4", 5) by {
      assert filename[5..9] == ".mp4";
    }
    forall e, i | e in [".html", ".gif", ".png", ".jpg"] && 0 <= i <= |filename|
      ensures !OccursAt(filename, e, i)
    {
      if i + |e| <= |filename| {
        assert filename[i..i + |e|][1] == filename[i + 1];
        assert filename[i..i + |e|][2] == filename[i + 2];
      }
    }
  }

  // ---------------------------------------------------------------------------
  // serve_dynamic

  /** The lines serve_dynamic writes itself, before the CGI program runs. */
  const DynamicHeadLines: seq<string> := ["HTTP/1.0 200 PF", "Server: Tiny Web Server"]

  /** What serve_dynamic writes itself: a status line and the server banner. */
  function DynamicPrefix(): string {
    Lines(DynamicHeadLines)
  }

  /** The bytes serve_dynamic writes itself, in order. */
  lemma DynamicPrefixSpelled()
    ensures DynamicPrefix() == "HTTP/1.0 200 PF\r\n" + "Server: Tiny Web Server\r\n"
  {
    LinesOfTwo("HTTP/1.0 200 PF", "Server: Tiny Web Server");
  }

  /** The head is left open: the CGI program's output must finish it. If
      that output is head lines followed by an empty line and a body, a
      client finds exactly that body. */
  lemma DynamicFraming(cgiLines: seq<string>, body: string)
    requires forall k :: 0 <= k < |cgiLines| ==> IsHeadLine(cgiLines[k])
    ensures !Contains(DynamicPrefix(), EmptyLine)
    ensures BodyStart(DynamicPrefix() + Head(cgiLines) + body) == Some(|DynamicPrefix() + Head(cgiLines)|)
  {
    DynamicHeadLinesOk();
    HeadInTwoParts(DynamicHeadLines, cgiLines, body);
  }

  lemma DynamicHeadLinesOk()
    ensures forall k :: 0 <= k < |DynamicHeadLines| ==> IsHeadLine(DynamicHeadLines[k])
  {
  }
}
