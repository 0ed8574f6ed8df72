/** HTTP/1.0 response framing (section 6 of RFC 1945): a head made of lines
    that each end in CR LF, an empty line, then the body. The functions
    here are the server's way of writing a head and a client's way of
    reading one back; the lemmas say that the two agree. */
module Http {
  import opened CLib

  const CrLf: string := "\r\n"
  const EmptyLine: string := "\r\n\r\n"

  /** A head line: non-empty, and neither CR nor LF inside it. */
  predicate IsHeadLine(l: string) {
    |l| > 0 && '\r' !in l && '\n' !in l
  }

  /** The head lines, each followed by CR LF. */
  function Lines(ls: seq<string>): (r: string)
    ensures ls != [] ==> |r| >= |ls[0]| + 2
  {
    if ls == [] then "" else ls[0] + CrLf + Lines(ls[1..])
  }

  /** A complete response head: its lines, then the empty line. */
  function Head(ls: seq<string>): string {
    Lines(ls) + CrLf
  }

  /** Head lines as they go on the wire, for the short heads tiny.c writes. */
  lemma LinesOfTwo(a: string, b: string)
    ensures Lines([a, b]) == a + CrLf + b + CrLf
  {
    assert [a, b][1..] == [b];
    assert [b][1..] == [];
    assert Lines([b]) == b + CrLf + Lines([]);
    assert Lines([a, b]) == a + CrLf + Lines([b]);
  }

  lemma LinesOfThree(a: string, b: string, c: string)
    ensures Lines([a, b, c]) == a + CrLf + b + CrLf + c + CrLf
  {
    assert [a, b, c][1..] == [b, c];
    LinesOfTwo(b, c);
  }

  lemma LinesOfFive(a: string, b: string, c: string, d: string, e: string)
    ensures Lines([a, b, c, d, e]) == a + CrLf + b + CrLf + c + CrLf + d + CrLf + e + CrLf
  {
    assert [a, b, c, d, e][1..] == [b, c, d, e];
    assert [b, c, d, e][1..] == [c, d, e];
    LinesOfThree(c, d, e);
  }

  /** The first head line, with its CR LF, opens whatever is written from
      the head lines on, and so opens a complete head and what follows it. */
  lemma FirstLineOpens(ls: seq<string>, rest: string)
    requires |ls| > 0
    ensures |ls[0]| + 2 <= |Lines(ls) + rest|
    ensures (Lines(ls) + rest)[..|ls[0]| + 2] == ls[0] + CrLf
    ensures (Head(ls) + rest)[..|ls[0]| + 2] == ls[0] + CrLf
  {
    assert Lines(ls) + rest == ls[0] + CrLf + (Lines(ls[1..]) + rest);
    assert Head(ls) + rest == ls[0] + CrLf + (Lines(ls[1..]) + CrLf + rest);
  }

  /** Head lines alone, with no empty line after them, never hold an empty
      line: the head is still open. */
  lemma OpenHead(ls: seq<string>)
    requires |ls| > 0 && forall k :: 0 <= k < |ls| ==> IsHeadLine(ls[k])
    ensures !Contains(Lines(ls), EmptyLine)
  {
    NoEmptyLineWithin(ls, "");
    assert Lines(ls) + "" == Lines(ls);
  }

  /** Head lines written first and head lines written later make one head:
      the earlier part is still open, and the empty line after the later
      part ends the whole. */
  lemma HeadInTwoParts(first: seq<string>, later: seq<string>, body: string)
    requires |first| > 0
    requires forall k :: 0 <= k < |first| ==> IsHeadLine(first[k])
    requires forall k :: 0 <= k < |later| ==> IsHeadLine(later[k])
    ensures !Contains(Lines(first), EmptyLine)
    ensures BodyStart(Lines(first) + Head(later) + body) == Some(|Lines(first) + Head(later)|)
  {
    OpenHead(first);
    var both := first + later;
    AllHeadLines(first, later);
    HeadThenBody(both, body);
    LinesAppend(first, later);
    Regroup(Lines(first), Lines(later), body);
    var r := Lines(first) + Head(later) + body;
    assert r == Head(both) + body;
    assert BodyStart(r) == Some(|Head(both)|);
  }

  lemma Regroup(a: string, b: string, body: string)
    ensures a + (b + CrLf) + body == (a + b) + CrLf + body
  {
  }

  lemma AllHeadLines(first: seq<string>, later: seq<string>)
    requires forall k :: 0 <= k < |first| ==> IsHeadLine(first[k])
    requires forall k :: 0 <= k < |later| ==> IsHeadLine(later[k])
    ensures forall k :: 0 <= k < |first + later| ==> IsHeadLine((first + later)[k])
  {
    forall k | 0 <= k < |first + later|
      ensures IsHeadLine((first + later)[k])
    {
      if k >= |first| { assert (first + later)[k] == later[k - |first|]; }
    }
  }

  lemma {:induction false} LinesAppend(a: seq<string>, b: seq<string>)
    ensures Lines(a + b) == Lines(a) + Lines(b)
  {
    if a != [] {
      assert (a + b)[1..] == a[1..] + b;
      LinesAppend(a[1..], b);
    } else {
      assert a + b == b;
    }
  }

  /** Where a client finds the body of response `r`: just after the first
      CR LF CR LF. */
  function BodyStart(r: string): (b: Option<nat>)
    ensures b.Some? ==> 4 <= b.value <= |r| && r[b.value - 4..b.value] == EmptyLine
    ensures b.Some? ==> forall j :: 0 <= j < b.value - 4 ==> !OccursAt(r, EmptyLine, j)
    ensures b.None? <==> !Contains(r, EmptyLine)
  {
    match Strstr(r, EmptyLine)
    case Some(i) => Some(i + 4)
    case None => None
  }

  /** The empty line ends the head: it is not found any earlier, whatever
      follows the head. */
  lemma HeadThenBody(ls: seq<string>, body: string)
    requires |ls| > 0 && forall k :: 0 <= k < |ls| ==> IsHeadLine(ls[k])
    ensures BodyStart(Head(ls) + body) == Some(|Head(ls)|)
  {
    var r := Head(ls) + body;
    var n := |Lines(ls)|;
    assert r == Lines(ls) + (CrLf + body);
    NoEmptyLineWithin(ls, CrLf + body);
    LastLineEnd(ls);
    assert r[n - 2..n + 2] == EmptyLine;
    assert OccursAt(r, EmptyLine, n - 2);
  }

  /** The head lines end in CR LF. */
  lemma {:induction false} LastLineEnd(ls: seq<string>)
    requires |ls| > 0
    ensures var s := Lines(ls); s[|s| - 2..] == CrLf
  {
    if |ls| > 1 {
      LastLineEnd(ls[1..]);
      var t := Lines(ls[1..]);
      assert Lines(ls)[|Lines(ls)| - 2..] == t[|t| - 2..];
    }
  }

  /** Within the head lines, nothing but the final CR LF can start an empty
      line, whatever follows them. */
  lemma {:induction false} NoEmptyLineWithin(ls: seq<string>, rest: string)
    requires |ls| > 0 && forall k :: 0 <= k < |ls| ==> IsHeadLine(ls[k])
    ensures forall j :: 0 <= j < |Lines(ls)| - 2 ==> !OccursAt(Lines(ls) + rest, EmptyLine, j)
  {
    var l := ls[0];
    var tail := Lines(ls[1..]);
    var r := Lines(ls) + rest;
    var r' := tail + rest;
    assert r == l + CrLf + r';
    assert |Lines(ls)| == |l| + 2 + |tail|;
    if |ls| > 1 {
      NoEmptyLineWithin(ls[1..], rest);
    }
    forall j | 0 <= j < |Lines(ls)| - 2
      ensures !OccursAt(r, EmptyLine, j)
    {
      if j < |l| {
        assert r[j] == l[j] && l[j] in l;
        NotEmptyLineAt(r, j);
      } else if j == |l| {
        assert ls[1..][0] == ls[1];
        assert IsHeadLine(ls[1]);
        assert r[j + 2] == ls[1][0] && ls[1][0] in ls[1];
        NotEmptyLineAt(r, j);
      } else if j == |l| + 1 {
        NotEmptyLineAt(r, j);
      } else {
        var j' := j - |l| - 2;
        assert j' < |tail| - 2;
        if j + 4 <= |r| {
          assert !OccursAt(r', EmptyLine, j');
          assert r[|l| + 2..] == r';
          assert r[j..j + 4] == r[|l| + 2..][j'..j' + 4];
        } else {
          NotEmptyLineAt(r, j);
        }
      }
    }
  }

  /** An empty line cannot start where the first three characters differ
      from CR LF CR. */
  lemma NotEmptyLineAt(r: string, j: nat)
    requires j + 4 > |r| || r[j] != '\r' || r[j + 1] != '\n' || r[j + 2] != '\r'
    ensures !OccursAt(r, EmptyLine, j)
  {
    if j + 4 <= |r| {
      assert r[j..j + 4][0] == r[j] && r[j..j + 4][1] == r[j + 1] && r[j..j + 4][2] == r[j + 2];
    }
  }

  // ---------------------------------------------------------------------------
  // Reading Content-length

  const ContentLengthName: string := "Content-length:"

  /** Blanks (SP, HT) that may precede a header value. */
  function SkipBlanks(s: string): (r: string)
    ensures |r| <= |s| && r == s[|s| - |r|..]
    ensures r != [] ==> r[0] != ' ' && r[0] != '\t'
  {
    if s != [] && (s[0] == ' ' || s[0] == '\t') then SkipBlanks(s[1..]) else s
  }

  /** The head line names the Content-length header (names are compared
      without regard to case). */
  predicate IsContentLengthLine(l: string) {
    |l| >= |ContentLengthName| && EqualsIgnoreCase(l[..|ContentLengthName|], ContentLengthName)
  }

  /** The length a client reads from the first Content-length line among
      the head lines, if that line carries a decimal number. */
  function ContentLength(ls: seq<string>): Option<nat> {
    if ls == [] then None
    else if IsContentLengthLine(ls[0]) then
      var v := SkipBlanks(ls[0][|ContentLengthName|..]);
      if v != [] && forall i :: 0 <= i < |v| ==> IsDigit(v[i]) then Some(ParseDecimal(v)) else None
    else ContentLength(ls[1..])
  }

  /** A Content-length line written with `%d`, after any number of blanks,
      is read back as the number written. */
  lemma ContentLengthLineValue(blanks: string, n: nat)
    requires forall i :: 0 <= i < |blanks| ==> blanks[i] == ' '
    ensures ContentLength([ContentLengthName + blanks + Decimal(n)]) == Some(n)
  {
    var l := ContentLengthName + blanks + Decimal(n);
    assert l[..|ContentLengthName|] == ContentLengthName;
    EqualsIgnoreCaseItself(ContentLengthName);
    assert l[|ContentLengthName|..] == blanks + Decimal(n);
    SkipLeadingBlanks(blanks, Decimal(n));
    DecimalRoundTrip(n);
  }

  lemma {:induction false} SkipLeadingBlanks(blanks: string, v: string)
    requires forall i :: 0 <= i < |blanks| ==> blanks[i] == ' '
    requires v != [] && IsDigit(v[0])
    ensures SkipBlanks(blanks + v) == v
  {
    if blanks != [] {
      assert (blanks + v)[1..] == blanks[1..] + v;
      SkipLeadingBlanks(blanks[1..], v);
    }
  }

  /** The first Content-length line, at index `k`, decides what a client
      reads. */
  lemma {:induction false} ContentLengthAt(ls: seq<string>, k: nat, blanks: string, n: nat)
    requires k < |ls| && ls[k] == ContentLengthName + blanks + Decimal(n)
    requires forall i :: 0 <= i < |blanks| ==> blanks[i] == ' '
    requires forall j :: 0 <= j < k ==> !IsContentLengthLine(ls[j])
    ensures ContentLength(ls) == Some(n)
  {
    if k == 0 {
      ContentLengthLineValue(blanks, n);
      assert ls == [ls[0]] + ls[1..];
      ContentLengthFirst(ls[0], ls[1..]);
    } else {
      ContentLengthAt(ls[1..], k - 1, blanks, n);
    }
  }

  /** A line whose name differs from Content-length at one of its first
      fifteen characters, case aside, is some other header. */
  lemma NotContentLengthLine(l: string, i: nat)
    requires i < |ContentLengthName| && (|l| < |ContentLengthName| || ToLower(l[i]) != ToLower(ContentLengthName[i]))
    ensures !IsContentLengthLine(l)
  {
    if |l| >= |ContentLengthName| {
      assert l[..|ContentLengthName|][i] == l[i];
    }
  }

  /** The Content-length line found first wins. */
  lemma ContentLengthFirst(l: string, ls: seq<string>)
    requires IsContentLengthLine(l)
    ensures ContentLength([l] + ls) == ContentLength([l])
  {
  }
}
