/** The few C library routines that tiny.c leans on, stated on Dafny strings.
    A C `char` is modelled as a Dafny `char`; the bytes of a request line and
    of a served file are modelled the same way. */
module CLib {

  datatype Option<T> = None | Some(value: T)

  // ---------------------------------------------------------------------------
  // C strings

  /** A C string holds no NUL: the first NUL ends it. */
  predicate NoNul(s: string) {
    '\0' !in s
  }

  /** strlen: the number of characters before the first NUL. */
  function Strlen(s: string): (n: nat)
    ensures n <= |s|
    ensures forall i :: 0 <= i < n ==> s[i] != '\0'
    ensures n < |s| ==> s[n] == '\0'
  {
    if s == [] || s[0] == '\0' then 0 else 1 + Strlen(s[1..])
  }

  /** The C string that a buffer holding `s` denotes. */
  function CStr(s: string): (r: string)
    ensures NoNul(r) && r <= s
    ensures |r| < |s| ==> s[|r|] == '\0'
    ensures NoNul(s) ==> r == s
  {
    s[..Strlen(s)]
  }

  /** strlen of a C string is its length. */
  lemma StrlenOfCString(s: string)
    requires NoNul(s)
    ensures Strlen(s) == |s|
  {
    assert CStr(s) == s;
  }

  // ---------------------------------------------------------------------------
  // Character classes and case (the "C" locale)

  /** isspace: blank, tab, newline, vertical tab, form feed, carriage return. */
  predicate IsSpace(c: char) {
    c == ' ' || '\t' <= c <= '\r'
  }

  /** tolower */
  function ToLower(c: char): char {
    if 'A' <= c <= 'Z' then (c as int + 32) as char else c
  }

  /** strcasecmp(a, b) == 0, for C strings. */
  predicate EqualsIgnoreCase(a: string, b: string) {
    |a| == |b| && forall i :: 0 <= i < |a| ==> ToLower(a[i]) == ToLower(b[i])
  }

  lemma EqualsIgnoreCaseItself(a: string)
    ensures EqualsIgnoreCase(a, a)
  {
  }

  // ---------------------------------------------------------------------------
  // Searching: strstr and index

  /** `p` occurs in `s` starting at index `i`. */
  predicate OccursAt(s: string, p: string, i: int) {
    0 <= i && i + |p| <= |s| && s[i..i + |p|] == p
  }

  /** `p` is a substring of `s`. */
  predicate Contains(s: string, p: string) {
    exists i :: 0 <= i <= |s| && OccursAt(s, p, i)
  }

  /** What occurs in a suffix occurs in the whole. */
  lemma ContainsInSuffix(a: string, b: string, p: string)
    requires Contains(b, p)
    ensures Contains(a + b, p)
  {
    var i :| 0 <= i <= |b| && OccursAt(b, p, i);
    assert (a + b)[|a| + i..|a| + i + |p|] == b[i..i + |p|];
    assert OccursAt(a + b, p, |a| + i);
  }

  /** strstr: where `p` first occurs in `s`, if anywhere. */
  function Strstr(s: string, p: string): (r: Option<nat>)
    ensures r.Some? ==> OccursAt(s, p, r.value)
    ensures r.Some? ==> forall j :: 0 <= j < r.value ==> !OccursAt(s, p, j)
    ensures r.None? <==> !Contains(s, p)
  {
    StrstrFrom(s, p, 0)
  }

  /** The first occurrence of `p` in `s` at or after `from`. */
  function StrstrFrom(s: string, p: string, from: nat): (r: Option<nat>)
    requires from <= |s|
    ensures r.Some? ==> from <= r.value && OccursAt(s, p, r.value)
    ensures r.Some? ==> forall j :: from <= j < r.value ==> !OccursAt(s, p, j)
    ensures r.None? ==> forall j :: from <= j ==> !OccursAt(s, p, j)
    decreases |s| - from
  {
    if |s| < from + |p| then None
    else if s[from..from + |p|] == p then Some(from)
    else if from == |s| then None
    else StrstrFrom(s, p, from + 1)
  }

  /** index(s, c): where the character `c` first occurs in `s`, if anywhere. */
  function Index(s: string, c: char): (r: Option<nat>)
    ensures r.Some? ==> r.value < |s| && s[r.value] == c && c !in s[..r.value]
    ensures r.None? <==> c !in s
  {
    var r := Strstr(s, [c]);
    forall j | 0 <= j < |s|
      ensures OccursAt(s, [c], j) <==> s[j] == c
    {
      if s[j] == c { assert s[j..j + 1] == [c]; }
    }
    r
  }

  // ---------------------------------------------------------------------------
  // printf's %d for a non-negative int, and the reading a client gives it

  /** The digit character for 0 <= d < 10. */
  function Digit(d: nat): (c: char)
    requires d < 10
    ensures IsDigit(c)
  {
    ('0' as int + d) as char
  }

  predicate IsDigit(c: char) {
    '0' <= c <= '9'
  }

  /** The decimal numeral `%d` prints for `n`. */
  function Decimal(n: nat): (r: string)
    ensures |r| > 0 && forall i :: 0 <= i < |r| ==> IsDigit(r[i])
    ensures r[0] == '0' ==> n == 0
  {
    if n < 10 then [Digit(n)] else Decimal(n / 10) + [Digit(n % 10)]
  }

  /** The value of a string of decimal digits, read left to right. */
  function ParseDecimal(s: string): nat
    requires forall i :: 0 <= i < |s| ==> IsDigit(s[i])
  {
    if s == [] then 0
    else 10 * ParseDecimal(s[..|s| - 1]) + DigitValue(s[|s| - 1])
  }

  function DigitValue(c: char): (d: nat)
    requires IsDigit(c)
    ensures d < 10 && Digit(d) == c
  {
    c as int - '0' as int
  }

  /** Reading back what `%d` printed gives the number printed. */
  lemma {:induction false} DecimalRoundTrip(n: nat)
    ensures ParseDecimal(Decimal(n)) == n
  {
    var d := Decimal(n);
    if n >= 10 {
      DecimalRoundTrip(n / 10);
      assert d[..|d| - 1] == Decimal(n / 10);
    }
  }

  // ---------------------------------------------------------------------------
  // sscanf's %s conversions

  /** A field that %s can produce: non-empty, without white space. */
  predicate IsWord(w: string) {
    |w| > 0 && forall i :: 0 <= i < |w| ==> !IsSpace(w[i])
  }

  /** The length of the run of non-space characters that starts `s`. */
  function TokenLength(s: string): (n: nat)
    ensures n <= |s|
    ensures forall i :: 0 <= i < n ==> !IsSpace(s[i])
    ensures n < |s| ==> IsSpace(s[n])
  {
    if s == [] || IsSpace(s[0]) then 0 else 1 + TokenLength(s[1..])
  }

  /** The successive fields that repeated %s conversions read from `s`:
      each skips white space, then takes the longest run of non-space. */
  function Words(s: string): (ws: seq<string>)
    ensures forall k :: 0 <= k < |ws| ==> IsWord(ws[k])
    ensures NoNul(s) ==> forall k :: 0 <= k < |ws| ==> NoNul(ws[k])
    decreases |s|
  {
    if s == [] then []
    else if IsSpace(s[0]) then Words(s[1..])
    else
      var n := TokenLength(s);
      [s[..n]] + Words(s[n..])
  }

  /** A field followed by white space (or by nothing) is read as that field,
      then as whatever the rest holds. */
  lemma WordsOfWordThen(w: string, rest: string)
    requires IsWord(w) && (rest != [] ==> IsSpace(rest[0]))
    ensures Words(w + rest) == [w] + Words(rest)
  {
    var s := w + rest;
    TokenLengthOfWord(w, rest);
    assert s[..|w|] == w;
    assert s[|w|..] == rest;
  }

  lemma {:induction false} TokenLengthOfWord(w: string, rest: string)
    requires IsWord(w) && (rest != [] ==> IsSpace(rest[0]))
    ensures TokenLength(w + rest) == |w|
    decreases |w|
  {
    if |w| > 1 {
      assert (w + rest)[1..] == w[1..] + rest;
      TokenLengthOfWord(w[1..], rest);
    } else {
      assert (w + rest)[1..] == rest;
    }
  }

  /** Leading white space is skipped. */
  lemma WordsOfSpaceThen(sp: char, rest: string)
    requires IsSpace(sp)
    ensures Words([sp] + rest) == Words(rest)
  {
    assert ([sp] + rest)[1..] == rest;
  }

  /** `u SP v CR LF` is read as the two fields `u` and `v`. */
  lemma WordsOfTwoFields(u: string, v: string)
    requires IsWord(u) && IsWord(v)
    ensures Words(u + ([' '] + (v + ['\r', '\n']))) == [u, v]
  {
    var tail := v + ['\r', '\n'];
    WordsOfSpaceThen('\n', []);
    WordsOfSpaceThen('\r', ['\n']);
    WordsOfWordThen(v, ['\r', '\n']);
    WordsOfSpaceThen(' ', tail);
    WordsOfWordThen(u, [' '] + tail);
  }

  /** A request line written as `method SP uri SP version CR LF` is read back
      by sscanf("%s %s %s") as exactly those three fields. */
  lemma RequestLineFields(m: string, u: string, v: string)
    requires IsWord(m) && IsWord(u) && IsWord(v)
    ensures Words(m + " " + u + " " + v + "\r\n") == [m, u, v]
  {
    var rest := u + ([' '] + (v + ['\r', '\n']));
    RequestLineShape(m, u, v);
    WordsOfTwoFields(u, v);
    WordsOfSpaceThen(' ', rest);
    WordsOfWordThen(m, [' '] + rest);
  }

  lemma RequestLineShape(m: string, u: string, v: string)
    ensures m + " " + u + " " + v + "\r\n" == m + ([' '] + (u + ([' '] + (v + ['\r', '\n']))))
  {
  }
}
