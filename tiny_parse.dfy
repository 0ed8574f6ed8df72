/** The two pure decisions of tiny.c: how a request URI is classified and
    turned into a file name and CGI arguments (parse_uri), and how a MIME
    type is inferred from a file name (get_filetype). */
module TinyParse {
  import opened CLib

  /** The marker whose presence anywhere in the URI selects dynamic content. */
  const CgiMarker: string := "cgi-bin"

  /** The document served for a URI that ends in '/'. */
  const DefaultDocument: string := "home.html"

  /** What parse_uri hands back: its return value (1 for static content) and
      the `filename` and `cgiargs` buffers it fills. */
  datatype Target = Target(isStatic: bool, filename: string, cgiargs: string)

  // ---------------------------------------------------------------------------
  // parse_uri

  /** parse_uri. The URI must not be empty: the static branch reads its last
      character. It is a C string (no NUL) wherever doit calls this, since
      it comes from sscanf (TinyServer.RequestFields); strstr, strlen and
      strcat then see the whole of it, as this function does. */
  function ParseUri(uri: string): (t: Target)
    requires |uri| > 0
    ensures t.isStatic <==> !Contains(uri, CgiMarker)
    ensures |t.filename| > 0 && t.filename[0] == '.'
    ensures t.isStatic ==> t.cgiargs == "" && |uri| + 1 <= |t.filename| && t.filename[..|uri| + 1] == "." + uri
    ensures !t.isStatic ==> '?' !in t.filename[1..]
    ensures !t.isStatic && '?' in uri ==> t.filename[1..] + "?" + t.cgiargs == uri
    ensures !t.isStatic && '?' !in uri ==> t.filename[1..] == uri && t.cgiargs == ""
  {
    if Strstr(uri, CgiMarker).None? then
      var filename := "." + uri;
      Target(true, if uri[|uri| - 1] == '/' then filename + DefaultDocument else filename, "")
    else
      match Index(uri, '?')
      case Some(i) =>
        assert uri[..i] + "?" + uri[i + 1..] == uri by {
          assert uri == uri[..i] + [uri[i]] + uri[i + 1..];
        }
        assert ("." + uri[..i])[1..] == uri[..i];
        Target(false, "." + uri[..i], uri[i + 1..])
      case None =>
        assert ("." + uri)[1..] == uri;
        Target(false, "." + uri, "")
  }

  /** A URI without the marker is static content with no CGI arguments; its
      file name is "." and the whole URI, query included, with the default
      document appended exactly when the URI ends in '/'. */
  lemma ParseUriStatic(uri: string)
    requires |uri| > 0 && !Contains(uri, CgiMarker)
    ensures var t := ParseUri(uri);
      && t.isStatic && t.cgiargs == ""
      && t.filename[..|uri| + 1] == "." + uri
      && (uri[|uri| - 1] == '/' <==> t.filename == "." + uri + DefaultDocument)
      && (uri[|uri| - 1] != '/' <==> t.filename == "." + uri)
  {
    var t := ParseUri(uri);
    assert (t.filename == "." + uri) ==> |t.filename| == |uri| + 1;
    assert (t.filename == "." + uri + DefaultDocument) ==> |t.filename| == |uri| + 10;
  }

  /** A URI with the marker is dynamic content. It is split at its first '?':
      the file name is "." and what comes before, the CGI arguments are what
      comes after; without a '?' the arguments are empty. */
  lemma ParseUriDynamic(uri: string)
    requires |uri| > 0 && Contains(uri, CgiMarker)
    ensures var t := ParseUri(uri);
      && !t.isStatic
      && ('?' !in uri ==> t.filename == "." + uri && t.cgiargs == "")
      && ('?' in uri ==> exists i :: 0 <= i < |uri| && uri[i] == '?' && '?' !in uri[..i]
                                 && t.filename == "." + uri[..i] && t.cgiargs == uri[i + 1..])
  {
    var t := ParseUri(uri);
    if '?' in uri {
      var i := Index(uri, '?').value;
      assert t.filename == "." + uri[..i] && t.cgiargs == uri[i + 1..];
    }
  }

  /** A C string URI gives C string names and arguments: strcpy and strcat
      copy no NUL into them. */
  lemma ParseUriNoNul(uri: string)
    requires |uri| > 0 && NoNul(uri)
    ensures NoNul(ParseUri(uri).filename) && NoNul(ParseUri(uri).cgiargs)
  {
    var t := ParseUri(uri);
    if !t.isStatic && '?' in uri {
      var i := Index(uri, '?').value;
      assert t.filename == "." + uri[..i] && t.cgiargs == uri[i + 1..];
      assert forall c :: c in uri[..i] || c in uri[i + 1..] ==> c in uri;
    }
  }

  /** The split is unique: any `prefix ? args` spelling of the URI whose
      prefix holds no '?' is the one parse_uri picks. */
  lemma ParseUriSplitUnique(uri: string, prefix: string, args: string)
    requires Contains(uri, CgiMarker)
    requires uri == prefix + "?" + args && '?' !in prefix
    ensures ParseUri(uri) == Target(false, "." + prefix, args)
  {
    var i := Index(uri, '?').value;
    assert uri[|prefix|] == '?';
    assert i == |prefix|;
    assert uri[..i] == prefix;
    assert uri[i + 1..] == args;
  }

  /** The example of the CGI adder: "/cgi-bin/adder?15&20". */
  lemma ParseUriAdder(uri: string)
    requires uri == "/cgi-bin/adder?15&20"
    ensures ParseUri(uri) == Target(false, "./cgi-bin/adder", "15&20")
  {
    var prefix, args := uri[..14], uri[15..];
    SplitExample(uri, 1, 14);
    ParseUriSplitUnique(uri, prefix, args);
    AdderParts(uri, prefix, args);
  }

  lemma AdderParts(uri: string, prefix: string, args: string)
    requires uri == "/cgi-bin/adder?15&20" && prefix == uri[..14] && args == uri[15..]
    ensures "." + prefix == "./cgi-bin/adder" && args == "15&20"
  {
  }

  /** The marker is looked for in the whole URI, query included: a query
      that mentions it turns a request for a plain file into a CGI request,
      split at the first '?'. */
  lemma ParseUriMarkerInQuery(path: string, query: string)
    requires '?' !in path && Contains(query, CgiMarker)
    ensures ParseUri(path + "?" + query) == Target(false, "." + path, query)
  {
    var uri := path + "?" + query;
    ContainsInSuffix(path + "?", query, CgiMarker);
    ParseUriSplitUnique(uri, path, query);
  }

  /** The facts about a concrete URI that the examples above rest on. */
  lemma SplitExample(uri: string, marker: nat, question: nat)
    requires marker + |CgiMarker| <= |uri| && uri[marker..marker + |CgiMarker|] == CgiMarker
    requires question < |uri| && uri[question] == '?' && forall i :: 0 <= i < question ==> uri[i] != '?'
    ensures Contains(uri, CgiMarker)
    ensures uri == uri[..question] + "?" + uri[question + 1..] && '?' !in uri[..question]
  {
    assert OccursAt(uri, CgiMarker, marker);
    assert uri == uri[..question] + [uri[question]] + uri[question + 1..];
  }

  /** The static branch keeps the query: "/index.html?x=1" names the file
      "./index.html?x=1". */
  lemma ParseUriStaticKeepsQuery(uri: string)
    requires uri == "/index.html?x=1"
    ensures ParseUri(uri) == Target(true, "./index.html?x=1", "")
  {
    forall i | 0 <= i <= |uri|
      ensures !OccursAt(uri, CgiMarker, i)
    {
      if i + 7 <= |uri| {
        assert uri[i..i + 7][0] == uri[i];
      }
    }
    ParseUriStatic(uri);
  }

  /** The root "/" is the default document. */
  lemma ParseUriRoot()
    ensures ParseUri("/") == Target(true, "./home.html", "")
  {
  }

  // ---------------------------------------------------------------------------
  // get_filetype

  /** One test of get_filetype: a file name containing `extension` is given
      `mimeType`. */
  datatype MimeRule = MimeRule(extension: string, mimeType: string)

  /** The tests of get_filetype, in the order it makes them. */
  const MimeRules: seq<MimeRule> := [
    MimeRule(".html", "text/html"),
    MimeRule(".gif", "image/gif"),
    MimeRule(".png", "image/png"),
    MimeRule(".jpg", "image/jpeg"),
    MimeRule(".mp4", "video/mp4")
  ]

  /** The type given when no test matches. */
  const FallbackType: string := "text/plain"

  /** Every type get_filetype can give. */
  const MimeTypes: set<string> := {"text/html", "image/gif", "image/png", "image/jpeg", "video/mp4", "text/plain"}

  /** get_filetype. The file name is a C string wherever serve_static calls
      this (ParseUriNoNul), so strstr sees the whole of it, as this
      function does. */
  function GetFiletype(filename: string): (ft: string)
    ensures ft in MimeTypes
  {
    if Strstr(filename, ".html").Some? then "text/html"
    else if Strstr(filename, ".gif").Some? then "image/gif"
    else if Strstr(filename, ".png").Some? then "image/png"
    else if Strstr(filename, ".jpg").Some? then "image/jpeg"
    else if Strstr(filename, ".mp4").Some? then "video/mp4"
    else "text/plain"
  }

  /** The type of the first rule whose extension occurs in `name`. */
  function FirstMatch(rules: seq<MimeRule>, name: string): (ft: string)
    ensures ft == FallbackType || exists k :: 0 <= k < |rules| && ft == rules[k].mimeType
  {
    if rules == [] then FallbackType
    else if Contains(name, rules[0].extension) then rules[0].mimeType
    else FirstMatch(rules[1..], name)
  }

  /** get_filetype is the first-match lookup in its table of rules. */
  lemma GetFiletypeIsFirstMatch(filename: string)
    ensures GetFiletype(filename) == FirstMatch(MimeRules, filename)
  {
    var r, f := MimeRules, filename;
    assert FirstMatch(r[4..], f) == if Contains(f, ".mp4") then "video/mp4" else FallbackType by {
      assert r[4..][0] == r[4] && r[4..][1..] == [];
    }
    assert FirstMatch(r[3..], f) == if Contains(f, ".jpg") then "image/jpeg" else FirstMatch(r[4..], f) by {
      assert r[3..][0] == r[3] && r[3..][1..] == r[4..];
    }
    assert FirstMatch(r[2..], f) == if Contains(f, ".png") then "image/png" else FirstMatch(r[3..], f) by {
      assert r[2..][0] == r[2] && r[2..][1..] == r[3..];
    }
    assert FirstMatch(r[1..], f) == if Contains(f, ".gif") then "image/gif" else FirstMatch(r[2..], f) by {
      assert r[1..][0] == r[1] && r[1..][1..] == r[2..];
    }
  }

  /** Rule `k` decides the type exactly when its extension occurs in the
      name and no earlier rule's does. An extension counts wherever it
      occurs, not only as a suffix. */
  lemma {:induction false} FirstMatchRule(rules: seq<MimeRule>, name: string, k: nat)
    requires k < |rules|
    requires forall a, b :: 0 <= a < b < |rules| ==> rules[a].mimeType != rules[b].mimeType
    requires forall a :: 0 <= a < |rules| ==> rules[a].mimeType != FallbackType
    ensures FirstMatch(rules, name) == rules[k].mimeType
        <==> Contains(name, rules[k].extension) && forall j :: 0 <= j < k ==> !Contains(name, rules[j].extension)
  {
    if k > 0 && !Contains(name, rules[0].extension) {
      FirstMatchRule(rules[1..], name, k - 1);
      forall j | 0 <= j < k
        ensures !Contains(name, rules[j].extension) <==> (j == 0 || !Contains(name, rules[1..][j - 1].extension))
      {
      }
    } else if k > 0 {
      assert rules[0].mimeType != rules[k].mimeType;
    }
  }

  /** The fallback is given exactly when no extension occurs. */
  lemma {:induction false} FirstMatchFallback(rules: seq<MimeRule>, name: string)
    requires forall a :: 0 <= a < |rules| ==> rules[a].mimeType != FallbackType
    ensures FirstMatch(rules, name) == FallbackType
        <==> forall j :: 0 <= j < |rules| ==> !Contains(name, rules[j].extension)
  {
    if rules != [] {
      FirstMatchFallback(rules[1..], name);
      if !Contains(name, rules[0].extension) {
        forall j | 0 < j < |rules|
          ensures rules[j] == rules[1..][j - 1]
        {
        }
      }
    }
  }

  /** get_filetype gives rule k's type exactly when rule k is the first rule
      whose extension occurs anywhere in the name, and text/plain exactly when
      none does. */
  lemma GetFiletypeRule(filename: string, k: nat)
    requires k < |MimeRules|
    ensures GetFiletype(filename) == MimeRules[k].mimeType
        <==> Contains(filename, MimeRules[k].extension)
             && forall j :: 0 <= j < k ==> !Contains(filename, MimeRules[j].extension)
    ensures GetFiletype(filename) == FallbackType
        <==> forall j :: 0 <= j < |MimeRules| ==> !Contains(filename, MimeRules[j].extension)
  {
    GetFiletypeIsFirstMatch(filename);
    FirstMatchRule(MimeRules, filename, k);
    FirstMatchFallback(MimeRules, filename);
  }

  /** ".html" anywhere wins over every later extension: "a.html.gif" is HTML. */
  lemma GetFiletypeHtmlFirst(filename: string)
    requires filename == "./a.html.gif"
    ensures GetFiletype(filename) == "text/html"
  {
    assert OccursAt(filename, ".html", 3) by {
      assert filename[3..8] == ".html";
    }
  }

  /** An extension in the middle of the name counts: "a.jpg.txt" is a JPEG. */
  lemma GetFiletypeNotSuffix(filename: string)
    requires filename == "./a.jpg.txt"
    ensures GetFiletype(filename) == "image/jpeg"
  {
    var f := filename;
    assert OccursAt(f, ".jpg", 3) by {
      assert f[3..7] == ".jpg";
    }
    forall e, i | e in [".html", ".gif", ".png"] && 0 <= i <= |f|
      ensures !OccursAt(f, e, i)
    {
      if i + |e| <= |f| {
        assert f[i..i + |e|][1] == f[i + 1];
        assert f[i..i + |e|][2] == f[i + 2];
      }
    }
  }
}
