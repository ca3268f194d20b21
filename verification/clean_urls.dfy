/**
  The clean-URL rewrite of the Python development server (`CleanURLHandler.do_GET`):
  a raw request path is percent-decoded, stripped of its query, and mapped to
  the file the static handler should serve. The filesystem is an oracle
  `fileExists` over root-relative paths; every call to it is recorded.
*/
module CleanUrls {
  import opened Strings

  /** The value of one hexadecimal digit, if `c` is one. */
  function HexValue(c: char): (v: int)
    ensures -1 <= v < 16
  {
    if '0' <= c <= '9' then c as int - '0' as int
    else if 'a' <= c <= 'f' then c as int - 'a' as int + 10
    else if 'A' <= c <= 'F' then c as int - 'A' as int + 10
    else -1
  }

  /** True when `s` starts with an escape `%XX` that decodes to an ASCII character. */
  predicate StartsWithAsciiEscape(s: string) {
    |s| >= 3 && s[0] == '%' && 0 <= HexValue(s[1]) < 8 && 0 <= HexValue(s[2])
  }

  /**
    Percent-decoding (section 2.1 of RFC 3986) of the escapes `%00`..`%7F`.
    Every other character, including a `%` not followed by such an escape,
    is copied unchanged.
  */
  function Unquote(s: string): (r: string)
    ensures |r| <= |s|
    decreases |s|
  {
    if |s| == 0 then ""
    else if StartsWithAsciiEscape(s) then
      [(16 * HexValue(s[1]) + HexValue(s[2])) as char] + Unquote(s[3..])
    else [s[0]] + Unquote(s[1..])
  }

  lemma {:induction false} UnquotePlainPrefix(a: string, b: string)
    requires '%' !in a
    ensures Unquote(a + b) == a + Unquote(b)
    decreases |a|
  {
    if |a| == 0 {
      assert a + b == b;
    } else {
      var s := a + b;
      assert a[0] in a;
      assert s[0] == a[0] && s[0] != '%';
      assert !StartsWithAsciiEscape(s);
      assert Unquote(s) == [s[0]] + Unquote(s[1..]);
      assert s[1..] == a[1..] + b;
      UnquotePlainPrefix(a[1..], b);
      assert Unquote(s) == [a[0]] + (a[1..] + Unquote(b));
      assert [a[0]] + (a[1..] + Unquote(b)) == ([a[0]] + a[1..]) + Unquote(b);
      assert a == [a[0]] + a[1..];
    }
  }

  lemma {:induction false} UnquoteWithoutPercent(s: string)
    requires '%' !in s
    ensures Unquote(s) == s
    decreases |s|
  {
    if |s| > 0 {
      assert s == [s[0]] + s[1..];
      UnquoteWithoutPercent(s[1..]);
    }
  }

  /** `path.split('?')[0]`: everything before the first `?`. */
  function StripQuery(path: string): (q: string)
    ensures '?' !in q
    ensures q <= path
    ensures '?' !in path ==> q == path
  {
    Before(path, '?')
  }

  /** `os.path.basename`: the text after the last `/`. */
  function Basename(path: string): string {
    AfterLast(path, '/')
  }

  /** The root-relative filesystem path checked for the `.html` candidate of `p`. */
  function CandidateFile(p: string): string {
    "." + (p + ".html")
  }

  /** The root-relative filesystem path checked for `p` itself. */
  function OriginalFile(p: string): string {
    "." + p
  }

  /** The path handed to the static handler, and the existence checks made on the way, in order. */
  datatype Resolution = Resolution(path: string, checks: seq<string>)

  /** Lines 21-31 of `do_GET`, applied to an already decoded, query-free path `q`. */
  function ResolvePath(q: string, fileExists: string -> bool): (r: Resolution)
    ensures |r.checks| <= 2
    ensures r.path == q || r.path == q + "index.html" || r.path == q + ".html" || r.path == "/index.html"
    ensures EndsWith(q, "/") ==> r == Resolution(q + "index.html", [])
    ensures q == "" ==> r == Resolution("/index.html", [])
    ensures q != "" && !EndsWith(q, "/") && '.' in Basename(q) ==> r == Resolution(q, [])
    ensures q != "" && !EndsWith(q, "/") && '.' !in Basename(q) ==>
      && (r.path == q + ".html" <==> fileExists(CandidateFile(q)) && !fileExists(OriginalFile(q)))
      && (r.path == q <==> !(fileExists(CandidateFile(q)) && !fileExists(OriginalFile(q))))
      && r.checks == if fileExists(CandidateFile(q)) then [CandidateFile(q), OriginalFile(q)]
                     else [CandidateFile(q)]
  {
    var p := if EndsWith(q, "/") then q + "index.html" else if q == "" then "/index.html" else q;
    IndexHtmlHasDot(q);
    if '.' !in Basename(p) then
      var htmlPath := p + ".html";
      assert |htmlPath| != |p|;
      if fileExists(CandidateFile(p)) then
        if !fileExists(OriginalFile(p)) then Resolution(htmlPath, [CandidateFile(p), OriginalFile(p)])
        else Resolution(p, [CandidateFile(p), OriginalFile(p)])
      else Resolution(p, [CandidateFile(p)])
    else
      Resolution(p, [])
  }

  /** Both index rewrites produce a basename with a dot, so neither is followed by an existence check. */
  lemma IndexHtmlHasDot(q: string)
    ensures EndsWith(q, "/") ==> '.' in Basename(q + "index.html")
    ensures '.' in Basename("/index.html")
  {
    assert "index.html"[5] == '.';
    if EndsWith(q, "/") {
      BasenameAfterSlash(q[..|q| - 1], "index.html");
      assert q == q[..|q| - 1] + "/";
      assert q + "index.html" == q[..|q| - 1] + "/" + "index.html";
    }
    BasenameAfterSlash("", "index.html");
    assert "" + "/" + "index.html" == "/index.html";
  }

  lemma {:induction false} BasenameAfterSlash(dir: string, name: string)
    requires '/' !in name
    ensures Basename(dir + "/" + name) == name
    decreases |name|
  {
    if |name| == 0 {
    } else {
      var s := dir + "/" + name;
      assert s[..|s| - 1] == dir + "/" + name[..|name| - 1];
      BasenameAfterSlash(dir, name[..|name| - 1]);
      assert name == name[..|name| - 1] + [name[|name| - 1]];
    }
  }

  lemma NoQueryInSuffixes()
    ensures '?' !in "index.html" && '?' !in ".html" && '?' !in "/index.html"
  {
    assert "index.html" == ['i', 'n', 'd', 'e', 'x', '.', 'h', 't', 'm', 'l'];
    assert ".html" == ['.', 'h', 't', 'm', 'l'];
    assert "/index.html" == ['/', 'i', 'n', 'd', 'e', 'x', '.', 'h', 't', 'm', 'l'];
  }

  lemma NotInConcat(a: string, b: string, c: char)
    requires c !in a && c !in b
    ensures c !in a + b
  {
    assert forall i :: 0 <= i < |a + b| ==> (a + b)[i] == if i < |a| then a[i] else b[i - |a|];
  }

  /** An HTTP request as the handler sees it; only `path` is rewritten. */
  datatype Request = Request(command: string, path: string, headers: seq<(string, string)>)

  /** `do_GET`: decode, strip the query, resolve, and replace only the request path. */
  function DoGet(req: Request, fileExists: string -> bool): (r: (Request, seq<string>))
    ensures r.0.command == req.command && r.0.headers == req.headers
    ensures '?' !in r.0.path
    ensures |r.1| <= 2
    ensures var q := StripQuery(Unquote(req.path));
      r.0.path == q || r.0.path == q + "index.html" || r.0.path == q + ".html" || r.0.path == "/index.html"
  {
    var q := StripQuery(Unquote(req.path));
    var res := ResolvePath(q, fileExists);
    assert '?' !in res.path by {
      NoQueryInSuffixes();
      NotInConcat(q, "index.html", '?');
      NotInConcat(q, ".html", '?');
    }
    (req.(path := res.path), res.checks)
  }

  /** An escape decoding to `?` truncates like a literal `?`: the query is cut after decoding. */
  lemma {:induction false} EncodedQuestionMarkTruncates(a: string, b: string)
    requires '%' !in a && '?' !in a
    ensures StripQuery(Unquote(a + "%3F" + b)) == a
  {
    var e := "%3F" + b;
    assert e[0] == '%' && e[1] == '3' && e[2] == 'F' && e[3..] == b;
    assert HexValue('3') == 3 && HexValue('F') == 15;
    assert StartsWithAsciiEscape(e);
    assert (16 * 3 + 15) as char == '?';
    assert Unquote(e) == ['?'] + Unquote(b);
    UnquotePlainPrefix(a, e);
    assert a + "%3F" + b == a + e;
    BeforeSplit(a, '?', Unquote(b));
    assert a + (['?'] + Unquote(b)) == a + ['?'] + Unquote(b);
  }

  /** Percent-encoded input is decoded before the rules apply: `/my%20page` acts as `/my page`. */
  lemma {:induction false} EncodedSpaceDecoded(a: string, b: string)
    requires '%' !in a && '%' !in b
    ensures Unquote(a + "%20" + b) == a + " " + b
  {
    assert HexValue('2') == 2 && HexValue('0') == 0;
    assert StartsWithAsciiEscape("%20" + b);
    assert (16 * 2 + 0) as char == ' ';
    assert ("%20" + b)[3..] == b;
    UnquoteWithoutPercent(b);
    assert Unquote("%20" + b) == " " + b;
    UnquotePlainPrefix(a, "%20" + b);
    assert a + "%20" + b == a + ("%20" + b);
  }

  /** A leading-dot basename counts as having an extension: `/.well-known` is served as is. */
  lemma WellKnownUnchanged(fileExists: string -> bool)
    ensures ResolvePath("/.well-known", fileExists) == Resolution("/.well-known", [])
  {
    assert Basename("/.well-known") == ".well-known" by {
      BasenameAfterSlash("", ".well-known");
      assert "" + "/" + ".well-known" == "/.well-known";
    }
  }

  /** A path starting with `/` (or the empty path) resolves to a non-empty path starting with `/`. */
  lemma ResolvesToRooted(q: string, fileExists: string -> bool)
    requires q == "" || q[0] == '/'
    ensures var p := ResolvePath(q, fileExists).path; |p| > 0 && p[0] == '/'
  {
  }
}
