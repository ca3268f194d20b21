/** Where the two development servers agree and where they part ways. */
module CleanUrlContrast {
  import opened Strings
  import opened CleanUrls
  import opened ExpressClean

  /**
    For a plain extensionless path with no query, no escapes and no dot anywhere,
    both servers serve `p.html` exactly when the Python oracle says `p.html`
    exists and `p` does not; otherwise only the Express server rewrites.
  */
  lemma {:induction false} AgreeOnPlainPath(p: string, fileExists: string -> bool)
    requires |p| > 0 && p[0] == '/' && !EndsWith(p, "/")
    requires '?' !in p && '%' !in p && '.' !in p
    ensures Middleware(p).url == p + ".html"
    ensures DoGet(Request("GET", p, []), fileExists).0.path == p + ".html"
        <==> fileExists(CandidateFile(p)) && !fileExists(OriginalFile(p))
  {
    UnquoteWithoutPercent(p);
    BeforeAbsent(p, '?');
    assert p != "/" by {
      assert p[|p| - 1] != '/';
    }
    assert '.' !in Basename(p) by {
      assert Basename(p) == p[|p| - |Basename(p)|..];
    }
  }

  /** `dir/name` has no query mark or escape, and has a dot somewhere in `dir`. */
  lemma DottedPathChars(dir: string, name: string)
    requires '?' !in dir && '%' !in dir && '.' in dir
    requires '?' !in name && '%' !in name
    ensures var p := dir + "/" + name; '%' !in p && '?' !in p && '.' in p && PathOf(p) == p
  {
    var p := dir + "/" + name;
    assert "/" == ['/'];
    NotInConcat(dir, "/", '%');
    NotInConcat(dir + "/", name, '%');
    NotInConcat(dir, "/", '?');
    NotInConcat(dir + "/", name, '?');
    var i :| 0 <= i < |dir| && dir[i] == '.';
    assert p[i] == '.';
    BeforeAbsent(p, '?');
  }

  /** Python looks only at the basename, so a dotted directory does not stop the rewrite. */
  lemma {:induction false} DottedDirectoryRewritten(dir: string, name: string, fileExists: string -> bool)
    requires '?' !in dir && '%' !in dir && '.' in dir
    requires '?' !in name && '%' !in name && '.' !in name && '/' !in name && name != ""
    requires fileExists(CandidateFile(dir + "/" + name)) && !fileExists(OriginalFile(dir + "/" + name))
    ensures DoGet(Request("GET", dir + "/" + name, []), fileExists).0.path == dir + "/" + name + ".html"
  {
    var p := dir + "/" + name;
    DottedPathChars(dir, name);
    UnquoteWithoutPercent(p);
    BeforeAbsent(p, '?');
    BasenameAfterSlash(dir, name);
    assert !EndsWith(p, "/") by {
      assert p[|p| - 1] == name[|name| - 1];
    }
    assert ResolvePath(p, fileExists).path == p + ".html";
  }

  /** A dot in a directory name: Python checks only the basename and may rewrite; Express never does. */
  lemma DisagreeOnDottedDirectory(dir: string, name: string, fileExists: string -> bool)
    requires '?' !in dir && '%' !in dir && '.' in dir
    requires '?' !in name && '%' !in name && '.' !in name && '/' !in name && name != ""
    requires fileExists(CandidateFile(dir + "/" + name)) && !fileExists(OriginalFile(dir + "/" + name))
    ensures DoGet(Request("GET", dir + "/" + name, []), fileExists).0.path == dir + "/" + name + ".html"
    ensures Middleware(dir + "/" + name).url == dir + "/" + name
  {
    DottedPathChars(dir, name);
    DottedDirectoryRewritten(dir, name, fileExists);
  }

  /** A trailing slash: Python serves the directory index; Express asks for `<dir>/.html`. */
  lemma {:induction false} DisagreeOnTrailingSlash(p: string, fileExists: string -> bool)
    requires '?' !in p && '%' !in p && '.' !in p && p != "/" && EndsWith(p, "/")
    ensures DoGet(Request("GET", p, []), fileExists).0.path == p + "index.html"
    ensures Middleware(p).url == p + ".html"
  {
    UnquoteWithoutPercent(p);
    BeforeAbsent(p, '?');
    TrailingSlashSuffixed(p);
  }
}
