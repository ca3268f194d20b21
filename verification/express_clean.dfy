/**
  The extensionless-URL middleware of the Express development server. It works
  on `req.url` (path plus query) and never consults the filesystem.
*/
module ExpressClean {
  import opened Strings

  /** The rewritten `req.url` and the number of times `next()` was called. */
  datatype Outcome = Outcome(url: string, nextCalls: nat)

  /** `req.path`: the url without its query string. */
  function PathOf(url: string): string {
    Before(url, '?')
  }

  function Middleware(url: string): (o: Outcome)
    ensures o.nextCalls == 1
    ensures PathOf(url) == "/" ==> o.url == url
    ensures '.' in PathOf(url) ==> o.url == url
    ensures o.url == url || o.url == url + ".html"
    ensures o.url == url + ".html" <==> '.' !in PathOf(url) && PathOf(url) != "/"
  {
    var path := PathOf(url);
    if '.' !in path && path != "/" then Outcome(url + ".html", 1) else Outcome(url, 1)
  }

  /** The query string is kept, so the suffix lands after it: `/dashboard?x=1` becomes `/dashboard?x=1.html`. */
  lemma {:induction false} QuerySuffixed(p: string, query: string)
    requires '?' !in p && '.' !in p && p != "/"
    ensures Middleware(p + "?" + query).url == p + "?" + query + ".html"
  {
    BeforeSplit(p, '?', query);
    assert p + "?" + query == p + ['?'] + query;
  }

  /** A trailing-slash directory other than `/` gets `.html` appended too: `/blog/` becomes `/blog/.html`. */
  lemma {:induction false} TrailingSlashSuffixed(p: string)
    requires '?' !in p && '.' !in p && p != "/"
    ensures Middleware(p).url == p + ".html"
  {
    BeforeAbsent(p, '?');
  }
}
