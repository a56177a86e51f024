/** Which URLs a proxy prefix selects (HttpRequest::isUrlPrefix in src/HttpRequest.cpp). */
module UrlPrefix {

  function StripSlashes(s: string): (t: string)
    ensures |t| <= |s| && t == s[|s| - |t|..]
    ensures t != "" ==> t[0] != '/'
    ensures forall i :: 0 <= i < |s| - |t| ==> s[i] == '/'
  {
    if s != "" && s[0] == '/' then StripSlashes(s[1..]) else s
  }

  /** The URL lies at or below the path that the prefix names. */
  predicate Covers(prefix: string, url: string) {
    prefix <= url && (
        || url == prefix
        || url[|prefix|] == '/'
        || (prefix != "" && prefix[|prefix| - 1] == '/'))
  }

  /** The URL names a directory on the way to the prefix. */
  predicate IsAncestor(url: string, prefix: string) {
    url < prefix && prefix[|url|] == '/'
  }

  /** A prefix of slashes only: it selects every URL that starts with a slash. */
  predicate RootPrefix(prefix: string, url: string) {
    prefix != "" && StripSlashes(prefix) == "" && url != "" && url[0] == '/'
  }

  predicate Selects(prefix: string, url: string) {
    var p, u := StripSlashes(prefix), StripSlashes(url);
    Covers(p, u) || RootPrefix(prefix, url) || IsAncestor(u, p)
  }

  /** A one-segment prefix, the kind the configuration documents, selects exactly the URLs at or below
      its path; any other selection needs a prefix with a slash inside and a URL above it. */
  lemma OneSegmentPrefix(prefix: string, url: string)
    requires StripSlashes(prefix) != ""
    ensures '/' !in StripSlashes(prefix) ==>
              (Selects(prefix, url) <==> Covers(StripSlashes(prefix), StripSlashes(url)))
    ensures Selects(prefix, url) && !Covers(StripSlashes(prefix), StripSlashes(url)) <==>
              IsAncestor(StripSlashes(url), StripSlashes(prefix))
  {
    var p, u := StripSlashes(prefix), StripSlashes(url);
    if IsAncestor(u, p) {
      assert p[|u|] in p;
    }
  }

  /** A prefix of slashes only selects exactly the URLs that start with a slash, and the empty one; the empty prefix
      selects only URLs without any other character. */
  lemma RootSelects(prefix: string, url: string)
    requires StripSlashes(prefix) == ""
    ensures prefix != "" ==> (Selects(prefix, url) <==> url == "" || url[0] == '/')
    ensures prefix == "" ==> (Selects(prefix, url) <==> StripSlashes(url) == "")
  {
  }

  /** The URL, without its slashes in front, is the prefix up to one of its inner slashes. */
  ghost predicate CutFrom(url: string, prefix: string) {
    exists rest: string :: StripSlashes(prefix) == StripSlashes(url) + ("/" + rest)
  }

  /** A prefix of several segments selects every URL above it, whatever slashes either starts with: /a/b selects /a.
      No other URL outside the path that the prefix names is selected. */
  lemma AncestorIsSelected(prefix: string, url: string)
    requires StripSlashes(prefix) != ""
    ensures Selects(prefix, url) && !Covers(StripSlashes(prefix), StripSlashes(url)) <==> CutFrom(url, prefix)
  {
    hide StripSlashes, Selects, IsAncestor, Covers;
    OneSegmentPrefix(prefix, url);
    var p, u := StripSlashes(prefix), StripSlashes(url);
    if IsAncestor(u, p) {
      var rest := AncestorRest(u, p);
    }
    if CutFrom(url, prefix) {
      var rest: string :| p == u + ("/" + rest);
      RestMakesAncestor(u, rest);
    }
  }

  lemma AncestorRest(u: string, p: string) returns (rest: string)
    requires IsAncestor(u, p)
    ensures p == u + ("/" + rest)
  {
    rest := p[|u| + 1..];
    assert p == p[..|u|] + ([p[|u|]] + rest);
  }

  lemma RestMakesAncestor(u: string, rest: string)
    ensures IsAncestor(u, u + ("/" + rest))
  {
    assert (u + ("/" + rest))[|u|] == ("/" + rest)[0];
  }

  lemma {:induction false} StripAt(s: string, i: nat)
    requires i <= |s| && (forall x :: 0 <= x < i ==> s[x] == '/') && (i < |s| ==> s[i] != '/')
    ensures StripSlashes(s) == s[i..]
  {
    if i > 0 {
      StripAt(s[1..], i - 1);
      assert s[1..][i - 1..] == s[i..];
    }
  }

  /** The two strings agree on `n` characters and then one ends or they differ. */
  predicate AgreeUpTo(p: string, u: string, n: nat) {
    n <= |p| && n <= |u| && p[..n] == u[..n] && (n < |p| && n < |u| ==> p[n] != u[n])
  }

  lemma CoversAt(p: string, u: string, n: nat)
    requires AgreeUpTo(p, u, n)
    ensures p <= u <==> n == |p|
    ensures u < p <==> n == |u| < |p|
  {
    if n < |p| && n < |u| {
      assert !(p <= u) && !(u <= p);
    } else if n == |p| {
      assert u[..n] == p;
    } else {
      assert p[..n] == u;
    }
  }

  /** The part of the decision that compares the stripped strings. */
  lemma CoversOrAncestor(p: string, u: string, n: nat)
    requires AgreeUpTo(p, u, n)
    ensures Covers(p, u) <==>
              n == |p| && (n == |u| || u[n] == '/' || (n > 0 && p[n - 1] == '/' && u[n - 1] == '/'))
    ensures IsAncestor(u, p) <==> n == |u| < |p| && p[n] == '/'
  {
    CoversAt(p, u, n);
    if n > 0 {
      assert p[n - 1] == p[..n][n - 1] == u[..n][n - 1] == u[n - 1];
    }
  }

  lemma RootAt(prefix: string, url: string, p0: nat, u0: nat)
    requires p0 <= |prefix| && u0 <= |url|
    requires StripSlashes(prefix) == prefix[p0..] && StripSlashes(url) == url[u0..]
    ensures RootPrefix(prefix, url) <==> p0 == |prefix| && p0 > 0 && u0 > 0
    ensures p0 > 0 ==> prefix[p0 - 1] == '/'
    ensures u0 > 0 ==> url[u0 - 1] == '/'
  {
    if u0 == 0 && url != "" {
      assert StripSlashes(url) == url;
    }
  }

  /** The decision at the place where the comparison of prefix and URL stopped. */
  lemma SelectsAt(prefix: string, url: string, p0: nat, u0: nat, n: nat)
    requires p0 + n <= |prefix| && u0 + n <= |url|
    requires StripSlashes(prefix) == prefix[p0..] && StripSlashes(url) == url[u0..]
    requires AgreeUpTo(prefix[p0..], url[u0..], n)
    ensures var pi, ui := p0 + n, u0 + n;
            Selects(prefix, url) <==>
              if pi == |prefix| then
                ui == |url| || url[ui] == '/'
                || (pi > 0 && ui > 0 && prefix[pi - 1] == '/' && url[ui - 1] == '/')
              else prefix[pi] == '/' && ui == |url|
  {
    hide StripSlashes, Covers, IsAncestor, RootPrefix;
    CoversOrAncestor(prefix[p0..], url[u0..], n);
    RootAt(prefix, url, p0, u0);
  }
}
