/** `get_full_s3_url`: turns a stored S3 object path (or a URL that may already
    carry the bucket's custom domain) into a full public URL. The domain setting
    (`AWS_S3_CUSTOM_DOMAIN`) is a parameter; only string input is modelled. */
module S3Utils {
  import opened Text

  /** What the function gives back: Python's `None`, a URL, or the `ValueError`
      that `str.split` raises for an empty separator. */
  datatype FullUrl = NoUrl | Url(value: string) | EmptySeparatorError

  /** `s.split(sep)[-1]`: the piece after the last separator that a left-to-right,
      non-overlapping scan for `sep` consumes. */
  function LastPiece(s: string, sep: string): (r: string)
    requires sep != []
    ensures |r| <= |s| && r == s[|s| - |r|..]
    ensures !Occurs(sep, r)
    decreases |s|
  {
    if StartsWith(s, sep) then LastPiece(s[|sep|..], sep)
    else if s == [] then []
    else if Occurs(sep, s[1..]) then LastPiece(s[1..], sep)
    else NoOccurrence(s, sep); s
  }

  /** If `sep` does not start `s` and does not occur in `s[1..]`, it does not occur in `s`. */
  lemma NoOccurrence(s: string, sep: string)
    requires s != [] && !StartsWith(s, sep) && !Occurs(sep, s[1..])
    ensures !Occurs(sep, s)
  {
    forall i | 0 < i <= |s| && i + |sep| <= |s| ensures !OccursAt(s, sep, i) {
      assert s[1..][i - 1..i - 1 + |sep|] == s[i..i + |sep|];
      assert !OccursAt(s[1..], sep, i - 1);
    }
  }

  /** A string without the separator is its own last piece. */
  lemma {:induction false} LastPieceOfPlain(s: string, sep: string)
    requires sep != [] && !Occurs(sep, s)
    ensures LastPiece(s, sep) == s
  {
    if StartsWith(s, sep) {
      assert OccursAt(s, sep, 0);
    } else if s != [] && Occurs(sep, s[1..]) {
      OccursInSuffix(sep, s, 1);
    }
  }

  /** No occurrence of `sep` in `u + sep + r` starts inside `u` and runs into the
      copy of `sep` that follows `u`. */
  ghost predicate NoStraddle(u: string, sep: string, r: string) {
    forall i :: 0 <= i < |u| < i + |sep| ==> !OccursAt(u + sep + r, sep, i)
  }

  /** Dropping the first `k` characters of `u` keeps `NoStraddle`. */
  lemma NoStraddleShift(u: string, sep: string, r: string, k: nat)
    requires k <= |u| && NoStraddle(u, sep, r)
    ensures NoStraddle(u[k..], sep, r)
  {
    var s := u + sep + r;
    var u' := u[k..];
    assert s[k..] == u' + sep + r;
    forall i | 0 <= i < |u'| < i + |sep| ensures !OccursAt(u' + sep + r, sep, i) {
      if i + |sep| <= |u' + sep + r| {
        assert (u' + sep + r)[i..i + |sep|] == s[i + k..i + k + |sep|];
      }
      assert !OccursAt(s, sep, i + k);
    }
  }

  /** When `sep` follows `u` with no occurrence running into it, and `r` holds no
      separator, the scan consumes that copy of `sep` and `r` is the last piece. */
  lemma {:induction false} LastPieceAfter(u: string, sep: string, r: string)
    requires sep != [] && !Occurs(sep, r) && NoStraddle(u, sep, r)
    ensures LastPiece(u + sep + r, sep) == r
    decreases |u|
  {
    var s := u + sep + r;
    if u == [] {
      assert s == sep + r && s[..|sep|] == sep && s[|sep|..] == r;
      LastPieceOfPlain(r, sep);
    } else if StartsWith(s, sep) {
      if |sep| > |u| {
        assert OccursAt(s, sep, 0);
        assert false;
      }
      assert s[|sep|..] == u[|sep|..] + sep + r;
      NoStraddleShift(u, sep, r, |sep|);
      LastPieceAfter(u[|sep|..], sep, r);
    } else {
      assert s[1..] == u[1..] + sep + r;
      assert OccursAt(s[1..], sep, |u| - 1);
      NoStraddleShift(u, sep, r, 1);
      LastPieceAfter(u[1..], sep, r);
    }
  }

  /** The scheme and separator the function puts in front of a bare path. */
  function Prefix(domain: string): (r: string)
    ensures forall t :: StartsWith(r + t, "http")
  {
    var r := "https://" + domain + "/";
    assert forall t :: (r + t)[..4] == "http";
    r
  }

  /** `path_or_url.split(domain)[-1].lstrip('/')`: holds no domain and does not
      start with '/'. */
  function AfterDomain(pathOrUrl: string, domain: string): (p: string)
    requires domain != []
    ensures !Occurs(domain, p)
    ensures p == [] || p[0] != '/'
  {
    var piece := LastPiece(pathOrUrl, domain);
    var stripped := StripLeading(piece, '/');
    AbsentFromSuffix(domain, piece, stripped);
    stripped
  }

  /** Lines 22-23: the piece after the domain when the domain occurs, the input
      itself otherwise. Either way the result holds no domain. */
  function DropDomain(pathOrUrl: string, domain: string): (p: string)
    requires domain != []
    ensures !Occurs(domain, p)
    ensures Occurs(domain, pathOrUrl) ==> p == [] || p[0] != '/'
    ensures !Occurs(domain, pathOrUrl) ==> p == pathOrUrl
  {
    if Occurs(domain, pathOrUrl) then AfterDomain(pathOrUrl, domain) else pathOrUrl
  }

  /** What is kept is the end of the input: only a prefix is ever removed. */
  lemma DropDomainIsSuffix(pathOrUrl: string, domain: string)
    requires domain != []
    ensures var p := DropDomain(pathOrUrl, domain);
      |p| <= |pathOrUrl| && p == pathOrUrl[|pathOrUrl| - |p|..]
  {
    if Occurs(domain, pathOrUrl) {
      var piece := LastPiece(pathOrUrl, domain);
      SuffixOfSuffix(pathOrUrl, piece, StripLeading(piece, '/'));
    }
  }

  /** `get_full_s3_url(path_or_url)` for a string argument, as written. */
  function FullS3Url(pathOrUrl: string, domain: string): (r: FullUrl)
    ensures r == NoUrl <==> pathOrUrl == []
    ensures r == EmptySeparatorError <==> pathOrUrl != [] && domain == []
    ensures r.Url? ==> StartsWith(r.value, "http")
  {
    if pathOrUrl == [] then NoUrl
    else if domain == [] then EmptySeparatorError
    else
      var p := DropDomain(pathOrUrl, domain);
      if StartsWith(p, "http") then Url(p)
      else Url(Prefix(domain) + StripLeading(p, '/'))
  }

  /** A URL elsewhere (one that does not hold the domain) is returned as it is. */
  lemma ForeignUrlUnchanged(url: string, domain: string)
    requires domain != [] && !Occurs(domain, url) && StartsWith(url, "http")
    ensures FullS3Url(url, domain) == Url(url)
  {
    assert url[0] == 'h';
  }

  /** The domain appears in a result at most once, as its host: either the result
      holds no domain at all, or it is the domain prefix followed by a path that
      holds none. */
  lemma NoDoubledDomain(pathOrUrl: string, domain: string)
    requires FullS3Url(pathOrUrl, domain).Url?
    ensures var u := FullS3Url(pathOrUrl, domain).value;
      || !Occurs(domain, u)
      || (StartsWith(u, Prefix(domain)) && !Occurs(domain, u[|Prefix(domain)|..]))
  {
    var p := DropDomain(pathOrUrl, domain);
    if !StartsWith(p, "http") {
      var u := Prefix(domain) + StripLeading(p, '/');
      var t := StripLeading(p, '/');
      assert u[|Prefix(domain)|..] == t;
      if Occurs(domain, t) {
        OccursInSuffix(domain, p, |p| - |t|);
      }
    }
  }

  /** A domain without '/' can occur in "https://" + domain + "/" + t only as the
      host, so the scan consumes the host and leaves "/" + t as the last piece. */
  lemma LastPieceOfConstructed(domain: string, t: string)
    requires domain != [] && '/' !in domain && !Occurs(domain, t)
    ensures Occurs(domain, Prefix(domain) + t)
    ensures LastPiece(Prefix(domain) + t, domain) == "/" + t
  {
    var u := "https://";
    var r := "/" + t;
    var s := u + domain + r;
    assert Prefix(domain) + t == s;
    assert OccursAt(s, domain, |u|);
    forall i | 0 <= i < |u| < i + |domain| && i + |domain| <= |s| ensures !OccursAt(s, domain, i) {
      assert s[i..i + |domain|][7 - i] == s[7] == '/';
      assert domain[7 - i] != '/';
    }
    forall i | 0 < i && i + |domain| <= |r| ensures !OccursAt(r, domain, i) {
      assert r[1..][i - 1..i - 1 + |domain|] == r[i..i + |domain|];
      assert !OccursAt(t, domain, i - 1);
    }
    assert !OccursAt(r, domain, 0) by {
      if |domain| <= |r| {
        assert r[..|domain|][0] == '/' != domain[0];
      }
    }
    LastPieceAfter(u, domain, r);
  }

  /** Applying the function to a URL it built from a path returns that URL, when
      the path holds no domain and does not begin (after its leading '/'s) with
      "http": the domain is not doubled. */
  lemma ReapplyConstructed(path: string, domain: string)
    requires domain != [] && '/' !in domain
    requires !Occurs(domain, path) && !StartsWith(StripLeading(path, '/'), "http")
    ensures var u := Prefix(domain) + StripLeading(path, '/');
      FullS3Url(u, domain) == Url(u)
  {
    var t := StripLeading(path, '/');
    if Occurs(domain, t) {
      OccursInSuffix(domain, path, |path| - |t|);
    }
    LastPieceOfConstructed(domain, t);
    assert StripLeading("/" + t, '/') == StripLeading(t, '/');
    StripLeadingIdempotent(path, '/');
  }

  /** Stripping '/'s from a string that does not start with '/' changes nothing. */
  lemma StripNothing(p: string)
    requires p == [] || p[0] != '/'
    ensures StripLeading(p, '/') == p
  {
  }

  /** As written, the "http" test looks at the path before its leading '/'s are
      stripped. A path "/http..." without the domain therefore gets the domain
      prefix, and re-applying the function to that URL drops the host again. */
  lemma ReapplySlashHttpDropsHost(domain: string, h: string)
    requires domain != [] && '/' !in domain
    requires StartsWith(h, "http") && !Occurs(domain, "/" + h)
    ensures FullS3Url("/" + h, domain) == Url(Prefix(domain) + h)
    ensures FullS3Url(Prefix(domain) + h, domain) == Url(h)
  {
    var path := "/" + h;
    assert h[0] == 'h';
    assert path[1..] == h;
    assert !StartsWith(path, "http") by {
      assert path[0] == '/';
    }
    assert DropDomain(path, domain) == path;
    assert StripLeading(path, '/') == StripLeading(h, '/');
    StripNothing(h);
    assert FullS3Url(path, domain) == Url(Prefix(domain) + h);
    if Occurs(domain, h) {
      OccursInSuffix(domain, path, 1);
    }
    LastPieceOfConstructed(domain, h);
    assert DropDomain(Prefix(domain) + h, domain) == h;
  }

  /** `get_full_s3_url` with the "http" test moved after the leading '/'s are
      stripped, the evident intent of "remove any existing domain prefix to
      prevent double URLs". */
  function FullS3UrlFixed(pathOrUrl: string, domain: string): (r: FullUrl)
    ensures r == NoUrl <==> pathOrUrl == []
    ensures r == EmptySeparatorError <==> pathOrUrl != [] && domain == []
    ensures r.Url? ==> StartsWith(r.value, "http")
  {
    if pathOrUrl == [] then NoUrl
    else if domain == [] then EmptySeparatorError
    else
      var p := StripLeading(DropDomain(pathOrUrl, domain), '/');
      if StartsWith(p, "http") then Url(p)
      else Url(Prefix(domain) + p)
  }

  /** Where the domain-free input starts with "http", both versions return it. */
  lemma AgreeOnHttp(pathOrUrl: string, domain: string)
    requires pathOrUrl != [] && domain != []
    requires StartsWith(DropDomain(pathOrUrl, domain), "http")
    ensures FullS3UrlFixed(pathOrUrl, domain) == FullS3Url(pathOrUrl, domain)
  {
    var p := DropDomain(pathOrUrl, domain);
    assert p[0] == 'h';
    StripNothing(p);
  }

  /** Stripping '/'s exposes "http" only on a path without the domain that
      starts with '/'. */
  lemma StripExposesHttp(pathOrUrl: string, domain: string)
    requires pathOrUrl != [] && domain != []
    requires !StartsWith(DropDomain(pathOrUrl, domain), "http")
    requires StartsWith(StripLeading(DropDomain(pathOrUrl, domain), '/'), "http")
    ensures !Occurs(domain, pathOrUrl) && pathOrUrl[0] == '/'
    ensures StartsWith(StripLeading(pathOrUrl, '/'), "http")
  {
    var p := DropDomain(pathOrUrl, domain);
    var q := StripLeading(p, '/');
    assert p != q;
    assert p != [] && p[0] == '/';
    assert !Occurs(domain, pathOrUrl) ==> p == pathOrUrl;
  }

  /** Where neither version sees "http", both build the same URL. */
  lemma AgreeOffHttp(pathOrUrl: string, domain: string)
    requires pathOrUrl != [] && domain != []
    requires !StartsWith(DropDomain(pathOrUrl, domain), "http")
    requires !StartsWith(StripLeading(DropDomain(pathOrUrl, domain), '/'), "http")
    ensures FullS3UrlFixed(pathOrUrl, domain) == FullS3Url(pathOrUrl, domain)
  {
  }

  /** The corrected function agrees with the original everywhere except on a path
      that holds no domain and starts with '/'s followed by "http". */
  lemma FixedAgreesElsewhere(pathOrUrl: string, domain: string)
    requires !(domain != [] && !Occurs(domain, pathOrUrl) && pathOrUrl != []
               && pathOrUrl[0] == '/' && StartsWith(StripLeading(pathOrUrl, '/'), "http"))
    ensures FullS3UrlFixed(pathOrUrl, domain) == FullS3Url(pathOrUrl, domain)
  {
    if pathOrUrl != [] && domain != [] {
      var p := DropDomain(pathOrUrl, domain);
      if StartsWith(p, "http") {
        AgreeOnHttp(pathOrUrl, domain);
      } else if StartsWith(StripLeading(p, '/'), "http") {
        StripExposesHttp(pathOrUrl, domain);
      } else {
        AgreeOffHttp(pathOrUrl, domain);
      }
    }
  }

  /** A domain-free URL starting with "http" is returned by the corrected function. */
  lemma FixedKeepsHttpUrl(p: string, domain: string)
    requires domain != [] && !Occurs(domain, p) && StartsWith(p, "http")
    ensures FullS3UrlFixed(p, domain) == Url(p)
  {
    assert p[0] == 'h';
    StripNothing(p);
  }

  /** A URL the corrected function built from a stripped, domain-free path is
      returned by it. */
  lemma FixedKeepsBuiltUrl(p: string, domain: string)
    requires domain != [] && '/' !in domain && !Occurs(domain, p)
    requires (p == [] || p[0] != '/') && !StartsWith(p, "http")
    ensures FullS3UrlFixed(Prefix(domain) + p, domain) == Url(Prefix(domain) + p)
  {
    var u := Prefix(domain) + p;
    LastPieceOfConstructed(domain, p);
    assert ("/" + p)[1..] == p;
    assert StripLeading("/" + p, '/') == StripLeading(p, '/');
    StripNothing(p);
    assert AfterDomain(u, domain) == p;
    assert DropDomain(u, domain) == p;
  }

  /** The corrected function is idempotent on the URLs it returns. */
  lemma FixedIdempotent(pathOrUrl: string, domain: string)
    requires '/' !in domain
    requires FullS3UrlFixed(pathOrUrl, domain).Url?
    ensures var u := FullS3UrlFixed(pathOrUrl, domain).value;
      FullS3UrlFixed(u, domain) == Url(u)
  {
    var q := DropDomain(pathOrUrl, domain);
    var p := StripLeading(q, '/');
    assert !Occurs(domain, p) by {
      if Occurs(domain, p) {
        OccursInSuffix(domain, q, |q| - |p|);
      }
    }
    if StartsWith(p, "http") {
      FixedKeepsHttpUrl(p, domain);
    } else {
      FixedKeepsBuiltUrl(p, domain);
    }
  }
}
