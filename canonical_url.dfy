/**
 * The canonical string the signer hashes: `UriSigner::buildUrl`. The URL
 * arrives already split into the components `parse_url` returns; its query is
 * held apart, as the parameter array.
 */
module CanonicalUrl {
  import opened Wrappers
  import opened PhpStrings
  import opened PhpArray

  /** The components of a URL other than its query; None is a component `parse_url` did not report. */
  datatype Url = Url(
    scheme: Option<string>,
    user: Option<string>,
    pass: Option<string>,
    host: Option<string>,
    port: Option<nat>,
    path: Option<string>,
    fragment: Option<string>)

  /**
   * The user information: the user, `:` and the password when there is one,
   * then `@`, which is written exactly when the user is PHP-true (neither ""
   * nor "0") or a password is present.
   */
  function UserInfo(url: Url): (r: string)
    ensures (|r| > 0 && r[|r| - 1] == '@') <==> Truthy(url.user.GetOr("")) || url.pass.Some?
    ensures url.pass.Some? ==> r == url.user.GetOr("") + ":" + url.pass.value + "@"
    ensures url.pass.None? ==> r == url.user.GetOr("") + (if Truthy(url.user.GetOr("")) then "@" else "")
  {
    var user := url.user.GetOr("");
    var pass := if url.pass.Some? then ":" + url.pass.value else "";
    assert url.pass.Some? ==> pass[0] == ':';
    var pass := if Truthy(user) || Truthy(pass) then pass + "@" else "";
    user + pass
  }

  /**
   * Sorts the parameters by key, builds the query from them and reassembles
   * the URL: scheme `://`, user information, host, `:` port, path, `?` query,
   * `#` fragment.
   */
  function BuildUrl(url: Url, params: Params): string
    requires UniqueKeys(params)
  {
    var query := QueryString(KSort(params));
    var scheme := if url.scheme.Some? then url.scheme.value + "://" else "";
    var host := url.host.GetOr("");
    var port := if url.port.Some? then ":" + NatToString(url.port.value) else "";
    var path := url.path.GetOr("");
    var query := if Truthy(query) then "?" + query else "";
    var fragment := if url.fragment.Some? then "#" + url.fragment.value else "";
    scheme + UserInfo(url) + host + port + path + query + fragment
  }

  /**
   * The canonical string lists the components in a fixed order; an absent
   * component adds neither its text nor its separator, and `?` appears
   * exactly when there are parameters.
   */
  lemma BuildUrlLayout(url: Url, params: Params)
    requires UniqueKeys(params)
    ensures BuildUrl(url, params) ==
      (if url.scheme.Some? then url.scheme.value + "://" else "")
      + UserInfo(url)
      + url.host.GetOr("")
      + (if url.port.Some? then ":" + NatToString(url.port.value) else "")
      + url.path.GetOr("")
      + (if params == [] then "" else "?" + QueryString(KSort(params)))
      + (if url.fragment.Some? then "#" + url.fragment.value else "")
  {
    var query := QueryString(KSort(params));
    assert KSort(params) == [] <==> params == [] by {
      if params != [] {
        assert params[0] in multiset(KSort(params));
      }
    }
    assert (if Truthy(query) then "?" + query else "")
        == (if params == [] then "" else "?" + QueryString(KSort(params)));
  }

  /**
   * Two parameter arrays holding the same key/value pairs give the same
   * canonical string, whatever order the pairs were inserted in.
   */
  lemma BuildUrlDependsOnlyOnEntries(url: Url, p: Params, q: Params)
    requires UniqueKeys(p) && UniqueKeys(q) && Entries(p) == Entries(q)
    ensures BuildUrl(url, p) == BuildUrl(url, q)
  {
    KSortDependsOnlyOnEntries(p, q);
  }

  /** Equal texts with a common head and tail agree on what lies between. */
  lemma CancelHeadAndTail(head: string, x: string, y: string, tail: string)
    requires head + x + tail == head + y + tail
    ensures x == y
  {
    var z := head + x + tail;
    assert |x| == |y|;
    assert x == z[|head|..|head| + |x|];
    assert y == (head + y + tail)[|head|..|head| + |y|];
  }

  /**
   * The canonical string determines the key/value pairs it was built from:
   * parameter arrays of byte strings with different pairs never give the
   * same canonical string.
   */
  lemma BuildUrlDeterminesEntries(url: Url, p: Params, q: Params)
    requires UniqueKeys(p) && UniqueKeys(q) && ByteParams(p) && ByteParams(q)
    ensures BuildUrl(url, p) == BuildUrl(url, q) ==> Entries(p) == Entries(q)
  {
    if BuildUrl(url, p) == BuildUrl(url, q) {
      var head := (if url.scheme.Some? then url.scheme.value + "://" else "")
        + UserInfo(url)
        + url.host.GetOr("")
        + (if url.port.Some? then ":" + NatToString(url.port.value) else "")
        + url.path.GetOr("");
      var tail := if url.fragment.Some? then "#" + url.fragment.value else "";
      var x := if p == [] then "" else "?" + QueryString(KSort(p));
      var y := if q == [] then "" else "?" + QueryString(KSort(q));
      assert head + x + tail == head + y + tail by {
        BuildUrlLayout(url, p);
        BuildUrlLayout(url, q);
      }
      CancelHeadAndTail(head, x, y, tail);
      if p != [] && q != [] {
        assert QueryString(KSort(p)) == x[1..] == y[1..] == QueryString(KSort(q));
        KSortKeepsBytes(p);
        KSortKeepsBytes(q);
        QueryStringInjective(KSort(p), KSort(q));
        KSortEntries(p);
        KSortEntries(q);
      }
    }
  }

  /**
   * `url'` is `url` with only its path, or only its host, changed to a
   * different text.
   */
  predicate PathOrHostChanged(url: Url, url': Url) {
    (url' == url.(path := url'.path) && url.path.GetOr("") != url'.path.GetOr(""))
    || (url' == url.(host := url'.host) && url.host.GetOr("") != url'.host.GetOr(""))
  }

  /** Changing the path or the host of a URL changes its canonical string. */
  lemma BuildUrlSensitiveToPathAndHost(url: Url, url': Url, params: Params)
    requires UniqueKeys(params) && PathOrHostChanged(url, url')
    ensures BuildUrl(url, params) != BuildUrl(url', params)
  {
    if url' == url.(path := url'.path) && url.path.GetOr("") != url'.path.GetOr("") {
      BuildUrlSensitiveToPath(url, url', params);
    } else {
      BuildUrlSensitiveToHost(url, url', params);
    }
  }

  /** Equal texts that differ only in one part followed by two fixed parts agree on that part. */
  lemma CancelBeforeTwo(head: string, x: string, y: string, a: string, b: string)
    requires head + x + a + b == head + y + a + b
    ensures x == y
  {
    assert |x| == |y|;
    assert x == (head + x + a + b)[|head|..|head| + |x|];
    assert y == (head + y + a + b)[|head|..|head| + |y|];
  }

  /** Equal texts that differ only in one part followed by four fixed parts agree on that part. */
  lemma CancelBeforeFour(head: string, x: string, y: string, a: string, b: string, c: string, d: string)
    requires head + x + a + b + c + d == head + y + a + b + c + d
    ensures x == y
  {
    assert |x| == |y|;
    assert x == (head + x + a + b + c + d)[|head|..|head| + |x|];
    assert y == (head + y + a + b + c + d)[|head|..|head| + |y|];
  }

  lemma BuildUrlSensitiveToPath(url: Url, url': Url, params: Params)
    requires UniqueKeys(params)
    requires url' == url.(path := url'.path) && url.path.GetOr("") != url'.path.GetOr("")
    ensures BuildUrl(url, params) != BuildUrl(url', params)
  {
    var q := QueryString(KSort(params));
    var head := (if url.scheme.Some? then url.scheme.value + "://" else "") + UserInfo(url) + url.host.GetOr("")
      + (if url.port.Some? then ":" + NatToString(url.port.value) else "");
    var query := if Truthy(q) then "?" + q else "";
    var fragment := if url.fragment.Some? then "#" + url.fragment.value else "";
    assert UserInfo(url') == UserInfo(url);
    if BuildUrl(url, params) == BuildUrl(url', params) {
      CancelBeforeTwo(head, url.path.GetOr(""), url'.path.GetOr(""), query, fragment);
    }
  }

  lemma BuildUrlSensitiveToHost(url: Url, url': Url, params: Params)
    requires UniqueKeys(params)
    requires url' == url.(host := url'.host) && url.host.GetOr("") != url'.host.GetOr("")
    ensures BuildUrl(url, params) != BuildUrl(url', params)
  {
    var q := QueryString(KSort(params));
    var head := (if url.scheme.Some? then url.scheme.value + "://" else "") + UserInfo(url);
    var port := if url.port.Some? then ":" + NatToString(url.port.value) else "";
    var query := if Truthy(q) then "?" + q else "";
    var fragment := if url.fragment.Some? then "#" + url.fragment.value else "";
    assert UserInfo(url') == UserInfo(url);
    if BuildUrl(url, params) == BuildUrl(url', params) {
      CancelBeforeFour(head, url.host.GetOr(""), url'.host.GetOr(""), port, url.path.GetOr(""), query, fragment);
    }
  }

  /**
   * A user of "0" is PHP-false: with no password it is written without `@`,
   * so it runs into the host that follows it.
   */
  lemma UserZeroHasNoAtSign(url: Url)
    requires url.user == Some("0") && url.pass.None?
    ensures UserInfo(url) == "0"
  {
    assert !Truthy("0");
  }
}
