/** The registry host: the network location (the authority of section 3.2 of
    RFC 3986) of the registry URL, with the `oci://` scheme read as
    `https://` (entrypoint.py, get_registry_host). Only the part of
    urllib.parse.urlsplit that decides the network location is modelled: the
    scheme prefix, the "//" that opens an authority, and the first "/", "?"
    or "#" that closes it. */
module Registry {
  import opened Outcomes
  import opened Text

  const OCI_PREFIX: string := "oci://"
  const HTTPS_PREFIX: string := "https://"

  predicate IsAsciiLetter(c: char) {
    'a' <= c <= 'z' || 'A' <= c <= 'Z'
  }

  /** The characters urlsplit allows in a scheme. */
  predicate IsSchemeChar(c: char) {
    IsAsciiLetter(c) || '0' <= c <= '9' || c == '+' || c == '-' || c == '.'
  }

  /** A scheme as urlsplit recognises one before the first ":": non-empty, an
      ASCII letter first, scheme characters only. */
  predicate IsScheme(s: string) {
    s != "" && IsAsciiLetter(s[0]) && forall k :: 0 <= k < |s| ==> IsSchemeChar(s[k])
  }

  /** The characters that end an authority. */
  predicate IsDelimiter(c: char) {
    c == '/' || c == '?' || c == '#'
  }

  /** get_registry_host first turns a leading "oci://" into "https://". */
  function RewriteOci(url: string): (r: string)
    ensures StartsWith(url, OCI_PREFIX) ==> r == HTTPS_PREFIX + url[|OCI_PREFIX|..]
    ensures !StartsWith(url, OCI_PREFIX) ==> r == url
  {
    if StartsWith(url, OCI_PREFIX) then HTTPS_PREFIX + url[|OCI_PREFIX|..] else url
  }

  /** urlsplit's scheme step: what follows the first ":" when the text before
      it is a scheme, and otherwise the whole URL. Either way a suffix. */
  function AfterScheme(url: string): (rest: string)
    ensures |rest| <= |url| && rest == url[|url| - |rest|..]
    ensures IndexOf(url, ":").Some? && IsScheme(url[..IndexOf(url, ":").value]) ==>
              rest == url[IndexOf(url, ":").value + 1..]
    ensures IndexOf(url, ":").None? || !IsScheme(url[..IndexOf(url, ":").value]) ==> rest == url
    ensures rest != url ==>
              var i := |url| - |rest| - 1;
              0 <= i && url[i] == ':' && ':' !in url[..i] && IsScheme(url[..i])
  {
    match IndexOf(url, ":")
    case Some(i) => if IsScheme(url[..i]) then url[i + 1..] else url
    case None => url
  }

  /** The authority text: everything up to the first delimiter. */
  function UpToDelimiter(s: string): (r: string)
    ensures |r| <= |s| && r == s[..|r|]
    ensures forall k :: 0 <= k < |r| ==> !IsDelimiter(r[k])
    ensures |r| < |s| ==> IsDelimiter(s[|r|])
  {
    if s == [] || IsDelimiter(s[0]) then "" else [s[0]] + UpToDelimiter(s[1..])
  }

  /** urlsplit(url).netloc: when the rest after the scheme opens with "//",
      the text up to the next delimiter; otherwise there is none (""). */
  function Netloc(url: string): (n: string)
    ensures forall k :: 0 <= k < |n| ==> !IsDelimiter(n[k])
    ensures !StartsWith(AfterScheme(url), "//") ==> n == ""
    ensures var rest := AfterScheme(url);
            StartsWith(rest, "//") ==>
              |n| <= |rest| - 2 && n == rest[2..][..|n|] &&
              (|n| < |rest| - 2 ==> IsDelimiter(rest[2 + |n|]))
  {
    var rest := AfterScheme(url);
    if StartsWith(rest, "//") then UpToDelimiter(rest[2..]) else ""
  }

  /** get_registry_host: the network location of the (rewritten) URL, never
      its path, query or fragment; no network location ends the run. */
  function GetRegistryHost(url: string): (r: Result<string>)
    ensures r.Ok? ==> r.value != "" && forall k :: 0 <= k < |r.value| ==> !IsDelimiter(r.value[k])
    ensures r.Fail? ==> r.why == InvalidRegistryUrl
  {
    var netloc := Netloc(RewriteOci(url));
    if netloc == "" then Fail(InvalidRegistryUrl) else Ok(netloc)
  }

  // ---------------------------------------------------------------------
  // Properties

  /** An `oci://` URL and the same URL spelled with `https://` name the same
      registry host. */
  lemma OciAndHttpsAgree(rest: string)
    ensures GetRegistryHost(OCI_PREFIX + rest) == GetRegistryHost(HTTPS_PREFIX + rest)
  {
    RewriteOfOci(rest);
    RewriteOfHttps(rest);
  }

  lemma RewriteOfOci(rest: string)
    ensures RewriteOci(OCI_PREFIX + rest) == HTTPS_PREFIX + rest
  {
    assert (OCI_PREFIX + rest)[..|OCI_PREFIX|] == OCI_PREFIX;
    assert (OCI_PREFIX + rest)[|OCI_PREFIX|..] == rest;
  }

  lemma RewriteOfHttps(rest: string)
    ensures RewriteOci(HTTPS_PREFIX + rest) == HTTPS_PREFIX + rest
  {
    var url := HTTPS_PREFIX + rest;
    assert url[..6][2] == 't';
  }

  /** For a URL of the shape scheme://authority[/path], the host is exactly
      the authority. */
  lemma HostOfAuthorityUrl(scheme: string, authority: string, path: string)
    requires IsScheme(scheme)
    requires authority != "" && forall k :: 0 <= k < |authority| ==> !IsDelimiter(authority[k])
    requires path == "" || path[0] == '/'
    ensures GetRegistryHost(scheme + "://" + authority + path) == Ok(authority)
  {
    var tail := authority + path;
    UpToDelimiterStops(authority, path);
    assert scheme + "://" + authority + path == scheme + "://" + tail;
    if scheme == "oci" {
      assert scheme + "://" + tail == OCI_PREFIX + tail;
      OciRewriteNetloc(tail);
    } else {
      PlainHost(scheme, tail);
    }
  }

  lemma OciRewriteNetloc(tail: string)
    ensures Netloc(RewriteOci(OCI_PREFIX + tail)) == UpToDelimiter(tail)
  {
    RewriteOfOci(tail);
    HttpsIsScheme();
    assert HTTPS_PREFIX + tail == "https" + "://" + tail;
    NetlocOfSchemeUrl("https", tail);
  }

  lemma PlainHost(scheme: string, tail: string)
    requires IsScheme(scheme) && scheme != "oci"
    ensures Netloc(RewriteOci(scheme + "://" + tail)) == UpToDelimiter(tail)
  {
    NotOciPrefix(scheme, tail);
    NetlocOfSchemeUrl(scheme, tail);
  }

  lemma HttpsIsScheme()
    ensures IsScheme("https")
  {
  }

  /** A scheme other than "oci" leaves nothing for the rewrite to change. */
  lemma NotOciPrefix(scheme: string, tail: string)
    requires IsScheme(scheme) && scheme != "oci"
    ensures RewriteOci(scheme + "://" + tail) == scheme + "://" + tail
  {
    var url := scheme + "://" + tail;
    if |url| < 6 {
    } else if |scheme| < 3 {
      assert url[..6][|scheme|] == ':';
    } else if |scheme| == 3 {
      assert url[..3] == scheme;
      assert url[..6][..3] == url[..3];
    } else {
      assert url[..6][3] == scheme[3];
    }
  }

  /** urlsplit splits a scheme off at the first ":", and the network location
      is then the text after "//" up to the first delimiter. */
  lemma NetlocOfSchemeUrl(scheme: string, tail: string)
    requires IsScheme(scheme)
    ensures Netloc(scheme + "://" + tail) == UpToDelimiter(tail)
  {
    AfterSchemeOfSchemeUrl(scheme, tail);
    var rest := "//" + tail;
    assert rest[..2] == "//";
    assert rest[2..] == tail;
  }

  /** What follows the scheme and its ":" is the "//" and the tail. */
  lemma AfterSchemeOfSchemeUrl(scheme: string, tail: string)
    requires IsScheme(scheme)
    ensures AfterScheme(scheme + "://" + tail) == "//" + tail
  {
    var url := scheme + "://" + tail;
    FirstColonAfterScheme(scheme, tail);
    assert url[..|scheme|] == scheme;
    assert url[|scheme| + 1..] == "//" + tail;
  }

  lemma FirstColonAfterScheme(scheme: string, tail: string)
    requires IsScheme(scheme)
    ensures IndexOf(scheme + "://" + tail, ":") == Some(|scheme|)
  {
    var url := scheme + "://" + tail;
    assert url[|scheme|..|scheme| + 1] == ":";
    assert OccursAt(url, ":", |scheme|);
    forall j | 0 <= j < |scheme| ensures !OccursAt(url, ":", j) {
      assert url[j..j + 1][0] == scheme[j];
    }

  }

  lemma {:induction false} UpToDelimiterStops(authority: string, path: string)
    requires forall k :: 0 <= k < |authority| ==> !IsDelimiter(authority[k])
    requires path == "" || path[0] == '/'
    ensures UpToDelimiter(authority + path) == authority
    decreases |authority|
  {
    if authority == "" {
      assert authority + path == path;
    } else {
      assert (authority + path)[1..] == authority[1..] + path;
      UpToDelimiterStops(authority[1..], path);
    }
  }

  /** The host is read from the URL itself: it follows a "//" there. */
  lemma HostFollowsDoubleSlash(url: string)
    ensures GetRegistryHost(url).Ok? ==> Contains(url, "//" + GetRegistryHost(url).value)
  {
    if StartsWith(url, OCI_PREFIX) {
      var tail := url[|OCI_PREFIX|..];
      assert url == OCI_PREFIX + tail;
      OciNetlocFollowsDoubleSlash(tail);
    } else {
      NetlocFollowsDoubleSlash(url);
    }
  }

  /** A network location is the text after the "//" that opens what follows
      the scheme. */
  lemma NetlocFollowsDoubleSlash(url: string)
    ensures Netloc(url) != "" ==>
              OccursAt(url, "//" + Netloc(url), |url| - |AfterScheme(url)|)
  {
    var rest := AfterScheme(url);
    if StartsWith(rest, "//") {
      var n := UpToDelimiter(rest[2..]);
      OpeningOccurs(url, rest, n);
    }
  }

  /** Text that opens a suffix with "//" occurs in the whole string where the
      suffix begins. */
  lemma OpeningOccurs(url: string, rest: string, n: string)
    requires |rest| <= |url| && rest == url[|url| - |rest|..]
    requires StartsWith(rest, "//")
    requires |n| <= |rest| - 2 && n == rest[2..][..|n|]
    ensures OccursAt(url, "//" + n, |url| - |rest|)
  {
    var at := |url| - |rest|;
    assert rest[..2 + |n|] == "//" + n by {
      assert rest[..2 + |n|] == rest[..2] + rest[2..][..|n|];
    }
    assert url[at..at + 2 + |n|] == rest[..2 + |n|];
  }

  /** After the rewrite of "oci://" the "//" that opens the authority is the
      URL's own, at index 4. */
  lemma OciNetlocFollowsDoubleSlash(tail: string)
    ensures var n := Netloc(RewriteOci(OCI_PREFIX + tail));
            n != "" ==> OccursAt(OCI_PREFIX + tail, "//" + n, 4)
  {
    OciRewriteNetloc(tail);
    var url := OCI_PREFIX + tail;
    var n := UpToDelimiter(tail);
    OciTail(tail);
    OpeningOccurs(url, "//" + tail, n);
  }

  /** What follows "oci:" is the "//" and the tail. */
  lemma OciTail(tail: string)
    ensures (OCI_PREFIX + tail)[4..] == "//" + tail
  {
    assert OCI_PREFIX == "oci:" + "//";
    assert OCI_PREFIX + tail == "oci:" + ("//" + tail);
  }

  /** A leading "oci://" holds a "//". */
  lemma OciOpensDoubleSlash(url: string)
    ensures StartsWith(url, OCI_PREFIX) ==> OccursAt(url, "//", 4)
  {
    if StartsWith(url, OCI_PREFIX) {
      assert url[4..6] == url[..6][4..6];
    }
  }

  /** A URL with no "//" anywhere has no network location, so the run ends. */
  lemma NoDoubleSlashExits(url: string)
    requires !Contains(url, "//")
    ensures GetRegistryHost(url) == Fail(InvalidRegistryUrl)
  {
    OciOpensDoubleSlash(url);
    assert RewriteOci(url) == url;
    NetlocFollowsDoubleSlash(url);
    var n := Netloc(url);
    var at := |url| - |AfterScheme(url)|;
    assert n != "" ==> OccursAt(url, "//", at) by {
      if n != "" {
        assert url[at..at + 2] == url[at..at + 2 + |n|][..2];
      }
    }
  }

  lemma NoSlashNoDoubleSlash(url: string)
    requires '/' !in url
    ensures !Contains(url, "//")
  {
    forall k | 0 <= k <= |url| - 2 ensures !OccursAt(url, "//", k) {
      assert url[k] in url;
    }
  }

  // ---------------------------------------------------------------------
  // The examples of the action's own tests

  /** No "/", "?" or "#" in a text means no delimiter in it. */
  lemma DelimiterFree(s: string)
    requires '/' !in s && '?' !in s && '#' !in s
    ensures forall k :: 0 <= k < |s| ==> !IsDelimiter(s[k])
  {
    forall k | 0 <= k < |s| ensures !IsDelimiter(s[k]) {
      assert s[k] in s;
    }
  }

  lemma OciHostWithoutPath()
    ensures GetRegistryHost("oci://ghcr.io") == Ok("ghcr.io")
  {
    DelimiterFree("ghcr.io");
    assert "oci://ghcr.io" == OCI_PREFIX + "ghcr.io" + "";
    HostOfOciUrl("ghcr.io", "");
  }

  lemma OciHostDropsPath()
    ensures GetRegistryHost("oci://ghcr.io/org") == Ok("ghcr.io")
  {
    DelimiterFree("ghcr.io");
    assert "oci://ghcr.io/org" == OCI_PREFIX + "ghcr.io" + "/org";
    HostOfOciUrl("ghcr.io", "/org");
  }

  /** For oci://authority[/path] the host is the authority. */
  lemma HostOfOciUrl(authority: string, path: string)
    requires authority != "" && forall k :: 0 <= k < |authority| ==> !IsDelimiter(authority[k])
    requires path == "" || path[0] == '/'
    ensures GetRegistryHost(OCI_PREFIX + authority + path) == Ok(authority)
  {
    assert OCI_PREFIX == "oci" + "://";
    HostOfAuthorityUrl("oci", authority, path);
  }

  /** The URL is a parameter fixed by the precondition, built from its
      parts, rather than one literal in the postcondition: the solver would
      otherwise take the long literal apart character by character. */
  lemma HttpsHost(url: string)
    requires url == HTTPS_PREFIX + "h.cfcr.io" + "/user_or_org/reponame"
    ensures GetRegistryHost(url) == Ok("h.cfcr.io")
  {
    assert HTTPS_PREFIX == "https" + "://";
    HostOfAuthorityUrl("https", "h.cfcr.io", "/user_or_org/reponame");
  }

  lemma BareWordExits()
    ensures GetRegistryHost("not-a-valid-url-without-netloc") == Fail(InvalidRegistryUrl)
  {
    NoSlashNoDoubleSlash("not-a-valid-url-without-netloc");
    NoDoubleSlashExits("not-a-valid-url-without-netloc");
  }
}
