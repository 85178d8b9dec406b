/**
 * The curated starter URL list of baseline/urls/generate.js: every endpoint of a fixed
 * table is normalised against its origin, duplicates are dropped, suspicious URLs are
 * filtered out and the rest is sorted.
 */
module CuratedUrls {
  import opened Strings
  import opened Seqs
  import opened Sorting

  /** An origin and the paths listed under it. */
  datatype Endpoint = Endpoint(base: string, paths: seq<string>)

  const CuratedEndpoints: seq<Endpoint> := [
    Endpoint("https://supabase.com", ["/", "/pricing", "/docs", "/status", "/terms", "/privacy", "/blog", "/security", "/careers", "/changelog"]),
    Endpoint("https://vercel.com", ["/", "/pricing", "/docs", "/status", "/security", "/changelog", "/terms", "/privacy", "/careers", "/blog"]),
    Endpoint("https://netlify.com", ["/", "/pricing", "/docs", "/blog", "/careers", "/security", "/privacy", "/legal/terms-of-use"]),
    Endpoint("https://stripe.com", ["/", "/pricing", "/docs", "/blog", "/status", "/privacy", "/legal/terms"]),
    Endpoint("https://render.com", ["/", "/pricing", "/docs", "/blog", "/status", "/privacy", "/terms"]),
    Endpoint("https://railway.app", ["/", "/pricing", "/docs", "/blog", "/status", "/security", "/privacy"]),
    Endpoint("https://fly.io", ["/", "/pricing", "/docs", "/blog", "/legal/terms", "/legal/privacy"]),
    Endpoint("https://github.com", ["/", "/pricing", "/site/terms", "/site/privacy", "/security", "/blog", "/about/careers"]),
    Endpoint("https://gitlab.com", ["/", "/pricing", "/terms", "/privacy", "/blog", "/explore"]),
    Endpoint("https://digitalocean.com", ["/", "/pricing", "/docs", "/legal/terms-of-service-agreement", "/legal/privacy-policy", "/blog", "/status"]),
    Endpoint("https://openai.com", ["/", "/pricing", "/policies/terms-of-use", "/policies/privacy-policy", "/blog"]),
    Endpoint("https://huggingface.co", ["/", "/pricing", "/docs", "/blog", "/join", "/support"])
  ]

  /** `s.replace(/\/$/, '')`: drops one trailing slash. */
  function StripTrailingSlash(s: string): string
  {
    if s != [] && s[|s| - 1] == '/' then s[..|s| - 1] else s
  }

  /** Exactly one trailing slash goes, and only when there is one. */
  lemma StripOneSlash(s: string)
    ensures var r := StripTrailingSlash(s);
      (r == s <==> !EndsWith(s, "/")) && (r != s ==> r + "/" == s)
  {
  }

  /** `new URL(ref, base).toString()` for a path-absolute `ref` and a `base` that is an
      origin followed by `/`: the reference replaces the base's path. */
  function ResolveAgainstOrigin(ref: string, base: string): string
    requires StartsWith(ref, "/") && EndsWith(base, "/")
  {
    base[..|base| - 1] + ref
  }

  predicate HostChar(c: char)
  {
    'a' <= c <= 'z' || '0' <= c <= '9' || c == '.' || c == '-'
  }

  /** `http://host` or `https://host` with a lower-case host and no port, path, query or
      fragment: an origin `new URL` writes back as it is. */
  predicate IsOrigin(base: string)
  {
    var host := if StartsWith(base, "https://") then base[8..] else if StartsWith(base, "http://") then base[7..] else [];
    host != [] && forall i | 0 <= i < |host| :: HostChar(host[i])
  }

  predicate PathChar(c: char)
  {
    'a' <= c <= 'z' || 'A' <= c <= 'Z' || '0' <= c <= '9' || c in "-._~/"
  }

  /** A path `new URL` keeps as written: no character it would percent-encode, no `//`
      at the start (which would name a host) and no `.` or `..` segment. */
  predicate PlainPath(path: string)
  {
    (forall i | 0 <= i < |path| :: PathChar(path[i])) && !StartsWith(path, "//") &&
    var segments := Split(path, '/');
    forall i | 0 <= i < |segments| :: segments[i] != "." && segments[i] != ".."
  }

  /** An origin does not end with a slash. */
  lemma OriginNoTrailingSlash(base: string)
    requires IsOrigin(base)
    ensures !EndsWith(base, "/")
  {
    var k := if StartsWith(base, "https://") then 8 else 7;
    var host := base[k..];
    assert host != [] && HostChar(host[|host| - 1]);
    assert base[|base| - 1] == host[|host| - 1];
    assert base[|base| - 1..] == [base[|base| - 1]];
  }

  /** `normalizeUrl`, with `new URL` resolved for an origin and a plain path. */
  function NormalizeUrl(base: string, path: string): string
  {
    var normalizedBase := StripTrailingSlash(base);
    var normalizedPath := if StartsWith(path, "/") then path else "/" + path;
    StripTrailingSlash(ResolveAgainstOrigin(normalizedPath, normalizedBase + "/"))
  }

  /** The root path gives the bare origin, with or without the leading slash. */
  lemma RootPathIsOrigin(base: string)
    requires IsOrigin(StripTrailingSlash(base))
    ensures NormalizeUrl(base, "/") == StripTrailingSlash(base)
    ensures NormalizeUrl(base, "") == StripTrailingSlash(base)
  {
    var o := StripTrailingSlash(base);
    assert (o + "/")[..|o|] == o;
    assert o + "/" + "" == o + "/";
  }

  /** A missing leading slash on the path, or a trailing one on the base, changes nothing. */
  lemma SlashesOptional(base: string, path: string)
    requires IsOrigin(StripTrailingSlash(base)) && PlainPath(path)
    ensures !StartsWith(path, "/") ==> NormalizeUrl(base, path) == NormalizeUrl(base, "/" + path)
    ensures !EndsWith(base, "/") ==> NormalizeUrl(base + "/", path) == NormalizeUrl(base, path)
  {
    assert ("/" + path)[..1] == "/";
    if !EndsWith(base, "/") {
      assert (base + "/")[..|base|] == base;
    }
  }

  /** An ordinary path under an origin is appended to it as it is. */
  lemma PathAppended(base: string, path: string)
    requires IsOrigin(base) && PlainPath(path)
    requires StartsWith(path, "/") && !EndsWith(path, "/")
    ensures NormalizeUrl(base, path) == base + path
  {
    OriginNoTrailingSlash(base);
    var t := (base + "/")[..|base|] + path;
    assert (base + "/")[..|base|] == base;
    assert t[|t| - 1] == path[|path| - 1];
  }

  predicate EndsInThreeDigits(s: string)
  {
    |s| >= 3 && IsDigit(s[|s| - 1]) && IsDigit(s[|s| - 2]) && IsDigit(s[|s| - 3])
  }

  /** `url.split('/').pop()`: the text after the last slash, or all of `url` when it has
      none. */
  function LastSegment(url: string): (seg: string)
    ensures EndsWith(url, seg) && '/' !in seg
    ensures |seg| < |url| ==> url[|url| - |seg| - 1] == '/'
  {
    if url == [] || url[|url| - 1] == '/' then []
    else
      var front := url[..|url| - 1];
      var seg := LastSegment(front);
      SuffixGrows(url, seg);
      seg + [url[|url| - 1]]
  }

  /** A suffix of all but the last character, with that character added, is a suffix. */
  lemma SuffixGrows(url: string, seg: string)
    requires url != [] && EndsWith(url[..|url| - 1], seg)
    ensures EndsWith(url, seg + [url[|url| - 1]])
  {
    var n, m := |url|, |seg|;
    assert url[n - m - 1..] == url[..n - 1][n - 1 - m..] + [url[n - 1]];
  }

  /** `/\/baseline-/i.test(url)` or `/\d{3,}$/.test(url.split('/').pop())`. The pattern's
      letters are lower-case ASCII, which is all a non-Unicode `i` flag folds onto them. */
  predicate IsSuspicious(url: string)
  {
    Includes(ToLower(url), "/baseline-") || EndsInThreeDigits(LastSegment(url))
  }

  /** The digit rule looks only at the URL's last three characters: a slash among them
      would end the last segment too early. */
  lemma SuspiciousIff(url: string)
    ensures IsSuspicious(url) <==> Contains(ToLower(url), "/baseline-") || EndsInThreeDigits(url)
  {
    var seg := LastSegment(url);
    var n, m := |url|, |seg|;
    if m >= 3 {
      assert seg[m - 1] == url[n - 1] && seg[m - 2] == url[n - 2] && seg[m - 3] == url[n - 3];
    } else {
      assert !EndsInThreeDigits(url) by {
        if m < n {
          assert url[n - m - 1] == '/';
        }
      }
    }
  }

  /** In particular, a URL holding `/baseline-` in any letter case is suspicious. */
  lemma BaselinePathSuspicious(url: string)
    requires Contains(url, "/baseline-")
    ensures IsSuspicious(url)
  {
    var needle := "/baseline-";
    var i :| OccursAt(url, needle, i);
    var l := ToLower(url);
    forall k | 0 <= k < |needle| ensures l[i + k] == needle[k] {
      assert url[i + k] == url[i..i + |needle|][k];
    }
    assert l[i..i + |needle|] == needle;
    assert OccursAt(l, needle, i);
  }

  /** The URLs of one endpoint, in table order. */
  function EndpointUrls(base: string, paths: seq<string>): (r: seq<string>)
    ensures |r| == |paths|
  {
    if paths == [] then []
    else EndpointUrls(base, paths[..|paths| - 1]) + [NormalizeUrl(base, paths[|paths| - 1])]
  }

  /** Position `j` holds path `j` normalised against the origin. */
  lemma {:induction false} EndpointUrlsAt(base: string, paths: seq<string>, j: int)
    requires 0 <= j < |paths|
    ensures EndpointUrls(base, paths)[j] == NormalizeUrl(base, paths[j])
  {
    if j < |paths| - 1 {
      EndpointUrlsAt(base, paths[..|paths| - 1], j);
    }
  }

  /** Every URL the nested loops push, in order. */
  function AllUrls(endpoints: seq<Endpoint>): seq<string>
  {
    if endpoints == [] then []
    else
      var e := endpoints[|endpoints| - 1];
      AllUrls(endpoints[..|endpoints| - 1]) + EndpointUrls(e.base, e.paths)
  }

  /** `u` is the URL of path `j` of endpoint `i`. */
  predicate ListedAt(endpoints: seq<Endpoint>, i: int, j: int, u: string)
  {
    0 <= i < |endpoints| && 0 <= j < |endpoints[i].paths|
    && EndpointUrls(endpoints[i].base, endpoints[i].paths)[j] == u
  }

  /** That URL is path `j` normalised against origin `i`. */
  lemma ListedAtNormalized(endpoints: seq<Endpoint>, i: int, j: int, u: string)
    requires 0 <= i < |endpoints| && 0 <= j < |endpoints[i].paths|
    ensures ListedAt(endpoints, i, j, u) <==> NormalizeUrl(endpoints[i].base, endpoints[i].paths[j]) == u
  {
    EndpointUrlsAt(endpoints[i].base, endpoints[i].paths, j);
  }

  /** `u` is the normalised form of some entry of the table. */
  ghost predicate Listed(endpoints: seq<Endpoint>, u: string)
  {
    exists i, j :: ListedAt(endpoints, i, j, u)
  }

  /** The pushed URLs are exactly the normalised table entries. */
  lemma {:induction false} AllUrlsListed(endpoints: seq<Endpoint>, u: string)
    ensures u in AllUrls(endpoints) <==> Listed(endpoints, u)
  {
    if endpoints != [] {
      var n := |endpoints| - 1;
      AllUrlsListed(endpoints[..n], u);
      ListedStep(endpoints, u);
    }
  }

  /** A table lists `u` when its front does or its last endpoint does. */
  lemma ListedStep(endpoints: seq<Endpoint>, u: string)
    requires endpoints != []
    ensures var n := |endpoints| - 1;
      Listed(endpoints, u) <==> Listed(endpoints[..n], u) || u in EndpointUrls(endpoints[n].base, endpoints[n].paths)
  {
    var n := |endpoints| - 1;
    var front, e := endpoints[..n], endpoints[n];
    var urls := EndpointUrls(e.base, e.paths);
    if u in urls {
      var j :| 0 <= j < |urls| && urls[j] == u;
      assert ListedAt(endpoints, n, j, u);
    }
    if Listed(front, u) {
      var i, j :| ListedAt(front, i, j, u);
      assert ListedAt(endpoints, i, j, u);
    }
    if Listed(endpoints, u) {
      var i, j :| ListedAt(endpoints, i, j, u);
      if i < n {
        assert ListedAt(front, i, j, u);
      } else {
        assert i == n && urls[j] == u;
      }
    }
  }

  /** `Array.from(new Set(s))`: the first occurrence of each element, in order. */
  function Distinct(s: seq<string>): (r: seq<string>)
    ensures forall x :: x in r <==> x in s
    ensures UniqueKeys(r, Id)
  {
    if s == [] then []
    else
      var d := Distinct(s[..|s| - 1]);
      assert s == s[..|s| - 1] + [s[|s| - 1]];
      if s[|s| - 1] in d then d else d + [s[|s| - 1]]
  }

  function Id(u: string): string { u }

  predicate Kept(u: string)
  {
    !IsSuspicious(u)
  }

  /** What `generateCuratedUrls` returns for a table. */
  function CuratedList(endpoints: seq<Endpoint>): seq<string>
  {
    SortBy(Filter(Distinct(AllUrls(endpoints)), Kept), Id)
  }

  /** The list is strictly ascending (so sorted and free of duplicates), holds no
      suspicious URL, and holds exactly the listed URLs that are not suspicious. */
  lemma CuratedListProperties(endpoints: seq<Endpoint>)
    ensures var r := CuratedList(endpoints);
      StrictlySortedBy(r, Id)
      && (forall i | 0 <= i < |r| :: !IsSuspicious(r[i]))
      && (forall u :: u in r <==> Listed(endpoints, u) && !IsSuspicious(u))
  {
    var kept := Filter(Distinct(AllUrls(endpoints)), Kept);
    var r := SortBy(kept, Id);
    UniqueKeysFilter(Distinct(AllUrls(endpoints)), Kept, Id);
    SortByDeterminedByElements(kept, kept, Id);
    forall u ensures u in r <==> Listed(endpoints, u) && !IsSuspicious(u) {
      AllUrlsListed(endpoints, u);
      assert u in r <==> u in multiset(r);
    }
  }

  /** No URL of the list contains `/baseline-`. */
  lemma NoBaselinePaths(endpoints: seq<Endpoint>)
    ensures forall u | u in CuratedList(endpoints) :: !Contains(u, "/baseline-")
  {
    CuratedListProperties(endpoints);
    forall u | u in CuratedList(endpoints) ensures !Contains(u, "/baseline-") {
      if Contains(u, "/baseline-") {
        BaselinePathSuspicious(u);
      }
    }
  }

  /** The list depends only on which URLs the table lists: the order of the table and of
      its paths, and repeated entries, do not matter. */
  lemma CuratedListDeterministic(a: seq<Endpoint>, b: seq<Endpoint>)
    requires forall u :: Listed(a, u) <==> Listed(b, u)
    ensures CuratedList(a) == CuratedList(b)
  {
    var da, db := Distinct(AllUrls(a)), Distinct(AllUrls(b));
    forall z ensures multiset(da)[z] == multiset(db)[z] {
      AllUrlsListed(a, z);
      AllUrlsListed(b, z);
      UniqueCount(da, z);
      UniqueCount(db, z);
    }
    MultisetExt(multiset(da), multiset(db));
    FilterPermutation(da, db, Kept);
    UniqueKeysFilter(da, Kept, Id);
    SortByDeterminedByElements(Filter(da, Kept), Filter(db, Kept), Id);
  }

  /** An element of a duplicate-free sequence occurs once. */
  lemma UniqueCount(s: seq<string>, z: string)
    requires UniqueKeys(s, Id)
    ensures multiset(s)[z] == if z in s then 1 else 0
  {
    if z in s {
      var i :| 0 <= i < |s| && s[i] == z;
      CountAtMostOne(s, i, Id);
    }
  }

  lemma PushUrl(base: string, paths: seq<string>, p: int)
    requires 0 <= p < |paths|
    ensures EndpointUrls(base, paths[..p + 1]) == EndpointUrls(base, paths[..p]) + [NormalizeUrl(base, paths[p])]
  {
    assert paths[..p + 1][..p] == paths[..p];
  }

  /** `generateCuratedUrls` over a table: the nested loops push every normalised entry,
      then the de-duplicated, filtered list is sorted. */
  method CuratedUrlsFrom(endpoints: seq<Endpoint>) returns (unique: seq<string>)
    ensures unique == CuratedList(endpoints)
    ensures StrictlySortedBy(unique, Id)
    ensures forall u :: u in unique <==> Listed(endpoints, u) && !IsSuspicious(u)
  {
    var urls: seq<string> := [];
    for b := 0 to |endpoints|
      invariant urls == AllUrls(endpoints[..b])
    {
      var e := endpoints[b];
      for p := 0 to |e.paths|
        invariant urls == AllUrls(endpoints[..b]) + EndpointUrls(e.base, e.paths[..p])
      {
        PushUrl(e.base, e.paths, p);
        urls := urls + [NormalizeUrl(e.base, e.paths[p])];
      }
      assert e.paths[..|e.paths|] == e.paths;
      assert endpoints[..b + 1][..b] == endpoints[..b];
    }
    assert endpoints[..|endpoints|] == endpoints;
    unique := Filter(Distinct(urls), Kept);
    unique := SortBy(unique, Id);
    CuratedListProperties(endpoints);
  }

  /** `generateCuratedUrls`, on the curated table. */
  method GenerateCuratedUrls() returns (unique: seq<string>)
    ensures unique == CuratedList(CuratedEndpoints)
    ensures StrictlySortedBy(unique, Id)
    ensures forall u :: u in unique <==> Listed(CuratedEndpoints, u) && !IsSuspicious(u)
  {
    unique := CuratedUrlsFrom(CuratedEndpoints);
  }
}
