/**
 * The policy-bounded fetcher of baseline/fetch/fetcher.js: a redirect loop over a network
 * given as a parameter, a content-type gate, a byte-capped chunk reader and the
 * classification of every way a fetch can end.
 *
 * The network is a function from (attempt number, URL) to a reply, and URL resolution
 * (`new URL(location, base)`) is a function parameter as well. Bodies are sequences of
 * byte chunks; text decoding is not modelled, so `bodyText` holds the bytes it would
 * decode.
 */
module Fetcher {
  import opened Wrappers
  import opened Strings

  type Byte = b: int | 0 <= b < 256

  const DefaultMaxBytes: int := 5 * 1024 * 1024
  const DefaultMaxRedirects: int := 5
  const DefaultTimeoutMs: int := 15000

  /** A case-insensitive regular expression anchored at the start, `^(a|b|...)`: it
      matches a text that starts with one of the alternatives. */
  datatype Matcher = AnchoredPrefix(alternatives: seq<string>)

  /** `/^text\//i` and `/^application\/(json|xml|javascript)/i`. */
  const DefaultAllowed: seq<Matcher> := [
    AnchoredPrefix(["text/"]),
    AnchoredPrefix(["application/json", "application/xml", "application/javascript"])
  ]

  /** `text` starts with `prefix`, ignoring case. */
  predicate HasPrefixIgnoringCase(text: string, prefix: string)
  {
    StartsWith(ToLower(text), ToLower(prefix))
  }

  predicate Matches(m: Matcher, text: string)
  {
    exists j | 0 <= j < |m.alternatives| :: HasPrefixIgnoringCase(text, m.alternatives[j])
  }

  /** `allowList.some((re) => re.test(text))`. */
  function AnyMatches(allowList: seq<Matcher>, text: string): (r: bool)
    ensures r <==> exists i | 0 <= i < |allowList| :: Matches(allowList[i], text)
  {
    if allowList == [] then false
    else
      assert forall i | 1 <= i < |allowList| :: allowList[i] == allowList[1..][i - 1];
      Matches(allowList[0], text) || AnyMatches(allowList[1..], text)
  }

  /** A missing or empty content type is never allowed; any other is allowed exactly when
      some matcher of the list matches it. */
  function IsAllowedContentType(contentType: Option<string>, allowList: seq<Matcher>): (r: bool)
    ensures r <==> (contentType.Some? && contentType.value != []
      && exists i | 0 <= i < |allowList| :: Matches(allowList[i], contentType.value))
  {
    if contentType.None? || contentType.value == [] then false
    else AnyMatches(allowList, contentType.value)
  }

  /** Under the default list a content type is allowed exactly when it starts with `text/`,
      `application/json`, `application/xml` or `application/javascript`, ignoring case. */
  lemma DefaultContentTypes(ct: string)
    ensures IsAllowedContentType(Some(ct), DefaultAllowed) <==>
      HasPrefixIgnoringCase(ct, "text/") || HasPrefixIgnoringCase(ct, "application/json")
      || HasPrefixIgnoringCase(ct, "application/xml") || HasPrefixIgnoringCase(ct, "application/javascript")
  {
    AllowedByTwo(ct, DefaultAllowed[0], DefaultAllowed[1]);
    assert DefaultAllowed == [DefaultAllowed[0], DefaultAllowed[1]];
    MatchesOne(ct, "text/");
    MatchesThree(ct, "application/json", "application/xml", "application/javascript");
    PrefixNonEmpty(ct, "text/");
    PrefixNonEmpty(ct, "application/json");
    PrefixNonEmpty(ct, "application/xml");
    PrefixNonEmpty(ct, "application/javascript");
  }

  lemma AllowedByTwo(ct: string, m0: Matcher, m1: Matcher)
    ensures IsAllowedContentType(Some(ct), [m0, m1]) <==> ct != [] && (Matches(m0, ct) || Matches(m1, ct))
  {
    var list := [m0, m1];
    assert list[0] == m0 && list[1] == m1;
  }

  lemma PrefixNonEmpty(ct: string, prefix: string)
    requires prefix != []
    ensures HasPrefixIgnoringCase(ct, prefix) ==> ct != []
  {
  }

  lemma MatchesOne(ct: string, a: string)
    ensures Matches(AnchoredPrefix([a]), ct) <==> HasPrefixIgnoringCase(ct, a)
  {
    var m := AnchoredPrefix([a]);
    assert m.alternatives[0] == a;
  }

  lemma MatchesThree(ct: string, a: string, b: string, c: string)
    ensures Matches(AnchoredPrefix([a, b, c]), ct) <==>
      HasPrefixIgnoringCase(ct, a) || HasPrefixIgnoringCase(ct, b) || HasPrefixIgnoringCase(ct, c)
  {
    var m := AnchoredPrefix([a, b, c]);
    assert m.alternatives[0] == a && m.alternatives[1] == b && m.alternatives[2] == c;
    if Matches(m, ct) {
      var j :| 0 <= j < 3 && HasPrefixIgnoringCase(ct, m.alternatives[j]);
      assert j == 0 || j == 1 || j == 2;
    }
  }

  /** The header names `normalizeHeaders` keeps. */
  const Interesting: seq<string> := ["etag", "last-modified", "cache-control", "content-type", "content-length"]

  /** The kept headers, as `fetchWithPolicy` reports them. */
  function NormalizedHeaders(headers: map<string, string>): map<string, string>
  {
    map k | k in Interesting && k in headers :: headers[k]
  }

  /** `normalizeHeaders`: copies each interesting header the response carries, and no other. */
  method NormalizeHeaders(headers: map<string, string>) returns (result: map<string, string>)
    ensures forall k :: k in result <==> k in Interesting && k in headers
    ensures forall k | k in result :: result[k] == headers[k]
  {
    result := map[];
    for n := 0 to |Interesting|
      invariant forall k :: k in result <==> k in Interesting[..n] && k in headers
      invariant forall k | k in result :: result[k] == headers[k]
    {
      var key := Interesting[n];
      assert Interesting[..n + 1] == Interesting[..n] + [key];
      if key in headers {
        result := result[key := headers[key]];
      }
    }
    assert Interesting[..|Interesting|] == Interesting;
  }

  /** What one `reader.read()` that is not `done` yields: a chunk, or no value (skipped). */
  type Chunk = Option<seq<Byte>>

  function ChunkBytes(c: Chunk): seq<Byte>
  {
    if c.Some? then c.value else []
  }

  /** The bytes of all chunks, in order (`Buffer.concat`). */
  function Concat(chunks: seq<Chunk>): seq<Byte>
  {
    if chunks == [] then [] else Concat(chunks[..|chunks| - 1]) + ChunkBytes(chunks[|chunks| - 1])
  }

  /** The running byte count after reading all of `chunks`. */
  function Total(chunks: seq<Chunk>): nat
  {
    if chunks == [] then 0 else Total(chunks[..|chunks| - 1]) + |ChunkBytes(chunks[|chunks| - 1])|
  }

  /** The result of `readBodyWithLimit`: the bytes kept, the count, and whether the cap hit. */
  datatype BodyRead = BodyRead(bodyText: Option<seq<Byte>>, bytes: nat, truncated: bool)

  /** The chunk at `k` is a value that brings the running total over `maxBytes`. */
  predicate OverflowsAt(chunks: seq<Chunk>, maxBytes: int, k: int)
  {
    0 <= k < |chunks| && chunks[k].Some? && Total(chunks[..k + 1]) > maxBytes
  }

  /** Reading stops at the first chunk that overflows; without one, the whole body is kept. */
  function ReadBody(reader: Option<seq<Chunk>>, maxBytes: int): BodyRead
  {
    match reader
    case None => BodyRead(None, 0, false)
    case Some(chunks) => ScanFrom(chunks, maxBytes, 0)
  }

  function ScanFrom(chunks: seq<Chunk>, maxBytes: int, i: nat): BodyRead
    requires i <= |chunks|
    decreases |chunks| - i
  {
    if i == |chunks| then BodyRead(Some(Concat(chunks)), |Concat(chunks)|, false)
    else if OverflowsAt(chunks, maxBytes, i) then BodyRead(None, Total(chunks[..i + 1]), true)
    else ScanFrom(chunks, maxBytes, i + 1)
  }

  /** `readBodyWithLimit`: sums chunk lengths and stops, dropping the body, as soon as the
      sum is over `maxBytes`. */
  method ReadBodyWithLimit(reader: Option<seq<Chunk>>, maxBytes: int) returns (r: BodyRead)
    ensures r == ReadBody(reader, maxBytes)
  {
    if reader.None? {
      return BodyRead(None, 0, false);
    }
    var chunks := reader.value;
    var kept: seq<Byte> := [];
    var bytes := 0;
    var truncated := false;
    var i := 0;
    while i < |chunks|
      invariant 0 <= i <= |chunks|
      invariant bytes == Total(chunks[..i]) && kept == Concat(chunks[..i])
      invariant ScanFrom(chunks, maxBytes, i) == ScanFrom(chunks, maxBytes, 0)
    {
      var value := chunks[i];
      assert chunks[..i + 1][..i] == chunks[..i];
      i := i + 1;
      if value.None? {
        continue;
      }
      bytes := bytes + |value.value|;
      if bytes > maxBytes {
        truncated := true;
        break;
      }
      kept := kept + value.value;
    }
    if truncated {
      return BodyRead(None, bytes, true);
    }
    assert chunks[..|chunks|] == chunks;
    return BodyRead(Some(kept), |kept|, false);
  }

  lemma {:induction false} ConcatLength(chunks: seq<Chunk>)
    ensures |Concat(chunks)| == Total(chunks)
  {
    if chunks != [] {
      ConcatLength(chunks[..|chunks| - 1]);
    }
  }

  /** The running total never decreases as more chunks are read. */
  lemma {:induction false} TotalMonotone(chunks: seq<Chunk>, i: nat, j: nat)
    requires i <= j <= |chunks|
    ensures Total(chunks[..i]) <= Total(chunks[..j])
    decreases j
  {
    if i < j {
      assert chunks[..j][..j - 1] == chunks[..j - 1];
      TotalMonotone(chunks, i, j - 1);
    }
  }

  /** A prefix made only of missing values counts nothing more. */
  lemma TotalSkipsMissing(chunks: seq<Chunk>, k: nat)
    requires k < |chunks| && chunks[k].None?
    ensures Total(chunks[..k + 1]) == Total(chunks[..k])
  {
    assert chunks[..k + 1][..k] == chunks[..k];
  }

  /** Scanning from `i` truncates exactly when some chunk at or after `i` overflows, and
      then reports the total up to the first such chunk. */
  lemma {:induction false} ScanTruncates(chunks: seq<Chunk>, maxBytes: int, i: nat)
    requires i <= |chunks|
    ensures var r := ScanFrom(chunks, maxBytes, i);
      (r.truncated <==> exists k | i <= k < |chunks| :: OverflowsAt(chunks, maxBytes, k))
      && (r.truncated ==> r.bodyText.None? && r.bytes > maxBytes)
      && (!r.truncated ==> r.bodyText == Some(Concat(chunks)) && r.bytes == Total(chunks))
    decreases |chunks| - i
  {
    if i == |chunks| {
      ConcatLength(chunks);
    } else if !OverflowsAt(chunks, maxBytes, i) {
      ScanTruncates(chunks, maxBytes, i + 1);
    }
  }

  /** With a non-negative budget the body is cut off exactly when its total size is over the
      budget; a body of exactly `maxBytes` bytes is read in full. */
  lemma ReadBodyBudget(chunks: seq<Chunk>, maxBytes: int)
    requires maxBytes >= 0
    ensures var r := ReadBody(Some(chunks), maxBytes);
      (r.truncated <==> Total(chunks) > maxBytes)
      && (r.truncated ==> r.bodyText.None? && r.bytes > maxBytes)
      && (!r.truncated ==> r.bodyText == Some(Concat(chunks)) && r.bytes == Total(chunks) <= maxBytes)
  {
    ScanTruncates(chunks, maxBytes, 0);
    OverflowIffOverBudget(chunks, maxBytes);
  }

  lemma OverflowIffOverBudget(chunks: seq<Chunk>, maxBytes: int)
    requires maxBytes >= 0
    ensures (exists k | 0 <= k < |chunks| :: OverflowsAt(chunks, maxBytes, k)) <==> Total(chunks) > maxBytes
  {
    if exists k | 0 <= k < |chunks| :: OverflowsAt(chunks, maxBytes, k) {
      var k :| 0 <= k < |chunks| && OverflowsAt(chunks, maxBytes, k);
      OverflowMeansOver(chunks, maxBytes, k);
    }
    if Total(chunks) > maxBytes {
      var k := OverMeansOverflow(chunks, maxBytes);
    }
  }

  lemma OverflowMeansOver(chunks: seq<Chunk>, maxBytes: int, k: int)
    requires OverflowsAt(chunks, maxBytes, k)
    ensures Total(chunks) > maxBytes
  {
    TotalMonotone(chunks, k + 1, |chunks|);
    assert chunks[..|chunks|] == chunks;
  }

  lemma OverMeansOverflow(chunks: seq<Chunk>, maxBytes: int) returns (k: int)
    requires maxBytes >= 0 && Total(chunks) > maxBytes
    ensures OverflowsAt(chunks, maxBytes, k)
  {
    k := LastValue(chunks);
    TotalAfterLast(chunks, k);
  }

  /** A body whose total is positive has a last chunk with a value. */
  lemma {:induction false} LastValue(chunks: seq<Chunk>) returns (k: nat)
    requires Total(chunks) > 0
    ensures k < |chunks| && chunks[k].Some?
    ensures forall j | k < j < |chunks| :: chunks[j].None?
  {
    var last := chunks[|chunks| - 1];
    if last.Some? {
      k := |chunks| - 1;
    } else {
      var init := chunks[..|chunks| - 1];
      k := LastValue(init);
      assert forall j | k < j < |chunks| - 1 :: chunks[j] == init[j];
    }
  }

  /** Missing values after the last chunk leave the total where that chunk took it. */
  lemma {:induction false} TotalAfterLast(chunks: seq<Chunk>, k: nat)
    requires k < |chunks| && forall j | k < j < |chunks| :: chunks[j].None?
    ensures Total(chunks[..k + 1]) == Total(chunks)
    decreases |chunks| - k
  {
    if k + 1 < |chunks| {
      var init := chunks[..|chunks| - 1];
      assert init[..k + 1] == chunks[..k + 1];
      TotalAfterLast(init, k);
      assert chunks == init + [chunks[|chunks| - 1]];
    } else {
      assert chunks[..k + 1] == chunks;
    }
  }

  /** A transport failure: the error's `name`, its `cause.code`, and its `message`. */
  datatype TransportError = TransportError(name: Option<string>, causeCode: Option<string>, message: Option<string>)

  /** A response: status, headers by lower-case name, and the body reader's chunks, if any. */
  datatype Response = Response(status: int, headers: map<string, string>, body: Option<seq<Chunk>>)

  datatype Reply = Failed(error: TransportError) | Received(response: Response)

  datatype FetchOutcome =
    | Success | HttpError | SkippedContentType | MaxBytesExceeded
    | Timeout | Dns | Tls | NetworkError | Blocked

  /** `policy`: each field may be absent, and then its default applies. */
  datatype Policy = Policy(
    maxRedirects: Option<int>, maxBytes: Option<int>,
    allowedContentTypes: Option<seq<Matcher>>, timeoutMs: Option<int>)

  /** The object `fetchWithPolicy` resolves to, without `durationMs`. */
  datatype FetchResult = FetchResult(
    outcome: FetchOutcome, statusCode: Option<int>, finalUrl: Option<string>,
    redirectChain: seq<string>, headers: map<string, string>,
    bodyText: Option<seq<Byte>>, bytes: Option<nat>, contentType: Option<string>,
    errorMessage: Option<string>)

  function TransportOutcome(e: TransportError): FetchOutcome
  {
    if e.name == Some("AbortError") then Timeout
    else if e.causeCode == Some("ENOTFOUND") then Dns
    else if e.causeCode == Some("CERT_HAS_EXPIRED") || e.causeCode == Some("DEPTH_ZERO_SELF_SIGNED_CERT") then Tls
    else NetworkError
  }

  function TransportResult(e: TransportError, chain: seq<string>): FetchResult
  {
    var message := if e.name == Some("AbortError") then Some("Request timed out") else e.message;
    FetchResult(TransportOutcome(e), None, None, chain, map[], None, None, None, message)
  }

  /** A 3xx with a non-empty Location is followed only while `i < maxRedirects`. */
  predicate Follows(response: Response, i: int, maxRedirects: int)
  {
    300 <= response.status < 400 && "location" in response.headers
    && response.headers["location"] != [] && i < maxRedirects
  }

  /** How a response that is not followed ends the fetch. */
  function Finish(response: Response, url: string, chain: seq<string>, maxBytes: int, allowList: seq<Matcher>): FetchResult
  {
    var headers := NormalizedHeaders(response.headers);
    var contentType := if "content-type" in headers then Some(headers["content-type"]) else None;
    var status := response.status;
    if !IsAllowedContentType(contentType, allowList) then
      FetchResult(SkippedContentType, Some(status), Some(url), chain, headers, None, None, None, Some("Content type not allowed"))
    else
      var body := ReadBody(response.body, maxBytes);
      if body.truncated then
        FetchResult(MaxBytesExceeded, Some(status), Some(url), chain, headers, None, None, None, None)
      else
        var outcome := if 200 <= status < 300 then FetchOutcome.Success else HttpError;
        FetchResult(outcome, Some(status), Some(url), chain, headers, body.bodyText, Some(body.bytes), contentType, None)
  }

  /** The redirect loop from attempt `i` at `url`, having followed `chain`. */
  function Run(url: string, chain: seq<string>, i: nat, maxRedirects: int, maxBytes: int, allowList: seq<Matcher>,
               network: (nat, string) -> Reply, resolve: (string, string) -> string): FetchResult
    decreases maxRedirects + 1 - i
  {
    if i > maxRedirects then
      FetchResult(Blocked, None, None, chain, map[], None, None, None, Some("Too many redirects"))
    else
      match network(i, url)
      case Failed(e) => TransportResult(e, chain)
      case Received(response) =>
        if Follows(response, i, maxRedirects) then
          var next := resolve(response.headers["location"], url);
          Run(next, chain + [next], i + 1, maxRedirects, maxBytes, allowList, network, resolve)
        else Finish(response, url, chain, maxBytes, allowList)
  }

  function MaxRedirects(policy: Policy): int { policy.maxRedirects.GetOr(DefaultMaxRedirects) }
  function MaxBytes(policy: Policy): int { policy.maxBytes.GetOr(DefaultMaxBytes) }
  function AllowList(policy: Policy): seq<Matcher> { policy.allowedContentTypes.GetOr(DefaultAllowed) }

  function FetchSpec(url: string, policy: Policy, network: (nat, string) -> Reply, resolve: (string, string) -> string): FetchResult
  {
    Run(url, [], 0, MaxRedirects(policy), MaxBytes(policy), AllowList(policy), network, resolve)
  }

  /** `fetchWithPolicy`. */
  method FetchWithPolicy(url: string, policy: Policy, network: (nat, string) -> Reply, resolve: (string, string) -> string)
    returns (r: FetchResult)
    ensures r == FetchSpec(url, policy, network, resolve)
  {
    var maxRedirects := policy.maxRedirects.GetOr(DefaultMaxRedirects);
    var maxBytes := policy.maxBytes.GetOr(DefaultMaxBytes);
    var allowList := policy.allowedContentTypes.GetOr(DefaultAllowed);
    var redirectChain: seq<string> := [];
    var currentUrl := url;
    var i: nat := 0;
    while i <= maxRedirects
      invariant Run(currentUrl, redirectChain, i, maxRedirects, maxBytes, allowList, network, resolve)
        == FetchSpec(url, policy, network, resolve)
      decreases maxRedirects + 1 - i
    {
      var reply := network(i, currentUrl);
      if reply.Failed? {
        return TransportResult(reply.error, redirectChain);
      }
      var response := reply.response;
      var status := response.status;
      if 300 <= status < 400 && "location" in response.headers && response.headers["location"] != [] && i < maxRedirects {
        var nextUrl := resolve(response.headers["location"], currentUrl);
        redirectChain := redirectChain + [nextUrl];
        currentUrl := nextUrl;
        i := i + 1;
        continue;
      }
      var headers := NormalizeHeaders(response.headers);
      assert headers == NormalizedHeaders(response.headers);
      var contentType := if "content-type" in headers then Some(headers["content-type"]) else None;
      if !IsAllowedContentType(contentType, allowList) {
        return FetchResult(SkippedContentType, Some(status), Some(currentUrl), redirectChain, headers,
          None, None, None, Some("Content type not allowed"));
      }
      var body := ReadBodyWithLimit(response.body, maxBytes);
      if body.truncated {
        return FetchResult(MaxBytesExceeded, Some(status), Some(currentUrl), redirectChain, headers,
          None, None, None, None);
      }
      if status < 200 || status >= 300 {
        return FetchResult(HttpError, Some(status), Some(currentUrl), redirectChain, headers,
          body.bodyText, Some(body.bytes), contentType, None);
      }
      return FetchResult(FetchOutcome.Success, Some(status), Some(currentUrl), redirectChain, headers,
        body.bodyText, Some(body.bytes), contentType, None);
    }
    r := FetchResult(Blocked, None, None, redirectChain, map[], None, None, None, Some("Too many redirects"));
  }

  /** The URL requested at attempt `k` of a run that followed `chain` from `url`. */
  function Prev(url: string, chain: seq<string>, k: nat): string
    requires k <= |chain|
  {
    if k == 0 then url else chain[k - 1]
  }

  /** Attempt `k` at `from` got a 3xx whose non-empty Location resolves to `to`. */
  predicate Hop(network: (nat, string) -> Reply, resolve: (string, string) -> string, k: nat, from: string, to: string)
  {
    network(k, from).Received?
    && var response := network(k, from).response;
    300 <= response.status < 400 && "location" in response.headers && response.headers["location"] != []
    && to == resolve(response.headers["location"], from)
  }

  /** Every URL of the chain is where the previous request was redirected to. */
  predicate RedirectsFollowed(url: string, chain: seq<string>, network: (nat, string) -> Reply, resolve: (string, string) -> string)
  {
    forall k | 0 <= k < |chain| :: Hop(network, resolve, k, Prev(url, chain, k), chain[k])
  }

  /** The result is decided by the last request, number `|redirectChain|`: a transport
      failure is classified, and a response that is not followed goes through the gates. */
  predicate EndedBy(r: FetchResult, url: string, maxRedirects: int, maxBytes: int, allowList: seq<Matcher>,
                    network: (nat, string) -> Reply)
  {
    var n := |r.redirectChain|;
    var last := Prev(url, r.redirectChain, n);
    match network(n, last)
    case Failed(e) => r == TransportResult(e, r.redirectChain)
    case Received(response) =>
      !Follows(response, n, maxRedirects) && r == Finish(response, last, r.redirectChain, maxBytes, allowList)
  }

  /** What a run from `url0` promises: not blocked, within the limit, every hop followed,
      and ended by its last request. */
  predicate RunEnded(r: FetchResult, url0: string, maxRedirects: int, maxBytes: int, allowList: seq<Matcher>,
                     network: (nat, string) -> Reply, resolve: (string, string) -> string)
  {
    r.outcome != Blocked && |r.redirectChain| <= maxRedirects
    && RedirectsFollowed(url0, r.redirectChain, network, resolve)
    && EndedBy(r, url0, maxRedirects, maxBytes, allowList, network)
  }

  lemma {:induction false} RunEnds(url0: string, url: string, chain: seq<string>, maxRedirects: int, maxBytes: int,
                                    allowList: seq<Matcher>, network: (nat, string) -> Reply, resolve: (string, string) -> string)
    requires |chain| <= maxRedirects && url == Prev(url0, chain, |chain|)
    requires RedirectsFollowed(url0, chain, network, resolve)
    ensures RunEnded(Run(url, chain, |chain|, maxRedirects, maxBytes, allowList, network, resolve),
                     url0, maxRedirects, maxBytes, allowList, network, resolve)
    decreases maxRedirects - |chain|, 1
  {
    var reply := network(|chain|, url);
    if reply.Received? && Follows(reply.response, |chain|, maxRedirects) {
      FollowEnds(url0, url, chain, maxRedirects, maxBytes, allowList, network, resolve);
    } else if reply.Received? {
      StopHere(url0, url, chain, maxRedirects, maxBytes, allowList, network, resolve);
    } else {
      StopFailed(url0, url, chain, maxRedirects, maxBytes, allowList, network, resolve);
    }
  }

  /** A followed redirect: the run goes on from the resolved Location, one hop longer. */
  lemma {:induction false} FollowEnds(url0: string, url: string, chain: seq<string>, maxRedirects: int, maxBytes: int,
                                       allowList: seq<Matcher>, network: (nat, string) -> Reply, resolve: (string, string) -> string)
    requires |chain| <= maxRedirects && url == Prev(url0, chain, |chain|)
    requires RedirectsFollowed(url0, chain, network, resolve)
    requires network(|chain|, url).Received? && Follows(network(|chain|, url).response, |chain|, maxRedirects)
    ensures RunEnded(Run(url, chain, |chain|, maxRedirects, maxBytes, allowList, network, resolve),
                     url0, maxRedirects, maxBytes, allowList, network, resolve)
    decreases maxRedirects - |chain|, 0
  {
    var next := resolve(network(|chain|, url).response.headers["location"], url);
    ExtendFollowed(url0, chain, next, network, resolve);
    RunEnds(url0, next, chain + [next], maxRedirects, maxBytes, allowList, network, resolve);
    RunFollows(url, chain, maxRedirects, maxBytes, allowList, network, resolve);
  }

  lemma RunFollows(url: string, chain: seq<string>, maxRedirects: int, maxBytes: int,
                   allowList: seq<Matcher>, network: (nat, string) -> Reply, resolve: (string, string) -> string)
    requires |chain| <= maxRedirects
    requires network(|chain|, url).Received? && Follows(network(|chain|, url).response, |chain|, maxRedirects)
    ensures var next := resolve(network(|chain|, url).response.headers["location"], url);
      Run(url, chain, |chain|, maxRedirects, maxBytes, allowList, network, resolve)
      == Run(next, chain + [next], |chain| + 1, maxRedirects, maxBytes, allowList, network, resolve)
  {
  }

  lemma StopFailed(url0: string, url: string, chain: seq<string>, maxRedirects: int, maxBytes: int,
                   allowList: seq<Matcher>, network: (nat, string) -> Reply, resolve: (string, string) -> string)
    requires |chain| <= maxRedirects && url == Prev(url0, chain, |chain|)
    requires network(|chain|, url).Failed?
    ensures var r := Run(url, chain, |chain|, maxRedirects, maxBytes, allowList, network, resolve);
      r.outcome != Blocked && r.redirectChain == chain
      && EndedBy(r, url0, maxRedirects, maxBytes, allowList, network)
  {
  }

  lemma ExtendFollowed(url0: string, chain: seq<string>, next: string, network: (nat, string) -> Reply, resolve: (string, string) -> string)
    requires RedirectsFollowed(url0, chain, network, resolve)
    requires Hop(network, resolve, |chain|, Prev(url0, chain, |chain|), next)
    ensures RedirectsFollowed(url0, chain + [next], network, resolve)
  {
    var chain' := chain + [next];
    forall k | 0 <= k < |chain'| ensures Hop(network, resolve, k, Prev(url0, chain', k), chain'[k]) {
      if k < |chain| {
        assert Prev(url0, chain', k) == Prev(url0, chain, k) && chain'[k] == chain[k];
      }
    }
  }

  lemma StopHere(url0: string, url: string, chain: seq<string>, maxRedirects: int, maxBytes: int,
                 allowList: seq<Matcher>, network: (nat, string) -> Reply, resolve: (string, string) -> string)
    requires |chain| <= maxRedirects && url == Prev(url0, chain, |chain|)
    requires network(|chain|, url).Received? && !Follows(network(|chain|, url).response, |chain|, maxRedirects)
    ensures var r := Run(url, chain, |chain|, maxRedirects, maxBytes, allowList, network, resolve);
      r.outcome != Blocked && r.redirectChain == chain
      && EndedBy(r, url0, maxRedirects, maxBytes, allowList, network)
  {
    FinishNotBlocked(network(|chain|, url).response, url, chain, maxBytes, allowList);
  }

  lemma FinishNotBlocked(response: Response, url: string, chain: seq<string>, maxBytes: int, allowList: seq<Matcher>)
    ensures Finish(response, url, chain, maxBytes, allowList).outcome != Blocked
    ensures Finish(response, url, chain, maxBytes, allowList).redirectChain == chain
  {
  }

  /** `blocked` is returned only when the loop never runs, i.e. `maxRedirects < 0`. Otherwise
      at most `maxRedirects` redirects are followed, each to the resolved Location of the
      previous response, and the fetch ends with the last request made: a 3xx at the last
      attempt, or one without a Location, is judged like any other response. */
  lemma FetchFollowsRedirects(url: string, policy: Policy, network: (nat, string) -> Reply, resolve: (string, string) -> string)
    ensures var r := FetchSpec(url, policy, network, resolve);
      (r.outcome == Blocked <==> MaxRedirects(policy) < 0)
      && (MaxRedirects(policy) < 0 ==> r.redirectChain == [])
      && (MaxRedirects(policy) >= 0 ==>
            |r.redirectChain| <= MaxRedirects(policy)
            && RedirectsFollowed(url, r.redirectChain, network, resolve)
            && EndedBy(r, url, MaxRedirects(policy), MaxBytes(policy), AllowList(policy), network))
  {
    if MaxRedirects(policy) >= 0 {
      RunEnds(url, url, [], MaxRedirects(policy), MaxBytes(policy), AllowList(policy), network, resolve);
    }
  }

  /** Under the default policy at most five redirects are followed. */
  lemma DefaultRedirectLimit(url: string, network: (nat, string) -> Reply, resolve: (string, string) -> string)
    ensures |FetchSpec(url, Policy(None, None, None, None), network, resolve).redirectChain| <= 5
  {
    FetchFollowsRedirects(url, Policy(None, None, None, None), network, resolve);
  }

  /** How a final response is judged: a disallowed content type skips the body, a body over
      the budget is dropped, and a body within it is kept with its size; the outcome is then
      `success` exactly for a 2xx status. */
  lemma FinishGates(response: Response, url: string, chain: seq<string>, maxBytes: int, allowList: seq<Matcher>)
    requires maxBytes >= 0
    ensures var r := Finish(response, url, chain, maxBytes, allowList);
      var headers := NormalizedHeaders(response.headers);
      var contentType := if "content-type" in headers then Some(headers["content-type"]) else None;
      var allowed := IsAllowedContentType(contentType, allowList);
      var over := response.body.Some? && Total(response.body.value) > maxBytes;
      r.statusCode == Some(response.status) && r.finalUrl == Some(url) && r.headers == headers
      && (r.outcome == SkippedContentType <==> !allowed)
      && (r.outcome == MaxBytesExceeded <==> allowed && over)
      && (r.outcome == SkippedContentType || r.outcome == MaxBytesExceeded ==> r.bodyText.None? && r.bytes.None?)
      && (allowed && !over ==>
            (r.outcome == FetchOutcome.Success <==> 200 <= response.status < 300)
            && (r.outcome == FetchOutcome.Success || r.outcome == HttpError)
            && r.contentType == contentType
            && r.bodyText == (if response.body.Some? then Some(Concat(response.body.value)) else None)
            && r.bytes == Some(if response.body.Some? then Total(response.body.value) else 0)
            && r.bytes.value <= maxBytes)
  {
    if response.body.Some? {
      ReadBodyBudget(response.body.value, maxBytes);
    }
  }

  /** A text with a prefix has it ignoring case too. */
  lemma PrefixIgnoringCase(text: string, prefix: string)
    requires StartsWith(text, prefix)
    ensures HasPrefixIgnoringCase(text, prefix)
  {
    var t, p := ToLower(text), ToLower(prefix);
    assert forall i | 0 <= i < |p| :: t[i] == LowerChar(text[i]) == LowerChar(prefix[i]) == p[i];
    assert t[..|p|] == p;
  }

  /** Texts whose first letters differ, ignoring case, are not prefixes of each other. */
  lemma FirstLetterDiffers(text: string, prefix: string)
    requires text != [] && prefix != [] && LowerChar(text[0]) != LowerChar(prefix[0])
    ensures !HasPrefixIgnoringCase(text, prefix)
  {
    assert ToLower(text)[0] == LowerChar(text[0]);
    assert ToLower(prefix)[0] == LowerChar(prefix[0]);
  }

  /** A first reply that is not a redirect decides the fetch. */
  lemma FirstReplyFinal(url: string, policy: Policy, network: (nat, string) -> Reply, resolve: (string, string) -> string)
    requires MaxRedirects(policy) >= 0
    requires network(0, url).Received? && !(300 <= network(0, url).response.status < 400)
    ensures FetchSpec(url, policy, network, resolve)
      == Finish(network(0, url).response, url, [], MaxBytes(policy), AllowList(policy))
  {
  }

  /** A content type whose first letter is neither `t` nor `a`, in either case, is not allowed
      by default. */
  lemma FirstLetterNotAllowed(ct: string)
    requires ct != [] && LowerChar(ct[0]) != 't' && LowerChar(ct[0]) != 'a'
    ensures !IsAllowedContentType(Some(ct), DefaultAllowed)
  {
    var d := DefaultAllowed;
    assert |d| == 2 && |d[0].alternatives| == 1 && |d[1].alternatives| == 3;
    assert d[0].alternatives[0][0] == 't';
    assert d[1].alternatives[0][0] == 'a' && d[1].alternatives[1][0] == 'a' && d[1].alternatives[2][0] == 'a';
    FirstLetterRejects(ct, d);
  }

  /** No matcher accepts a text whose first letter starts none of its alternatives. */
  lemma FirstLetterRejects(ct: string, allowList: seq<Matcher>)
    requires ct != []
    requires forall i, j | 0 <= i < |allowList| && 0 <= j < |allowList[i].alternatives| ::
      allowList[i].alternatives[j] != [] && LowerChar(allowList[i].alternatives[j][0]) != LowerChar(ct[0])
    ensures !IsAllowedContentType(Some(ct), allowList)
  {
    forall i, j | 0 <= i < |allowList| && 0 <= j < |allowList[i].alternatives|
      ensures !HasPrefixIgnoringCase(ct, allowList[i].alternatives[j])
    {
      FirstLetterDiffers(ct, allowList[i].alternatives[j]);
    }
  }

  lemma TextPlainAllowed()
    ensures IsAllowedContentType(Some("text/plain"), DefaultAllowed)
  {
    DefaultContentTypes("text/plain");
    PrefixIgnoringCase("text/plain", "text/");
  }

  /** A 200 reply typed `image/png` is skipped under the default policy, body unread. */
  lemma ImagePngSkipped(url: string, body: Option<seq<Chunk>>, network: (nat, string) -> Reply, resolve: (string, string) -> string)
    requires network(0, url) == Received(Response(200, map["content-type" := "image/png"], body))
    ensures var r := FetchSpec(url, Policy(None, None, None, None), network, resolve);
      r.outcome == SkippedContentType && r.bodyText.None? && r.redirectChain == []
  {
    var response := network(0, url).response;
    FirstReplyFinal(url, Policy(None, None, None, None), network, resolve);
    assert NormalizedHeaders(response.headers) == map["content-type" := "image/png"];
    FirstLetterNotAllowed("image/png");
  }

  /** A `text/plain` body of 10,000 bytes under a 1,000-byte budget is dropped. */
  lemma LargeBodyExceedsBudget(url: string, network: (nat, string) -> Reply, resolve: (string, string) -> string)
    requires network(0, url) == Received(Response(200, map["content-type" := "text/plain"], Some([Some(seq(10000, _ => 120))])))
    ensures var r := FetchSpec(url, Policy(None, Some(1000), None, None), network, resolve);
      r.outcome == MaxBytesExceeded && r.bodyText.None?
  {
    var response := network(0, url).response;
    FirstReplyFinal(url, Policy(None, Some(1000), None, None), network, resolve);
    assert NormalizedHeaders(response.headers) == map["content-type" := "text/plain"];
    TextPlainAllowed();
    OneChunkTotal(seq(10000, _ => 120));
    FinishGates(response, url, [], 1000, DefaultAllowed);
  }

  lemma OneChunkTotal(bytes: seq<Byte>)
    ensures Total([Some(bytes)]) == |bytes|
  {
    assert [Some(bytes)][..0] == [];
  }
}
