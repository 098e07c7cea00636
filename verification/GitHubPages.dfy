/** The GitHub client: link headers and bounded pagination. */
module GitHubPages {
  import opened Wrappers

  type Url = string

  type Page = string

  const MAX_PAGES_PER_ENDPOINT := 20
  const MAX_REQUESTS_PER_BATCH := 200
  const MAX_RESPONSE_BODY_BYTES := 4 * 1024 * 1024
  const MAX_TOKEN_BYTES := 4_096
  const NOT_MODIFIED := 304
  const UNAUTHORIZED := 401
  const FORBIDDEN := 403
  const NOT_FOUND := 404
  const TOO_MANY_REQUESTS := 429

  datatype Code =
    | InvalidResponse | PartialPagination | AuthenticationFailed | CredentialUnavailable | PermissionDenied
    | RateLimited | NotFound | ProviderUnavailable | NetworkUnreachable | InvalidDomainValue

  /** A request: its URL and the entity tag it is conditional on. */
  datatype Request = Request(url: Url, etag: Option<string>)

  /** A target of a Link header entry after parsing and checking its origin. */
  datatype Target = Rejected | Approved(url: Url)

  datatype LinkEntry = LinkEntry(isNext: bool, target: Target)

  datatype Response =
    | TransportError(code: Code)
    | Answer(status: nat, headers: Headers, link: Option<seq<LinkEntry>>, body: Page)

  datatype Headers = Headers(etag: Option<string>, retryAfter: Option<string>, rateLimitRemaining: Option<string>)

  function ClassifyStatus(status: nat, headers: Headers): Code {
    if status == UNAUTHORIZED then AuthenticationFailed
    else if status == TOO_MANY_REQUESTS
            || (status == FORBIDDEN && (headers.retryAfter.Some? || headers.rateLimitRemaining == Some("0"))) then RateLimited
    else if status == FORBIDDEN then PermissionDenied
    else if status == NOT_FOUND then Code.NotFound
    else if 500 <= status < 600 then ProviderUnavailable
    else InvalidResponse
  }

  // ----- the next link -----

  /** Entry `k` is the only next entry, and is approved. */
  ghost predicate OnlyNext(entries: seq<LinkEntry>, k: int) {
    && 0 <= k < |entries| && entries[k].isNext && entries[k].target.Approved?
    && forall j :: 0 <= j < |entries| && j != k ==> !entries[j].isNext
  }

  method NextUrl(entries: seq<LinkEntry>) returns (r: Result<Option<Url>, Code>)
    ensures r == NextOf(entries)
  {
    var next: Option<Url> := None;
    for i := 0 to |entries|
      invariant NextOf(entries[..i]) == Ok(next)
    {
      assert entries[..i + 1][..i] == entries[..i];
      if !entries[i].isNext { continue; }
      if entries[i].target.Rejected? || next.Some? {
        NextErrorStays(entries, i + 1);
        return Err(InvalidResponse);
      }
      next := Some(entries[i].target.url);
    }
    assert entries[..|entries|] == entries;
    r := Ok(next);
  }

  function NextOf(entries: seq<LinkEntry>): Result<Option<Url>, Code> {
    if entries == [] then Ok(None)
    else
      var last := entries[|entries| - 1];
      match NextOf(entries[..|entries| - 1])
      case Err(e) => Err(e)
      case Ok(next) =>
        if !last.isNext then Ok(next)
        else if last.target.Rejected? || next.Some? then Err(InvalidResponse)
        else Ok(Some(last.target.url))
  }

  lemma {:induction false} NextErrorStays(entries: seq<LinkEntry>, i: nat)
    requires i <= |entries| && NextOf(entries[..i]).Err?
    ensures NextOf(entries) == Err(InvalidResponse)
    decreases |entries| - i
  {
    if i == |entries| {
      assert entries[..i] == entries;
      NextErrors(entries);
    } else {
      assert entries[..i + 1][..i] == entries[..i];
      NextErrorStays(entries, i + 1);
    }
  }

  lemma {:induction false} NextErrors(entries: seq<LinkEntry>)
    ensures NextOf(entries).Err? ==> NextOf(entries) == Err(InvalidResponse)
  {
    if entries != [] {
      NextErrors(entries[..|entries| - 1]);
    }
  }

  /** There is a next URL exactly when one entry alone is marked next and its target is approved, and none exactly when no entry is marked. */
  lemma {:induction false} NextIsUnique(entries: seq<LinkEntry>)
    ensures NextOf(entries) == Ok(None) <==> forall j :: 0 <= j < |entries| ==> !entries[j].isNext
    ensures forall u :: NextOf(entries) == Ok(Some(u)) <==> exists k :: OnlyNext(entries, k) && entries[k].target.url == u
  {
    if entries != [] {
      var front, last := entries[..|entries| - 1], entries[|entries| - 1];
      NextIsUnique(front);
      assert forall j :: 0 <= j < |front| ==> front[j] == entries[j];
      forall u ensures NextOf(entries) == Ok(Some(u)) <==> exists k :: OnlyNext(entries, k) && entries[k].target.url == u {
        if NextOf(entries) == Ok(Some(u)) {
          if last.isNext {
            assert OnlyNext(entries, |front|);
          } else {
            var k :| OnlyNext(front, k) && front[k].target.url == u;
            assert OnlyNext(entries, k);
          }
        }
        if k :| OnlyNext(entries, k) && entries[k].target.url == u {
          if k < |front| { assert OnlyNext(front, k) && front[k].target.url == u; }
        }
      }
    }
  }

  // ----- one endpoint -----

  /** The outcome of a walk over the pages of an endpoint, with the number of requests it records. */
  datatype Fetch =
    | NotModified(requests: nat)
    | Pages(pages: seq<Page>, etag: Option<string>, requests: nat)
    | Failed(completed: seq<Page>, requests: nat, code: Code)

  predicate ValidBudget(maxPages: nat, maxRequests: nat) {
    1 <= maxPages <= MAX_PAGES_PER_ENDPOINT && 1 <= maxRequests <= MAX_REQUESTS_PER_BATCH
  }

  /** The bytes of a token that can form a header: printable ASCII, no blank. */
  predicate ValidToken(token: string) {
    0 < |token| <= MAX_TOKEN_BYTES && forall i :: 0 <= i < |token| ==> '!' <= token[i] <= '~'
  }

  /** An entity tag that can be sent back: printable ASCII, blanks and tabs. */
  predicate ValidTag(tag: string) { forall i :: 0 <= i < |tag| ==> ' ' <= tag[i] <= '~' || tag[i] == '\t' }

  /** The code of a fetch refused before its first request. */
  function RefusedAtOnce(token: string, etag: Option<string>, maxPages: nat, maxRequests: nat): Option<Code> {
    if !ValidBudget(maxPages, maxRequests) then Some(InvalidResponse)
    else if !ValidToken(token) then Some(AuthenticationFailed)
    else if etag.Some? && !ValidTag(etag.value) then Some(InvalidResponse)
    else None
  }

  predicate IsPage(r: Response) { r.Answer? && 200 <= r.status < 300 && |r.body| <= MAX_RESPONSE_BODY_BYTES }

  function NextLink(r: Response): Result<Option<Url>, Code> {
    if r.Answer? && r.link.Some? then NextOf(r.link.value) else Ok(None)
  }

  /** The code for an answer that ends a walk in failure, or nothing for a page or an opening 304. */
  function Refusal(r: Response, opening: bool): Option<Code> {
    if r.TransportError? then Some(r.code)
    else if r.status == NOT_MODIFIED then (if opening then None else Some(InvalidResponse))
    else if !(200 <= r.status < 300) then Some(ClassifyStatus(r.status, r.headers))
    else if |r.body| > MAX_RESPONSE_BODY_BYTES then Some(InvalidResponse)
    else None
  }

  type Provider = seq<Request> -> Response

  /** What the provider answered to the i-th request of a walk; a provider may answer by everything it was ever asked. */
  function Reply(provider: Provider, before: seq<Request>, walk: seq<Request>, i: nat): Response
    requires i < |walk|
  {
    provider(before + walk[..i + 1])
  }

  /** Each request after the first goes to the next link of the page before it, unconditionally; no URL is asked twice. */
  ghost predicate FollowsLinks(provider: Provider, before: seq<Request>, walk: seq<Request>, first: Url, etag: Option<string>) {
    && (forall i :: 0 <= i < |walk| ==> walk[i].etag == if i == 0 then etag else None)
    && (walk != [] ==> walk[0].url == first)
    && (forall i :: 0 <= i < |walk| - 1 ==> LeadsTo(Reply(provider, before, walk, i), walk[i + 1].url))
    && (forall i, j :: 0 <= i < j < |walk| ==> walk[i].url != walk[j].url)
  }

  /** A page whose next link is this URL. */
  predicate LeadsTo(r: Response, url: Url) { IsPage(r) && NextLink(r) == Ok(Some(url)) }

  /** The bodies of the first `n` answers. */
  function Bodies(provider: Provider, before: seq<Request>, walk: seq<Request>, n: nat): (pages: seq<Page>)
    requires n <= |walk|
    ensures |pages| == n
  {
    if n == 0 then []
    else
      var r := Reply(provider, before, walk, n - 1);
      Bodies(provider, before, walk, n - 1) + [if r.Answer? then r.body else ""]
  }

  /** The first entity tag among the first `n` answers. */
  function FirstEtag(provider: Provider, before: seq<Request>, walk: seq<Request>, n: nat): Option<string>
    requires n <= |walk|
  {
    if n == 0 then None
    else
      var earlier := FirstEtag(provider, before, walk, n - 1);
      var r := Reply(provider, before, walk, n - 1);
      if earlier.Some? || r.TransportError? then earlier else r.headers.etag
  }

  function Urls(walk: seq<Request>): set<Url> { set i | 0 <= i < |walk| :: walk[i].url }

  /** What a walk goes on with after a page: the pages and the entity tag so far, and the next link. */
  datatype Onward = Onward(pages: seq<Page>, etag: Option<string>, url: Url)

  /** What an answer makes of the pages and the entity tag before it, after `n` requests: an end, or the way on. */
  function AnswerRead(last: Response, n: nat, pages: seq<Page>, etag: Option<string>): Result<Onward, Fetch> {
    var refusal := Refusal(last, n == 1);
    if refusal.Some? then Err(Failed(pages, n, refusal.value))
    else if last.status == NOT_MODIFIED then Err(NotModified(n))
    else
      var all, tag := pages + [last.body], if etag.Some? then etag else last.headers.etag;
      match NextLink(last)
      case Err(code) => Err(Failed(all, n, code))
      case Ok(None) => Err(Pages(all, tag, n))
      case Ok(Some(url)) => Ok(Onward(all, tag, url))
  }

  /** Nothing while the walk must go on. */
  function Judged(last: Response, n: nat, pages: seq<Page>, etag: Option<string>, maxPages: nat, maxRequests: nat, seen: set<Url>): Option<Fetch> {
    match AnswerRead(last, n, pages, etag)
    case Err(f) => Some(f)
    case Ok(onward) =>
      if n >= maxPages || n >= maxRequests then Some(Failed(onward.pages, n, PartialPagination))
      else if onward.url in seen then Some(Failed(onward.pages, n, InvalidResponse))
      else None
  }

  /** What a walk comes to. */
  function Settled(provider: Provider, before: seq<Request>, walk: seq<Request>, maxPages: nat, maxRequests: nat): Option<Fetch>
    requires walk != []
  {
    var n := |walk|;
    Judged(Reply(provider, before, walk, n - 1), n, Bodies(provider, before, walk, n - 1), FirstEtag(provider, before, walk, n - 1),
           maxPages, maxRequests, Urls(walk))
  }

  /** The requests and the outcome of a fetch: none when it is refused at once, and otherwise a walk along the links until it is
      settled. */
  ghost predicate Fetches(provider: Provider, token: string, before: seq<Request>, walk: seq<Request>, first: Url, etag: Option<string>,
                          maxPages: nat, maxRequests: nat, f: Fetch) {
    match RefusedAtOnce(token, etag, maxPages, maxRequests)
    case Some(code) => walk == [] && f == Failed([], 0, code)
    case None =>
      && walk != [] && |walk| <= maxPages && |walk| <= maxRequests
      && FollowsLinks(provider, before, walk, first, etag)
      && Settled(provider, before, walk, maxPages, maxRequests) == Some(f)
  }

  // ----- what a fetch means -----

  lemma {:induction false} BodiesAt(provider: Provider, before: seq<Request>, walk: seq<Request>, n: nat, i: nat)
    requires i < n <= |walk| && Reply(provider, before, walk, i).Answer?
    ensures Bodies(provider, before, walk, n)[i] == Reply(provider, before, walk, i).body
  {
    if i < n - 1 {
      BodiesAt(provider, before, walk, n - 1, i);
    }
  }

  /** The tag of the first of `n` answers that has one. */
  ghost predicate TagOfFirst(provider: Provider, before: seq<Request>, walk: seq<Request>, n: nat, etag: Option<string>)
    requires n <= |walk|
  {
    if etag.None? then NoTags(provider, before, walk, n)
    else exists k: nat :: k < n && TagAt(provider, before, walk, k, etag.value)
  }

  ghost predicate NoTags(provider: Provider, before: seq<Request>, walk: seq<Request>, n: nat)
    requires n <= |walk|
  {
    forall i :: 0 <= i < n && Reply(provider, before, walk, i).Answer? ==> Reply(provider, before, walk, i).headers.etag == None
  }

  ghost predicate TagAt(provider: Provider, before: seq<Request>, walk: seq<Request>, k: nat, tag: string)
    requires k < |walk|
  {
    && Reply(provider, before, walk, k).Answer? && Reply(provider, before, walk, k).headers.etag == Some(tag)
    && NoTags(provider, before, walk, k)
  }

  lemma {:induction false} FirstEtagMeans(provider: Provider, before: seq<Request>, walk: seq<Request>, n: nat)
    requires n <= |walk|
    ensures TagOfFirst(provider, before, walk, n, FirstEtag(provider, before, walk, n))
  {
    hide Reply;
    if n > 0 {
      FirstEtagMeans(provider, before, walk, n - 1);
      var r := Reply(provider, before, walk, n - 1);
      var earlier := FirstEtag(provider, before, walk, n - 1);
      if earlier.None? && r.Answer? && r.headers.etag.Some? {
        assert TagAt(provider, before, walk, n - 1, r.headers.etag.value);
      }
    }
  }

  /** Every answer before the last is a page. */
  lemma EarlierPages(provider: Provider, before: seq<Request>, walk: seq<Request>, first: Url, etag: Option<string>)
    requires FollowsLinks(provider, before, walk, first, etag)
    ensures forall i :: 0 <= i < |walk| - 1 ==> IsPage(Reply(provider, before, walk, i))
  {
    hide Reply, NextLink;
    forall i | 0 <= i < |walk| - 1 ensures IsPage(Reply(provider, before, walk, i)) {
      assert LeadsTo(Reply(provider, before, walk, i), walk[i + 1].url);
    }
  }

  ghost predicate BodiesOf(provider: Provider, before: seq<Request>, walk: seq<Request>, pages: seq<Page>) {
    |pages| <= |walk| && forall i :: 0 <= i < |pages| ==> IsPage(Reply(provider, before, walk, i)) && pages[i] == Reply(provider, before, walk, i).body
  }

  lemma BodiesMean(provider: Provider, before: seq<Request>, walk: seq<Request>, n: nat)
    requires n <= |walk| && forall i :: 0 <= i < n ==> IsPage(Reply(provider, before, walk, i))
    ensures BodiesOf(provider, before, walk, Bodies(provider, before, walk, n))
  {
    hide Reply, Bodies;
    forall i | 0 <= i < n ensures Bodies(provider, before, walk, n)[i] == Reply(provider, before, walk, i).body {
      BodiesAt(provider, before, walk, n, i);
    }
  }

  /** What a fetch comes to, by the answers to its requests. Pages are returned exactly when every answer is a page and the last has
      no next link: the bodies of all answers in order, with the tag of the first that has one. Not modified is returned exactly
      when the first answer is a 304. Otherwise it fails, with all pages before the end. Every request counts. */
  lemma FetchMeans(provider: Provider, token: string, before: seq<Request>, walk: seq<Request>, first: Url, etag: Option<string>,
                   maxPages: nat, maxRequests: nat, f: Fetch)
    requires Fetches(provider, token, before, walk, first, etag, maxPages, maxRequests, f)
    ensures f.requests == |walk| <= maxRequests && (walk != [] ==> walk[0] == Request(first, etag))
    ensures f.NotModified? <==> walk != [] && Reply(provider, before, walk, 0).Answer? && Reply(provider, before, walk, 0).status == 304
    ensures f.Pages?
       <==> && walk != [] && (forall i :: 0 <= i < |walk| ==> IsPage(Reply(provider, before, walk, i)))
            && NextLink(Reply(provider, before, walk, |walk| - 1)) == Ok(None)
    ensures f.Pages? ==> |f.pages| == |walk| && BodiesOf(provider, before, walk, f.pages) && TagOfFirst(provider, before, walk, |walk|, f.etag)
    ensures f.Failed? ==>
      && BodiesOf(provider, before, walk, f.completed)
      && (walk != [] ==> |f.completed| == if IsPage(Reply(provider, before, walk, |walk| - 1)) then |walk| else |walk| - 1)
  {
    hide Reply, NextLink, FirstEtag, ClassifyStatus, Bodies, TagOfFirst;
    if walk != [] {
      var n := |walk|;
      EarlierPages(provider, before, walk, first, etag);
      BodiesMean(provider, before, walk, n - 1);
      FirstEtagMeans(provider, before, walk, n - 1);
      var last := Reply(provider, before, walk, n - 1);
      if IsPage(last) {
        BodiesMean(provider, before, walk, n);
        BodiesSnoc(provider, before, walk);
        FirstEtagMeans(provider, before, walk, n);
      }
    }
  }

  lemma BodiesSnoc(provider: Provider, before: seq<Request>, walk: seq<Request>)
    requires walk != [] && Reply(provider, before, walk, |walk| - 1).Answer?
    ensures var (n, last) := (|walk|, Reply(provider, before, walk, |walk| - 1));
            && Bodies(provider, before, walk, n) == Bodies(provider, before, walk, n - 1) + [last.body]
            && FirstEtag(provider, before, walk, n)
               == if FirstEtag(provider, before, walk, n - 1).Some? then FirstEtag(provider, before, walk, n - 1) else last.headers.etag
  {
  }

  /** Why a walk fails: its last answer is no page, a later one a 304, too long, or refused by its status; or it is a page, and its
      next link is bad, comes at a limit, or leads back. */
  lemma FailureMeans(provider: Provider, token: string, before: seq<Request>, walk: seq<Request>, first: Url, etag: Option<string>,
                     maxPages: nat, maxRequests: nat, f: Fetch)
    requires Fetches(provider, token, before, walk, first, etag, maxPages, maxRequests, f) && f.Failed?
    ensures walk == [] ==>
      f.code == if 1 <= maxPages <= 20 && 1 <= maxRequests <= 200 && !ValidToken(token) then AuthenticationFailed else InvalidResponse
    ensures walk != [] ==>
      var last := Reply(provider, before, walk, |walk| - 1);
      && (last.TransportError? ==> f.code == last.code)
      && (last.Answer? && last.status == 304 ==> |walk| > 1 && f.code == InvalidResponse)
      && (last.Answer? && last.status != 304 && !(200 <= last.status < 300) ==> f.code == ClassifyStatus(last.status, last.headers))
      && (last.Answer? && 200 <= last.status < 300 && |last.body| > 4 * 1024 * 1024 ==> f.code == InvalidResponse)
      && (IsPage(last) ==> EndsFor(walk, NextLink(last), maxPages, maxRequests, f.code))
  {
    hide Reply, NextLink, FirstEtag, Bodies, ClassifyStatus, Urls, ValidToken, ValidTag;
    if walk != [] {
      NextErrorsOf(Reply(provider, before, walk, |walk| - 1));
      SeenUrls(walk);
    }
  }

  /** After a page: a bad link is an invalid response, a next link at the page or request limit a partial pagination, and a next
      link already followed an invalid response. */
  ghost predicate EndsFor(walk: seq<Request>, next: Result<Option<Url>, Code>, maxPages: nat, maxRequests: nat, code: Code) {
    match next
    case Err(_) => code == InvalidResponse
    case Ok(None) => false
    case Ok(Some(url)) =>
      if |walk| >= maxPages || |walk| >= maxRequests then code == PartialPagination
      else code == InvalidResponse && exists i :: 0 <= i < |walk| && walk[i].url == url
  }

  lemma NextErrorsOf(r: Response)
    ensures NextLink(r).Err? ==> NextLink(r) == Err(InvalidResponse)
  {
    if r.Answer? && r.link.Some? { NextErrors(r.link.value); }
  }

  lemma SeenUrls(walk: seq<Request>)
    ensures forall url :: url in Urls(walk) <==> exists i :: 0 <= i < |walk| && walk[i].url == url
  {
  }

  /** The codes of refusing statuses: 401 fails the credential; 429, and 403 with a time to retry or no request left, the rate limit;
      any other 403 lacks permission; 404 is not found; 500 to 599 unavailable; all else invalid. */
  lemma ClassifyMeans(status: nat, headers: Headers)
    ensures ClassifyStatus(401, headers) == AuthenticationFailed && ClassifyStatus(429, headers) == RateLimited
    ensures headers.retryAfter.Some? || headers.rateLimitRemaining == Some("0") ==> ClassifyStatus(403, headers) == RateLimited
    ensures headers.retryAfter.None? && headers.rateLimitRemaining != Some("0") ==> ClassifyStatus(403, headers) == PermissionDenied
    ensures ClassifyStatus(404, headers) == Code.NotFound
    ensures 500 <= status < 600 ==> ClassifyStatus(status, headers) == ProviderUnavailable
    ensures status !in {401, 403, 404, 429} && !(500 <= status < 600) ==> ClassifyStatus(status, headers) == InvalidResponse
  {
  }

  /** A page is an answer of 200 to 299 of at most four mebibytes; a token is one to 4096 printable characters without blank; a tag
      that can be sent is of printable characters, blanks and tabs. */
  lemma LimitsMean(r: Response, token: string, tag: string)
    ensures IsPage(r) <==> r.Answer? && 200 <= r.status <= 299 && |r.body| <= 4_194_304
    ensures ValidToken(token) <==> 1 <= |token| <= 4096 && forall i :: 0 <= i < |token| ==> 33 <= token[i] as int <= 126
    ensures ValidTag(tag) <==> forall i :: 0 <= i < |tag| ==> 32 <= tag[i] as int <= 126 || tag[i] as int == 9
  {
  }

  lemma {:induction false} SameBegin(provider: Provider, before: seq<Request>, walk: seq<Request>, walk': seq<Request>, first: Url,
                                     etag: Option<string>, n: nat)
    requires FollowsLinks(provider, before, walk, first, etag) && FollowsLinks(provider, before, walk', first, etag)
    requires n <= |walk| && n <= |walk'|
    ensures walk[..n] == walk'[..n]
  {
    hide IsPage, NextLink;
    if n > 0 {
      SameBegin(provider, before, walk, walk', first, etag, n - 1);
      var a, b := walk[n - 1], walk'[n - 1];
      if n > 1 {
        assert Reply(provider, before, walk, n - 2) == Reply(provider, before, walk', n - 2);
        assert LeadsTo(Reply(provider, before, walk, n - 2), walk[n - 2 + 1].url);
        assert LeadsTo(Reply(provider, before, walk', n - 2), walk'[n - 2 + 1].url);
        assert a.url == b.url by { OneLink(Reply(provider, before, walk, n - 2), a.url, b.url); }
      }
      assert a == b;
      assert walk[..n] == walk[..n - 1] + [a] && walk'[..n] == walk'[..n - 1] + [b];
    }
  }

  lemma OneLink(r: Response, u: Url, v: Url)
    requires LeadsTo(r, u) && LeadsTo(r, v)
    ensures u == v
  {
  }

  lemma {:induction false} SameReplies(provider: Provider, before: seq<Request>, walk: seq<Request>, walk': seq<Request>, n: nat)
    requires n <= |walk| && n <= |walk'| && walk[..n] == walk'[..n]
    ensures forall i :: 0 <= i < n ==> Reply(provider, before, walk, i) == Reply(provider, before, walk', i)
  {
    forall i | 0 <= i < n ensures Reply(provider, before, walk, i) == Reply(provider, before, walk', i) {
      assert walk[..i + 1] == walk[..n][..i + 1] && walk'[..i + 1] == walk'[..n][..i + 1];
    }
  }

  /** A walk that has settled is not the beginning of a longer one. */
  lemma SettledEnds(provider: Provider, before: seq<Request>, walk: seq<Request>, longer: seq<Request>, first: Url, etag: Option<string>,
                    maxPages: nat, maxRequests: nat)
    requires walk != [] && walk < longer && |longer| <= maxPages && |longer| <= maxRequests
    requires FollowsLinks(provider, before, longer, first, etag)
    ensures Settled(provider, before, walk, maxPages, maxRequests) == None
  {
    hide ClassifyStatus, Bodies, FirstEtag, NextLink;
    var n := |walk|;
    SameReplies(provider, before, walk, longer, n);
    assert LeadsTo(Reply(provider, before, longer, n - 1), longer[n - 1 + 1].url);
    assert longer[n].url !in Urls(walk);
  }

  /** A fetch has one course and one outcome, for any provider. */
  lemma FetchIsDetermined(provider: Provider, token: string, before: seq<Request>, walk: seq<Request>, walk': seq<Request>, first: Url,
                          etag: Option<string>, maxPages: nat, maxRequests: nat, f: Fetch, f': Fetch)
    requires Fetches(provider, token, before, walk, first, etag, maxPages, maxRequests, f)
    requires Fetches(provider, token, before, walk', first, etag, maxPages, maxRequests, f')
    ensures walk == walk' && f == f'
  {
    hide Settled, Reply;
    if RefusedAtOnce(token, etag, maxPages, maxRequests).None? {
      var n := if |walk| < |walk'| then |walk| else |walk'|;
      SameBegin(provider, before, walk, walk', first, etag, n);
      if |walk| < |walk'| {
        assert walk == walk'[..n];
        SettledEnds(provider, before, walk, walk', first, etag, maxPages, maxRequests);
      } else if |walk'| < |walk| {
        assert walk' == walk[..n];
        SettledEnds(provider, before, walk', walk, first, etag, maxPages, maxRequests);
      } else {
        assert walk == walk[..n] && walk' == walk'[..n];
      }
    }
  }

  // ----- the loop -----

  lemma ReplyStays(provider: Provider, before: seq<Request>, walk: seq<Request>, r: Request)
    ensures forall i :: 0 <= i < |walk| ==> Reply(provider, before, walk + [r], i) == Reply(provider, before, walk, i)
    ensures Reply(provider, before, walk + [r], |walk|) == provider(before + walk + [r])
  {
    forall i | 0 <= i < |walk| ensures Reply(provider, before, walk + [r], i) == Reply(provider, before, walk, i) {
      assert (walk + [r])[..i + 1] == walk[..i + 1];
    }
    assert (walk + [r])[..|walk| + 1] == walk + [r];
    assert before + (walk + [r]) == before + walk + [r];
  }

  lemma {:induction false} BodiesStay(provider: Provider, before: seq<Request>, walk: seq<Request>, r: Request, n: nat)
    requires n <= |walk|
    ensures Bodies(provider, before, walk + [r], n) == Bodies(provider, before, walk, n)
    ensures FirstEtag(provider, before, walk + [r], n) == FirstEtag(provider, before, walk, n)
  {
    if n > 0 {
      BodiesStay(provider, before, walk, r, n - 1);
      ReplyStays(provider, before, walk, r);
    }
  }

  lemma UrlsSnoc(walk: seq<Request>, r: Request)
    ensures Urls(walk + [r]) == Urls(walk) + {r.url}
  {
    assert forall i :: 0 <= i < |walk| ==> (walk + [r])[i] == walk[i];
    assert (walk + [r])[|walk|] == r;
  }

  lemma WalkExtends(provider: Provider, before: seq<Request>, walk: seq<Request>, first: Url, etag: Option<string>, r: Request)
    requires FollowsLinks(provider, before, walk, first, etag)
    requires r.etag == if walk == [] then etag else None
    requires walk == [] ==> r.url == first
    requires walk != [] ==> LeadsTo(Reply(provider, before, walk, |walk| - 1), r.url)
    requires r.url !in Urls(walk)
    ensures FollowsLinks(provider, before, walk + [r], first, etag)
  {
    hide Reply, LeadsTo;
    ReplyStays(provider, before, walk, r);
    var walk' := walk + [r];
    forall i | 0 <= i < |walk'| - 1 ensures LeadsTo(Reply(provider, before, walk', i), walk'[i + 1].url) {
      assert Reply(provider, before, walk', i) == Reply(provider, before, walk, i);
      if i + 1 < |walk| { assert walk'[i + 1] == walk[i + 1]; }
    }
  }

  lemma NothingYet(provider: Provider, before: seq<Request>, first: Url, etag: Option<string>)
    ensures FollowsLinks(provider, before, [], first, etag) && Urls([]) == {}
    ensures Bodies(provider, before, [], 0) == [] && FirstEtag(provider, before, [], 0) == None
  {
  }

  /** What a request adds to the walk, and what its answer makes of it. */
  lemma RequestAsked(provider: Provider, history: seq<Request>, walk: seq<Request>, first: Url, etag: Option<string>,
                     pages: seq<Page>, firstEtag: Option<string>, r: Request, maxPages: nat, maxRequests: nat)
    requires FollowsLinks(provider, history, walk, first, etag) && r.url !in Urls(walk)
    requires pages == Bodies(provider, history, walk, |walk|) && firstEtag == FirstEtag(provider, history, walk, |walk|)
    requires r.etag == if walk == [] then etag else None
    requires walk == [] ==> r.url == first
    requires walk != [] ==> LeadsTo(Reply(provider, history, walk, |walk| - 1), r.url)
    ensures var walk', last := walk + [r], provider(history + walk + [r]);
            && FollowsLinks(provider, history, walk', first, etag) && Urls(walk') == Urls(walk) + {r.url}
            && Reply(provider, history, walk', |walk|) == last
            && Settled(provider, history, walk', maxPages, maxRequests)
               == Judged(last, |walk'|, pages, firstEtag, maxPages, maxRequests, Urls(walk'))
            && (last.Answer? ==>
                  && Bodies(provider, history, walk', |walk'|) == pages + [last.body]
                  && FirstEtag(provider, history, walk', |walk'|) == if firstEtag.Some? then firstEtag else last.headers.etag)
  {
    hide FollowsLinks, Reply, LeadsTo, Urls, Judged;
    WalkExtends(provider, history, walk, first, etag, r);
    UrlsSnoc(walk, r);
    BodiesStay(provider, history, walk, r, |walk|);
    ReplyStays(provider, history, walk, r);
  }

  /** The way on leads from a page along its next link. */
  lemma OnwardMeans(last: Response, n: nat, pages: seq<Page>, etag: Option<string>)
    requires AnswerRead(last, n, pages, etag).Ok?
    ensures var onward := AnswerRead(last, n, pages, etag).value;
            && last.Answer? && LeadsTo(last, onward.url) && onward.pages == pages + [last.body]
            && onward.etag == if etag.Some? then etag else last.headers.etag
  {
    hide NextLink, ClassifyStatus;
  }

  /** The client over its transport: the provider, and everything it has been asked so far. */
  class GitHubClient {
    const provider: Provider
    const token: string
    var sent: seq<Request>

    constructor (provider: Provider, token: string)
      ensures this.provider == provider && this.token == token && sent == []
    {
      this.provider, this.token, sent := provider, token, [];
    }

    method Execute(request: Request) returns (response: Response)
      modifies this
      ensures sent == old(sent) + [request] && response == provider(sent)
    {
      sent := sent + [request];
      response := provider(sent);
    }

    method ReadLink(response: Response) returns (next: Result<Option<Url>, Code>)
      requires response.Answer?
      ensures next == NextLink(response)
    {
      next := Ok(None);
      if response.link.Some? {
        next := NextUrl(response.link.value);
      }
    }

    /** One answer: refused, or a page to go on from or to end with. */
    method ReadAnswer(response: Response, requests: nat, pages: seq<Page>, firstEtag: Option<string>) returns (r: Result<Onward, Fetch>)
      requires requests == |pages| + 1
      ensures r == AnswerRead(response, requests, pages, firstEtag)
    {
      hide NextLink, ClassifyStatus;
      if response.TransportError? {
        return Err(Failed(pages, requests, response.code));
      }
      if response.status == NOT_MODIFIED {
        if pages != [] {
          return Err(Failed(pages, requests, InvalidResponse));
        }
        return Err(NotModified(requests));
      }
      if !(200 <= response.status < 300) {
        return Err(Failed(pages, requests, ClassifyStatus(response.status, response.headers)));
      }
      if |response.body| > MAX_RESPONSE_BODY_BYTES {
        return Err(Failed(pages, requests, InvalidResponse));
      }
      var etag := if firstEtag.None? then response.headers.etag else firstEtag;
      var next := ReadLink(response);
      var all := pages + [response.body];
      if next.Err? {
        return Err(Failed(all, requests, next.error));
      }
      if next.value.None? {
        return Err(Pages(all, etag, requests));
      }
      r := Ok(Onward(all, etag, next.value.value));
    }

    /** Walks the pages of an endpoint; `walk` are the requests it made. */
    method FetchPages(first: Url, etag: Option<string>, maxPages: nat, maxRequests: nat) returns (f: Fetch, ghost walk: seq<Request>)
      modifies this
      ensures sent == old(sent) + walk
      ensures Fetches(provider, token, old(sent), walk, first, etag, maxPages, maxRequests, f)
    {
      walk := [];
      if !ValidBudget(maxPages, maxRequests) { return Failed([], 0, InvalidResponse), walk; }
      if !ValidToken(token) { return Failed([], 0, AuthenticationFailed), walk; }
      if etag.Some? && !ValidTag(etag.value) { return Failed([], 0, InvalidResponse), walk; }
      assert RefusedAtOnce(token, etag, maxPages, maxRequests) == None;
      hide NextLink, FollowsLinks, Reply, ClassifyStatus, Urls, Bodies, FirstEtag, ValidToken, ValidTag, RefusedAtOnce, Settled, AnswerRead, LeadsTo;
      ghost var history := sent;
      NothingYet(provider, history, first, etag);
      var url, pages, seen, firstEtag, requests := first, [], {}, None, 0;
      while true
        invariant sent == history + walk && requests == |walk|
        invariant |walk| <= maxPages && |walk| <= maxRequests
        invariant FollowsLinks(provider, history, walk, first, etag) && seen == Urls(walk)
        invariant pages == Bodies(provider, history, walk, |walk|) && firstEtag == FirstEtag(provider, history, walk, |walk|)
        invariant walk == [] ==> url == first
        invariant walk != [] ==> LeadsTo(Reply(provider, history, walk, |walk| - 1), url)
        decreases maxPages - |walk|
      {
        if |pages| >= maxPages || requests >= maxRequests {
          return Failed(pages, requests, PartialPagination), walk;
        }
        if url in seen {
          return Failed(pages, requests, InvalidResponse), walk;
        }
        var request := Request(url, if pages == [] then etag else None);
        RequestAsked(provider, history, walk, first, etag, pages, firstEtag, request, maxPages, maxRequests);
        seen := seen + {url};
        var response := Execute(request);
        walk := walk + [request];
        requests := requests + 1;
        assert sent == history + walk;
        var answer := ReadAnswer(response, requests, pages, firstEtag);
        if answer.Err? {
          return answer.error, walk;
        }
        OnwardMeans(response, requests, pages, firstEtag);
        pages, firstEtag, url := answer.value.pages, answer.value.etag, answer.value.url;
      }
    }
  }
}
