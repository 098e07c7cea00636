/** The GitHub connector: the page cache, the routes and the request budget of a sync. */
module GitHubSync {
  import opened Wrappers
  import opened Ordering
  import opened GitHubPages

  // ----- the page cache -----

  datatype Cached = Cached(etag: Option<string>, pages: seq<Page>)

  /** One cached fetch: what it was given, the requests it made, and what the client answered. */
  datatype Record = Record(url: Url, maxPages: nat, remaining: nat, cached: Option<Cached>,
                           before: seq<Request>, walk: seq<Request>, fetched: Fetch)

  function TagOf(cached: Option<Cached>): Option<string> {
    match cached case None => None case Some(c) => c.etag
  }

  function RequestLimit(remaining: nat): nat { if remaining < MAX_REQUESTS_PER_BATCH then remaining else MAX_REQUESTS_PER_BATCH }

  /** What the connector makes of the client's answer: a 304 stands for the cached pages, and fails without any. */
  function FromCache(f: Fetch, cached: Option<Cached>): Fetch {
    match f
    case NotModified(requests) =>
      (match cached
       case Some(c) => Pages(c.pages, c.etag, requests)
       case None => Failed([], requests, InvalidResponse))
    case _ => f
  }

  function Outcome(record: Record): Fetch { FromCache(record.fetched, record.cached) }

  /** A record tells what happened: nothing was asked without budget, and otherwise the client fetched. */
  ghost predicate TrueRecord(provider: Provider, token: string, r: Record) {
    if r.remaining == 0 then r.walk == [] && r.fetched == Failed([], 0, PartialPagination)
    else Fetches(provider, token, r.before, r.walk, r.url, TagOf(r.cached), r.maxPages, RequestLimit(r.remaining), r.fetched)
  }

  /** The pages and the tag of the last complete fetch of a URL. */
  ghost function LastComplete(trace: seq<Record>, url: Url): Option<Cached> {
    if trace == [] then None
    else
      var last := trace[|trace| - 1];
      if last.url == url && last.fetched.Pages? then Some(Cached(last.fetched.etag, last.fetched.pages))
      else LastComplete(trace[..|trace| - 1], url)
  }

  /** Every record is true, made in its place, and was given the last complete fetch of its URL before it. */
  ghost predicate TrueTrace(provider: Provider, token: string, sent: seq<Request>, trace: seq<Record>) {
    forall k :: 0 <= k < |trace| ==>
      && TrueRecord(provider, token, trace[k]) && trace[k].before + trace[k].walk <= sent
      && trace[k].cached == LastComplete(trace[..k], trace[k].url)
  }

  /** The cache holds, for every URL ever fetched completely, the last complete fetch. */
  ghost predicate CacheTells(pageCache: map<Url, Cached>, trace: seq<Record>) {
    forall url :: LastComplete(trace, url) == if url in pageCache then Some(pageCache[url]) else None
  }

  lemma TraceGrows(provider: Provider, token: string, sent: seq<Request>, sent': seq<Request>, trace: seq<Record>, r: Record)
    requires TrueTrace(provider, token, sent, trace) && sent <= sent'
    requires TrueRecord(provider, token, r) && r.before + r.walk <= sent' && r.cached == LastComplete(trace, r.url)
    ensures TrueTrace(provider, token, sent', trace + [r])
  {
    hide TrueRecord;
    var longer := trace + [r];
    forall k | 0 <= k < |longer|
      ensures TrueRecord(provider, token, longer[k]) && longer[k].before + longer[k].walk <= sent'
              && longer[k].cached == LastComplete(longer[..k], longer[k].url)
    {
      assert longer[..k] == trace[..k];
      if k == |trace| { assert trace[..k] == trace; }
    }
  }

  lemma CacheGrows(pageCache: map<Url, Cached>, trace: seq<Record>, r: Record)
    requires CacheTells(pageCache, trace)
    ensures CacheTells(if r.fetched.Pages? then pageCache[r.url := Cached(r.fetched.etag, r.fetched.pages)] else pageCache, trace + [r])
  {
    assert (trace + [r])[..|trace|] == trace;
  }

  /** Pages come whole from the provider: fetched now, or, on a 304 to their tag, by the last complete fetch of the URL before. */
  lemma PagesAreWhole(provider: Provider, token: string, sent: seq<Request>, trace: seq<Record>, k: nat)
    requires TrueTrace(provider, token, sent, trace) && k < |trace| && Outcome(trace[k]).Pages?
    ensures var r := trace[k];
            && r.walk != [] && r.walk[0].url == r.url && r.before + r.walk <= sent
            && (r.fetched.Pages? ==> Outcome(r) == r.fetched && NextLink(Reply(provider, r.before, r.walk, |r.walk| - 1)) == Ok(None))
            && (r.fetched.NotModified? ==>
                  && Reply(provider, r.before, r.walk, 0).Answer? && Reply(provider, r.before, r.walk, 0).status == NOT_MODIFIED
                  && LastComplete(trace[..k], r.url) == Some(Cached(Outcome(r).etag, Outcome(r).pages)))
            && !r.fetched.Failed?
  {
    hide Fetches, NextLink;
    var r := trace[k];
    if r.remaining > 0 {
      FetchMeans(provider, token, r.before, r.walk, r.url, TagOf(r.cached), r.maxPages, RequestLimit(r.remaining), r.fetched);
    }
  }

  /** What a cached fetch answers: on a 304 the last complete fetch of the URL, pages and tag, or an invalid response without one;
      and otherwise what was fetched. */
  lemma OutcomeMeans(provider: Provider, token: string, sent: seq<Request>, trace: seq<Record>, k: nat)
    requires TrueTrace(provider, token, sent, trace) && k < |trace|
    ensures var (r, last) := (trace[k], LastComplete(trace[..k], trace[k].url));
            && (r.fetched.NotModified? && last.Some? ==> Outcome(r) == Pages(last.value.pages, last.value.etag, r.fetched.requests))
            && (r.fetched.NotModified? && last.None? ==> Outcome(r) == Failed([], r.fetched.requests, InvalidResponse))
            && (!r.fetched.NotModified? ==> Outcome(r) == r.fetched)
            && (r.remaining == 0 ==> Outcome(r) == Failed([], 0, PartialPagination) && r.walk == [])
            && (r.walk != [] ==> r.walk[0] == Request(r.url, if last.Some? then last.value.etag else None))
            && |r.walk| <= r.remaining && |r.walk| <= 200
  {
    hide Fetches, NextLink;
    var r := trace[k];
    if r.remaining > 0 {
      FetchMeans(provider, token, r.before, r.walk, r.url, TagOf(r.cached), r.maxPages, RequestLimit(r.remaining), r.fetched);
    }
  }

  /** A record makes no more requests than were left, and reports each. */
  lemma RecordCounts(provider: Provider, token: string, r: Record)
    requires TrueRecord(provider, token, r)
    ensures Outcome(r).requests == |r.walk| <= r.remaining && !Outcome(r).NotModified?
  {
    hide Fetches;
    if r.remaining > 0 {
      FetchMeans(provider, token, r.before, r.walk, r.url, TagOf(r.cached), r.maxPages, RequestLimit(r.remaining), r.fetched);
    }
  }

  // ----- the collector -----

  /** A repository: its external id, and the URLs its data is fetched from. */
  datatype Route = Route(externalId: Id, repositoryUrl: Url, workflowsUrl: Url, runsUrl: Url)

  /** What a mapper makes of pages: the keys of resources and relations, and whether the view was cut. */
  datatype View = View(cut: bool, resources: seq<Id>, relations: seq<Id>)

  /** The mappers of the three kinds of pages; the code of unreadable pages ends a sync. */
  datatype Mapper = Mapper(repositories: seq<Page> -> Result<(seq<Route>, View), Code>,
                           workflows: seq<Page> -> Result<View, Code>, runs: seq<Page> -> Result<View, Code>)

  datatype Collector = Collector(remaining: nat, recorded: nat, failure: Option<Code>, warnings: nat, resources: seq<Id>, relations: seq<Id>)

  const START := Collector(MAX_REQUESTS_PER_BATCH, 0, None, 0, [], [])

  /** Requests recorded and requests left always make up the budget. */
  predicate Conserved(c: Collector) { c.recorded + c.remaining == 200 }

  function AddSummary(c: Collector, requests: nat): Collector {
    c.(remaining := if requests <= c.remaining then c.remaining - requests else 0, recorded := c.recorded + requests)
  }

  function AddView(c: Collector, view: View): Collector {
    c.(resources := c.resources + view.resources, relations := c.relations + view.relations)
  }

  /** What a module lacks: its view was cut, or it failed. */
  datatype Gap = Gap(bounded: bool, failure: Option<Code>)

  const NO_GAP := Gap(false, None)

  function CollectGap(c: Collector, gap: Gap): Collector {
    if gap == NO_GAP then c
    else
      c.(failure := if c.failure.Some? then c.failure else if gap.failure.Some? then gap.failure else Some(PartialPagination),
         warnings := c.warnings + 1)
  }

  /** The gaps of several modules, in their order. */
  function CollectGaps(c: Collector, gaps: seq<Gap>): Collector
    decreases |gaps|
  {
    if gaps == [] then c else CollectGaps(CollectGap(c, gaps[0]), gaps[1..])
  }

  lemma {:induction false} GapsCollected(c: Collector, gaps: seq<Gap>)
    ensures var d := CollectGaps(c, gaps);
            && d.remaining == c.remaining && d.recorded == c.recorded && d.resources == c.resources && d.relations == c.relations
            && (d.failure.None? <==> c.failure.None? && forall i :: 0 <= i < |gaps| ==> gaps[i] == NO_GAP)
    decreases |gaps|
  {
    if gaps != [] {
      assert gaps == [gaps[0]] + gaps[1..];
      GapsCollected(CollectGap(c, gaps[0]), gaps[1..]);
    }
  }

  function MarkExhausted(c: Collector): Collector { CollectGap(c, Gap(true, None)) }

  predicate IsAuth(code: Code) { code == AuthenticationFailed || code == CredentialUnavailable }

  function PagesOf(f: Fetch): seq<Page> {
    match f case Pages(pages, _, _) => pages case Failed(completed, _, _) => completed case NotModified(_) => []
  }

  function GapOf(f: Fetch, cut: bool): Gap {
    if f.Failed? then Gap(true, Some(f.code)) else Gap(cut, None)
  }

  /** Pages that a sync cannot do without: a failure before the first of them ends it, and so does one of the credential. */
  function RequiredPages(f: Fetch): Option<Code> {
    if f.Failed? && (f.completed == [] || IsAuth(f.code)) then Some(f.code) else None
  }

  /** Pages a sync can do without; a failure of the credential still ends it. */
  function OptionalPages(f: Fetch): Option<Code> {
    if f.Failed? && IsAuth(f.code) then Some(f.code) else None
  }

  // ----- a module -----

  /** The collector after a module, or the code that ends the sync. */
  function ModuleDone(read: seq<Page> -> Result<View, Code>, c: Collector, f: Fetch): Result<Collector, Code> {
    if OptionalPages(f).Some? then Err(OptionalPages(f).value)
    else
      match read(PagesOf(f))
      case Err(code) => Err(code)
      case Ok(view) => Ok(CollectGap(AddView(AddSummary(c, f.requests), view), GapOf(f, view.cut)))
  }

  /** The failure that goes on record: the first there was, then the fetch's own, then that of a cut view. */
  function FailureAfter(before: Option<Code>, f: Fetch, cut: bool): Option<Code> {
    if before.Some? then before else if f.Failed? then Some(f.code) else if cut then Some(PartialPagination) else None
  }

  /** What an optional module does: a failed credential or unreadable pages end the sync; otherwise its requests are counted, its keys
      added, and what it lacks goes on record, with one warning. */
  lemma ModuleMeans(read: seq<Page> -> Result<View, Code>, c: Collector, f: Fetch, code: Code)
    requires !f.NotModified? && f.requests <= c.remaining
    ensures var pages := if f.Pages? then f.pages else f.completed;
            var lost := f.Failed? && (f.code == AuthenticationFailed || f.code == CredentialUnavailable);
            && (ModuleDone(read, c, f) == Err(code) <==> (lost && code == f.code) || (!lost && read(pages) == Err(code)))
            && (ModuleDone(read, c, f).Ok? ==>
                  read(pages).Ok? &&
                  var (d, view) := (ModuleDone(read, c, f).value, read(pages).value);
                  && d.remaining == c.remaining - f.requests && d.recorded == c.recorded + f.requests
                  && d.resources == c.resources + view.resources && d.relations == c.relations + view.relations
                  && d.failure == FailureAfter(c.failure, f, view.cut)
                  && d.warnings == c.warnings + if f.Failed? || view.cut then 1 else 0)
  {
  }

  /** A used-up budget makes the sync partial, unless it is already, and adds one or two warnings. */
  lemma ExhaustedMeans(c: Collector, routes: seq<Route>, n: nat)
    ensures var d := Exhausted(c, routes, n);
            && d == c.(failure := d.failure, warnings := d.warnings)
            && d.failure == (if c.failure.Some? then c.failure else Some(PartialPagination))
            && c.warnings + 1 <= d.warnings <= c.warnings + 2
  {
  }

  // ----- the children of the repositories -----

  /** The children of all routes in turn: workflows, then runs. */
  function ChildUrl(routes: seq<Route>, j: nat): Url
    requires j < 2 * |routes|
  {
    if j % 2 == 0 then routes[j / 2].workflowsUrl else routes[j / 2].runsUrl
  }

  function ChildReader(m: Mapper, j: nat): seq<Page> -> Result<View, Code> { if j % 2 == 0 then m.workflows else m.runs }

  function ChildPages(j: nat): nat { if j % 2 == 0 then 2 else 1 }

  /** The collector after the children on record, or the code that ended the sync. */
  function Replay(m: Mapper, c: Collector, records: seq<Record>): Result<Collector, Code> {
    if records == [] then Ok(c)
    else
      var n := |records| - 1;
      match Replay(m, c, records[..n])
      case Err(code) => Err(code)
      case Ok(d) => ModuleDone(ChildReader(m, n), d, Outcome(records[n]))
  }

  /** The marks of a budget used up before the n-th child: within a repository one, and one more at the next. */
  function Exhausted(c: Collector, routes: seq<Route>, n: nat): Collector {
    if n % 2 == 1 && n / 2 + 1 < |routes| then MarkExhausted(MarkExhausted(c)) else MarkExhausted(c)
  }

  /** The children were fetched in turn, each while requests were left and nothing had ended the sync. */
  ghost predicate InTurn(m: Mapper, routes: seq<Route>, c: Collector, records: seq<Record>) {
    && |records| <= 2 * |routes|
    && forall j :: 0 <= j < |records| ==> ChildInTurn(m, routes, c, records, j)
  }

  ghost predicate ChildInTurn(m: Mapper, routes: seq<Route>, c: Collector, records: seq<Record>, j: nat)
    requires j < |records| <= 2 * |routes|
  {
    && records[j].url == ChildUrl(routes, j) && records[j].maxPages == ChildPages(j)
    && Replay(m, c, records[..j]).Ok? && Replay(m, c, records[..j]).value.remaining == records[j].remaining > 0
  }

  /** The children end with an error, or with the last of them, or when no request is left. */
  ghost predicate ChildrenDone(m: Mapper, routes: seq<Route>, c: Collector, records: seq<Record>, r: Result<Collector, Code>) {
    && InTurn(m, routes, c, records)
    && match Replay(m, c, records)
       case Err(code) => r == Err(code)
       case Ok(d) =>
         if |records| == 2 * |routes| then r == Ok(d)
         else d.remaining == 0 && r == Ok(Exhausted(d, routes, |records|))
  }

  /** A module without gap: whole pages, none of them cut. */
  predicate WholeModule(read: seq<Page> -> Result<View, Code>, f: Fetch) { f.Pages? && read(f.pages).Ok? && !read(f.pages).value.cut }

  ghost predicate WholeChildren(m: Mapper, records: seq<Record>) {
    forall j :: 0 <= j < |records| ==> WholeModule(ChildReader(m, j), Outcome(records[j]))
  }

  lemma {:induction false} ReplayTells(m: Mapper, c: Collector, records: seq<Record>)
    requires Replay(m, c, records).Ok? && forall j :: 0 <= j < |records| ==> !Outcome(records[j]).NotModified?
    ensures Replay(m, c, records).value.failure.None? <==> c.failure.None? && WholeChildren(m, records)
  {
    hide Outcome;
    if records != [] {
      var n := |records| - 1;
      ReplayTells(m, c, records[..n]);
      assert forall j :: 0 <= j < n ==> records[..n][j] == records[j];
    }
  }

  /** No failure is on record after the children exactly when none was before, each was fetched, and each came whole. */
  lemma ChildrenTell(m: Mapper, routes: seq<Route>, c: Collector, records: seq<Record>, r: Result<Collector, Code>)
    requires ChildrenDone(m, routes, c, records, r) && r.Ok? && forall j :: 0 <= j < |records| ==> !Outcome(records[j]).NotModified?
    ensures r.value.failure.None? <==> c.failure.None? && |records| == 2 * |routes| && WholeChildren(m, records)
    ensures forall k :: 0 <= k < |routes| ==>
      && (2 * k < |records| ==> records[2 * k].url == routes[k].workflowsUrl && records[2 * k].maxPages == 2)
      && (2 * k + 1 < |records| ==> records[2 * k + 1].url == routes[k].runsUrl && records[2 * k + 1].maxPages == 1)
  {
    ChildrenInTurn(m, routes, c, records);
    hide Replay, InTurn;
    ReplayTells(m, c, records);
  }

  /** The children come route by route, workflows before runs. */
  lemma ChildrenInTurn(m: Mapper, routes: seq<Route>, c: Collector, records: seq<Record>)
    requires InTurn(m, routes, c, records)
    ensures forall k :: 0 <= k < |routes| ==>
      && (2 * k < |records| ==> records[2 * k].url == routes[k].workflowsUrl && records[2 * k].maxPages == 2)
      && (2 * k + 1 < |records| ==> records[2 * k + 1].url == routes[k].runsUrl && records[2 * k + 1].maxPages == 1)
  {
    hide Replay;
    forall k | 0 <= k < |routes|
      ensures 2 * k < |records| ==> records[2 * k].url == routes[k].workflowsUrl && records[2 * k].maxPages == 2
      ensures 2 * k + 1 < |records| ==> records[2 * k + 1].url == routes[k].runsUrl && records[2 * k + 1].maxPages == 1
    {
      if 2 * k < |records| { assert ChildInTurn(m, routes, c, records, 2 * k); }
      if 2 * k + 1 < |records| { assert ChildInTurn(m, routes, c, records, 2 * k + 1); }
    }
  }

  /** The view a mapper made of a child's pages. */
  function ChildView(m: Mapper, j: nat, f: Fetch): Option<View>
    requires !f.NotModified?
  {
    var pages := if f.Pages? then f.pages else f.completed;
    match if j % 2 == 0 then m.workflows(pages) else m.runs(pages)
    case Err(_) => None
    case Ok(view) => Some(view)
  }

  ghost predicate ResourceSeen(m: Mapper, records: seq<Record>, x: Id)
    requires forall j :: 0 <= j < |records| ==> !Outcome(records[j]).NotModified?
  {
    exists j :: 0 <= j < |records| && ChildView(m, j, Outcome(records[j])).Some? && x in ChildView(m, j, Outcome(records[j])).value.resources
  }

  ghost predicate RelationSeen(m: Mapper, records: seq<Record>, x: Id)
    requires forall j :: 0 <= j < |records| ==> !Outcome(records[j]).NotModified?
  {
    exists j :: 0 <= j < |records| && ChildView(m, j, Outcome(records[j])).Some? && x in ChildView(m, j, Outcome(records[j])).value.relations
  }

  /** The keys collected are those there were and those in the views of the children. */
  lemma {:induction false} ReplayKeys(m: Mapper, c: Collector, records: seq<Record>, x: Id)
    requires Replay(m, c, records).Ok? && forall j :: 0 <= j < |records| ==> !Outcome(records[j]).NotModified?
    ensures x in Replay(m, c, records).value.resources <==> x in c.resources || ResourceSeen(m, records, x)
    ensures x in Replay(m, c, records).value.relations <==> x in c.relations || RelationSeen(m, records, x)
  {
    hide Outcome;
    if records != [] {
      var n := |records| - 1;
      var front := records[..n];
      assert forall j :: 0 <= j < n ==> front[j] == records[j];
      ReplayKeys(m, c, front, x);
      SeenSnoc(m, records, x);
      KeysAdded(m, n, Replay(m, c, front).value, Outcome(records[n]));
    }
  }

  lemma KeysAdded(m: Mapper, j: nat, c: Collector, f: Fetch)
    requires !f.NotModified? && ModuleDone(ChildReader(m, j), c, f).Ok?
    ensures ChildView(m, j, f).Some?
    ensures ModuleDone(ChildReader(m, j), c, f).value.resources == c.resources + ChildView(m, j, f).value.resources
    ensures ModuleDone(ChildReader(m, j), c, f).value.relations == c.relations + ChildView(m, j, f).value.relations
  {
  }

  lemma SeenSnoc(m: Mapper, records: seq<Record>, x: Id)
    requires records != [] && forall j :: 0 <= j < |records| ==> !Outcome(records[j]).NotModified?
    ensures var n := |records| - 1;
            var view := ChildView(m, n, Outcome(records[n]));
            && (ResourceSeen(m, records, x) <==> ResourceSeen(m, records[..n], x) || (view.Some? && x in view.value.resources))
            && (RelationSeen(m, records, x) <==> RelationSeen(m, records[..n], x) || (view.Some? && x in view.value.relations))
  {
    hide Outcome, ChildView;
    var n := |records| - 1;
    assert forall j :: 0 <= j < n ==> records[..n][j] == records[j];
  }

  /** The keys of a sync that ends well are those it began with and those in the views of its children. */
  lemma ChildrenKeys(m: Mapper, routes: seq<Route>, c: Collector, records: seq<Record>, r: Result<Collector, Code>, x: Id)
    requires ChildrenDone(m, routes, c, records, r) && r.Ok? && forall j :: 0 <= j < |records| ==> !Outcome(records[j]).NotModified?
    ensures x in r.value.resources <==> x in c.resources || ResourceSeen(m, records, x)
    ensures x in r.value.relations <==> x in c.relations || RelationSeen(m, records, x)
  {
    hide Replay, InTurn, ResourceSeen, RelationSeen, Outcome;
    ReplayKeys(m, c, records, x);
  }

  /** The failure on record is that of the first module that lacks something. */
  lemma {:induction false} FailureIsFirst(m: Mapper, c: Collector, records: seq<Record>)
    requires c.failure.None? && Replay(m, c, records).Ok? && forall j :: 0 <= j < |records| ==> !Outcome(records[j]).NotModified?
    ensures var failure := Replay(m, c, records).value.failure;
            failure.Some? ==> exists j :: 0 <= j < |records| && FirstLacking(m, records, j, failure.value)
    decreases |records|
  {
    hide Outcome, ModuleDone, WholeModule;
    ReplayTells(m, c, records);
    if records != [] {
      var n := |records| - 1;
      var front := records[..n];
      assert forall j :: 0 <= j < n ==> front[j] == records[j];
      FailureIsFirst(m, c, front);
      ReplayTells(m, c, front);
      var d := Replay(m, c, front).value;
      if d.failure.Some? {
        var j :| 0 <= j < n && FirstLacking(m, front, j, d.failure.value);
        assert front[..j] == records[..j];
        assert FirstLacking(m, records, j, d.failure.value);
        FailureStays(ChildReader(m, n), d, Outcome(records[n]));
      } else {
        LackingCode(m, n, d, Outcome(records[n]));
        if Replay(m, c, records).value.failure.Some? {
          assert FirstLacking(m, records, n, Replay(m, c, records).value.failure.value);
        }
      }
    }
  }

  ghost predicate FirstLacking(m: Mapper, records: seq<Record>, j: nat, code: Code)
    requires j < |records|
  {
    && WholeChildren(m, records[..j]) && !WholeModule(ChildReader(m, j), Outcome(records[j]))
    && code == if Outcome(records[j]).Failed? then Outcome(records[j]).code else PartialPagination
  }

  lemma FailureStays(read: seq<Page> -> Result<View, Code>, c: Collector, f: Fetch)
    requires c.failure.Some? && ModuleDone(read, c, f).Ok?
    ensures ModuleDone(read, c, f).value.failure == c.failure
  {
  }

  lemma LackingCode(m: Mapper, j: nat, c: Collector, f: Fetch)
    requires c.failure.None? && !f.NotModified? && ModuleDone(ChildReader(m, j), c, f).Ok?
    ensures ModuleDone(ChildReader(m, j), c, f).value.failure
         == if WholeModule(ChildReader(m, j), f) then None else Some(if f.Failed? then f.code else PartialPagination)
  {
  }

  lemma ReplaySnoc(m: Mapper, c: Collector, records: seq<Record>, r: Record)
    requires Replay(m, c, records).Ok?
    ensures Replay(m, c, records + [r]) == ModuleDone(ChildReader(m, |records|), Replay(m, c, records).value, Outcome(r))
  {
    assert (records + [r])[..|records|] == records;
  }

  lemma InTurnSnoc(m: Mapper, routes: seq<Route>, c: Collector, records: seq<Record>, r: Record)
    requires InTurn(m, routes, c, records) && |records| < 2 * |routes| && Replay(m, c, records).Ok?
    requires r.url == ChildUrl(routes, |records|) && r.maxPages == ChildPages(|records|)
    requires Replay(m, c, records).value.remaining == r.remaining > 0
    ensures InTurn(m, routes, c, records + [r])
  {
    hide Replay;
    var longer := records + [r];
    forall j | 0 <= j < |longer| ensures ChildInTurn(m, routes, c, longer, j) {
      assert longer[..j] == records[..j];
      if j < |records| {
        assert ChildInTurn(m, routes, c, records, j);
      } else {
        assert records[..j] == records;
      }
    }
  }

  /** The records of one repository: its workflows, and its runs unless those ended the sync or used up the budget. */
  ghost predicate RouteDone(m: Mapper, route: Route, c: Collector, added: seq<Record>, r: Result<Collector, Code>) {
    && 1 <= |added| <= 2
    && added[0].url == route.workflowsUrl && added[0].maxPages == 2 && added[0].remaining == c.remaining
    && match ModuleDone(m.workflows, c, Outcome(added[0]))
       case Err(code) => |added| == 1 && r == Err(code)
       case Ok(d) =>
         if d.remaining == 0 then |added| == 1 && r == Ok(MarkExhausted(d))
         else && |added| == 2 && added[1].url == route.runsUrl && added[1].maxPages == 1 && added[1].remaining == d.remaining
              && r == ModuleDone(m.runs, d, Outcome(added[1]))
  }

  /** Between two repositories: the children so far are in turn, and the collector stands after them, or is marked when the last
      workflows used up the budget. */
  ghost predicate RoutesSoFar(m: Mapper, routes: seq<Route>, c0: Collector, records: seq<Record>, k: nat, c: Collector) {
    && k <= |routes| && InTurn(m, routes, c0, records) && Replay(m, c0, records).Ok?
    && var d := Replay(m, c0, records).value;
       || (|records| == 2 * k && c == d)
       || (|records| == 2 * k - 1 && d.remaining == 0 && c == MarkExhausted(d))
  }

  lemma NoRoutesYet(m: Mapper, routes: seq<Route>, c: Collector)
    ensures RoutesSoFar(m, routes, c, [], 0, c)
  {
  }

  lemma RouteAdded(m: Mapper, routes: seq<Route>, c0: Collector, records: seq<Record>, k: nat, c: Collector, added: seq<Record>,
                   r: Result<Collector, Code>)
    requires RoutesSoFar(m, routes, c0, records, k, c) && k < |routes| && c.remaining > 0 && RouteDone(m, routes[k], c, added, r)
    ensures r.Ok? ==> RoutesSoFar(m, routes, c0, records + added, k + 1, r.value)
    ensures r.Err? ==> ChildrenDone(m, routes, c0, records + added, r)
  {
    hide Replay, InTurn, ModuleDone, Outcome;
    assert |records| == 2 * k && Replay(m, c0, records) == Ok(c);
    var first := records + [added[0]];
    InTurnSnoc(m, routes, c0, records, added[0]);
    ReplaySnoc(m, c0, records, added[0]);
    if |added| == 1 {
      assert records + added == first;
    } else {
      InTurnSnoc(m, routes, c0, first, added[1]);
      ReplaySnoc(m, c0, first, added[1]);
      assert records + added == first + [added[1]];
    }
  }

  lemma RoutesStop(m: Mapper, routes: seq<Route>, c0: Collector, records: seq<Record>, k: nat, c: Collector)
    requires RoutesSoFar(m, routes, c0, records, k, c)
    ensures k < |routes| && c.remaining == 0 ==> ChildrenDone(m, routes, c0, records, Ok(MarkExhausted(c)))
    ensures k == |routes| ==> ChildrenDone(m, routes, c0, records, Ok(c))
  {
    hide Replay, InTurn;
  }

  // ----- a full sync -----

  /** The routes and the collector after the list of repositories, or the code that ends the sync. */
  function ListDone(m: Mapper, f: Fetch): Result<(seq<Route>, Collector), Code> {
    if RequiredPages(f).Some? then Err(RequiredPages(f).value)
    else
      match m.repositories(PagesOf(f))
      case Err(code) => Err(code)
      case Ok((routes, view)) => Ok((routes, CollectGap(AddView(AddSummary(START, f.requests), view), GapOf(f, view.cut))))
  }

  /** A full sync, by its records: the list with the whole budget, then the children of the routes it gives. */
  ghost predicate FullSync(m: Mapper, url: Url, records: seq<Record>, r: Result<Collector, Code>) {
    && records != [] && records[0].url == url && records[0].maxPages == MAX_PAGES_PER_ENDPOINT
    && records[0].remaining == MAX_REQUESTS_PER_BATCH
    && match ListDone(m, Outcome(records[0]))
       case Err(code) => |records| == 1 && r == Err(code)
       case Ok((routes, c)) => ChildrenDone(m, routes, c, records[1..], r)
  }

  /** A full sync ends with no failure on record if and only if the list came whole, and the workflows and runs of every
      repository on it were fetched and came whole. */
  lemma FullSyncTells(m: Mapper, url: Url, records: seq<Record>, r: Result<Collector, Code>)
    requires FullSync(m, url, records, r) && r.Ok? && forall j :: 0 <= j < |records| ==> !Outcome(records[j]).NotModified?
    ensures ListDone(m, Outcome(records[0])).Ok?
    ensures var (routes, _) := ListDone(m, Outcome(records[0])).value;
            r.value.failure.None?
            <==> && WholeTarget(m, Outcome(records[0])) && m.repositories(Outcome(records[0]).pages).value.0 == routes
                 && |records| == 1 + 2 * |routes| && WholeChildren(m, records[1..])
  {
    hide ChildrenDone, WholeChildren, Outcome;
    var (routes, c) := ListDone(m, Outcome(records[0])).value;
    ChildrenTell(m, routes, c, records[1..], r);
  }

  /** What the list of repositories does: a failure before its first page, a failed credential or unreadable pages end the sync;
      otherwise its routes are followed, its requests counted, its keys added, and what it lacks is on record. */
  lemma ListMeans(m: Mapper, f: Fetch, code: Code)
    requires !f.NotModified? && f.requests <= 200
    ensures var pages := if f.Pages? then f.pages else f.completed;
            var lost := f.Failed? && (f.completed == [] || f.code == AuthenticationFailed || f.code == CredentialUnavailable);
            && (ListDone(m, f) == Err(code) <==> (lost && code == f.code) || (!lost && m.repositories(pages) == Err(code)))
            && (ListDone(m, f).Ok? ==>
                  m.repositories(pages).Ok? &&
                  var ((routes, c), (listed, view)) := (ListDone(m, f).value, m.repositories(pages).value);
                  && routes == listed && c.remaining == 200 - f.requests && c.recorded == f.requests
                  && c.resources == view.resources && c.relations == view.relations
                  && c.failure == FailureAfter(None, f, view.cut) && c.warnings == if f.Failed? || view.cut then 1 else 0)
  {
  }

  /** The keys of a full sync that ends well are exactly those in the views of its records: the list's and the children's. */
  lemma FullSyncKeys(m: Mapper, url: Url, records: seq<Record>, r: Result<Collector, Code>, x: Id)
    requires FullSync(m, url, records, r) && r.Ok? && forall j :: 0 <= j < |records| ==> !Outcome(records[j]).NotModified?
    ensures var f := Outcome(records[0]);
            var listed := m.repositories(if f.Pages? then f.pages else f.completed);
            && listed.Ok?
            && (x in r.value.resources <==> x in listed.value.1.resources || ResourceSeen(m, records[1..], x))
            && (x in r.value.relations <==> x in listed.value.1.relations || RelationSeen(m, records[1..], x))
  {
    hide ChildrenDone, ResourceSeen, RelationSeen, Outcome;
    var (routes, c) := ListDone(m, Outcome(records[0])).value;
    ChildrenKeys(m, routes, c, records[1..], r, x);
  }

  // ----- a targeted sync -----

  /** The first cached route of a repository. */
  function FindRoute(cache: seq<Route>, externalId: Id): Option<Route> {
    if cache == [] then None else if cache[0].externalId == externalId then Some(cache[0]) else FindRoute(cache[1..], externalId)
  }

  /** A resource a targeted sync names. */
  datatype Locator = Locator(kind: string, externalId: Id)

  const REPOSITORY_KIND := "github.repository"

  /** A route goes into a sorted list behind all that do not come after it. */
  function InsertRoute(sorted: seq<Route>, r: Route): seq<Route> {
    if sorted == [] then [r]
    else if IdLess(r.externalId, sorted[|sorted| - 1].externalId) then InsertRoute(sorted[..|sorted| - 1], r) + [sorted[|sorted| - 1]]
    else sorted + [r]
  }

  /** Routes by external id; those of one id keep their order. */
  function SortRoutes(routes: seq<Route>): seq<Route> {
    if routes == [] then [] else InsertRoute(SortRoutes(routes[..|routes| - 1]), routes[|routes| - 1])
  }

  predicate RoutesInOrder(routes: seq<Route>) {
    forall i, j :: 0 <= i < j < |routes| ==> !IdLess(routes[j].externalId, routes[i].externalId)
  }

  predicate NoneAfter(routes: seq<Route>, externalId: Id) {
    forall i :: 0 <= i < |routes| ==> !IdLess(externalId, routes[i].externalId)
  }

  lemma InOrderSnoc(routes: seq<Route>, r: Route)
    ensures RoutesInOrder(routes + [r]) <==> RoutesInOrder(routes) && NoneAfter(routes, r.externalId)
  {
    hide IdLess;
    var all := routes + [r];
    assert forall i :: 0 <= i < |routes| ==> all[i] == routes[i];
    assert all[|routes|] == r;
  }

  lemma NoneAfterLater(routes: seq<Route>, a: Id, b: Id)
    requires NoneAfter(routes, a) && !IdLess(b, a)
    ensures NoneAfter(routes, b)
  {
    IdOrder();
    hide IdLess;
  }

  lemma {:induction false} InsertedAmong(sorted: seq<Route>, r: Route, bound: Id)
    requires NoneAfter(sorted, bound) && !IdLess(bound, r.externalId)
    ensures NoneAfter(InsertRoute(sorted, r), bound)
  {
    hide IdLess;
    if sorted != [] {
      InsertedAmong(sorted[..|sorted| - 1], r, bound);
    }
  }

  lemma {:induction false} InsertedInOrder(sorted: seq<Route>, r: Route)
    requires RoutesInOrder(sorted)
    ensures RoutesInOrder(InsertRoute(sorted, r)) && multiset(InsertRoute(sorted, r)) == multiset(sorted) + multiset{r}
  {
    hide RoutesInOrder, NoneAfter, IdLess;
    if sorted == [] {
      InOrderSnoc([], r);
      OneInOrder(r);
    } else {
      var n := |sorted| - 1;
      var front, last := sorted[..n], sorted[n];
      assert sorted == front + [last];
      InOrderSnoc(front, last);
      if IdLess(r.externalId, last.externalId) {
        InsertedInOrder(front, r);
        NotBothLess(r.externalId, last.externalId);
        InsertedAmong(front, r, last.externalId);
        InOrderSnoc(InsertRoute(front, r), last);
      } else {
        NoneAfterLater(front, last.externalId, r.externalId);
        InOrderSnoc(sorted, r);
        OneMore(front, last, r.externalId);
      }
    }
  }

  lemma OneInOrder(r: Route)
    ensures RoutesInOrder([r])
  {
  }

  lemma NotBothLess(a: Id, b: Id)
    requires IdLess(a, b)
    ensures !IdLess(b, a)
  {
    IdOrder();
  }

  lemma OneMore(front: seq<Route>, last: Route, bound: Id)
    requires NoneAfter(front, bound) && !IdLess(bound, last.externalId)
    ensures NoneAfter(front + [last], bound)
  {
    hide IdLess;
  }

  /** Sorting loses no route and puts them in order. */
  lemma {:induction false} SortedInOrder(routes: seq<Route>)
    ensures RoutesInOrder(SortRoutes(routes)) && multiset(SortRoutes(routes)) == multiset(routes)
  {
    if routes != [] {
      SortedInOrder(routes[..|routes| - 1]);
      InsertedInOrder(SortRoutes(routes[..|routes| - 1]), routes[|routes| - 1]);
      assert routes == routes[..|routes| - 1] + [routes[|routes| - 1]];
    }
  }

  /** The targets so far: requests are counted at once; routes, in order, and views and gaps are kept for the end. */
  datatype Targets = Targets(c: Collector, routes: seq<Route>, gaps: seq<Gap>, resources: seq<Id>, relations: seq<Id>)

  const NO_TARGETS := Targets(START, [], [], [], [])

  function AddTarget(t: Targets, f: Fetch, routes: seq<Route>, view: View): Targets {
    Targets(AddSummary(t.c, f.requests), SortRoutes(t.routes + routes), t.gaps + [GapOf(f, view.cut)],
            t.resources + view.resources, t.relations + view.relations)
  }

  /** The collector once the targets have joined it. */
  function Joined(t: Targets): Collector {
    CollectGaps(t.c.(resources := t.c.resources + t.resources, relations := t.c.relations + t.relations), t.gaps)
  }

  function TargetDone(m: Mapper, t: Targets, f: Fetch): Result<Targets, Code> {
    if RequiredPages(f).Some? then Err(RequiredPages(f).value)
    else
      match m.repositories(PagesOf(f))
      case Err(code) => Err(code)
      case Ok((routes, view)) => Ok(AddTarget(t, f, routes, view))
  }

  function ReplayTargets(m: Mapper, records: seq<Record>): Result<Targets, Code> {
    if records == [] then Ok(NO_TARGETS)
    else
      var n := |records| - 1;
      match ReplayTargets(m, records[..n])
      case Err(code) => Err(code)
      case Ok(t) => TargetDone(m, t, Outcome(records[n]))
  }

  ghost predicate TargetInTurn(m: Mapper, targets: seq<Route>, records: seq<Record>, j: nat)
    requires j < |records| <= |targets|
  {
    && records[j].url == targets[j].repositoryUrl && records[j].maxPages == 1
    && ReplayTargets(m, records[..j]).Ok? && ReplayTargets(m, records[..j]).value.c.remaining == records[j].remaining > 0
  }

  ghost predicate TargetsInTurn(m: Mapper, targets: seq<Route>, records: seq<Record>) {
    |records| <= |targets| && forall j :: 0 <= j < |records| ==> TargetInTurn(m, targets, records, j)
  }

  /** The targets end with an error, or with the last of them, or when no request is left. */
  ghost predicate TargetsDone(m: Mapper, targets: seq<Route>, records: seq<Record>, r: Result<Targets, Code>) {
    && TargetsInTurn(m, targets, records)
    && match ReplayTargets(m, records)
       case Err(code) => r == Err(code)
       case Ok(t) =>
         if |records| == |targets| then r == Ok(t)
         else t.c.remaining == 0 && r == Ok(t.(c := MarkExhausted(t.c)))
  }

  ghost predicate WholeTargets(m: Mapper, records: seq<Record>) {
    forall j :: 0 <= j < |records| ==> WholeTarget(m, Outcome(records[j]))
  }

  predicate WholeTarget(m: Mapper, f: Fetch) {
    f.Pages? && m.repositories(f.pages).Ok? && !m.repositories(f.pages).value.1.cut
  }

  /** A targeted sync, by its records: first those of the targets, then those of the children of the routes they give. */
  ghost predicate TargetedSync(m: Mapper, targets: seq<Route>, records: seq<Record>, n: nat, r: Result<Collector, Code>)
    requires n <= |records|
  {
    exists t: Result<Targets, Code> ::
      && TargetsDone(m, targets, records[..n], t)
      && match t
         case Err(code) => n == |records| && r == Err(code)
         case Ok(found) => ChildrenDone(m, found.routes, Joined(found), records[n..], r)
  }

  lemma TargetAdded(m: Mapper, targets: seq<Route>, records: seq<Record>, r: Record)
    requires TargetsInTurn(m, targets, records) && |records| < |targets| && ReplayTargets(m, records).Ok?
    requires r.url == targets[|records|].repositoryUrl && r.maxPages == 1
    requires ReplayTargets(m, records).value.c.remaining == r.remaining > 0
    ensures TargetsInTurn(m, targets, records + [r])
    ensures ReplayTargets(m, records + [r]) == TargetDone(m, ReplayTargets(m, records).value, Outcome(r))
  {
    hide Outcome, TargetDone;
    var longer := records + [r];
    assert longer[..|records|] == records;
    assert ReplayTargets(m, longer) == TargetDone(m, ReplayTargets(m, records).value, Outcome(r));
    hide ReplayTargets;
    forall j | 0 <= j < |longer| ensures TargetInTurn(m, targets, longer, j) {
      assert longer[..j] == records[..j];
      if j < |records| {
        assert TargetInTurn(m, targets, records, j);
      } else {
        assert records[..j] == records;
      }
    }
  }

  lemma JoinedTells(t: Targets)
    ensures var d := Joined(t);
            && d.remaining == t.c.remaining && d.recorded == t.c.recorded
            && (d.failure.None? <==> t.c.failure.None? && forall i :: 0 <= i < |t.gaps| ==> t.gaps[i] == NO_GAP)
  {
    GapsCollected(t.c.(resources := t.c.resources + t.resources, relations := t.c.relations + t.relations), t.gaps);
  }

  lemma {:induction false} TargetsTell(m: Mapper, records: seq<Record>)
    requires ReplayTargets(m, records).Ok? && forall j :: 0 <= j < |records| ==> !Outcome(records[j]).NotModified?
    ensures var t := ReplayTargets(m, records).value;
            t.c.failure.None? && ((forall i :: 0 <= i < |t.gaps| ==> t.gaps[i] == NO_GAP) <==> WholeTargets(m, records))
  {
    hide Outcome;
    if records != [] {
      var n := |records| - 1;
      TargetsTell(m, records[..n]);
      assert forall j :: 0 <= j < n ==> records[..n][j] == records[j];
      hide SortRoutes;
      var before, t := ReplayTargets(m, records[..n]).value, ReplayTargets(m, records).value;
      assert t.gaps == before.gaps + [t.gaps[|before.gaps|]];
      assert forall i :: 0 <= i < |before.gaps| ==> t.gaps[i] == before.gaps[i];
    }
  }

  /** What a target does: the same, save that its routes join those found, in order of their ids, and its keys and gap wait for the end. */
  lemma TargetMeans(m: Mapper, t: Targets, f: Fetch, code: Code)
    requires !f.NotModified? && f.requests <= t.c.remaining
    ensures var pages := if f.Pages? then f.pages else f.completed;
            var lost := f.Failed? && (f.completed == [] || f.code == AuthenticationFailed || f.code == CredentialUnavailable);
            && (TargetDone(m, t, f) == Err(code) <==> (lost && code == f.code) || (!lost && m.repositories(pages) == Err(code)))
            && (TargetDone(m, t, f).Ok? ==>
                  m.repositories(pages).Ok? &&
                  var (d, (listed, view)) := (TargetDone(m, t, f).value, m.repositories(pages).value);
                  && RoutesInOrder(d.routes) && multiset(d.routes) == multiset(t.routes) + multiset(listed)
                  && d.c == t.c.(remaining := t.c.remaining - f.requests, recorded := t.c.recorded + f.requests)
                  && d.resources == t.resources + view.resources && d.relations == t.relations + view.relations
                  && |d.gaps| == |t.gaps| + 1 && d.gaps[..|t.gaps|] == t.gaps
                  && d.gaps[|t.gaps|] == if f.Failed? then Gap(true, Some(f.code)) else Gap(view.cut, None))
  {
    hide SortRoutes, RoutesInOrder;
    var pages := if f.Pages? then f.pages else f.completed;
    if TargetDone(m, t, f).Ok? {
      SortedInOrder(t.routes + m.repositories(pages).value.0);
    }
  }

  ghost predicate TargetResourceSeen(m: Mapper, records: seq<Record>, x: Id) {
    exists j :: 0 <= j < |records| && m.repositories(PagesOf(Outcome(records[j]))).Ok?
                && x in m.repositories(PagesOf(Outcome(records[j]))).value.1.resources
  }

  ghost predicate TargetRelationSeen(m: Mapper, records: seq<Record>, x: Id) {
    exists j :: 0 <= j < |records| && m.repositories(PagesOf(Outcome(records[j]))).Ok?
                && x in m.repositories(PagesOf(Outcome(records[j]))).value.1.relations
  }

  /** The keys the targets bring are those in the views of their records. */
  lemma {:induction false} TargetKeys(m: Mapper, records: seq<Record>, x: Id)
    requires ReplayTargets(m, records).Ok?
    ensures var t := ReplayTargets(m, records).value;
            && (x in t.resources <==> TargetResourceSeen(m, records, x)) && (x in t.relations <==> TargetRelationSeen(m, records, x))
            && t.c.resources == [] && t.c.relations == []
  {
    hide Outcome, PagesOf, SortRoutes;
    if records != [] {
      var n := |records| - 1;
      TargetKeys(m, records[..n], x);
      assert forall j :: 0 <= j < n ==> records[..n][j] == records[j];
    }
  }

  /** The resources of a targeted sync that ends well are exactly those in the views of its records. */
  lemma TargetedSyncKeys(m: Mapper, targets: seq<Route>, records: seq<Record>, n: nat, r: Result<Collector, Code>, x: Id)
    requires n <= |records| && TargetedSync(m, targets, records, n, r) && r.Ok?
    requires forall j :: 0 <= j < |records| ==> !Outcome(records[j]).NotModified?
    ensures x in r.value.resources <==> TargetResourceSeen(m, records[..n], x) || ResourceSeen(m, records[n..], x)
    ensures x in r.value.relations <==> TargetRelationSeen(m, records[..n], x) || RelationSeen(m, records[n..], x)
  {
    hide ChildrenDone, TargetResourceSeen, TargetRelationSeen, ResourceSeen, RelationSeen, Outcome, TargetsInTurn, ReplayTargets;
    var t: Result<Targets, Code> :|
      && TargetsDone(m, targets, records[..n], t)
      && match t
         case Err(code) => n == |records| && r == Err(code)
         case Ok(found) => ChildrenDone(m, found.routes, Joined(found), records[n..], r);
    var found := t.value;
    TargetKeys(m, records[..n], x);
    JoinedKeys(found);
    ChildrenKeys(m, found.routes, Joined(found), records[n..], r, x);
  }

  lemma JoinedKeys(t: Targets)
    ensures Joined(t).resources == t.c.resources + t.resources && Joined(t).relations == t.c.relations + t.relations
  {
    GapsCollected(t.c.(resources := t.c.resources + t.resources, relations := t.c.relations + t.relations), t.gaps);
  }

  /** A targeted sync ends with no failure on record if and only if every target was fetched and came whole, and so did the
      workflows and runs of every repository found. */
  lemma TargetedSyncTells(m: Mapper, targets: seq<Route>, records: seq<Record>, n: nat, r: Result<Collector, Code>)
    requires n <= |records| && TargetedSync(m, targets, records, n, r) && r.Ok?
    requires forall j :: 0 <= j < |records| ==> !Outcome(records[j]).NotModified?
    ensures ReplayTargets(m, records[..n]).Ok?
    ensures r.value.failure.None?
            <==> && n == |targets| && WholeTargets(m, records[..n])
                 && |records| == n + 2 * |ReplayTargets(m, records[..n]).value.routes| && WholeChildren(m, records[n..])
  {
    hide ChildrenDone, WholeChildren, WholeTargets, Outcome, TargetsInTurn, ReplayTargets;
    var t: Result<Targets, Code> :|
      && TargetsDone(m, targets, records[..n], t)
      && match t
         case Err(code) => n == |records| && r == Err(code)
         case Ok(found) => ChildrenDone(m, found.routes, Joined(found), records[n..], r);
    var found := t.value;
    TargetsTell(m, records[..n]);
    JoinedTells(found);
    ChildrenTell(m, found.routes, Joined(found), records[n..], r);
    assert |records[..n]| == n && |records[n..]| == |records| - n;
  }

  // ----- the connector -----

  class GitHubConnector {
    const client: GitHubClient
    var pageCache: map<Url, Cached>
    var routeCache: seq<Route>
    ghost var trace: seq<Record>

    ghost predicate Valid()
      reads this, client
    {
      TrueTrace(client.provider, client.token, client.sent, trace) && CacheTells(pageCache, trace)
    }

    constructor (client: GitHubClient)
      ensures Valid() && this.client == client && pageCache == map[] && routeCache == [] && trace == []
    {
      this.client, pageCache, routeCache, trace := client, map[], [], [];
    }

    /** One more record: what was asked for, with the budget left; the outcome is the record's. */
    twostate predicate Fetched(url: Url, maxPages: nat, remaining: nat, f: Fetch)
      reads this, client
    {
      && |trace| == |old(trace)| + 1 && trace[..|old(trace)|] == old(trace)
      && var r := trace[|old(trace)|];
         && r.url == url && r.maxPages == maxPages && r.remaining == remaining
         && r.before == old(client.sent) && client.sent == old(client.sent) + r.walk
         && f == Outcome(r)
    }

    /** The cached fetch: a complete fetch replaces what is cached, a 304 answers with it, and a failure leaves it alone. */
    method FetchCached(url: Url, maxPages: nat, remaining: nat) returns (f: Fetch)
      requires Valid()
      modifies this`pageCache, this`trace, client
      ensures Valid() && Fetched(url, maxPages, remaining, f)
      ensures !f.NotModified? && f.requests == |client.sent| - |old(client.sent)| <= remaining
      ensures var r := trace[|old(trace)|];
              && r.cached == (if url in old(pageCache) then Some(old(pageCache)[url]) else None)
              && pageCache == (if r.fetched.Pages? then old(pageCache)[url := Cached(r.fetched.etag, r.fetched.pages)] else old(pageCache))
    {
      hide Fetches, TrueTrace, CacheTells, LastComplete;
      ghost var before := client.sent;
      var cached := if url in pageCache then Some(pageCache[url]) else None;
      assert cached == LastComplete(trace, url) by { CachedIsLast(pageCache, trace, url); }
      var fetched;
      ghost var walk := [];
      if remaining == 0 {
        fetched := Failed([], 0, PartialPagination);
      } else {
        fetched, walk := client.FetchPages(url, TagOf(cached), maxPages, RequestLimit(remaining));
      }
      ghost var record := Record(url, maxPages, remaining, cached, before, walk, fetched);
      TraceGrows(client.provider, client.token, before, client.sent, trace, record);
      CacheGrows(pageCache, trace, record);
      RecordCounts(client.provider, client.token, record);
      match fetched {
        case Pages(pages, etag, _) =>
          pageCache := pageCache[url := Cached(etag, pages)];
          f := fetched;
        case NotModified(requests) =>
          f := if cached.Some? then Pages(cached.value.pages, cached.value.etag, requests) else Failed([], requests, InvalidResponse);
        case Failed(_, _, _) =>
          f := fetched;
      }
      trace := trace + [record];
    }

    /** One optional module: fetched, read, and entered into the collector. */
    method CollectModule(url: Url, maxPages: nat, read: seq<Page> -> Result<View, Code>, c: Collector) returns (r: Result<Collector, Code>)
      requires Valid() && Conserved(c)
      modifies this`pageCache, this`trace, client
      ensures Valid() && exists f :: Fetched(url, maxPages, c.remaining, f) && !f.NotModified? && r == ModuleDone(read, c, f)
      ensures old(client.sent) <= client.sent && |client.sent| - |old(client.sent)| <= c.remaining
      ensures r.Ok? ==> Conserved(r.value) && r.value.recorded == c.recorded + |client.sent| - |old(client.sent)|
    {
      hide Valid, Outcome;
      var f := FetchCached(url, maxPages, c.remaining);
      if f.Failed? && IsAuth(f.code) { return Err(f.code); }
      var view := read(PagesOf(f));
      if view.Err? { return Err(view.error); }
      r := Ok(CollectGap(AddView(AddSummary(c, f.requests), view.value), GapOf(f, view.value.cut)));
    }

    /** What every part of a sync keeps: records are added, and each request is recorded in the collector. */
    twostate predicate Recorded(recorded: nat, r: Result<nat, Code>)
      reads this, client
    {
      && |old(trace)| <= |trace| && trace[..|old(trace)|] == old(trace)
      && old(client.sent) <= client.sent && recorded + |client.sent| - |old(client.sent)| <= MAX_REQUESTS_PER_BATCH
      && (r.Ok? ==> r.value == recorded + |client.sent| - |old(client.sent)|)
      && forall k :: |old(trace)| <= k < |trace| ==> !Outcome(trace[k]).NotModified?
    }

    /** Workflows and runs of one repository; the caller has checked that a request is left. */
    method CollectChildren(route: Route, m: Mapper, c: Collector) returns (r: Result<Collector, Code>)
      requires Valid() && Conserved(c) && c.remaining > 0
      modifies this`pageCache, this`trace, client
      ensures Valid() && Recorded(c.recorded, CountOf(r)) && (r.Ok? ==> Conserved(r.value))
      ensures RouteDone(m, route, c, trace[|old(trace)|..], r)
    {
      hide Valid, Outcome, ModuleDone;
      r := CollectModule(route.workflowsUrl, 2, m.workflows, c);
      if r.Err? { return; }
      if r.value.remaining == 0 {
        r := Ok(MarkExhausted(r.value));
        return;
      }
      r := CollectModule(route.runsUrl, 1, m.runs, r.value);
    }

    /** The children of every route, while requests are left. */
    method CollectRoutes(routes: seq<Route>, m: Mapper, c0: Collector) returns (r: Result<Collector, Code>)
      requires Valid() && Conserved(c0)
      modifies this`pageCache, this`trace, client
      ensures Valid() && Recorded(c0.recorded, CountOf(r)) && (r.Ok? ==> Conserved(r.value))
      ensures ChildrenDone(m, routes, c0, trace[|old(trace)|..], r)
    {
      hide Valid, Outcome, ChildrenDone, RoutesSoFar, RouteDone;
      ghost var start := |trace|;
      var c := c0;
      NoRoutesYet(m, routes, c0);
      assert trace[start..] == [];
      for k := 0 to |routes|
        invariant Valid() && Conserved(c) && Recorded(c0.recorded, Ok(c.recorded))
        invariant RoutesSoFar(m, routes, c0, trace[start..], k, c)
      {
        ghost var before := trace;
        RoutesStop(m, routes, c0, trace[start..], k, c);
        if c.remaining == 0 {
          return Ok(MarkExhausted(c));
        }
        r := CollectChildren(routes[k], m, c);
        assert trace[start..] == before[start..] + trace[|before|..];
        RouteAdded(m, routes, c0, before[start..], k, c, trace[|before|..], r);
        if r.Err? { return; }
        c := r.value;
      }
      RoutesStop(m, routes, c0, trace[start..], |routes|, c);
      r := Ok(c);
    }

    /** A full sync: the repository list, whose routes are cached, then the children of its repositories. */
    method CollectFull(repositoriesUrl: Url, m: Mapper) returns (r: Result<Collector, Code>)
      requires Valid()
      modifies this`pageCache, this`routeCache, this`trace, client
      ensures Valid() && Recorded(0, CountOf(r)) && (r.Ok? ==> Conserved(r.value))
      ensures FullSync(m, repositoriesUrl, trace[|old(trace)|..], r)
      ensures var list := ListDone(m, Outcome(trace[|old(trace)|]));
              routeCache == if list.Ok? then list.value.0 else old(routeCache)
    {
      hide Valid, Outcome, ChildrenDone;
      var f := FetchCached(repositoriesUrl, MAX_PAGES_PER_ENDPOINT, START.remaining);
      ghost var before := trace;
      if f.Failed? && (f.completed == [] || IsAuth(f.code)) { return Err(f.code); }
      var c := AddSummary(START, f.requests);
      var mapped := m.repositories(PagesOf(f));
      if mapped.Err? { return Err(mapped.error); }
      var (routes, view) := mapped.value;
      CacheRoutes(routes);
      c := CollectGap(AddView(c, view), GapOf(f, view.cut));
      r := CollectRoutes(routes, m, c);
      assert trace[|old(trace)|..][1..] == trace[|before|..];
    }

    method CacheRoutes(routes: seq<Route>)
      requires Valid()
      modifies this`routeCache
      ensures Valid() && routeCache == routes
    {
      routeCache := routes;
    }

    /** The routes of the named repositories: each must be a repository whose route is cached. */
    method TargetedRoutes(locators: seq<Locator>) returns (r: Result<seq<Route>, Code>)
      ensures r.Ok? <==> Routed(routeCache, locators)
      ensures r.Ok? ==> |r.value| == |locators| && forall i :: 0 <= i < |locators| ==>
                r.value[i].externalId == locators[i].externalId && FindRoute(routeCache, locators[i].externalId) == Some(r.value[i])
      ensures r.Err? ==> r.error == InvalidResponse
    {
      if locators == [] { return Err(InvalidResponse); }
      var routes: seq<Route> := [];
      for i := 0 to |locators|
        invariant |routes| == i
        invariant forall j :: 0 <= j < i ==>
          && locators[j].kind == REPOSITORY_KIND && routes[j].externalId == locators[j].externalId
          && FindRoute(routeCache, locators[j].externalId) == Some(routes[j]) && HasRoute(routeCache, locators[j].externalId)
      {
        if locators[i].kind != REPOSITORY_KIND { return Err(InvalidResponse); }
        var found := FindRoute(routeCache, locators[i].externalId);
        RouteFound(routeCache, locators[i].externalId);
        if found.None? { return Err(InvalidResponse); }
        routes := routes + [found.value];
      }
      r := Ok(routes);
    }

    /** The named repositories, one by one while requests are left; gaps join the collector only after the last of them. */
    method CollectTargets(targets: seq<Route>, m: Mapper) returns (r: Result<Targets, Code>)
      requires Valid()
      modifies this`pageCache, this`trace, client
      ensures Valid() && Recorded(0, CountOfTargets(r)) && (r.Ok? ==> Conserved(r.value.c))
      ensures TargetsDone(m, targets, trace[|old(trace)|..], r)
    {
      hide Valid, Outcome, ReplayTargets, TargetsInTurn, SortRoutes;
      ghost var start := |trace|;
      var t := NO_TARGETS;
      assert TargetsInTurn(m, targets, []) && ReplayTargets(m, []) == Ok(t) by { NoTargetsYet(m, targets); }
      assert trace[start..] == [];
      for k := 0 to |targets|
        invariant Valid() && Conserved(t.c) && Recorded(0, Ok(t.c.recorded))
        invariant |trace| == start + k
        invariant TargetsInTurn(m, targets, trace[start..]) && ReplayTargets(m, trace[start..]) == Ok(t)
      {
        if t.c.remaining == 0 {
          return Ok(t.(c := MarkExhausted(t.c)));
        }
        ghost var before := trace;
        var f := FetchCached(targets[k].repositoryUrl, 1, t.c.remaining);
        assert trace[start..] == before[start..] + [trace[|before|]];
        TargetAdded(m, targets, before[start..], trace[|before|]);
        if f.Failed? && (f.completed == [] || IsAuth(f.code)) { return Err(f.code); }
        var mapped := m.repositories(PagesOf(f));
        if mapped.Err? { return Err(mapped.error); }
        var (routes, view) := mapped.value;
        t := AddTarget(t, f, routes, view);
      }
      r := Ok(t);
    }

    /** A targeted sync: the named repositories, then the children of those found. */
    method CollectTargeted(targets: seq<Route>, m: Mapper) returns (r: Result<Collector, Code>, ghost n: nat)
      requires Valid()
      modifies this`pageCache, this`trace, client
      ensures Valid() && Recorded(0, CountOf(r)) && (r.Ok? ==> Conserved(r.value))
      ensures n <= |trace| - |old(trace)| && TargetedSync(m, targets, trace[|old(trace)|..], n, r)
    {
      hide Valid, Outcome, ChildrenDone, TargetsDone, Joined;
      var found := CollectTargets(targets, m);
      ghost var before := trace;
      n := |before| - |old(trace)|;
      assert trace[|old(trace)|..][..n] == trace[|old(trace)|..];
      if found.Err? { return Err(found.error), n; }
      var c := Joined(found.value);
      JoinedTells(found.value);
      r := CollectRoutes(found.value.routes, m, c);
      assert trace[|old(trace)|..][..n] == before[|old(trace)|..];
      assert trace[|old(trace)|..][n..] == trace[|before|..];
    }

    /** A sync: collected by its mode, and finished. */
    method Sync(mode: Mode, m: Mapper) returns (r: Result<Batch, Code>, ghost collected: Result<Collector, Code>, ghost n: nat)
      requires Valid()
      modifies this`pageCache, this`routeCache, this`trace, client
      ensures Valid() && Recorded(0, CountOf(collected))
      ensures mode.Incremental? ==> r == Err(InvalidDomainValue) && trace == old(trace) && client.sent == old(client.sent)
      ensures mode.Full? ==> FullSync(m, mode.repositoriesUrl, trace[|old(trace)|..], collected)
      ensures mode.Targeted? ==>
        || (!Routed(old(routeCache), mode.locators) && r == Err(InvalidResponse) && trace == old(trace))
        || (exists targets :: |targets| == |mode.locators| && Routed(old(routeCache), mode.locators)
              && (forall i :: 0 <= i < |targets| ==> FindRoute(old(routeCache), mode.locators[i].externalId) == Some(targets[i]))
              && n <= |trace| - |old(trace)| && TargetedSync(m, targets, trace[|old(trace)|..], n, collected))
      ensures !mode.Incremental? && (mode.Targeted? ==> Routed(old(routeCache), mode.locators)) ==> r == Finished(collected)
    {
      hide Valid, Outcome, FullSync, TargetedSync, ListDone, Finished;
      n := 0;
      var c;
      match mode {
        case Incremental =>
          return Err(InvalidDomainValue), Err(InvalidDomainValue), 0;
        case Full(url) =>
          c := CollectFull(url, m);
        case Targeted(locators) =>
          var targets := TargetedRoutes(locators);
          if targets.Err? { return Err(targets.error), Err(targets.error), 0; }
          c, n := CollectTargeted(targets.value, m);
      }
      collected := c;
      if c.Err? {
        FinishedError(c);
        return Err(c.error), collected, n;
      }
      r := Finish(c.value);
    }
  }

  datatype Mode = Full(repositoriesUrl: Url) | Incremental | Targeted(locators: seq<Locator>)

  /** Every locator names a repository whose route is cached. */
  ghost predicate Routed(cache: seq<Route>, locators: seq<Locator>) {
    locators != [] && forall i :: 0 <= i < |locators| ==>
      locators[i].kind == REPOSITORY_KIND && HasRoute(cache, locators[i].externalId)
  }

  predicate HasRoute(cache: seq<Route>, externalId: Id) { exists k :: 0 <= k < |cache| && cache[k].externalId == externalId }

  lemma {:induction false} RouteFound(cache: seq<Route>, externalId: Id)
    ensures FindRoute(cache, externalId).Some? <==> HasRoute(cache, externalId)
    ensures FindRoute(cache, externalId).Some? ==> FindRoute(cache, externalId).value.externalId == externalId && FindRoute(cache, externalId).value in cache
  {
    if cache != [] {
      RouteFound(cache[1..], externalId);
      assert cache == [cache[0]] + cache[1..];
    }
  }

  // ----- the finished batch -----

  /** What a sync hands on: keys in order, each once, and the failure that makes it partial. */
  datatype Batch = Batch(resources: seq<Id>, relations: seq<Id>, partial: Option<Code>, requests: nat)

  function Keys(list: seq<Id>): set<Id> { set x | x in list }

  predicate NoDuplicates(list: seq<Id>) { forall i, j :: 0 <= i < j < |list| ==> list[i] != list[j] }

  /** A list has as many keys as entries exactly when none is there twice. */
  lemma {:induction false} KeysCount(list: seq<Id>)
    ensures |Keys(list)| <= |list| && (|Keys(list)| == |list| <==> NoDuplicates(list))
  {
    if list == [] {
      assert Keys(list) == {};
    } else {
      var n := |list| - 1;
      var front := list[..n];
      KeysCount(front);
      assert list == front + [list[n]];
      assert Keys(list) == Keys(front) + {list[n]};
      assert forall i :: 0 <= i < n ==> front[i] == list[i];
    }
  }

  function SortedKeys(list: seq<Id>): (r: seq<Id>)
    ensures Ascending(r, IdLess) && |r| == |Keys(list)| && forall x :: x in r <==> x in list
  {
    IdOrder();
    Listing(Keys(list), IdLess)
  }

  ghost function Finished(collected: Result<Collector, Code>): Result<Batch, Code> {
    match collected
    case Err(code) => Err(code)
    case Ok(c) =>
      if !NoDuplicates(c.resources) || !NoDuplicates(c.relations) then Err(InvalidResponse)
      else Ok(Batch(SortedKeys(c.resources), SortedKeys(c.relations), c.failure, c.recorded))
  }

  /** A sync that ends well is handed on unless a key is there twice: its keys, as many as were collected, in ascending order of their
      texts, with its failure and the number of its requests. */
  lemma FinishedMeans(c: Collector)
    ensures Finished(Ok(c)).Err?
       <==> (exists i, j :: 0 <= i < j < |c.resources| && c.resources[i] == c.resources[j])
            || (exists i, j :: 0 <= i < j < |c.relations| && c.relations[i] == c.relations[j])
    ensures Finished(Ok(c)).Err? ==> Finished(Ok(c)).error == InvalidResponse
    ensures Finished(Ok(c)).Ok? ==>
      var batch := Finished(Ok(c)).value;
      && batch.partial == c.failure && batch.requests == c.recorded
      && |batch.resources| == |c.resources| && (forall x :: x in batch.resources <==> x in c.resources)
      && |batch.relations| == |c.relations| && (forall x :: x in batch.relations <==> x in c.relations)
      && (forall i, j :: 0 <= i < j < |batch.resources| ==> IdLess(batch.resources[i], batch.resources[j]))
      && (forall i, j :: 0 <= i < j < |batch.relations| ==> IdLess(batch.relations[i], batch.relations[j]))
  {
    KeysCount(c.resources);
    KeysCount(c.relations);
    hide IdLess;
  }

  lemma FinishedError(c: Result<Collector, Code>)
    requires c.Err?
    ensures Finished(c) == Err(c.error)
  {
  }

  /** Observations are put in order of their keys, and refused when one is there twice. */
  method Finish(c: Collector) returns (r: Result<Batch, Code>)
    ensures r == Finished(Ok(c))
  {
    KeysCount(c.resources);
    KeysCount(c.relations);
    if |Keys(c.resources)| != |c.resources| { return Err(InvalidResponse); }
    if |Keys(c.relations)| != |c.relations| { return Err(InvalidResponse); }
    r := Ok(Batch(SortedKeys(c.resources), SortedKeys(c.relations), c.failure, c.recorded));
  }

  lemma CachedIsLast(pageCache: map<Url, Cached>, trace: seq<Record>, url: Url)
    requires CacheTells(pageCache, trace)
    ensures LastComplete(trace, url) == if url in pageCache then Some(pageCache[url]) else None
  {
  }

  lemma NoTargetsYet(m: Mapper, targets: seq<Route>)
    ensures TargetsInTurn(m, targets, []) && ReplayTargets(m, []) == Ok(NO_TARGETS)
  {
  }

  function CountOfTargets(r: Result<Targets, Code>): Result<nat, Code> {
    match r case Err(code) => Err(code) case Ok(t) => Ok(t.c.recorded)
  }

  function CountOf(r: Result<Collector, Code>): Result<nat, Code> {
    match r case Err(code) => Err(code) case Ok(c) => Ok(c.recorded)
  }
}
