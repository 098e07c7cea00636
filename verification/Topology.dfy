/** The bounded topology walk over the committed relation table. */
module Topology {
  import opened Wrappers
  import opened Ordering
  import opened Keyset

  datatype Relation = Relation(source: Id, target: Id)

  type Relations = map<Id, Relation>

  /** One committed state of the store; foreign keys make every endpoint a stored resource. */
  datatype Snapshot = Snapshot(revision: nat, resources: set<Id>, relations: Relations)

  ghost predicate EndpointsExist(s: Snapshot) {
    forall k :: k in s.relations ==> s.relations[k].source in s.resources && s.relations[k].target in s.resources
  }

  // ----- distance -----

  predicate Touches(r: Relation, ids: set<Id>) {
    r.source in ids || r.target in ids
  }

  function TouchingIds(relations: Relations, ids: set<Id>): set<Id> {
    set k | k in relations && Touches(relations[k], ids)
  }

  function Ends(relations: Relations, keys: set<Id>): set<Id> {
    (set k | k in keys && k in relations :: relations[k].source) + (set k | k in keys && k in relations :: relations[k].target)
  }

  /** Everything within `hops` undirected relations of the focus. */
  function Ball(relations: Relations, focus: Id, hops: nat): set<Id> {
    if hops == 0 then {focus}
    else
      var inner := Ball(relations, focus, hops - 1);
      inner + Ends(relations, TouchingIds(relations, inner))
  }

  /** A walk of stored relations from `a` to `b`, each taken in either direction. */
  ghost predicate Walk(relations: Relations, a: Id, b: Id, path: seq<Id>)
    decreases |path|
  {
    if path == [] then a == b
    else
      var last := path[|path| - 1];
      && last in relations
      && exists mid: Id :: Walk(relations, a, mid, path[..|path| - 1])
                        && (relations[last] == Relation(mid, b) || relations[last] == Relation(b, mid))
  }

  /** The ball is exactly what walks of at most that length reach. */
  lemma {:induction false} WalkStaysInBall(relations: Relations, focus: Id, x: Id, path: seq<Id>, hops: nat)
    requires Walk(relations, focus, x, path) && |path| <= hops
    ensures x in Ball(relations, focus, hops)
    decreases hops
  {
    if path == [] {
      BallGrows(relations, relations, focus, 0, hops);
    } else {
      var last := path[|path| - 1];
      var mid: Id :| Walk(relations, focus, mid, path[..|path| - 1])
                  && (relations[last] == Relation(mid, x) || relations[last] == Relation(x, mid));
      WalkStaysInBall(relations, focus, mid, path[..|path| - 1], hops - 1);
      assert last in TouchingIds(relations, Ball(relations, focus, hops - 1));
    }
  }

  lemma {:induction false} BallHasWalk(relations: Relations, focus: Id, x: Id, hops: nat) returns (path: seq<Id>)
    requires x in Ball(relations, focus, hops)
    ensures Walk(relations, focus, x, path) && |path| <= hops
    decreases hops
  {
    if hops == 0 {
      path := [];
    } else {
      var inner := Ball(relations, focus, hops - 1);
      if x in inner {
        path := BallHasWalk(relations, focus, x, hops - 1);
      } else {
        var k :| k in TouchingIds(relations, inner) && (relations[k].source == x || relations[k].target == x);
        var mid := if relations[k].source == x then relations[k].target else relations[k].source;
        var front := BallHasWalk(relations, focus, mid, hops - 1);
        path := front + [k];
        assert path[..|path| - 1] == front;
      }
    }
  }

  /** `x` is within `hops` hops of the focus exactly when a walk of at most `hops` relations leads there. */
  lemma BallIsWalks(relations: Relations, focus: Id, x: Id, hops: nat)
    ensures x in Ball(relations, focus, hops) <==> exists path :: Walk(relations, focus, x, path) && |path| <= hops
  {
    if x in Ball(relations, focus, hops) {
      var path := BallHasWalk(relations, focus, x, hops);
    }
    forall path | Walk(relations, focus, x, path) && |path| <= hops ensures x in Ball(relations, focus, hops) {
      WalkStaysInBall(relations, focus, x, path, hops);
    }
  }

  ghost predicate SubMap(a: Relations, b: Relations) {
    forall k :: k in a ==> k in b && b[k] == a[k]
  }

  lemma {:induction false} BallGrows(a: Relations, b: Relations, focus: Id, m: nat, n: nat)
    requires SubMap(a, b) && m <= n
    ensures Ball(a, focus, m) <= Ball(b, focus, n)
    decreases n
  {
    if n > 0 {
      if m < n {
        BallGrows(a, b, focus, m, n - 1);
      } else {
        BallGrows(a, b, focus, m - 1, n - 1);
      }
    }
  }

  /** A ball that stops growing has stopped for good. */
  lemma {:induction false} BallSaturates(relations: Relations, focus: Id, m: nat, n: nat)
    requires 1 <= m <= n && Ball(relations, focus, m) == Ball(relations, focus, m - 1)
    ensures Ball(relations, focus, n) == Ball(relations, focus, m)
    decreases n
  {
    if m < n {
      BallSaturates(relations, focus, m, n - 1);
      if m < n - 1 {
        BallSaturates(relations, focus, m, n - 2);
      }
    }
  }

  // ----- store queries -----

  datatype QueryError = LimitOutOfRange | TooManyResources | SnapshotChanged

  /** The relations with both ends in a set of resources. */
  function WithinIds(relations: Relations, ids: set<Id>): set<Id> {
    set k | k in relations && relations[k].source in ids && relations[k].target in ids
  }

  /** The relations touching a set of resources, or lying within it, past the cursor, ordered by relation id and cut at `limit`. */
  method QueryRelations(s: Snapshot, ids: set<Id>, limit: nat, after: Option<Id>, requireBothEndpoints: bool)
    returns (r: Result<Page<Id>, QueryError>)
    ensures r.Ok? <==> 1 <= limit <= 512 && |ids| <= 512
    ensures r.Err? ==> r.error == if 1 <= limit <= 512 then TooManyResources else LimitOutOfRange
    ensures r.Ok? ==>
      (IdOrder(); r.value == PageOf(if requireBothEndpoints then WithinIds(s.relations, ids) else TouchingIds(s.relations, ids),
                                    IdLess, after, limit))
  {
    if limit == 0 || limit > MAX_PROJECTION_PAGE_LIMIT {
      return Err(LimitOutOfRange);
    }
    if |ids| > MAX_PROJECTION_PAGE_LIMIT {
      return Err(TooManyResources);
    }
    IdOrder();
    if ids == {} {
      NoRelations(s.relations, after, limit);
      return Ok(Page([], None));
    }
    var rows := if requireBothEndpoints then WithinIds(s.relations, ids) else TouchingIds(s.relations, ids);
    var page := ReadPage(rows, IdLess, after, limit);
    r := Ok(page);
  }

  /** No resource, no relation: the query is not even sent. */
  lemma NoRelations(relations: Relations, after: Option<Id>, limit: nat)
    requires limit >= 1
    ensures StrictTotal(IdLess)
    ensures WithinIds(relations, {}) == {} && TouchingIds(relations, {}) == {}
    ensures PageOf({}, IdLess, after, limit) == Page([], None)
  {
    IdOrder();
    var none: set<Id> := {};
    assert Remaining(none, IdLess, after) == {};
  }

  function QueryResources(s: Snapshot, ids: set<Id>): (r: Result<set<Id>, QueryError>) {
    if |ids| > MAX_PROJECTION_PAGE_LIMIT then Err(TooManyResources) else Ok(ids * s.resources)
  }

  lemma PageFacts(rows: set<Id>, limit: nat)
    requires limit >= 1
    ensures StrictTotal(IdLess)
    ensures var page := PageOf(rows, IdLess, None, limit);
            && (forall k :: k in page.items ==> k in rows)
            && (page.nextAfter.None? ==> forall k :: k in rows ==> k in page.items)
            && (page.nextAfter.Some? <==> |rows| > limit)
  {
    IdOrder();
    assert Remaining(rows, IdLess, None) == rows;
  }

  // ----- the walk -----

  datatype Direction = Incoming | Outgoing

  datatype Plan = Plan(depth: nat, maxNodes: nat, maxEdges: nat)

  datatype Body = Body(nodes: set<Id>, edges: Relations, frontier: set<(Id, Direction)>, truncated: bool)

  predicate Crosses(r: Relation, nodes: set<Id>, entry: (Id, Direction)) {
    if entry.1 == Outgoing then r.source in nodes && r.target == entry.0
    else r.target in nodes && r.source == entry.0
  }

  /** A frontier entry lies just outside the returned nodes, across a stored relation of its direction. */
  ghost predicate Adjacent(relations: Relations, nodes: set<Id>, entry: (Id, Direction)) {
    entry.0 !in nodes
    && (exists k :: k in relations && Crosses(relations[k], nodes, entry))
  }

  /** Returned nodes and edges form a part of the stored graph, within the caps, grown from the focus. */
  ghost predicate Connected(s: Snapshot, focus: Id, plan: Plan, hops: nat, nodes: set<Id>, edges: Relations) {
    && focus in nodes
    && SubMap(edges, s.relations)
    && |nodes| <= (if plan.maxNodes == 0 then 1 else plan.maxNodes) && |edges| <= plan.maxEdges
    && (forall k :: k in edges ==> edges[k].source in nodes && edges[k].target in nodes)
    && nodes <= Ball(edges, focus, hops)
  }

  /** Entries left outside exist only once a cap was met, and each lies just outside the nodes. */
  ghost predicate CutBy(s: Snapshot, plan: Plan, b: Body) {
    && (forall entry :: entry in b.frontier ==> Adjacent(s.relations, b.nodes, entry))
    && (b.frontier != {} ==> b.truncated && (|b.nodes| >= plan.maxNodes || |b.edges| >= plan.maxEdges))
  }

  /** What holds of every answer, cut short or not. */
  ghost predicate Sound(s: Snapshot, focus: Id, plan: Plan, b: Body) {
    Connected(s, focus, plan, plan.depth, b.nodes, b.edges) && CutBy(s, plan, b)
  }

  /** What an answer that was not cut short must contain. */
  ghost predicate Complete(s: Snapshot, focus: Id, plan: Plan, b: Body) {
    && b.nodes == Ball(s.relations, focus, plan.depth)
    && b.edges.Keys == (if plan.depth == 0 then {} else TouchingIds(s.relations, Ball(s.relations, focus, plan.depth - 1)))
    && b.frontier == {}
  }

  /** While nothing was cut, the walk has met the whole ball of its level. */
  ghost predicate Exact(s: Snapshot, focus: Id, levels: nat, visited: set<Id>, frontierIds: set<Id>, edges: Relations) {
    && visited == Ball(s.relations, focus, levels)
    && (levels == 0 ==> frontierIds == {focus} && edges == map[])
    && (levels > 0 ==>
          && frontierIds == visited - Ball(s.relations, focus, levels - 1)
          && edges.Keys == TouchingIds(s.relations, Ball(s.relations, focus, levels - 1)))
  }

  // ----- when a walk is cut -----

  /** The resources first met at a level. */
  function FrontierAt(relations: Relations, focus: Id, level: nat): set<Id> {
    if level == 0 then {focus} else Ball(relations, focus, level) - Ball(relations, focus, level - 1)
  }

  /** The relations recorded before a level is walked. */
  function EdgesBefore(relations: Relations, focus: Id, level: nat): set<Id> {
    if level == 0 then {} else TouchingIds(relations, Ball(relations, focus, level - 1))
  }

  function NodeCap(plan: Plan): nat { if plan.maxNodes == 0 then 1 else plan.maxNodes }

  /** A level leads to more resources or relations than the caps allow. */
  predicate Overflows(relations: Relations, focus: Id, plan: Plan, level: nat) {
    |Ball(relations, focus, level + 1)| > NodeCap(plan) || |EdgesBefore(relations, focus, level + 1)| > plan.maxEdges
  }

  /** A level cannot be walked in full: the edge cap was met before it, its page of relations, those recorded before included,
      is longer by two than the edges left, or it leads beyond the caps. */
  predicate Cuts(relations: Relations, focus: Id, plan: Plan, level: nat) {
    var recorded := |EdgesBefore(relations, focus, level)|;
    || recorded >= plan.maxEdges
    || |TouchingIds(relations, FrontierAt(relations, focus, level))| > plan.maxEdges - recorded + 1
    || Overflows(relations, focus, plan, level)
  }

  /** Some level within the depth has resources to walk from and cannot be walked in full. */
  ghost predicate CutShort(relations: Relations, focus: Id, plan: Plan) {
    exists level: nat :: level < plan.depth && FrontierAt(relations, focus, level) != {} && Cuts(relations, focus, plan, level)
  }

  /** Every level before this one was walked in full. */
  ghost predicate UncutBefore(relations: Relations, focus: Id, plan: Plan, levels: nat) {
    forall level: nat :: level < levels && FrontierAt(relations, focus, level) != {} ==> !Cuts(relations, focus, plan, level)
  }

  /** What the mark tells of the levels behind the loop. */
  ghost predicate CutSoFar(relations: Relations, focus: Id, plan: Plan, levels: nat, truncated: bool) {
    truncated <==> !UncutBefore(relations, focus, plan, levels)
  }

  lemma FoundCut(relations: Relations, focus: Id, plan: Plan, level: nat, levels: nat)
    requires level < levels && FrontierAt(relations, focus, level) != {} && Cuts(relations, focus, plan, level)
    ensures !UncutBefore(relations, focus, plan, levels)
    ensures levels <= plan.depth ==> CutShort(relations, focus, plan)
  {
  }

  lemma StillUncut(relations: Relations, focus: Id, plan: Plan, m: nat, n: nat)
    requires m <= n && UncutBefore(relations, focus, plan, n)
    ensures UncutBefore(relations, focus, plan, m)
  {
  }

  // ----- what a cut walk still holds -----

  /** The relations read at a level, as far as its page reaches. */
  function PageAt(relations: Relations, focus: Id, plan: Plan, level: nat): seq<Id>
    requires |EdgesBefore(relations, focus, level)| < plan.maxEdges
  {
    IdOrder();
    PageOf(TouchingIds(relations, FrontierAt(relations, focus, level)), IdLess, None,
           plan.maxEdges - |EdgesBefore(relations, focus, level)| + 1).items
  }

  /** The ball and the relations of a level are returned. */
  ghost predicate LevelHeld(relations: Relations, focus: Id, b: Body, level: nat) {
    Ball(relations, focus, level) <= b.nodes && EdgesBefore(relations, focus, level) <= b.edges.Keys
  }

  /** Every relation read at a level is returned, or on the frontier, or beyond the edge cap. */
  ghost predicate LevelAccounted(s: Snapshot, focus: Id, plan: Plan, b: Body, level: nat) {
    |EdgesBefore(s.relations, focus, level)| < plan.maxEdges ==>
      forall id :: id in PageAt(s.relations, focus, plan, level) ==> Accounted(s, plan, b, id)
  }

  /** Up to and with the first level that was cut: what the levels before lead to is returned, and what was read there is accounted for. */
  ghost predicate Held(s: Snapshot, focus: Id, plan: Plan, levels: nat, b: Body) {
    && (forall level: nat :: level <= levels && UncutBefore(s.relations, focus, plan, level) ==> LevelHeld(s.relations, focus, b, level))
    && (forall level: nat :: level < levels && UncutBefore(s.relations, focus, plan, level) && FrontierAt(s.relations, focus, level) != {} ==>
          LevelAccounted(s, focus, plan, b, level))
  }

  /** One answer holds all that another does. */
  ghost predicate Extends(b0: Body, b: Body) {
    b0.nodes <= b.nodes && SubMap(b0.edges, b.edges) && b0.frontier <= b.frontier && |b0.edges| <= |b.edges|
  }

  lemma AccountedStays(s: Snapshot, focus: Id, plan: Plan, b0: Body, b: Body, level: nat)
    requires Extends(b0, b) && LevelAccounted(s, focus, plan, b0, level)
    ensures LevelAccounted(s, focus, plan, b, level)
  {
    hide PageAt, EdgesBefore;
  }

  lemma HeldStays(relations: Relations, focus: Id, b0: Body, b: Body, level: nat)
    requires Extends(b0, b) && LevelHeld(relations, focus, b0, level)
    ensures LevelHeld(relations, focus, b, level)
  {
    hide EdgesBefore, Ball;
    forall id | id in EdgesBefore(relations, focus, level) ensures id in b.edges {
      assert id in b0.edges;
    }
  }

  lemma WalkExtendsBody(page: set<Id>, b0: Body, items: seq<Id>, k: nat, next: set<Id>, b: Body)
    requires k <= |items| && Added(page, b0, items, k, next, b)
    ensures Extends(b0, b)
  {
    Fewer(b0.edges.Keys, b.edges.Keys);
    assert |b0.edges.Keys| == |b0.edges| && |b.edges.Keys| == |b.edges|;
  }

  lemma HeldAtStart(s: Snapshot, focus: Id, plan: Plan)
    ensures Held(s, focus, plan, 0, Body({focus}, map[], {}, false))
  {
    assert Ball(s.relations, focus, 0) == {focus} && EdgesBefore(s.relations, focus, 0) == {};
  }

  /** A level adds itself to what is held. */
  lemma LevelJoins(s: Snapshot, focus: Id, plan: Plan, levels: nat, frontierIds: set<Id>, items: seq<Id>, b0: Body, next: set<Id>, b: Body)
    requires Held(s, focus, plan, levels, b0) && Extends(b0, b)
    requires CutSoFar(s.relations, focus, plan, levels, b0.truncated) && CutSoFar(s.relations, focus, plan, levels + 1, b.truncated)
    requires !b0.truncated ==> Exact(s, focus, levels, b0.nodes, frontierIds, b0.edges)
    requires !b.truncated ==> Exact(s, focus, levels + 1, b.nodes, next, b.edges)
    requires |b0.edges| < plan.maxEdges && AllAccounted(s, plan, b, items, |items|)
    requires items == (IdOrder(); PageOf(TouchingIds(s.relations, frontierIds), IdLess, None, plan.maxEdges - |b0.edges| + 1).items)
    ensures Held(s, focus, plan, levels + 1, b)
  {
    hide Ball, EdgesBefore, UncutBefore, Accounted, PageOf, TouchingIds, LevelHeld, LevelAccounted, Extends;
    forall level: nat | level <= levels + 1 && UncutBefore(s.relations, focus, plan, level) ensures LevelHeld(s.relations, focus, b, level) {
      if level <= levels {
        HeldStays(s.relations, focus, b0, b, level);
      } else {
        ExactIsHeld(s, focus, level, b, next);
      }
    }
    forall level: nat | level < levels + 1 && UncutBefore(s.relations, focus, plan, level) && FrontierAt(s.relations, focus, level) != {}
      ensures LevelAccounted(s, focus, plan, b, level)
    {
      if level < levels {
        AccountedStays(s, focus, plan, b0, b, level);
      } else {
        PageIsAccounted(s, focus, plan, level, frontierIds, items, b0, b);
      }
    }
  }

  lemma ExactIsHeld(s: Snapshot, focus: Id, level: nat, b: Body, next: set<Id>)
    requires Exact(s, focus, level, b.nodes, next, b.edges)
    ensures LevelHeld(s.relations, focus, b, level)
  {
    hide Ball, TouchingIds;
  }

  lemma PageIsAccounted(s: Snapshot, focus: Id, plan: Plan, level: nat, frontierIds: set<Id>, items: seq<Id>, b0: Body, b: Body)
    requires Exact(s, focus, level, b0.nodes, frontierIds, b0.edges) && |b0.edges| < plan.maxEdges
    requires AllAccounted(s, plan, b, items, |items|)
    requires items == (IdOrder(); PageOf(TouchingIds(s.relations, frontierIds), IdLess, None, plan.maxEdges - |b0.edges| + 1).items)
    ensures LevelAccounted(s, focus, plan, b, level)
  {
    hide Ball, EdgesBefore, FrontierAt, PageOf, TouchingIds, Accounted, StrictTotal;
    ExactFrontier(s, focus, level, b0.nodes, frontierIds, b0.edges);
    assert items == PageAt(s.relations, focus, plan, level);
  }

  /** Past the first level that was cut, nothing more is asked. */
  lemma HeldWhenCut(s: Snapshot, focus: Id, plan: Plan, levels: nat, b: Body)
    requires Held(s, focus, plan, levels, b) && levels <= plan.depth && !UncutBefore(s.relations, focus, plan, levels)
    ensures Held(s, focus, plan, plan.depth, b)
  {
    hide Ball, EdgesBefore, LevelHeld, LevelAccounted, UncutBefore;
    forall level: nat | level > levels ensures !UncutBefore(s.relations, focus, plan, level) {
      if UncutBefore(s.relations, focus, plan, level) { StillUncut(s.relations, focus, plan, levels, level); }
    }
  }

  /** A walk that ends before its depth because nothing new was met holds every level. */
  lemma HeldWhenDone(s: Snapshot, focus: Id, plan: Plan, levels: nat, b: Body)
    requires Held(s, focus, plan, levels, b) && Complete(s, focus, plan, b) && 1 <= levels <= plan.depth
    requires FrontierAt(s.relations, focus, levels) == {}
    ensures Held(s, focus, plan, plan.depth, b)
  {
    hide Ball, UncutBefore, LevelAccounted, FrontierAt, TouchingIds;
    forall level: nat | level <= plan.depth ensures LevelHeld(s.relations, focus, b, level) {
      BallGrows(s.relations, s.relations, focus, level, plan.depth);
      if level > 0 {
        BallGrows(s.relations, s.relations, focus, level - 1, plan.depth - 1);
        TouchingGrows(s.relations, Ball(s.relations, focus, level - 1), Ball(s.relations, focus, plan.depth - 1));
      }
    }
    forall level: nat | levels <= level ensures FrontierAt(s.relations, focus, level) == {} {
      NothingMore(s.relations, focus, levels, level);
    }
  }

  lemma ExactFrontier(s: Snapshot, focus: Id, levels: nat, visited: set<Id>, frontierIds: set<Id>, edges: Relations)
    requires Exact(s, focus, levels, visited, frontierIds, edges)
    ensures frontierIds == FrontierAt(s.relations, focus, levels)
    ensures edges.Keys == EdgesBefore(s.relations, focus, levels) && |edges| == |EdgesBefore(s.relations, focus, levels)|
    ensures |visited| == |Ball(s.relations, focus, levels)|
  {
    hide Ball, TouchingIds;
    assert |edges.Keys| == |edges|;
  }

  /** A level that leaves no mark was walked in full. */
  lemma UncutLevel(s: Snapshot, focus: Id, plan: Plan, levels: nat, b0: Body, frontierIds: set<Id>, b: Body, next: set<Id>)
    requires Exact(s, focus, levels, b0.nodes, frontierIds, b0.edges) && |b0.edges| < plan.maxEdges
    requires |TouchingIds(s.relations, frontierIds)| <= plan.maxEdges - |b0.edges| + 1
    requires Exact(s, focus, levels + 1, b.nodes, next, b.edges) && |b.nodes| <= NodeCap(plan) && |b.edges| <= plan.maxEdges
    ensures !Cuts(s.relations, focus, plan, levels)
  {
    hide Ball, TouchingIds, FrontierAt, EdgesBefore;
    ExactFrontier(s, focus, levels, b0.nodes, frontierIds, b0.edges);
    ExactFrontier(s, focus, levels + 1, b.nodes, next, b.edges);
  }

  /** A relation left out for the node cap leads to a resource too many. */
  lemma NodeOverflow(s: Snapshot, focus: Id, plan: Plan, levels: nat, b: Body, id: Id, near: Id, far: Id)
    requires Connected(s, focus, plan, levels + 1, b.nodes, b.edges)
    requires id in s.relations && s.relations[id] in {Relation(near, far), Relation(far, near)}
    requires near in Ball(s.relations, focus, levels) && far !in b.nodes && |b.nodes| >= plan.maxNodes
    ensures Overflows(s.relations, focus, plan, levels)
  {
    hide Ball, EdgesBefore;
    BallGrows(b.edges, s.relations, focus, levels + 1, levels + 1);
    EdgeReaches(s.relations, focus, levels, id, near, far);
    Fewer({focus}, b.nodes);
    Fewer(b.nodes + {far}, Ball(s.relations, focus, levels + 1));
    Grown(b.nodes, far);
  }

  /** A relation left out for the edge cap is one too many. */
  lemma EdgeOverflow(s: Snapshot, focus: Id, plan: Plan, levels: nat, frontierIds: set<Id>, page: set<Id>, b0: Body, items: seq<Id>,
                     k: nat, next: set<Id>, b: Body, id: Id)
    requires Exact(s, focus, levels, b0.nodes, frontierIds, b0.edges)
    requires k <= |items| && Added(page, b0, items, k, next, b)
    requires frontierIds <= Ball(s.relations, focus, levels) && page == TouchingIds(s.relations, frontierIds)
    requires id in page && id !in b.edges && |b.edges| >= plan.maxEdges
    ensures Overflows(s.relations, focus, plan, levels)
  {
    var all := EdgesBefore(s.relations, focus, levels + 1);
    TouchingSplits(s, focus, levels, frontierIds, b0);
    hide Ball, TouchingIds, Exact;
    assert all == b0.edges.Keys + page;
    assert |b.edges.Keys| == |b.edges|;
    Fewer(b.edges.Keys + {id}, all);
    Grown(b.edges.Keys, id);
  }

  lemma NothingMore(relations: Relations, focus: Id, m: nat, n: nat)
    requires 1 <= m <= n && FrontierAt(relations, focus, m) == {}
    ensures FrontierAt(relations, focus, n) == {}
  {
    hide Ball;
    BallGrows(relations, relations, focus, m - 1, m);
    var outer, inner := Ball(relations, focus, m), Ball(relations, focus, m - 1);
    assert outer == inner + (outer - inner);
    BallSaturates(relations, focus, m, n);
    if m < n { BallSaturates(relations, focus, m, n - 1); }
  }

  /** At the end of an uncut walk, no level was cut. */
  lemma UncutToTheEnd(s: Snapshot, focus: Id, plan: Plan, levels: nat, frontierIds: set<Id>, b: Body)
    requires CutSoFar(s.relations, focus, plan, levels, false) && Exact(s, focus, levels, b.nodes, frontierIds, b.edges)
    requires levels == plan.depth || (levels < plan.depth && frontierIds == {})
    ensures !CutShort(s.relations, focus, plan)
  {
    hide Cuts, Ball, FrontierAt, EdgesBefore;
    ExactFrontier(s, focus, levels, b.nodes, frontierIds, b.edges);
    if levels < plan.depth {
      assert levels >= 1;
      forall level: nat | levels <= level < plan.depth ensures FrontierAt(s.relations, focus, level) == {} {
        NothingMore(s.relations, focus, levels, level);
      }
    }
  }

  /** A neighbourhood that fits the node cap, and twice over the edge cap, is never cut; twice, since a relation between two
      levels is read at both. */
  lemma SmallNeighbourhoodsAreUncut(relations: Relations, focus: Id, plan: Plan)
    requires plan.maxEdges >= 1 && |Ball(relations, focus, plan.depth)| <= plan.maxNodes
    requires 2 * |EdgesBefore(relations, focus, plan.depth)| <= plan.maxEdges
    ensures !CutShort(relations, focus, plan)
  {
    forall level: nat | level < plan.depth ensures !Cuts(relations, focus, plan, level) {
      SmallLevelIsUncut(relations, focus, plan, level);
    }
  }

  lemma SmallLevelIsUncut(relations: Relations, focus: Id, plan: Plan, level: nat)
    requires plan.maxEdges >= 1 && |Ball(relations, focus, plan.depth)| <= plan.maxNodes && level < plan.depth
    requires 2 * |EdgesBefore(relations, focus, plan.depth)| <= plan.maxEdges
    ensures !Cuts(relations, focus, plan, level)
  {
    hide Ball, TouchingIds;
    var all := EdgesBefore(relations, focus, plan.depth);
    BallGrows(relations, relations, focus, level + 1, plan.depth);
    Fewer(Ball(relations, focus, level + 1), Ball(relations, focus, plan.depth));
    EdgesGrow(relations, focus, level, plan.depth);
    EdgesGrow(relations, focus, level + 1, plan.depth);
    FrontierInBall(relations, focus, level);
    TouchingGrows(relations, FrontierAt(relations, focus, level), Ball(relations, focus, level));
    Fewer(TouchingIds(relations, FrontierAt(relations, focus, level)), EdgesBefore(relations, focus, level + 1));
  }

  lemma TouchingGrows(relations: Relations, a: set<Id>, b: set<Id>)
    requires a <= b
    ensures TouchingIds(relations, a) <= TouchingIds(relations, b)
  {
  }

  lemma EdgesGrow(relations: Relations, focus: Id, m: nat, n: nat)
    requires m <= n
    ensures |EdgesBefore(relations, focus, m)| <= |EdgesBefore(relations, focus, n)|
  {
    hide Ball, TouchingIds;
    if m > 0 {
      BallGrows(relations, relations, focus, m - 1, n - 1);
      TouchingGrows(relations, Ball(relations, focus, m - 1), Ball(relations, focus, n - 1));
    }
    Fewer(EdgesBefore(relations, focus, m), EdgesBefore(relations, focus, n));
  }

  lemma FrontierInBall(relations: Relations, focus: Id, level: nat)
    ensures FrontierAt(relations, focus, level) <= Ball(relations, focus, level)
  {
  }

  /** Loop state between levels. */
  ghost predicate LevelInvariant(s: Snapshot, focus: Id, plan: Plan, levels: nat, frontierIds: set<Id>, b: Body) {
    && frontierIds <= b.nodes
    && Connected(s, focus, plan, levels, b.nodes, b.edges) && CutBy(s, plan, b)
    && (!b.truncated ==> Exact(s, focus, levels, b.nodes, frontierIds, b.edges))
  }

  function AddFrontierForRelation(frontier: set<(Id, Direction)>, r: Relation, visited: set<Id>): set<(Id, Direction)> {
    if r.source in visited && r.target !in visited then frontier + {(r.target, Outgoing)}
    else if r.target in visited && r.source !in visited then frontier + {(r.source, Incoming)}
    else frontier
  }

  /** What a level has added after the first `k` relations of its page. */
  ghost predicate Added(page: set<Id>, b0: Body, items: seq<Id>, k: nat, next: set<Id>, b: Body)
    requires k <= |items|
  {
    && b.nodes == b0.nodes + next && next !! b0.nodes
    && SubMap(b0.edges, b.edges) && b0.frontier <= b.frontier
    && (b0.truncated ==> b.truncated)
    && (!b.truncated ==> forall j :: 0 <= j < k ==> items[j] in b.edges)
    && b.edges.Keys <= b0.edges.Keys + page
  }

  /** Loop state within a level. */
  ghost predicate ItemInvariant(s: Snapshot, focus: Id, plan: Plan, levels: nat, page: set<Id>, b0: Body, items: seq<Id>, k: nat, next: set<Id>, b: Body)
    requires k <= |items|
  {
    Connected(s, focus, plan, levels + 1, b.nodes, b.edges) && CutBy(s, plan, b) && Added(page, b0, items, k, next, b)
  }

  lemma Crossing(s: Snapshot, id: Id, nodes: set<Id>, entry: (Id, Direction))
    requires id in s.relations && Crosses(s.relations[id], nodes, entry) && entry.0 !in nodes
    ensures Adjacent(s.relations, nodes, entry)
  {
  }

  /** A relation already recorded changes nothing. */
  lemma SkipStep(page: set<Id>, b0: Body, items: seq<Id>, k: nat, next: set<Id>, b: Body)
    requires k < |items| && items[k] in b.edges && Added(page, b0, items, k, next, b)
    ensures Added(page, b0, items, k + 1, next, b)
  {
  }

  /** A relation left out for a cap adds frontier entries just outside the nodes, and marks the cut. */
  lemma CutStep(s: Snapshot, plan: Plan, page: set<Id>, b0: Body, items: seq<Id>, k: nat, next: set<Id>, b: Body,
                entries: set<(Id, Direction)>)
    requires k < |items|
    requires CutBy(s, plan, b) && Added(page, b0, items, k, next, b)
    requires |b.nodes| >= plan.maxNodes || |b.edges| >= plan.maxEdges
    requires forall entry :: entry in entries ==> Adjacent(s.relations, b.nodes, entry)
    ensures var b' := b.(truncated := true, frontier := b.frontier + entries);
            CutBy(s, plan, b') && Added(page, b0, items, k + 1, next, b')
  {
    hide Adjacent;
  }

  /** A relation within the caps keeps the graph connected. */
  lemma ConnectStep(s: Snapshot, focus: Id, plan: Plan, levels: nat, nodes: set<Id>, edges: Relations,
                    id: Id, near: Id, far: Id, edges': Relations)
    requires Connected(s, focus, plan, levels + 1, nodes, edges)
    requires id in s.relations && id !in edges && s.relations[id] in {Relation(near, far), Relation(far, near)}
    requires near in nodes && near in Ball(edges, focus, levels)
    requires |edges| < plan.maxEdges && (far in nodes || |nodes| < plan.maxNodes)
    requires edges' == edges[id := s.relations[id]]
    ensures Connected(s, focus, plan, levels + 1, nodes + {far}, edges')
  {
    hide Ball;
    BallGrows(edges, edges', focus, levels + 1, levels + 1);
    BallGrows(edges, edges', focus, levels, levels);
    EdgeReaches(edges', focus, levels, id, near, far);
    Grown(nodes, far);
  }

  lemma Grown(nodes: set<Id>, far: Id)
    ensures |nodes + {far}| == |nodes| + if far in nodes then 0 else 1
    ensures far in nodes ==> nodes + {far} == nodes
  {
    if far in nodes { assert nodes + {far} == nodes; }
  }

  lemma EdgeReaches(edges: Relations, focus: Id, levels: nat, id: Id, near: Id, far: Id)
    requires id in edges && edges[id] in {Relation(near, far), Relation(far, near)}
    requires near in Ball(edges, focus, levels)
    ensures far in Ball(edges, focus, levels + 1)
  {
    assert id in TouchingIds(edges, Ball(edges, focus, levels));
  }

  /** A relation within the caps is recorded together with its far end. */
  lemma InsertStep(page: set<Id>, b0: Body, items: seq<Id>, k: nat, next: set<Id>, b: Body,
                   relation: Relation, far: Id, next': set<Id>, b': Body)
    requires k < |items| && items[k] in page && items[k] !in b.edges && Added(page, b0, items, k, next, b)
    requires b' == b.(edges := b.edges[items[k] := relation], nodes := b.nodes + {far})
    requires next' == (if far in b.nodes then next else next + {far})
    ensures Added(page, b0, items, k + 1, next', b')
  {
    Grown(b.nodes, far);
    assert b'.nodes == b0.nodes + next';
  }

  lemma RoomMeansUncut(s: Snapshot, plan: Plan, b: Body, far: Id, edges: Relations)
    requires CutBy(s, plan, b) && |b.edges| < plan.maxEdges && (far in b.nodes || |b.nodes| < plan.maxNodes)
    requires |edges| == |b.edges| + 1
    ensures CutBy(s, plan, b.(edges := edges, nodes := b.nodes + {far}))
  {
    hide Adjacent;
    Grown(b.nodes, far);
  }

  /** A relation of a walked page is returned, or leaves an entry, or joins two nodes beyond the edge cap. */
  ghost predicate Accounted(s: Snapshot, plan: Plan, b: Body, id: Id) {
    id in s.relations &&
    var r := s.relations[id];
    || id in b.edges
    || (r.source in b.nodes && (r.target, Outgoing) in b.frontier)
    || (r.target in b.nodes && (r.source, Incoming) in b.frontier)
    || (r.source in b.nodes && r.target in b.nodes && |b.edges| >= plan.maxEdges)
  }

  ghost predicate AllAccounted(s: Snapshot, plan: Plan, b: Body, items: seq<Id>, k: nat)
    requires k <= |items|
  {
    forall j :: 0 <= j < k ==> Accounted(s, plan, b, items[j])
  }

  lemma AccountNone(s: Snapshot, plan: Plan, b: Body, items: seq<Id>)
    ensures AllAccounted(s, plan, b, items, 0)
  {
  }

  lemma AccountSkip(s: Snapshot, plan: Plan, b: Body, items: seq<Id>, k: nat)
    requires k < |items| && AllAccounted(s, plan, b, items, k) && items[k] in s.relations && items[k] in b.edges
    ensures AllAccounted(s, plan, b, items, k + 1)
  {
  }

  lemma AccountCut(s: Snapshot, plan: Plan, b: Body, items: seq<Id>, k: nat, entries: set<(Id, Direction)>)
    requires k < |items| && AllAccounted(s, plan, b, items, k) && items[k] in s.relations
    requires Accounted(s, plan, b.(frontier := entries), items[k])
    ensures AllAccounted(s, plan, b.(truncated := true, frontier := b.frontier + entries), items, k + 1)
  {
  }

  lemma AccountInsert(s: Snapshot, plan: Plan, b: Body, items: seq<Id>, k: nat, far: Id)
    requires k < |items| && AllAccounted(s, plan, b, items, k) && items[k] in s.relations && items[k] !in b.edges
    ensures AllAccounted(s, plan, b.(edges := b.edges[items[k] := s.relations[items[k]]], nodes := b.nodes + {far}), items, k + 1)
  {
  }

  lemma AddedGrows(page: set<Id>, b0: Body, items: seq<Id>, k: nat, next: set<Id>, b: Body)
    requires k <= |items| && Added(page, b0, items, k, next, b)
    ensures b0.nodes <= b.nodes && SubMap(b0.edges, b.edges)
  {
  }

  lemma NearBall(s: Snapshot, focus: Id, plan: Plan, levels: nat, b0: Body, frontierIds: set<Id>)
    requires Connected(s, focus, plan, levels + 1, b0.nodes, b0.edges)
    requires frontierIds <= b0.nodes && b0.nodes <= Ball(b0.edges, focus, levels)
    ensures frontierIds <= Ball(s.relations, focus, levels)
  {
    BallGrows(b0.edges, s.relations, focus, levels, levels);
  }

  /** Loop state within a level, with what a mark made there tells. */
  ghost predicate Walked(s: Snapshot, focus: Id, plan: Plan, levels: nat, page: set<Id>, b0: Body, items: seq<Id>, k: nat, next: set<Id>, b: Body)
    requires k <= |items|
  {
    && ItemInvariant(s, focus, plan, levels, page, b0, items, k, next, b) && AllAccounted(s, plan, b, items, k)
    && (!b0.truncated && b.truncated ==> Overflows(s.relations, focus, plan, levels))
  }

  /** What the level starts from. */
  ghost predicate LevelStart(s: Snapshot, focus: Id, levels: nat, frontierIds: set<Id>, page: set<Id>, items: seq<Id>, b0: Body) {
    && frontierIds <= b0.nodes && b0.nodes <= Ball(b0.edges, focus, levels) && frontierIds <= Ball(s.relations, focus, levels)
    && page == TouchingIds(s.relations, frontierIds) && (forall id :: id in items ==> id in page)
    && (!b0.truncated ==> Exact(s, focus, levels, b0.nodes, frontierIds, b0.edges))
  }

  lemma StartWalked(s: Snapshot, focus: Id, plan: Plan, levels: nat, page: set<Id>, items: seq<Id>, b0: Body)
    requires ItemInvariant(s, focus, plan, levels, page, b0, items, 0, {}, b0)
    ensures Walked(s, focus, plan, levels, page, b0, items, 0, {}, b0)
  {
    hide ItemInvariant;
    AccountNone(s, plan, b0, items);
  }

  lemma SkipWalked(s: Snapshot, focus: Id, plan: Plan, levels: nat, page: set<Id>, b0: Body, items: seq<Id>, k: nat, next: set<Id>, b: Body)
    requires k < |items| && Walked(s, focus, plan, levels, page, b0, items, k, next, b)
    requires items[k] in s.relations && items[k] in b.edges
    ensures Walked(s, focus, plan, levels, page, b0, items, k + 1, next, b)
  {
    hide Connected, CutBy, Added, AllAccounted, Overflows;
    SkipStep(page, b0, items, k, next, b);
    AccountSkip(s, plan, b, items, k);
  }

  /** A relation with its near end in the frontier, taken in its direction. */
  ghost predicate Taken(s: Snapshot, frontierIds: set<Id>, id: Id, near: Id, far: Id, direction: Direction) {
    && id in s.relations && near in frontierIds
    && s.relations[id] == if direction == Outgoing then Relation(near, far) else Relation(far, near)
  }

  lemma NodeCutWalked(s: Snapshot, focus: Id, plan: Plan, levels: nat, frontierIds: set<Id>, page: set<Id>, b0: Body, items: seq<Id>,
                      k: nat, next: set<Id>, b: Body, near: Id, far: Id, direction: Direction)
    requires k < |items| && Walked(s, focus, plan, levels, page, b0, items, k, next, b)
    requires LevelStart(s, focus, levels, frontierIds, page, items, b0) && Taken(s, frontierIds, items[k], near, far, direction)
    requires far !in b.nodes && |b.nodes| >= plan.maxNodes
    ensures Walked(s, focus, plan, levels, page, b0, items, k + 1, next, b.(truncated := true, frontier := b.frontier + {(far, direction)}))
  {
    hide Ball, CutBy, Adjacent, Connected, Added, AllAccounted, Overflows, Exact, TouchingIds;
    AddedGrows(page, b0, items, k, next, b);
    Crossing(s, items[k], b.nodes, (far, direction));
    CutStep(s, plan, page, b0, items, k, next, b, {(far, direction)});
    AccountCut(s, plan, b, items, k, {(far, direction)});
    NodeOverflow(s, focus, plan, levels, b, items[k], near, far);
  }

  lemma EdgeCutWalked(s: Snapshot, focus: Id, plan: Plan, levels: nat, frontierIds: set<Id>, page: set<Id>, b0: Body, items: seq<Id>,
                      k: nat, next: set<Id>, b: Body, near: Id, far: Id, direction: Direction)
    requires k < |items| && Walked(s, focus, plan, levels, page, b0, items, k, next, b)
    requires LevelStart(s, focus, levels, frontierIds, page, items, b0) && Taken(s, frontierIds, items[k], near, far, direction)
    requires items[k] !in b.edges && |b.edges| >= plan.maxEdges
    ensures var frontier := AddFrontierForRelation(b.frontier, s.relations[items[k]], b.nodes);
            Walked(s, focus, plan, levels, page, b0, items, k + 1, next, b.(truncated := true, frontier := frontier))
  {
    hide Ball, CutBy, Adjacent, Connected, Added, AllAccounted, Overflows, Exact, TouchingIds;
    AddedGrows(page, b0, items, k, next, b);
    var relation := s.relations[items[k]];
    var entries := AddFrontierForRelation({}, relation, b.nodes);
    forall entry | entry in entries ensures Adjacent(s.relations, b.nodes, entry) {
      Crossing(s, items[k], b.nodes, entry);
    }
    CutStep(s, plan, page, b0, items, k, next, b, entries);
    assert AddFrontierForRelation(b.frontier, relation, b.nodes) == b.frontier + entries;
    AccountCut(s, plan, b, items, k, entries);
    assert items[k] in items;
    if !b0.truncated { EdgeOverflow(s, focus, plan, levels, frontierIds, page, b0, items, k, next, b, items[k]); }
  }

  lemma InsertWalked(s: Snapshot, focus: Id, plan: Plan, levels: nat, frontierIds: set<Id>, page: set<Id>, b0: Body, items: seq<Id>,
                     k: nat, next: set<Id>, b: Body, near: Id, far: Id, direction: Direction)
    requires k < |items| && Walked(s, focus, plan, levels, page, b0, items, k, next, b)
    requires LevelStart(s, focus, levels, frontierIds, page, items, b0) && Taken(s, frontierIds, items[k], near, far, direction)
    requires items[k] !in b.edges && |b.edges| < plan.maxEdges && (far in b.nodes || |b.nodes| < plan.maxNodes)
    ensures var b' := b.(edges := b.edges[items[k] := s.relations[items[k]]], nodes := b.nodes + {far});
            Walked(s, focus, plan, levels, page, b0, items, k + 1, if far in b.nodes then next else next + {far}, b')
  {
    hide Ball, CutBy, Adjacent, Connected, Added, AllAccounted, Overflows, Exact, TouchingIds;
    AddedGrows(page, b0, items, k, next, b);
    assert items[k] in items;
    var relation := s.relations[items[k]];
    var edges := b.edges[items[k] := relation];
    var b' := b.(edges := edges, nodes := b.nodes + {far});
    assert |edges| == |b.edges| + 1;
    BallGrows(b0.edges, b.edges, focus, levels, levels);
    ConnectStep(s, focus, plan, levels, b.nodes, b.edges, items[k], near, far, edges);
    RoomMeansUncut(s, plan, b, far, edges);
    InsertStep(page, b0, items, k, next, b, relation, far, if far in b.nodes then next else next + {far}, b');
    AccountInsert(s, plan, b, items, k, far);
  }

  /** The answer and the next frontier after one more relation of a page. */
  function AfterRelation(relations: Relations, plan: Plan, frontierIds: set<Id>, sofar: (set<Id>, Body), id: Id): (set<Id>, Body) {
    var (next, b) := sofar;
    if id !in relations || id in b.edges then sofar
    else
      var r := relations[id];
      var (far, direction) := if r.source in frontierIds then (r.target, Outgoing) else (r.source, Incoming);
      if far !in b.nodes && |b.nodes| >= plan.maxNodes then
        (next, b.(truncated := true, frontier := b.frontier + {(far, direction)}))
      else if |b.edges| >= plan.maxEdges then
        (next, b.(truncated := true, frontier := AddFrontierForRelation(b.frontier, r, b.nodes)))
      else
        (if far in b.nodes then next else next + {far}, b.(edges := b.edges[id := r], nodes := b.nodes + {far}))
  }

  function AfterPage(relations: Relations, plan: Plan, frontierIds: set<Id>, items: seq<Id>, b0: Body): (set<Id>, Body) {
    if items == [] then ({}, b0)
    else AfterRelation(relations, plan, frontierIds, AfterPage(relations, plan, frontierIds, items[..|items| - 1], b0), items[|items| - 1])
  }

  /** The answer of a walk from a frontier, some levels deep; a level that is cut does not end it. */
  function AnswerFrom(relations: Relations, plan: Plan, levels: nat, frontierIds: set<Id>, b: Body): Body
    decreases levels
  {
    if levels == 0 || frontierIds == {} then b
    else if |b.edges| >= plan.maxEdges then b.(truncated := true)
    else
      IdOrder();
      var page := PageOf(TouchingIds(relations, frontierIds), IdLess, None, plan.maxEdges - |b.edges| + 1);
      var (next, b') := AfterPage(relations, plan, frontierIds, page.items, PageMarked(b, page.nextAfter.Some?));
      AnswerFrom(relations, plan, levels - 1, next, b')
  }

  /** The body handed to a level: marked when its page was cut. */
  function PageMarked(b: Body, cut: bool): Body { if cut then b.(truncated := true) else b }

  lemma PageSnoc(relations: Relations, plan: Plan, frontierIds: set<Id>, items: seq<Id>, k: nat, b0: Body)
    requires k < |items|
    ensures AfterPage(relations, plan, frontierIds, items[..k + 1], b0)
         == AfterRelation(relations, plan, frontierIds, AfterPage(relations, plan, frontierIds, items[..k], b0), items[k])
  {
    hide AfterRelation;
    assert items[..k + 1][..k] == items[..k];
  }

  // ----- the levels walked, cut or not -----

  /** Each of some resources is joined to a frontier by a returned relation. */
  ghost predicate Reached(edges: Relations, frontierIds: set<Id>, next: set<Id>) {
    forall x :: x in next ==> Joined(edges, frontierIds, x)
  }

  ghost predicate Joined(edges: Relations, frontierIds: set<Id>, x: Id) {
    exists k :: k in edges && ((edges[k].source in frontierIds && edges[k].target == x) || (edges[k].target in frontierIds && edges[k].source == x))
  }

  lemma ReachedGrows(edges: Relations, edges': Relations, frontierIds: set<Id>, next: set<Id>)
    requires Reached(edges, frontierIds, next) && SubMap(edges, edges')
    ensures Reached(edges', frontierIds, next)
  {
    forall x | x in next ensures Joined(edges', frontierIds, x) {
      var k :| k in edges && ((edges[k].source in frontierIds && edges[k].target == x) || (edges[k].target in frontierIds && edges[k].source == x));
      assert edges'[k] == edges[k];
    }
  }

  lemma ReachedOneMore(s: Snapshot, edges: Relations, frontierIds: set<Id>, next: set<Id>, id: Id, near: Id, far: Id, direction: Direction)
    requires Reached(edges, frontierIds, next) && id !in edges && Taken(s, frontierIds, id, near, far, direction)
    ensures Reached(edges[id := s.relations[id]], frontierIds, next) && Reached(edges[id := s.relations[id]], frontierIds, next + {far})
  {
    var edges' := edges[id := s.relations[id]];
    ReachedGrows(edges, edges', frontierIds, next);
    assert id in edges';
    assert Joined(edges', frontierIds, far);
  }

  /** The resources first returned at a level, and how many relations were on record when it was walked. */
  datatype Layer = Layer(ids: set<Id>, recorded: nat)

  /** What was read from a layer, as far as its page reaches, is returned, or on the frontier, or beyond the edge cap; and the next
      layer is joined to it by returned relations. */
  ghost predicate LayerWalked(s: Snapshot, plan: Plan, b: Body, layer: Layer, next: Layer) {
    && layer.ids != {} && layer.recorded < plan.maxEdges && layer.recorded <= next.recorded
    && (forall id :: id in LayerPage(s, plan, layer) ==> Accounted(s, plan, b, id))
    && Reached(b.edges, layer.ids, next.ids)
  }

  function LayerPage(s: Snapshot, plan: Plan, layer: Layer): seq<Id>
    requires layer.recorded < plan.maxEdges
  {
    IdOrder();
    PageOf(TouchingIds(s.relations, layer.ids), IdLess, None, plan.maxEdges - layer.recorded + 1).items
  }

  /** The layers up to a level: disjoint, together the returned nodes, each walked but the last. */
  ghost predicate LayersSoFar(s: Snapshot, focus: Id, plan: Plan, b: Body, layers: seq<Layer>) {
    && layers != [] && layers[0] == Layer({focus}, 0) && layers[|layers| - 1].recorded == |b.edges|
    && (forall j :: 0 <= j < |layers| ==> layers[j].ids <= b.nodes)
    && (forall x :: x in b.nodes ==> InSomeLayer(layers, x))
    && (forall i, j :: 0 <= i < j < |layers| ==> layers[i].ids !! layers[j].ids)
    && (forall j :: 0 <= j < |layers| - 1 ==> LayerWalked(s, plan, b, layers[j], layers[j + 1]))
  }

  predicate InSomeLayer(layers: seq<Layer>, x: Id) { exists j :: 0 <= j < |layers| && x in layers[j].ids }

  /** A walk goes on from layer to layer, cut or not, and ends only at its depth, when nothing new was met, or without edges left. */
  ghost predicate Layered(s: Snapshot, focus: Id, plan: Plan, b: Body, layers: seq<Layer>) {
    && LayersSoFar(s, focus, plan, b, layers) && |layers| <= plan.depth + 1
    && (|layers| == plan.depth + 1 || layers[|layers| - 1].ids == {} || layers[|layers| - 1].recorded >= plan.maxEdges)
  }

  lemma FirstLayer(s: Snapshot, focus: Id, plan: Plan)
    ensures LayersSoFar(s, focus, plan, Body({focus}, map[], {}, false), [Layer({focus}, 0)])
  {
    var layers := [Layer({focus}, 0)];
    assert layers[0].ids == {focus};
    assert InSomeLayer(layers, focus);
  }

  lemma LayerStays(s: Snapshot, plan: Plan, b0: Body, b: Body, layer: Layer, next: Layer)
    requires LayerWalked(s, plan, b0, layer, next) && Extends(b0, b)
    ensures LayerWalked(s, plan, b, layer, next)
  {
    hide LayerPage, Reached;
    ReachedGrows(b0.edges, b.edges, layer.ids, next.ids);
  }

  lemma NextLayer(s: Snapshot, focus: Id, plan: Plan, b0: Body, layers: seq<Layer>, items: seq<Id>, next: set<Id>, b: Body)
    requires LayersSoFar(s, focus, plan, b0, layers) && Extends(b0, b) && b.nodes == b0.nodes + next && next !! b0.nodes
    requires layers[|layers| - 1].ids != {} && |b0.edges| < plan.maxEdges
    requires items == LayerPage(s, plan, layers[|layers| - 1]) && AllAccounted(s, plan, b, items, |items|)
    requires Reached(b.edges, layers[|layers| - 1].ids, next)
    ensures LayersSoFar(s, focus, plan, b, layers + [Layer(next, |b.edges|)])
  {
    hide LayerPage, Reached, Accounted, LayerWalked;
    var n := |layers| - 1;
    var longer := layers + [Layer(next, |b.edges|)];
    forall j | 0 <= j < |longer| - 1 ensures LayerWalked(s, plan, b, longer[j], longer[j + 1]) {
      if j < n {
        assert longer[j] == layers[j] && longer[j + 1] == layers[j + 1];
        LayerStays(s, plan, b0, b, layers[j], layers[j + 1]);
      } else {
        LayerJustWalked(s, plan, b, layers[n], Layer(next, |b.edges|), items);
      }
    }
    forall x | x in b.nodes ensures InSomeLayer(longer, x) {
      if x in b0.nodes {
        var j :| 0 <= j < |layers| && x in layers[j].ids;
        assert longer[j] == layers[j];
      } else {
        assert x in longer[n + 1].ids;
      }
    }
  }

  lemma LayerJustWalked(s: Snapshot, plan: Plan, b: Body, layer: Layer, next: Layer, items: seq<Id>)
    requires layer.ids != {} && layer.recorded < plan.maxEdges && layer.recorded <= next.recorded
    requires items == LayerPage(s, plan, layer) && AllAccounted(s, plan, b, items, |items|) && Reached(b.edges, layer.ids, next.ids)
    ensures LayerWalked(s, plan, b, layer, next)
  {
    hide LayerPage, Reached, Accounted;
  }

  lemma MarkedLayers(s: Snapshot, focus: Id, plan: Plan, b: Body, layers: seq<Layer>)
    requires LayersSoFar(s, focus, plan, b, layers)
    ensures LayersSoFar(s, focus, plan, b.(truncated := true), layers)
  {
    hide LayerPage, Reached;
    forall j | 0 <= j < |layers| - 1 ensures LayerWalked(s, plan, b.(truncated := true), layers[j], layers[j + 1]) {
      assert LayerWalked(s, plan, b, layers[j], layers[j + 1]);
    }
  }

  /** One level: every relation of the page is skipped, recorded, or left to the frontier. */
  method WalkLevel(ghost s: Snapshot, ghost focus: Id, plan: Plan, ghost levels: nat, relations: Relations, frontierIds: set<Id>, ghost page: set<Id>, items: seq<Id>, b0: Body)
    returns (next: set<Id>, b: Body)
    requires relations == s.relations && LevelStart(s, focus, levels, frontierIds, page, items, b0)
    requires ItemInvariant(s, focus, plan, levels, page, b0, items, 0, {}, b0)
    ensures Walked(s, focus, plan, levels, page, b0, items, |items|, next, b)
    ensures (next, b) == AfterPage(relations, plan, frontierIds, items, b0)
    ensures Reached(b.edges, frontierIds, next)
  {
    next, b := {}, b0;
    StartWalked(s, focus, plan, levels, page, items, b0);
    assert Reached(b.edges, frontierIds, {});
    hide Ball, Walked, ItemInvariant, Exact, AfterPage, AddFrontierForRelation, Reached;
    assert AfterPage(relations, plan, frontierIds, [], b0) == ({}, b0) by { EmptyPage(relations, plan, frontierIds, b0); }
    for k := 0 to |items|
      invariant Walked(s, focus, plan, levels, page, b0, items, k, next, b)
      invariant (next, b) == AfterPage(relations, plan, frontierIds, items[..k], b0)
      invariant Reached(b.edges, frontierIds, next)
    {
      assert items[k] in items;
      PageSnoc(relations, plan, frontierIds, items, k, b0);
      var relation := relations[items[k]];
      if items[k] in b.edges {
        SkipWalked(s, focus, plan, levels, page, b0, items, k, next, b);
        continue;
      }
      var neighbor, direction;
      ghost var near;
      if relation.source in frontierIds {
        neighbor, direction := relation.target, Outgoing;
        near := relation.source;
      } else {
        neighbor, direction := relation.source, Incoming;
        near := relation.target;
      }
      var neighborIsVisited := neighbor in b.nodes;
      if !neighborIsVisited && |b.nodes| >= plan.maxNodes {
        NodeCutWalked(s, focus, plan, levels, frontierIds, page, b0, items, k, next, b, near, neighbor, direction);
        b := b.(truncated := true, frontier := b.frontier + {(neighbor, direction)});
        continue;
      }
      if |b.edges| >= plan.maxEdges {
        EdgeCutWalked(s, focus, plan, levels, frontierIds, page, b0, items, k, next, b, near, neighbor, direction);
        b := b.(truncated := true, frontier := AddFrontierForRelation(b.frontier, relation, b.nodes));
        continue;
      }
      InsertWalked(s, focus, plan, levels, frontierIds, page, b0, items, k, next, b, near, neighbor, direction);
      ReachedOneMore(s, b.edges, frontierIds, next, items[k], near, neighbor, direction);
      Grown(b.nodes, neighbor);
      b := b.(edges := b.edges[items[k] := relation]);
      if !neighborIsVisited {
        b := b.(nodes := b.nodes + {neighbor});
        next := next + {neighbor};
      }
    }
    assert items[..|items|] == items;
  }

  lemma EmptyPage(relations: Relations, plan: Plan, frontierIds: set<Id>, b0: Body)
    ensures AfterPage(relations, plan, frontierIds, [], b0) == ({}, b0)
  {
  }

  /** A level walked in full takes the exact ball of one level to the next. */
  lemma LevelClosed(s: Snapshot, focus: Id, levels: nat, frontierIds: set<Id>, page: set<Id>, b0: Body, items: seq<Id>, next: set<Id>, b: Body)
    requires Exact(s, focus, levels, b0.nodes, frontierIds, b0.edges) && !b.truncated
    requires Added(page, b0, items, |items|, next, b) && SubMap(b.edges, s.relations)
    requires page == TouchingIds(s.relations, frontierIds) && forall id :: id in page ==> id in items
    requires forall k :: k in b.edges ==> b.edges[k].source in b.nodes && b.edges[k].target in b.nodes
    requires b.nodes <= Ball(s.relations, focus, levels + 1)
    ensures Exact(s, focus, levels + 1, b.nodes, next, b.edges)
  {
    var ball := Ball(s.relations, focus, levels);
    assert forall id :: id in page ==> id in b.edges;
    TouchingSplits(s, focus, levels, frontierIds, b0);
    assert b.edges.Keys == TouchingIds(s.relations, ball);
    forall x | x in Ball(s.relations, focus, levels + 1) ensures x in b.nodes {
      if x !in ball {
        var k :| k in TouchingIds(s.relations, ball) && (s.relations[k].source == x || s.relations[k].target == x);
        assert k in b.edges;
      }
    }
  }

  lemma TouchingSplits(s: Snapshot, focus: Id, levels: nat, frontierIds: set<Id>, b0: Body)
    requires Exact(s, focus, levels, b0.nodes, frontierIds, b0.edges)
    ensures TouchingIds(s.relations, Ball(s.relations, focus, levels)) == b0.edges.Keys + TouchingIds(s.relations, frontierIds)
  {
    if levels > 0 {
      assert Ball(s.relations, focus, levels) == Ball(s.relations, focus, levels - 1) + frontierIds;
    }
  }

  lemma {:induction false} BallStored(s: Snapshot, focus: Id, hops: nat)
    requires EndpointsExist(s) && focus in s.resources
    ensures Ball(s.relations, focus, hops) <= s.resources
  {
    if hops > 0 {
      BallStored(s, focus, hops - 1);
    }
  }

  /** When the walk ends uncut, by depth or because nothing new was met, its answer is complete. */
  lemma UncutIsComplete(s: Snapshot, focus: Id, plan: Plan, levels: nat, frontierIds: set<Id>, b: Body)
    requires LevelInvariant(s, focus, plan, levels, frontierIds, b) && !b.truncated
    requires levels == plan.depth || (levels < plan.depth && frontierIds == {})
    ensures Complete(s, focus, plan, b)
  {
    hide Connected, Ball, Adjacent;
    if levels < plan.depth {
      BallGrows(s.relations, s.relations, focus, levels - 1, levels);
      var outer, inner := Ball(s.relations, focus, levels), Ball(s.relations, focus, levels - 1);
      assert forall x :: x in outer && x !in inner ==> x in frontierIds;
      assert outer == inner;
      BallSaturates(s.relations, focus, levels, plan.depth);
      BallSaturates(s.relations, focus, levels, plan.depth - 1);
    }
  }

  /** A revision names one committed state. */
  ghost predicate RevisionsNameStates(history: nat -> Snapshot) {
    forall i: nat, j: nat :: history(i).revision == history(j).revision ==> history(i) == history(j)
  }

  lemma StartInvariant(s: Snapshot, focus: Id, plan: Plan)
    ensures LevelInvariant(s, focus, plan, 0, {focus}, Body({focus}, map[], {}, false))
  {
    assert Ball(s.relations, focus, 0) == {focus};
  }

  lemma CapsOf(s: Snapshot, focus: Id, plan: Plan, levels: nat, b: Body)
    requires Connected(s, focus, plan, levels, b.nodes, b.edges)
    ensures |b.edges| <= plan.maxEdges && |b.nodes| <= if plan.maxNodes == 0 then 1 else plan.maxNodes
  {
  }

  lemma Fewer(a: set<Id>, b: set<Id>)
    requires a <= b
    ensures |a| <= |b|
  {
    if a != {} {
      var x :| x in a;
      Fewer(a - {x}, b - {x});
    }
  }

  lemma Marked(s: Snapshot, plan: Plan, b: Body)
    requires CutBy(s, plan, b)
    ensures CutBy(s, plan, b.(truncated := true))
  {
    hide Adjacent;
  }

  lemma ConnectedGrows(s: Snapshot, focus: Id, plan: Plan, m: nat, n: nat, nodes: set<Id>, edges: Relations)
    requires Connected(s, focus, plan, m, nodes, edges) && m <= n
    ensures Connected(s, focus, plan, n, nodes, edges) && nodes <= Ball(edges, focus, m)
  {
    hide Ball;
    BallGrows(edges, edges, focus, m, n);
  }

  lemma EnterLevel(s: Snapshot, focus: Id, plan: Plan, levels: nat, frontierIds: set<Id>, page: set<Id>, items: seq<Id>, b0: Body, b: Body)
    requires LevelInvariant(s, focus, plan, levels, frontierIds, b0)
    requires b == b0 || b == b0.(truncated := true)
    ensures ItemInvariant(s, focus, plan, levels, page, b, items, 0, {}, b)
    ensures b.nodes <= Ball(b.edges, focus, levels)
  {
    hide Connected, CutBy, Exact, Ball;
    Marked(s, plan, b0);
    ConnectedGrows(s, focus, plan, levels, levels + 1, b.nodes, b.edges);
  }

  lemma LeaveLevel(s: Snapshot, focus: Id, plan: Plan, levels: nat, frontierIds: set<Id>, page: set<Id>, items: seq<Id>,
                   b0: Body, b1: Body, next: set<Id>, b: Body)
    requires LevelInvariant(s, focus, plan, levels, frontierIds, b0)
    requires b1 == b0 || b1 == b0.(truncated := true)
    requires ItemInvariant(s, focus, plan, levels, page, b1, items, |items|, next, b)
    requires page == TouchingIds(s.relations, frontierIds)
    requires !b1.truncated ==> forall id :: id in page ==> id in items
    ensures LevelInvariant(s, focus, plan, levels + 1, next, b)
  {
    hide Adjacent, Ball, Exact, CutBy;
    if !b.truncated {
      BallGrows(b.edges, s.relations, focus, levels + 1, levels + 1);
      LevelClosed(s, focus, levels, frontierIds, page, b1, items, next, b);
    }
  }

  lemma SoundAtDepth(s: Snapshot, focus: Id, plan: Plan, levels: nat, frontierIds: set<Id>, b: Body)
    requires Connected(s, focus, plan, levels, b.nodes, b.edges) && CutBy(s, plan, b) && levels <= plan.depth
    requires EndpointsExist(s) && focus in s.resources
    ensures Sound(s, focus, plan, b) && b.nodes <= s.resources
  {
    hide CutBy;
    ConnectedGrows(s, focus, plan, levels, plan.depth, b.nodes, b.edges);
    BallGrows(b.edges, s.relations, focus, levels, levels);
    BallStored(s, focus, levels);
  }

  lemma NothingCutYet(relations: Relations, focus: Id, plan: Plan)
    ensures CutSoFar(relations, focus, plan, 0, false)
  {
  }

  lemma CutTold(relations: Relations, focus: Id, plan: Plan, levels: nat, truncated: bool)
    requires CutSoFar(relations, focus, plan, levels, truncated) && levels <= plan.depth
    ensures truncated ==> CutShort(relations, focus, plan)
  {
  }

  /** A walk that stops for want of edges is cut at that level. */
  lemma EdgesUsedUp(s: Snapshot, focus: Id, plan: Plan, levels: nat, frontierIds: set<Id>, b: Body)
    requires LevelInvariant(s, focus, plan, levels, frontierIds, b) && CutSoFar(s.relations, focus, plan, levels, b.truncated)
    requires levels < plan.depth && frontierIds != {} && |b.edges| >= plan.maxEdges
    ensures CutShort(s.relations, focus, plan) && !UncutBefore(s.relations, focus, plan, levels + 1)
  {
    hide Ball, Connected, CutBy, Exact, TouchingIds, FrontierAt, EdgesBefore;
    if !b.truncated {
      ExactFrontier(s, focus, levels, b.nodes, frontierIds, b.edges);
      FoundCut(s.relations, focus, plan, levels, levels + 1);
    }
  }

  /** What the mark after a level says of that level and those before. */
  lemma CutsTold(s: Snapshot, focus: Id, plan: Plan, levels: nat, frontierIds: set<Id>, b0: Body, b1: Body, next: set<Id>, b: Body)
    requires LevelInvariant(s, focus, plan, levels, frontierIds, b0) && CutSoFar(s.relations, focus, plan, levels, b0.truncated)
    requires levels < plan.depth && frontierIds != {} && |b0.edges| < plan.maxEdges
    requires b1 == if |TouchingIds(s.relations, frontierIds)| > plan.maxEdges - |b0.edges| + 1 then b0.(truncated := true) else b0
    requires b1.truncated ==> b.truncated
    requires !b1.truncated && b.truncated ==> Overflows(s.relations, focus, plan, levels)
    requires LevelInvariant(s, focus, plan, levels + 1, next, b) && |b.nodes| <= NodeCap(plan) && |b.edges| <= plan.maxEdges
    ensures CutSoFar(s.relations, focus, plan, levels + 1, b.truncated)
  {
    hide Ball, Connected, CutBy, Exact, TouchingIds, FrontierAt, EdgesBefore, Overflows;
    if b0.truncated { return; }
    ExactFrontier(s, focus, levels, b0.nodes, frontierIds, b0.edges);
    if b.truncated {
      FoundCut(s.relations, focus, plan, levels, levels + 1);
    } else {
      hide Cuts;
      UncutLevel(s, focus, plan, levels, b0, frontierIds, b, next);
    }
  }

  /** What holds between levels, of the answer so far and of its mark. */
  ghost predicate Progress(s: Snapshot, focus: Id, plan: Plan, levels: nat, frontierIds: set<Id>, b: Body) {
    && levels <= plan.depth && LevelInvariant(s, focus, plan, levels, frontierIds, b)
    && CutSoFar(s.relations, focus, plan, levels, b.truncated) && Held(s, focus, plan, levels, b)
  }

  /** What holds at the end. */
  ghost predicate Finished(s: Snapshot, focus: Id, plan: Plan, b: Body) {
    && Sound(s, focus, plan, b) && b.nodes <= s.resources
    && (!b.truncated ==> Complete(s, focus, plan, b))
    && (b.truncated <==> CutShort(s.relations, focus, plan))
    && Held(s, focus, plan, plan.depth, b)
  }

  lemma StartProgress(s: Snapshot, focus: Id, plan: Plan)
    ensures Progress(s, focus, plan, 0, {focus}, Body({focus}, map[], {}, false))
  {
    hide LevelInvariant, CutSoFar, Held;
    StartInvariant(s, focus, plan);
    NothingCutYet(s.relations, focus, plan);
    HeldAtStart(s, focus, plan);
  }

  lemma ProgressCaps(s: Snapshot, focus: Id, plan: Plan, levels: nat, frontierIds: set<Id>, b: Body)
    requires Progress(s, focus, plan, levels, frontierIds, b)
    ensures |b.edges| <= plan.maxEdges && |b.nodes| <= NodeCap(plan) && |frontierIds| <= NodeCap(plan)
  {
    hide Connected, CutBy, Exact, CutSoFar, Held;
    CapsOf(s, focus, plan, levels, b);
    Fewer(frontierIds, b.nodes);
  }

  lemma EnterProgress(s: Snapshot, focus: Id, plan: Plan, levels: nat, frontierIds: set<Id>, items: seq<Id>, b: Body, cut: bool)
    requires Progress(s, focus, plan, levels, frontierIds, b)
    requires forall id :: id in items ==> id in TouchingIds(s.relations, frontierIds)
    ensures var page := TouchingIds(s.relations, frontierIds);
            && LevelStart(s, focus, levels, frontierIds, page, items, PageMarked(b, cut))
            && ItemInvariant(s, focus, plan, levels, page, PageMarked(b, cut), items, 0, {}, PageMarked(b, cut))
  {
    hide Connected, CutBy, Exact, Ball, CutSoFar, TouchingIds, Added, Held;
    EnterLevel(s, focus, plan, levels, frontierIds, TouchingIds(s.relations, frontierIds), items, b, PageMarked(b, cut));
    NearBall(s, focus, plan, levels, PageMarked(b, cut), frontierIds);
  }

  /** What a level hands on, save what is held. */
  lemma LeaveInvariant(s: Snapshot, focus: Id, plan: Plan, levels: nat, frontierIds: set<Id>, items: seq<Id>, b0: Body, cut: bool,
                       next: set<Id>, b: Body)
    requires LevelInvariant(s, focus, plan, levels, frontierIds, b0) && CutSoFar(s.relations, focus, plan, levels, b0.truncated)
    requires levels < plan.depth && frontierIds != {} && |b0.edges| < plan.maxEdges
    requires cut <==> |TouchingIds(s.relations, frontierIds)| > plan.maxEdges - |b0.edges| + 1
    requires !cut ==> forall id :: id in TouchingIds(s.relations, frontierIds) ==> id in items
    requires Walked(s, focus, plan, levels, TouchingIds(s.relations, frontierIds), PageMarked(b0, cut), items, |items|, next, b)
    ensures LevelInvariant(s, focus, plan, levels + 1, next, b) && CutSoFar(s.relations, focus, plan, levels + 1, b.truncated)
    ensures Extends(b0, b) && AllAccounted(s, plan, b, items, |items|) && b.nodes == b0.nodes + next && next !! b0.nodes
  {
    hide Connected, CutBy, Exact, Ball, CutSoFar, TouchingIds, LevelInvariant, Overflows, AllAccounted;
    var page, b1 := TouchingIds(s.relations, frontierIds), PageMarked(b0, cut);
    LeaveLevel(s, focus, plan, levels, frontierIds, page, items, b0, b1, next, b);
    CapsOf(s, focus, plan, levels + 1, b);
    CutsTold(s, focus, plan, levels, frontierIds, b0, b1, next, b);
    WalkExtendsBody(page, b1, items, |items|, next, b);
  }

  lemma LeaveProgress(s: Snapshot, focus: Id, plan: Plan, levels: nat, frontierIds: set<Id>, items: seq<Id>, b0: Body, cut: bool,
                      next: set<Id>, b: Body)
    requires Progress(s, focus, plan, levels, frontierIds, b0) && levels < plan.depth && frontierIds != {} && |b0.edges| < plan.maxEdges
    requires cut <==> |TouchingIds(s.relations, frontierIds)| > plan.maxEdges - |b0.edges| + 1
    requires !cut ==> forall id :: id in TouchingIds(s.relations, frontierIds) ==> id in items
    requires items == (IdOrder(); PageOf(TouchingIds(s.relations, frontierIds), IdLess, None, plan.maxEdges - |b0.edges| + 1).items)
    requires Walked(s, focus, plan, levels, TouchingIds(s.relations, frontierIds), PageMarked(b0, cut), items, |items|, next, b)
    ensures Progress(s, focus, plan, levels + 1, next, b)
    ensures Extends(b0, b) && AllAccounted(s, plan, b, items, |items|) && b.nodes == b0.nodes + next && next !! b0.nodes
  {
    hide Connected, CutBy, Exact, Ball, CutSoFar, TouchingIds, AllAccounted, Walked, Held, Extends, PageOf;
    LeaveInvariant(s, focus, plan, levels, frontierIds, items, b0, cut, next, b);
    LevelJoins(s, focus, plan, levels, frontierIds, items, b0, next, b);
  }

  /** The mark of a body plays no part in what it holds. */
  lemma MarkedHeld(s: Snapshot, focus: Id, plan: Plan, levels: nat, b: Body)
    requires Held(s, focus, plan, levels, b)
    ensures Held(s, focus, plan, levels, b.(truncated := true))
  {
    hide Ball, EdgesBefore, UncutBefore, LevelHeld, LevelAccounted;
    var marked := b.(truncated := true);
    forall level: nat ensures LevelHeld(s.relations, focus, b, level) ==> LevelHeld(s.relations, focus, marked, level) {
      MarkedLevel(s, focus, plan, b, level);
    }
    forall level: nat ensures LevelAccounted(s, focus, plan, b, level) ==> LevelAccounted(s, focus, plan, marked, level) {
      MarkedLevel(s, focus, plan, b, level);
    }
  }

  lemma MarkedLevel(s: Snapshot, focus: Id, plan: Plan, b: Body, level: nat)
    ensures LevelHeld(s.relations, focus, b, level) ==> LevelHeld(s.relations, focus, b.(truncated := true), level)
    ensures LevelAccounted(s, focus, plan, b, level) ==> LevelAccounted(s, focus, plan, b.(truncated := true), level)
  {
    hide PageAt, EdgesBefore, Ball;
  }

  /** Before a level for which no edge is left, everything asked for is held. */
  lemma HeldWhenStopped(s: Snapshot, focus: Id, plan: Plan, levels: nat, frontierIds: set<Id>, b: Body)
    requires Held(s, focus, plan, levels, b) && CutSoFar(s.relations, focus, plan, levels, b.truncated)
    requires !b.truncated ==> Exact(s, focus, levels, b.nodes, frontierIds, b.edges)
    requires |b.edges| >= plan.maxEdges && levels < plan.depth && !UncutBefore(s.relations, focus, plan, levels + 1)
    ensures Held(s, focus, plan, plan.depth, b)
  {
    hide Ball, LevelHeld, UncutBefore, Exact, PageAt;
    if !b.truncated {
      ExactFrontier(s, focus, levels, b.nodes, frontierIds, b.edges);
      assert LevelAccounted(s, focus, plan, b, levels);
    }
    hide LevelAccounted;
    assert Held(s, focus, plan, levels + 1, b);
    HeldWhenCut(s, focus, plan, levels + 1, b);
  }

  /** A walk stopped for want of edges is marked rightly. */
  lemma StopForEdges(s: Snapshot, focus: Id, plan: Plan, levels: nat, frontierIds: set<Id>, b: Body)
    requires Progress(s, focus, plan, levels, frontierIds, b) && levels < plan.depth && frontierIds != {} && |b.edges| >= plan.maxEdges
    requires EndpointsExist(s) && focus in s.resources
    ensures Finished(s, focus, plan, b.(truncated := true))
  {
    hide Connected, CutBy, Exact, Ball, CutSoFar, Sound, CutShort, EndpointsExist, Held;
    EdgesUsedUp(s, focus, plan, levels, frontierIds, b);
    HeldWhenStopped(s, focus, plan, levels, frontierIds, b);
    MarkedHeld(s, focus, plan, plan.depth, b);
    Marked(s, plan, b);
    SoundAtDepth(s, focus, plan, levels, frontierIds, b.(truncated := true));
  }

  lemma HeldAtEnd(s: Snapshot, focus: Id, plan: Plan, levels: nat, frontierIds: set<Id>, b: Body)
    requires Progress(s, focus, plan, levels, frontierIds, b) && (levels == plan.depth || frontierIds == {})
    requires !b.truncated ==> Complete(s, focus, plan, b)
    ensures Held(s, focus, plan, plan.depth, b)
  {
    hide Connected, CutBy, Exact, Ball, Held, Complete, UncutBefore, FrontierAt, TouchingIds;
    if b.truncated {
      HeldWhenCut(s, focus, plan, levels, b);
    } else if levels < plan.depth {
      ExactFrontier(s, focus, levels, b.nodes, frontierIds, b.edges);
      FirstFrontier(s.relations, focus);
      HeldWhenDone(s, focus, plan, levels, b);
    }
  }

  lemma FirstFrontier(relations: Relations, focus: Id)
    ensures FrontierAt(relations, focus, 0) == {focus} != {}
  {
  }

  lemma FinishProgress(s: Snapshot, focus: Id, plan: Plan, levels: nat, frontierIds: set<Id>, b: Body)
    requires Progress(s, focus, plan, levels, frontierIds, b) && (levels == plan.depth || frontierIds == {})
    requires EndpointsExist(s) && focus in s.resources
    ensures Finished(s, focus, plan, b)
  {
    hide Connected, CutBy, Exact, Ball, CutSoFar, Sound, CutShort, Complete, EndpointsExist, Held;
    SoundAtDepth(s, focus, plan, levels, frontierIds, b);
    CutTold(s.relations, focus, plan, levels, b.truncated);
    if !b.truncated {
      UncutToTheEnd(s, focus, plan, levels, frontierIds, b);
      UncutIsComplete(s, focus, plan, levels, frontierIds, b);
    }
    HeldAtEnd(s, focus, plan, levels, frontierIds, b);
  }

  lemma FinishedCaps(s: Snapshot, focus: Id, plan: Plan, b: Body)
    requires Finished(s, focus, plan, b)
    ensures |b.nodes| <= NodeCap(plan) && b.nodes * s.resources == b.nodes
  {
    hide CutBy, Complete, CutShort, Ball, Held;
  }

  /** The mark is cautious: of one stored relation, with an edge cap of one and depth two, every answer is complete and marked. */
  lemma CompleteMayBeMarked(s: Snapshot, focus: Id, other: Id, id: Id, b: Body)
    requires focus != other && s.relations == map[id := Relation(focus, other)]
    requires Finished(s, focus, Plan(2, 2, 1), b)
    ensures b.truncated && Complete(s, focus, Plan(2, 2, 1), b)
  {
    var plan := Plan(2, 2, 1);
    OneRelation(s.relations, focus, other, id);
    hide Ball, TouchingIds, CutBy, LevelAccounted;
    assert FrontierAt(s.relations, focus, 0) == {focus};
    assert FrontierAt(s.relations, focus, 1) == {focus, other} - {focus} == {other};
    assert EdgesBefore(s.relations, focus, 0) == {} && EdgesBefore(s.relations, focus, 1) == {id};
    assert |EdgesBefore(s.relations, focus, 1)| == 1 && |Ball(s.relations, focus, 1)| == 2;
    FoundCut(s.relations, focus, plan, 1, 2);
    assert !Cuts(s.relations, focus, plan, 0);
    assert UncutBefore(s.relations, focus, plan, 1);
    assert LevelHeld(s.relations, focus, b, 1);
    BallGrows(b.edges, s.relations, focus, 2, 2);
    assert b.nodes == {focus, other};
    assert b.edges.Keys == {id};
    NothingOutside(s, focus, other, id, b);
  }

  lemma OneRelation(relations: Relations, focus: Id, other: Id, id: Id)
    requires focus != other && relations == map[id := Relation(focus, other)]
    ensures Ball(relations, focus, 0) == {focus} && Ball(relations, focus, 1) == {focus, other} == Ball(relations, focus, 2)
    ensures TouchingIds(relations, {focus}) == {id} == TouchingIds(relations, {focus, other})
  {
    assert TouchingIds(relations, {focus}) == {id} == TouchingIds(relations, {focus, other});
    assert Ends(relations, {id}) == {focus, other};
    assert Ball(relations, focus, 0) == {focus};
    assert Ball(relations, focus, 1) == {focus, other} == Ball(relations, focus, 2);
  }

  lemma NothingOutside(s: Snapshot, focus: Id, other: Id, id: Id, b: Body)
    requires s.relations == map[id := Relation(focus, other)] && b.nodes == {focus, other} && CutBy(s, Plan(2, 2, 1), b)
    ensures b.frontier == {}
  {
    forall entry ensures !Adjacent(s.relations, b.nodes, entry) {
    }
  }

  lemma AnswerStep(relations: Relations, plan: Plan, levels: nat, frontierIds: set<Id>, b: Body)
    requires levels > 0 && frontierIds != {}
    ensures |b.edges| >= plan.maxEdges ==> AnswerFrom(relations, plan, levels, frontierIds, b) == b.(truncated := true)
    ensures |b.edges| < plan.maxEdges ==>
      var page := (IdOrder(); PageOf(TouchingIds(relations, frontierIds), IdLess, None, plan.maxEdges - |b.edges| + 1));
      var (next, b') := AfterPage(relations, plan, frontierIds, page.items, PageMarked(b, page.nextAfter.Some?));
      AnswerFrom(relations, plan, levels, frontierIds, b) == AnswerFrom(relations, plan, levels - 1, next, b')
  {
    hide PageOf, AfterPage, TouchingIds, PageMarked;
  }

  lemma AnswerEnds(relations: Relations, plan: Plan, levels: nat, frontierIds: set<Id>, b: Body)
    requires levels == 0 || frontierIds == {}
    ensures AnswerFrom(relations, plan, levels, frontierIds, b) == b
  {
  }

  /** What the loop keeps: the answer so far, its layers, and the answer it leads to. */
  ghost predicate LoopState(s: Snapshot, focus: Id, plan: Plan, levels: nat, frontierIds: set<Id>, b: Body, layers: seq<Layer>) {
    && Progress(s, focus, plan, levels, frontierIds, b) && levels <= plan.depth
    && LayersSoFar(s, focus, plan, b, layers) && |layers| == levels + 1 && layers[levels] == Layer(frontierIds, |b.edges|)
    && AnswerFrom(s.relations, plan, plan.depth - levels, frontierIds, b)
       == AnswerFrom(s.relations, plan, plan.depth, {focus}, Body({focus}, map[], {}, false))
  }

  /** What the walk gives back. */
  ghost predicate Answered(s: Snapshot, focus: Id, plan: Plan, b: Body, layers: seq<Layer>) {
    && Finished(s, focus, plan, b) && Layered(s, focus, plan, b, layers)
    && b == AnswerFrom(s.relations, plan, plan.depth, {focus}, Body({focus}, map[], {}, false))
  }

  lemma LoopStart(s: Snapshot, focus: Id, plan: Plan)
    ensures LoopState(s, focus, plan, 0, {focus}, Body({focus}, map[], {}, false), [Layer({focus}, 0)])
  {
    hide Progress, LayersSoFar, AnswerFrom;
    StartProgress(s, focus, plan);
    FirstLayer(s, focus, plan);
  }

  lemma LoopCaps(s: Snapshot, focus: Id, plan: Plan, levels: nat, frontierIds: set<Id>, b: Body, layers: seq<Layer>)
    requires LoopState(s, focus, plan, levels, frontierIds, b, layers)
    ensures |b.edges| <= plan.maxEdges && |b.nodes| <= NodeCap(plan) && |frontierIds| <= NodeCap(plan)
  {
    hide Progress, LayersSoFar, AnswerFrom;
    ProgressCaps(s, focus, plan, levels, frontierIds, b);
  }

  lemma LoopStop(s: Snapshot, focus: Id, plan: Plan, levels: nat, frontierIds: set<Id>, b: Body, layers: seq<Layer>)
    requires LoopState(s, focus, plan, levels, frontierIds, b, layers) && levels < plan.depth && frontierIds != {} && |b.edges| >= plan.maxEdges
    requires EndpointsExist(s) && focus in s.resources
    ensures Answered(s, focus, plan, b.(truncated := true), layers)
  {
    hide Progress, LayersSoFar, AnswerFrom, EndpointsExist, Finished;
    StopForEdges(s, focus, plan, levels, frontierIds, b);
    MarkedLayers(s, focus, plan, b, layers);
    AnswerStep(s.relations, plan, plan.depth - levels, frontierIds, b);
  }

  lemma LoopEnd(s: Snapshot, focus: Id, plan: Plan, levels: nat, frontierIds: set<Id>, b: Body, layers: seq<Layer>)
    requires LoopState(s, focus, plan, levels, frontierIds, b, layers) && (levels == plan.depth || frontierIds == {})
    requires EndpointsExist(s) && focus in s.resources
    ensures Answered(s, focus, plan, b, layers)
  {
    hide Progress, LayersSoFar, AnswerFrom, EndpointsExist, Finished;
    FinishProgress(s, focus, plan, levels, frontierIds, b);
    AnswerEnds(s.relations, plan, plan.depth - levels, frontierIds, b);
  }

  lemma LoopEnter(s: Snapshot, focus: Id, plan: Plan, levels: nat, frontierIds: set<Id>, items: seq<Id>, b: Body, cut: bool, layers: seq<Layer>)
    requires LoopState(s, focus, plan, levels, frontierIds, b, layers)
    requires forall id :: id in items ==> id in TouchingIds(s.relations, frontierIds)
    ensures var page := TouchingIds(s.relations, frontierIds);
            && LevelStart(s, focus, levels, frontierIds, page, items, PageMarked(b, cut))
            && ItemInvariant(s, focus, plan, levels, page, PageMarked(b, cut), items, 0, {}, PageMarked(b, cut))
  {
    hide Progress, LayersSoFar, AnswerFrom, LevelStart, ItemInvariant, TouchingIds;
    EnterProgress(s, focus, plan, levels, frontierIds, items, b, cut);
  }

  lemma LoopStep(s: Snapshot, focus: Id, plan: Plan, levels: nat, frontierIds: set<Id>, b0: Body, layers: seq<Layer>,
                 items: seq<Id>, cut: bool, next: set<Id>, b: Body)
    requires LoopState(s, focus, plan, levels, frontierIds, b0, layers) && levels < plan.depth && frontierIds != {} && |b0.edges| < plan.maxEdges
    requires var page := (IdOrder(); PageOf(TouchingIds(s.relations, frontierIds), IdLess, None, plan.maxEdges - |b0.edges| + 1));
             items == page.items && cut == page.nextAfter.Some?
    requires Walked(s, focus, plan, levels, TouchingIds(s.relations, frontierIds), PageMarked(b0, cut), items, |items|, next, b)
    requires (next, b) == AfterPage(s.relations, plan, frontierIds, items, PageMarked(b0, cut)) && Reached(b.edges, frontierIds, next)
    ensures LoopState(s, focus, plan, levels + 1, next, b, layers + [Layer(next, |b.edges|)])
  {
    hide Progress, LayersSoFar, AnswerFrom, Walked, Reached, AfterPage, Extends, AllAccounted, PageOf, TouchingIds, StrictTotal, IdLess;
    PageFacts(TouchingIds(s.relations, frontierIds), plan.maxEdges - |b0.edges| + 1);
    LeaveProgress(s, focus, plan, levels, frontierIds, items, b0, cut, next, b);
    NextLayer(s, focus, plan, b0, layers, items, next, b);
    AnswerStep(s.relations, plan, plan.depth - levels, frontierIds, b0);
  }

  lemma AnsweredCaps(s: Snapshot, focus: Id, plan: Plan, b: Body, layers: seq<Layer>)
    requires Answered(s, focus, plan, b, layers)
    ensures |b.nodes| <= NodeCap(plan) && b.nodes * s.resources == b.nodes
  {
    hide Layered, AnswerFrom, Finished;
    FinishedCaps(s, focus, plan, b);
  }

  /** The walk: the state read by its n-th query is `history(n)`, since other writers may commit in between. */
  method BuildTopology(history: nat -> Snapshot, focus: Id, plan: Plan) returns (r: Result<Option<Body>, QueryError>, ghost layers: seq<Layer>)
    requires RevisionsNameStates(history)
    requires forall i: nat :: EndpointsExist(history(i))
    ensures r.Ok? ==> (r.value.None? <==> focus !in history(0).resources)
    ensures r.Ok? && r.value.Some? ==> Finished(history(0), focus, plan, r.value.value)
    ensures r.Ok? && r.value.Some? ==> Layered(history(0), focus, plan, r.value.value, layers)
    ensures r.Ok? && r.value.Some? ==>
      r.value.value == AnswerFrom(history(0).relations, plan, plan.depth, {focus}, Body({focus}, map[], {}, false))
    ensures r.Err? ==> match r.error
                       case LimitOutOfRange => plan.maxEdges >= 512
                       case TooManyResources => plan.maxNodes > 512
                       case SnapshotChanged => exists n: nat :: history(n).revision != history(0).revision
  {
    hide EndpointsExist, TouchingIds, LoopState, Finished, Layered, ItemInvariant, LevelStart, Walked, AnswerFrom, AfterPage, Reached, PageOf;
    ghost var s := history(0);
    var revision := history(0).revision;
    layers := [Layer({focus}, 0)];
    // One id is always within the bound of the query.
    var focusRows := QueryResources(history(0), {focus}).value;
    if focusRows == {} {
      assert focus !in {focus} * s.resources;
      return Ok(None), layers;
    }
    assert focus in s.resources;
    var clock := 1;
    var frontierIds := {focus};
    var levels := 0;
    var b := Body({focus}, map[], {}, false);
    ghost var stopped := false;
    LoopStart(s, focus, plan);
    while levels < plan.depth && frontierIds != {}
      invariant levels <= plan.depth
      invariant LoopState(s, focus, plan, levels, frontierIds, b, layers)
      decreases plan.depth - levels
    {
      LoopCaps(s, focus, plan, levels, frontierIds, b, layers);
      var remainingEdges := plan.maxEdges - |b.edges|;
      if remainingEdges == 0 {
        LoopStop(s, focus, plan, levels, frontierIds, b, layers);
        b := b.(truncated := true);
        stopped := true;
        break;
      }
      var limit := remainingEdges + 1;
      var found := QueryRelations(history(clock), frontierIds, limit, None, false);
      if found.Err? { return Err(found.error), layers; }
      if history(clock).revision != revision { return Err(SnapshotChanged), layers; }
      var relations := history(clock).relations;
      clock := clock + 1;
      ghost var page, b0 := TouchingIds(s.relations, frontierIds), b;
      PageFacts(page, limit);
      var cut := found.value.nextAfter.Some?;
      LoopEnter(s, focus, plan, levels, frontierIds, found.value.items, b, cut, layers);
      if cut {
        b := b.(truncated := true);
      }
      var next;
      next, b := WalkLevel(s, focus, plan, levels, relations, frontierIds, page, found.value.items, b);
      LoopStep(s, focus, plan, levels, frontierIds, b0, layers, found.value.items, cut, next, b);
      layers := layers + [Layer(next, |b.edges|)];
      frontierIds := next;
      levels := levels + 1;
    }
    if !stopped {
      LoopEnd(s, focus, plan, levels, frontierIds, b, layers);
    }
    AnsweredCaps(s, focus, plan, b, layers);
    var nodeRows := QueryResources(history(clock), b.nodes);
    if nodeRows.Err? { return Err(nodeRows.error), layers; }
    if history(clock).revision != revision { return Err(SnapshotChanged), layers; }
    r := Ok(Some(b.(nodes := nodeRows.value)));
  }
}
