/** The resource query of the store, from its checks and its clause to the page it returns. */
module ResourcePages {
  import opened Wrappers
  import opened Ordering
  import opened Keyset
  import opened Freshness
  import opened Clauses
  import opened Filters

  /** Stored resources by id, each joined with the type of its connection. */
  type Table = map<Id, Row>

  ghost predicate ValidTable(table: Table) { forall id :: id in table ==> table[id].resourceId == id.text }

  datatype StoreError = LimitOutOfRange | CutoffsInverted | CutoffMissing | BadClause

  datatype Item = Item(row: Row, freshness: Class)

  // ----- whether a clause reads does not depend on the row -----

  /** Two readings that fail together, or stop at the same place. */
  predicate SameShape(a: Reading, b: Reading) {
    if a.Read? && b.Read? then a.sql == b.sql && a.values == b.values else a.Malformed? && b.Malformed?
  }

  lemma {:induction false} SlotsShape(sql: Sql, values: Values, f: Value, g: Value)
    ensures SameShape(ReadSlots(sql, values, f), ReadSlots(sql, values, g))
    decreases |sql|
  {
    if |sql| >= 2 && values != [] {
      SlotsShape(sql[2..], values[1..], f, g);
    }
  }

  lemma {:induction false} PrimaryShape(sql: Sql, values: Values, a: Row, b: Row)
    ensures SameShape(ReadPrimary(sql, values, a), ReadPrimary(sql, values, b))
    decreases |sql|, 0
  {
    hide ReadOr, ReadSlots;
    if sql != [] {
      OrShape(sql[1..], values, a, b);
      if |sql| >= 3 && sql[0].Col? {
        SlotsShape(sql[3..], values, Field(a, sql[0].column), Field(b, sql[0].column));
      }
    }
  }

  lemma {:induction false} AndShape(sql: Sql, values: Values, a: Row, b: Row)
    ensures SameShape(ReadAnd(sql, values, a), ReadAnd(sql, values, b))
    decreases |sql|, 1
  {
    hide ReadPrimary;
    PrimaryShape(sql, values, a, b);
    var r := ReadPrimary(sql, values, a);
    if r.Read? && r.sql != [] {
      AndShape(r.sql[1..], r.values, a, b);
    }
  }

  lemma {:induction false} OrShape(sql: Sql, values: Values, a: Row, b: Row)
    ensures SameShape(ReadOr(sql, values, a), ReadOr(sql, values, b))
    decreases |sql|, 2
  {
    hide ReadAnd;
    AndShape(sql, values, a, b);
    var r := ReadAnd(sql, values, a);
    if r.Read? && r.sql != [] {
      OrShape(r.sql[1..], r.values, a, b);
    }
  }

  /** A clause gives a verdict on every row or on none, so it can be refused before any row is read. */
  lemma VerdictsComeTogether(sql: Sql, values: Values, a: Row, b: Row)
    ensures Verdict(sql, values, a).None? <==> Verdict(sql, values, b).None?
  {
    hide ReadOr;
    OrShape(sql, values, a, b);
  }

  const PROBE := Row("", "", "", "", "", 0, "", "", "", map[])

  /** The ids of the rows a clause selects, or its refusal. */
  function Selected(table: Table, sql: Sql, values: Values): Result<set<Id>, StoreError> {
    if Verdict(sql, values, PROBE).None? then Err(BadClause)
    else Ok(set id | id in table && Verdict(sql, values, table[id]) == Some(true))
  }

  // ----- the query -----

  ghost predicate CutoffsCover(table: Table, cutoffs: map<string, Cutoffs>) {
    forall id :: id in table ==> table[id].connectionId in cutoffs
  }

  method SomeInverted(cutoffs: map<string, Cutoffs>) returns (found: bool)
    ensures found <==> !SoundCutoffs(cutoffs)
  {
    hide StrictTotal, Ascending, TextLess;
    var ids := ConnectionIds(cutoffs);
    hide ConnectionIds;
    for k := 0 to |ids|
      invariant forall j :: 0 <= j < k ==> ids[j] in cutoffs && cutoffs[ids[j]].expiredAfter <= cutoffs[ids[j]].freshAfter
    {
      assert ids[k] in ids;
      if cutoffs[ids[k]].expiredAfter > cutoffs[ids[k]].freshAfter {
        return true;
      }
    }
    found := false;
  }

  function Connections(table: Table): (r: seq<string>)
    ensures forall c :: c in r <==> exists id :: id in table && table[id].connectionId == c
  {
    TextOrder();
    Listing(set id | id in table :: table[id].connectionId, TextLess)
  }

  method SomeMissing(table: Table, cutoffs: map<string, Cutoffs>) returns (found: bool)
    ensures found <==> !CutoffsCover(table, cutoffs)
  {
    var connections := Connections(table);
    hide Connections;
    for k := 0 to |connections|
      invariant forall j :: 0 <= j < k ==> connections[j] in cutoffs
    {
      assert connections[k] in connections;
      if connections[k] !in cutoffs {
        return true;
      }
    }
    forall id | id in table ensures table[id].connectionId in cutoffs {
      assert table[id].connectionId in connections;
    }
    found := false;
  }

  /** The ids of the rows a plan asks for, wherever its cursor stands. */
  function Matching(table: Table, plan: Plan): set<Id> {
    set id | id in table && Accepts(plan.(after := None), table[id])
  }

  function AfterId(plan: Plan): Option<Id> {
    match plan.after case None => None case Some(text) => Some(Id(text))
  }

  /** Some but not all classes are requested, and there is no cutoff to tell them apart. */
  predicate Unfilterable(plan: Plan) {
    plan.freshness != {} && plan.freshness != {Fresh, Stale, Expired} && plan.cutoffs == map[]
  }

  lemma CursorApart(plan: Plan, row: Row)
    ensures Accepts(plan, row) <==> Accepts(plan.(after := None), row) && (plan.after.Some? ==> TextLess(plan.after.value, row.resourceId))
  {
    hide TextLess, ClassifyMillis;
  }

  /** The compiled clause selects exactly the matching rows past the cursor. */
  lemma SelectionMeans(table: Table, plan: Plan)
    requires ValidTable(table) && SoundCutoffs(plan.cutoffs)
    ensures var q := Joined(ResourcePieces(plan), And);
            Selected(table, q.sql, q.values)
            == if Unfilterable(plan) then Err(BadClause) else Ok(Remaining(Matching(table, plan), IdLess, AfterId(plan)))
  {
    hide SoundCutoffs, Verdict, Joined, ResourcePieces, Accepts, TextLess;
    var q := Joined(ResourcePieces(plan), And);
    FilterMeans(plan, PROBE);
    if !Unfilterable(plan) {
      forall id | id in table
        ensures Verdict(q.sql, q.values, table[id]) == Some(true)
           <==> id in Remaining(Matching(table, plan), IdLess, AfterId(plan))
      {
        FilterMeans(plan, table[id]);
        CursorApart(plan, table[id]);
      }
      assert Selected(table, q.sql, q.values).value == Remaining(Matching(table, plan), IdLess, AfterId(plan));
    }
  }

  /** The rows behind some ids, in their order, each with its class. */
  ghost predicate ItemsOf(table: Table, cutoffs: map<string, Cutoffs>, ids: seq<Id>, items: seq<Item>) {
    |items| == |ids| && forall i :: 0 <= i < |ids| ==> ItemOf(table, cutoffs, ids[i], items[i])
  }

  predicate ItemOf(table: Table, cutoffs: map<string, Cutoffs>, id: Id, item: Item) {
    && id in table && item.row == table[id] && item.row.connectionId in cutoffs
    && item.freshness == ClassifyMillis(item.row.lastSeenAt, cutoffs[item.row.connectionId])
  }

  /** Rows are classified one by one; the checks before the query leave none without a cutoff. */
  method Classify(table: Table, cutoffs: map<string, Cutoffs>, ids: seq<Id>) returns (items: seq<Item>)
    requires CutoffsCover(table, cutoffs) && forall i :: 0 <= i < |ids| ==> ids[i] in table
    ensures ItemsOf(table, cutoffs, ids, items)
  {
    hide ClassifyMillis;
    items := [];
    for k := 0 to |ids|
      invariant ItemsOf(table, cutoffs, ids[..k], items)
    {
      var row := table[ids[k]];
      items := items + [Item(row, ClassifyMillis(row.lastSeenAt, cutoffs[row.connectionId]))];
    }
    assert ids[..|ids|] == ids;
  }

  /** The first check that stands in the way of a query. */
  ghost function Refusal(table: Table, plan: Plan, limit: nat): Option<StoreError> {
    if limit == 0 || limit > 512 then Some(LimitOutOfRange)
    else if !SoundCutoffs(plan.cutoffs) then Some(CutoffsInverted)
    else if !CutoffsCover(table, plan.cutoffs) then Some(CutoffMissing)
    else if Unfilterable(plan) then Some(BadClause)
    else None
  }

  /** The ids of the matching rows past the cursor, one page of them. */
  ghost function PageAsked(table: Table, plan: Plan, limit: nat): Page<Id> {
    IdOrder();
    PageOf(Matching(table, plan), IdLess, AfterId(plan), limit)
  }

  /** The page of the matching rows past the cursor, each with its class, or the first check that fails. */
  method QueryResources(table: Table, plan: Plan, limit: nat) returns (r: Result<Page<Item>, StoreError>)
    requires ValidTable(table)
    ensures r.Err? <==> Refusal(table, plan, limit).Some?
    ensures r.Err? ==> Refusal(table, plan, limit) == Some(r.error)
    ensures r.Ok? ==>
      var page := PageAsked(table, plan, limit);
      && ItemsOf(table, plan.cutoffs, page.items, r.value.items)
      && (r.value.nextAfter.Some? <==> page.nextAfter.Some?)
      && (r.value.nextAfter.Some? ==> Id(r.value.nextAfter.value.row.resourceId) == page.nextAfter.value)
  {
    hide Joined, ResourcePieces, SoundCutoffs, CutoffsCover, ItemOf, StrictTotal, Matching, Remaining, Selected, PageOf, IdLess;
    if limit == 0 || limit > MAX_PROJECTION_PAGE_LIMIT {
      return Err(LimitOutOfRange);
    }
    var inverted := SomeInverted(plan.cutoffs);
    if inverted {
      return Err(CutoffsInverted);
    }
    var missing := SomeMissing(table, plan.cutoffs);
    if missing {
      return Err(CutoffMissing);
    }
    var query := new QueryBuilder();
    query.PushResourceFilters(plan);
    SelectionMeans(table, plan);
    var selected := Selected(table, query.sql, query.values);
    if selected.Err? {
      return Err(selected.error);
    }
    SelectedPage(table, plan, limit);
    var page := ReadPage(selected.value, IdLess, None, limit);
    var items := Classify(table, plan.cutoffs, page.items);
    LastItem(table, plan.cutoffs, page.items, items);
    r := Ok(Page(items, if page.nextAfter.Some? then Some(items[|items| - 1]) else None));
  }

  lemma LastItem(table: Table, cutoffs: map<string, Cutoffs>, ids: seq<Id>, items: seq<Item>)
    requires ValidTable(table) && ItemsOf(table, cutoffs, ids, items)
    ensures ids != [] ==> items != [] && Id(items[|items| - 1].row.resourceId) == ids[|ids| - 1]
  {
  }

  /** A page of what the clause left is the page past the cursor. */
  lemma SelectedPage(table: Table, plan: Plan, limit: nat)
    requires limit >= 1
    ensures StrictTotal(IdLess)
    ensures var page := PageAsked(table, plan, limit);
            && PageOf(Remaining(Matching(table, plan), IdLess, AfterId(plan)), IdLess, None, limit) == page
            && (forall i :: 0 <= i < |page.items| ==> page.items[i] in table)
            && (page.nextAfter.Some? ==> page.items != [] && page.nextAfter.value == page.items[|page.items| - 1])
  {
    hide Matching, IdLess, StrictTotal, Remaining, PageOf;
    IdOrder();
    RestOfPage(Matching(table, plan), IdLess, AfterId(plan), limit);
    MatchingInTable(table, plan);
  }

  lemma MatchingInTable(table: Table, plan: Plan)
    ensures Matching(table, plan) <= table.Keys
  {
    hide Accepts;
  }
}
