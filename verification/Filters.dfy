/** The resource filter: the clause of a plan, and what it means. */
module Filters {
  import opened Wrappers
  import opened Ordering
  import opened Freshness
  import opened Like
  import opened Clauses

  const CLASSES := [Fresh, Stale, Expired]

  /** A search text as typed, and its lower case by the rules of Unicode, of which the ASCII part is stated here. */
  datatype SearchText = SearchText(typed: string, lowercase: string)

  type Search = s: SearchText | IsAscii(s.typed) ==> s.lowercase == Lowered(s.typed) witness SearchText("", "")

  predicate IsAscii(s: string) { forall i :: 0 <= i < |s| ==> s[i] as int < 128 }

  /** What a search looks for: the text as typed, where all of it is ASCII, in either case. */
  function Wanted(query: Search): string { if IsAscii(query.typed) then query.typed else query.lowercase }

  datatype Plan = Plan(after: Option<string>, query: Option<Search>, kinds: set<string>, connectorTypes: set<string>,
                       health: set<string>, labels: map<string, string>, freshness: set<Class>, cutoffs: map<string, Cutoffs>)

  const SEARCHED := [LowerDisplayName, LowerName, LowerKind, LowerExternalId, LowerResourceId]

  function SearchPattern(query: string): string { "%" + EscapeLike(query) + "%" }

  /** The pattern against each of some columns. */
  function SearchPieces(columns: seq<Column>, query: string): seq<Piece> {
    seq(|columns|, i requires 0 <= i < |columns| => ComparisonPiece(columns[i], LikePattern, Text(SearchPattern(query))))
  }

  function SearchPiece(query: Search): Piece { Wrapped(Joined(SearchPieces(SEARCHED, query.lowercase), Or)) }

  /** One of the searched texts of a row contains the search text, ASCII letters in either case. */
  predicate Found(row: Row, query: string) {
    || Contains(row.displayName, query) || Contains(row.name, query) || Contains(row.kind, query)
    || Contains(row.externalId, query) || Contains(row.resourceId, query)
  }

  predicate Hit(row: Row, column: Column, query: string) { Holds(Field(row, column), LikePattern, Text(SearchPattern(query))) }

  lemma HitsFound(row: Row, query: string)
    ensures Found(row, query)
       <==> Hit(row, LowerDisplayName, query) || Hit(row, LowerName, query) || Hit(row, LowerKind, query)
            || Hit(row, LowerExternalId, query) || Hit(row, LowerResourceId, query)
  {
    hide SearchPattern, Contains, Matches;
    ColumnFound(row.displayName, query);
    ColumnFound(row.name, query);
    ColumnFound(row.kind, query);
    ColumnFound(row.externalId, query);
    ColumnFound(row.resourceId, query);
  }

  lemma FoundInEitherCase(row: Row, text: string)
    ensures Found(row, Lowered(text)) <==> Found(row, text)
  {
    hide Contains;
    LoweredQuery(row.displayName, text);
    LoweredQuery(row.name, text);
    LoweredQuery(row.kind, text);
    LoweredQuery(row.externalId, text);
    LoweredQuery(row.resourceId, text);
  }

  /** The search piece accepts exactly the rows in which the search text is found, its wildcards taken literally and, where it is
      ASCII, in either case. */
  lemma SearchMeans(query: Search, row: Row)
    ensures PrimaryMeans(SearchPiece(query), row, Found(row, Wanted(query)))
  {
    hide PrimaryMeans, Found;
    PatternsMean(query.lowercase, row);
    FoundInEitherCase(row, query.typed);
  }

  /** For an ASCII search text, whatever its case: the piece accepts exactly the rows one of whose five texts holds it somewhere,
      character by character the same but for the case of letters. */
  lemma AsciiSearchMeans(query: Search, row: Row)
    requires forall i :: 0 <= i < |query.typed| ==> query.typed[i] as int < 128
    ensures PrimaryMeans(SearchPiece(query), row,
      exists text, i: nat :: text in {row.displayName, row.name, row.kind, row.externalId, row.resourceId} && HoldsAt(text, query.typed, i))
  {
    hide PrimaryMeans, SearchPiece;
    SearchMeans(query, row);
    HeldSomewhere(row.displayName, query.typed);
    HeldSomewhere(row.name, query.typed);
    HeldSomewhere(row.kind, query.typed);
    HeldSomewhere(row.externalId, query.typed);
    HeldSomewhere(row.resourceId, query.typed);
  }

  predicate HoldsAt(text: string, query: string, i: nat) {
    i + |query| <= |text| && forall j :: 0 <= j < |query| ==> EitherCase(query[j], text[i + j])
  }

  lemma HeldSomewhere(text: string, query: string)
    ensures Contains(text, query) <==> exists i: nat :: HoldsAt(text, query, i)
  {
    hide EitherCase;
    forall i: nat | i <= |text| ensures Begins(text[i..], query) <==> HoldsAt(text, query, i) {
      assert forall j :: 0 <= j < |text| - i ==> text[i..][j] == text[i + j];
    }
  }

  lemma PatternsMean(query: string, row: Row)
    ensures PrimaryMeans(Wrapped(Joined(SearchPieces(SEARCHED, query), Or)), row, Found(row, query))
  {
    hide PrimaryMeans, Wrapped, Joined, ComparisonPiece, SearchPattern, Found, Holds, Field;
    var truths := seq(|SEARCHED|, i requires 0 <= i < |SEARCHED| => Hit(row, SEARCHED[i], query));
    forall i | 0 <= i < |SEARCHED| ensures PrimaryMeans(SearchPieces(SEARCHED, query)[i], row, truths[i]) {
      ComparisonMeans(SEARCHED[i], LikePattern, Text(SearchPattern(query)), row);
    }
    WrappedOrMeans(SearchPieces(SEARCHED, query), row, truths);
    HitsFound(row, query);
    hide Hit;
    assert Disjunction(truths) == (truths[0] || truths[1] || truths[2] || truths[3] || truths[4]);
  }

  lemma ColumnFound(text: string, query: string)
    ensures Matches(SearchPattern(query), Lowered(text)) <==> Contains(text, query)
  {
    SearchFinds(query, Lowered(text));
    LoweredContains(text, query);
  }

  function LabelKeys(labels: map<string, string>): (keys: seq<string>)
    ensures forall k :: k in keys <==> k in labels
  {
    TextOrder();
    Listing(labels.Keys, TextLess)
  }

  function LabelPieces(labels: map<string, string>, keys: seq<string>): seq<Piece>
    requires forall k :: k in keys ==> k in labels
  {
    if keys == [] then []
    else LabelPieces(labels, keys[..|keys| - 1]) + [LabelPiece(keys[|keys| - 1], labels[keys[|keys| - 1]])]
  }

  predicate HasLabels(row: Row, labels: map<string, string>, keys: seq<string>)
    requires forall k :: k in keys ==> k in labels
  {
    forall k :: k in keys ==> k in row.labels && row.labels[k] == labels[k]
  }

  function BranchPiece(class_: Class, c: Cutoffs): Piece {
    match class_
    case Fresh => ComparisonPiece(LastSeenColumn, AtLeast, Integer(c.freshAfter))
    case Stale => Wrapped(Joined([ComparisonPiece(LastSeenColumn, Below, Integer(c.freshAfter)),
                                  ComparisonPiece(LastSeenColumn, AtLeast, Integer(c.expiredAfter))], And))
    case Expired => ComparisonPiece(LastSeenColumn, Below, Integer(c.expiredAfter))
  }

  lemma BranchMeans(class_: Class, c: Cutoffs, row: Row)
    requires c.expiredAfter <= c.freshAfter
    ensures PrimaryMeans(BranchPiece(class_, c), row, ClassifyMillis(row.lastSeenAt, c) == class_)
  {
    hide PrimaryMeans, Wrapped, ComparisonPiece;
    var freshFrom, staleFrom := Integer(c.freshAfter), Integer(c.expiredAfter);
    ComparisonMeans(LastSeenColumn, AtLeast, freshFrom, row);
    ComparisonMeans(LastSeenColumn, Below, staleFrom, row);
    ComparisonMeans(LastSeenColumn, Below, freshFrom, row);
    ComparisonMeans(LastSeenColumn, AtLeast, staleFrom, row);
    var seen := Field(row, LastSeenColumn);
    var truths := [Holds(seen, Below, freshFrom), Holds(seen, AtLeast, staleFrom)];
    WrappedAndMeans([ComparisonPiece(LastSeenColumn, Below, freshFrom), ComparisonPiece(LastSeenColumn, AtLeast, staleFrom)], row, truths);
    assert Conjunction(truths) == (truths[0] && truths[1]);
  }

  function BranchPieces(classes: seq<Class>, c: Cutoffs): seq<Piece> {
    seq(|classes|, i requires 0 <= i < |classes| => BranchPiece(classes[i], c))
  }

  /** One connection: its id, and one branch per requested class. */
  function ConnectionPiece(id: string, c: Cutoffs, classes: seq<Class>): Piece {
    Wrapped(Joined([ComparisonPiece(ConnectionColumn, Equal, Text(id)), Wrapped(Joined(BranchPieces(classes, c), Or))], And))
  }

  lemma ConnectionMeans(id: string, c: Cutoffs, classes: seq<Class>, row: Row)
    requires c.expiredAfter <= c.freshAfter && classes != []
    ensures PrimaryMeans(ConnectionPiece(id, c, classes), row, row.connectionId == id && ClassifyMillis(row.lastSeenAt, c) in classes)
  {
    hide PrimaryMeans, Wrapped, ComparisonPiece, BranchPiece, ClassifyMillis;
    var class_ := ClassifyMillis(row.lastSeenAt, c);
    var branchTruths := seq(|classes|, i requires 0 <= i < |classes| => class_ == classes[i]);
    forall i | 0 <= i < |classes| ensures PrimaryMeans(BranchPieces(classes, c)[i], row, branchTruths[i]) {
      BranchMeans(classes[i], c, row);
    }
    WrappedOrMeans(BranchPieces(classes, c), row, branchTruths);
    assert Disjunction(branchTruths) == (class_ in classes) by {
      if class_ in classes {
        var i :| 0 <= i < |classes| && classes[i] == class_;
        assert branchTruths[i];
      }
    }
    ComparisonMeans(ConnectionColumn, Equal, Text(id), row);
    var truths := [row.connectionId == id, class_ in classes];
    WrappedAndMeans([ComparisonPiece(ConnectionColumn, Equal, Text(id)), Wrapped(Joined(BranchPieces(classes, c), Or))], row, truths);
    assert Conjunction(truths) == (truths[0] && truths[1]);
  }

  /** The requested classes in the fixed order Fresh, Stale, Expired. */
  function Requested(freshness: set<Class>): seq<Class> {
    (if Fresh in freshness then [Fresh] else []) + (if Stale in freshness then [Stale] else []) + (if Expired in freshness then [Expired] else [])
  }

  lemma RequestedMembers(freshness: set<Class>)
    ensures forall c :: c in Requested(freshness) <==> c in freshness
  {
    if Fresh in freshness {
      assert Requested(freshness) == [Fresh] + Requested(freshness)[1..];
    }
    RequestedTail(freshness);
  }

  lemma ProperRequest(freshness: set<Class>)
    ensures FiltersFreshness(freshness) <==> freshness != {} && freshness != {Fresh, Stale, Expired}
  {
    RequestedTail(freshness);
    if freshness == {} { assert Requested(freshness) == []; }
    if |Requested(freshness)| == 3 {
      forall c | c in freshness ensures c in {Fresh, Stale, Expired} {
        assert c.Fresh? || c.Stale? || c.Expired?;
      }
    }
    if |Requested(freshness)| == 0 { assert freshness == {}; }
  }

  lemma RequestedTail(freshness: set<Class>)
    ensures var rest := Requested(freshness - {Fresh});
            && rest == (if Stale in freshness then [Stale] else []) + (if Expired in freshness then [Expired] else [])
            && forall c :: c in rest <==> c in freshness && c != Fresh
  {
    if Stale in freshness {
      assert Requested(freshness - {Fresh})[0] == Stale;
      if Expired in freshness { assert Requested(freshness - {Fresh})[1] == Expired; }
    }
  }

  function ConnectionIds(cutoffs: map<string, Cutoffs>): (r: seq<string>)
    ensures |r| == |cutoffs.Keys| && forall id :: id in r <==> id in cutoffs
  {
    TextOrder();
    Listing(cutoffs.Keys, TextLess)
  }

  function ConnectionPieces(cutoffs: map<string, Cutoffs>, classes: seq<Class>): seq<Piece> {
    var ids := ConnectionIds(cutoffs);
    seq(|ids|, i requires 0 <= i < |ids| => assert ids[i] in ids; ConnectionPiece(ids[i], cutoffs[ids[i]], classes))
  }

  /** No word is added when no class or every class is requested. */
  predicate FiltersFreshness(freshness: set<Class>) { 0 < |Requested(freshness)| < 3 }

  function FreshnessPiece(freshness: set<Class>, cutoffs: map<string, Cutoffs>): Piece {
    Wrapped(Joined(ConnectionPieces(cutoffs, Requested(freshness)), Or))
  }

  ghost predicate SoundCutoffs(cutoffs: map<string, Cutoffs>) {
    forall id :: id in cutoffs ==> cutoffs[id].expiredAfter <= cutoffs[id].freshAfter
  }

  /** The class of a row, by the cutoffs of its connection, is one of these. */
  predicate InClasses(cutoffs: map<string, Cutoffs>, classes: seq<Class>, row: Row) {
    row.connectionId in cutoffs && ClassifyMillis(row.lastSeenAt, cutoffs[row.connectionId]) in classes
  }

  function ConnectionTruths(cutoffs: map<string, Cutoffs>, classes: seq<Class>, row: Row): (truths: seq<bool>)
    ensures |truths| == |ConnectionIds(cutoffs)|
  {
    var ids := ConnectionIds(cutoffs);
    seq(|ids|, i requires 0 <= i < |ids| =>
      assert ids[i] in ids; row.connectionId == ids[i] && ClassifyMillis(row.lastSeenAt, cutoffs[ids[i]]) in classes)
  }

  lemma ConnectionsMean(cutoffs: map<string, Cutoffs>, classes: seq<Class>, row: Row)
    requires SoundCutoffs(cutoffs) && classes != []
    ensures AllMean(ConnectionPieces(cutoffs, classes), row, ConnectionTruths(cutoffs, classes, row))
  {
    hide PrimaryMeans, ConnectionPiece, ClassifyMillis;
    var ids := ConnectionIds(cutoffs);
    forall i | 0 <= i < |ids|
      ensures PrimaryMeans(ConnectionPieces(cutoffs, classes)[i], row, ConnectionTruths(cutoffs, classes, row)[i])
    {
      assert ids[i] in ids;
      ConnectionMeans(ids[i], cutoffs[ids[i]], classes, row);
    }
  }

  lemma OwnConnectionDecides(cutoffs: map<string, Cutoffs>, classes: seq<Class>, row: Row)
    ensures Disjunction(ConnectionTruths(cutoffs, classes, row)) == InClasses(cutoffs, classes, row)
  {
    hide ClassifyMillis;
    var ids, truths := ConnectionIds(cutoffs), ConnectionTruths(cutoffs, classes, row);
    if row.connectionId in cutoffs {
      assert row.connectionId in ids;
      var k :| 0 <= k < |ids| && ids[k] == row.connectionId;
      assert truths[k] == (ClassifyMillis(row.lastSeenAt, cutoffs[row.connectionId]) in classes);
    } else {
      forall i | 0 <= i < |ids| ensures !truths[i] { assert ids[i] in ids; }
    }
  }

  /** The freshness filter accepts exactly the rows whose class, by the cutoffs of their connection, is requested. */
  lemma FreshnessMeans(freshness: set<Class>, cutoffs: map<string, Cutoffs>, row: Row)
    requires SoundCutoffs(cutoffs) && cutoffs != map[] && Requested(freshness) != []
    ensures PrimaryMeans(FreshnessPiece(freshness, cutoffs), row, InClasses(cutoffs, Requested(freshness), row))
  {
    hide PrimaryMeans, Wrapped, Joined, AllMean, Disjunction, ConnectionPieces, ConnectionTruths;
    var classes := Requested(freshness);
    ConnectionsMean(cutoffs, classes, row);
    OwnConnectionDecides(cutoffs, classes, row);
    assert |ConnectionPieces(cutoffs, classes)| > 0 by {
      var id :| id in cutoffs;
      AnyConnection(cutoffs, classes, id);
    }
    WrappedOrMeans(ConnectionPieces(cutoffs, classes), row, ConnectionTruths(cutoffs, classes, row));
  }

  lemma AnyConnection(cutoffs: map<string, Cutoffs>, classes: seq<Class>, id: string)
    requires id in cutoffs
    ensures |ConnectionPieces(cutoffs, classes)| > 0
  {
    assert id in ConnectionIds(cutoffs);
  }

  /** Without any cutoff the filter is `()`, which does not read as an expression. */
  lemma NoCutoffsNoClause(freshness: set<Class>, row: Row, rest: Sql, left: Values)
    ensures ReadPrimary(FreshnessPiece(freshness, map[]).sql + rest, left, row) == Malformed
  {
    var pieces := ConnectionPieces(map[], Requested(freshness));
    assert |pieces| == 0;
    var sql := FreshnessPiece(freshness, map[]).sql + rest;
    assert sql == [Open] + ([Close] + rest);
    assert sql[1..] == [Close] + rest;
    assert ReadPrimary([Close] + rest, left, row) == Malformed;
    assert ReadAnd([Close] + rest, left, row) == Malformed;
  }

  function TextSetPieces(column: Column, texts: set<string>): seq<Piece> {
    TextOrder();
    if texts == {} then [] else [InPiece(column, Listing(texts, TextLess))]
  }

  function IdentityPieces(plan: Plan): seq<Piece> {
    LeadingPieces(plan)
    + TextSetPieces(KindColumn, plan.kinds)
    + TextSetPieces(ConnectorTypeColumn, plan.connectorTypes)
    + TextSetPieces(HealthColumn, plan.health)
    + LabelPieces(plan.labels, LabelKeys(plan.labels))
  }

  /** The pieces of a resource query, in the order they are pushed. */
  function ResourcePieces(plan: Plan): seq<Piece> {
    IdentityPieces(plan) + (if FiltersFreshness(plan.freshness) then [FreshnessPiece(plan.freshness, plan.cutoffs)] else [])
  }

  /** What every piece before the freshness filter asks for. */
  predicate AcceptsIdentity(plan: Plan, row: Row) {
    && (plan.after.Some? ==> TextLess(plan.after.value, row.resourceId))
    && (plan.query.Some? ==> Found(row, Wanted(plan.query.value)))
    && (plan.kinds != {} ==> row.kind in plan.kinds)
    && (plan.connectorTypes != {} ==> row.connectorType in plan.connectorTypes)
    && (plan.health != {} ==> row.health in plan.health)
    && (forall k :: k in plan.labels ==> k in row.labels && row.labels[k] == plan.labels[k])
  }

  /** The requested rows, said directly: an empty request asks for nothing, and so does one for all three classes. */
  predicate Accepts(plan: Plan, row: Row) {
    && AcceptsIdentity(plan, row)
    && (plan.freshness != {} && plan.freshness != {Fresh, Stale, Expired} ==>
          row.connectionId in plan.cutoffs && ClassifyMillis(row.lastSeenAt, plan.cutoffs[row.connectionId]) in plan.freshness)
  }

  /** Pieces that read as a conjunction of a given truth; none are trivially true. */
  ghost predicate TogetherMean(pieces: seq<Piece>, row: Row, holds: bool) {
    exists truths: seq<bool> :: AllMean(pieces, row, truths) && Conjunction(truths) == holds
  }

  lemma NoneMean(row: Row)
    ensures TogetherMean([], row, true)
  {
    assert AllMean([], row, []);
  }

  lemma OneMeans(p: Piece, row: Row, holds: bool)
    requires PrimaryMeans(p, row, holds)
    ensures TogetherMean([p], row, holds)
  {
    var truths := [holds];
    assert AllMean([p], row, truths) && Conjunction(truths) == truths[0];
  }

  lemma BothMean(a: seq<Piece>, b: seq<Piece>, row: Row, holdsA: bool, holdsB: bool)
    requires TogetherMean(a, row, holdsA) && TogetherMean(b, row, holdsB)
    ensures TogetherMean(a + b, row, holdsA && holdsB)
  {
    hide PrimaryMeans;
    var s :| AllMean(a, row, s) && Conjunction(s) == holdsA;
    var t :| AllMean(b, row, t) && Conjunction(t) == holdsB;
    assert AllMean(a + b, row, s + t);
    assert Conjunction(s + t) == (Conjunction(s) && Conjunction(t)) by {
      assert forall i :: 0 <= i < |s| ==> s[i] == (s + t)[i];
      assert forall i :: 0 <= i < |t| ==> t[i] == (s + t)[|s| + i];
    }
  }

  lemma TextSetMeans(column: Column, texts: set<string>, row: Row)
    ensures TogetherMean(TextSetPieces(column, texts), row, texts == {} || (Field(row, column).Text? && Field(row, column).text in texts))
  {
    hide PrimaryMeans, InPiece, TogetherMean;
    TextOrder();
    if texts == {} {
      NoneMean(row);
    } else {
      var list := Listing(texts, TextLess);
      assert list != [] by { var x :| x in texts; assert x in list; }
      InMeans(column, list, row);
      OneMeans(InPiece(column, list), row, AmongTexts(Field(row, column), list));
    }
  }

  lemma {:induction false} LabelsMean(labels: map<string, string>, keys: seq<string>, row: Row)
    requires forall k :: k in keys ==> k in labels
    ensures TogetherMean(LabelPieces(labels, keys), row, HasLabels(row, labels, keys))
    decreases |keys|
  {
    hide PrimaryMeans, TogetherMean, LabelPiece;
    if keys == [] {
      NoneMean(row);
    } else {
      var front, last := keys[..|keys| - 1], keys[|keys| - 1];
      assert keys == front + [last];
      LabelsMean(labels, front, row);
      LabelMeans(last, labels[last], row);
      OneMeans(LabelPiece(last, labels[last]), row, last in row.labels && row.labels[last] == labels[last]);
      BothMean(LabelPieces(labels, front), [LabelPiece(last, labels[last])], row, HasLabels(row, labels, front),
               last in row.labels && row.labels[last] == labels[last]);
    }
  }

  /** A piece that is there only when something is asked for. */
  lemma MaybeMeans(pieces: seq<Piece>, row: Row, asked: bool, holds: bool)
    requires asked ==> |pieces| == 1 && PrimaryMeans(pieces[0], row, holds)
    requires !asked ==> pieces == []
    ensures TogetherMean(pieces, row, asked ==> holds)
  {
    hide PrimaryMeans, TogetherMean;
    if asked {
      OneMeans(pieces[0], row, holds);
      assert pieces == [pieces[0]];
    } else {
      NoneMean(row);
    }
  }

  /** Where the cursor stands and what is searched for. */
  function LeadingPieces(plan: Plan): seq<Piece> {
    [Piece([Always], [])]
    + (if plan.after.Some? then [ComparisonPiece(ResourceIdColumn, Greater, Text(plan.after.value))] else [])
    + (if plan.query.Some? then [SearchPiece(plan.query.value)] else [])
  }

  lemma LeadingMean(plan: Plan, row: Row)
    ensures TogetherMean(LeadingPieces(plan), row, (plan.after.Some? ==> TextLess(plan.after.value, row.resourceId))
                                                   && (plan.query.Some? ==> Found(row, Wanted(plan.query.value))))
  {
    hide PrimaryMeans, TogetherMean, ComparisonPiece, SearchPiece, Found, TextLess, Wanted;
    var always := [Piece([Always], [])];
    var after := if plan.after.Some? then [ComparisonPiece(ResourceIdColumn, Greater, Text(plan.after.value))] else [];
    var search := if plan.query.Some? then [SearchPiece(plan.query.value)] else [];
    AlwaysMeans(row);
    OneMeans(always[0], row, true);
    if plan.after.Some? { ComparisonMeans(ResourceIdColumn, Greater, Text(plan.after.value), row); }
    if plan.query.Some? { SearchMeans(plan.query.value, row); }
    var past, found := plan.after.Some? && TextLess(plan.after.value, row.resourceId), plan.query.Some? && Found(row, Wanted(plan.query.value));
    MaybeMeans(after, row, plan.after.Some?, past);
    MaybeMeans(search, row, plan.query.Some?, found);
    BothMean(always, after, row, true, plan.after.Some? ==> past);
    BothMean(always + after, search, row, plan.after.Some? ==> past, plan.query.Some? ==> found);
  }

  lemma IdentityMeans(plan: Plan, row: Row)
    ensures TogetherMean(IdentityPieces(plan), row, AcceptsIdentity(plan, row))
  {
    hide PrimaryMeans, TogetherMean, TextSetPieces, ComparisonPiece, SearchPiece, LabelPieces, Found, TextLess, LabelKeys, Wanted;
    LeadingMean(plan, row);
    TextSetMeans(KindColumn, plan.kinds, row);
    TextSetMeans(ConnectorTypeColumn, plan.connectorTypes, row);
    TextSetMeans(HealthColumn, plan.health, row);
    var keys := LabelKeys(plan.labels);
    LabelsMean(plan.labels, keys, row);
    var lead := LeadingPieces(plan);
    var k, c, h := TextSetPieces(KindColumn, plan.kinds), TextSetPieces(ConnectorTypeColumn, plan.connectorTypes), TextSetPieces(HealthColumn, plan.health);
    var leading := (plan.after.Some? ==> TextLess(plan.after.value, row.resourceId)) && (plan.query.Some? ==> Found(row, Wanted(plan.query.value)));
    var kind, connector, health := plan.kinds == {} || row.kind in plan.kinds, plan.connectorTypes == {} || row.connectorType in plan.connectorTypes,
      plan.health == {} || row.health in plan.health;
    BothMean(lead, k, row, leading, kind);
    BothMean(lead + k, c, row, leading && kind, connector);
    BothMean(lead + k + c, h, row, leading && kind && connector, health);
    BothMean(lead + k + c + h, LabelPieces(plan.labels, keys), row, leading && kind && connector && health, HasLabels(row, plan.labels, keys));
  }

  /** A clause that ends in a piece which does not read is malformed as a whole. */
  lemma {:induction false} LastMalformed(front: seq<Piece>, row: Row, truths: seq<bool>, bad: Piece)
    requires AllMean(front, row, truths)
    requires ReadPrimary(bad.sql + [], bad.values + [], row) == Malformed
    ensures ReadAnd(Joined(front + [bad], And).sql + [], Joined(front + [bad], And).values + [], row) == Malformed
  {
    hide PrimaryMeans, ReadPrimary;
    var pieces := front + [bad];
    if front != [] {
      var tail := Joined(pieces[1..], And);
      var after := [And] + tail.sql + [];
      assert pieces[1..] == front[1..] + [bad];
      assert Joined(pieces, And).sql + [] == front[0].sql + after && Joined(pieces, And).values + [] == front[0].values + (tail.values + []);
      ReadFirst(front[0], row, truths[0], after, tail.values + []);
      assert after[1..] == tail.sql + [];
      LastMalformed(front[1..], row, truths[1..], bad);
    }
  }

  /** For cutoffs that are not inverted, the clause reads as exactly the requested rows — unless some but not all classes
      are requested and there is no cutoff at all, when it does not read as a clause. */
  lemma FilterMeans(plan: Plan, row: Row)
    requires SoundCutoffs(plan.cutoffs)
    ensures var q := Joined(ResourcePieces(plan), And);
            Verdict(q.sql, q.values, row)
            == if plan.freshness != {} && plan.freshness != {Fresh, Stale, Expired} && plan.cutoffs == map[] then None
               else Some(Accepts(plan, row))
  {
    hide PrimaryMeans, AllMean, Conjunction, ReadAnd, ReadPrimary, FreshnessPiece, TextSetPieces, ComparisonPiece, SoundCutoffs, Joined, ClassifyMillis;
    var front := IdentityPieces(plan);
    RequestedMembers(plan.freshness);
    ProperRequest(plan.freshness);
    IdentityMeans(plan, row);
    var q := Joined(ResourcePieces(plan), And);
    assert q.sql + [] == q.sql && q.values + [] == q.values;
    if FiltersFreshness(plan.freshness) {
      var filter := FreshnessPiece(plan.freshness, plan.cutoffs);
      assert ResourcePieces(plan) == front + [filter];
      if plan.cutoffs == map[] {
        var truths :| AllMean(front, row, truths) && Conjunction(truths) == AcceptsIdentity(plan, row);
        NoCutoffsNoClause(plan.freshness, row, [], filter.values + []);
        LastMalformed(front, row, truths, filter);
        return;
      }
      FreshnessMeans(plan.freshness, plan.cutoffs, row);
      OneMeans(filter, row, InClasses(plan.cutoffs, Requested(plan.freshness), row));
      BothMean(front, [filter], row, AcceptsIdentity(plan, row), InClasses(plan.cutoffs, Requested(plan.freshness), row));
    } else {
      assert ResourcePieces(plan) == front;
    }
    var truths :| AllMean(ResourcePieces(plan), row, truths) && Conjunction(truths) == Accepts(plan, row);
    AndMeans(ResourcePieces(plan), row, truths, [], []);
    ReadOrOfAnd(q.sql, q.values, row, Accepts(plan, row), [], []);
  }

  /** When every stored row has a cutoff, that one malformed case needs an empty table: each row gets its verdict. */
  lemma CoveredRowsGetVerdicts(plan: Plan, rows: set<Row>)
    requires SoundCutoffs(plan.cutoffs) && forall row :: row in rows ==> row.connectionId in plan.cutoffs
    ensures var q := Joined(ResourcePieces(plan), And);
            forall row :: row in rows ==> Verdict(q.sql, q.values, row) == Some(Accepts(plan, row))
  {
    forall row | row in rows
      ensures Verdict(Joined(ResourcePieces(plan), And).sql, Joined(ResourcePieces(plan), And).values, row) == Some(Accepts(plan, row))
    {
      FilterMeans(plan, row);
    }
  }

  // ----- pushing the words -----

  lemma {:induction false} JoinedSnoc(pieces: seq<Piece>, p: Piece, word: Token)
    requires pieces != []
    ensures var j := Joined(pieces, word);
            Joined(pieces + [p], word) == Piece(j.sql + [word] + p.sql, j.values + p.values)
  {
    var all := pieces + [p];
    if |pieces| > 1 {
      assert all[1..] == pieces[1..] + [p];
      JoinedSnoc(pieces[1..], p, word);
    }
  }

  lemma JoinedTwo(a: Piece, b: Piece, word: Token)
    ensures Joined([a, b], word) == Piece(a.sql + [word] + b.sql, a.values + b.values)
  {
    assert [a, b][1..] == [b];
  }

  lemma StaleWords(c: Cutoffs)
    ensures BranchPiece(Stale, c).sql
         == [Open, Col(LastSeenColumn), Compare(Below), Slot, And, Col(LastSeenColumn), Compare(AtLeast), Slot, Close]
    ensures BranchPiece(Stale, c).values == [Integer(c.freshAfter), Integer(c.expiredAfter)]
  {
    JoinedTwo(ComparisonPiece(LastSeenColumn, Below, Integer(c.freshAfter)),
              ComparisonPiece(LastSeenColumn, AtLeast, Integer(c.expiredAfter)), And);
  }

  lemma ConnectionWords(id: string, c: Cutoffs, classes: seq<Class>)
    ensures var branches := Joined(BranchPieces(classes, c), Or);
            && ConnectionPiece(id, c, classes).sql
               == [Open, Col(ConnectionColumn), Compare(Equal), Slot, And, Open] + branches.sql + [Close, Close]
            && ConnectionPiece(id, c, classes).values == [Text(id)] + branches.values
  {
    hide BranchPieces;
    JoinedTwo(ComparisonPiece(ConnectionColumn, Equal, Text(id)), Wrapped(Joined(BranchPieces(classes, c), Or)), And);
  }

  /** The clause under construction: its words and its parameters. */
  class QueryBuilder {
    var sql: Sql
    var values: Values

    constructor ()
      ensures sql == [Always] && values == []
    {
      sql, values := [Always], [];
    }

    method Push(words: Sql, parameters: Values)
      modifies this
      ensures sql == old(sql) + words && values == old(values) + parameters
    {
      sql := sql + words;
      values := values + parameters;
    }

    method PushTextSet(column: Column, texts: set<string>)
      modifies this
      ensures texts == {} ==> sql == old(sql) && values == old(values)
      ensures texts != {} ==>
        var p := TextSetPieces(column, texts)[0];
        sql == old(sql) + [And] + p.sql && values == old(values) + p.values
    {
      if texts == {} { return; }
      TextOrder();
      var list := Listing(texts, TextLess);
      sql := sql + [And] + ([Col(column), In, Open] + Placeholders(|list|) + [Close]);
      values := values + TextValues(list);
    }

    method PushBranch(class_: Class, c: Cutoffs)
      modifies this
      ensures sql == old(sql) + BranchPiece(class_, c).sql && values == old(values) + BranchPiece(class_, c).values
    {
      StaleWords(c);
      match class_ {
        case Fresh =>
          Push([Col(LastSeenColumn), Compare(AtLeast), Slot], [Integer(c.freshAfter)]);
        case Stale =>
          Push([Open, Col(LastSeenColumn), Compare(Below), Slot, And, Col(LastSeenColumn), Compare(AtLeast), Slot, Close],
               [Integer(c.freshAfter), Integer(c.expiredAfter)]);
        case Expired =>
          Push([Col(LastSeenColumn), Compare(Below), Slot], [Integer(c.expiredAfter)]);
      }
    }

    method PushConnection(id: string, c: Cutoffs, classes: seq<Class>)
      modifies this
      ensures sql == old(sql) + ConnectionPiece(id, c, classes).sql && values == old(values) + ConnectionPiece(id, c, classes).values
    {
      hide BranchPiece, ConnectionPiece, Joined;
      Push([Open, Col(ConnectionColumn), Compare(Equal), Slot, And, Open], [Text(id)]);
      ghost var sql0, values0 := sql, values;
      ghost var pieces := BranchPieces(classes, c);
      JoinedNone(Or);
      for branch := 0 to |classes|
        invariant sql == sql0 + Joined(pieces[..branch], Or).sql && values == values0 + Joined(pieces[..branch], Or).values
      {
        JoinedNext(pieces, branch, Or);
        if branch > 0 {
          Push([Or], []);
        }
        PushBranch(classes[branch], c);
      }
      assert pieces[..|classes|] == pieces;
      Push([Close, Close], []);
      ConnectionWords(id, c, classes);
    }

    method PushConnections(cutoffs: map<string, Cutoffs>, classes: seq<Class>)
      modifies this
      ensures var pieces := ConnectionPieces(cutoffs, classes);
              sql == old(sql) + Joined(pieces, Or).sql && values == old(values) + Joined(pieces, Or).values
    {
      var ids := ConnectionIds(cutoffs);
      ghost var pieces := ConnectionPieces(cutoffs, classes);
      ConnectionPieceAt(cutoffs, classes);
      hide Joined, ConnectionPiece, ConnectionPieces, ConnectionIds;
      JoinedNone(Or);
      for index := 0 to |ids|
        invariant sql == old(sql) + Joined(pieces[..index], Or).sql && values == old(values) + Joined(pieces[..index], Or).values
      {
        JoinedNext(pieces, index, Or);
        if index > 0 {
          Push([Or], []);
        }
        PushConnection(ids[index], cutoffs[ids[index]], classes);
      }
      assert pieces[..|ids|] == pieces;
    }

    method PushFreshnessFilter(freshness: set<Class>, cutoffs: map<string, Cutoffs>)
      modifies this
      ensures !FiltersFreshness(freshness) ==> sql == old(sql) && values == old(values)
      ensures FiltersFreshness(freshness) ==>
        && sql == old(sql) + [And] + FreshnessPiece(freshness, cutoffs).sql
        && values == old(values) + FreshnessPiece(freshness, cutoffs).values
    {
      hide Joined, ConnectionPieces, Requested;
      var classes := Requested(freshness);
      if !FiltersFreshness(freshness) { return; }
      Push([And, Open], []);
      PushConnections(cutoffs, classes);
      Push([Close], []);
    }

    /** One comparison per searched column, all with the same pattern. */
    method PushSearch(query: Search)
      modifies this
      ensures sql == old(sql) + [And] + SearchPiece(query).sql && values == old(values) + SearchPiece(query).values
    {
      hide Joined;
      SearchWords(query);
      var pattern := Text(SearchPattern(query.lowercase));
      Push([And, Open, Col(LowerDisplayName), Compare(LikePattern), Slot, Or, Col(LowerName), Compare(LikePattern), Slot, Or,
            Col(LowerKind), Compare(LikePattern), Slot, Or, Col(LowerExternalId), Compare(LikePattern), Slot, Or,
            Col(LowerResourceId), Compare(LikePattern), Slot, Close],
           [pattern, pattern, pattern, pattern, pattern]);
    }

    method PushLeadingFilters(plan: Plan)
      requires sql == [Always] && values == []
      modifies this
      ensures sql == Joined(LeadingPieces(plan), And).sql && values == Joined(LeadingPieces(plan), And).values
    {
      hide Joined, ComparisonPiece, SearchPiece;
      ghost var pieces := [Piece([Always], [])];
      JoinedOne(pieces[0], And);
      if plan.after.Some? {
        ghost var p := ComparisonPiece(ResourceIdColumn, Greater, Text(plan.after.value));
        ComparisonWords(ResourceIdColumn, Greater, Text(plan.after.value));
        JoinedSnoc(pieces, p, And);
        pieces := pieces + [p];
        Push([And, Col(ResourceIdColumn), Compare(Greater), Slot], [Text(plan.after.value)]);
        assert sql == Joined(pieces, And).sql;
      }
      if plan.query.Some? {
        JoinedSnoc(pieces, SearchPiece(plan.query.value), And);
        pieces := pieces + [SearchPiece(plan.query.value)];
        PushSearch(plan.query.value);
      }
      assert pieces == LeadingPieces(plan);
    }

    method PushLabels(labels: map<string, string>, ghost pieces: seq<Piece>)
      requires pieces != [] && sql == Joined(pieces, And).sql && values == Joined(pieces, And).values
      modifies this
      ensures var all := pieces + LabelPieces(labels, LabelKeys(labels));
              sql == Joined(all, And).sql && values == Joined(all, And).values
    {
      var keys := LabelKeys(labels);
      hide Joined, LabelKeys;
      assert keys[..0] == [] && pieces + [] == pieces;
      for k := 0 to |keys|
        invariant forall i :: 0 <= i < k ==> keys[i] in labels
        invariant LabelsPushed(labels, keys, k, pieces, Piece(sql, values))
      {
        assert keys[k] in keys;
        LabelsSnoc(labels, keys, k, pieces, Piece(sql, values));
        Push([And, LabelIs], [Text(keys[k]), Text(labels[keys[k]])]);
      }
      assert keys[..|keys|] == keys;
    }

    method PushIdentityFilters(plan: Plan)
      requires sql == [Always] && values == []
      modifies this
      ensures sql == Joined(IdentityPieces(plan), And).sql && values == Joined(IdentityPieces(plan), And).values
    {
      hide Joined, LeadingPieces, TextSetPieces, LabelPieces, LabelKeys;
      PushLeadingFilters(plan);
      ghost var pieces := LeadingPieces(plan);
      assert pieces != [] by { LeadingNonempty(plan); }
      PushTextSet(KindColumn, plan.kinds);
      pieces := AddTextSet(pieces, KindColumn, plan.kinds);
      PushTextSet(ConnectorTypeColumn, plan.connectorTypes);
      pieces := AddTextSet(pieces, ConnectorTypeColumn, plan.connectorTypes);
      PushTextSet(HealthColumn, plan.health);
      pieces := AddTextSet(pieces, HealthColumn, plan.health);
      PushLabels(plan.labels, pieces);
    }

    /** The whole clause of a resource query, piece after piece. */
    method PushResourceFilters(plan: Plan)
      requires sql == [Always] && values == []
      modifies this
      ensures sql == Joined(ResourcePieces(plan), And).sql && values == Joined(ResourcePieces(plan), And).values
    {
      hide Joined, FreshnessPiece, ComparisonPiece, TextSetPieces;
      ghost var front := IdentityPieces(plan);
      PushIdentityFilters(plan);
      PushFreshnessFilter(plan.freshness, plan.cutoffs);
      if FiltersFreshness(plan.freshness) {
        JoinedSnoc(front, FreshnessPiece(plan.freshness, plan.cutoffs), And);
        assert ResourcePieces(plan) == front + [FreshnessPiece(plan.freshness, plan.cutoffs)];
      } else {
        assert ResourcePieces(plan) == front;
      }
    }
  }

  lemma ConnectionPieceAt(cutoffs: map<string, Cutoffs>, classes: seq<Class>)
    ensures var ids := ConnectionIds(cutoffs);
            && |ConnectionPieces(cutoffs, classes)| == |ids|
            && forall i :: 0 <= i < |ids| ==> ids[i] in cutoffs && ConnectionPieces(cutoffs, classes)[i] == ConnectionPiece(ids[i], cutoffs[ids[i]], classes)
  {
    hide ConnectionPiece;
    var ids := ConnectionIds(cutoffs);
    forall i | 0 <= i < |ids| ensures ids[i] in cutoffs { assert ids[i] in ids; }
  }

  lemma LeadingNonempty(plan: Plan)
    ensures LeadingPieces(plan) != []
  {
  }

  /** The labels of the first `k` keys have been pushed. */
  ghost predicate LabelsPushed(labels: map<string, string>, keys: seq<string>, k: nat, pieces: seq<Piece>, p: Piece)
    requires k <= |keys| && forall i :: 0 <= i < k ==> keys[i] in labels
  {
    p == Joined(pieces + LabelPieces(labels, keys[..k]), And)
  }

  lemma LabelsSnoc(labels: map<string, string>, keys: seq<string>, k: nat, pieces: seq<Piece>, p: Piece)
    requires k < |keys| && pieces != [] && keys[k] in labels
    requires forall i :: 0 <= i < k ==> keys[i] in labels
    requires LabelsPushed(labels, keys, k, pieces, p)
    ensures LabelsPushed(labels, keys, k + 1, pieces, Piece(p.sql + [And, LabelIs], p.values + [Text(keys[k]), Text(labels[keys[k]])]))
  {
    hide Joined;
    var sofar, last := pieces + LabelPieces(labels, keys[..k]), LabelPiece(keys[k], labels[keys[k]]);
    assert keys[..k + 1][..k] == keys[..k];
    assert pieces + LabelPieces(labels, keys[..k + 1]) == sofar + [last];
    JoinedSnoc(sofar, last, And);
    assert p.sql + [And] + last.sql == p.sql + [And, LabelIs];
  }

  lemma SearchWords(query: Search)
    ensures var pattern := Text(SearchPattern(query.lowercase));
            && SearchPiece(query).sql
               == [Open, Col(LowerDisplayName), Compare(LikePattern), Slot, Or, Col(LowerName), Compare(LikePattern), Slot, Or,
                   Col(LowerKind), Compare(LikePattern), Slot, Or, Col(LowerExternalId), Compare(LikePattern), Slot, Or,
                   Col(LowerResourceId), Compare(LikePattern), Slot, Close]
            && SearchPiece(query).values == [pattern, pattern, pattern, pattern, pattern]
  {
    hide SearchPattern, Joined;
    var pattern := Text(SearchPattern(query.lowercase));
    var pieces := SearchPieces(SEARCHED, query.lowercase);
    assert pieces == [pieces[0], pieces[1], pieces[2], pieces[3], pieces[4]];
    JoinedFive(pieces[0], pieces[1], pieces[2], pieces[3], pieces[4], Or);
  }

  lemma JoinedFive(a: Piece, b: Piece, c: Piece, d: Piece, e: Piece, word: Token)
    ensures Joined([a, b, c, d, e], word)
         == Piece(a.sql + [word] + b.sql + [word] + c.sql + [word] + d.sql + [word] + e.sql, a.values + b.values + c.values + d.values + e.values)
  {
    hide Joined;
    JoinedTwo(a, b, word);
    JoinedSnoc([a, b], c, word);
    assert [a, b] + [c] == [a, b, c];
    JoinedSnoc([a, b, c], d, word);
    assert [a, b, c] + [d] == [a, b, c, d];
    JoinedSnoc([a, b, c, d], e, word);
    assert [a, b, c, d] + [e] == [a, b, c, d, e];
  }

  lemma ComparisonWords(column: Column, op: Comparison, value: Value)
    ensures ComparisonPiece(column, op, value) == Piece([Col(column), Compare(op), Slot], [value])
  {
  }

  lemma JoinedNone(word: Token)
    ensures Joined([], word) == Piece([], [])
  {
  }

  lemma JoinedOne(p: Piece, word: Token)
    ensures Joined([p], word) == p
  {
  }

  lemma JoinedNext(pieces: seq<Piece>, k: nat, word: Token)
    requires k < |pieces|
    ensures var j := Joined(pieces[..k], word);
            Joined(pieces[..k + 1], word)
            == if k == 0 then pieces[0] else Piece(j.sql + [word] + pieces[k].sql, j.values + pieces[k].values)
  {
    assert pieces[..k + 1] == pieces[..k] + [pieces[k]];
    if k > 0 {
      JoinedSnoc(pieces[..k], pieces[k], word);
    }
  }

  lemma AddTextSet(pieces: seq<Piece>, column: Column, texts: set<string>) returns (more: seq<Piece>)
    requires pieces != []
    ensures more == pieces + TextSetPieces(column, texts)
    ensures texts == {} ==> more == pieces
    ensures texts != {} ==>
      var p := TextSetPieces(column, texts)[0];
      Joined(more, And) == Piece(Joined(pieces, And).sql + [And] + p.sql, Joined(pieces, And).values + p.values)
  {
    more := pieces + TextSetPieces(column, texts);
    if texts != {} {
      JoinedSnoc(pieces, TextSetPieces(column, texts)[0], And);
    }
  }
}
