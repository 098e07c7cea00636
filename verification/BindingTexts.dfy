/** The texts of configured relations and their versions, and the relation table as it is stored, by text. */
module BindingTexts {
  import opened Wrappers
  import opened Ordering
  import opened Text
  import opened Bindings

  // ----- the text of a relation id -----

  function EndpointsText(source: string, target: string): string { source + ":" + target }

  /** The text the source formats for a configured relation of a binding. */
  function RelationText(bindingId: string, source: string, target: string, kind: string): string {
    "binding-relation:" + bindingId + ":" + EndpointsText(source, target) + ":" + kind
  }

  /** Kinds hold no colon, so two texts of one binding agree exactly when kinds agree and the endpoints read alike when joined. */
  lemma RelationTextsAgree(bindingId: string, source: string, target: string, kind: string, source': string, target': string, kind': string)
    requires ':' !in kind && ':' !in kind'
    ensures RelationText(bindingId, source, target, kind) == RelationText(bindingId, source', target', kind')
       <==> kind == kind' && EndpointsText(source, target) == EndpointsText(source', target')
  {
    hide EndpointsText;
    var head := "binding-relation:" + bindingId + ":";
    var e, e' := EndpointsText(source, target), EndpointsText(source', target');
    if RelationText(bindingId, source, target, kind) == RelationText(bindingId, source', target', kind') {
      LastColon(head + e, kind, head + e', kind');
      assert e == (head + e)[|head|..] && e' == (head + e')[|head|..];
    }
  }

  /** One source is the other followed by a colon and some text, and that text and a colon begin the other's target. */
  ghost predicate Overlap(source: string, target: string, source': string, target': string) {
    exists m: string :: source' == source + ":" + m && target == m + ":" + target'
  }

  lemma OverlapFound(source: string, target: string, source': string, target': string)
    requires EndpointsText(source, target) == EndpointsText(source', target') && |source| < |source'|
    ensures Overlap(source, target, source', target')
  {
    var text := EndpointsText(source, target);
    var m := source'[|source| + 1..];
    assert text[..|source|] == source && text[..|source'|] == source' && text[|source|] == ':';
    assert source' == source + ":" + m;
    assert text == source + ":" + (m + ":" + target');
    assert target == text[|source| + 1..] == m + ":" + target';
  }

  /** Different endpoints read alike when joined exactly when they overlap. */
  lemma EndpointsCollide(source: string, target: string, source': string, target': string)
    ensures EndpointsText(source, target) == EndpointsText(source', target')
       <==> (source, target) == (source', target') || Overlap(source, target, source', target') || Overlap(source', target', source, target)
  {
    if EndpointsText(source, target) == EndpointsText(source', target') {
      if |source| < |source'| {
        OverlapFound(source, target, source', target');
      } else if |source'| < |source| {
        OverlapFound(source', target', source, target);
      } else {
        var text := EndpointsText(source, target);
        assert source == text[..|source|] == source' && target == text[|source| + 1..] == target';
      }
    }
    if m: string :| source' == source + ":" + m && target == m + ":" + target' {
      assert EndpointsText(source, target) == source + ":" + m + ":" + target' == EndpointsText(source', target');
    }
    if m: string :| source == source' + ":" + m && target' == m + ":" + target {
      assert EndpointsText(source', target') == source' + ":" + m + ":" + target == EndpointsText(source, target);
    }
  }

  /** Resource ids may hold colons, so different endpoints can share a text. */
  lemma RelationTextsCollide(bindingId: string, kind: string)
    ensures ("a:b", "c") != ("a", "b:c")
    ensures RelationText(bindingId, "a:b", "c", kind) == RelationText(bindingId, "a", "b:c", kind)
  {
    assert EndpointsText("a:b", "c") == EndpointsText("a", "b:c");
  }

  function TextOf(r: RelationId): string { RelationText(r.bindingId.text, r.source.text, r.target.text, r.kind.text) }

  ghost predicate Overlapping(r: RelationId, q: RelationId) {
    r.bindingId == q.bindingId && r.kind == q.kind && Overlap(r.source.text, r.target.text, q.source.text, q.target.text)
  }

  ghost predicate Clash(r: RelationId, q: RelationId) { Overlapping(r, q) || Overlapping(q, r) }

  /** Binding ids are drawn in one format, of one length. */
  ghost predicate OneLength(bindings: Table) {
    forall i, j :: i in bindings && j in bindings ==> |i.text| == |j.text|
  }

  /** Ids as the service forms them: binding ids of one length, and kinds without colon. */
  ghost predicate Formatted(ids: set<RelationId>) {
    && (forall r :: r in ids ==> ':' !in r.kind.text)
    && (forall r, q :: r in ids && q in ids ==> |r.bindingId.text| == |q.bindingId.text|)
  }

  lemma BindingRead(r: RelationId, q: RelationId)
    requires |r.bindingId.text| == |q.bindingId.text| && TextOf(r) == TextOf(q)
    ensures r.bindingId == q.bindingId
  {
    var head := "binding-relation:";
    assert TextOf(r)[|head|..|head| + |r.bindingId.text|] == r.bindingId.text;
    assert TextOf(q)[|head|..|head| + |q.bindingId.text|] == q.bindingId.text;
  }

  /** Two relations share a text exactly when they are one, or are of one binding and kind and their endpoints overlap. */
  lemma TextsClash(r: RelationId, q: RelationId)
    requires |r.bindingId.text| == |q.bindingId.text| && ':' !in r.kind.text && ':' !in q.kind.text
    ensures TextOf(r) == TextOf(q) <==> r == q || Clash(r, q)
  {
    hide RelationText, EndpointsText;
    EndpointsCollide(r.source.text, r.target.text, q.source.text, q.target.text);
    RelationTextsAgree(r.bindingId.text, r.source.text, r.target.text, r.kind.text, q.source.text, q.target.text, q.kind.text);
    if TextOf(r) == TextOf(q) {
      BindingRead(r, q);
    }
  }

  lemma NoSelfClash(r: RelationId)
    ensures !Clash(r, r)
  {
    forall m: string ensures r.source.text != r.source.text + ":" + m {
      assert |r.source.text + ":" + m| == |r.source.text| + 1 + |m|;
    }
  }

  /** Different relations have different texts. */
  ghost predicate Injective(ids: set<RelationId>) {
    forall r, q :: r in ids && q in ids && TextOf(r) == TextOf(q) ==> r == q
  }

  ghost predicate NoClash(ids: set<RelationId>) { forall r, q :: r in ids && q in ids ==> !Clash(r, q) }

  /** The texts of some relations tell them apart exactly when no two of them clash. */
  lemma InjectiveMeansNoClash(ids: set<RelationId>)
    requires Formatted(ids)
    ensures Injective(ids) <==> NoClash(ids)
  {
    hide TextOf, Clash;
    forall r, q | r in ids && q in ids ensures TextOf(r) == TextOf(q) <==> r == q || Clash(r, q) {
      TextsClash(r, q);
    }
    forall r | r in ids ensures !Clash(r, r) {
      NoSelfClash(r);
    }
  }

  /** A commit that moves a binding names one relation twice exactly when its former and its new endpoints overlap. */
  lemma MoveRepeatsText(previous: Binding, b: Binding, at: int)
    requires previous.id == b.id && RelationIdOf(previous) != RelationIdOf(b)
    requires ':' !in previous.kind.text && ':' !in b.kind.text
    ensures var relations := BindingCommit(Some(previous), b, at).relations;
            && |relations| == 2 && relations[0].id == RelationIdOf(previous) && relations[1].id == RelationIdOf(b)
            && (TextOf(relations[0].id) == TextOf(relations[1].id)
                <==> Clash(relations[0].id, relations[1].id))
  {
    hide BindingChanges, TextOf, Clash;
    TextsClash(RelationIdOf(previous), RelationIdOf(b));
  }

  // ----- the relation table keyed by texts -----

  function UpsertTexts(relations: map<string, Relation>, list: seq<Relation>): map<string, Relation>
    decreases |list|
  {
    if list == [] then relations else UpsertTexts(relations[TextOf(list[0].id) := list[0]], list[1..])
  }

  /** The relation table as the store keeps it, by text. */
  function TextTable(calls: seq<Call>): map<string, Relation>
    decreases |calls|
  {
    if calls == [] then map[]
    else
      var front, last := calls[..|calls| - 1], calls[|calls| - 1];
      var o := Decide(Run(front).bindings, last.active, last.command);
      if o.Committed? then UpsertTexts(TextTable(front), o.commit.relations) else TextTable(front)
  }

  /** Both tables hold the same relations. */
  ghost predicate SameTables(relations: map<RelationId, Relation>, texts: map<string, Relation>) {
    && (forall r :: r in relations ==> TextOf(r) in texts && texts[TextOf(r)] == relations[r])
    && (forall t :: t in texts ==> exists r :: r in relations && TextOf(r) == t)
  }

  lemma {:induction false} UpsertGrows(relations: map<RelationId, Relation>, list: seq<Relation>)
    ensures relations.Keys <= Upsert(relations, list).Keys
    decreases |list|
  {
    if list != [] {
      UpsertGrows(relations[list[0].id := list[0]], list[1..]);
    }
  }

  lemma {:induction false} UpsertsAgree(relations: map<RelationId, Relation>, texts: map<string, Relation>, list: seq<Relation>)
    requires SameTables(relations, texts) && Injective(Upsert(relations, list).Keys)
    ensures SameTables(Upsert(relations, list), UpsertTexts(texts, list))
    decreases |list|
  {
    hide TextOf, SameTables;
    if list != [] {
      var relations', texts' := relations[list[0].id := list[0]], texts[TextOf(list[0].id) := list[0]];
      UpsertGrows(relations', list[1..]);
      UpsertAgrees(relations, texts, list[0]);
      UpsertsAgree(relations', texts', list[1..]);
    }
  }

  lemma UpsertAgrees(relations: map<RelationId, Relation>, texts: map<string, Relation>, relation: Relation)
    requires SameTables(relations, texts) && Injective(relations[relation.id := relation].Keys)
    ensures SameTables(relations[relation.id := relation], texts[TextOf(relation.id) := relation])
  {
    hide TextOf;
    var relations', texts' := relations[relation.id := relation], texts[TextOf(relation.id) := relation];
    forall t | t in texts' ensures exists r :: r in relations' && TextOf(r) == t {
      if t != TextOf(relation.id) {
        var r :| r in relations && TextOf(r) == t;
        assert r in relations';
      } else {
        assert relation.id in relations';
      }
    }
  }

  lemma {:induction false} TablesAgree(calls: seq<Call>)
    requires Injective(Run(calls).relations.Keys)
    ensures SameTables(Run(calls).relations, TextTable(calls))
    decreases |calls|
  {
    hide Decide, Upsert, UpsertTexts, TextOf;
    if calls != [] {
      var front, last := calls[..|calls| - 1], calls[|calls| - 1];
      var o := Decide(Run(front).bindings, last.active, last.command);
      if o.Committed? {
        UpsertGrows(Run(front).relations, o.commit.relations);
      }
      TablesAgree(front);
      if o.Committed? {
        UpsertsAgree(Run(front).relations, TextTable(front), o.commit.relations);
      }
    }
  }

  /** Relations lie under their own ids. */
  ghost predicate Keyed(relations: map<RelationId, Relation>) { forall r :: r in relations ==> relations[r].id == r }

  lemma KeyedInvariant(s: State)
    requires Invariant(s)
    ensures Keyed(s.relations)
  {
  }

  lemma SameTablesSeparate(relations: map<RelationId, Relation>, texts: map<string, Relation>)
    requires Keyed(relations) && SameTables(relations, texts)
    ensures Injective(relations.Keys)
  {
    hide TextOf;
    forall r, q | r in relations && q in relations && TextOf(r) == TextOf(q) ensures r == q {
      assert relations[r] == texts[TextOf(r)] == relations[q];
    }
  }

  /** Over any calls the table by texts holds every relation exactly when their texts tell them apart. */
  lemma TextTableIsWhole(calls: seq<Call>)
    requires FreshIds(calls)
    ensures SameTables(Run(calls).relations, TextTable(calls)) <==> Injective(Run(calls).relations.Keys)
  {
    hide Run, TextTable, Invariant, SameTables, Injective;
    RunsKeepInvariant(calls);
    KeyedInvariant(Run(calls));
    if Injective(Run(calls).relations.Keys) {
      TablesAgree(calls);
    }
    if SameTables(Run(calls).relations, TextTable(calls)) {
      SameTablesSeparate(Run(calls).relations, TextTable(calls));
    }
  }

  // ----- the mirror, by texts -----

  /** The table by texts mirrors the bindings: each has its current relation, with the lifecycle of its status, and every other
      relation is tombstoned. */
  ghost predicate TextsMirror(bindings: Table, texts: map<string, Relation>) {
    && (forall i :: i in bindings ==> CurrentUnderText(bindings[i], texts))
    && (forall t :: t in texts ==> BuriedUnderText(bindings, t, texts[t]))
  }

  ghost predicate CurrentUnderText(b: Binding, texts: map<string, Relation>) {
    var t := TextOf(RelationIdOf(b));
    t in texts && texts[t].id == RelationIdOf(b) && texts[t].lifecycle == RelationLifecycle(b.status)
  }

  ghost predicate BuriedUnderText(bindings: Table, t: string, r: Relation) {
    && TextOf(r.id) == t && r.id.bindingId in bindings
    && (r.id != RelationIdOf(bindings[r.id.bindingId]) ==> r.lifecycle == TombstonedRelation)
  }

  /** The texts after a commit: the one it leaves is buried, and its own is written last. */
  function TextsAfter(texts: map<string, Relation>, previous: Option<Binding>, b: Binding, at: int): map<string, Relation> {
    var current := ConfiguredRelation(b, RelationLifecycle(b.status), at);
    if previous.Some? && RelationIdOf(previous.value) != RelationIdOf(b)
    then texts[TextOf(RelationIdOf(previous.value)) := ConfiguredRelation(previous.value, TombstonedRelation, at)][TextOf(current.id) := current]
    else texts[TextOf(current.id) := current]
  }

  lemma CommitTexts(texts: map<string, Relation>, previous: Option<Binding>, b: Binding, at: int)
    ensures UpsertTexts(texts, BindingCommit(previous, b, at).relations) == TextsAfter(texts, previous, b, at)
  {
    hide BindingChanges, TextOf;
    var current := ConfiguredRelation(b, RelationLifecycle(b.status), at);
    if previous.Some? && RelationIdOf(previous.value) != RelationIdOf(b) {
      var former := ConfiguredRelation(previous.value, TombstonedRelation, at);
      assert BindingCommit(previous, b, at).relations == [former, current];
      assert [former, current][1..] == [current] && [current][1..] == [];
      assert UpsertTexts(texts, [former, current]) == UpsertTexts(texts[TextOf(former.id) := former], [current]);
    } else {
      assert BindingCommit(previous, b, at).relations == [current];
      assert [current][1..] == [];
    }
  }

  /** A relation of one binding never lies under the text of another's. */
  lemma OtherText(r: RelationId, q: RelationId)
    requires |r.bindingId.text| == |q.bindingId.text| && r.bindingId != q.bindingId
    ensures TextOf(r) != TextOf(q)
  {
    hide TextOf;
    if TextOf(r) == TextOf(q) { BindingRead(r, q); }
  }

  lemma OthersKeepText(bindings: Table, texts: map<string, Relation>, previous: Option<Binding>, b: Binding, at: int, i: Id)
    requires Advances(bindings, previous, b, at) && Sane(bindings) && OneLength(bindings[b.id := b])
    requires i in bindings && i != b.id && CurrentUnderText(bindings[i], texts)
    ensures CurrentUnderText(bindings[i], TextsAfter(texts, previous, b, at))
  {
    hide TextOf, Duplicated;
    assert i in bindings[b.id := b] && b.id in bindings[b.id := b];
    OtherText(RelationIdOf(bindings[i]), RelationIdOf(b));
    if previous.Some? { OtherText(RelationIdOf(bindings[i]), RelationIdOf(previous.value)); }
  }

  lemma CommitBuriesTexts(bindings: Table, texts: map<string, Relation>, previous: Option<Binding>, b: Binding, at: int, t: string)
    requires Advances(bindings, previous, b, at) && Sane(bindings) && TextsMirror(bindings, texts)
    requires t in TextsAfter(texts, previous, b, at)
    ensures BuriedUnderText(bindings[b.id := b], t, TextsAfter(texts, previous, b, at)[t])
  {
    hide TextOf, Duplicated;
    var after := TextsAfter(texts, previous, b, at);
    if t in texts && after[t] == texts[t] {
      assert BuriedUnderText(bindings, t, texts[t]);
      if texts[t].id == RelationIdOf(b) {
      } else if previous.Some? && texts[t].id == RelationIdOf(previous.value) {
        assert t == TextOf(RelationIdOf(previous.value));
      }
    }
  }

  lemma CommitKeepsTexts(bindings: Table, texts: map<string, Relation>, previous: Option<Binding>, b: Binding, at: int)
    requires Advances(bindings, previous, b, at) && Sane(bindings) && OneLength(bindings[b.id := b]) && TextsMirror(bindings, texts)
    ensures TextsMirror(bindings[b.id := b], UpsertTexts(texts, BindingCommit(previous, b, at).relations))
  {
    hide TextOf, Advances, Sane, OneLength, UpsertTexts, BindingCommit, CurrentUnderText, BuriedUnderText;
    CommitTexts(texts, previous, b, at);
    var after, bindings' := TextsAfter(texts, previous, b, at), bindings[b.id := b];
    forall i | i in bindings' ensures CurrentUnderText(bindings'[i], after) {
      if i == b.id {
        OwnText(texts, previous, b, at);
      } else {
        OthersKeepText(bindings, texts, previous, b, at, i);
      }
    }
    forall t | t in after ensures BuriedUnderText(bindings', t, after[t]) {
      CommitBuriesTexts(bindings, texts, previous, b, at, t);
    }
  }

  lemma OwnText(texts: map<string, Relation>, previous: Option<Binding>, b: Binding, at: int)
    ensures CurrentUnderText(b, TextsAfter(texts, previous, b, at))
  {
    hide TextOf;
  }

  lemma BindingsGrow(calls: seq<Call>)
    requires calls != []
    ensures Run(calls[..|calls| - 1]).bindings.Keys <= Run(calls).bindings.Keys
  {
    hide Decide, Upsert;
  }

  lemma EarlierFresh(calls: seq<Call>)
    requires calls != [] && FreshIds(calls)
    ensures FreshIds(calls[..|calls| - 1])
  {
    hide Run;
    var front := calls[..|calls| - 1];
    assert forall k :: 0 <= k < |front| ==> front[..k] == calls[..k] && front[k] == calls[k];
  }

  /** What the last of some calls commits, if anything. */
  lemma LastCommit(calls: seq<Call>) returns (previous: Option<Binding>, b: Binding, at: int)
    requires calls != [] && FreshIds(calls)
    requires Decide(Run(calls[..|calls| - 1]).bindings, calls[|calls| - 1].active, calls[|calls| - 1].command).Committed?
    ensures var s := Run(calls[..|calls| - 1]);
            var c := BindingCommit(previous, b, at);
            && Invariant(s) && Advances(s.bindings, previous, b, at) && c.binding == b
            && Decide(s.bindings, calls[|calls| - 1].active, calls[|calls| - 1].command).commit == c
            && Run(calls) == Apply(s, Committed(c))
            && Run(calls).bindings == s.bindings[b.id := b] && (previous.Some? ==> previous.value.id == b.id)
  {
    hide Invariant, Decide, BindingCommit, Upsert, Advances;
    var front, last := calls[..|calls| - 1], calls[|calls| - 1];
    var s := Run(front);
    EarlierFresh(calls);
    RunsKeepInvariant(front);
    UniqueSane(s);
    assert front == calls[..|front|];
    DecisionsAdvance(s.bindings, last.active, last.command);
    previous, b, at :| Advances(s.bindings, previous, b, at) && Decide(s.bindings, last.active, last.command).commit == BindingCommit(previous, b, at);
    CommitOf(previous, b, at);
    SameBinding(s.bindings, previous, b, at);
  }

  lemma SameBinding(bindings: Table, previous: Option<Binding>, b: Binding, at: int)
    requires Advances(bindings, previous, b, at)
    ensures previous.Some? ==> previous.value.id == b.id && b.id in bindings && bindings[b.id] == previous.value
  {
  }

  lemma UniqueSane(s: State)
    requires Invariant(s)
    ensures Sane(s.bindings) && Unique(s.bindings) && NoRepeats(s)
  {
  }

  /** Over any calls, overlapping endpoints included, the mirror holds of the table by texts. */
  lemma {:induction false} RunsKeepTextsMirrored(calls: seq<Call>)
    requires FreshIds(calls) && OneLength(Run(calls).bindings)
    ensures TextsMirror(Run(calls).bindings, TextTable(calls))
    decreases |calls|
  {
    hide Invariant, Decide, BindingCommit, Upsert, UpsertTexts, Advances, Sane, TextsMirror, OneLength;
    if calls == [] {
      NoTexts();
    } else {
      var front, last := calls[..|calls| - 1], calls[|calls| - 1];
      EarlierFresh(calls);
      BindingsGrow(calls);
      FewerOfOneLength(Run(front).bindings, Run(calls).bindings);
      RunsKeepTextsMirrored(front);
      if Decide(Run(front).bindings, last.active, last.command).Committed? {
        var previous, b, at := LastCommit(calls);
        UniqueSane(Run(front));
        CommitKeepsTexts(Run(front).bindings, TextTable(front), previous, b, at);
      }
    }
  }

  lemma NoTexts()
    ensures TextsMirror(EMPTY.bindings, map[])
  {
  }

  lemma FewerOfOneLength(fewer: Table, more: Table)
    requires OneLength(more) && fewer.Keys <= more.Keys
    ensures OneLength(fewer)
  {
  }

  // ----- the texts of versions -----

  /** The text the source formats for a version of a configured relation. */
  function VersionText(v: VersionId): string
    requires v.at >= 0
  {
    "binding-relation-version:" + TextOf(v.relation) + ":" + Decimal(v.at)
  }

  /** Two versions share a text exactly when their relations do and their times agree. */
  lemma VersionTextsAgree(v: VersionId, w: VersionId)
    requires v.at >= 0 && w.at >= 0
    ensures VersionText(v) == VersionText(w) <==> SameVersion(v, w)
  {
    hide TextOf;
    var head := "binding-relation-version:";
    NumberedTextsAgree(head + TextOf(v.relation), v.at, head + TextOf(w.relation), w.at);
    assert (head + TextOf(v.relation))[|head|..] == TextOf(v.relation) && (head + TextOf(w.relation))[|head|..] == TextOf(w.relation);
  }

  predicate SameVersion(v: VersionId, w: VersionId) { TextOf(v.relation) == TextOf(w.relation) && v.at == w.at }

  ghost predicate VersionsDiffer(versions: seq<VersionId>) {
    forall i, j :: 0 <= i < j < |versions| ==> !SameVersion(versions[i], versions[j])
  }

  /** A commit moves a binding between overlapping endpoints. */
  ghost predicate ClashingMove(previous: Option<Binding>, b: Binding) {
    previous.Some? && Clash(RelationIdOf(previous.value), RelationIdOf(b))
  }

  /** A commit repeats no earlier version, and one of its own exactly when it moves a binding between overlapping endpoints. */
  lemma CommitVersions(s: State, previous: Option<Binding>, b: Binding, at: int)
    requires NoRepeats(s) && Advances(s.bindings, previous, b, at) && OneLength(s.bindings[b.id := b])
    requires ':' !in b.kind.text && (previous.Some? ==> ':' !in previous.value.kind.text)
    ensures VersionsDiffer(s.versions + BindingCommit(previous, b, at).versions) <==> VersionsDiffer(s.versions) && !ClashingMove(previous, b)
  {
    hide TextOf, BindingChanges, Duplicated, Clash;
    var c := BindingCommit(previous, b, at);
    var all := s.versions + c.versions;
    assert forall i :: 0 <= i < |c.versions| ==> c.versions[i].relation.bindingId == b.id && c.versions[i].at == at;
    forall i, j | 0 <= i < |s.versions| && |s.versions| <= j < |all| ensures !SameVersion(all[i], all[j]) {
      EarlierVersion(s, previous, b, at, i, all[j]);
    }
    assert forall i :: 0 <= i < |s.versions| ==> all[i] == s.versions[i];
    if previous.Some? && RelationIdOf(previous.value) != RelationIdOf(b) {
      MoveRepeatsText(previous.value, b, at);
      assert c.versions[0] == all[|s.versions|] && c.versions[1] == all[|s.versions| + 1];
      assert SameVersion(c.versions[0], c.versions[1]) <==> ClashingMove(previous, b);
    } else {
      NoSelfClash(RelationIdOf(b));
      assert |c.versions| == 1;
    }
  }

  lemma EarlierVersion(s: State, previous: Option<Binding>, b: Binding, at: int, i: nat, w: VersionId)
    requires NoRepeats(s) && Advances(s.bindings, previous, b, at) && OneLength(s.bindings[b.id := b])
    requires i < |s.versions| && w.relation.bindingId == b.id && w.at == at
    ensures !SameVersion(s.versions[i], w)
  {
    hide TextOf, Duplicated;
    var v := s.versions[i];
    assert v.relation.bindingId in s.bindings[b.id := b] && b.id in s.bindings[b.id := b];
    if v.relation.bindingId != b.id { OtherText(v.relation, w.relation); }
  }

  /** The k-th of some calls commits a move between overlapping endpoints. */
  ghost predicate MovesOverlap(calls: seq<Call>, k: nat)
    requires k < |calls|
  {
    var o := Decide(Run(calls[..k]).bindings, calls[k].active, calls[k].command);
    o.Committed? && |o.commit.relations| == 2 && Clash(o.commit.relations[0].id, o.commit.relations[1].id)
  }

  ghost predicate KindsFormatted(bindings: Table) { forall i :: i in bindings ==> ':' !in bindings[i].kind.text }

  /** Relation kinds are dotted lower-case tokens, so the calls name none with a colon. */
  ghost predicate KindsGiven(calls: seq<Call>) {
    forall k :: 0 <= k < |calls| ==>
      (calls[k].command.Create? || calls[k].command.Update? ==> ':' !in calls[k].command.input.kind.text)
  }

  lemma {:induction false} AskedKind(calls: seq<Call>, id: Id)
    requires KindsGiven(calls)
    ensures Asked(calls, id).Some? ==> ':' !in Asked(calls, id).value.kind.text
  {
    hide Served;
    if calls != [] {
      AskedKind(calls[..|calls| - 1], id);
    }
  }

  lemma KindsStay(calls: seq<Call>)
    requires FreshIds(calls) && KindsGiven(calls)
    ensures KindsFormatted(Run(calls).bindings)
  {
    hide Run, Asked, WasDisabled, LastSeenActive, FreshIds, KindsGiven;
    forall i | i in Run(calls).bindings ensures ':' !in Run(calls).bindings[i].kind.text {
      BindingsAreAsTold(calls, i);
      AskedKind(calls, i);
    }
  }

  /** Over any calls, version texts never repeat if and only if no committed move joined overlapping endpoints. */
  lemma {:induction false} VersionTextsDiffer(calls: seq<Call>)
    requires FreshIds(calls) && OneLength(Run(calls).bindings) && KindsGiven(calls)
    ensures VersionsDiffer(Run(calls).versions) <==> forall k :: 0 <= k < |calls| ==> !MovesOverlap(calls, k)
    decreases |calls|
  {
    hide Invariant, Decide, BindingCommit, Upsert, Advances, NoRepeats, Sane, OneLength, Clash, VersionsDiffer, MovesOverlap, KindsFormatted;
    if calls == [] {
      NoVersions();
    } else {
      var n := |calls| - 1;
      var front, last := calls[..n], calls[n];
      EarlierFresh(calls);
      BindingsGrow(calls);
      FewerOfOneLength(Run(front).bindings, Run(calls).bindings);
      KindsStay(front);
      KindsStay(calls);
      VersionTextsDiffer(front);
      forall k | 0 <= k < n ensures MovesOverlap(front, k) <==> MovesOverlap(calls, k) {
        EarlierMove(calls, k);
      }
      if Decide(Run(front).bindings, last.active, last.command).Committed? {
        var previous, b, at := LastCommit(calls);
        UniqueSane(Run(front));
        KindsOfCommit(calls, previous, b, at);
        CommitVersions(Run(front), previous, b, at);
        MoveOfCommit(calls, previous, b, at);
      } else {
        NoMove(calls);
      }
    }
  }

  lemma NoVersions()
    ensures VersionsDiffer(EMPTY.versions)
  {
  }

  lemma EarlierMove(calls: seq<Call>, k: nat)
    requires k < |calls| - 1
    ensures MovesOverlap(calls[..|calls| - 1], k) <==> MovesOverlap(calls, k)
  {
    hide Decide, Run, Clash;
    assert calls[..|calls| - 1][..k] == calls[..k];
  }

  lemma KindsOfCommit(calls: seq<Call>, previous: Option<Binding>, b: Binding, at: int)
    requires calls != [] && Advances(Run(calls[..|calls| - 1]).bindings, previous, b, at)
    requires Run(calls).bindings == Run(calls[..|calls| - 1]).bindings[b.id := b]
    requires KindsFormatted(Run(calls[..|calls| - 1]).bindings) && KindsFormatted(Run(calls).bindings)
    ensures ':' !in b.kind.text && (previous.Some? ==> ':' !in previous.value.kind.text)
  {
    hide Run, Duplicated;
    assert Run(calls).bindings[b.id] == b;
  }

  lemma MoveOfCommit(calls: seq<Call>, previous: Option<Binding>, b: Binding, at: int)
    requires calls != []
    requires var o := Decide(Run(calls[..|calls| - 1]).bindings, calls[|calls| - 1].active, calls[|calls| - 1].command);
             o.Committed? && o.commit == BindingCommit(previous, b, at)
    requires previous.Some? ==> previous.value.id == b.id
    ensures MovesOverlap(calls, |calls| - 1) <==> ClashingMove(previous, b)
  {
    hide Decide, Run, Clash, BindingChanges;
    NoSelfClash(RelationIdOf(b));
  }

  lemma NoMove(calls: seq<Call>)
    requires calls != []
    requires !Decide(Run(calls[..|calls| - 1]).bindings, calls[|calls| - 1].active, calls[|calls| - 1].command).Committed?
    ensures !MovesOverlap(calls, |calls| - 1)
    ensures Run(calls) == Run(calls[..|calls| - 1])
  {
    hide Decide;
  }

  lemma {:induction false} RelationsFormatted(calls: seq<Call>)
    requires FreshIds(calls) && OneLength(Run(calls).bindings) && KindsGiven(calls)
    ensures Formatted(Run(calls).relations.Keys)
    decreases |calls|
  {
    hide Invariant, Decide, BindingCommit, Upsert, Advances, NoRepeats, Sane, Unique, RelationsAfter;
    RunsKeepInvariant(calls);
    OwnersStored(Run(calls));
    if calls != [] {
      var front, last := calls[..|calls| - 1], calls[|calls| - 1];
      EarlierFresh(calls);
      BindingsGrow(calls);
      FewerOfOneLength(Run(front).bindings, Run(calls).bindings);
      RelationsFormatted(front);
      if Decide(Run(front).bindings, last.active, last.command).Committed? {
        var previous, b, at := LastCommit(calls);
        KindsStay(front);
        KindsStay(calls);
        KindsOfCommit(calls, previous, b, at);
        CommitRelations(Run(front).relations, previous, b, at);
        KeysAfter(Run(front).relations, previous, b, at);
      }
    }
  }

  lemma KeysAfter(relations: map<RelationId, Relation>, previous: Option<Binding>, b: Binding, at: int)
    ensures forall r :: r in RelationsAfter(relations, previous, b, at) ==>
              r in relations || r == RelationIdOf(b) || (previous.Some? && r == RelationIdOf(previous.value))
  {
  }

  lemma OwnersStored(s: State)
    requires Invariant(s)
    ensures forall r :: r in s.relations ==> r.bindingId in s.bindings
  {
  }

  /** Over any calls the table by texts holds every relation exactly when no binding ever joined overlapping endpoints by one kind. */
  lemma TextTableIsWholeWithoutOverlap(calls: seq<Call>)
    requires FreshIds(calls) && OneLength(Run(calls).bindings) && KindsGiven(calls)
    ensures SameTables(Run(calls).relations, TextTable(calls)) <==> NoClash(Run(calls).relations.Keys)
  {
    hide Run, TextTable, SameTables, Injective, NoClash, Formatted, FreshIds, OneLength, KindsGiven;
    RelationsFormatted(calls);
    InjectiveMeansNoClash(Run(calls).relations.Keys);
    TextTableIsWhole(calls);
  }

  // ----- the store that checks identities -----

  /** Upserts relation after relation, unless a text already stands for a relation of another identity. */
  function UpsertChecked(texts: map<string, Relation>, list: seq<Relation>): Option<map<string, Relation>>
    decreases |list|
  {
    if list == [] then Some(texts)
    else
      var t := TextOf(list[0].id);
      if t in texts && texts[t].id != list[0].id then None else UpsertChecked(texts[t := list[0]], list[1..])
  }

  /** The database: its relation table by text, and the state it stands for. */
  datatype Store = Store(state: State, texts: map<string, Relation>)

  /** A commit is one transaction: refused as a whole, or applied. */
  function Commits(db: Store, o: Outcome): Store {
    if !o.Committed? then db
    else
      match UpsertChecked(db.texts, o.commit.relations)
      case None => db
      case Some(texts) => Store(Apply(db.state, o), texts)
  }

  function RunStored(calls: seq<Call>): Store
    decreases |calls|
  {
    if calls == [] then Store(EMPTY, map[])
    else
      var db, last := RunStored(calls[..|calls| - 1]), calls[|calls| - 1];
      Commits(db, Decide(db.state.bindings, last.active, last.command))
  }

  ghost predicate FreshStoredIds(calls: seq<Call>) {
    forall k :: 0 <= k < |calls| && calls[k].command.Create? ==> calls[k].command.id !in RunStored(calls[..k]).state.bindings
  }

  /** The table by texts is whole, and tells relations apart. */
  ghost predicate Whole(relations: map<RelationId, Relation>, texts: map<string, Relation>) {
    Keyed(relations) && SameTables(relations, texts) && Injective(relations.Keys)
  }

  /** Relations are refused exactly when, once stored, their texts would not tell them apart; else the table stays whole. */
  lemma {:induction false} RefusedExactly(relations: map<RelationId, Relation>, texts: map<string, Relation>, list: seq<Relation>)
    requires Whole(relations, texts)
    ensures UpsertChecked(texts, list).None? <==> !Injective(Upsert(relations, list).Keys)
    ensures UpsertChecked(texts, list).Some? ==> Whole(Upsert(relations, list), UpsertChecked(texts, list).value)
    decreases |list|
  {
    hide TextOf, Whole, Injective;
    if list == [] {
      assert Whole(relations, texts) ==> Injective(relations.Keys) by { WholeSeparates(relations, texts); }
    } else {
      var relations' := relations[list[0].id := list[0]];
      UpsertGrows(relations', list[1..]);
      OneRefused(relations, texts, list[0]);
      if Injective(relations'.Keys) {
        RefusedExactly(relations', texts[TextOf(list[0].id) := list[0]], list[1..]);
      } else {
        MoreStillClash(relations'.Keys, Upsert(relations, list).Keys);
      }
    }
  }

  lemma WholeSeparates(relations: map<RelationId, Relation>, texts: map<string, Relation>)
    requires Whole(relations, texts)
    ensures Injective(relations.Keys)
  {
  }

  lemma MoreStillClash(ids: set<RelationId>, more: set<RelationId>)
    requires ids <= more && !Injective(ids)
    ensures !Injective(more)
  {
    hide TextOf;
  }

  lemma OneRefused(relations: map<RelationId, Relation>, texts: map<string, Relation>, relation: Relation)
    requires Whole(relations, texts)
    ensures var t := TextOf(relation.id);
            && (t in texts && texts[t].id != relation.id <==> !Injective(relations[relation.id := relation].Keys))
            && (Injective(relations[relation.id := relation].Keys) ==> Whole(relations[relation.id := relation], texts[t := relation]))
  {
    hide TextOf;
    var t, relations' := TextOf(relation.id), relations[relation.id := relation];
    if t in texts && texts[t].id != relation.id {
      var r :| r in relations && TextOf(r) == t;
      assert texts[t] == relations[r];
      assert r in relations' && relation.id in relations';
    } else {
      forall r, q | r in relations' && q in relations' && TextOf(r) == TextOf(q) ensures r == q {
        if r == relation.id && q in relations { assert texts[TextOf(q)] == relations[q]; }
        if q == relation.id && r in relations { assert texts[TextOf(r)] == relations[r]; }
      }
    }
    if Injective(relations'.Keys) {
      UpsertAgrees(relations, texts, relation);
    }
  }

  /** Over any calls to the checking store, the invariant holds of the state its table stands for, and the table is whole. */
  lemma {:induction false} StoredRunsKeepInvariant(calls: seq<Call>)
    requires FreshStoredIds(calls)
    ensures Invariant(RunStored(calls).state) && Whole(RunStored(calls).state.relations, RunStored(calls).texts)
    decreases |calls|
  {
    hide Invariant, Whole, Decide, BindingCommit, Upsert, UpsertChecked, Advances, Sane, Unique, NoRepeats;
    if calls == [] {
      EmptyInvariant();
      EmptyWhole();
    } else {
      var front, last := calls[..|calls| - 1], calls[|calls| - 1];
      assert forall k :: 0 <= k < |front| ==> front[..k] == calls[..k] && front[k] == calls[k];
      StoredRunsKeepInvariant(front);
      var db := RunStored(front);
      var o := Decide(db.state.bindings, last.active, last.command);
      UniqueSane(db.state);
      assert front == calls[..|front|];
      if o.Committed? && UpsertChecked(db.texts, o.commit.relations).Some? {
        DecisionsAdvance(db.state.bindings, last.active, last.command);
        var previous, b, at :| Advances(db.state.bindings, previous, b, at) && o.commit == BindingCommit(previous, b, at);
        CommitKeepsInvariant(db.state, previous, b, at);
        RefusedExactly(db.state.relations, db.texts, o.commit.relations);
      }
    }
  }

  lemma EmptyWhole()
    ensures Whole(EMPTY.relations, map[])
  {
  }

  /** The store refuses a commit exactly when the binding's new endpoints overlap with endpoints it once joined by that kind. */
  lemma StoreRefusesOverlap(s: State, texts: map<string, Relation>, previous: Option<Binding>, b: Binding, at: int)
    requires Invariant(s) && Whole(s.relations, texts) && Advances(s.bindings, previous, b, at)
    requires Formatted(s.relations.Keys + {RelationIdOf(b)})
    ensures UpsertChecked(texts, BindingCommit(previous, b, at).relations).None?
       <==> exists r :: r in s.relations && Clash(r, RelationIdOf(b))
  {
    hide Whole, Clash, Formatted, BindingCommit, Upsert, UpsertChecked, TextOf, Invariant, RelationsAfter, Injective;
    RefusedExactly(s.relations, texts, BindingCommit(previous, b, at).relations);
    CommitRelations(s.relations, previous, b, at);
    FormerStored(s, previous, b, at);
    StoredKeys(s.relations, previous, b, at);
    var ids := s.relations.Keys + {RelationIdOf(b)};
    assert Upsert(s.relations, BindingCommit(previous, b, at).relations).Keys == ids;
    WholeSeparates(s.relations, texts);
    OneMoreClashes(s.relations.Keys, RelationIdOf(b));
  }

  lemma FormerStored(s: State, previous: Option<Binding>, b: Binding, at: int)
    requires Invariant(s) && Advances(s.bindings, previous, b, at)
    ensures previous.Some? ==> RelationIdOf(previous.value) in s.relations
  {
  }

  lemma StoredKeys(relations: map<RelationId, Relation>, previous: Option<Binding>, b: Binding, at: int)
    requires previous.Some? ==> RelationIdOf(previous.value) in relations
    ensures RelationsAfter(relations, previous, b, at).Keys == relations.Keys + {RelationIdOf(b)}
  {
  }

  lemma OneMoreClashes(ids: set<RelationId>, id: RelationId)
    requires Injective(ids) && Formatted(ids + {id})
    ensures !Injective(ids + {id}) <==> exists r :: r in ids && Clash(r, id)
  {
    hide Clash, TextOf;
    var all := ids + {id};
    NoSelfClash(id);
    forall r | r in ids ensures TextOf(r) == TextOf(id) <==> r == id || Clash(r, id) {
      assert r in all && id in all;
      TextsClash(r, id);
    }
    if r :| r in ids && Clash(r, id) {
      assert r in all && id in all && r != id;
    }
  }

  /** Version texts of the checking store never repeat. */
  lemma {:induction false} StoredVersionsDiffer(calls: seq<Call>)
    requires FreshStoredIds(calls) && OneLength(RunStored(calls).state.bindings)
    ensures VersionsDiffer(RunStored(calls).state.versions)
    decreases |calls|
  {
    hide Invariant, Whole, Decide, BindingCommit, Upsert, UpsertChecked, Advances, Sane, Unique, NoRepeats, OneLength, VersionsDiffer;
    if calls == [] {
      NoVersions();
    } else {
      var front, last := calls[..|calls| - 1], calls[|calls| - 1];
      assert forall k :: 0 <= k < |front| ==> front[..k] == calls[..k] && front[k] == calls[k];
      var db := RunStored(front);
      var o := Decide(db.state.bindings, last.active, last.command);
      StoredRunsKeepInvariant(front);
      UniqueSane(db.state);
      assert front == calls[..|front|];
      FewerOfOneLength(db.state.bindings, RunStored(calls).state.bindings);
      StoredVersionsDiffer(front);
      if o.Committed? && UpsertChecked(db.texts, o.commit.relations).Some? {
        DecisionsAdvance(db.state.bindings, last.active, last.command);
        var previous, b, at :| Advances(db.state.bindings, previous, b, at) && o.commit == BindingCommit(previous, b, at);
        CommitOf(previous, b, at);
        RefusedExactly(db.state.relations, db.texts, o.commit.relations);
        WholeSeparates(Upsert(db.state.relations, o.commit.relations), UpsertChecked(db.texts, o.commit.relations).value);
        CommitRelations(db.state.relations, previous, b, at);
        StoredCommitVersions(db.state, previous, b, at);
      }
    }
  }

  lemma StoredCommitVersions(s: State, previous: Option<Binding>, b: Binding, at: int)
    requires NoRepeats(s) && Advances(s.bindings, previous, b, at) && OneLength(s.bindings[b.id := b]) && VersionsDiffer(s.versions)
    requires Injective(RelationsAfter(s.relations, previous, b, at).Keys)
    ensures VersionsDiffer(s.versions + BindingCommit(previous, b, at).versions)
  {
    hide TextOf, BindingChanges, Duplicated;
    var c := BindingCommit(previous, b, at);
    var all := s.versions + c.versions;
    assert forall i :: 0 <= i < |c.versions| ==> c.versions[i].relation.bindingId == b.id && c.versions[i].at == at;
    forall i, j | 0 <= i < |s.versions| && |s.versions| <= j < |all| ensures !SameVersion(all[i], all[j]) {
      EarlierVersion(s, previous, b, at, i, all[j]);
    }
    assert forall i :: 0 <= i < |s.versions| ==> all[i] == s.versions[i];
    assert |c.versions| == 2 ==> c.versions[0].relation in RelationsAfter(s.relations, previous, b, at) && c.versions[1].relation in RelationsAfter(s.relations, previous, b, at);
  }
}
