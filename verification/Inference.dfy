/** Materialization of inferred relations: every run of a rule replaces exactly that rule's relations. */
module Inference {
  import opened Wrappers
  import opened Ordering
  import opened Text

  // ----- candidates -----

  datatype Candidate = Candidate(source: Id, target: Id, kind: Id, resourceInputs: seq<Id>, relationInputs: seq<Id>, confidence: nat)

  datatype InferenceError = Invalid | RuleNotRegistered | InputVersionMissing | CandidateLimit | ConflictingOutput

  const MAX_INFERENCE_CANDIDATES := 1_000

  /** What a run may refer to: active resources and recorded versions. */
  datatype World = World(activeResources: set<Id>, resourceVersions: set<Id>, relationVersions: set<Id>)

  function Elements(s: seq<Id>): set<Id> { set x | x in s }

  /** Sorted and without repetition. */
  function SortDedup(s: seq<Id>): (r: seq<Id>)
    ensures Elements(r) == Elements(s)
  {
    IdOrder();
    Listing(Elements(s), IdLess)
  }

  function NormalizeCandidate(c: Candidate): Result<Candidate, InferenceError> {
    if c.source == c.target then Err(Invalid)
    else if c.resourceInputs == [] && c.relationInputs == [] then Err(Invalid)
    else Ok(c.(resourceInputs := SortDedup(c.resourceInputs), relationInputs := SortDedup(c.relationInputs)))
  }

  predicate InputsExist(w: World, c: Candidate) {
    && c.source in w.activeResources && c.target in w.activeResources
    && (forall x :: x in c.resourceInputs ==> x in w.resourceVersions)
    && (forall x :: x in c.relationInputs ==> x in w.relationVersions)
  }

  /** A candidate as the run uses it: normalized, its endpoints active and its inputs recorded. */
  function Admit(w: World, c: Candidate): Result<Candidate, InferenceError> {
    match NormalizeCandidate(c)
    case Err(e) => Err(e)
    case Ok(n) => if InputsExist(w, n) then Ok(n) else Err(InputVersionMissing)
  }

  // ----- relations -----

  datatype Lifecycle = Active | Tombstoned | Orphaned

  datatype Evidence = Inferred(rule: Id, resourceInputs: seq<Id>, relationInputs: seq<Id>, confidence: nat) | NotInferred

  /** Identity of a relation; the digest in an inferred id stands for the fields it is taken of. */
  datatype RelationId =
    | InferredId(rule: Id, source: Id, target: Id, kind: Id, resourceInputs: seq<Id>, relationInputs: seq<Id>)
    | OtherId(text: string)

  datatype Relation = Relation(id: RelationId, source: Id, target: Id, kind: Id, evidence: Evidence,
                               firstSeenAt: int, lastSeenAt: int, lifecycle: Lifecycle)

  type Table = map<RelationId, Relation>

  function CandidateId(rule: Id, c: Candidate): RelationId {
    InferredId(rule, c.source, c.target, c.kind, c.resourceInputs, c.relationInputs)
  }

  function InferredRelation(rule: Id, c: Candidate, at: int, existing: Table): Relation {
    var id := CandidateId(rule, c);
    Relation(id, c.source, c.target, c.kind, Inferred(rule, c.resourceInputs, c.relationInputs, c.confidence),
             if id in existing then existing[id].firstSeenAt else at, at, Active)
  }

  /** The stored relations of a rule, whatever their lifecycle. */
  function RelationsForRule(table: Table, rule: Id): Table {
    map id | id in table && table[id].evidence.Inferred? && table[id].evidence.rule == rule :: table[id]
  }

  // ----- a run -----

  /** The relations of the candidates so far; the first candidate that fails, or contradicts an earlier one, decides the error. */
  function Produce(w: World, rule: Id, list: seq<Candidate>, at: int, existing: Table): Result<Table, InferenceError> {
    if list == [] then Ok(map[])
    else
      match Produce(w, rule, list[..|list| - 1], at, existing)
      case Err(e) => Err(e)
      case Ok(produced) =>
        match Admit(w, list[|list| - 1])
        case Err(e) => Err(e)
        case Ok(c) =>
          var r := InferredRelation(rule, c, at, existing);
          if r.id in produced && produced[r.id] != r then Err(ConflictingOutput) else Ok(produced[r.id := r])
  }

  function Buried(produced: Table, existing: Table, at: int): Table {
    map id | id in existing && id !in produced && existing[id].lifecycle != Tombstoned ::
      existing[id].(lifecycle := Tombstoned, lastSeenAt := at)
  }

  /** What a version or a change shows of a relation: everything but its times. */
  datatype Snapshot = Snapshot(source: Id, target: Id, kind: Id, evidence: Evidence, lifecycle: Lifecycle)

  function SnapshotOf(r: Relation): Snapshot { Snapshot(r.source, r.target, r.kind, r.evidence, r.lifecycle) }

  datatype Origin = Origin(rule: Id, resourceInputs: seq<Id>, relationInputs: seq<Id>)

  function OriginOf(e: Evidence): Option<Origin> {
    match e
    case Inferred(rule, resourceInputs, relationInputs, _) => Some(Origin(rule, resourceInputs, relationInputs))
    case NotInferred => None
  }

  /** The ids of versions and changes are formed of relation and time. */
  datatype Version = Version(relation: RelationId, at: int, snapshot: Snapshot, origin: Option<Origin>)

  datatype Change = Change(relation: RelationId, at: int, before: Option<Snapshot>, after: Snapshot, origin: Option<Origin>)

  datatype Emission = Emission(version: Version, change: Change)

  /** What a run hands to the store: relations to upsert, and a version and a change for each that differs from what is stored. */
  datatype Commit = Commit(rule: Id, at: int, outputs: set<RelationId>, resourceInputs: set<Id>, relationInputs: set<Id>,
                           relations: Table, emitted: map<RelationId, Emission>)

  function Emit(previous: Option<Relation>, r: Relation, at: int): Emission {
    Emission(Version(r.id, at, SnapshotOf(r), OriginOf(r.evidence)),
             Change(r.id, at, if previous.Some? then Some(SnapshotOf(previous.value)) else None, SnapshotOf(r), OriginOf(r.evidence)))
  }

  function Emitted(relations: Table, existing: Table, at: int): map<RelationId, Emission> {
    map id | id in relations && !(id in existing && existing[id] == relations[id]) ::
      Emit(if id in existing then Some(existing[id]) else None, relations[id], at)
  }

  function AdmittedSet(w: World, list: seq<Candidate>): set<Candidate> {
    set i | 0 <= i < |list| && Admit(w, list[i]).Ok? :: Admit(w, list[i]).value
  }

  function ResourceInputs(candidates: set<Candidate>): set<Id> { set c, x | c in candidates && x in c.resourceInputs :: x }

  function RelationInputs(candidates: set<Candidate>): set<Id> { set c, x | c in candidates && x in c.relationInputs :: x }

  function Plan(w: World, registered: set<Id>, table: Table, rule: Id, list: seq<Candidate>, at: int): Result<Commit, InferenceError> {
    if rule !in registered then Err(RuleNotRegistered)
    else if |list| > MAX_INFERENCE_CANDIDATES then Err(CandidateLimit)
    else
      var existing := RelationsForRule(table, rule);
      match Produce(w, rule, list, at, existing)
      case Err(e) => Err(e)
      case Ok(produced) =>
        var relations := produced + Buried(produced, existing, at);
        var admitted := AdmittedSet(w, list);
        Ok(Commit(rule, at, produced.Keys, ResourceInputs(admitted), RelationInputs(admitted), relations, Emitted(relations, existing, at)))
  }

  /** The engine over its store. */
  class InferenceEngine {
    const registered: set<Id>
    var table: Table
    var commits: seq<Commit>

    constructor (registered: set<Id>, table: Table)
      ensures this.registered == registered && this.table == table && commits == []
    {
      this.registered, this.table, commits := registered, table, [];
    }

    /** A failed run changes nothing; a successful one upserts the planned relations and records the commit. */
    method Run(w: World, rule: Id, candidates: seq<Candidate>, at: int) returns (r: Result<Commit, InferenceError>)
      modifies this
      ensures r == Plan(w, registered, old(table), rule, candidates, at)
      ensures table == (if r.Ok? then old(table) + r.value.relations else old(table))
      ensures commits == (if r.Ok? then old(commits) + [r.value] else old(commits))
    {
      if rule !in registered { return Err(RuleNotRegistered); }
      if |candidates| > MAX_INFERENCE_CANDIDATES { return Err(CandidateLimit); }
      var existing := RelationsForRule(table, rule);
      var answer := ProduceCandidates(w, rule, candidates, at, existing);
      if answer.Err? { return Err(answer.error); }
      var (produced, resourceInputs, relationInputs) := answer.value;
      var relations := produced + Buried(produced, existing, at);
      var commit := Commit(rule, at, produced.Keys, resourceInputs, relationInputs, relations, Emitted(relations, existing, at));
      table := table + relations;
      commits := commits + [commit];
      r := Ok(commit);
    }
  }

  /** The loop over the candidates: relations by id, and all inputs seen. */
  method ProduceCandidates(w: World, rule: Id, candidates: seq<Candidate>, at: int, existing: Table)
    returns (r: Result<(Table, set<Id>, set<Id>), InferenceError>)
    ensures r == match Produce(w, rule, candidates, at, existing)
                 case Err(e) => Err(e)
                 case Ok(produced) =>
                   Ok((produced, ResourceInputs(AdmittedSet(w, candidates)), RelationInputs(AdmittedSet(w, candidates))))
  {
    hide Admit, InferredRelation, AdmittedSet, ResourceInputs, RelationInputs;
    var produced: Table, resourceInputs, relationInputs := map[], {}, {};
    NoInputs(w);
    for i := 0 to |candidates|
      invariant Produce(w, rule, candidates[..i], at, existing) == Ok(produced)
      invariant resourceInputs == ResourceInputs(AdmittedSet(w, candidates[..i]))
      invariant relationInputs == RelationInputs(AdmittedSet(w, candidates[..i]))
    {
      assert candidates[..i + 1][..i] == candidates[..i];
      var admitted := Admit(w, candidates[i]);
      if admitted.Err? {
        ErrorStays(w, rule, candidates, i + 1, at, existing);
        return Err(admitted.error);
      }
      var c := admitted.value;
      InputsSnoc(w, candidates, i);
      resourceInputs := resourceInputs + Elements(c.resourceInputs);
      relationInputs := relationInputs + Elements(c.relationInputs);
      var relation := InferredRelation(rule, c, at, existing);
      if relation.id in produced && produced[relation.id] != relation {
        ErrorStays(w, rule, candidates, i + 1, at, existing);
        return Err(ConflictingOutput);
      }
      produced := produced[relation.id := relation];
    }
    assert candidates[..|candidates|] == candidates;
    r := Ok((produced, resourceInputs, relationInputs));
  }

  lemma NoInputs(w: World)
    ensures ResourceInputs(AdmittedSet(w, [])) == {} && RelationInputs(AdmittedSet(w, [])) == {}
  {
  }

  lemma InputsSnoc(w: World, list: seq<Candidate>, i: nat)
    requires i < |list| && Admit(w, list[i]).Ok?
    ensures var c := Admit(w, list[i]).value;
            && ResourceInputs(AdmittedSet(w, list[..i + 1])) == ResourceInputs(AdmittedSet(w, list[..i])) + Elements(c.resourceInputs)
            && RelationInputs(AdmittedSet(w, list[..i + 1])) == RelationInputs(AdmittedSet(w, list[..i])) + Elements(c.relationInputs)
  {
    hide Admit, AdmittedSet;
    AdmittedSnoc(w, list, i);
  }

  lemma AdmittedSnoc(w: World, list: seq<Candidate>, i: nat)
    requires i < |list| && Admit(w, list[i]).Ok?
    ensures AdmittedSet(w, list[..i + 1]) == AdmittedSet(w, list[..i]) + {Admit(w, list[i]).value}
  {
    hide Admit;
    assert forall j :: 0 <= j < i ==> list[..i + 1][j] == list[..i][j];
    assert list[..i + 1][i] == list[i];
  }

  lemma {:induction false} ErrorStays(w: World, rule: Id, list: seq<Candidate>, i: nat, at: int, existing: Table)
    requires i <= |list| && Produce(w, rule, list[..i], at, existing).Err?
    ensures Produce(w, rule, list, at, existing) == Produce(w, rule, list[..i], at, existing)
    decreases |list| - i
  {
    hide Admit, InferredRelation;
    if i == |list| {
      assert list[..i] == list;
    } else {
      assert list[..i + 1][..i] == list[..i];
      ErrorStays(w, rule, list, i + 1, at, existing);
    }
  }

  // ----- what a run produces -----

  /** Every candidate is admitted, and candidates of one identity agree on their confidence. */
  ghost predicate Consistent(w: World, rule: Id, list: seq<Candidate>) {
    && (forall i :: 0 <= i < |list| ==> Admit(w, list[i]).Ok?)
    && (forall c, d :: c in AdmittedSet(w, list) && d in AdmittedSet(w, list) && CandidateId(rule, c) == CandidateId(rule, d) ==> c == d)
  }

  /** The produced table holds exactly the relations of these candidates. */
  ghost predicate Produces(rule: Id, candidates: set<Candidate>, at: int, existing: Table, produced: Table) {
    && (forall c :: c in candidates ==>
          CandidateId(rule, c) in produced && produced[CandidateId(rule, c)] == InferredRelation(rule, c, at, existing))
    && (forall id :: id in produced ==> exists c :: c in candidates && CandidateId(rule, c) == id)
  }

  /** A list succeeds exactly when it is consistent, and then yields one relation per candidate identity. */
  lemma {:induction false} ProduceIsExact(w: World, rule: Id, list: seq<Candidate>, at: int, existing: Table)
    ensures Produce(w, rule, list, at, existing).Ok? <==> Consistent(w, rule, list)
    ensures Produce(w, rule, list, at, existing).Ok? ==>
              Produces(rule, AdmittedSet(w, list), at, existing, Produce(w, rule, list, at, existing).value)
  {
    hide Admit;
    if list != [] {
      var front, n := list[..|list| - 1], |list| - 1;
      ProduceIsExact(w, rule, front, at, existing);
      assert list[..n + 1] == list && list[..n] == front;
      if Consistent(w, rule, list) {
        ConsistentFront(w, rule, list);
      }
      if Produce(w, rule, front, at, existing).Ok? && Admit(w, list[n]).Ok? {
        AdmittedSnoc(w, list, n);
        LastProduced(w, rule, list, at, existing, Produce(w, rule, front, at, existing).value);
      }
    }
  }

  lemma ConsistentFront(w: World, rule: Id, list: seq<Candidate>)
    requires list != [] && Consistent(w, rule, list)
    ensures Consistent(w, rule, list[..|list| - 1]) && Admit(w, list[|list| - 1]).Ok?
  {
    hide Admit;
    var n := |list| - 1;
    assert list[..n + 1] == list;
    AdmittedSnoc(w, list, n);
  }

  lemma LastProduced(w: World, rule: Id, list: seq<Candidate>, at: int, existing: Table, produced: Table)
    requires list != [] && Consistent(w, rule, list[..|list| - 1]) && Admit(w, list[|list| - 1]).Ok?
    requires Produces(rule, AdmittedSet(w, list[..|list| - 1]), at, existing, produced)
    ensures var r := InferredRelation(rule, Admit(w, list[|list| - 1]).value, at, existing);
            && (Consistent(w, rule, list) <==> !(r.id in produced && produced[r.id] != r))
            && (Consistent(w, rule, list) ==> Produces(rule, AdmittedSet(w, list), at, existing, produced[r.id := r]))
  {
    hide Admit;
    var front, n := list[..|list| - 1], |list| - 1;
    var c := Admit(w, list[n]).value;
    var r := InferredRelation(rule, c, at, existing);
    var earlier := AdmittedSet(w, front);
    assert list[..n + 1] == list;
    AdmittedSnoc(w, list, n);
    assert AdmittedSet(w, list) == earlier + {c};
    if r.id in produced {
      var d :| d in earlier && CandidateId(rule, d) == r.id;
      assert produced[r.id] == InferredRelation(rule, d, at, existing);
      assert produced[r.id] == r <==> d == c;
    }
  }

  // ----- one run refreshes one rule -----

  /** Stored relations carry their own id, and an inferred id names the rule of its evidence. */
  ghost predicate WellFormed(table: Table) {
    forall id :: id in table ==>
      && table[id].id == id
      && (id.InferredId? <==> table[id].evidence.Inferred?)
      && (id.InferredId? ==> table[id].evidence.rule == id.rule)
  }

  predicate OfRule(id: RelationId, rule: Id) { id.InferredId? && id.rule == rule }

  /** After a run, the rule's active relations are its outputs, its others are tombstoned, and nothing else moved;
      every relation keeps the time it was first seen. */
  ghost predicate Refreshes(table: Table, c: Commit, table': Table) {
    && table'.Keys == table.Keys + c.outputs
    && (forall id :: id in c.outputs ==> OfRule(id, c.rule) && table'[id].lifecycle == Active && table'[id].lastSeenAt == c.at)
    && (forall id :: id in table && OfRule(id, c.rule) && id !in c.outputs ==> table'[id].lifecycle == Tombstoned)
    && (forall id :: id in table && !OfRule(id, c.rule) ==> table'[id] == table[id])
    && (forall id :: id in table && OfRule(id, c.rule) && id !in c.outputs ==>
          table'[id] == table[id].(lifecycle := Tombstoned, lastSeenAt := table'[id].lastSeenAt)
          && table'[id].lastSeenAt == (if table[id].lifecycle == Tombstoned then table[id].lastSeenAt else c.at))
    && (forall id :: id in table' ==> table'[id].firstSeenAt == if id in table then table[id].firstSeenAt else c.at)
  }

  lemma RunRefreshes(w: World, registered: set<Id>, table: Table, rule: Id, list: seq<Candidate>, at: int)
    requires WellFormed(table) && Plan(w, registered, table, rule, list, at).Ok?
    ensures var c := Plan(w, registered, table, rule, list, at).value;
            && WellFormed(table + c.relations) && Refreshes(table, c, table + c.relations)
            && c.rule == rule && c.at == at
            && c.outputs == set n | n in AdmittedSet(w, list) :: CandidateId(rule, n)
    ensures forall i :: 0 <= i < |list| ==> Admit(w, list[i]).Ok?
  {
    hide Admit, AdmittedSet, Emitted;
    var existing := RelationsForRule(table, rule);
    ProduceIsExact(w, rule, list, at, existing);
    var produced := Produce(w, rule, list, at, existing).value;
    assert produced.Keys == set n | n in AdmittedSet(w, list) :: CandidateId(rule, n);
    ProducedRelations(AdmittedSet(w, list), rule, at, existing, produced);
    MergeRefreshes(table, rule, at, produced);
  }

  lemma ProducedRelations(candidates: set<Candidate>, rule: Id, at: int, existing: Table, produced: Table)
    requires Produces(rule, candidates, at, existing, produced)
    ensures forall id :: id in produced ==>
              && OfRule(id, rule) && produced[id].id == id && produced[id].lifecycle == Active && produced[id].lastSeenAt == at
              && produced[id].evidence.Inferred? && produced[id].evidence.rule == rule
              && produced[id].firstSeenAt == if id in existing then existing[id].firstSeenAt else at
  {
  }

  lemma MergeRefreshes(table: Table, rule: Id, at: int, produced: Table)
    requires WellFormed(table)
    requires forall id :: id in produced ==>
              && OfRule(id, rule) && produced[id].id == id && produced[id].lifecycle == Active && produced[id].lastSeenAt == at
              && produced[id].evidence.Inferred? && produced[id].evidence.rule == rule
              && produced[id].firstSeenAt == var existing := RelationsForRule(table, rule); if id in existing then existing[id].firstSeenAt else at
    ensures var relations := produced + Buried(produced, RelationsForRule(table, rule), at);
            WellFormed(table + relations)
            && forall c: Commit :: c.rule == rule && c.at == at && c.outputs == produced.Keys ==> Refreshes(table, c, table + relations)
  {
    MergedAt(table, rule, at, produced);
    hide RelationsForRule, Buried;
    var merged := table + (produced + Buried(produced, RelationsForRule(table, rule), at));
    assert WellFormed(merged);
    hide WellFormed;
  }

  /** Each relation of the table after a run: produced, buried, or as it was. */
  lemma MergedAt(table: Table, rule: Id, at: int, produced: Table)
    requires WellFormed(table)
    ensures var existing := RelationsForRule(table, rule);
            var merged := table + (produced + Buried(produced, existing, at));
            && merged.Keys == table.Keys + produced.Keys
            && (forall id :: id in existing ==> id in table && existing[id] == table[id])
            && (forall id :: id in existing <==> id in table && OfRule(id, rule))
            && (forall id :: id in merged ==>
                  merged[id] == if id in produced then produced[id]
                                else if OfRule(id, rule) && table[id].lifecycle != Tombstoned then table[id].(lifecycle := Tombstoned, lastSeenAt := at)
                                else table[id])
  {
  }

  // ----- what is stored, by the fields of the candidates -----

  /** Why a candidate is refused, and what it is when it is not: the same but for the order and repetition of its inputs. */
  lemma AdmitMeans(w: World, c: Candidate)
    ensures Admit(w, c) == Err(Invalid) <==> c.source == c.target || (c.resourceInputs == [] && c.relationInputs == [])
    ensures Admit(w, c) == Err(InputVersionMissing)
       <==> && !(c.source == c.target || (c.resourceInputs == [] && c.relationInputs == []))
            && !(&& c.source in w.activeResources && c.target in w.activeResources
                 && (forall i :: 0 <= i < |c.resourceInputs| ==> c.resourceInputs[i] in w.resourceVersions)
                 && (forall i :: 0 <= i < |c.relationInputs| ==> c.relationInputs[i] in w.relationVersions))
    ensures Admit(w, c).Err? ==> Admit(w, c).error == Invalid || Admit(w, c).error == InputVersionMissing
    ensures Admit(w, c).Ok? ==>
      var n := Admit(w, c).value;
      && n.source == c.source && n.target == c.target && n.kind == c.kind && n.confidence == c.confidence
      && SortedFrom(n.resourceInputs, c.resourceInputs) && SortedFrom(n.relationInputs, c.relationInputs)
  {
    SortedElements(c.resourceInputs);
    SortedElements(c.relationInputs);
    hide IdLess, SortDedup;
  }

  /** The same ids, in ascending order, each once. */
  ghost predicate SortedFrom(sorted: seq<Id>, ids: seq<Id>) {
    Ascending(sorted, IdLess) && forall x :: x in sorted <==> x in ids
  }

  lemma SortedElements(ids: seq<Id>)
    ensures SortedFrom(SortDedup(ids), ids)
    ensures forall x :: x in SortDedup(ids) <==> x in ids
    ensures forall i :: 0 <= i < |ids| ==> ids[i] in SortDedup(ids)
  {
    IdOrder();
  }

  /** A stored relation is that of a candidate: its direction, kind, confidence and inputs, active and seen now. */
  ghost predicate StoresCandidate(r: Relation, rule: Id, c: Candidate, at: int) {
    && r.source == c.source && r.target == c.target && r.kind == c.kind && r.lifecycle == Active && r.lastSeenAt == at
    && r.evidence.Inferred? && r.evidence.rule == rule && r.evidence.confidence == c.confidence
    && SortedFrom(r.evidence.resourceInputs, c.resourceInputs) && SortedFrom(r.evidence.relationInputs, c.relationInputs)
  }

  ghost predicate StoredAmong(outputs: set<RelationId>, table: Table, rule: Id, c: Candidate, at: int) {
    exists id :: id in outputs && id in table && StoresCandidate(table[id], rule, c, at)
  }

  ghost predicate OfSomeCandidate(r: Relation, rule: Id, list: seq<Candidate>, at: int) {
    exists i :: 0 <= i < |list| && StoresCandidate(r, rule, list[i], at)
  }

  /** After a successful run the table stores each of its candidates under some output, each output stores one of them, and the
      recorded inputs are theirs. */
  lemma CandidatesAreStored(w: World, registered: set<Id>, table: Table, rule: Id, list: seq<Candidate>, at: int)
    requires WellFormed(table) && Plan(w, registered, table, rule, list, at).Ok?
    ensures var c := Plan(w, registered, table, rule, list, at).value;
            var table' := table + c.relations;
            && (forall i :: 0 <= i < |list| ==> StoredAmong(c.outputs, table', rule, list[i], at))
            && (forall id :: id in c.outputs ==> id in table' && OfSomeCandidate(table'[id], rule, list, at))
            && (forall x :: x in c.resourceInputs <==> exists i :: 0 <= i < |list| && x in list[i].resourceInputs)
            && (forall x :: x in c.relationInputs <==> exists i :: 0 <= i < |list| && x in list[i].relationInputs)
  {
    hide Admit, Emitted, StoresCandidate, StoredAmong, OfSomeCandidate, WellFormed, RelationsForRule, Buried, Produce;
    var existing := RelationsForRule(table, rule);
    ProduceIsExact(w, rule, list, at, existing);
    var produced := Produce(w, rule, list, at, existing).value;
    forall i | 0 <= i < |list| ensures StoredAmong(produced.Keys, table + (produced + Buried(produced, existing, at)), rule, list[i], at) {
      CandidateStored(w, rule, list, at, existing, produced, i);
      InMerged(table, produced, existing, at, CandidateId(rule, Admit(w, list[i]).value));
    }
    forall id | id in produced ensures id in table + (produced + Buried(produced, existing, at))
                                    && OfSomeCandidate((table + (produced + Buried(produced, existing, at)))[id], rule, list, at) {
      InMerged(table, produced, existing, at, id);
      OutputOf(w, rule, list, at, existing, produced, id);
    }
    InputsOf(w, list);
  }

  lemma InMerged(table: Table, produced: Table, existing: Table, at: int, id: RelationId)
    requires id in produced
    ensures var merged := table + (produced + Buried(produced, existing, at)); id in merged && merged[id] == produced[id]
    ensures forall rule, c, t :: StoresCandidate(produced[id], rule, c, t) ==>
              StoredAmong(produced.Keys, table + (produced + Buried(produced, existing, at)), rule, c, t)
  {
    hide StoresCandidate;
  }

  lemma CandidateStored(w: World, rule: Id, list: seq<Candidate>, at: int, existing: Table, produced: Table, i: nat)
    requires Produces(rule, AdmittedSet(w, list), at, existing, produced) && i < |list| && Admit(w, list[i]).Ok?
    ensures CandidateId(rule, Admit(w, list[i]).value) in produced
    ensures StoresCandidate(produced[CandidateId(rule, Admit(w, list[i]).value)], rule, list[i], at)
  {
    AdmitMeans(w, list[i]);
    hide Admit, IdLess, Ascending;
    assert Admit(w, list[i]).value in AdmittedSet(w, list);
  }

  lemma OutputOf(w: World, rule: Id, list: seq<Candidate>, at: int, existing: Table, produced: Table, id: RelationId)
    requires Produces(rule, AdmittedSet(w, list), at, existing, produced) && id in produced
    ensures OfSomeCandidate(produced[id], rule, list, at)
  {
    hide Admit, StoresCandidate;
    var c :| c in AdmittedSet(w, list) && CandidateId(rule, c) == id;
    var i :| 0 <= i < |list| && Admit(w, list[i]).Ok? && Admit(w, list[i]).value == c;
    CandidateStored(w, rule, list, at, existing, produced, i);
  }

  lemma InputsOf(w: World, list: seq<Candidate>)
    requires forall i :: 0 <= i < |list| ==> Admit(w, list[i]).Ok?
    ensures forall x :: x in ResourceInputs(AdmittedSet(w, list)) <==> exists i :: 0 <= i < |list| && x in list[i].resourceInputs
    ensures forall x :: x in RelationInputs(AdmittedSet(w, list)) <==> exists i :: 0 <= i < |list| && x in list[i].relationInputs
  {
    forall i | 0 <= i < |list|
      ensures forall x :: x in Admit(w, list[i]).value.resourceInputs <==> x in list[i].resourceInputs
      ensures forall x :: x in Admit(w, list[i]).value.relationInputs <==> x in list[i].relationInputs
    {
      AdmitMeans(w, list[i]);
    }
    hide Admit;
  }

  /** Stored inferred relations have the direction, kind and inputs their ids name. */
  ghost predicate Named(table: Table) {
    forall id :: id in table && id.InferredId? ==>
      && table[id].source == id.source && table[id].target == id.target && table[id].kind == id.kind
      && table[id].evidence.Inferred? && table[id].evidence.rule == id.rule
      && table[id].evidence.resourceInputs == id.resourceInputs && table[id].evidence.relationInputs == id.relationInputs
  }

  lemma RunKeepsNamed(w: World, registered: set<Id>, table: Table, rule: Id, list: seq<Candidate>, at: int)
    requires WellFormed(table) && Named(table) && Plan(w, registered, table, rule, list, at).Ok?
    ensures Named(table + Plan(w, registered, table, rule, list, at).value.relations)
  {
    hide Admit, AdmittedSet, Emitted, WellFormed, Buried, RelationsForRule;
    var existing := RelationsForRule(table, rule);
    ProduceIsExact(w, rule, list, at, existing);
    var produced := Produce(w, rule, list, at, existing).value;
    ProducedNamed(AdmittedSet(w, list), rule, at, existing, produced);
    hide Produce, Produces, Named;
    MergeKeepsNamed(table, rule, at, produced);
  }

  lemma ProducedNamed(candidates: set<Candidate>, rule: Id, at: int, existing: Table, produced: Table)
    requires Produces(rule, candidates, at, existing, produced)
    ensures Named(produced)
  {
  }

  lemma MergeKeepsNamed(table: Table, rule: Id, at: int, produced: Table)
    requires WellFormed(table) && Named(table) && Named(produced)
    ensures Named(table + (produced + Buried(produced, RelationsForRule(table, rule), at)))
  {
    MergedAt(table, rule, at, produced);
    hide WellFormed, RelationsForRule, Buried;
  }

  // ----- which runs fail, and how -----

  /** Two candidates that stand for one relation: the same but for confidence, and the order and repetition of inputs. */
  ghost predicate OneRelation(c: Candidate, d: Candidate) {
    && c.source == d.source && c.target == d.target && c.kind == d.kind
    && (forall x :: x in c.resourceInputs <==> x in d.resourceInputs) && (forall x :: x in c.relationInputs <==> x in d.relationInputs)
  }

  lemma SameSorted(a: seq<Id>, b: seq<Id>, a': seq<Id>, b': seq<Id>)
    requires SortedFrom(a', a) && SortedFrom(b', b)
    ensures a' == b' <==> forall x :: x in a <==> x in b
  {
    IdOrder();
    if forall x :: x in a <==> x in b {
      AscendingUnique(a', b', IdLess);
    }
  }

  lemma OneIdentity(w: World, rule: Id, c: Candidate, d: Candidate)
    requires Admit(w, c).Ok? && Admit(w, d).Ok?
    ensures CandidateId(rule, Admit(w, c).value) == CandidateId(rule, Admit(w, d).value) <==> OneRelation(c, d)
    ensures OneRelation(c, d) ==> (Admit(w, c).value == Admit(w, d).value <==> c.confidence == d.confidence)
  {
    AdmitMeans(w, c);
    AdmitMeans(w, d);
    hide Admit, SortedFrom;
    SameSorted(c.resourceInputs, d.resourceInputs, Admit(w, c).value.resourceInputs, Admit(w, d).value.resourceInputs);
    SameSorted(c.relationInputs, d.relationInputs, Admit(w, c).value.relationInputs, Admit(w, d).value.relationInputs);
  }

  /** A list is consistent when every candidate is admitted and those that stand for one relation are equally confident. */
  lemma ConsistentMeans(w: World, rule: Id, list: seq<Candidate>)
    ensures Consistent(w, rule, list)
       <==> && (forall i :: 0 <= i < |list| ==> Admit(w, list[i]).Ok?)
            && forall i, j :: 0 <= i < |list| && 0 <= j < |list| && OneRelation(list[i], list[j]) ==> list[i].confidence == list[j].confidence
  {
    hide Admit, OneRelation, CandidateId;
    if forall i :: 0 <= i < |list| ==> Admit(w, list[i]).Ok? {
      forall i, j | 0 <= i < |list| && 0 <= j < |list|
        ensures CandidateId(rule, Admit(w, list[i]).value) == CandidateId(rule, Admit(w, list[j]).value) <==> OneRelation(list[i], list[j])
        ensures OneRelation(list[i], list[j]) ==> (Admit(w, list[i]).value == Admit(w, list[j]).value <==> list[i].confidence == list[j].confidence)
      {
        OneIdentity(w, rule, list[i], list[j]);
      }
      if Consistent(w, rule, list) {
        forall i, j | 0 <= i < |list| && 0 <= j < |list| && OneRelation(list[i], list[j]) ensures list[i].confidence == list[j].confidence {
          assert Admit(w, list[i]).value in AdmittedSet(w, list) && Admit(w, list[j]).value in AdmittedSet(w, list);
        }
      }
    }
  }

  /** The first candidate that fails: it is refused, or is less or more confident of a relation than one before it. */
  ghost predicate FailsAt(w: World, rule: Id, list: seq<Candidate>, i: nat, e: InferenceError)
    requires i < |list|
  {
    && Consistent(w, rule, list[..i])
    && (Admit(w, list[i]) == Err(e)
        || (e == ConflictingOutput && Admit(w, list[i]).Ok?
            && exists j :: 0 <= j < i && OneRelation(list[j], list[i]) && list[j].confidence != list[i].confidence))
  }

  lemma {:induction false} ProduceFailsFor(w: World, rule: Id, list: seq<Candidate>, at: int, existing: Table, e: InferenceError)
    ensures Produce(w, rule, list, at, existing) == Err(e) <==> exists i :: 0 <= i < |list| && FailsAt(w, rule, list, i, e)
  {
    hide FailsAt, Admit, Consistent, InferredRelation;
    if list != [] {
      var n := |list| - 1;
      var front := list[..n];
      ProduceFailsFor(w, rule, front, at, existing, e);
      forall i | 0 <= i < n ensures FailsAt(w, rule, front, i, e) <==> FailsAt(w, rule, list, i, e) {
        FailsEarlier(w, rule, list, i, e);
      }
      LastFails(w, rule, list, at, existing, e);
    }
  }

  lemma FailsEarlier(w: World, rule: Id, list: seq<Candidate>, i: nat, e: InferenceError)
    requires i < |list| - 1
    ensures FailsAt(w, rule, list[..|list| - 1], i, e) <==> FailsAt(w, rule, list, i, e)
  {
    hide Admit, Consistent, OneRelation;
    assert list[..|list| - 1][..i] == list[..i];
  }

  lemma LastFails(w: World, rule: Id, list: seq<Candidate>, at: int, existing: Table, e: InferenceError)
    requires list != []
    ensures var n := |list| - 1;
            FailsAt(w, rule, list, n, e)
            <==> Produce(w, rule, list[..n], at, existing).Ok? && Produce(w, rule, list, at, existing) == Err(e)
  {
    hide Admit, Consistent, OneRelation, InferredRelation;
    var n := |list| - 1;
    var front := list[..n];
    ProduceIsExact(w, rule, front, at, existing);
    if Consistent(w, rule, front) && Admit(w, list[n]).Ok? {
      LastConflicts(w, rule, list, at, existing, Produce(w, rule, front, at, existing).value);
    }
  }

  lemma LastConflicts(w: World, rule: Id, list: seq<Candidate>, at: int, existing: Table, produced: Table)
    requires list != [] && Consistent(w, rule, list[..|list| - 1]) && Admit(w, list[|list| - 1]).Ok?
    requires Produces(rule, AdmittedSet(w, list[..|list| - 1]), at, existing, produced)
    ensures var n := |list| - 1;
            var r := InferredRelation(rule, Admit(w, list[n]).value, at, existing);
            (r.id in produced && produced[r.id] != r)
            <==> exists j :: 0 <= j < n && OneRelation(list[j], list[n]) && list[j].confidence != list[n].confidence
  {
    hide Admit, OneRelation;
    var n := |list| - 1;
    var front := list[..n];
    LastProduced(w, rule, list, at, existing, produced);
    ConsistentMeans(w, rule, front);
    ConsistentMeans(w, rule, list);
    assert forall i :: 0 <= i < n ==> front[i] == list[i];
    forall i | 0 <= i < n ensures OneRelation(list[i], list[n]) <==> OneRelation(list[n], list[i]) {
      SameBothWays(list[i], list[n]);
    }
    SameBothWays(list[n], list[n]);
  }

  lemma SameBothWays(c: Candidate, d: Candidate)
    ensures OneRelation(c, d) <==> OneRelation(d, c)
  {
  }

  /** A run fails for a rule that is not registered, for more than a thousand candidates, or for its first candidate that fails. */
  lemma RunFailsFor(w: World, registered: set<Id>, table: Table, rule: Id, list: seq<Candidate>, at: int, e: InferenceError)
    ensures Plan(w, registered, table, rule, list, at) == Err(e)
       <==> || (rule !in registered && e == RuleNotRegistered)
            || (rule in registered && |list| > 1_000 && e == CandidateLimit)
            || (rule in registered && |list| <= 1_000 && exists i :: 0 <= i < |list| && FailsAt(w, rule, list, i, e))
  {
    hide FailsAt, Produce, Emitted, Buried, RelationsForRule;
    ProduceFailsFor(w, rule, list, at, RelationsForRule(table, rule), e);
  }

  // ----- any sequence of runs -----

  datatype Command = Command(w: World, rule: Id, candidates: seq<Candidate>, at: int)

  function After(registered: set<Id>, table: Table, c: Command): Table {
    match Plan(c.w, registered, table, c.rule, c.candidates, c.at) case Err(_) => table case Ok(commit) => table + commit.relations
  }

  /** The stored relations after the runs, from an empty store. */
  function Execute(registered: set<Id>, commands: seq<Command>): Table {
    if commands == [] then map[] else After(registered, Execute(registered, commands[..|commands| - 1]), commands[|commands| - 1])
  }

  function LastPlan(registered: set<Id>, commands: seq<Command>): Result<Commit, InferenceError>
    requires commands != []
  {
    var c := commands[|commands| - 1];
    Plan(c.w, registered, Execute(registered, commands[..|commands| - 1]), c.rule, c.candidates, c.at)
  }

  /** The time of the first successful run that output a relation. */
  function FirstProduced(registered: set<Id>, commands: seq<Command>, id: RelationId): Option<int> {
    if commands == [] then None
    else
      match FirstProduced(registered, commands[..|commands| - 1], id)
      case Some(at) => Some(at)
      case None =>
        var last := LastPlan(registered, commands);
        if last.Ok? && id in last.value.outputs then Some(last.value.at) else None
  }

  /** The outputs of the last successful run of a rule. */
  function LatestOutputs(registered: set<Id>, commands: seq<Command>, rule: Id): set<RelationId> {
    if commands == [] then {}
    else
      var last := LastPlan(registered, commands);
      if last.Ok? && last.value.rule == rule then last.value.outputs
      else LatestOutputs(registered, commands[..|commands| - 1], rule)
  }

  /** Over any runs of any rules: the store holds every relation ever output, first seen at its first output; it is active when
      the last successful run of its rule output it, and tombstoned otherwise. */
  lemma {:induction false} RunsRefreshExactly(registered: set<Id>, commands: seq<Command>)
    ensures WellFormed(Execute(registered, commands))
    ensures forall id :: id in Execute(registered, commands) <==> FirstProduced(registered, commands, id).Some?
    ensures forall id :: id in Execute(registered, commands) ==>
              && id.InferredId?
              && Execute(registered, commands)[id].firstSeenAt == FirstProduced(registered, commands, id).value
              && Execute(registered, commands)[id].lifecycle
                 == (if id in LatestOutputs(registered, commands, id.rule) then Active else Tombstoned)
    ensures forall rule, id :: id in LatestOutputs(registered, commands, rule) ==> id in Execute(registered, commands) && OfRule(id, rule)
  {
    hide Plan;
    if commands != [] {
      var front, c := commands[..|commands| - 1], commands[|commands| - 1];
      RunsRefreshExactly(registered, front);
      if LastPlan(registered, commands).Ok? {
        RunRefreshes(c.w, registered, Execute(registered, front), c.rule, c.candidates, c.at);
      }
    }
  }

  /** Over any runs, stored relations have the direction, kind and inputs their ids name. */
  lemma {:induction false} RunsKeepNamed(registered: set<Id>, commands: seq<Command>)
    ensures Named(Execute(registered, commands))
  {
    hide Plan, Named, WellFormed;
    if commands == [] {
      NothingNamed();
    } else {
      var front, c := commands[..|commands| - 1], commands[|commands| - 1];
      RunsKeepNamed(registered, front);
      RunsRefreshExactly(registered, front);
      if LastPlan(registered, commands).Ok? {
        RunKeepsNamed(c.w, registered, Execute(registered, front), c.rule, c.candidates, c.at);
      }
    }
  }

  lemma NothingNamed()
    ensures Named(map[])
  {
  }

  // ----- the history of a relation -----

  /** What a run emits of a relation takes its snapshot from what was stored to what is; what is not emitted did not change. */
  ghost predicate Explained(table: Table, c: Commit, table': Table) {
    forall id :: if id in c.emitted then
        && id in table' && c.emitted[id].version.snapshot == c.emitted[id].change.after == SnapshotOf(table'[id])
        && c.emitted[id].version.relation == c.emitted[id].change.relation == id
        && c.emitted[id].change.before == SnapshotIn(table, id)
        && table'[id].evidence.Inferred? && table'[id].evidence.rule == c.rule
        && c.emitted[id].version.origin == c.emitted[id].change.origin == OriginOf(table'[id].evidence)
      else (id in table' <==> id in table) && (id in table ==> table'[id] == table[id])
  }

  /** Versions and changes show a relation as it is stored, and name the rule and inputs of its evidence as their origin. */
  lemma EmissionsShow(table: Table, c: Commit, table': Table, id: RelationId)
    requires Explained(table, c, table') && id in c.emitted
    ensures var (shown, r) := (c.emitted[id].version.snapshot, table'[id]);
            && shown.source == r.source && shown.target == r.target && shown.kind == r.kind && shown.evidence == r.evidence
            && shown.lifecycle == r.lifecycle && c.emitted[id].change.after == shown
    ensures c.emitted[id].version.origin == c.emitted[id].change.origin
            && table'[id].evidence.Inferred? && c.emitted[id].version.origin
               == Some(Origin(table'[id].evidence.rule, table'[id].evidence.resourceInputs, table'[id].evidence.relationInputs))
  {
  }

  function SnapshotIn(table: Table, id: RelationId): Option<Snapshot> { if id in table then Some(SnapshotOf(table[id])) else None }

  lemma MergeExplains(table: Table, rule: Id, at: int, produced: Table)
    requires WellFormed(table)
    requires forall id :: id in produced ==>
              OfRule(id, rule) && produced[id].id == id && produced[id].evidence.Inferred? && produced[id].evidence.rule == rule
    ensures var existing := RelationsForRule(table, rule);
            var relations := produced + Buried(produced, existing, at);
            forall c: Commit :: c.rule == rule && c.emitted == Emitted(relations, existing, at) ==> Explained(table, c, table + relations)
  {
    hide RelationsForRule, Buried, WellFormed;
    PlannedOfRule(table, rule, at, produced);
  }

  lemma PlannedOfRule(table: Table, rule: Id, at: int, produced: Table)
    requires WellFormed(table)
    requires forall id :: id in produced ==>
              OfRule(id, rule) && produced[id].id == id && produced[id].evidence.Inferred? && produced[id].evidence.rule == rule
    ensures var existing := RelationsForRule(table, rule);
            var relations := produced + Buried(produced, existing, at);
            forall id :: id in relations ==>
              && OfRule(id, rule) && relations[id].id == id && relations[id].evidence.Inferred? && relations[id].evidence.rule == rule
              && (id in existing <==> id in table) && (id in existing ==> existing[id] == table[id])
  {
  }

  lemma RunExplains(w: World, registered: set<Id>, table: Table, rule: Id, list: seq<Candidate>, at: int)
    requires WellFormed(table) && Plan(w, registered, table, rule, list, at).Ok?
    ensures var c := Plan(w, registered, table, rule, list, at).value;
            Explained(table, c, table + c.relations)
  {
    hide Admit, AdmittedSet, Emitted, Explained;
    var existing := RelationsForRule(table, rule);
    ProduceIsExact(w, rule, list, at, existing);
    var produced := Produce(w, rule, list, at, existing).value;
    ProducedRelations(AdmittedSet(w, list), rule, at, existing, produced);
    MergeExplains(table, rule, at, produced);
  }

  /** The snapshot of a relation as its changes tell it, change after change. */
  function Told(registered: set<Id>, commands: seq<Command>, id: RelationId): Option<Snapshot> {
    if commands == [] then None
    else
      var last := LastPlan(registered, commands);
      if last.Ok? && id in last.value.emitted then Some(last.value.emitted[id].change.after)
      else Told(registered, commands[..|commands| - 1], id)
  }

  /** Over any runs, the changes of a relation lead to what is stored, and the next change begins where they lead. */
  lemma {:induction false} ChangesTell(registered: set<Id>, commands: seq<Command>)
    ensures forall id :: Told(registered, commands, id) == SnapshotIn(Execute(registered, commands), id)
    ensures commands != [] && LastPlan(registered, commands).Ok? ==>
              var emitted := LastPlan(registered, commands).value.emitted;
              forall id :: id in emitted ==> emitted[id].change.before == Told(registered, commands[..|commands| - 1], id)
  {
    hide Plan, WellFormed;
    if commands != [] {
      var front, c := commands[..|commands| - 1], commands[|commands| - 1];
      ChangesTell(registered, front);
      RunsRefreshExactly(registered, front);
      if LastPlan(registered, commands).Ok? {
        RunExplains(c.w, registered, Execute(registered, front), c.rule, c.candidates, c.at);
      }
    }
  }

  // ----- the history as it is stored -----

  /** The k-th of some runs succeeds and emits for a relation. */
  predicate EmitsAt(registered: set<Id>, commands: seq<Command>, k: nat, id: RelationId)
    requires k < |commands|
  {
    var last := LastPlan(registered, commands[..k + 1]);
    last.Ok? && id in last.value.emitted
  }

  /** Two successful runs at one time both emit for a relation. */
  ghost predicate Repeats(registered: set<Id>, commands: seq<Command>, id: RelationId) {
    exists j, k :: 0 <= j < k < |commands| && EmitsAt(registered, commands, j, id) && EmitsAt(registered, commands, k, id)
                   && commands[j].at == commands[k].at
  }

  /** The changes of a relation, run after run. */
  function ChangesOf(registered: set<Id>, commands: seq<Command>, id: RelationId): seq<Change> {
    if commands == [] then []
    else
      var front, last := ChangesOf(registered, commands[..|commands| - 1], id), LastPlan(registered, commands);
      if last.Ok? && id in last.value.emitted then front + [last.value.emitted[id].change] else front
  }

  /** What an id holds: relation and time. */
  predicate SameId(c: Change, d: Change) { c.relation == d.relation && c.at == d.at }

  ghost predicate IdsDiffer(changes: seq<Change>) {
    forall i, j :: 0 <= i < j < |changes| ==> !SameId(changes[i], changes[j])
  }

  predicate Has(changes: seq<Change>, c: Change) { exists i :: 0 <= i < |changes| && SameId(changes[i], c) }

  /** The changes of a relation in the database, in the order of insertion: one whose id is there already is ignored. */
  function StoredChanges(registered: set<Id>, commands: seq<Command>, id: RelationId): seq<Change> {
    if commands == [] then []
    else
      var front, last := StoredChanges(registered, commands[..|commands| - 1], id), LastPlan(registered, commands);
      if last.Ok? && id in last.value.emitted && !Has(front, last.value.emitted[id].change) then front + [last.value.emitted[id].change]
      else front
  }

  /** The texts of a version and of a change are formed of the relation's and the time. */
  lemma EmissionTextsAgree(head: string, relation: string, at: nat, relation': string, at': nat)
    ensures head + relation + ":" + Decimal(at) == head + relation' + ":" + Decimal(at') <==> relation == relation' && at == at'
  {
    NumberedTextsAgree(head + relation, at, head + relation', at');
    assert (head + relation)[|head|..] == relation && (head + relation')[|head|..] == relation';
  }

  lemma EmissionId(registered: set<Id>, commands: seq<Command>, id: RelationId)
    requires commands != []
    ensures var last := LastPlan(registered, commands);
            last.Ok? && id in last.value.emitted ==>
              last.value.emitted[id].change.at == commands[|commands| - 1].at && last.value.emitted[id].change.relation == id
              && last.value.emitted[id].version.at == commands[|commands| - 1].at && last.value.emitted[id].version.relation == id
  {
    var front, c := commands[..|commands| - 1], commands[|commands| - 1];
    RunsRefreshExactly(registered, front);
    if LastPlan(registered, commands).Ok? {
      RunExplains(c.w, registered, Execute(registered, front), c.rule, c.candidates, c.at);
      EmissionTimes(c.w, registered, Execute(registered, front), c.rule, c.candidates, c.at);
    }
  }

  lemma EmissionTimes(w: World, registered: set<Id>, table: Table, rule: Id, list: seq<Candidate>, at: int)
    requires Plan(w, registered, table, rule, list, at).Ok?
    ensures var c := Plan(w, registered, table, rule, list, at).value;
            forall id :: id in c.emitted ==> c.emitted[id].change.at == at && c.emitted[id].version.at == at
  {
    hide Produce, Buried, RelationsForRule, AdmittedSet;
  }

  /** The times at which a relation has changes are those of the runs that emitted for it. */
  lemma {:induction false} ChangeTimes(registered: set<Id>, commands: seq<Command>, id: RelationId, at: int)
    ensures (exists i :: 0 <= i < |ChangesOf(registered, commands, id)| && ChangesOf(registered, commands, id)[i].at == at)
       <==> (exists k :: 0 <= k < |commands| && EmitsAt(registered, commands, k, id) && commands[k].at == at)
    ensures forall i :: 0 <= i < |ChangesOf(registered, commands, id)| ==> ChangesOf(registered, commands, id)[i].relation == id
  {
    hide LastPlan;
    if commands != [] {
      var n := |commands| - 1;
      var front := commands[..n];
      ChangeTimes(registered, front, id, at);
      EmissionId(registered, commands, id);
      assert commands[..n + 1] == commands;
      var before, all := ChangesOf(registered, front, id), ChangesOf(registered, commands, id);
      forall k | 0 <= k < n ensures EmitsAt(registered, front, k, id) <==> EmitsAt(registered, commands, k, id) {
        assert front[..k + 1] == commands[..k + 1];
      }
      assert forall i :: 0 <= i < |before| ==> all[i] == before[i];
      if EmitsAt(registered, commands, n, id) {
        assert all == before + [all[|before|]];
      }
    }
  }

  lemma EarlierRepeats(registered: set<Id>, commands: seq<Command>, id: RelationId)
    requires commands != []
    ensures var n := |commands| - 1;
            Repeats(registered, commands, id)
            <==> || Repeats(registered, commands[..n], id)
                 || (EmitsAt(registered, commands, n, id)
                     && exists k :: 0 <= k < n && EmitsAt(registered, commands[..n], k, id) && commands[..n][k].at == commands[n].at)
  {
    hide LastPlan;
    var n := |commands| - 1;
    var front := commands[..n];
    forall k | 0 <= k < n ensures EmitsAt(registered, front, k, id) <==> EmitsAt(registered, commands, k, id) {
      assert front[..k + 1] == commands[..k + 1];
    }
  }

  /** Over any runs: ids of a relation's changes and versions repeat if and only if two successful runs at one time both emit for it,
      and then, and only then, the stored history lacks a change. */
  lemma {:induction false} IdsRepeatExactly(registered: set<Id>, commands: seq<Command>, id: RelationId)
    ensures IdsDiffer(ChangesOf(registered, commands, id)) <==> !Repeats(registered, commands, id)
    ensures StoredChanges(registered, commands, id) == ChangesOf(registered, commands, id) <==> !Repeats(registered, commands, id)
    ensures Repeats(registered, commands, id) ==> |StoredChanges(registered, commands, id)| < |ChangesOf(registered, commands, id)|
  {
    hide LastPlan, Repeats, EmitsAt;
    if commands == [] {
      NoRepeats(registered, id);
    } else {
      var n := |commands| - 1;
      var front := commands[..n];
      IdsRepeatExactly(registered, front, id);
      EarlierRepeats(registered, commands, id);
      ChangeTimes(registered, front, id, commands[n].at);
      EmissionId(registered, commands, id);
      LastEmits(registered, commands, id);
      var last := LastPlan(registered, commands);
      if last.Ok? && id in last.value.emitted {
        IdsSnoc(ChangesOf(registered, front, id), last.value.emitted[id].change);
      }
    }
  }

  lemma LastEmits(registered: set<Id>, commands: seq<Command>, id: RelationId)
    requires commands != []
    ensures EmitsAt(registered, commands, |commands| - 1, id)
       <==> LastPlan(registered, commands).Ok? && id in LastPlan(registered, commands).value.emitted
  {
    hide LastPlan;
    assert commands[..|commands| - 1 + 1] == commands;
  }

  lemma NoRepeats(registered: set<Id>, id: RelationId)
    ensures !Repeats(registered, [], id)
  {
  }

  lemma IdsSnoc(changes: seq<Change>, c: Change)
    ensures IdsDiffer(changes + [c]) <==> IdsDiffer(changes) && !Has(changes, c)
  {
    var all := changes + [c];
    assert forall i :: 0 <= i < |changes| ==> all[i] == changes[i];
    assert all[|changes|] == c;
  }

  function LastShown(changes: seq<Change>): Option<Snapshot> {
    if changes == [] then None else Some(changes[|changes| - 1].after)
  }

  lemma {:induction false} ToldByLast(registered: set<Id>, commands: seq<Command>, id: RelationId)
    ensures Told(registered, commands, id) == LastShown(ChangesOf(registered, commands, id))
  {
    hide LastPlan;
    if commands != [] {
      ToldByLast(registered, commands[..|commands| - 1], id);
    }
  }

  /** While no id repeats, the stored history of a relation leads to what is stored of it. */
  lemma StoredChangesTell(registered: set<Id>, commands: seq<Command>, id: RelationId)
    requires !Repeats(registered, commands, id)
    ensures LastShown(StoredChanges(registered, commands, id)) == SnapshotIn(Execute(registered, commands), id)
  {
    hide Repeats, StoredChanges, ChangesOf, Execute, Told;
    IdsRepeatExactly(registered, commands, id);
    ToldByLast(registered, commands, id);
    ChangesTell(registered, commands);
  }

  /** A run that outputs a relation, and one at the same time that does not: the relation is tombstoned, and its stored history stops at active. */
  lemma SameTimeLosesChange(w: World, registered: set<Id>, rule: Id, c: Candidate, at: int)
    requires rule in registered && Admit(w, c).Ok?
    ensures var commands := [Command(w, rule, [c], at), Command(w, rule, [], at)];
            var id := CandidateId(rule, Admit(w, c).value);
            && Repeats(registered, commands, id)
            && id in Execute(registered, commands) && Execute(registered, commands)[id].lifecycle == Tombstoned
            && LastShown(StoredChanges(registered, commands, id)).Some?
            && LastShown(StoredChanges(registered, commands, id)).value.lifecycle == Active
  {
    var first, second := Command(w, rule, [c], at), Command(w, rule, [], at);
    var commands := [first, second];
    var id := CandidateId(rule, Admit(w, c).value);
    assert OfRule(id, rule) && commands[..1] == [first];
    hide Plan, Admit, CandidateId, OfRule;
    OutputStored(w, registered, rule, c, at);
    LaterBuried(registered, commands, id);
    EmissionId(registered, [first], id);
    hide Admit, LastPlan, Execute, CandidateId;
    assert commands[..1] == [first];
    StoredTwice(registered, commands, id);
  }

  /** Of two runs at one time that both emit for a relation, only the first is in its stored history. */
  lemma StoredTwice(registered: set<Id>, commands: seq<Command>, id: RelationId)
    requires |commands| == 2 && commands[0].at == commands[1].at
    requires LastPlan(registered, commands[..1]).Ok? && id in LastPlan(registered, commands[..1]).value.emitted
    requires LastPlan(registered, commands).Ok? && id in LastPlan(registered, commands).value.emitted
    ensures Repeats(registered, commands, id)
    ensures StoredChanges(registered, commands, id) == StoredChanges(registered, commands[..1], id)
  {
    EmissionId(registered, commands[..1], id);
    EmissionId(registered, commands, id);
    hide LastPlan;
    assert commands[..0 + 1] == commands[..1] && commands[..1 + 1] == commands && commands[..1][..0] == [];
    assert StoredChanges(registered, [], id) == [];
    assert EmitsAt(registered, commands, 0, id) && EmitsAt(registered, commands, 1, id);
    var one := StoredChanges(registered, commands[..1], id);
    assert one == [LastPlan(registered, commands[..1]).value.emitted[id].change];
    assert Has(one, LastPlan(registered, commands).value.emitted[id].change) by {
      assert SameId(one[0], LastPlan(registered, commands).value.emitted[id].change);
    }
  }

  lemma OutputStored(w: World, registered: set<Id>, rule: Id, c: Candidate, at: int)
    requires rule in registered && Admit(w, c).Ok?
    ensures var commands := [Command(w, rule, [c], at)];
            var id := CandidateId(rule, Admit(w, c).value);
            && LastPlan(registered, commands).Ok? && id in LastPlan(registered, commands).value.emitted
            && id in Execute(registered, commands) && Execute(registered, commands)[id].lifecycle == Active
            && |StoredChanges(registered, commands, id)| == 1 && StoredChanges(registered, commands, id)[0].after.lifecycle == Active
            && StoredChanges(registered, commands, id)[0].at == at && StoredChanges(registered, commands, id)[0].relation == id
  {
    var commands := [Command(w, rule, [c], at)];
    var id := CandidateId(rule, Admit(w, c).value);
    FirstRun(w, registered, rule, c, at);
    assert commands[..0] == [];
    assert Execute(registered, []) == map[];
    RunRefreshes(w, registered, map[], rule, [c], at);
    RunExplains(w, registered, map[], rule, [c], at);
    EmissionId(registered, commands, id);
    hide Plan, Admit;
    assert LastPlan(registered, commands) == Plan(w, registered, map[], rule, [c], at);
    assert StoredChanges(registered, [], id) == [];
  }

  /** After a run without candidates, an active relation of its rule is tombstoned, and the run has emitted for it. */
  lemma LaterBuried(registered: set<Id>, commands: seq<Command>, id: RelationId)
    requires commands != [] && commands[|commands| - 1].candidates == [] && commands[|commands| - 1].rule in registered
    requires OfRule(id, commands[|commands| - 1].rule)
    requires var before := Execute(registered, commands[..|commands| - 1]); id in before && before[id].lifecycle == Active
    ensures LastPlan(registered, commands).Ok? && id in LastPlan(registered, commands).value.emitted
    ensures id in Execute(registered, commands) && Execute(registered, commands)[id].lifecycle == Tombstoned
  {
    hide Plan, WellFormed, OfRule;
    var front, c := commands[..|commands| - 1], commands[|commands| - 1];
    StoreWellFormed(registered, front);
    EmptyRunBuries(c.w, registered, Execute(registered, front), c.rule, id, c.at);
  }

  lemma StoreWellFormed(registered: set<Id>, commands: seq<Command>)
    ensures WellFormed(Execute(registered, commands))
  {
    hide Execute, WellFormed;
    RunsRefreshExactly(registered, commands);
  }

  /** A run without candidates buries an active relation of its rule, and emits for it. */
  lemma EmptyRunBuries(w: World, registered: set<Id>, table: Table, rule: Id, id: RelationId, at: int)
    requires rule in registered && WellFormed(table) && id in table && OfRule(id, rule) && table[id].lifecycle == Active
    ensures var p := Plan(w, registered, table, rule, [], at);
            && p.Ok? && id in p.value.emitted
            && id in table + p.value.relations && (table + p.value.relations)[id].lifecycle == Tombstoned
  {
    SecondRun(w, registered, table, rule, at);
    RunRefreshes(w, registered, table, rule, [], at);
    RunExplains(w, registered, table, rule, [], at);
    hide Plan, WellFormed;
  }

  lemma FirstRun(w: World, registered: set<Id>, rule: Id, c: Candidate, at: int)
    requires rule in registered && Admit(w, c).Ok?
    ensures Plan(w, registered, map[], rule, [c], at).Ok?
    ensures CandidateId(rule, Admit(w, c).value) in Plan(w, registered, map[], rule, [c], at).value.outputs
  {
    hide Admit;
    assert [c][..0] == [];
    assert Produce(w, rule, [], at, map[]) == Ok(map[]);
    assert RelationsForRule(map[], rule) == map[];
  }

  lemma SecondRun(w: World, registered: set<Id>, table: Table, rule: Id, at: int)
    requires rule in registered
    ensures Plan(w, registered, table, rule, [], at).Ok? && Plan(w, registered, table, rule, [], at).value.outputs == {}
  {
  }

  // ----- candidates in any order, and again -----

  predicate Alike(c: Candidate, d: Candidate) {
    && c.source == d.source && c.target == d.target && c.kind == d.kind && c.confidence == d.confidence
    && Elements(c.resourceInputs) == Elements(d.resourceInputs) && Elements(c.relationInputs) == Elements(d.relationInputs)
  }

  ghost predicate Covers(a: seq<Candidate>, b: seq<Candidate>) {
    forall i :: 0 <= i < |a| ==> exists j :: 0 <= j < |b| && Alike(a[i], b[j])
  }

  lemma AlikeAdmitted(w: World, c: Candidate, d: Candidate)
    requires Alike(c, d)
    ensures Admit(w, c) == Admit(w, d)
  {
    assert c.resourceInputs == [] <==> Elements(c.resourceInputs) == {} by { NoElements(c.resourceInputs); }
    assert d.resourceInputs == [] <==> Elements(d.resourceInputs) == {} by { NoElements(d.resourceInputs); }
    assert c.relationInputs == [] <==> Elements(c.relationInputs) == {} by { NoElements(c.relationInputs); }
    assert d.relationInputs == [] <==> Elements(d.relationInputs) == {} by { NoElements(d.relationInputs); }
  }

  lemma NoElements(s: seq<Id>)
    ensures s == [] <==> Elements(s) == {}
  {
    if s != [] { assert s[0] in Elements(s); }
  }

  lemma CoveredAdmitted(w: World, a: seq<Candidate>, b: seq<Candidate>)
    requires Covers(a, b)
    ensures AdmittedSet(w, a) <= AdmittedSet(w, b)
    ensures (forall j :: 0 <= j < |b| ==> Admit(w, b[j]).Ok?) ==> forall i :: 0 <= i < |a| ==> Admit(w, a[i]).Ok?
  {
    hide Admit, Alike;
    forall i | 0 <= i < |a| ensures exists j :: 0 <= j < |b| && Admit(w, a[i]) == Admit(w, b[j]) {
      var j :| 0 <= j < |b| && Alike(a[i], b[j]);
      AlikeAdmitted(w, a[i], b[j]);
    }
  }

  /** Candidates in another order, repeated, or with their inputs in another order or repeated, succeed or fail alike and commit the same. */
  lemma InferenceIsCanonical(w: World, registered: set<Id>, table: Table, rule: Id, a: seq<Candidate>, b: seq<Candidate>, at: int)
    requires Covers(a, b) && Covers(b, a) && |a| <= MAX_INFERENCE_CANDIDATES && |b| <= MAX_INFERENCE_CANDIDATES
    ensures Plan(w, registered, table, rule, a, at).Ok? <==> Plan(w, registered, table, rule, b, at).Ok?
    ensures Plan(w, registered, table, rule, a, at).Ok? ==> Plan(w, registered, table, rule, a, at) == Plan(w, registered, table, rule, b, at)
  {
    hide Admit, AdmittedSet, Covers, Emitted, Buried, RelationsForRule, Produce;
    CoveredAdmitted(w, a, b);
    CoveredAdmitted(w, b, a);
    assert AdmittedSet(w, a) == AdmittedSet(w, b) || !Consistent(w, rule, a);
    var existing := RelationsForRule(table, rule);
    ProduceIsExact(w, rule, a, at, existing);
    ProduceIsExact(w, rule, b, at, existing);
    if Consistent(w, rule, a) {
      ProducesUnique(rule, AdmittedSet(w, a), at, existing, Produce(w, rule, a, at, existing).value, Produce(w, rule, b, at, existing).value);
    }
  }

  lemma ProducesUnique(rule: Id, candidates: set<Candidate>, at: int, existing: Table, p: Table, q: Table)
    requires Produces(rule, candidates, at, existing, p) && Produces(rule, candidates, at, existing, q)
    ensures p == q
  {
    forall id ensures id in p <==> id in q {}
    forall id | id in p ensures p[id] == q[id] {
      var c :| c in candidates && CandidateId(rule, c) == id;
    }
  }

  lemma SameFirstSeen(rule: Id, candidates: set<Candidate>, at: int, existing: Table, existing': Table, p: Table)
    requires Produces(rule, candidates, at, existing, p)
    requires forall id :: id in p ==> id in existing' && existing'[id] == p[id]
    ensures Produces(rule, candidates, at, existing', p)
  {
  }

  lemma StoredAsProduced(table: Table, rule: Id, at: int, p: Table)
    requires WellFormed(table)
    requires forall id :: id in p ==> OfRule(id, rule) && p[id].evidence.Inferred? && p[id].evidence.rule == rule
    ensures var existing := RelationsForRule(table, rule);
            var table' := table + (p + Buried(p, existing, at));
            var existing' := RelationsForRule(table', rule);
            && (forall id :: id in p ==> id in existing' && existing'[id] == p[id])
            && Buried(p, existing', at) == map[]
            && Emitted(p, existing', at) == map[]
            && table' + p == table'
  {
    var existing := RelationsForRule(table, rule);
    var table' := table + (p + Buried(p, existing, at));
    var existing' := RelationsForRule(table', rule);
    assert forall id :: id in p ==> id in existing' && existing'[id] == p[id];
    forall id | id in existing' && id !in p ensures existing'[id].lifecycle == Tombstoned {
      assert id in table && id in existing;
    }
  }

  /** The second world still has what the first had: its active resources, and its versions with those recorded since. */
  predicate Extends(w: World, w': World) {
    && w.activeResources <= w'.activeResources && w.resourceVersions <= w'.resourceVersions
    && w.relationVersions <= w'.relationVersions
  }

  lemma AdmittedAgain(w: World, w': World, list: seq<Candidate>)
    requires Extends(w, w') && forall i :: 0 <= i < |list| ==> Admit(w, list[i]).Ok?
    ensures forall i :: 0 <= i < |list| ==> Admit(w', list[i]) == Admit(w, list[i])
    ensures AdmittedSet(w', list) == AdmittedSet(w, list)
  {
    hide NormalizeCandidate;
  }

  /** The same run again at the same time, over a world that has grown meanwhile, emits no version and no change and leaves the
      store as it is. */
  lemma RepeatIsQuiet(w: World, w': World, registered: set<Id>, table: Table, rule: Id, list: seq<Candidate>, at: int)
    requires WellFormed(table) && Plan(w, registered, table, rule, list, at).Ok? && Extends(w, w')
    ensures var table' := table + Plan(w, registered, table, rule, list, at).value.relations;
            var again := Plan(w', registered, table', rule, list, at);
            again.Ok? && again.value.emitted == map[] && table' + again.value.relations == table'
  {
    hide Admit, AdmittedSet, RelationsForRule, Buried, Emitted, WellFormed, Produces, Produce, Extends;
    var existing := RelationsForRule(table, rule);
    ProduceIsExact(w, rule, list, at, existing);
    AdmittedAgain(w, w', list);
    var p := Produce(w, rule, list, at, existing).value;
    ProducedRelations(AdmittedSet(w, list), rule, at, existing, p);
    StoredAsProduced(table, rule, at, p);
    var table' := table + (p + Buried(p, existing, at));
    var existing' := RelationsForRule(table', rule);
    SameFirstSeen(rule, AdmittedSet(w, list), at, existing, existing', p);
    ProduceIsExact(w', rule, list, at, existing');
    ProducesUnique(rule, AdmittedSet(w, list), at, existing', p, Produce(w', rule, list, at, existing').value);
    assert p + map[] == p;
  }
}
