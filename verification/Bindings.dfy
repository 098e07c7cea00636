/** The local binding service: its table of configured relations and its change history. */
module Bindings {
  import opened Wrappers
  import opened Ordering

  datatype Status = Active | Unresolved | Disabled

  datatype Lifecycle = LiveRelation | OrphanedRelation | TombstonedRelation

  datatype Input = Input(source: Id, target: Id, kind: Id)

  datatype Binding = Binding(id: Id, source: Id, target: Id, kind: Id, status: Status, createdAt: int, updatedAt: int)

  datatype BindingError = Invalid | NotFound | Duplicate | TemporalConflict

  /** Identity of a configured relation; the formatted id stands for the fields it is made of. */
  datatype RelationId = RelationId(bindingId: Id, source: Id, target: Id, kind: Id)

  datatype Relation = Relation(id: RelationId, firstSeenAt: int, lastSeenAt: int, lifecycle: Lifecycle)

  datatype VersionId = VersionId(relation: RelationId, at: int)

  datatype FieldPath = SourceField | TargetField | KindField | StatusField

  datatype Value = Reference(id: Id) | StatusValue(status: Status)

  datatype FieldChange = FieldChange(path: FieldPath, before: Option<Value>, after: Value)

  datatype Change = Change(bindingId: Id, at: int, fields: seq<FieldChange>)

  datatype Commit = Commit(binding: Binding, relations: seq<Relation>, versions: seq<VersionId>, changes: seq<Change>)

  // ----- the parts of a commit -----

  function RelationLifecycle(s: Status): Lifecycle {
    match s case Active => LiveRelation case Unresolved => OrphanedRelation case Disabled => TombstonedRelation
  }

  function RelationIdOf(b: Binding): RelationId { RelationId(b.id, b.source, b.target, b.kind) }

  function ConfiguredRelation(b: Binding, lifecycle: Lifecycle, at: int): Relation {
    Relation(RelationIdOf(b), b.createdAt, at, lifecycle)
  }

  function FieldOf(b: Binding, path: FieldPath): Value {
    match path
    case SourceField => Reference(b.source)
    case TargetField => Reference(b.target)
    case KindField => Reference(b.kind)
    case StatusField => StatusValue(b.status)
  }

  const FIELD_PATHS := [SourceField, TargetField, KindField, StatusField]

  /** One record per field that is new or differs, in the order of the paths. */
  function BindingChanges(previous: Option<Binding>, current: Binding, paths: seq<FieldPath>): seq<FieldChange> {
    if paths == [] then []
    else
      var path := paths[0];
      var before := match previous case None => None case Some(b) => Some(FieldOf(b, path));
      var after := FieldOf(current, path);
      (if before == Some(after) then [] else [FieldChange(path, before, after)]) + BindingChanges(previous, current, paths[1..])
  }

  function BindingCommit(previous: Option<Binding>, binding: Binding, at: int): Commit {
    var identityChanged := previous.Some? && RelationIdOf(previous.value) != RelationIdOf(binding);
    var relations :=
      (if identityChanged then [ConfiguredRelation(previous.value, TombstonedRelation, at)] else [])
      + [ConfiguredRelation(binding, RelationLifecycle(binding.status), at)];
    var fields := BindingChanges(previous, binding, FIELD_PATHS);
    Commit(binding, relations, seq(|relations|, i requires 0 <= i < |relations| => VersionId(relations[i].id, at)),
           if fields == [] then [] else [Change(binding.id, at, fields)])
  }

  // ----- decisions -----

  type Table = map<Id, Binding>

  function EndpointStatus(active: set<Id>, input: Input): Status {
    if input.source in active && input.target in active then Active else Unresolved
  }

  /** Another binding, not disabled, joins the same endpoints with the same kind. */
  predicate Duplicated(bindings: Table, input: Input, excluded: Option<Id>) {
    exists id :: id in bindings && excluded != Some(id) && bindings[id].source == input.source && bindings[id].target == input.target
                 && bindings[id].kind == input.kind && bindings[id].status != Disabled
  }

  datatype Command =
    | Create(id: Id, input: Input, at: int)
    | Update(id: Id, input: Input, at: int)
    | Disable(id: Id, at: int)
    | Reconcile(id: Id, at: int)

  datatype Outcome = Failed(error: BindingError) | Kept(binding: Binding) | Committed(commit: Commit)

  /** What the service answers, given the bindings and the active resources. */
  function Decide(bindings: Table, active: set<Id>, c: Command): Outcome {
    match c
    case Create(id, input, at) =>
      if input.source == input.target then Failed(Invalid)
      else if Duplicated(bindings, input, None) then Failed(Duplicate)
      else Committed(BindingCommit(None, Binding(id, input.source, input.target, input.kind, EndpointStatus(active, input), at, at), at))
    case Update(id, input, at) =>
      if input.source == input.target then Failed(Invalid)
      else if id !in bindings then Failed(NotFound)
      else
        var existing := bindings[id];
        if at <= existing.updatedAt then Failed(TemporalConflict)
        else if existing.status != Disabled && Duplicated(bindings, input, Some(id)) then Failed(Duplicate)
        else
          var status := if existing.status == Disabled then Disabled else EndpointStatus(active, input);
          var binding := Binding(existing.id, input.source, input.target, input.kind, status, existing.createdAt, at);
          if binding == existing then Kept(existing) else Committed(BindingCommit(Some(existing), binding, at))
    case Disable(id, at) =>
      if id !in bindings then Failed(NotFound)
      else
        var existing := bindings[id];
        if existing.status == Disabled then Kept(existing)
        else if at <= existing.updatedAt then Failed(TemporalConflict)
        else Committed(BindingCommit(Some(existing), existing.(status := Disabled, updatedAt := at), at))
    case Reconcile(id, at) =>
      if id !in bindings then Failed(NotFound)
      else
        var existing := bindings[id];
        var status := EndpointStatus(active, Input(existing.source, existing.target, existing.kind));
        if existing.status == Disabled || status == existing.status then Kept(existing)
        else if at <= existing.updatedAt then Failed(TemporalConflict)
        else Committed(BindingCommit(Some(existing), existing.(status := status, updatedAt := at), at))
  }

  // ----- the store -----

  datatype State = State(bindings: Table, relations: map<RelationId, Relation>, versions: seq<VersionId>, changes: seq<Change>)

  const EMPTY := State(map[], map[], [], [])

  function Upsert(relations: map<RelationId, Relation>, list: seq<Relation>): map<RelationId, Relation>
    decreases |list|
  {
    if list == [] then relations else Upsert(relations[list[0].id := list[0]], list[1..])
  }

  function Apply(s: State, o: Outcome): State {
    if !o.Committed? then s
    else
      var c := o.commit;
      State(s.bindings[c.binding.id := c.binding], Upsert(s.relations, c.relations), s.versions + c.versions, s.changes + c.changes)
  }

  /** The service over its store; a new binding's id is drawn by the caller, since the source takes a random one. */
  class BindingService {
    var state: State

    constructor ()
      ensures state == EMPTY
    {
      state := EMPTY;
    }

    method CommitBinding(c: Commit)
      modifies this
      ensures state == Apply(old(state), Committed(c))
    {
      var relations := state.relations;
      for i := 0 to |c.relations|
        invariant state == old(state)
        invariant Upsert(relations, c.relations[i..]) == Upsert(state.relations, c.relations)
      {
        assert c.relations[i..][1..] == c.relations[i + 1..];
        relations := relations[c.relations[i].id := c.relations[i]];
      }
      state := State(state.bindings[c.binding.id := c.binding], relations, state.versions + c.versions, state.changes + c.changes);
    }

    method EnsureUnique(input: Input, excluded: Option<Id>) returns (r: Option<BindingError>)
      ensures r == if Duplicated(state.bindings, input, excluded) then Some(Duplicate) else None
    {
      var rest := state.bindings.Keys;
      while rest != {}
        invariant rest <= state.bindings.Keys
        invariant Duplicated(state.bindings, input, excluded)
             <==> exists id :: id in rest && excluded != Some(id) && state.bindings[id].source == input.source
                               && state.bindings[id].target == input.target && state.bindings[id].kind == input.kind
                               && state.bindings[id].status != Disabled
        decreases |rest|
      {
        var id :| id in rest;
        var b := state.bindings[id];
        if excluded != Some(id) && b.source == input.source && b.target == input.target && b.kind == input.kind && b.status != Disabled {
          return Some(Duplicate);
        }
        rest := rest - {id};
      }
      r := None;
    }

    method CreateBinding(active: set<Id>, id: Id, input: Input, at: int) returns (r: Result<Binding, BindingError>)
      modifies this
      ensures state == Apply(old(state), Decide(old(state).bindings, active, Create(id, input, at)))
      ensures r == Answer(Decide(old(state).bindings, active, Create(id, input, at)))
    {
      if input.source == input.target { return Err(Invalid); }
      var duplicate := EnsureUnique(input, None);
      if duplicate.Some? { return Err(duplicate.value); }
      var binding := Binding(id, input.source, input.target, input.kind, EndpointStatus(active, input), at, at);
      CommitBinding(BindingCommit(None, binding, at));
      r := Ok(binding);
    }

    method UpdateBinding(active: set<Id>, id: Id, input: Input, at: int) returns (r: Result<Binding, BindingError>)
      modifies this
      ensures state == Apply(old(state), Decide(old(state).bindings, active, Update(id, input, at)))
      ensures r == Answer(Decide(old(state).bindings, active, Update(id, input, at)))
    {
      if input.source == input.target { return Err(Invalid); }
      if id !in state.bindings { return Err(NotFound); }
      var existing := state.bindings[id];
      if at <= existing.updatedAt { return Err(TemporalConflict); }
      if existing.status != Disabled {
        var duplicate := EnsureUnique(input, Some(id));
        if duplicate.Some? { return Err(duplicate.value); }
      }
      var status := if existing.status == Disabled then Disabled else EndpointStatus(active, input);
      var binding := Binding(existing.id, input.source, input.target, input.kind, status, existing.createdAt, at);
      if binding == existing { return Ok(existing); }
      CommitBinding(BindingCommit(Some(existing), binding, at));
      r := Ok(binding);
    }

    method DisableBinding(id: Id, at: int) returns (r: Result<Binding, BindingError>)
      modifies this
      ensures forall active :: state == Apply(old(state), Decide(old(state).bindings, active, Disable(id, at)))
      ensures forall active :: r == Answer(Decide(old(state).bindings, active, Disable(id, at)))
    {
      if id !in state.bindings { return Err(NotFound); }
      var existing := state.bindings[id];
      if existing.status == Disabled { return Ok(existing); }
      if at <= existing.updatedAt { return Err(TemporalConflict); }
      var binding := existing.(status := Disabled, updatedAt := at);
      CommitBinding(BindingCommit(Some(existing), binding, at));
      r := Ok(binding);
    }

    method ReconcileBinding(active: set<Id>, id: Id, at: int) returns (r: Result<Binding, BindingError>)
      modifies this
      ensures state == Apply(old(state), Decide(old(state).bindings, active, Reconcile(id, at)))
      ensures r == Answer(Decide(old(state).bindings, active, Reconcile(id, at)))
    {
      if id !in state.bindings { return Err(NotFound); }
      var existing := state.bindings[id];
      if existing.status == Disabled { return Ok(existing); }
      var status := EndpointStatus(active, Input(existing.source, existing.target, existing.kind));
      if status == existing.status { return Ok(existing); }
      if at <= existing.updatedAt { return Err(TemporalConflict); }
      var binding := existing.(status := status, updatedAt := at);
      CommitBinding(BindingCommit(Some(existing), binding, at));
      r := Ok(binding);
    }
  }

  function Answer(o: Outcome): Result<Binding, BindingError> {
    match o case Failed(e) => Err(e) case Kept(b) => Ok(b) case Committed(c) => Ok(c.binding)
  }

  // ----- what every operation keeps -----

  /** No two bindings that are not disabled join the same endpoints with the same kind. */
  ghost predicate Unique(bindings: Table) {
    forall i, j :: i in bindings && j in bindings && i != j && bindings[i].status != Disabled && bindings[j].status != Disabled ==>
      !(bindings[i].source == bindings[j].source && bindings[i].target == bindings[j].target && bindings[i].kind == bindings[j].kind)
  }

  /** Bindings carry their own id, join two different resources, and do not go back in time. */
  ghost predicate Sane(bindings: Table) {
    forall i :: i in bindings ==>
      bindings[i].id == i && bindings[i].source != bindings[i].target && bindings[i].createdAt <= bindings[i].updatedAt
  }

  /** A live binding's relation is live, an unresolved one's orphaned, a disabled one's tombstoned; it was written with the binding. */
  predicate MirroredBy(b: Binding, r: Relation) {
    && (b.status == Active <==> r.lifecycle == LiveRelation) && (b.status == Unresolved <==> r.lifecycle == OrphanedRelation)
    && (b.status == Disabled <==> r.lifecycle == TombstonedRelation)
    && r.firstSeenAt == b.createdAt && r.lastSeenAt == b.updatedAt
  }

  /** Each binding's current relation joins its endpoints by its kind, and mirrors it. */
  ghost predicate CurrentMirrored(bindings: Table, relations: map<RelationId, Relation>) {
    forall i :: i in bindings ==>
      var r := RelationId(i, bindings[i].source, bindings[i].target, bindings[i].kind);
      r in relations && MirroredBy(bindings[i], relations[r])
  }

  /** Every relation belongs to a binding, was first seen when that was created, and is tombstoned unless it is the current one. */
  ghost predicate OthersBuried(bindings: Table, relations: map<RelationId, Relation>) {
    forall r :: r in relations ==>
      && r.bindingId in bindings && relations[r].id == r && relations[r].firstSeenAt == bindings[r.bindingId].createdAt
      && (r != RelationIdOf(bindings[r.bindingId]) ==> relations[r].lifecycle == TombstonedRelation)
  }

  ghost predicate Mirrors(bindings: Table, relations: map<RelationId, Relation>) {
    CurrentMirrored(bindings, relations) && OthersBuried(bindings, relations)
  }

  /** Field values of a binding as its history tells them, change after change. */
  function Replay(changes: seq<Change>, id: Id): map<FieldPath, Value>
    decreases |changes|
  {
    if changes == [] then map[]
    else
      var before := Replay(changes[..|changes| - 1], id);
      var last := changes[|changes| - 1];
      if last.bindingId == id then ReplayFields(before, last.fields) else before
  }

  function ReplayFields(values: map<FieldPath, Value>, fields: seq<FieldChange>): map<FieldPath, Value>
    decreases |fields|
  {
    if fields == [] then values else ReplayFields(values[fields[0].path := fields[0].after], fields[1..])
  }

  /** Every recorded `before` is the value the history up to then gives. */
  ghost predicate BeforesMatch(changes: seq<Change>) {
    forall k :: 0 <= k < |changes| ==>
      FieldsMatch(Replay(changes[..k], changes[k].bindingId), changes[k].fields)
  }

  ghost predicate FieldsMatch(values: map<FieldPath, Value>, fields: seq<FieldChange>) {
    forall f :: f in fields ==> f.before == (if f.path in values then Some(values[f.path]) else None) && f.before != Some(f.after)
  }

  function CurrentFields(b: Binding): map<FieldPath, Value> {
    map[SourceField := Reference(b.source), TargetField := Reference(b.target), KindField := Reference(b.kind), StatusField := StatusValue(b.status)]
  }

  /** The history gives each binding's current fields, and speaks of no other binding. */
  ghost predicate Replays(bindings: Table, changes: seq<Change>) {
    forall i :: Replay(changes, i) == if i in bindings then CurrentFields(bindings[i]) else map[]
  }

  /** Version and change ids are all different, and none lies in the future of its binding. */
  ghost predicate NoRepeats(s: State) {
    && (forall i, j :: 0 <= i < j < |s.versions| ==> s.versions[i] != s.versions[j])
    && (forall i, j :: 0 <= i < j < |s.changes| ==> (s.changes[i].bindingId, s.changes[i].at) != (s.changes[j].bindingId, s.changes[j].at))
    && (forall i :: 0 <= i < |s.versions| ==>
          s.versions[i].relation.bindingId in s.bindings && s.versions[i].at <= s.bindings[s.versions[i].relation.bindingId].updatedAt)
    && (forall i :: 0 <= i < |s.changes| ==>
          s.changes[i].bindingId in s.bindings && s.changes[i].at <= s.bindings[s.changes[i].bindingId].updatedAt)
  }

  /** Each relation has a version of the time it was last written, and each version is of a stored relation. */
  ghost predicate VersionsKept(s: State) {
    && (forall r :: r in s.relations ==> VersionId(r, s.relations[r].lastSeenAt) in s.versions)
    && (forall v :: v in s.versions ==> v.relation in s.relations)
  }

  ghost predicate Invariant(s: State) {
    && Sane(s.bindings) && Unique(s.bindings) && Mirrors(s.bindings, s.relations)
    && Replays(s.bindings, s.changes) && BeforesMatch(s.changes) && NoRepeats(s) && VersionsKept(s)
  }

  /** What every commit of the service has in common. */
  ghost predicate Advances(bindings: Table, previous: Option<Binding>, b: Binding, at: int) {
    && b.updatedAt == at && b.source != b.target && b.createdAt <= at
    && (previous.None? <==> b.id !in bindings)
    && (previous.Some? ==>
          bindings[b.id] == previous.value && previous.value.id == b.id && previous.value.createdAt == b.createdAt
          && previous.value.updatedAt < at)
    && (b.status != Disabled ==> !Duplicated(bindings, Input(b.source, b.target, b.kind), Some(b.id)))
  }

  lemma DecisionsAdvance(bindings: Table, active: set<Id>, c: Command)
    requires Sane(bindings) && Unique(bindings)
    requires c.Create? ==> c.id !in bindings
    requires Decide(bindings, active, c).Committed?
    ensures exists previous, b, at :: Advances(bindings, previous, b, at) && Decide(bindings, active, c).commit == BindingCommit(previous, b, at)
  {
    hide BindingCommit;
    match c
    case Create(id, input, at) =>
      var b := Binding(id, input.source, input.target, input.kind, EndpointStatus(active, input), at, at);
      assert Advances(bindings, None, b, at);
    case Update(id, input, at) =>
      var existing := bindings[id];
      var status := if existing.status == Disabled then Disabled else EndpointStatus(active, input);
      var b := Binding(existing.id, input.source, input.target, input.kind, status, existing.createdAt, at);
      assert Advances(bindings, Some(existing), b, at);
    case Disable(id, at) =>
      var b := bindings[id].(status := Disabled, updatedAt := at);
      assert Advances(bindings, Some(bindings[id]), b, at);
    case Reconcile(id, at) =>
      var existing := bindings[id];
      var b := existing.(status := EndpointStatus(active, Input(existing.source, existing.target, existing.kind)), updatedAt := at);
      assert Advances(bindings, Some(existing), b, at);
  }

  lemma CommitKeepsTable(bindings: Table, previous: Option<Binding>, b: Binding, at: int)
    requires Sane(bindings) && Unique(bindings) && Advances(bindings, previous, b, at)
    ensures Sane(bindings[b.id := b]) && Unique(bindings[b.id := b])
  {
  }

  lemma UpsertOne(relations: map<RelationId, Relation>, r: Relation)
    ensures Upsert(relations, [r]) == relations[r.id := r]
  {
    assert Upsert(relations, [r]) == Upsert(relations[r.id := r], [r][1..]);
  }

  lemma UpsertTwo(relations: map<RelationId, Relation>, q: Relation, r: Relation)
    ensures Upsert(relations, [q, r]) == relations[q.id := q][r.id := r]
  {
    assert [q, r][1..] == [r];
    UpsertOne(relations[q.id := q], r);
  }

  function RelationsAfter(relations: map<RelationId, Relation>, previous: Option<Binding>, b: Binding, at: int): map<RelationId, Relation> {
    var current := ConfiguredRelation(b, RelationLifecycle(b.status), at);
    if previous.Some? && RelationIdOf(previous.value) != RelationIdOf(b)
    then relations[RelationIdOf(previous.value) := ConfiguredRelation(previous.value, TombstonedRelation, at)][current.id := current]
    else relations[current.id := current]
  }

  /** The relation table after a commit: the current relation, and the former one buried when the identity changed. */
  lemma CommitRelations(relations: map<RelationId, Relation>, previous: Option<Binding>, b: Binding, at: int)
    ensures Upsert(relations, BindingCommit(previous, b, at).relations) == RelationsAfter(relations, previous, b, at)
  {
    hide BindingChanges, Upsert;
    var current := ConfiguredRelation(b, RelationLifecycle(b.status), at);
    if previous.Some? && RelationIdOf(previous.value) != RelationIdOf(b) {
      var former := ConfiguredRelation(previous.value, TombstonedRelation, at);
      assert BindingCommit(previous, b, at).relations == [former, current];
      UpsertTwo(relations, former, current);
    } else {
      assert BindingCommit(previous, b, at).relations == [current];
      UpsertOne(relations, current);
    }
  }

  lemma AfterIsMirrored(bindings: Table, relations: map<RelationId, Relation>, previous: Option<Binding>, b: Binding, at: int)
    requires Sane(bindings) && CurrentMirrored(bindings, relations) && Advances(bindings, previous, b, at)
    ensures CurrentMirrored(bindings[b.id := b], RelationsAfter(relations, previous, b, at))
  {
    hide Duplicated;
  }

  lemma AfterIsBuried(bindings: Table, relations: map<RelationId, Relation>, previous: Option<Binding>, b: Binding, at: int)
    requires Sane(bindings) && OthersBuried(bindings, relations) && Advances(bindings, previous, b, at)
    ensures OthersBuried(bindings[b.id := b], RelationsAfter(relations, previous, b, at))
  {
    hide Duplicated;
  }

  lemma CommitMirrors(bindings: Table, relations: map<RelationId, Relation>, previous: Option<Binding>, b: Binding, at: int)
    requires Sane(bindings) && Mirrors(bindings, relations) && Advances(bindings, previous, b, at)
    ensures Mirrors(bindings[b.id := b], Upsert(relations, BindingCommit(previous, b, at).relations))
  {
    hide BindingCommit, Upsert, Duplicated, RelationsAfter, Advances, Sane, CurrentMirrored, OthersBuried;
    CommitRelations(relations, previous, b, at);
    AfterIsMirrored(bindings, relations, previous, b, at);
    AfterIsBuried(bindings, relations, previous, b, at);
  }

  // ----- history -----

  lemma {:induction false} ChangesReplay(previous: Option<Binding>, current: Binding, paths: seq<FieldPath>, values: map<FieldPath, Value>)
    requires forall i, j :: 0 <= i < j < |paths| ==> paths[i] != paths[j]
    requires previous.Some? ==> forall path :: path in paths ==> path in values && values[path] == FieldOf(previous.value, path)
    ensures var after := ReplayFields(values, BindingChanges(previous, current, paths));
            && (forall path :: path in paths ==> path in after && after[path] == FieldOf(current, path))
            && (forall path :: path !in paths ==> (path in after <==> path in values) && (path in values ==> after[path] == values[path]))
    decreases |paths|
  {
    hide FieldOf;
    if paths != [] {
      var path, rest := paths[0], paths[1..];
      assert paths == [path] + rest && path !in rest;
      var before := match previous case None => None case Some(b) => Some(FieldOf(b, path));
      var after := FieldOf(current, path);
      if before == Some(after) {
        assert BindingChanges(previous, current, paths) == [] + BindingChanges(previous, current, rest);
        assert [] + BindingChanges(previous, current, rest) == BindingChanges(previous, current, rest);
        ChangesReplay(previous, current, rest, values);
      } else {
        var first := FieldChange(path, before, after);
        var fields := [first] + BindingChanges(previous, current, rest);
        assert BindingChanges(previous, current, paths) == fields;
        assert fields[0] == first && fields[1..] == BindingChanges(previous, current, rest);
        assert ReplayFields(values, fields) == ReplayFields(values[path := after], fields[1..]);
        ChangesReplay(previous, current, rest, values[path := after]);
      }
    }
  }

  lemma {:induction false} ChangesMatch(previous: Option<Binding>, current: Binding, paths: seq<FieldPath>, values: map<FieldPath, Value>)
    requires previous.None? ==> forall path :: path in paths ==> path !in values
    requires previous.Some? ==> forall path :: path in paths ==> path in values && values[path] == FieldOf(previous.value, path)
    ensures FieldsMatch(values, BindingChanges(previous, current, paths))
    decreases |paths|
  {
    hide FieldOf;
    if paths != [] {
      assert paths == [paths[0]] + paths[1..];
      ChangesMatch(previous, current, paths[1..], values);
    }
  }

  lemma AllPaths(p: FieldPath)
    ensures p in FIELD_PATHS
  {
    assert FIELD_PATHS[0] == SourceField && FIELD_PATHS[1] == TargetField && FIELD_PATHS[2] == KindField && FIELD_PATHS[3] == StatusField;
    match p case SourceField => case TargetField => case KindField => case StatusField =>
  }

  /** The fields recorded by a commit take a binding's history from its previous fields to its new ones. */
  lemma FieldsAdvance(previous: Option<Binding>, b: Binding, values: map<FieldPath, Value>)
    requires values == if previous.Some? then CurrentFields(previous.value) else map[]
    ensures var fields := BindingChanges(previous, b, FIELD_PATHS);
            ReplayFields(values, fields) == CurrentFields(b) && FieldsMatch(values, fields)
  {
    assert forall c: Binding, p: FieldPath :: p in CurrentFields(c) ==> CurrentFields(c)[p] == FieldOf(c, p);
    hide FieldOf, BindingChanges, FieldsMatch;
    forall p: FieldPath ensures p in FIELD_PATHS && p in {SourceField, TargetField, KindField, StatusField} {
      AllPaths(p);
      match p case SourceField => case TargetField => case KindField => case StatusField =>
    }
    ChangesReplay(previous, b, FIELD_PATHS, values);
    ChangesMatch(previous, b, FIELD_PATHS, values);
  }

  lemma CommitReplays(bindings: Table, changes: seq<Change>, previous: Option<Binding>, b: Binding, at: int)
    requires Replays(bindings, changes) && BeforesMatch(changes) && Advances(bindings, previous, b, at)
    ensures var changes' := changes + BindingCommit(previous, b, at).changes;
            Replays(bindings[b.id := b], changes') && BeforesMatch(changes')
  {
    hide BindingChanges, FieldsMatch, CurrentFields;
    var fields := BindingChanges(previous, b, FIELD_PATHS);
    var values := Replay(changes, b.id);
    FieldsAdvance(previous, b, values);
    if fields == [] {
      assert changes + [] == changes;
    } else {
      var change := Change(b.id, at, fields);
      var changes' := changes + [change];
      assert changes'[..|changes|] == changes;
      forall k | 0 <= k < |changes'| ensures FieldsMatch(Replay(changes'[..k], changes'[k].bindingId), changes'[k].fields) {
        assert changes'[..k] == changes[..k];
      }
    }
  }

  lemma CommitNeverRepeats(s: State, previous: Option<Binding>, b: Binding, at: int)
    requires NoRepeats(s) && Sane(s.bindings) && Advances(s.bindings, previous, b, at)
    ensures NoRepeats(Apply(s, Committed(BindingCommit(previous, b, at))))
  {
    hide BindingChanges, Upsert;
    var c := BindingCommit(previous, b, at);
    assert forall i :: 0 <= i < |c.versions| ==> c.versions[i].relation.bindingId == b.id && c.versions[i].at == at;
    assert |c.versions| == 2 ==> c.versions[0] != c.versions[1];
  }

  lemma CommitKeepsVersions(s: State, previous: Option<Binding>, b: Binding, at: int)
    requires VersionsKept(s) && Sane(s.bindings) && CurrentMirrored(s.bindings, s.relations) && Advances(s.bindings, previous, b, at)
    ensures VersionsKept(Apply(s, Committed(BindingCommit(previous, b, at))))
  {
    hide BindingChanges, Upsert, Duplicated;
    var c := BindingCommit(previous, b, at);
    CommitRelations(s.relations, previous, b, at);
    var versions := s.versions + c.versions;
    assert forall i :: 0 <= i < |c.versions| ==> versions[|s.versions| + i] == c.versions[i] == VersionId(c.relations[i].id, at);
    assert forall i :: 0 <= i < |c.relations| ==> c.relations[i].lastSeenAt == at;
    assert forall v :: v in s.versions ==> v in versions;
    forall r | r in RelationsAfter(s.relations, previous, b, at)
      ensures VersionId(r, RelationsAfter(s.relations, previous, b, at)[r].lastSeenAt) in versions
    {
      if r == RelationIdOf(b) {
        assert c.versions[|c.versions| - 1] == VersionId(r, at);
      } else if previous.Some? && r == RelationIdOf(previous.value) {
        assert c.versions[0] == VersionId(r, at);
      }
    }
  }

  /** One commit of the service keeps everything. */
  lemma CommitKeepsInvariant(s: State, previous: Option<Binding>, b: Binding, at: int)
    requires Invariant(s) && Advances(s.bindings, previous, b, at)
    ensures Invariant(Apply(s, Committed(BindingCommit(previous, b, at))))
  {
    hide Sane, Unique, CurrentMirrored, OthersBuried, Replays, BeforesMatch, NoRepeats, VersionsKept, Advances, BindingCommit;
    CommitKeepsVersions(s, previous, b, at);
    CommitKeepsTable(s.bindings, previous, b, at);
    CommitMirrors(s.bindings, s.relations, previous, b, at);
    CommitReplays(s.bindings, s.changes, previous, b, at);
    CommitNeverRepeats(s, previous, b, at);
    CommitOf(previous, b, at);
  }

  lemma CommitOf(previous: Option<Binding>, b: Binding, at: int)
    ensures BindingCommit(previous, b, at).binding == b
  {
  }

  // ----- runs -----

  /** A command with the resources active when it is served. */
  datatype Call = Call(active: set<Id>, command: Command)

  function Run(calls: seq<Call>): State
    decreases |calls|
  {
    if calls == [] then EMPTY
    else
      var s := Run(calls[..|calls| - 1]);
      var last := calls[|calls| - 1];
      Apply(s, Decide(s.bindings, last.active, last.command))
  }

  /** Ids drawn for new bindings are new. */
  ghost predicate FreshIds(calls: seq<Call>) {
    forall k :: 0 <= k < |calls| && calls[k].command.Create? ==> calls[k].command.id !in Run(calls[..k]).bindings
  }

  /** Over any calls, with resources coming and going between them, the table, its mirror and its history stay right. */
  lemma {:induction false} RunsKeepInvariant(calls: seq<Call>)
    requires FreshIds(calls)
    ensures Invariant(Run(calls))
    decreases |calls|
  {
    hide Sane, Unique, Mirrors, Replays, BeforesMatch, NoRepeats, VersionsKept, Advances, Decide, BindingCommit;
    if calls == [] {
      EmptyInvariant();
    } else {
      var front, last := calls[..|calls| - 1], calls[|calls| - 1];
      assert forall k :: 0 <= k < |front| ==> front[..k] == calls[..k] && front[k] == calls[k];
      RunsKeepInvariant(front);
      var s := Run(front);
      if Decide(s.bindings, last.active, last.command).Committed? {
        DecisionsAdvance(s.bindings, last.active, last.command);
        var previous, b, at :| Advances(s.bindings, previous, b, at)
                            && Decide(s.bindings, last.active, last.command).commit == BindingCommit(previous, b, at);
        CommitKeepsInvariant(s, previous, b, at);
      }
    }
  }

  // ----- what the calls so far make of a binding -----

  predicate Served(calls: seq<Call>)
    requires calls != []
  {
    var last := calls[|calls| - 1];
    !Decide(Run(calls[..|calls| - 1]).bindings, last.active, last.command).Failed?
  }

  /** The endpoints and kind last asked for, by a create or update that was served. */
  function Asked(calls: seq<Call>, id: Id): Option<Input> {
    if calls == [] then None
    else
      var last := calls[|calls| - 1].command;
      if (last.Create? || last.Update?) && last.id == id && Served(calls) then Some(last.input)
      else Asked(calls[..|calls| - 1], id)
  }

  /** Some disabling of it was served. */
  predicate WasDisabled(calls: seq<Call>, id: Id) {
    calls != [] &&
    (var last := calls[|calls| - 1].command;
     || (last.Disable? && last.id == id && Served(calls))
     || WasDisabled(calls[..|calls| - 1], id))
  }

  /** The resources active when its endpoints were last looked at, by a create, update or reconciliation that was served. */
  function LastSeenActive(calls: seq<Call>, id: Id): set<Id> {
    if calls == [] then {}
    else
      var last := calls[|calls| - 1];
      if !last.command.Disable? && last.command.id == id && Served(calls) then last.active
      else LastSeenActive(calls[..|calls| - 1], id)
  }

  /** A binding as the calls tell it: what was last asked for; once disabled, for good; and otherwise active exactly when both
      endpoints were, when last looked at. */
  ghost predicate AsTold(calls: seq<Call>, id: Id, bindings: Table) {
    && (id in bindings <==> Asked(calls, id).Some?)
    && (id in bindings ==>
          && Asked(calls, id) == Some(InputOf(bindings[id]))
          && bindings[id].status == (if WasDisabled(calls, id) then Disabled
                                     else if bindings[id].source in LastSeenActive(calls, id) && bindings[id].target in LastSeenActive(calls, id)
                                     then Active else Unresolved))
  }

  function InputOf(b: Binding): Input { Input(b.source, b.target, b.kind) }

  // ----- when a command is served, and how -----

  /** Some binding that is not disabled, other than the excepted one, joins these endpoints by this kind. */
  predicate LiveBetween(bindings: Table, source: Id, target: Id, kind: Id, except: Option<Id>) {
    exists i :: i in bindings && except != Some(i) && bindings[i].status != Disabled
                && bindings[i].source == source && bindings[i].target == target && bindings[i].kind == kind
  }

  /** A creation is refused exactly for equal endpoints, and else exactly when a live binding joins them already; it never keeps. */
  lemma CreateFate(bindings: Table, active: set<Id>, id: Id, input: Input, at: int)
    ensures var o := Decide(bindings, active, Create(id, input, at));
            var joined := LiveBetween(bindings, input.source, input.target, input.kind, None);
            && (o == Failed(Invalid) <==> input.source == input.target)
            && (o == Failed(Duplicate) <==> input.source != input.target && joined)
            && (o.Committed? <==> input.source != input.target && !joined) && !o.Kept?
  {
    hide BindingCommit;
  }

  /** An update is refused for equal endpoints, an unknown binding, a time not later, or, of a live binding, when another live one
      joins the endpoints, in this order; and commits otherwise. */
  lemma UpdateFate(bindings: Table, active: set<Id>, id: Id, input: Input, at: int)
    ensures var o := Decide(bindings, active, Update(id, input, at));
            var valid, known := input.source != input.target, id in bindings;
            var later := known && bindings[id].updatedAt < at;
            var joined := known && bindings[id].status != Disabled && LiveBetween(bindings, input.source, input.target, input.kind, Some(id));
            && (o == Failed(Invalid) <==> !valid)
            && (o == Failed(NotFound) <==> valid && !known)
            && (o == Failed(TemporalConflict) <==> valid && known && !later)
            && (o == Failed(Duplicate) <==> valid && later && joined)
            && (o.Committed? <==> valid && later && !joined) && !o.Kept?
  {
    hide BindingCommit;
  }

  /** Disabling is refused for an unknown binding, keeps a disabled one, is refused for a live one at a time not later, and commits otherwise. */
  lemma DisableFate(bindings: Table, active: set<Id>, id: Id, at: int)
    ensures var o := Decide(bindings, active, Disable(id, at));
            var known := id in bindings;
            var live := known && bindings[id].status != Disabled;
            && (o == Failed(NotFound) <==> !known)
            && (o.Kept? <==> known && !live)
            && (o == Failed(TemporalConflict) <==> live && at <= bindings[id].updatedAt)
            && (o.Committed? <==> live && bindings[id].updatedAt < at)
  {
    hide BindingCommit;
  }

  /** Reconciling is refused for an unknown binding, keeps a disabled one and one whose status fits its endpoints, is refused for
      another at a time not later, and commits otherwise. */
  lemma ReconcileFate(bindings: Table, active: set<Id>, id: Id, at: int)
    ensures var o := Decide(bindings, active, Reconcile(id, at));
            var known := id in bindings;
            var both := known && bindings[id].source in active && bindings[id].target in active;
            var fits := known && (bindings[id].status == Disabled || (bindings[id].status == Active <==> both));
            && (o == Failed(NotFound) <==> !known)
            && (o.Kept? <==> fits)
            && (o == Failed(TemporalConflict) <==> known && !fits && at <= bindings[id].updatedAt)
            && (o.Committed? <==> known && !fits && bindings[id].updatedAt < at)
  {
    hide BindingCommit;
  }

  /** The answer of a call is the error of a refused one, and otherwise the binding as it then is stored. */
  lemma AnswerMeans(bindings: Table, active: set<Id>, c: Command)
    requires Sane(bindings) && (c.Create? ==> c.id !in bindings)
    ensures var o := Decide(bindings, active, c);
            && (Answer(o).Err? <==> o.Failed?) && (o.Failed? ==> Answer(o).error == o.error)
            && (Answer(o).Ok? ==> c.id in TableAfter(bindings, o) && Answer(o).value == TableAfter(bindings, o)[c.id])
  {
    hide Duplicated, BindingChanges;
  }

  /** What a commit writes besides the binding: its relations at that time, a version for each, and at most one change, of that time. */
  lemma CommitMeans(previous: Option<Binding>, b: Binding, at: int)
    ensures var c := BindingCommit(previous, b, at);
            && c.binding == b && 1 <= |c.relations| <= 2 && |c.versions| == |c.relations|
            && (forall i :: 0 <= i < |c.relations| ==> c.relations[i].lastSeenAt == at && c.versions[i] == VersionId(c.relations[i].id, at))
            && |c.changes| <= 1 && (|c.changes| == 1 ==> c.changes[0].bindingId == b.id && c.changes[0].at == at && c.changes[0].fields != [])
  {
    hide BindingChanges;
  }

  function TableAfter(bindings: Table, o: Outcome): Table {
    if o.Committed? then bindings[o.commit.binding.id := o.commit.binding] else bindings
  }

  /** What a served command does to its own binding, and that it does nothing to another. */
  lemma ServedAsAsked(bindings: Table, active: set<Id>, c: Command, id: Id)
    requires Sane(bindings) && (c.Create? ==> c.id !in bindings)
    ensures var o := Decide(bindings, active, c);
            var after := TableAfter(bindings, o);
            && (o.Failed? || c.id != id ==> (id in after <==> id in bindings) && (id in bindings ==> after[id] == bindings[id]))
            && (!o.Failed? && c.id == id ==>
                  && id in after && (!c.Create? ==> id in bindings)
                  && InputOf(after[id]) == (if c.Create? || c.Update? then c.input else InputOf(bindings[id]))
                  && after[id].status == (if c.Disable? || (!c.Create? && bindings[id].status == Disabled) then Disabled
                                          else if after[id].source in active && after[id].target in active then Active else Unresolved)
                  && after[id].id == id && after[id].createdAt == (if c.Create? then c.at else bindings[id].createdAt)
                  && after[id].updatedAt == (if o.Committed? then c.at else bindings[id].updatedAt))
            && (o.Kept? ==> c.id in bindings && after == bindings && o.binding == bindings[c.id])
            && (o.Committed? ==> o.commit.binding.id == c.id)
  {
    hide Duplicated, BindingChanges;
  }

  lemma {:induction false} BindingsAreAsTold(calls: seq<Call>, id: Id)
    requires FreshIds(calls)
    ensures AsTold(calls, id, Run(calls).bindings)
    ensures WasDisabled(calls, id) ==> id in Run(calls).bindings
    decreases |calls|
  {
    hide Invariant, Decide, Upsert;
    if calls != [] {
      var front, last := calls[..|calls| - 1], calls[|calls| - 1];
      assert forall k :: 0 <= k < |front| ==> front[..k] == calls[..k] && front[k] == calls[k];
      BindingsAreAsTold(front, id);
      RunsKeepInvariant(front);
      SaneInvariant(Run(front));
      ServedAsAsked(Run(front).bindings, last.active, last.command, id);
      assert Run(calls).bindings == TableAfter(Run(front).bindings, Decide(Run(front).bindings, last.active, last.command));
    }
  }

  lemma SaneInvariant(s: State)
    requires Invariant(s)
    ensures Sane(s.bindings)
  {
  }

  lemma EmptyInvariant()
    ensures Invariant(EMPTY)
  {
  }
}
