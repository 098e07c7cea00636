/** Projection of a resource's attribute tree onto an allowlist of dotted paths, and its leaf accounting. */
module Attributes {
  import opened Wrappers
  import opened Ordering
  import opened Text

  /** A JSON value; what is not an object counts as one leaf, and a projection never opens it. */
  datatype Json = Object(fields: map<string, Json>) | List(items: seq<Json>) | Str(text: string) | Scalar(value: string)

  type Path = seq<string>

  function ValueAt(v: Json, path: Path): Option<Json>
    decreases |path|
  {
    if path == [] then Some(v)
    else if v.Object? && path[0] in v.fields then ValueAt(v.fields[path[0]], path[1..])
    else None
  }

  /** Puts a value at a path, creating objects on the way; a value in the way that is no object stops it. */
  function InsertAt(target: map<string, Json>, path: Path, value: Json): map<string, Json>
    decreases |path|
  {
    if path == [] then target
    else if |path| == 1 then target[path[0] := value]
    else
      var entry := if path[0] in target then target[path[0]] else Object(map[]);
      if entry.Object? then target[path[0] := Object(InsertAt(entry.fields, path[1..], value))] else target
  }

  function LeafCount(v: Json): nat
    decreases v, 1, 0
  {
    if v.Object? then FieldLeaves(v, v.fields.Keys) else 1
  }

  function FirstKey(keys: set<string>): (k: string)
    requires keys != {}
    ensures k in keys
  {
    TextOrder();
    LeastExistsFact(keys, TextLess);
    var k :| IsLeast(k, keys, TextLess);
    k
  }

  /** Leaves below some of the fields of an object. */
  function FieldLeaves(v: Json, keys: set<string>): nat
    requires v.Object? && keys <= v.fields.Keys
    decreases v, 0, |keys|
  {
    if keys == {} then 0
    else
      var k := FirstKey(keys);
      LeafCount(v.fields[k]) + FieldLeaves(v, keys - {k})
  }

  lemma {:induction false} LeavesWithout(v: Json, keys: set<string>, x: string)
    requires v.Object? && keys <= v.fields.Keys && x in keys
    ensures FieldLeaves(v, keys) == LeafCount(v.fields[x]) + FieldLeaves(v, keys - {x})
    decreases |keys|
  {
    var k := FirstKey(keys);
    if k != x {
      LeavesWithout(v, keys - {k}, x);
      LeavesWithout(v, keys - {x}, k);
      assert keys - {k} - {x} == keys - {x} - {k};
    }
  }

  lemma {:induction false} SameFieldsSameLeaves(v: Json, w: Json, keys: set<string>)
    requires v.Object? && w.Object? && keys <= v.fields.Keys && keys <= w.fields.Keys
    requires forall k :: k in keys ==> v.fields[k] == w.fields[k]
    ensures FieldLeaves(v, keys) == FieldLeaves(w, keys)
    decreases |keys|
  {
    if keys != {} {
      var x :| x in keys;
      LeavesWithout(v, keys, x);
      LeavesWithout(w, keys, x);
      SameFieldsSameLeaves(v, w, keys - {x});
    }
  }

  /** Replacing or adding one field changes the count by that field alone. */
  lemma LeavesOfUpdate(fields: map<string, Json>, k: string, value: Json)
    ensures LeafCount(Object(fields[k := value]))
         == LeafCount(Object(fields)) - (if k in fields then LeafCount(fields[k]) else 0) + LeafCount(value)
  {
    var v, w := Object(fields), Object(fields[k := value]);
    LeavesWithout(w, w.fields.Keys, k);
    assert w.fields.Keys - {k} == v.fields.Keys - {k};
    SameFieldsSameLeaves(v, w, v.fields.Keys - {k});
    if k in fields {
      LeavesWithout(v, v.fields.Keys, k);
    } else {
      assert v.fields.Keys - {k} == v.fields.Keys;
    }
  }

  // ----- what an insertion does -----

  /** Nothing but objects lies in the way. */
  ghost predicate Insertable(target: map<string, Json>, path: Path)
    decreases |path|
  {
    |path| >= 1 &&
    (|path| >= 2 && path[0] in target ==> target[path[0]].Object? && Insertable(target[path[0]].fields, path[1..]))
  }

  lemma {:induction false} InsertAbsorbs(target: map<string, Json>, path: Path, value: Json)
    requires path != [] && ValueAt(Object(target), path) == Some(value)
    ensures InsertAt(target, path, value) == target
    decreases |path|
  {
    if |path| >= 2 {
      InsertAbsorbs(target[path[0]].fields, path[1..], value);
    }
  }

  lemma ReadField(fields: map<string, Json>, k: string, value: Json, q: Path)
    requires q != [] && q[0] == k
    ensures ValueAt(Object(fields[k := value]), q) == ValueAt(value, q[1..])
  {
  }

  lemma PrefixTail(path: Path, q: Path)
    requires path != [] && path <= q
    ensures q[0] == path[0] && path[1..] <= q[1..] && q[1..][|path| - 1..] == q[|path|..]
  {
  }

  /** At and below the path the value is found. */
  lemma {:induction false} InsertedBelow(target: map<string, Json>, path: Path, value: Json, q: Path)
    requires Insertable(target, path) && path <= q
    ensures ValueAt(Object(InsertAt(target, path, value)), q) == ValueAt(value, q[|path|..])
    decreases |path|
  {
    hide ValueAt;
    var k, rest := path[0], q[1..];
    PrefixTail(path, q);
    if |path| == 1 {
      ReadField(target, k, value, q);
    } else {
      var entry := if k in target then target[k] else Object(map[]);
      var inner := Object(InsertAt(entry.fields, path[1..], value));
      ReadField(target, k, inner, q);
      InsertedBelow(entry.fields, path[1..], value, rest);
    }
  }

  /** Above the path lie objects. */
  lemma {:induction false} InsertedAbove(target: map<string, Json>, path: Path, value: Json, q: Path)
    requires Insertable(target, path) && q < path
    ensures ValueAt(Object(InsertAt(target, path, value)), q).Some? && ValueAt(Object(InsertAt(target, path, value)), q).value.Object?
    decreases |path|
  {
    if q != [] {
      var entry := if path[0] in target then target[path[0]] else Object(map[]);
      assert q[0] == path[0] && q[1..] < path[1..];
      InsertedAbove(entry.fields, path[1..], value, q[1..]);
    }
  }

  /** Everywhere else nothing changes. */
  lemma {:induction false} InsertedBeside(target: map<string, Json>, path: Path, value: Json, q: Path)
    requires Insertable(target, path) && !(path <= q) && !(q <= path)
    ensures ValueAt(Object(InsertAt(target, path, value)), q) == ValueAt(Object(target), q)
    decreases |path|
  {
    if q[0] == path[0] {
      var entry := if path[0] in target then target[path[0]] else Object(map[]);
      assert !(path[1..] <= q[1..]) by { if path[1..] <= q[1..] { Prefixed(path, q); } }
      assert !(q[1..] <= path[1..]) by { if q[1..] <= path[1..] { Prefixed(q, path); } }
      InsertedBeside(entry.fields, path[1..], value, q[1..]);
      if path[0] !in target {
        assert ValueAt(Object(map[]), q[1..]) == None;
      }
    }
  }

  lemma Prefixed(p: Path, q: Path)
    requires p != [] && q != [] && p[0] == q[0] && p[1..] <= q[1..]
    ensures p <= q
  {
    assert p == [p[0]] + p[1..] && q == [q[0]] + q[1..];
    assert p == q[..|p|];
  }

  /** A value put where nothing was adds its own leaves. */
  lemma {:induction false} InsertAddsLeaves(target: map<string, Json>, path: Path, value: Json)
    requires Insertable(target, path) && ValueAt(Object(target), path) == None
    ensures LeafCount(Object(InsertAt(target, path, value))) == LeafCount(Object(target)) + LeafCount(value)
    decreases |path|
  {
    if |path| == 1 {
      LeavesOfUpdate(target, path[0], value);
    } else {
      var entry := if path[0] in target then target[path[0]] else Object(map[]);
      InsertAddsLeaves(entry.fields, path[1..], value);
      LeavesOfUpdate(target, path[0], Object(InsertAt(entry.fields, path[1..], value)));
      assert LeafCount(Object(map[])) == 0;
    }
  }

  // ----- the projection -----

  /** The tree built by inserting, path after path, what the source holds there. */
  function ProjectPaths(source: Json, paths: seq<Path>): map<string, Json>
    decreases |paths|
  {
    if paths == [] then map[]
    else
      var p := paths[|paths| - 1];
      var before := ProjectPaths(source, paths[..|paths| - 1]);
      match ValueAt(source, p) case None => before case Some(v) => InsertAt(before, p, v)
  }

  /** Leaves counted on the way, once for every allowed path that is present. */
  function SelectedLeaves(source: Json, paths: seq<Path>): nat
    decreases |paths|
  {
    if paths == [] then 0
    else
      var p := paths[|paths| - 1];
      SelectedLeaves(source, paths[..|paths| - 1]) + match ValueAt(source, p) case None => 0 case Some(v) => LeafCount(v)
  }

  predicate Covered(paths: seq<Path>, q: Path) { exists i :: 0 <= i < |paths| && paths[i] <= q }

  /** Leaves that lie under two allowed paths, one inside the other. */
  function RedundantLeaves(source: Json, paths: seq<Path>): nat
    decreases |paths|
  {
    if paths == [] then 0
    else
      var p := paths[|paths| - 1];
      RedundantLeaves(source, paths[..|paths| - 1])
      + match ValueAt(source, p) case None => 0 case Some(v) => if Covered(paths[..|paths| - 1], p) then LeafCount(v) else 0
  }

  /** A place on the way to an allowed path that is present. */
  ghost predicate OnTheWay(source: Json, paths: seq<Path>, q: Path) {
    exists i :: 0 <= i < |paths| && q < paths[i] && ValueAt(source, paths[i]).Some?
  }

  /** The projected tree at one place: the source's own value under an allowed path; otherwise, exactly on the way to one that is
      present, an object; and nothing anywhere else. */
  ghost predicate ExactAt(source: Json, paths: seq<Path>, tree: Json, q: Path) {
    if Covered(paths, q) then ValueAt(tree, q) == ValueAt(source, q)
    else if q == [] || OnTheWay(source, paths, q) then
      ValueAt(tree, q).Some? && ValueAt(tree, q).value.Object? && ValueAt(source, q).Some? && ValueAt(source, q).value.Object?
    else ValueAt(tree, q) == None
  }

  ghost predicate Exact(source: Json, paths: seq<Path>, tree: Json) {
    forall q: Path :: ExactAt(source, paths, tree, q)
  }

  lemma {:induction false} ValueAtSplit(v: Json, p: Path, q: Path)
    requires p <= q
    ensures ValueAt(v, q) == match ValueAt(v, p) case None => None case Some(w) => ValueAt(w, q[|p|..])
    decreases |p|
  {
    if p != [] {
      assert q[0] == p[0] && p[1..] <= q[1..];
      if v.Object? && p[0] in v.fields {
        ValueAtSplit(v.fields[p[0]], p[1..], q[1..]);
        assert q[1..][|p| - 1..] == q[|p|..];
      }
    } else {
      assert q[0..] == q;
    }
  }

  lemma AboveIsObject(v: Json, q: Path, p: Path)
    requires q < p && ValueAt(v, p).Some?
    ensures ValueAt(v, q).Some? && ValueAt(v, q).value.Object?
  {
    ValueAtSplit(v, q, p);
  }

  lemma {:induction false} InsertableWhen(m: map<string, Json>, p: Path)
    requires p != []
    requires forall r: Path :: [] < r < p && ValueAt(Object(m), r).Some? ==> ValueAt(Object(m), r).value.Object?
    ensures Insertable(m, p)
    decreases |p|
  {
    if |p| >= 2 && p[0] in m {
      assert ValueAt(Object(m), p[..1]) == Some(m[p[0]]) by { assert p[..1][1..] == []; }
      var inner := m[p[0]];
      forall r: Path | [] < r < p[1..] && ValueAt(inner, r).Some? ensures ValueAt(inner, r).value.Object? {
        var longer := [p[0]] + r;
        assert longer[1..] == r && longer < p;
        assert ValueAt(Object(m), longer) == ValueAt(inner, r);
      }
      InsertableWhen(inner.fields, p[1..]);
    }
  }

  lemma CoveredSnoc(paths: seq<Path>, p: Path, q: Path)
    ensures Covered(paths + [p], q) <==> Covered(paths, q) || p <= q
  {
    var all := paths + [p];
    if Covered(paths, q) {
      var i :| 0 <= i < |paths| && paths[i] <= q;
      assert all[i] <= q;
    }
    if p <= q { assert all[|paths|] <= q; }
  }

  lemma OnTheWaySnoc(source: Json, paths: seq<Path>, p: Path, q: Path)
    ensures OnTheWay(source, paths + [p], q) <==> OnTheWay(source, paths, q) || (q < p && ValueAt(source, p).Some?)
  {
    hide ValueAt;
    var all := paths + [p];
    assert forall i :: 0 <= i < |paths| ==> all[i] == paths[i];
    assert all[|paths|] == p;
    if OnTheWay(source, paths, q) {
      var i :| 0 <= i < |paths| && q < paths[i] && ValueAt(source, paths[i]).Some?;
      assert all[i] == paths[i];
    }
  }

  lemma StaysExact(source: Json, before: seq<Path>, p: Path, m: map<string, Json>)
    requires source.Object? && p != [] && Exact(source, before, Object(m)) && ValueAt(source, p).Some?
    ensures Insertable(m, p)
    ensures !Covered(before, p) && (forall i :: 0 <= i < |before| ==> !(p <= before[i])) ==> ValueAt(Object(m), p) == None
    ensures Covered(before, p) ==> InsertAt(m, p, ValueAt(source, p).value) == m
    ensures Exact(source, before + [p], Object(InsertAt(m, p, ValueAt(source, p).value)))
  {
    var v := ValueAt(source, p).value;
    forall r: Path | [] < r < p && ValueAt(Object(m), r).Some? ensures ValueAt(Object(m), r).value.Object? {
      assert ExactAt(source, before, Object(m), r);
      AboveIsObject(source, r, p);
    }
    InsertableWhen(m, p);
    assert ExactAt(source, before, Object(m), p);
    var tree := Object(InsertAt(m, p, v));
    if Covered(before, p) {
      InsertAbsorbs(m, p, v);
    }
    forall q: Path ensures ExactAt(source, before + [p], tree, q) {
      assert ExactAt(source, before, Object(m), q);
      CoveredSnoc(before, p, q);
      OnTheWaySnoc(source, before, p, q);
      if p <= q {
        InsertedBelow(m, p, v, q);
        ValueAtSplit(source, p, q);
      } else if q < p {
        InsertedAbove(m, p, v, q);
        AboveIsObject(source, q, p);
        if Covered(before, q) {
          var i :| 0 <= i < |before| && before[i] <= q;
          assert before[i] <= p;
        }
      } else {
        InsertedBeside(m, p, v, q);
      }
    }
  }

  lemma AbsentStaysExact(source: Json, before: seq<Path>, p: Path, tree: Json)
    requires Exact(source, before, tree) && ValueAt(source, p).None?
    ensures Exact(source, before + [p], tree)
  {
    forall q: Path ensures ExactAt(source, before + [p], tree, q) {
      assert ExactAt(source, before, tree, q);
      CoveredSnoc(before, p, q);
      OnTheWaySnoc(source, before, p, q);
      if p <= q {
        ValueAtSplit(source, p, q);
      }
    }
  }

  /** The projected tree equals the source under every allowed path and holds nothing else but the objects on the way. */
  lemma {:induction false} ProjectionIsExact(source: Json, paths: seq<Path>)
    requires source.Object? && forall i :: 0 <= i < |paths| ==> paths[i] != []
    ensures Exact(source, paths, Object(ProjectPaths(source, paths)))
    decreases |paths|
  {
    if paths == [] {
      forall q: Path ensures ExactAt(source, paths, Object(map[]), q) {}
    } else {
      var before, p := paths[..|paths| - 1], paths[|paths| - 1];
      assert paths == before + [p];
      ProjectionIsExact(source, before);
      if ValueAt(source, p).Some? {
        StaysExact(source, before, p, ProjectPaths(source, before));
      } else {
        AbsentStaysExact(source, before, p, Object(ProjectPaths(source, before)));
      }
    }
  }

  // ----- leaf accounting -----

  /** No path is a prefix of an earlier one. */
  ghost predicate ShorterFirst(paths: seq<Path>) {
    forall i, j :: 0 <= i < j < |paths| ==> !(paths[j] <= paths[i])
  }

  /** Selected leaves are the leaves kept and those counted once more. */
  lemma {:induction false} SelectionAccounts(source: Json, paths: seq<Path>)
    requires source.Object? && ShorterFirst(paths) && forall i :: 0 <= i < |paths| ==> paths[i] != []
    ensures SelectedLeaves(source, paths) == LeafCount(Object(ProjectPaths(source, paths))) + RedundantLeaves(source, paths)
    decreases |paths|
  {
    if paths != [] {
      var before, p := paths[..|paths| - 1], paths[|paths| - 1];
      SelectionAccounts(source, before);
      if ValueAt(source, p).Some? {
        var m := ProjectPaths(source, before);
        ProjectionIsExact(source, before);
        StaysExact(source, before, p, m);
        if !Covered(before, p) {
          InsertAddsLeaves(m, p, ValueAt(source, p).value);
        }
      }
    }
  }

  /** A tree all of whose leaves and objects are those of another at the same places. */
  ghost predicate Within(t: Json, v: Json)
    decreases t
  {
    if t.Object? then v.Object? && forall k :: k in t.fields ==> k in v.fields && Within(t.fields[k], v.fields[k])
    else t == v
  }

  lemma {:induction false} WithinByPaths(t: Json, v: Json)
    requires forall q: Path :: ValueAt(t, q).Some? ==>
      && ValueAt(v, q).Some?
      && (!ValueAt(t, q).value.Object? ==> ValueAt(v, q) == ValueAt(t, q))
      && (ValueAt(t, q).value.Object? ==> ValueAt(v, q).value.Object?)
    ensures Within(t, v)
    decreases t
  {
    assert ValueAt(t, []) == Some(t) && ValueAt(v, []) == Some(v);
    if t.Object? {
      forall k | k in t.fields ensures k in v.fields && Within(t.fields[k], v.fields[k]) {
        assert ValueAt(t, [k]) == Some(t.fields[k]) by { assert [k][1..] == []; }
        assert k in v.fields;
        forall q: Path | ValueAt(t.fields[k], q).Some?
          ensures && ValueAt(v.fields[k], q).Some?
                  && (!ValueAt(t.fields[k], q).value.Object? ==> ValueAt(v.fields[k], q) == ValueAt(t.fields[k], q))
                  && (ValueAt(t.fields[k], q).value.Object? ==> ValueAt(v.fields[k], q).value.Object?)
        {
          assert ([k] + q)[1..] == q;
          assert ValueAt(t, [k] + q) == ValueAt(t.fields[k], q) && ValueAt(v, [k] + q) == ValueAt(v.fields[k], q);
        }
        WithinByPaths(t.fields[k], v.fields[k]);
      }
    }
  }

  lemma {:induction false} WithinHasFewerLeaves(t: Json, v: Json)
    requires Within(t, v)
    ensures LeafCount(t) <= LeafCount(v)
    decreases t, 1, 0
  {
    if t.Object? {
      FewerFieldLeaves(t, v, t.fields.Keys);
      MoreFieldsMoreLeaves(v, t.fields.Keys, v.fields.Keys);
    }
  }

  lemma {:induction false} FewerFieldLeaves(t: Json, v: Json, keys: set<string>)
    requires t.Object? && v.Object? && keys <= t.fields.Keys && keys <= v.fields.Keys
    requires forall k :: k in keys ==> Within(t.fields[k], v.fields[k])
    ensures FieldLeaves(t, keys) <= FieldLeaves(v, keys)
    decreases t, 0, |keys|
  {
    if keys != {} {
      var x :| x in keys;
      LeavesWithout(t, keys, x);
      LeavesWithout(v, keys, x);
      WithinHasFewerLeaves(t.fields[x], v.fields[x]);
      FewerFieldLeaves(t, v, keys - {x});
    }
  }

  lemma {:induction false} MoreFieldsMoreLeaves(v: Json, a: set<string>, b: set<string>)
    requires v.Object? && a <= b <= v.fields.Keys
    ensures FieldLeaves(v, a) <= FieldLeaves(v, b)
    decreases |b|
  {
    if a != b {
      var x :| x in b && x !in a;
      LeavesWithout(v, b, x);
      MoreFieldsMoreLeaves(v, a, b - {x});
    }
  }

  lemma KeptWithinSource(source: Json, paths: seq<Path>)
    requires source.Object? && forall i :: 0 <= i < |paths| ==> paths[i] != []
    ensures Within(Object(ProjectPaths(source, paths)), source)
    ensures LeafCount(Object(ProjectPaths(source, paths))) <= LeafCount(source)
  {
    var tree := Object(ProjectPaths(source, paths));
    ProjectionIsExact(source, paths);
    forall q: Path | ValueAt(tree, q).Some?
      ensures && ValueAt(source, q).Some?
              && (!ValueAt(tree, q).value.Object? ==> ValueAt(source, q) == ValueAt(tree, q))
              && (ValueAt(tree, q).value.Object? ==> ValueAt(source, q).value.Object?)
    {
      assert ExactAt(source, paths, tree, q);
    }
    WithinByPaths(tree, source);
    WithinHasFewerLeaves(tree, source);
  }

  // ----- the allowlist -----

  /** Allowed paths as segments, in the order of their dotted text. */
  function PathsOf(allowed: set<string>): (paths: seq<Path>)
    ensures |paths| == |allowed| && forall i :: 0 <= i < |paths| ==> paths[i] != []
  {
    TextOrder();
    var list := Listing(allowed, TextLess);
    seq(|list|, i requires 0 <= i < |list| => Split(list[i], '.'))
  }

  lemma SplitKeepsOrder(a: string, b: string)
    requires TextLess(a, b)
    ensures !(Split(b, '.') <= Split(a, '.'))
  {
    hide TextLess;
    JoinSplit(a, '.');
    JoinSplit(b, '.');
    TextTotal(a, a);
    var p, q := Split(b, '.'), Split(a, '.');
    assert p <= q ==> p < q || p == q;
    if p < q {
      JoinPrefix(Split(b, '.'), Split(a, '.'), '.');
      PrefixFirst(b, a);
      TextTransitive(a, b, a);
    }
  }

  lemma PathsShorterFirst(allowed: set<string>)
    ensures ShorterFirst(PathsOf(allowed))
  {
    hide Split, TextLess, StrictTotal;
    TextOrder();
    var list := Listing(allowed, TextLess);
    forall i, j | 0 <= i < j < |list| ensures !(Split(list[j], '.') <= Split(list[i], '.')) {
      SplitKeepsOrder(list[i], list[j]);
    }
  }

  method ProjectAttributes(source: map<string, Json>, allowed: set<string>) returns (projected: Json, dropped: nat)
    ensures projected == Object(ProjectPaths(Object(source), PathsOf(allowed)))
    ensures dropped == Dropped(Object(source), allowed)
  {
    hide LeafCount, ValueAt, InsertAt, PathsOf;
    var paths := PathsOf(allowed);
    var tree, selected := map[], 0;
    for k := 0 to |paths|
      invariant tree == ProjectPaths(Object(source), paths[..k])
      invariant selected == SelectedLeaves(Object(source), paths[..k])
    {
      assert paths[..k + 1][..k] == paths[..k];
      var value := ValueAt(Object(source), paths[k]);
      if value.Some? {
        selected := selected + LeafCount(value.value);
        tree := InsertAt(tree, paths[k], value.value);
      }
    }
    assert paths[..|paths|] == paths;
    projected := Object(tree);
    var total := LeafCount(Object(source));
    dropped := if total > selected then total - selected else 0;
  }

  function Dropped(source: Json, allowed: set<string>): nat {
    var total, selected := LeafCount(source), SelectedLeaves(source, PathsOf(allowed));
    if total > selected then total - selected else 0
  }

  /** A path is present and holds leaves. */
  predicate HoldsLeaves(source: Json, p: Path) { ValueAt(source, p).Some? && LeafCount(ValueAt(source, p).value) > 0 }

  /** No allowed path that holds leaves lies inside another. */
  ghost predicate NoneNested(source: Json, paths: seq<Path>) {
    forall i, j :: 0 <= i < j < |paths| && paths[i] <= paths[j] ==> !HoldsLeaves(source, paths[j])
  }

  lemma NestedSnoc(source: Json, before: seq<Path>, p: Path)
    ensures NoneNested(source, before + [p]) <==> NoneNested(source, before) && !(Covered(before, p) && HoldsLeaves(source, p))
  {
    hide HoldsLeaves;
    var paths := before + [p];
    assert forall i :: 0 <= i < |before| ==> paths[i] == before[i];
    assert paths[|before|] == p;
    if NoneNested(source, paths) && Covered(before, p) {
      var i :| 0 <= i < |before| && before[i] <= p;
      assert paths[i] <= paths[|before|];
    }
  }

  lemma {:induction false} RedundantMeansNested(source: Json, paths: seq<Path>)
    ensures RedundantLeaves(source, paths) == 0 <==> NoneNested(source, paths)
    decreases |paths|
  {
    hide LeafCount, ValueAt, NoneNested, Covered;
    if paths == [] {
      NothingNested(source);
    } else {
      var before, p := paths[..|paths| - 1], paths[|paths| - 1];
      assert paths == before + [p];
      RedundantMeansNested(source, before);
      NestedSnoc(source, before, p);
    }
  }

  lemma NothingNested(source: Json)
    ensures NoneNested(source, [])
  {
  }

  predicate LeafAt(v: Json, q: Path) { ValueAt(v, q).Some? && !ValueAt(v, q).value.Object? }

  /** Every leaf of the source lies at or under an allowed path. */
  ghost predicate EveryLeafCovered(source: Json, paths: seq<Path>) {
    forall q: Path :: LeafAt(source, q) ==> Covered(paths, q)
  }

  /** Every leaf of one tree is found in another. */
  ghost predicate AllThere(t: Json, v: Json) {
    forall q: Path :: LeafAt(v, q) ==> ValueAt(t, q) == ValueAt(v, q)
  }

  /** The same, for the leaves below one field. */
  ghost predicate AllThereBelow(t: Json, v: Json, k: string)
    requires v.Object? && k in v.fields
  {
    forall q: Path :: LeafAt(v.fields[k], q) ==> ValueAt(t, [k] + q) == ValueAt(v.fields[k], q)
  }

  /** One field has as many leaves in both trees. */
  predicate SameBelow(t: Json, v: Json, k: string)
    requires t.Object? && v.Object? && k in v.fields
  {
    LeafCount(v.fields[k]) == if k in t.fields then LeafCount(t.fields[k]) else 0
  }

  lemma {:induction false} FieldsAgree(t: Json, v: Json, keys: set<string>)
    requires t.Object? && v.Object? && keys <= v.fields.Keys
    requires forall k :: k in keys && k in t.fields ==> LeafCount(t.fields[k]) <= LeafCount(v.fields[k])
    ensures FieldLeaves(t, keys * t.fields.Keys) <= FieldLeaves(v, keys)
    ensures FieldLeaves(t, keys * t.fields.Keys) == FieldLeaves(v, keys) <==> forall k :: k in keys ==> SameBelow(t, v, k)
    decreases |keys|
  {
    if keys != {} {
      var x :| x in keys;
      LeavesWithout(v, keys, x);
      FieldsAgree(t, v, keys - {x});
      if x in t.fields {
        LeavesWithout(t, keys * t.fields.Keys, x);
        assert keys * t.fields.Keys - {x} == (keys - {x}) * t.fields.Keys;
      } else {
        assert keys * t.fields.Keys == (keys - {x}) * t.fields.Keys;
      }
    }
  }

  lemma FieldPath(v: Json, k: string, q: Path)
    ensures ValueAt(v, [k] + q) == if v.Object? && k in v.fields then ValueAt(v.fields[k], q) else None
  {
    assert ([k] + q)[1..] == q;
  }

  lemma AllThereByField(t: Json, v: Json)
    requires v.Object?
    ensures AllThere(t, v) <==> forall k :: k in v.fields ==> AllThereBelow(t, v, k)
  {
    if AllThere(t, v) {
      forall k, q: Path | k in v.fields && LeafAt(v.fields[k], q) ensures ValueAt(t, [k] + q) == ValueAt(v.fields[k], q) {
        FieldPath(v, k, q);
      }
    }
    if forall k :: k in v.fields ==> AllThereBelow(t, v, k) {
      forall q: Path | LeafAt(v, q) ensures ValueAt(t, q) == ValueAt(v, q) {
        var k, rest := q[0], q[1..];
        assert q == [k] + rest;
        FieldPath(v, k, rest);
        assert AllThereBelow(t, v, k);
      }
    }
  }

  /** A tree within another has as many leaves exactly when it has all of them. */
  lemma {:induction false} SameCountMeansAllThere(t: Json, v: Json)
    requires Within(t, v)
    ensures LeafCount(t) == LeafCount(v) <==> AllThere(t, v)
    decreases v
  {
    if v.Object? {
      forall k | k in v.fields ensures SameBelow(t, v, k) <==> AllThereBelow(t, v, k) {
        SameBelowMeans(t, v, k);
      }
      forall k | k in t.fields ensures LeafCount(t.fields[k]) <= LeafCount(v.fields[k]) {
        WithinHasFewerLeaves(t.fields[k], v.fields[k]);
      }
      FieldsAgree(t, v, v.fields.Keys);
      assert v.fields.Keys * t.fields.Keys == t.fields.Keys;
      AllThereByField(t, v);
    }
  }

  lemma {:induction false} SameBelowMeans(t: Json, v: Json, k: string)
    requires t.Object? && v.Object? && Within(t, v) && k in v.fields
    ensures SameBelow(t, v, k) <==> AllThereBelow(t, v, k)
    decreases v, 0
  {
    var w := v.fields[k];
    forall q: Path ensures ValueAt(t, [k] + q) == if k in t.fields then ValueAt(t.fields[k], q) else None {
      FieldPath(t, k, q);
    }
    if k in t.fields {
      SameCountMeansAllThere(t.fields[k], w);
    } else if !w.Object? {
      assert LeafAt(w, []);
    } else {
      var none := Object(map[]);
      SameCountMeansAllThere(none, w);
      assert LeafCount(none) == 0;
      assert forall q: Path :: LeafAt(w, q) ==> ValueAt(none, q) == None;
    }
  }

  /** Nothing is lost exactly when every leaf of the source is covered. */
  lemma NothingLostMeansCovered(source: Json, paths: seq<Path>)
    requires source.Object? && forall i :: 0 <= i < |paths| ==> paths[i] != []
    ensures LeafCount(Object(ProjectPaths(source, paths))) <= LeafCount(source)
    ensures LeafCount(Object(ProjectPaths(source, paths))) == LeafCount(source) <==> EveryLeafCovered(source, paths)
  {
    var tree := Object(ProjectPaths(source, paths));
    KeptWithinSource(source, paths);
    SameCountMeansAllThere(tree, source);
    ProjectionIsExact(source, paths);
    forall q: Path | LeafAt(source, q) ensures ValueAt(tree, q) == ValueAt(source, q) <==> Covered(paths, q) {
      assert ExactAt(source, paths, tree, q);
    }
  }

  /** Leaves kept plus leaves dropped make up the source exactly when no allowed path with leaves lies inside another, or every
      leaf of the source is allowed. */
  lemma LeavesAreAccounted(source: Json, allowed: set<string>)
    requires source.Object?
    ensures var paths := PathsOf(allowed);
            LeafCount(Object(ProjectPaths(source, paths))) + Dropped(source, allowed) == LeafCount(source)
            <==> NoneNested(source, paths) || EveryLeafCovered(source, paths)
  {
    PathsShorterFirst(allowed);
    SelectionAccounts(source, PathsOf(allowed));
    NothingLostMeansCovered(source, PathsOf(allowed));
    RedundantMeansNested(source, PathsOf(allowed));
  }

  ghost predicate PrefixFree(paths: seq<Path>) {
    forall i, j :: 0 <= i < |paths| && 0 <= j < |paths| && i != j ==> !(paths[i] <= paths[j])
  }

  /** For an allowlist in which no path lies inside another, nothing is lost from the account. */
  lemma PrefixFreeAccounts(source: Json, allowed: set<string>)
    requires source.Object? && PrefixFree(PathsOf(allowed))
    ensures LeafCount(Object(ProjectPaths(source, PathsOf(allowed)))) + Dropped(source, allowed) == LeafCount(source)
  {
    LeavesAreAccounted(source, allowed);
  }

  /** An allowlist with a path inside another loses leaves from the account: one of two is kept and none reported dropped. */
  lemma NestedPathsMiscount(source: Json)
    requires source == Object(map["a" := Object(map["b" := Str("1")]), "c" := Str("2")])
    ensures PathsOf({"a", "a.b"}) == [["a"], ["a", "b"]]
    ensures LeafCount(source) == 2 && Dropped(source, {"a", "a.b"}) == 0
    ensures LeafCount(Object(ProjectPaths(source, [["a"], ["a", "b"]]))) == 1
  {
    hide InsertAt, ValueAt, LeafCount;
    NestedPaths();
    var inner := Object(map["b" := Str("1")]);
    NestedCounts(source, inner);
    NestedReads(source, inner);
    var first, both: seq<Path> := [["a"]], [["a"], ["a", "b"]];
    assert both[..1] == first && first[..0] == [];
    assert ProjectPaths(source, first) == InsertAt(map[], ["a"], inner);
    assert ProjectPaths(source, both) == InsertAt(map["a" := inner], ["a", "b"], Str("1"));
  }

  lemma NestedCounts(source: Json, inner: Json)
    requires inner == Object(map["b" := Str("1")]) && source == Object(map["a" := inner, "c" := Str("2")])
    ensures LeafCount(inner) == 1 && LeafCount(Str("1")) == 1 && LeafCount(Object(map["a" := inner])) == 1 && LeafCount(source) == 2
  {
    LeavesOfUpdate(map[], "b", Str("1"));
    LeavesOfUpdate(map[], "a", inner);
    LeavesOfUpdate(map["a" := inner], "c", Str("2"));
    assert map["a" := inner]["c" := Str("2")] == source.fields;
    assert map[]["b" := Str("1")] == inner.fields;
    assert map[]["a" := inner] == map["a" := inner];
  }

  lemma NestedReads(source: Json, inner: Json)
    requires inner == Object(map["b" := Str("1")]) && source == Object(map["a" := inner, "c" := Str("2")])
    ensures ValueAt(source, ["a"]) == Some(inner) && ValueAt(source, ["a", "b"]) == Some(Str("1"))
    ensures InsertAt(map[], ["a"], inner) == map["a" := inner]
    ensures InsertAt(map["a" := inner], ["a", "b"], Str("1")) == map["a" := inner]
  {
    assert ["a"][1..] == [] && ["a", "b"][1..] == ["b"] && ["b"][1..] == [];
    assert ValueAt(inner, ["b"]) == Some(Str("1"));
    assert ValueAt(Object(map["a" := inner]), ["a", "b"]) == Some(Str("1"));
    InsertAbsorbs(map["a" := inner], ["a", "b"], Str("1"));
  }

  lemma NestedPaths()
    ensures PathsOf({"a", "a.b"}) == [["a"], ["a", "b"]]
  {
    hide StrictTotal, Split;
    TextOrder();
    var list := NestedList();
    SplitWhole("a", '.');
    SplitWhole("b", '.');
    assert "a.b" == "a" + ['.'] + "b";
    SplitAt("a", '.', "b");
    var paths := PathsOf({"a", "a.b"});
    assert Split("a.b", '.') == ["a", "b"];
    assert |paths| == 2;
    assert paths[0] == Split(list[0], '.');
    assert paths[1] == Split(list[1], '.');
    assert paths == [["a"], ["a", "b"]];
  }

  lemma NestedList() returns (list: seq<string>)
    ensures StrictTotal(TextLess) && list == Listing({"a", "a.b"}, TextLess) && list == ["a", "a.b"]
  {
    TextOrder();
    list := Listing({"a", "a.b"}, TextLess);
    PrefixFirst("a", "a.b");
    var pair := ["a", "a.b"];
    assert forall x :: x in pair <==> x == "a" || x == "a.b";
    AscendingUnique(list, pair, TextLess);
  }

  // ----- what a projection is -----

  lemma {:induction false} WithinBothWays(t: Json, u: Json)
    requires Within(t, u) && Within(u, t)
    ensures t == u
    decreases t
  {
    if t.Object? {
      forall k | k in t.fields ensures k in u.fields && t.fields[k] == u.fields[k] {
        WithinBothWays(t.fields[k], u.fields[k]);
      }
      assert t.fields == u.fields;
    }
  }

  /** No other tree is exact. */
  lemma ExactIsUnique(source: Json, paths: seq<Path>, t: Json, u: Json)
    requires Exact(source, paths, t) && Exact(source, paths, u)
    ensures t == u
  {
    hide ValueAt, Covered, OnTheWay;
    forall q: Path
      ensures ValueAt(t, q) == ValueAt(u, q)
              || (ValueAt(t, q).Some? && ValueAt(u, q).Some? && ValueAt(t, q).value.Object? && ValueAt(u, q).value.Object?)
    {
      assert ExactAt(source, paths, t, q) && ExactAt(source, paths, u, q);
    }
    WithinByPaths(t, u);
    WithinByPaths(u, t);
    WithinBothWays(t, u);
  }

  /** Two sources project alike exactly when they hold the same at every allowed path. */
  lemma ProjectionsAgree(v: Json, w: Json, paths: seq<Path>)
    requires v.Object? && w.Object? && forall i :: 0 <= i < |paths| ==> paths[i] != []
    ensures ProjectPaths(v, paths) == ProjectPaths(w, paths) <==> forall i :: 0 <= i < |paths| ==> ValueAt(v, paths[i]) == ValueAt(w, paths[i])
  {
    hide ValueAt, ProjectPaths;
    ProjectionIsExact(v, paths);
    ProjectionIsExact(w, paths);
    if ProjectPaths(v, paths) == ProjectPaths(w, paths) {
      forall i | 0 <= i < |paths| ensures ValueAt(v, paths[i]) == ValueAt(w, paths[i]) {
        assert ExactAt(v, paths, Object(ProjectPaths(v, paths)), paths[i]) && ExactAt(w, paths, Object(ProjectPaths(w, paths)), paths[i]);
        assert paths[i] <= paths[i];
      }
    }
    if forall i :: 0 <= i < |paths| ==> ValueAt(v, paths[i]) == ValueAt(w, paths[i]) {
      SameReadsSameTree(v, w, paths);
    }
  }

  /** The allowed paths are the dotted texts of the allowlist, cut at their dots. */
  lemma PathsMean(allowed: set<string>)
    ensures forall i :: 0 <= i < |PathsOf(allowed)| ==> PathsOf(allowed)[i] != [] && Join(PathsOf(allowed)[i], '.') in allowed
    ensures forall i, j :: 0 <= i < |PathsOf(allowed)| && 0 <= j < |PathsOf(allowed)[i]| ==> '.' !in PathsOf(allowed)[i][j]
    ensures forall a :: a in allowed ==> exists i :: 0 <= i < |PathsOf(allowed)| && PathsOf(allowed)[i] != [] && Join(PathsOf(allowed)[i], '.') == a
  {
    hide Split, Join;
    TextOrder();
    hide StrictTotal, TextLess;
    var list, paths := Listing(allowed, TextLess), PathsOf(allowed);
    forall i | 0 <= i < |list|
      ensures paths[i] != [] && Join(paths[i], '.') == list[i] && list[i] in allowed && forall j :: 0 <= j < |paths[i]| ==> '.' !in paths[i][j]
    {
      assert list[i] in list;
      JoinSplit(list[i], '.');
      SplitHasNone(list[i], '.');
    }
    forall a | a in allowed ensures exists i :: 0 <= i < |paths| && paths[i] != [] && Join(paths[i], '.') == a {
      assert a in list;
      var i :| 0 <= i < |list| && list[i] == a;
      assert Join(paths[i], '.') == a;
    }
  }

  /** The places of the leaves of a value. */
  function LeafPaths(v: Json): set<Path>
    decreases v, 1, 0
  {
    if v.Object? then FieldLeafPaths(v, v.fields.Keys) else {[]}
  }

  function FieldLeafPaths(v: Json, keys: set<string>): set<Path>
    requires v.Object? && keys <= v.fields.Keys
    decreases v, 0, |keys|
  {
    if keys == {} then {}
    else
      var k := FirstKey(keys);
      (set q | q in LeafPaths(v.fields[k]) :: [k] + q) + FieldLeafPaths(v, keys - {k})
  }

  lemma {:induction false} PrefixedCount(paths: set<Path>, k: string)
    ensures |set q | q in paths :: [k] + q| == |paths|
    decreases |paths|
  {
    if paths != {} {
      var p :| p in paths;
      PrefixedCount(paths - {p}, k);
      var rest := set q | q in paths - {p} :: [k] + q;
      assert (set q | q in paths :: [k] + q) == rest + {[k] + p};
      forall q | q in paths - {p} ensures [k] + q != [k] + p {
        assert ([k] + q)[1..] == q && ([k] + p)[1..] == p;
      }
    }
  }

  /** The leaf count is the number of places where something other than an object lies, and these are all the places. */
  lemma {:induction false} LeafCountMeans(v: Json)
    ensures LeafCount(v) == |LeafPaths(v)| && forall q :: q in LeafPaths(v) <==> LeafAt(v, q)
    decreases v, 1, 0
  {
    if v.Object? {
      FieldCountMeans(v, v.fields.Keys);
    }
  }

  lemma {:induction false} FieldCountMeans(v: Json, keys: set<string>)
    requires v.Object? && keys <= v.fields.Keys
    ensures FieldLeaves(v, keys) == |FieldLeafPaths(v, keys)|
    ensures forall q :: q in FieldLeafPaths(v, keys) <==> q != [] && q[0] in keys && LeafAt(v, q)
    decreases v, 0, |keys|
  {
    if keys != {} {
      var k := FirstKey(keys);
      var below := LeafPaths(v.fields[k]);
      LeafCountMeans(v.fields[k]);
      FieldCountMeans(v, keys - {k});
      PrefixedCount(below, k);
      FirstPlaces(v, k, below);
      assert (set q | q in below :: [k] + q) !! FieldLeafPaths(v, keys - {k});
    }
  }

  lemma FirstPlaces(v: Json, k: string, below: set<Path>)
    requires v.Object? && k in v.fields && forall q :: q in below <==> LeafAt(v.fields[k], q)
    ensures forall q: Path :: q in (set r | r in below :: [k] + r) <==> q != [] && q[0] == k && LeafAt(v, q)
  {
    hide ValueAt;
    var first := set r | r in below :: [k] + r;
    forall r: Path ensures LeafAt(v, [k] + r) <==> LeafAt(v.fields[k], r) {
      FieldPath(v, k, r);
    }
    forall q: Path | q != [] && q[0] == k ensures q in first <==> LeafAt(v, q) {
      assert q == [k] + q[1..];
      if q in first {
        var r :| r in below && [k] + r == q;
        assert r == q[1..];
      }
    }
  }

  // ----- projecting again -----

  lemma {:induction false} SameReadsSameTree(v: Json, w: Json, paths: seq<Path>)
    requires forall i :: 0 <= i < |paths| ==> ValueAt(v, paths[i]) == ValueAt(w, paths[i])
    ensures ProjectPaths(v, paths) == ProjectPaths(w, paths) && SelectedLeaves(v, paths) == SelectedLeaves(w, paths)
    decreases |paths|
  {
    if paths != [] {
      SameReadsSameTree(v, w, paths[..|paths| - 1]);
    }
  }

  /** Projecting a projected tree changes nothing and drops nothing. */
  lemma ProjectionIsIdempotent(source: Json, allowed: set<string>)
    requires source.Object?
    ensures var tree := Object(ProjectPaths(source, PathsOf(allowed)));
            ProjectPaths(tree, PathsOf(allowed)) == tree.fields && Dropped(tree, allowed) == 0
  {
    var paths := PathsOf(allowed);
    var tree := Object(ProjectPaths(source, paths));
    ProjectionIsExact(source, paths);
    forall i | 0 <= i < |paths| ensures ValueAt(tree, paths[i]) == ValueAt(source, paths[i]) {
      assert ExactAt(source, paths, tree, paths[i]);
      assert paths[i] <= paths[i];
    }
    SameReadsSameTree(tree, source, paths);
    PathsShorterFirst(allowed);
    SelectionAccounts(source, paths);
  }
}
