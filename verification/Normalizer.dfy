/** Normalization of an observation batch: one entry per key, the newest, whatever the order of arrival. */
module Normalizer {
  import opened Wrappers
  import opened Ordering
  import opened Text
  import opened Like
  import opened Attributes

  // ----- keys and their order -----

  datatype ResourceKey = ResourceKey(connectionId: string, kind: string, externalId: string)

  datatype RelationKey = RelationKey(source: ResourceKey, target: ResourceKey, kind: string, evidenceKey: string)

  predicate ResourceKeyLess(a: ResourceKey, b: ResourceKey) {
    if a.connectionId != b.connectionId then TextLess(a.connectionId, b.connectionId)
    else if a.kind != b.kind then TextLess(a.kind, b.kind)
    else TextLess(a.externalId, b.externalId)
  }

  predicate RelationKeyLess(a: RelationKey, b: RelationKey) {
    if a.source != b.source then ResourceKeyLess(a.source, b.source)
    else if a.target != b.target then ResourceKeyLess(a.target, b.target)
    else if a.kind != b.kind then TextLess(a.kind, b.kind)
    else TextLess(a.evidenceKey, b.evidenceKey)
  }

  lemma ResourceKeyOrder()
    ensures StrictTotal(ResourceKeyLess)
  {
    hide TextLess;
    TextOrder();
  }

  lemma RelationKeyOrder()
    ensures StrictTotal(RelationKeyLess)
  {
    hide TextLess, ResourceKeyLess;
    TextOrder();
    ResourceKeyOrder();
  }

  // ----- one entry per key -----

  /** A validated observation; its fingerprint stands for key and content, never for the time. */
  datatype Entry<K, V> = Entry(key: K, content: V, observedAt: int)

  /** A normalized observation with the number of attribute leaves it lost. */
  datatype Normalized<K, V> = Rejected(code: Code) | Accepted(entry: Entry<K, V>, dropped: nat)

  datatype Code = InvalidResponse | SchemaIncompatible | InvalidDomainValue

  datatype Collapsed<K, V> = Failed(code: Code) | Entries(entries: map<K, Entry<K, V>>, dropped: nat)

  /** Takes one more observation into the entries so far. */
  function Absorb<K, V(==)>(sofar: Collapsed<K, V>, n: Normalized<K, V>): Collapsed<K, V> {
    if sofar.Failed? then sofar
    else if n.Rejected? then Failed(n.code)
    else
      var e, m := n.entry, sofar.entries;
      if e.key in m && m[e.key].content != e.content then Failed(InvalidResponse)
      else Entries(if e.key in m && m[e.key].observedAt >= e.observedAt then m else m[e.key := e], sofar.dropped + n.dropped)
  }

  function Collapse<K, V(==)>(list: seq<Normalized<K, V>>): Collapsed<K, V> {
    if list == [] then Entries(map[], 0) else Absorb(Collapse(list[..|list| - 1]), list[|list| - 1])
  }

  function Mapped<O, T>(a: seq<O>, f: O -> T): seq<T> {
    seq(|a|, i requires 0 <= i < |a| => f(a[i]))
  }

  /** The same with a loop over the observations. */
  method CollapseObservations<O, K, V(==)>(observations: seq<O>, normalize: O -> Normalized<K, V>) returns (r: Collapsed<K, V>)
    ensures r == Collapse(Mapped(observations, normalize))
  {
    ghost var list := Mapped(observations, normalize);
    var entries: map<K, Entry<K, V>>, dropped: nat := map[], 0;
    for i := 0 to |observations|
      invariant Collapse(list[..i]) == Entries(entries, dropped)
    {
      assert list[..i + 1][..i] == list[..i];
      assert Collapse(list[..i + 1]) == Absorb(Collapse(list[..i]), list[i]);
      var n := normalize(observations[i]);
      if n.Rejected? {
        FailureStays(list, i + 1);
        return Failed(n.code);
      }
      dropped := dropped + n.dropped;
      if n.entry.key in entries && entries[n.entry.key].content != n.entry.content {
        FailureStays(list, i + 1);
        return Failed(InvalidResponse);
      }
      if !(n.entry.key in entries && entries[n.entry.key].observedAt >= n.entry.observedAt) {
        entries := entries[n.entry.key := n.entry];
      }
    }
    assert list[..|observations|] == list;
    r := Entries(entries, dropped);
  }

  lemma {:induction false} FailureStays<K, V>(list: seq<Normalized<K, V>>, i: nat)
    requires i <= |list| && Collapse(list[..i]).Failed?
    ensures Collapse(list) == Collapse(list[..i])
    decreases |list| - i
  {
    if i == |list| {
      assert list[..i] == list;
    } else {
      assert list[..i + 1][..i] == list[..i];
      FailureStays(list, i + 1);
    }
  }

  // ----- what is kept -----

  /** Every observation was accepted, and observations of one key agree on their content. */
  ghost predicate Agreeing<K, V>(list: seq<Normalized<K, V>>) {
    && (forall i :: 0 <= i < |list| ==> list[i].Accepted?)
    && (forall i, j :: 0 <= i < |list| && 0 <= j < |list| && list[i].entry.key == list[j].entry.key ==>
          list[i].entry.content == list[j].entry.content)
  }

  /** The entries are one per key observed, each the newest observation of its key. */
  ghost predicate Newest<K, V>(list: seq<Normalized<K, V>>, m: map<K, Entry<K, V>>) {
    && (forall i :: 0 <= i < |list| && list[i].Accepted? ==>
          list[i].entry.key in m && list[i].entry.observedAt <= m[list[i].entry.key].observedAt)
    && (forall k :: k in m ==> m[k].key == k && exists i :: 0 <= i < |list| && list[i].Accepted? && list[i].entry == m[k])
  }

  function TotalDropped<K, V>(list: seq<Normalized<K, V>>): nat {
    if list == [] then 0 else TotalDropped(list[..|list| - 1]) + (if list[|list| - 1].Accepted? then list[|list| - 1].dropped else 0)
  }

  /** A batch normalizes exactly when its observations agree, and then keeps the newest observation of each key. */
  lemma {:induction false} CollapseKeepsNewest<K, V>(list: seq<Normalized<K, V>>)
    ensures Collapse(list).Entries? <==> Agreeing(list)
    ensures Collapse(list).Entries? ==>
              Newest(list, Collapse(list).entries) && Collapse(list).dropped == TotalDropped(list)
  {
    if list == [] {
      assert Newest(list, map[]);
      return;
    }
    hide Agreeing, Newest;
    var front, last := list[..|list| - 1], list[|list| - 1];
    assert list == front + [last];
    CollapseKeepsNewest(front);
    AgreeingFront(front, last);
    if Collapse(front).Entries? && last.Accepted? {
      LastAgrees(front, last, Collapse(front).entries);
      NewestGrows(front, last, Collapse(front).entries);
    }
  }

  lemma AgreeingFront<K, V>(front: seq<Normalized<K, V>>, last: Normalized<K, V>)
    ensures Agreeing(front + [last]) ==> Agreeing(front) && last.Accepted?
  {
    var list := front + [last];
    assert list[|front|] == last && forall i :: 0 <= i < |front| ==> front[i] == list[i];
  }

  lemma LastAgrees<K, V>(front: seq<Normalized<K, V>>, last: Normalized<K, V>, m: map<K, Entry<K, V>>)
    requires Agreeing(front) && Newest(front, m) && last.Accepted?
    ensures Agreeing(front + [last]) <==> !(last.entry.key in m && m[last.entry.key].content != last.entry.content)
  {
    var list := front + [last];
    if last.entry.key in m {
      var i :| 0 <= i < |front| && front[i].Accepted? && front[i].entry == m[last.entry.key];
      assert list[i] == front[i] && list[|front|] == last;
      if m[last.entry.key].content == last.entry.content {
        forall j | 0 <= j < |front| && front[j].entry.key == last.entry.key ensures front[j].entry.content == last.entry.content {
          assert front[j].entry.content == front[i].entry.content;
        }
      }
    } else {
      assert forall j :: 0 <= j < |front| ==> front[j].entry.key in m;
    }
  }

  lemma NewestGrows<K, V>(front: seq<Normalized<K, V>>, last: Normalized<K, V>, m: map<K, Entry<K, V>>)
    requires Newest(front, m) && last.Accepted?
    ensures var e := last.entry;
            Newest(front + [last], if e.key in m && m[e.key].observedAt >= e.observedAt then m else m[e.key := e])
  {
    var list, e := front + [last], last.entry;
    var m' := if e.key in m && m[e.key].observedAt >= e.observedAt then m else m[e.key := e];
    assert list[|front|] == last;
    forall k | k in m' ensures m'[k].key == k && exists i :: 0 <= i < |list| && list[i].Accepted? && list[i].entry == m'[k] {
      if k in m && m'[k] == m[k] {
        var i :| 0 <= i < |front| && front[i].Accepted? && front[i].entry == m[k];
        assert list[i] == front[i];
      }
    }
  }

  // ----- order does not matter -----

  lemma NewestUnique<K, V>(a: seq<Normalized<K, V>>, b: seq<Normalized<K, V>>, m: map<K, Entry<K, V>>, n: map<K, Entry<K, V>>)
    requires Agreeing(a) && Newest(a, m) && Newest(b, n)
    requires forall x :: x in a <==> x in b
    ensures m == n
  {
    forall k ensures k in m <==> k in n {
      if k in m { var i :| 0 <= i < |a| && a[i].Accepted? && a[i].entry == m[k]; assert a[i] in b; }
      if k in n { var j :| 0 <= j < |b| && b[j].Accepted? && b[j].entry == n[k]; assert b[j] in a; }
    }
    forall k | k in m ensures m[k] == n[k] {
      var i :| 0 <= i < |a| && a[i].Accepted? && a[i].entry == m[k];
      var j :| 0 <= j < |b| && b[j].Accepted? && b[j].entry == n[k];
      assert a[i] in b && b[j] in a;
      var i' :| 0 <= i' < |b| && b[i'] == a[i];
      var j' :| 0 <= j' < |a| && a[j'] == b[j];
      assert b[i'].entry.observedAt <= n[k].observedAt && a[j'].entry.observedAt <= m[k].observedAt;
    }
  }

  lemma {:induction false} DroppedWithout<K, V>(list: seq<Normalized<K, V>>, j: nat)
    requires j < |list|
    ensures TotalDropped(list) == TotalDropped(list[..j] + list[j + 1..]) + if list[j].Accepted? then list[j].dropped else 0
  {
    var n := |list| - 1;
    if j < n {
      DroppedWithout(list[..n], j);
      var rest := list[..j] + list[j + 1..];
      assert rest[..|rest| - 1] == list[..n][..j] + list[..n][j + 1..];
      assert rest[|rest| - 1] == list[n];
    } else {
      assert list[..j] + list[j + 1..] == list[..n];
    }
  }

  lemma {:induction false} DroppedPermutes<K, V>(a: seq<Normalized<K, V>>, b: seq<Normalized<K, V>>)
    requires multiset(a) == multiset(b)
    ensures TotalDropped(a) == TotalDropped(b)
  {
    if a == [] {
      assert b == [] by { assert |multiset(b)| == |b|; }
    } else {
      var front, rest, j := WithoutLast(a, b);
      DroppedWithout(b, j);
      DroppedPermutes(front, rest);
    }
  }

  /** Observations in another order collapse to the same entries and count, or fail as well; which failure is met first is up to the order. */
  lemma CollapseIgnoresOrder<K, V>(a: seq<Normalized<K, V>>, b: seq<Normalized<K, V>>)
    requires multiset(a) == multiset(b)
    ensures Collapse(a) == Collapse(b) || (Collapse(a).Failed? && Collapse(b).Failed?)
  {
    CollapseKeepsNewest(a);
    CollapseKeepsNewest(b);
    forall x ensures x in a <==> x in b {
      assert x in a <==> x in multiset(a);
      assert x in b <==> x in multiset(b);
    }
    hide Agreeing, Newest, Collapse;
    if Agreeing(b) {
      SameElementsAgree(b, a);
    }
    if Agreeing(a) {
      SameElementsAgree(a, b);
      NewestUnique(a, b, Collapse(a).entries, Collapse(b).entries);
      DroppedPermutes(a, b);
    }
  }

  lemma SameElementsAgree<K, V>(a: seq<Normalized<K, V>>, b: seq<Normalized<K, V>>)
    requires Agreeing(a) && forall x :: x in b ==> x in a
    ensures Agreeing(b)
  {
    forall i, j | 0 <= i < |b| && 0 <= j < |b|
      ensures b[i].Accepted? && b[j].Accepted? && (b[i].entry.key == b[j].entry.key ==> b[i].entry.content == b[j].entry.content)
    {
      assert b[i] in a && b[j] in a;
    }
  }

  // ----- screening for secrets -----

  const SENSITIVE_NAMES := {"token", "password", "secret", "access_key", "access_token", "secret_key", "authorization", "cookie",
                            "private_key", "connection_string"}

  /** A name one of whose dotted segments, in lower case and with `-` read as `_`, names a secret. */
  predicate IsSensitiveName(name: string) {
    var segments := Split(Replaced(Lowered(name), '-', "_"), '.');
    exists i :: 0 <= i < |segments| && segments[i] in SENSITIVE_NAMES
  }

  const KEY_MARK := "-----begin private key-----"
  const BEARER_MARK := "bearer "

  /** A text that holds a private key or begins as a bearer token, in either case. */
  predicate IsSecretText(text: string) {
    var lowered := Lowered(text);
    BEARER_MARK <= lowered || exists i :: 0 <= i <= |lowered| && KEY_MARK <= lowered[i..]
  }

  /** A segment reads as a word: in either case, and with `-` for `_`. */
  predicate ReadsAs(segment: string, word: string) {
    |segment| == |word| && forall j :: 0 <= j < |word| ==> EitherCase(segment[j], word[j]) || (segment[j] == '-' && word[j] == '_')
  }

  lemma {:induction false} ReplacedAt(s: string, c: char, d: char)
    ensures var r := Replaced(s, c, [d]);
            |r| == |s| && forall i :: 0 <= i < |s| ==> r[i] == if s[i] == c then d else s[i]
  {
    if s != [] {
      ReplacedAt(s[1..], c, d);
    }
  }

  function ReadChar(c: char): char { if Lower(c) == '-' then '_' else Lower(c) }

  /** The segments of the name as it is compared are those of the name, read character by character. */
  lemma {:induction false} SegmentsRead(a: string, b: string)
    requires |a| == |b| && forall i :: 0 <= i < |a| ==> b[i] == ReadChar(a[i])
    ensures var p, q := Split(a, '.'), Split(b, '.');
            |p| == |q| && forall i :: 0 <= i < |p| ==> |p[i]| == |q[i]| && forall j :: 0 <= j < |p[i]| ==> q[i][j] == ReadChar(p[i][j])
  {
    if a != [] {
      SegmentsRead(a[1..], b[1..]);
    }
  }

  lemma WordRead(segment: string, read: string, word: string)
    requires |read| == |segment| && forall j :: 0 <= j < |segment| ==> read[j] == ReadChar(segment[j])
    requires forall j :: 0 <= j < |word| ==> 'a' <= word[j] <= 'z' || word[j] == '_'
    ensures read == word <==> ReadsAs(segment, word)
  {
    if |read| == |word| {
      forall j | 0 <= j < |word| ensures read[j] == word[j] <==> EitherCase(segment[j], word[j]) || (segment[j] == '-' && word[j] == '_') {
        LowerMeans(segment[j], word[j]);
      }
    }
  }

  lemma WordsAreLower()
    ensures forall word :: word in SENSITIVE_NAMES ==> forall j :: 0 <= j < |word| ==> 'a' <= word[j] <= 'z' || word[j] == '_'
  {
  }

  /** A name is refused exactly when one of its dotted segments reads as a word that names a secret, in either case and with `-` for `_`. */
  lemma SensitiveNameMeans(name: string)
    ensures IsSensitiveName(name)
       <==> exists i, word :: 0 <= i < |Split(name, '.')| && ReadsAs(Split(name, '.')[i], word) && word in SENSITIVE_NAMES
  {
    var read := Replaced(Lowered(name), '-', "_");
    ReplacedAt(Lowered(name), '-', '_');
    SegmentsRead(name, read);
    WordsAreLower();
    hide SENSITIVE_NAMES;
    var p, q := Split(name, '.'), Split(read, '.');
    forall i, word | 0 <= i < |p| && word in SENSITIVE_NAMES ensures q[i] == word <==> ReadsAs(p[i], word) {
      WordRead(p[i], q[i], word);
    }
    hide ReadsAs, Split;
    if IsSensitiveName(name) {
      var i :| 0 <= i < |q| && q[i] in SENSITIVE_NAMES;
      assert ReadsAs(p[i], q[i]);
    }
  }

  /** A text is refused exactly when it begins as a bearer token or holds the mark of a private key, in either case. */
  lemma SecretTextMeans(text: string)
    ensures IsSecretText(text) <==> Begins(text, "bearer ") || Contains(text, "-----begin private key-----")
  {
    hide Lower;
    forall i | 0 <= i <= |text| ensures KEY_MARK <= Lowered(text)[i..] <==> Begins(text[i..], KEY_MARK) {
      PrefixRead(text[i..], Lowered(text)[i..], KEY_MARK);
    }
    PrefixRead(text, Lowered(text), BEARER_MARK);
  }

  lemma PrefixRead(text: string, lowered: string, mark: string)
    requires |lowered| == |text| && forall i :: 0 <= i < |text| ==> lowered[i] == Lower(text[i])
    requires forall j :: 0 <= j < |mark| ==> !('A' <= mark[j] <= 'Z')
    ensures mark <= lowered <==> Begins(text, mark)
  {
    if |mark| <= |text| {
      forall j | 0 <= j < |mark| ensures lowered[j] == mark[j] <==> EitherCase(mark[j], text[..|mark|][j]) {
        LowerMeans(mark[j], text[j]);
      }
      if Begins(text, mark) { assert lowered[..|mark|] == mark; }
    }
  }

  /** A name of one segment is refused when it reads as one of the words, and passes when it reads as none. */
  lemma OneSegment(name: string)
    requires '.' !in name
    ensures IsSensitiveName(name) <==> exists word :: word in SENSITIVE_NAMES && ReadsAs(name, word)
  {
    hide ReadsAs, SENSITIVE_NAMES, IsSensitiveName;
    SplitWhole(name, '.');
    SensitiveNameMeans(name);
    assert [name][0] == name;
  }

  /** The words that name a secret. */
  lemma NamesRefused(word: string, name: string)
    requires word in {"token", "password", "secret", "access_key", "access_token", "secret_key", "authorization", "cookie",
                      "private_key", "connection_string"}
    requires ReadsAs(name, word) && '.' !in name
    ensures IsSensitiveName(name)
  {
    hide IsSensitiveName, ReadsAs;
    OneSegment(name);
  }

  /** Capitals and hyphens hide nothing. */
  lemma CapitalsRefused()
    ensures IsSensitiveName("Password") && IsSensitiveName("access-key") && IsSecretText("BEARER x")
  {
    hide IsSensitiveName, IsSecretText;
    NamesRefused("password", "Password");
    NamesRefused("access_key", "access-key");
    SecretTextMeans("BEARER x");
    assert Begins("BEARER x", "bearer ");
  }

  /** Somewhere in a value there is a sensitive name or a secret text. */
  predicate HoldsSecret(v: Json)
    decreases v
  {
    match v
    case Object(fields) => exists k :: k in fields && (IsSensitiveName(k) || HoldsSecret(fields[k]))
    case List(items) => exists i :: 0 <= i < |items| && HoldsSecret(items[i])
    case Str(text) => IsSecretText(text)
    case Scalar(_) => false
  }

  /** A value somewhere in another: itself, in a field, or in a list. */
  predicate Inside(w: Json, v: Json)
    decreases v
  {
    || w == v
    || (v.Object? && exists k :: k in v.fields && Inside(w, v.fields[k]))
    || (v.List? && exists i :: 0 <= i < |v.items| && Inside(w, v.items[i]))
  }

  predicate SecretItself(w: Json) {
    (w.Str? && IsSecretText(w.text)) || (w.Object? && exists k :: k in w.fields && IsSensitiveName(k))
  }

  /** A value holds a secret exactly when some value inside it is a secret text or has a field with a sensitive name. */
  lemma {:induction false} HoldsSecretMeans(v: Json)
    ensures HoldsSecret(v) <==> exists w :: Inside(w, v) && SecretItself(w)
    decreases v
  {
    hide IsSecretText, IsSensitiveName;
    assert Inside(v, v);
    match v
    case Object(fields) =>
      forall k | k in fields ensures HoldsSecret(fields[k]) <==> exists w :: Inside(w, fields[k]) && SecretItself(w) {
        HoldsSecretMeans(fields[k]);
      }
    case List(items) =>
      forall i | 0 <= i < |items| ensures HoldsSecret(items[i]) <==> exists w :: Inside(w, items[i]) && SecretItself(w) {
        HoldsSecretMeans(items[i]);
      }
    case _ =>
  }

  /** What a clean value keeps of itself is clean. */
  lemma {:induction false} PartsAreClean(t: Json, v: Json)
    requires Within(t, v) && !HoldsSecret(v)
    ensures !HoldsSecret(t)
    decreases t
  {
    if t.Object? {
      forall k | k in t.fields ensures !IsSensitiveName(k) && !HoldsSecret(t.fields[k]) {
        PartsAreClean(t.fields[k], v.fields[k]);
      }
    }
  }

  // ----- the source's batch -----

  /** What an observation says of a resource beside its identity, attributes and time; `facts` are its scope and health. */
  datatype Description = Description(name: string, displayName: string, labels: map<string, string>, facts: string)

  datatype ResourceObservation = ResourceObservation(kind: string, externalId: string, description: Description, attributes: Json,
                                                     schemaVersion: nat, observedAt: int)

  datatype ResourceContent = ResourceContent(description: Description, attributes: Json, schemaVersion: nat)

  datatype RelationObservation = RelationObservation(sourceKind: string, sourceId: string, targetKind: string, targetId: string,
                                                     kind: string, evidenceKey: string, fieldPath: string, observedAt: int)

  datatype RelationContent = RelationContent(connectionId: string, syncRunId: string, fieldPath: string)

  datatype Mode = Full | Incremental | Targeted

  datatype Coverage = AuthoritativeFull | PartialCoverage | IncrementalCoverage | TargetedCoverage

  /** Partial coverage goes with every mode, any other only with its own. */
  predicate AcceptsCoverage(mode: Mode, coverage: Coverage) {
    match (mode, coverage)
    case (Full, AuthoritativeFull) => true
    case (Incremental, IncrementalCoverage) => true
    case (Targeted, TargetedCoverage) => true
    case (_, PartialCoverage) => true
    case _ => false
  }

  /** Registered schemas and the request. */
  datatype Rules = Rules(connectionId: string, syncRunId: string, mode: Mode,
                         attributeSchemas: map<(string, nat), set<string>>,
                         relationSchemas: set<(string, string, string)>)

  predicate CleanDescription(d: Description) {
    && !IsSecretText(d.name) && !IsSecretText(d.displayName)
    && forall k :: k in d.labels ==> !IsSensitiveName(k) && !IsSecretText(d.labels[k])
  }

  function NormalizeResource(rules: Rules, o: ResourceObservation): Normalized<ResourceKey, ResourceContent> {
    if HoldsSecret(o.attributes) || !CleanDescription(o.description) then Rejected(InvalidResponse)
    else if (o.kind, o.schemaVersion) !in rules.attributeSchemas then Rejected(SchemaIncompatible)
    else if !o.attributes.Object? then Rejected(InvalidResponse)
    else
      var allowed := rules.attributeSchemas[(o.kind, o.schemaVersion)];
      var kept := Object(ProjectPaths(o.attributes, PathsOf(allowed)));
      Accepted(Entry(ResourceKey(rules.connectionId, o.kind, o.externalId),
                     ResourceContent(o.description, kept, o.schemaVersion), o.observedAt),
               Dropped(o.attributes, allowed))
  }

  function NormalizeRelation(rules: Rules, o: RelationObservation): Normalized<RelationKey, RelationContent> {
    if IsSensitiveName(o.fieldPath) then Rejected(InvalidResponse)
    else if (o.kind, o.sourceKind, o.targetKind) !in rules.relationSchemas then Rejected(SchemaIncompatible)
    else
      Accepted(Entry(RelationKey(ResourceKey(rules.connectionId, o.sourceKind, o.sourceId),
                                 ResourceKey(rules.connectionId, o.targetKind, o.targetId), o.kind, o.evidenceKey),
                     RelationContent(rules.connectionId, rules.syncRunId, o.fieldPath), o.observedAt),
               0)
  }

  /** A batch as it arrives; its connector may have redacted already. */
  datatype Observations = Observations(coverage: Coverage, sentinels: nat, alreadyDropped: nat, warnings: seq<string>,
                                       resources: seq<ResourceObservation>, relations: seq<RelationObservation>)

  datatype Batch = Batch(resources: seq<Entry<ResourceKey, ResourceContent>>, relations: seq<Entry<RelationKey, RelationContent>>,
                         warnings: seq<string>, dropped: nat)

  /** A batch of other coverage or with secrets already found is refused, and so is one whose warnings hold secrets. */
  function Refused(rules: Rules, o: Observations): Option<Code> {
    if !AcceptsCoverage(rules.mode, o.coverage) || o.sentinels != 0 then Some(InvalidDomainValue)
    else if exists i :: 0 <= i < |o.warnings| && IsSecretText(o.warnings[i]) then Some(InvalidResponse)
    else None
  }

  /** The entries in key order. */
  function InKeyOrder<K(!new), V>(m: map<K, Entry<K, V>>, less: Less<K>): (r: seq<Entry<K, V>>)
    requires StrictTotal(less)
  {
    var keys := Listing(m.Keys, less);
    seq(|keys|, i requires 0 <= i < |keys| => assert keys[i] in keys; m[keys[i]])
  }

  function ResourceNormalizer(rules: Rules): ResourceObservation -> Normalized<ResourceKey, ResourceContent> {
    o => NormalizeResource(rules, o)
  }

  function RelationNormalizer(rules: Rules): RelationObservation -> Normalized<RelationKey, RelationContent> {
    o => NormalizeRelation(rules, o)
  }

  function ResourceList(rules: Rules, o: Observations): seq<Normalized<ResourceKey, ResourceContent>> {
    Mapped(o.resources, ResourceNormalizer(rules))
  }

  function RelationList(rules: Rules, o: Observations): seq<Normalized<RelationKey, RelationContent>> {
    Mapped(o.relations, RelationNormalizer(rules))
  }

  /** The validated batch, or the first error: of the batch itself, then of its resources, then of its relations. */
  function NormalizedBatch(rules: Rules, o: Observations): Result<Batch, Code> {
    ResourceKeyOrder();
    RelationKeyOrder();
    match (Refused(rules, o), Collapse(ResourceList(rules, o)), Collapse(RelationList(rules, o)))
    case (Some(code), _, _) => Err(code)
    case (None, Failed(code), _) => Err(code)
    case (None, Entries(_, _), Failed(code)) => Err(code)
    case (None, Entries(m, dropped), Entries(n, _)) =>
      Ok(Batch(InKeyOrder(m, ResourceKeyLess), InKeyOrder(n, RelationKeyLess), o.warnings, o.alreadyDropped + dropped))
  }

  method Normalize(rules: Rules, o: Observations) returns (r: Result<Batch, Code>)
    ensures r == NormalizedBatch(rules, o)
  {
    hide Collapse, Mapped, ResourceNormalizer, RelationNormalizer, InKeyOrder, IsSecretText;
    ResourceKeyOrder();
    RelationKeyOrder();
    hide StrictTotal;
    if !AcceptsCoverage(rules.mode, o.coverage) || o.sentinels != 0 { return Err(InvalidDomainValue); }
    for i := 0 to |o.warnings|
      invariant forall j :: 0 <= j < i ==> !IsSecretText(o.warnings[j])
    {
      if IsSecretText(o.warnings[i]) { return Err(InvalidResponse); }
    }
    var a := CollapseObservations(o.resources, ResourceNormalizer(rules));
    if a.Failed? { return Err(a.code); }
    var b := CollapseObservations(o.relations, RelationNormalizer(rules));
    if b.Failed? { return Err(b.code); }
    r := Ok(Batch(InKeyOrder(a.entries, ResourceKeyLess), InKeyOrder(b.entries, RelationKeyLess), o.warnings, o.alreadyDropped + a.dropped));
  }

  lemma {:induction false} MappedPermutes<O, T>(a: seq<O>, b: seq<O>, f: O -> T)
    requires multiset(a) == multiset(b)
    ensures multiset(Mapped(a, f)) == multiset(Mapped(b, f))
  {
    var fa, fb := Mapped(a, f), Mapped(b, f);
    assert |multiset(a)| == |a| && |multiset(b)| == |b|;
    if a != [] {
      var front, rest, j := WithoutLast(a, b);
      MappedPermutes(front, rest, f);
      assert fa == Mapped(front, f) + [f(a[|a| - 1])];
      assert Mapped(rest, f) == fb[..j] + fb[j + 1..];
      RemoveAt(fb, j);
    }
  }

  /** The same batch with its observations in another order. */
  predicate Permuted(o: Observations, o': Observations) {
    && o' == o.(resources := o'.resources, relations := o'.relations)
    && multiset(o.resources) == multiset(o'.resources) && multiset(o.relations) == multiset(o'.relations)
  }

  /** Permuting resource and relation observations gives the same batch, or fails both times. */
  lemma NormalizationIgnoresOrder(rules: Rules, o: Observations, o': Observations)
    requires Permuted(o, o')
    ensures NormalizedBatch(rules, o) == NormalizedBatch(rules, o') || (NormalizedBatch(rules, o).Err? && NormalizedBatch(rules, o').Err?)
  {
    hide Collapse, Mapped, InKeyOrder, StrictTotal, IsSecretText;
    MappedPermutes(o.resources, o'.resources, ResourceNormalizer(rules));
    MappedPermutes(o.relations, o'.relations, RelationNormalizer(rules));
    CollapseIgnoresOrder(ResourceList(rules, o), ResourceList(rules, o'));
    CollapseIgnoresOrder(RelationList(rules, o), RelationList(rules, o'));
    assert Refused(rules, o) == Refused(rules, o');
  }

  /** A batch is accepted exactly when nothing refuses it and its observations agree; its entries come strictly in key order,
      one per key, each the newest observation of its key. */
  lemma BatchIsSortedAndNewest(rules: Rules, o: Observations)
    ensures NormalizedBatch(rules, o).Ok? <==> Refused(rules, o).None? && Agreeing(ResourceList(rules, o)) && Agreeing(RelationList(rules, o))
    ensures NormalizedBatch(rules, o).Ok? ==>
              var batch := NormalizedBatch(rules, o).value;
              && Chosen(ResourceList(rules, o), batch.resources, ResourceKeyLess)
              && Chosen(RelationList(rules, o), batch.relations, RelationKeyLess)
              && batch.dropped == o.alreadyDropped + TotalDropped(ResourceList(rules, o))
  {
    hide Agreeing, Newest, Collapse, Chosen, InKeyOrder, TotalDropped, ResourceList, RelationList, Refused;
    ResourceKeyOrder();
    RelationKeyOrder();
    CollapseKeepsNewest(ResourceList(rules, o));
    CollapseKeepsNewest(RelationList(rules, o));
    if NormalizedBatch(rules, o).Ok? {
      OrderedIsChosen(ResourceList(rules, o), Collapse(ResourceList(rules, o)).entries, ResourceKeyLess);
      OrderedIsChosen(RelationList(rules, o), Collapse(RelationList(rules, o)).entries, RelationKeyLess);
    }
  }

  lemma AcceptedIsClean(rules: Rules, o: ResourceObservation)
    requires NormalizeResource(rules, o).Accepted?
    ensures var content := NormalizeResource(rules, o).entry.content;
            CleanDescription(content.description) && !HoldsSecret(content.attributes)
  {
    hide HoldsSecret, CleanDescription, ProjectPaths;
    var paths := PathsOf(rules.attributeSchemas[(o.kind, o.schemaVersion)]);
    KeptWithinSource(o.attributes, paths);
    PartsAreClean(Object(ProjectPaths(o.attributes, paths)), o.attributes);
  }

  /** No secret passes: every entry of an accepted batch is clean, in its attributes, names, labels and field paths, and so are the
      warnings. */
  lemma BatchIsClean(rules: Rules, o: Observations)
    requires NormalizedBatch(rules, o).Ok?
    ensures var batch := NormalizedBatch(rules, o).value;
            && (forall i :: 0 <= i < |batch.resources| ==>
                  CleanDescription(batch.resources[i].content.description) && !HoldsSecret(batch.resources[i].content.attributes))
            && (forall i :: 0 <= i < |batch.relations| ==> !IsSensitiveName(batch.relations[i].content.fieldPath))
            && (forall i :: 0 <= i < |batch.warnings| ==> !IsSecretText(batch.warnings[i]))
  {
    hide HoldsSecret, CleanDescription, IsSensitiveName, IsSecretText, Collapse, InKeyOrder, ResourceList, RelationList, Observed, Agreeing, Superseded;
    BatchIsSortedAndNewest(rules, o);
    var batch := NormalizedBatch(rules, o).value;
    assert batch.warnings == o.warnings;
    forall i | 0 <= i < |batch.resources|
      ensures CleanDescription(batch.resources[i].content.description) && !HoldsSecret(batch.resources[i].content.attributes)
    {
      ObservedIsClean(rules, o, batch.resources[i]);
    }
    forall i | 0 <= i < |batch.relations| ensures !IsSensitiveName(batch.relations[i].content.fieldPath) {
      ObservedPathIsClean(rules, o, batch.relations[i]);
    }
  }

  lemma ObservedIsClean(rules: Rules, o: Observations, e: Entry<ResourceKey, ResourceContent>)
    requires Observed(ResourceList(rules, o), e)
    ensures CleanDescription(e.content.description) && !HoldsSecret(e.content.attributes)
  {
    hide HoldsSecret, CleanDescription, NormalizeResource;
    var j :| 0 <= j < |o.resources| && NormalizeResource(rules, o.resources[j]).Accepted?
             && NormalizeResource(rules, o.resources[j]).entry == e;
    AcceptedIsClean(rules, o.resources[j]);
  }

  lemma ObservedPathIsClean(rules: Rules, o: Observations, e: Entry<RelationKey, RelationContent>)
    requires Observed(RelationList(rules, o), e)
    ensures !IsSensitiveName(e.content.fieldPath)
  {
    hide IsSensitiveName;
  }

  // ----- what the batch says of its observations -----

  /** Clean, of a registered schema, and an object. */
  predicate AcceptableResource(rules: Rules, o: ResourceObservation) {
    CleanObservation(o) && (o.kind, o.schemaVersion) in rules.attributeSchemas && o.attributes.Object?
  }

  predicate CleanObservation(o: ResourceObservation) {
    && !HoldsSecret(o.attributes) && !IsSecretText(o.description.name) && !IsSecretText(o.description.displayName)
    && forall k :: k in o.description.labels ==> !IsSensitiveName(k) && !IsSecretText(o.description.labels[k])
  }

  function AllowedPaths(rules: Rules, o: ResourceObservation): seq<Path>
    requires (o.kind, o.schemaVersion) in rules.attributeSchemas
  {
    PathsOf(rules.attributeSchemas[(o.kind, o.schemaVersion)])
  }

  /** An entry names the observation's connection, kind and external id, keeps its description, version and time, and of its
      attributes exactly what the allowlist of its kind and version allows. */
  ghost predicate TellsResource(rules: Rules, e: Entry<ResourceKey, ResourceContent>, o: ResourceObservation) {
    && e.key.connectionId == rules.connectionId && e.key.kind == o.kind && e.key.externalId == o.externalId
    && e.content.description == o.description && e.content.schemaVersion == o.schemaVersion && e.observedAt == o.observedAt
    && (o.kind, o.schemaVersion) in rules.attributeSchemas && Exact(o.attributes, AllowedPaths(rules, o), e.content.attributes)
  }

  /** What becomes of a resource observation. */
  lemma ResourceMeans(rules: Rules, o: ResourceObservation)
    ensures var n := NormalizeResource(rules, o);
            && (n.Accepted? <==> AcceptableResource(rules, o))
            && (n.Accepted? ==> TellsResource(rules, n.entry, o))
            && (n.Accepted? ==>
                  (LeafCount(n.entry.content.attributes) + n.dropped == LeafCount(o.attributes)
                   <==> NoneNested(o.attributes, AllowedPaths(rules, o)) || EveryLeafCovered(o.attributes, AllowedPaths(rules, o))))
            && (n == Rejected(SchemaIncompatible) <==> CleanObservation(o) && (o.kind, o.schemaVersion) !in rules.attributeSchemas)
            && (n.Rejected? ==> n.code == SchemaIncompatible || n.code == InvalidResponse)
  {
    hide HoldsSecret, IsSecretText, IsSensitiveName, PathsOf, ProjectPaths, LeafCount, NoneNested, EveryLeafCovered, Exact, Dropped;
    if AcceptableResource(rules, o) {
      ProjectionIsExact(o.attributes, AllowedPaths(rules, o));
      LeavesAreAccounted(o.attributes, rules.attributeSchemas[(o.kind, o.schemaVersion)]);
    }
  }

  /** An entry names the observed source as its source and the observed target as its target, both of this connection. */
  predicate TellsRelation(rules: Rules, e: Entry<RelationKey, RelationContent>, o: RelationObservation) {
    && e.key.source.connectionId == rules.connectionId && e.key.source.kind == o.sourceKind && e.key.source.externalId == o.sourceId
    && e.key.target.connectionId == rules.connectionId && e.key.target.kind == o.targetKind && e.key.target.externalId == o.targetId
    && e.key.kind == o.kind && e.key.evidenceKey == o.evidenceKey && e.observedAt == o.observedAt
    && e.content.connectionId == rules.connectionId && e.content.syncRunId == rules.syncRunId && e.content.fieldPath == o.fieldPath
  }

  predicate AcceptableRelation(rules: Rules, o: RelationObservation) {
    !IsSensitiveName(o.fieldPath) && (o.kind, o.sourceKind, o.targetKind) in rules.relationSchemas
  }

  /** What becomes of a relation observation. */
  lemma RelationMeans(rules: Rules, o: RelationObservation)
    ensures var n := NormalizeRelation(rules, o);
            && (n.Accepted? <==> AcceptableRelation(rules, o))
            && (n.Accepted? ==> TellsRelation(rules, n.entry, o) && n.dropped == 0)
            && (n == Rejected(SchemaIncompatible)
                <==> !IsSensitiveName(o.fieldPath) && (o.kind, o.sourceKind, o.targetKind) !in rules.relationSchemas)
            && (n.Rejected? ==> n.code == SchemaIncompatible || n.code == InvalidResponse)
  {
    hide IsSensitiveName;
  }

  predicate SameResource(o: ResourceObservation, o': ResourceObservation) { o.kind == o'.kind && o.externalId == o'.externalId }

  predicate SameRelation(o: RelationObservation, o': RelationObservation) {
    && o.sourceKind == o'.sourceKind && o.sourceId == o'.sourceId && o.targetKind == o'.targetKind && o.targetId == o'.targetId
    && o.kind == o'.kind && o.evidenceKey == o'.evidenceKey
  }

  /** Some observation stands behind an entry, and none of its resource is newer. */
  ghost predicate BehindResource(rules: Rules, e: Entry<ResourceKey, ResourceContent>, list: seq<ResourceObservation>, j: nat)
    requires j < |list|
  {
    TellsResource(rules, e, list[j]) && forall k :: 0 <= k < |list| && SameResource(list[k], list[j]) ==> list[k].observedAt <= list[j].observedAt
  }

  ghost predicate BehindRelation(rules: Rules, e: Entry<RelationKey, RelationContent>, list: seq<RelationObservation>, j: nat)
    requires j < |list|
  {
    TellsRelation(rules, e, list[j]) && forall k :: 0 <= k < |list| && SameRelation(list[k], list[j]) ==> list[k].observedAt <= list[j].observedAt
  }

  ghost predicate ResourceBehind(rules: Rules, e: Entry<ResourceKey, ResourceContent>, list: seq<ResourceObservation>) {
    exists j :: 0 <= j < |list| && BehindResource(rules, e, list, j)
  }

  ghost predicate RelationBehind(rules: Rules, e: Entry<RelationKey, RelationContent>, list: seq<RelationObservation>) {
    exists j :: 0 <= j < |list| && BehindRelation(rules, e, list, j)
  }

  ghost predicate HasEntry(rules: Rules, entries: seq<Entry<ResourceKey, ResourceContent>>, o: ResourceObservation) {
    exists i :: 0 <= i < |entries| && entries[i].key == ResourceKey(rules.connectionId, o.kind, o.externalId)
  }

  ghost predicate HasLink(rules: Rules, entries: seq<Entry<RelationKey, RelationContent>>, o: RelationObservation) {
    exists i :: 0 <= i < |entries| && RelationNamed(rules, entries[i].key, o)
  }

  /** Behind every entry stands a newest observation of its resource, and every observation has its entry. */
  ghost predicate ResourcesTold(rules: Rules, entries: seq<Entry<ResourceKey, ResourceContent>>, list: seq<ResourceObservation>) {
    && (forall i :: 0 <= i < |entries| ==> ResourceBehind(rules, entries[i], list))
    && (forall j :: 0 <= j < |list| ==> HasEntry(rules, entries, list[j]))
  }

  ghost predicate RelationsTold(rules: Rules, entries: seq<Entry<RelationKey, RelationContent>>, list: seq<RelationObservation>) {
    && (forall i :: 0 <= i < |entries| ==> RelationBehind(rules, entries[i], list))
    && (forall j :: 0 <= j < |list| ==> HasLink(rules, entries, list[j]))
  }

  /** Two lists of texts first differ at place `n`, and there the one's text comes first. */
  predicate FirstLess(s: seq<string>, t: seq<string>, n: nat) {
    n < |s| && n < |t| && s[..n] == t[..n] && TextLess(s[n], t[n])
  }

  function Parts(k: ResourceKey): seq<string> { [k.connectionId, k.kind, k.externalId] }

  ghost predicate ReadsBefore(s: seq<string>, t: seq<string>) { exists n: nat :: FirstLess(s, t, n) }

  lemma ResourceKeysRead(a: ResourceKey, b: ResourceKey)
    requires ResourceKeyLess(a, b)
    ensures ReadsBefore(Parts(a), Parts(b))
  {
    hide TextLess;
    var n := if a.connectionId != b.connectionId then 0 else if a.kind != b.kind then 1 else 2;
    assert FirstLess(Parts(a), Parts(b), n);
  }

  lemma RelationKeysRead(a: RelationKey, b: RelationKey)
    requires RelationKeyLess(a, b)
    ensures ReadsBefore(Parts(a.source) + Parts(a.target) + [a.kind, a.evidenceKey], Parts(b.source) + Parts(b.target) + [b.kind, b.evidenceKey])
  {
    hide TextLess, ResourceKeyLess;
    var s, t := Parts(a.source) + Parts(a.target) + [a.kind, a.evidenceKey], Parts(b.source) + Parts(b.target) + [b.kind, b.evidenceKey];
    if a.source != b.source {
      ResourceKeysRead(a.source, b.source);
      var n: nat :| FirstLess(Parts(a.source), Parts(b.source), n);
      assert s[..n] == Parts(a.source)[..n] && t[..n] == Parts(b.source)[..n];
      assert FirstLess(s, t, n);
    } else if a.target != b.target {
      ResourceKeysRead(a.target, b.target);
      var n: nat :| FirstLess(Parts(a.target), Parts(b.target), n);
      assert s[..3 + n] == Parts(a.source) + Parts(a.target)[..n] && t[..3 + n] == Parts(b.source) + Parts(b.target)[..n];
      assert FirstLess(s, t, 3 + n);
    } else {
      assert FirstLess(s, t, if a.kind != b.kind then 6 else 7);
    }
  }

  /** An accepted batch reads in order: by connection, kind and external id; relations by source, target, kind and evidence. */
  lemma BatchInOrder(rules: Rules, o: Observations)
    requires NormalizedBatch(rules, o).Ok?
    ensures var r := NormalizedBatch(rules, o).value.resources;
            forall i, j :: 0 <= i < j < |r| ==> ReadsBefore(Parts(r[i].key), Parts(r[j].key))
    ensures var r := NormalizedBatch(rules, o).value.relations;
            forall i, j :: 0 <= i < j < |r| ==>
              ReadsBefore(Parts(r[i].key.source) + Parts(r[i].key.target) + [r[i].key.kind, r[i].key.evidenceKey],
                          Parts(r[j].key.source) + Parts(r[j].key.target) + [r[j].key.kind, r[j].key.evidenceKey])
  {
    hide NormalizedBatch, Agreeing, ResourceList, RelationList, Observed, Superseded, TotalDropped, ResourceKeyLess, RelationKeyLess, ReadsBefore, Parts;
    BatchIsSortedAndNewest(rules, o);
    var batch := NormalizedBatch(rules, o).value;
    forall i, j | 0 <= i < j < |batch.resources| ensures ReadsBefore(Parts(batch.resources[i].key), Parts(batch.resources[j].key)) {
      ResourceKeysRead(batch.resources[i].key, batch.resources[j].key);
    }
    var r := batch.relations;
    forall i, j | 0 <= i < j < |r|
      ensures ReadsBefore(Parts(r[i].key.source) + Parts(r[i].key.target) + [r[i].key.kind, r[i].key.evidenceKey],
                          Parts(r[j].key.source) + Parts(r[j].key.target) + [r[j].key.kind, r[j].key.evidenceKey])
    {
      RelationKeysRead(r[i].key, r[j].key);
    }
  }

  /** An accepted batch tells its observations: the entries and the observations behind them, and the warnings. */
  lemma BatchTells(rules: Rules, o: Observations)
    requires NormalizedBatch(rules, o).Ok?
    ensures var batch := NormalizedBatch(rules, o).value;
            ResourcesTold(rules, batch.resources, o.resources) && RelationsTold(rules, batch.relations, o.relations) && batch.warnings == o.warnings
  {
    hide NormalizedBatch, Chosen, Agreeing, ResourceList, RelationList, ResourcesTold, RelationsTold, TotalDropped;
    BatchIsSortedAndNewest(rules, o);
    WarningsKept(rules, o);
    ChosenResourcesTold(rules, o, NormalizedBatch(rules, o).value.resources);
    ChosenRelationsTold(rules, o, NormalizedBatch(rules, o).value.relations);
  }

  lemma ChosenResourcesTold(rules: Rules, o: Observations, chosen: seq<Entry<ResourceKey, ResourceContent>>)
    requires Chosen(ResourceList(rules, o), chosen, ResourceKeyLess) && Agreeing(ResourceList(rules, o))
    ensures ResourcesTold(rules, chosen, o.resources)
  {
    hide Chosen, Agreeing, ResourceList, BehindResource;
    forall i | 0 <= i < |chosen| ensures ResourceBehind(rules, chosen[i], o.resources) {
      var j := BehindEntry(rules, o, chosen, i);
    }
    forall j | 0 <= j < |o.resources| ensures HasEntry(rules, chosen, o.resources[j]) {
      var i := EntryOf(rules, o, chosen, j);
    }
  }

  lemma ChosenRelationsTold(rules: Rules, o: Observations, chosen: seq<Entry<RelationKey, RelationContent>>)
    requires Chosen(RelationList(rules, o), chosen, RelationKeyLess) && Agreeing(RelationList(rules, o))
    ensures RelationsTold(rules, chosen, o.relations)
  {
    hide Chosen, Agreeing, RelationList, BehindRelation, RelationNamed;
    forall i | 0 <= i < |chosen| ensures RelationBehind(rules, chosen[i], o.relations) {
      var j := BehindLink(rules, o, chosen, i);
    }
    forall j | 0 <= j < |o.relations| ensures HasLink(rules, chosen, o.relations[j]) {
      var i := LinkOf(rules, o, chosen, j);
    }
  }

  lemma WarningsKept(rules: Rules, o: Observations)
    requires NormalizedBatch(rules, o).Ok?
    ensures NormalizedBatch(rules, o).value.warnings == o.warnings
  {
    hide Collapse, InKeyOrder, ResourceList, RelationList;
  }

  predicate RelationNamed(rules: Rules, key: RelationKey, o: RelationObservation) {
    key == RelationKey(ResourceKey(rules.connectionId, o.sourceKind, o.sourceId), ResourceKey(rules.connectionId, o.targetKind, o.targetId),
                       o.kind, o.evidenceKey)
  }

  lemma EntryOf(rules: Rules, o: Observations, chosen: seq<Entry<ResourceKey, ResourceContent>>, j: nat) returns (i: nat)
    requires Chosen(ResourceList(rules, o), chosen, ResourceKeyLess) && Agreeing(ResourceList(rules, o)) && j < |o.resources|
    ensures i < |chosen| && chosen[i].key == ResourceKey(rules.connectionId, o.resources[j].kind, o.resources[j].externalId)
    ensures o.resources[j].observedAt <= chosen[i].observedAt
  {
    hide TellsResource, NormalizeResource;
    var list := ResourceList(rules, o);
    ResourceMeans(rules, o.resources[j]);
    ResourceKeyed(rules, list[j].entry, o.resources[j]);
    assert Superseded(list[j].entry, chosen);
    i :| 0 <= i < |chosen| && chosen[i].key == list[j].entry.key && list[j].entry.observedAt <= chosen[i].observedAt;
  }

  lemma ResourceKeyed(rules: Rules, e: Entry<ResourceKey, ResourceContent>, o: ResourceObservation)
    requires TellsResource(rules, e, o)
    ensures e.key == ResourceKey(rules.connectionId, o.kind, o.externalId) && e.observedAt == o.observedAt
  {
  }

  lemma BehindEntry(rules: Rules, o: Observations, chosen: seq<Entry<ResourceKey, ResourceContent>>, i: nat) returns (j: nat)
    requires Chosen(ResourceList(rules, o), chosen, ResourceKeyLess) && Agreeing(ResourceList(rules, o)) && i < |chosen|
    ensures j < |o.resources| && BehindResource(rules, chosen[i], o.resources, j)
  {
    hide TellsResource, NormalizeResource;
    ResourceKeyOrder();
    assert Observed(ResourceList(rules, o), chosen[i]);
    j :| 0 <= j < |o.resources| && NormalizeResource(rules, o.resources[j]).Accepted?
         && NormalizeResource(rules, o.resources[j]).entry == chosen[i];
    ResourceMeans(rules, o.resources[j]);
    ResourceKeyed(rules, chosen[i], o.resources[j]);
    forall k | 0 <= k < |o.resources| && SameResource(o.resources[k], o.resources[j]) ensures o.resources[k].observedAt <= o.resources[j].observedAt {
      var n := EntryOf(rules, o, chosen, k);
      assert n == i;
    }
  }

  lemma LinkOf(rules: Rules, o: Observations, chosen: seq<Entry<RelationKey, RelationContent>>, j: nat) returns (i: nat)
    requires Chosen(RelationList(rules, o), chosen, RelationKeyLess) && Agreeing(RelationList(rules, o)) && j < |o.relations|
    ensures i < |chosen| && RelationNamed(rules, chosen[i].key, o.relations[j]) && o.relations[j].observedAt <= chosen[i].observedAt
  {
    hide NormalizeRelation;
    var list := RelationList(rules, o);
    RelationMeans(rules, o.relations[j]);
    assert RelationNamed(rules, list[j].entry.key, o.relations[j]);
    assert Superseded(list[j].entry, chosen);
    i :| 0 <= i < |chosen| && chosen[i].key == list[j].entry.key && list[j].entry.observedAt <= chosen[i].observedAt;
  }

  lemma BehindLink(rules: Rules, o: Observations, chosen: seq<Entry<RelationKey, RelationContent>>, i: nat) returns (j: nat)
    requires Chosen(RelationList(rules, o), chosen, RelationKeyLess) && Agreeing(RelationList(rules, o)) && i < |chosen|
    ensures j < |o.relations| && BehindRelation(rules, chosen[i], o.relations, j)
  {
    hide NormalizeRelation, RelationKeyLess;
    RelationKeyOrder();
    assert Observed(RelationList(rules, o), chosen[i]);
    j :| 0 <= j < |o.relations| && NormalizeRelation(rules, o.relations[j]).Accepted?
         && NormalizeRelation(rules, o.relations[j]).entry == chosen[i];
    RelationMeans(rules, o.relations[j]);
    forall k | 0 <= k < |o.relations| && SameRelation(o.relations[k], o.relations[j]) ensures o.relations[k].observedAt <= o.relations[j].observedAt {
      var n := LinkOf(rules, o, chosen, k);
      assert chosen[n].key == chosen[i].key;
      assert n == i;
    }
  }

  // ----- when a batch is accepted -----

  /** Observations of one resource agree: in description, version, and all the allowlist keeps. */
  predicate ResourcesAgree(rules: Rules, list: seq<ResourceObservation>)
    requires forall i :: 0 <= i < |list| ==> AcceptableResource(rules, list[i])
  {
    forall i, j :: 0 <= i < |list| && 0 <= j < |list| && SameResource(list[i], list[j]) ==> ResourcePairAgrees(rules, list[i], list[j])
  }

  predicate ResourcePairAgrees(rules: Rules, o: ResourceObservation, o': ResourceObservation)
    requires AcceptableResource(rules, o) && AcceptableResource(rules, o')
  {
    && o.description == o'.description && o.schemaVersion == o'.schemaVersion
    && (o.kind == o'.kind ==>
          forall n :: 0 <= n < |AllowedPaths(rules, o)| ==> ValueAt(o.attributes, AllowedPaths(rules, o)[n]) == ValueAt(o'.attributes, AllowedPaths(rules, o)[n]))
  }

  lemma PairAgrees(rules: Rules, o: ResourceObservation, o': ResourceObservation)
    requires AcceptableResource(rules, o) && AcceptableResource(rules, o') && SameResource(o, o')
    ensures NormalizeResource(rules, o).Accepted? && NormalizeResource(rules, o').Accepted?
    ensures NormalizeResource(rules, o).entry.key == NormalizeResource(rules, o').entry.key
    ensures NormalizeResource(rules, o).entry.content == NormalizeResource(rules, o').entry.content <==> ResourcePairAgrees(rules, o, o')
  {
    hide HoldsSecret, IsSecretText, IsSensitiveName, PathsOf, ProjectPaths, ValueAt, Dropped;
    if o.schemaVersion == o'.schemaVersion {
      ProjectionsAgree(o.attributes, o'.attributes, AllowedPaths(rules, o));
    }
  }

  /** Resources are accepted exactly when each is acceptable and those of one resource agree. */
  lemma ResourcesAccepted(rules: Rules, o: Observations)
    ensures Agreeing(ResourceList(rules, o))
       <==> (forall i :: 0 <= i < |o.resources| ==> AcceptableResource(rules, o.resources[i])) && ResourcesAgree(rules, o.resources)
  {
    hide AcceptableResource, ResourcePairAgrees, NormalizeResource;
    var list := ResourceList(rules, o);
    forall i | 0 <= i < |o.resources| ensures list[i].Accepted? <==> AcceptableResource(rules, o.resources[i]) {
      ResourceMeans(rules, o.resources[i]);
    }
    if forall i :: 0 <= i < |o.resources| ==> AcceptableResource(rules, o.resources[i]) {
      forall i, j | 0 <= i < |list| && 0 <= j < |list|
        ensures list[i].entry.key == list[j].entry.key <==> SameResource(o.resources[i], o.resources[j])
        ensures SameResource(o.resources[i], o.resources[j]) ==>
                  (list[i].entry.content == list[j].entry.content <==> ResourcePairAgrees(rules, o.resources[i], o.resources[j]))
      {
        ResourceMeans(rules, o.resources[i]);
        ResourceMeans(rules, o.resources[j]);
        if SameResource(o.resources[i], o.resources[j]) { PairAgrees(rules, o.resources[i], o.resources[j]); }
      }
    }
  }

  /** Relations are accepted exactly when each is acceptable and those of one relation point at one field. */
  lemma RelationsAccepted(rules: Rules, o: Observations)
    ensures Agreeing(RelationList(rules, o))
       <==> && (forall i :: 0 <= i < |o.relations| ==> AcceptableRelation(rules, o.relations[i]))
            && forall i, j :: 0 <= i < |o.relations| && 0 <= j < |o.relations| && SameRelation(o.relations[i], o.relations[j]) ==>
                 o.relations[i].fieldPath == o.relations[j].fieldPath
  {
    hide AcceptableRelation, NormalizeRelation;
    var list := RelationList(rules, o);
    forall i | 0 <= i < |o.relations| ensures list[i].Accepted? <==> AcceptableRelation(rules, o.relations[i]) {
      RelationMeans(rules, o.relations[i]);
    }
    if forall i :: 0 <= i < |o.relations| ==> AcceptableRelation(rules, o.relations[i]) {
      forall i, j | 0 <= i < |list| && 0 <= j < |list|
        ensures list[i].entry.key == list[j].entry.key <==> SameRelation(o.relations[i], o.relations[j])
        ensures list[i].entry.content == list[j].entry.content <==> o.relations[i].fieldPath == o.relations[j].fieldPath
      {
        RelationMeans(rules, o.relations[i]);
        RelationMeans(rules, o.relations[j]);
      }
    }
  }

  /** A batch is accepted exactly when its coverage fits the mode, no secret was found in it or stands in its warnings, every
      observation is acceptable, and observations of one resource or relation agree. */
  lemma BatchAcceptedExactly(rules: Rules, o: Observations)
    ensures NormalizedBatch(rules, o).Ok?
       <==> && (o.coverage == PartialCoverage || (rules.mode == Full && o.coverage == AuthoritativeFull)
                || (rules.mode == Incremental && o.coverage == IncrementalCoverage) || (rules.mode == Targeted && o.coverage == TargetedCoverage))
            && o.sentinels == 0 && (forall i :: 0 <= i < |o.warnings| ==> !IsSecretText(o.warnings[i]))
            && (forall i :: 0 <= i < |o.resources| ==> AcceptableResource(rules, o.resources[i])) && ResourcesAgree(rules, o.resources)
            && (forall i :: 0 <= i < |o.relations| ==> AcceptableRelation(rules, o.relations[i]))
            && (forall i, j :: 0 <= i < |o.relations| && 0 <= j < |o.relations| && SameRelation(o.relations[i], o.relations[j]) ==>
                  o.relations[i].fieldPath == o.relations[j].fieldPath)
  {
    hide NormalizedBatch, Agreeing, AcceptableResource, AcceptableRelation, ResourcesAgree, SameRelation, IsSecretText, ResourceList, RelationList;
    BatchIsSortedAndNewest(rules, o);
    ResourcesAccepted(rules, o);
    RelationsAccepted(rules, o);
  }

  // ----- with which code a batch fails -----

  /** The first trouble of a list: up to it observations agree, and it is rejected with the code, or contradicts an earlier one. */
  ghost predicate FailsAt<K, V>(list: seq<Normalized<K, V>>, i: nat, code: Code)
    requires i < |list|
  {
    && Agreeing(list[..i])
    && if list[i].Rejected? then code == list[i].code
       else code == InvalidResponse && exists j :: 0 <= j < i && list[j].Accepted? && list[j].entry.key == list[i].entry.key
                                                  && list[j].entry.content != list[i].entry.content
  }

  lemma {:induction false} CollapseFailsFor<K, V>(list: seq<Normalized<K, V>>, code: Code)
    ensures Collapse(list) == Failed(code) <==> exists i :: 0 <= i < |list| && FailsAt(list, i, code)
  {
    hide FailsAt, Agreeing;
    if list != [] {
      var n := |list| - 1;
      var front := list[..n];
      CollapseFailsFor(front, code);
      forall i | 0 <= i < n ensures FailsAt(front, i, code) <==> FailsAt(list, i, code) {
        FailsEarlier(list, i, code);
      }
      LastFails(list, code);
    }
  }

  lemma FailsEarlier<K, V>(list: seq<Normalized<K, V>>, i: nat, code: Code)
    requires i < |list| - 1
    ensures FailsAt(list[..|list| - 1], i, code) <==> FailsAt(list, i, code)
  {
    hide Agreeing;
    assert list[..|list| - 1][..i] == list[..i];
  }

  lemma LastFails<K, V>(list: seq<Normalized<K, V>>, code: Code)
    requires list != []
    ensures var n := |list| - 1;
            FailsAt(list, n, code) <==> Collapse(list[..n]).Entries? && Absorb(Collapse(list[..n]), list[n]) == Failed(code)
  {
    hide Collapse, Agreeing, Newest;
    var n := |list| - 1;
    var front := list[..n];
    CollapseKeepsNewest(front);
    if Agreeing(front) && list[n].Accepted? {
      Contradicts(front, list[n], Collapse(front).entries);
      assert forall j :: 0 <= j < n ==> front[j] == list[j];
    }
  }

  lemma Contradicts<K, V>(front: seq<Normalized<K, V>>, last: Normalized<K, V>, m: map<K, Entry<K, V>>)
    requires Agreeing(front) && Newest(front, m) && last.Accepted?
    ensures (last.entry.key in m && m[last.entry.key].content != last.entry.content)
       <==> exists j :: 0 <= j < |front| && front[j].Accepted? && front[j].entry.key == last.entry.key && front[j].entry.content != last.entry.content
  {
    if last.entry.key in m {
      var i :| 0 <= i < |front| && front[i].Accepted? && front[i].entry == m[last.entry.key];
      assert front[i].entry.key == last.entry.key;
    }
  }

  /** A batch fails with the code of its first trouble: its coverage and what was found before, its warnings, its resources in their
      order, its relations in theirs. */
  lemma BatchFailsFor(rules: Rules, o: Observations, code: Code)
    ensures NormalizedBatch(rules, o) == Err(code)
       <==> var unfit := !(o.coverage == PartialCoverage || (rules.mode == Full && o.coverage == AuthoritativeFull)
                           || (rules.mode == Incremental && o.coverage == IncrementalCoverage)
                           || (rules.mode == Targeted && o.coverage == TargetedCoverage)) || o.sentinels != 0;
            var secret := exists i :: 0 <= i < |o.warnings| && IsSecretText(o.warnings[i]);
            || (unfit && code == InvalidDomainValue)
            || (!unfit && secret && code == InvalidResponse)
            || (!unfit && !secret && exists i :: 0 <= i < |o.resources| && FailsAt(ResourceList(rules, o), i, code))
            || (!unfit && !secret && Agreeing(ResourceList(rules, o)) && exists i :: 0 <= i < |o.relations| && FailsAt(RelationList(rules, o), i, code))
  {
    hide IsSecretText, FailsAt, Agreeing, Collapse, InKeyOrder, NormalizeResource, NormalizeRelation;
    CollapseFailsFor(ResourceList(rules, o), code);
    CollapseFailsFor(RelationList(rules, o), code);
    CollapseAgrees(ResourceList(rules, o));
  }

  lemma CollapseAgrees<K, V>(list: seq<Normalized<K, V>>)
    ensures Collapse(list).Entries? <==> Agreeing(list)
  {
    CollapseKeepsNewest(list);
  }

  /** A sequence in strict key order that holds, for every key observed, its newest observation, and nothing else. */
  ghost predicate Chosen<K(!new), V>(list: seq<Normalized<K, V>>, chosen: seq<Entry<K, V>>, less: Less<K>) {
    && (forall i, j :: 0 <= i < j < |chosen| ==> less(chosen[i].key, chosen[j].key))
    && (forall i :: 0 <= i < |chosen| ==> Observed(list, chosen[i]))
    && (forall j :: 0 <= j < |list| && list[j].Accepted? ==> Superseded(list[j].entry, chosen))
  }

  ghost predicate Observed<K, V>(list: seq<Normalized<K, V>>, e: Entry<K, V>) {
    exists j :: 0 <= j < |list| && list[j].Accepted? && list[j].entry == e
  }

  ghost predicate Superseded<K, V>(e: Entry<K, V>, chosen: seq<Entry<K, V>>) {
    exists i :: 0 <= i < |chosen| && chosen[i].key == e.key && e.observedAt <= chosen[i].observedAt
  }

  lemma InKeyOrderAt<K(!new), V>(m: map<K, Entry<K, V>>, less: Less<K>)
    requires StrictTotal(less)
    ensures var keys, chosen := Listing(m.Keys, less), InKeyOrder(m, less);
            |chosen| == |keys| && forall i :: 0 <= i < |keys| ==> keys[i] in m && chosen[i] == m[keys[i]]
  {
    hide StrictTotal;
    var keys := Listing(m.Keys, less);
    assert forall i :: 0 <= i < |keys| ==> keys[i] in keys;
  }

  lemma OrderedSupersedes<K(!new), V>(list: seq<Normalized<K, V>>, m: map<K, Entry<K, V>>, less: Less<K>, j: nat)
    requires StrictTotal(less) && Newest(list, m) && j < |list| && list[j].Accepted?
    ensures Superseded(list[j].entry, InKeyOrder(m, less))
  {
    hide StrictTotal, InKeyOrder;
    var keys, chosen := Listing(m.Keys, less), InKeyOrder(m, less);
    InKeyOrderAt(m, less);
    assert list[j].entry.key in keys;
    var i :| 0 <= i < |keys| && keys[i] == list[j].entry.key;
    assert chosen[i] == m[list[j].entry.key];
  }

  lemma OrderedIsObserved<K(!new), V>(list: seq<Normalized<K, V>>, m: map<K, Entry<K, V>>, less: Less<K>)
    requires StrictTotal(less) && Newest(list, m)
    ensures var chosen := InKeyOrder(m, less);
            && (forall i, j :: 0 <= i < j < |chosen| ==> less(chosen[i].key, chosen[j].key))
            && (forall i :: 0 <= i < |chosen| ==> Observed(list, chosen[i]))
  {
    hide StrictTotal, InKeyOrder;
    InKeyOrderAt(m, less);
    var keys, chosen := Listing(m.Keys, less), InKeyOrder(m, less);
    forall i, j | 0 <= i < j < |chosen| ensures less(chosen[i].key, chosen[j].key) {
      assert chosen[i].key == keys[i] && chosen[j].key == keys[j];
    }
  }

  lemma OrderedIsChosen<K(!new), V>(list: seq<Normalized<K, V>>, m: map<K, Entry<K, V>>, less: Less<K>)
    requires StrictTotal(less) && Newest(list, m)
    ensures Chosen(list, InKeyOrder(m, less), less)
  {
    hide StrictTotal, InKeyOrder, Superseded;
    OrderedIsObserved(list, m, less);
    hide Newest, Observed;
    var chosen := InKeyOrder(m, less);
    forall j | 0 <= j < |list| && list[j].Accepted? ensures Superseded(list[j].entry, chosen) {
      OrderedSupersedes(list, m, less, j);
    }
  }
}
