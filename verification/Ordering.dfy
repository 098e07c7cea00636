/** Strict total orders and the ordered listing of a finite set, as an ordered map or an ORDER BY yields it. */
module Ordering {

  type Less<!T> = (T, T) -> bool

  ghost predicate StrictTotal<T(!new)>(less: Less<T>) {
    && (forall x :: !less(x, x))
    && (forall x, y :: x != y ==> less(x, y) || less(y, x))
    && (forall x, y, z :: less(x, y) && less(y, z) ==> less(x, z))
  }

  predicate Ascending<T>(s: seq<T>, less: Less<T>) {
    forall i, j :: 0 <= i < j < |s| ==> less(s[i], s[j])
  }

  predicate IsLeast<T(==)>(x: T, s: set<T>, less: Less<T>) {
    x in s && forall y :: y in s ==> y == x || less(x, y)
  }

  lemma {:induction false} LeastExists<T(!new)>(s: set<T>, less: Less<T>) returns (x: T)
    requires StrictTotal(less) && s != {}
    ensures IsLeast(x, s, less)
    decreases s
  {
    var first :| first in s;
    var rest := s - {first};
    x := first;
    if rest != {} {
      var y := LeastExists(rest, less);
      x := if less(y, first) then y else first;
    }
    forall z | z in s ensures z == x || less(x, z) {
      assert z == first || z in rest;
    }
  }

  lemma LeastExistsFact<T(!new)>(s: set<T>, less: Less<T>)
    requires StrictTotal(less) && s != {}
    ensures exists x :: IsLeast(x, s, less)
  {
    var x := LeastExists(s, less);
  }

  /** The elements of a set in ascending order. */
  function Listing<T(!new)>(s: set<T>, less: Less<T>): (r: seq<T>)
    requires StrictTotal(less)
    ensures Ascending(r, less) && |r| == |s|
    ensures forall x :: x in r <==> x in s
    decreases s
  {
    if s == {} then []
    else
      LeastExistsFact(s, less);
      var x :| IsLeast(x, s, less);
      [x] + Listing(s - {x}, less)
  }

  /** An ascending sequence is determined by its elements. */
  lemma {:induction false} AscendingUnique<T(!new)>(a: seq<T>, b: seq<T>, less: Less<T>)
    requires StrictTotal(less) && Ascending(a, less) && Ascending(b, less)
    requires forall x :: x in a <==> x in b
    ensures a == b
  {
    if a != [] { assert a[0] in a; }
    if b != [] { assert b[0] in b; }
    if a != [] {
      assert a[0] == b[0];
      forall x ensures x in a[1..] <==> x in b[1..] {
        if x in a[1..] { assert x in a && x != a[0]; }
        if x in b[1..] { assert x in b && x != b[0]; }
      }
      AscendingUnique(a[1..], b[1..], less);
    }
  }

  lemma RemoveAt<T>(b: seq<T>, j: nat)
    requires j < |b|
    ensures multiset(b) == multiset(b[..j] + b[j + 1..]) + multiset{b[j]}
  {
    assert b == b[..j] + ([b[j]] + b[j + 1..]);
  }

  lemma Cancel<T>(a: multiset<T>, b: multiset<T>, x: T)
    requires a + multiset{x} == b + multiset{x}
    ensures a == b
  {
    assert a == a + multiset{x} - multiset{x} && b == b + multiset{x} - multiset{x};
  }

  /** The last element of one sequence, found and removed from a permutation of it. */
  lemma WithoutLast<T>(a: seq<T>, b: seq<T>) returns (front: seq<T>, rest: seq<T>, j: nat)
    requires multiset(a) == multiset(b) && a != []
    ensures front == a[..|a| - 1] && j < |b| && b[j] == a[|a| - 1] && rest == b[..j] + b[j + 1..]
    ensures multiset(front) == multiset(rest)
  {
    var last := a[|a| - 1];
    front := a[..|a| - 1];
    assert a == front + [last];
    assert last in multiset(b);
    j :| 0 <= j < |b| && b[j] == last;
    rest := b[..j] + b[j + 1..];
    RemoveAt(b, j);
    Cancel(multiset(front), multiset(rest), last);
  }

  // ----- text order -----

  /** Lexicographic order of strings, the order of text keys in maps and tables. */
  predicate TextLess(a: string, b: string) {
    if b == [] then false
    else if a == [] then true
    else if a[0] != b[0] then a[0] < b[0]
    else TextLess(a[1..], b[1..])
  }

  lemma {:induction false} TextTransitive(a: string, b: string, c: string)
    requires TextLess(a, b) && TextLess(b, c)
    ensures TextLess(a, c)
  {
    if a != [] && a[0] == b[0] && b[0] == c[0] {
      TextTransitive(a[1..], b[1..], c[1..]);
    }
  }

  lemma {:induction false} TextTotal(a: string, b: string)
    ensures a == b || TextLess(a, b) || TextLess(b, a)
    ensures !TextLess(a, a)
  {
    if a != [] {
      TextTotal(a[1..], a[1..]);
      if b != [] && a[0] == b[0] {
        TextTotal(a[1..], b[1..]);
        assert a == [a[0]] + a[1..] && b == [b[0]] + b[1..];
      }
    }
  }

  lemma TextOrder()
    ensures StrictTotal(TextLess)
  {
    forall a, b ensures !TextLess(a, a) && (a != b ==> TextLess(a, b) || TextLess(b, a)) {
      TextTotal(a, b);
    }
    forall a, b, c | TextLess(a, b) && TextLess(b, c) ensures TextLess(a, c) {
      TextTransitive(a, b, c);
    }
  }

  /** A proper prefix comes first. */
  lemma {:induction false} PrefixFirst(a: string, b: string)
    requires a < b
    ensures TextLess(a, b)
  {
    if a != [] {
      PrefixFirst(a[1..], b[1..]);
    }
  }

  // ----- identifiers -----

  /** A textual identifier (resource, relation, connection, ...), ordered by its text. */
  datatype Id = Id(text: string)

  predicate IdLess(a: Id, b: Id) { TextLess(a.text, b.text) }

  lemma IdOrder()
    ensures StrictTotal(IdLess)
  {
    forall a, b ensures !IdLess(a, a) && (a != b ==> IdLess(a, b) || IdLess(b, a)) {
      TextTotal(a.text, b.text);
    }
    forall a, b, c | IdLess(a, b) && IdLess(b, c) ensures IdLess(a, c) {
      TextTransitive(a.text, b.text, c.text);
    }
  }

  /** A text comes before another when it is a proper beginning of it, or has the lesser character where they first differ. */
  ghost predicate DiffersBelow(a: string, b: string, i: nat) {
    i < |a| && i < |b| && a[i] as int < b[i] as int && forall j :: 0 <= j < i ==> a[j] == b[j]
  }

  lemma DiffersLater(a: string, b: string, i: nat)
    requires a != [] && b != [] && a[0] == b[0]
    ensures DiffersBelow(a[1..], b[1..], i) <==> DiffersBelow(a, b, i + 1)
  {
    assert forall j :: 0 <= j < |a| - 1 ==> a[1..][j] == a[j + 1];
    assert forall j :: 0 <= j < |b| - 1 ==> b[1..][j] == b[j + 1];
    assert forall j :: 1 <= j < |a| ==> a[j] == a[1..][j - 1];
    assert forall j :: 1 <= j < |b| ==> b[j] == b[1..][j - 1];
  }

  lemma {:induction false} TextLessMeans(a: string, b: string)
    ensures TextLess(a, b) <==> a < b || exists i: nat :: DiffersBelow(a, b, i)
  {
    if a != [] && b != [] {
      if a[0] == b[0] {
        TextLessMeans(a[1..], b[1..]);
        assert a == [a[0]] + a[1..] && b == [b[0]] + b[1..];
        forall i: nat ensures DiffersBelow(a[1..], b[1..], i) <==> DiffersBelow(a, b, i + 1) {
          DiffersLater(a, b, i);
        }
        if i: nat :| DiffersBelow(a, b, i) {
          assert i > 0;
          DiffersLater(a, b, i - 1);
        }
        assert a < b <==> a[1..] < b[1..];
      } else {
        assert a[0] < b[0] ==> DiffersBelow(a, b, 0);
      }
    }
  }
}
