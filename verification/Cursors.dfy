/** The cursors of the query service and of the change feed, and paging through them. */
module Cursors {
  import opened Wrappers
  import opened Text
  import opened Ordering
  import opened Keyset

  // ----- the opaque cursor of the service -----

  const CURSOR_PREFIX := "niq1:"
  const MAX_CURSOR_LENGTH := 512

  function Utf8Length(c: char): nat {
    var n := c as int;
    if n < 0x80 then 1 else if n < 0x800 then 2 else if n < 0x1_0000 then 3 else 4
  }

  function ByteLength(s: string): nat {
    if s == [] then 0 else Utf8Length(s[0]) + ByteLength(s[1..])
  }

  predicate IsControl(c: char) {
    c as int < 0x20 || 0x7f <= c as int < 0xa0
  }

  predicate HasControl(s: string) { exists i :: 0 <= i < |s| && IsControl(s[i]) }

  function EncodeCursor(value: string): string { CURSOR_PREFIX + value }

  /** The value inside a cursor, or nothing when the service calls the cursor invalid. */
  function DecodeCursor(cursor: string): Option<string> {
    if ByteLength(cursor) > MAX_CURSOR_LENGTH || !(CURSOR_PREFIX <= cursor) then None
    else
      var value := cursor[|CURSOR_PREFIX|..];
      if value == [] || HasControl(value) then None else Some(value)
  }

  /** What a cursor value must be for the service to take its own cursor back. */
  predicate Encodable(value: string) {
    value != [] && !HasControl(value) && ByteLength(value) <= MAX_CURSOR_LENGTH - 5
  }

  lemma {:induction false} ByteLengthConcat(a: string, b: string)
    ensures ByteLength(a + b) == ByteLength(a) + ByteLength(b)
  {
    if a == [] {
      assert a + b == b;
    } else {
      assert (a + b)[1..] == a[1..] + b;
      ByteLengthConcat(a[1..], b);
    }
  }

  /** The service decodes its own cursor exactly when the value is non-empty, printable and short enough. */
  lemma CursorRoundTrip(value: string)
    ensures DecodeCursor(EncodeCursor(value)) == if Encodable(value) then Some(value) else None
  {
    ByteLengthConcat(CURSOR_PREFIX, value);
    assert ByteLength(CURSOR_PREFIX) == 5 by {
      assert CURSOR_PREFIX[1..] == "iq1:" && "iq1:"[1..] == "q1:" && "q1:"[1..] == "1:" && "1:"[1..] == ":";
    }
    assert EncodeCursor(value)[|CURSOR_PREFIX|..] == value;
  }

  // ----- the change feed -----

  /** Position of a change: its time and its id. */
  datatype ChangeKey = ChangeKey(observedAt: int, changeId: string)

  predicate ValidChange(c: ChangeKey) { 0 <= c.observedAt <= MAX_I64 && c.changeId != [] }

  /** Newest first; among changes of one instant, the greatest id first. */
  predicate NewerFirst(a: ChangeKey, b: ChangeKey) {
    b.observedAt < a.observedAt || (b.observedAt == a.observedAt && TextLess(b.changeId, a.changeId))
  }

  lemma NewerFirstOrder()
    ensures StrictTotal(NewerFirst)
  {
    forall a, b ensures !NewerFirst(a, a) && (a != b ==> NewerFirst(a, b) || NewerFirst(b, a)) {
      TextTotal(a.changeId, b.changeId);
    }
    forall a, b, c | NewerFirst(a, b) && NewerFirst(b, c) ensures NewerFirst(a, c) {
      if a.observedAt == b.observedAt == c.observedAt {
        TextTransitive(c.changeId, b.changeId, a.changeId);
      }
    }
  }

  function ChangeCursor(c: ChangeKey): string
    requires c.observedAt >= 0
  {
    Decimal(c.observedAt) + ":" + c.changeId
  }

  function ParseChangeCursor(value: string): Option<ChangeKey> {
    match SplitOnce(value, ':')
    case None => None
    case Some((time, changeId)) =>
      match ParseI64(time)
      case None => None
      case Some(observedAt) => if changeId == [] then None else Some(ChangeKey(observedAt, changeId))
  }

  /** A change cursor names its change again, colons in the id included. */
  lemma ChangeCursorRoundTrip(c: ChangeKey)
    requires ValidChange(c)
    ensures ParseChangeCursor(ChangeCursor(c)) == Some(c)
  {
    SplitOnceAt(Decimal(c.observedAt), ':', c.changeId);
    NumberOfDecimal(c.observedAt);
    assert IsDigit(Decimal(c.observedAt)[0]);
  }

  // ----- paging through text cursors -----

  /** The rows met by handing every returned cursor back, or nothing once a cursor is refused. */
  ghost function FollowCursors<T(!new)>(rows: set<T>, less: Less<T>, encode: T -> string, decode: string -> Option<T>,
                                        cursor: Option<string>, limit: nat): Option<seq<T>>
    requires StrictTotal(less) && limit >= 1
    requires forall x :: x in rows ==> decode(encode(x)) in {None, Some(x)}
    decreases Left(rows, less, decode, cursor)
  {
    if cursor.Some? && decode(cursor.value).None? then None
    else
      var after := if cursor.None? then None else decode(cursor.value);
      var page := PageOf(rows, less, after, limit);
      if page.nextAfter.None? then Some(page.items)
      else
        CursorAdvances(rows, less, after, limit);
        BoundaryIsRow(rows, less, after, limit);
        match FollowCursors(rows, less, encode, decode, Some(encode(page.nextAfter.value)), limit)
        case None => None
        case Some(rest) => Some(page.items + rest)
  }

  ghost function Left<T(!new)>(rows: set<T>, less: Less<T>, decode: string -> Option<T>, cursor: Option<string>): nat {
    if cursor.None? then |Remaining(rows, less, None)| + 1
    else if decode(cursor.value).None? then 0
    else |Remaining(rows, less, decode(cursor.value))| + 1
  }

  lemma BoundaryIsRow<T(!new)>(rows: set<T>, less: Less<T>, after: Option<T>, limit: nat)
    requires StrictTotal(less) && limit >= 1 && limit < |Remaining(rows, less, after)|
    ensures PageOf(rows, less, after, limit).nextAfter.value in rows
  {
    var all := Listing(Remaining(rows, less, after), less);
    assert all[limit - 1] in all;
  }

  /** The rows on which a page ends while rows are left. */
  function PageEnds<T>(all: seq<T>, limit: nat): seq<T>
    requires limit >= 1
  {
    if |all| <= limit then [] else [all[limit - 1]] + PageEnds(all[limit..], limit)
  }

  predicate AllSurvive<T>(ends: seq<T>, encode: T -> string, decode: string -> Option<T>) {
    forall i :: 0 <= i < |ends| ==> decode(encode(ends[i])).Some?
  }

  /** Paging succeeds exactly when every row that ends a page survives as a cursor, and then lists every row once, in order. */
  lemma {:induction false} CursorsEnumerate<T(!new)>(rows: set<T>, less: Less<T>, encode: T -> string, decode: string -> Option<T>,
                                                     cursor: Option<string>, after: Option<T>, limit: nat)
    requires StrictTotal(less) && limit >= 1
    requires forall x :: x in rows ==> decode(encode(x)) in {None, Some(x)}
    requires after == (if cursor.None? then None else decode(cursor.value)) && (cursor.Some? ==> after.Some?)
    ensures var all := Listing(Remaining(rows, less, after), less);
            FollowCursors(rows, less, encode, decode, cursor, limit)
            == if AllSurvive(PageEnds(all, limit), encode, decode) then Some(all) else None
    decreases |Remaining(rows, less, after)|
  {
    hide StrictTotal, Remaining, Listing, Ascending, AllSurvive;
    var page := PageOf(rows, less, after, limit);
    var all := Listing(Remaining(rows, less, after), less);
    if page.nextAfter.None? {
      NoEnds(encode, decode);
    } else {
      CursorAdvances(rows, less, after, limit);
      BoundaryIsRow(rows, less, after, limit);
      var boundary, rest := all[limit - 1], all[limit..];
      FirstEnd(boundary, PageEnds(rest, limit), encode, decode);
      if decode(encode(boundary)).Some? {
        CursorsEnumerate(rows, less, encode, decode, Some(encode(boundary)), Some(boundary), limit);
        assert all[..limit] + rest == all;
      }
    }
  }

  lemma NoEnds<T>(encode: T -> string, decode: string -> Option<T>)
    ensures AllSurvive([], encode, decode)
  {
  }

  lemma FirstEnd<T>(x: T, ends: seq<T>, encode: T -> string, decode: string -> Option<T>)
    ensures AllSurvive([x] + ends, encode, decode) <==> decode(encode(x)).Some? && AllSurvive(ends, encode, decode)
  {
    var both := [x] + ends;
    if AllSurvive(both, encode, decode) {
      assert both[0] == x;
      assert forall i :: 0 <= i < |ends| ==> ends[i] == both[i + 1];
    }
  }

  // ----- the two paged feeds of the service -----

  /** A resource id travels as the cursor itself. */
  function EncodeResourceCursor(id: Id): string { EncodeCursor(id.text) }

  function DecodeResourceCursor(cursor: string): Option<Id> {
    match DecodeCursor(cursor) case None => None case Some(value) => Some(Id(value))
  }

  function EncodeChangeCursor(c: ChangeKey): string {
    if c.observedAt >= 0 then EncodeCursor(ChangeCursor(c)) else ""
  }

  function DecodeChangeCursor(cursor: string): Option<ChangeKey> {
    match DecodeCursor(cursor) case None => None case Some(value) => ParseChangeCursor(value)
  }

  /** Following resource cursors from the start lists every matching id in order, if and only if no id that ends a page is refused as a cursor. */
  lemma ResourcePaging(rows: set<Id>, limit: nat)
    requires limit >= 1
    ensures StrictTotal(IdLess)
    ensures forall x :: x in rows ==> DecodeResourceCursor(EncodeResourceCursor(x)) in {None, Some(x)}
    ensures var all := Listing(rows, IdLess);
            FollowCursors(rows, IdLess, EncodeResourceCursor, DecodeResourceCursor, None, limit)
            == if forall i :: 0 <= i < |PageEnds(all, limit)| ==> Encodable(PageEnds(all, limit)[i].text) then Some(all) else None
  {
    IdOrder();
    forall x: Id ensures DecodeResourceCursor(EncodeResourceCursor(x)) == if Encodable(x.text) then Some(x) else None {
      CursorRoundTrip(x.text);
    }
    CursorsEnumerate(rows, IdLess, EncodeResourceCursor, DecodeResourceCursor, None, None, limit);
    assert Remaining(rows, IdLess, None) == rows;
  }

  /** The same for the change feed, newest first. */
  lemma ChangePaging(rows: set<ChangeKey>, limit: nat)
    requires limit >= 1 && forall c :: c in rows ==> ValidChange(c)
    ensures StrictTotal(NewerFirst)
    ensures forall x :: x in rows ==> DecodeChangeCursor(EncodeChangeCursor(x)) in {None, Some(x)}
    ensures forall x :: x in Listing(rows, NewerFirst) ==> x.observedAt >= 0
    ensures var all := Listing(rows, NewerFirst);
            FollowCursors(rows, NewerFirst, EncodeChangeCursor, DecodeChangeCursor, None, limit)
            == if forall c :: c in PageEnds(all, limit) ==> c.observedAt >= 0 && Encodable(ChangeCursor(c)) then Some(all) else None
  {
    NewerFirstOrder();
    forall x | ValidChange(x)
      ensures DecodeChangeCursor(EncodeChangeCursor(x)) == if Encodable(ChangeCursor(x)) then Some(x) else None
    {
      CursorRoundTrip(ChangeCursor(x));
      ChangeCursorRoundTrip(x);
    }
    CursorsEnumerate(rows, NewerFirst, EncodeChangeCursor, DecodeChangeCursor, None, None, limit);
    assert Remaining(rows, NewerFirst, None) == rows;
    EndsAreRows(Listing(rows, NewerFirst), limit);
  }

  lemma {:induction false} EndsAreRows<T>(all: seq<T>, limit: nat)
    requires limit >= 1
    ensures forall x :: x in PageEnds(all, limit) ==> x in all
  {
    if |all| > limit {
      EndsAreRows(all[limit..], limit);
    }
  }

  lemma {:induction false} RepeatedLength(n: nat)
    ensures ByteLength(seq(n, _ => 'a')) == n
  {
    if n > 0 {
      RepeatedLength(n - 1);
      assert seq(n, _ => 'a')[1..] == seq(n - 1, _ => 'a');
    }
  }

  /** Nothing bounds the length of an id, so paging can be cut off: here after the first of two rows. */
  lemma LongIdStopsPaging(first: Id, second: Id)
    requires first == Id(seq(508, _ => 'a')) && second == Id("b")
    ensures StrictTotal(IdLess)
    ensures forall x :: x in {first, second} ==> DecodeResourceCursor(EncodeResourceCursor(x)) in {None, Some(x)}
    ensures FollowCursors({first, second}, IdLess, EncodeResourceCursor, DecodeResourceCursor, None, 1) == None
  {
    var rows := {first, second};
    IdOrder();
    ResourcePaging(rows, 1);
    RepeatedLength(508);
    assert first.text[0] == 'a' && IdLess(first, second);
    AscendingUnique(Listing(rows, IdLess), [first, second], IdLess);
    assert PageEnds([first, second], 1)[0] == first;
  }

  // ----- what order and cursors mean -----

  /** In the listing of a change feed times never increase, and within one time ids decrease. */
  lemma NewestFirst(rows: set<ChangeKey>)
    ensures StrictTotal(NewerFirst)
    ensures var list := Listing(rows, NewerFirst);
            && |list| == |rows| && (forall c :: c in list <==> c in rows)
            && forall i, j :: 0 <= i < j < |list| ==>
                 list[j].observedAt < list[i].observedAt
                 || (list[j].observedAt == list[i].observedAt && TextLess(list[j].changeId, list[i].changeId))
  {
    NewerFirstOrder();
    hide TextLess;
  }

  /** The service takes exactly the cursors it can have made: the prefix and a value that is not empty, printable and short enough. */
  lemma CursorsTaken(cursor: string, value: string)
    ensures DecodeCursor(cursor) == Some(value) <==> cursor == "niq1:" + value && Encodable(value)
  {
    CursorRoundTrip(value);
    if DecodeCursor(cursor) == Some(value) {
      assert cursor == CURSOR_PREFIX + cursor[|CURSOR_PREFIX|..];
    }
  }

  /** Bytes of UTF-8 (RFC 3629, section 3): n bytes hold a character exactly when it is below 2^7, 2^11, 2^16; texts add up. */
  lemma {:induction false} ByteLengthMeans(c: char, s: string, t: string)
    ensures 1 <= ByteLength([c]) <= 4
    ensures (ByteLength([c]) <= 1 <==> c as int < 128) && (ByteLength([c]) <= 2 <==> c as int < 2_048)
            && (ByteLength([c]) <= 3 <==> c as int < 65_536)
    ensures ByteLength(s + t) == ByteLength(s) + ByteLength(t)
  {
    if s == [] {
      assert s + t == t;
    } else {
      assert (s + t)[1..] == s[1..] + t;
      ByteLengthMeans(c, s[1..], t);
    }
  }

  /** A value is encodable when it holds a character, none below U+0020 or from U+007F to U+009F, and at most 507 bytes of UTF-8. */
  lemma EncodableMeans(value: string)
    ensures Encodable(value)
       <==> && value != [] && ByteLength(value) <= 507
            && forall i :: 0 <= i < |value| ==> value[i] as int >= 0x20 && !(0x7f <= value[i] as int <= 0x9f)
  {
  }

  lemma {:induction false} AsciiBytes(s: string)
    requires forall i :: 0 <= i < |s| ==> s[i] as int < 0x80
    ensures ByteLength(s) == |s|
  {
    if s != [] {
      AsciiBytes(s[1..]);
    }
  }

  /** A change cursor is a numeral, a colon and an id, which may hold colons itself. */
  lemma ChangeCursorsTaken(value: string, c: ChangeKey)
    ensures ParseChangeCursor(value) == Some(c)
       <==> c.changeId != [] && exists time: string :: ':' !in time && value == time + ":" + c.changeId && ParseI64(time) == Some(c.observedAt)
  {
    hide ParseI64;
    match SplitOnce(value, ':')
    case None =>
      forall time: string | ':' !in time ensures value != time + ":" + c.changeId {
        SplitOnceAt(time, ':', c.changeId);
      }
    case Some((time, id)) =>
      SplitOnceMeans(value, ':');
      forall other: string | ':' !in other && value == other + ":" + c.changeId ensures other == time && c.changeId == id {
        SplitOnceAt(other, ':', c.changeId);
      }
  }
}
