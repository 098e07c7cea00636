/** WHERE clauses with positional parameters: how their words are read, and what pieces of them mean. */
module Clauses {
  import opened Wrappers
  import opened Ordering
  import opened Freshness
  import opened Like

  // ----- the clause language -----

  /** A column, or the lower case of a text column. */
  datatype Column =
    | ResourceIdColumn | ConnectionColumn | KindColumn | ConnectorTypeColumn | HealthColumn | LastSeenColumn
    | LowerDisplayName | LowerName | LowerKind | LowerExternalId | LowerResourceId

  datatype Value = Text(text: string) | Integer(n: int)

  datatype Comparison = Greater | Equal | AtLeast | Below | LikePattern

  /** Words of a WHERE clause; `Always` stands for `1 = 1`, `LabelIs` for the query that a label with a key and a value given by
      two parameters exists. */
  datatype Token = Always | LabelIs | And | Or | Open | Close | Comma | Slot | In | Col(column: Column) | Compare(op: Comparison)

  type Sql = seq<Token>

  type Values = seq<Value>

  datatype Row = Row(resourceId: string, connectionId: string, kind: string, connectorType: string, health: string, lastSeenAt: int,
                     displayName: string, name: string, externalId: string, labels: map<string, string>)

  function Field(row: Row, column: Column): Value {
    match column
    case ResourceIdColumn => Text(row.resourceId)
    case ConnectionColumn => Text(row.connectionId)
    case KindColumn => Text(row.kind)
    case ConnectorTypeColumn => Text(row.connectorType)
    case HealthColumn => Text(row.health)
    case LastSeenColumn => Integer(row.lastSeenAt)
    case LowerDisplayName => Text(Lowered(row.displayName))
    case LowerName => Text(Lowered(row.name))
    case LowerKind => Text(Lowered(row.kind))
    case LowerExternalId => Text(Lowered(row.externalId))
    case LowerResourceId => Text(Lowered(row.resourceId))
  }

  predicate ValueLess(a: Value, b: Value) {
    match (a, b)
    case (Integer(m), Integer(n)) => m < n
    case (Text(s), Text(t)) => TextLess(s, t)
    case (Integer(_), Text(_)) => true
    case (Text(_), Integer(_)) => false
  }

  predicate Holds(a: Value, op: Comparison, b: Value) {
    match op
    case Greater => ValueLess(b, a)
    case Equal => a == b
    case AtLeast => !ValueLess(a, b)
    case Below => ValueLess(a, b)
    case LikePattern => a.Text? && b.Text? && Matches(b.text, a.text)
  }

  predicate HasLabel(row: Row, key: Value, value: Value) {
    key.Text? && value.Text? && key.text in row.labels && row.labels[key.text] == value.text
  }

  /** Outcome of reading an expression: its truth for a row, the words left and the parameters left. */
  datatype Reading = Malformed | Read(holds: bool, sql: Sql, values: Values)

  /** `?` or `?,?,...` up to the closing parenthesis: whether a field is among the next parameters. */
  function ReadSlots(sql: Sql, values: Values, field: Value): (r: Reading)
    ensures r.Read? ==> |r.sql| < |sql|
    decreases |sql|
  {
    if |sql| < 2 || sql[0] != Slot || values == [] then Malformed
    else if sql[1] == Close then Read(field == values[0], sql[2..], values[1..])
    else if sql[1] != Comma then Malformed
    else match ReadSlots(sql[2..], values[1..], field)
      case Malformed => Malformed
      case Read(holds, rest, left) => Read(field == values[0] || holds, rest, left)
  }

  function ReadPrimary(sql: Sql, values: Values, row: Row): (r: Reading)
    ensures r.Read? ==> |r.sql| < |sql|
    decreases |sql|, 0
  {
    if sql == [] then Malformed
    else match sql[0]
      case Always => Read(true, sql[1..], values)
      case LabelIs => if |values| >= 2 then Read(HasLabel(row, values[0], values[1]), sql[1..], values[2..]) else Malformed
      case Open =>
        (match ReadOr(sql[1..], values, row)
         case Malformed => Malformed
         case Read(holds, rest, left) => if rest != [] && rest[0] == Close then Read(holds, rest[1..], left) else Malformed)
      case Col(column) =>
        if |sql| >= 3 && sql[1].Compare? && sql[2] == Slot && values != [] then
          Read(Holds(Field(row, column), sql[1].op, values[0]), sql[3..], values[1..])
        else if |sql| >= 3 && sql[1] == In && sql[2] == Open then
          ReadSlots(sql[3..], values, Field(row, column))
        else Malformed
      case _ => Malformed
  }

  /** AND binds tighter than OR. */
  function ReadAnd(sql: Sql, values: Values, row: Row): (r: Reading)
    ensures r.Read? ==> |r.sql| < |sql|
    decreases |sql|, 1
  {
    match ReadPrimary(sql, values, row)
    case Malformed => Malformed
    case Read(holds, rest, left) =>
      if rest == [] || rest[0] != And then Read(holds, rest, left)
      else match ReadAnd(rest[1..], left, row)
        case Malformed => Malformed
        case Read(more, rest', left') => Read(holds && more, rest', left')
  }

  function ReadOr(sql: Sql, values: Values, row: Row): (r: Reading)
    ensures r.Read? ==> |r.sql| < |sql|
    decreases |sql|, 2
  {
    match ReadAnd(sql, values, row)
    case Malformed => Malformed
    case Read(holds, rest, left) =>
      if rest == [] || rest[0] != Or then Read(holds, rest, left)
      else match ReadOr(rest[1..], left, row)
        case Malformed => Malformed
        case Read(more, rest', left') => Read(holds || more, rest', left')
  }

  /** The verdict of a whole clause on a row: nothing unless it reads as one expression that uses every parameter. */
  function Verdict(sql: Sql, values: Values, row: Row): Option<bool> {
    var r := ReadOr(sql, values, row);
    if r.Read? && r.sql == [] && r.values == [] then Some(r.holds) else None
  }

  // ----- pieces of a clause -----

  /** Words with their parameters. */
  datatype Piece = Piece(sql: Sql, values: Values)

  function Joined(pieces: seq<Piece>, word: Token): Piece {
    if pieces == [] then Piece([], [])
    else if |pieces| == 1 then pieces[0]
    else
      var rest := Joined(pieces[1..], word);
      Piece(pieces[0].sql + [word] + rest.sql, pieces[0].values + rest.values)
  }

  function Wrapped(p: Piece): Piece { Piece([Open] + p.sql + [Close], p.values) }

  function ComparisonPiece(column: Column, op: Comparison, value: Value): Piece {
    Piece([Col(column), Compare(op), Slot], [value])
  }

  /** `?,?,...` for a count of parameters. */
  function Placeholders(count: nat): Sql {
    if count == 0 then [] else if count == 1 then [Slot] else [Slot, Comma] + Placeholders(count - 1)
  }

  function InPiece(column: Column, texts: seq<string>): Piece {
    Piece([Col(column), In, Open] + Placeholders(|texts|) + [Close], TextValues(texts))
  }

  /** A piece that reads as a primary with a given truth, whatever follows it. */
  ghost predicate PrimaryMeans(p: Piece, row: Row, holds: bool) {
    forall rest: Sql, left: Values :: ReadPrimary(p.sql + rest, p.values + left, row) == Read(holds, rest, left)
  }

  lemma ComparisonMeans(column: Column, op: Comparison, value: Value, row: Row)
    ensures PrimaryMeans(ComparisonPiece(column, op, value), row, Holds(Field(row, column), op, value))
  {
    var p := ComparisonPiece(column, op, value);
    forall rest: Sql, left: Values
      ensures ReadPrimary(p.sql + rest, p.values + left, row) == Read(Holds(Field(row, column), op, value), rest, left)
    {
      assert (p.sql + rest)[3..] == rest && (p.values + left)[1..] == left;
    }
  }

  function LabelPiece(key: string, value: string): Piece { Piece([LabelIs], [Text(key), Text(value)]) }

  lemma LabelMeans(key: string, value: string, row: Row)
    ensures PrimaryMeans(LabelPiece(key, value), row, key in row.labels && row.labels[key] == value)
  {
    var p := LabelPiece(key, value);
    forall rest: Sql, left: Values
      ensures ReadPrimary(p.sql + rest, p.values + left, row) == Read(key in row.labels && row.labels[key] == value, rest, left)
    {
      assert (p.sql + rest)[1..] == rest && (p.values + left)[2..] == left;
    }
  }

  lemma AlwaysMeans(row: Row)
    ensures PrimaryMeans(Piece([Always], []), row, true)
  {
    forall rest: Sql, left: Values ensures ReadPrimary([Always] + rest, [] + left, row) == Read(true, rest, left) {
      assert ([Always] + rest)[1..] == rest && [] + left == left;
    }
  }

  predicate AmongTexts(field: Value, texts: seq<string>) { field.Text? && field.text in texts }

  function TextValues(texts: seq<string>): Values {
    seq(|texts|, i requires 0 <= i < |texts| => Text(texts[i]))
  }

  lemma AmongFirst(field: Value, texts: seq<string>)
    requires texts != []
    ensures AmongTexts(field, texts) == (field == Text(texts[0]) || AmongTexts(field, texts[1..]))
    ensures |texts| == 1 ==> !AmongTexts(field, texts[1..])
  {
    assert texts == [texts[0]] + texts[1..];
  }

  lemma {:induction false} SlotsMean(texts: seq<string>, field: Value, rest: Sql, left: Values)
    requires texts != []
    ensures ReadSlots(Placeholders(|texts|) + [Close] + rest, TextValues(texts) + left, field)
         == Read(AmongTexts(field, texts), rest, left)
  {
    var sql, values := Placeholders(|texts|) + [Close] + rest, TextValues(texts) + left;
    assert values[1..] == TextValues(texts[1..]) + left;
    AmongFirst(field, texts);
    hide AmongTexts;
    if |texts| == 1 {
      assert sql[2..] == rest && TextValues(texts[1..]) + left == left;
    } else {
      assert sql[2..] == Placeholders(|texts| - 1) + [Close] + rest;
      SlotsMean(texts[1..], field, rest, left);
    }
  }

  lemma InMeans(column: Column, texts: seq<string>, row: Row)
    requires texts != []
    ensures PrimaryMeans(InPiece(column, texts), row, AmongTexts(Field(row, column), texts))
  {
    var p := InPiece(column, texts);
    forall rest: Sql, left: Values
      ensures ReadPrimary(p.sql + rest, p.values + left, row) == Read(AmongTexts(Field(row, column), texts), rest, left)
    {
      assert (p.sql + rest)[3..] == Placeholders(|texts|) + [Close] + rest;
      SlotsMean(texts, Field(row, column), rest, left);
    }
  }

  ghost predicate AllMean(pieces: seq<Piece>, row: Row, truths: seq<bool>) {
    |truths| == |pieces| && forall i :: 0 <= i < |pieces| ==> PrimaryMeans(pieces[i], row, truths[i])
  }

  predicate Conjunction(truths: seq<bool>) { forall i :: 0 <= i < |truths| ==> truths[i] }

  predicate Disjunction(truths: seq<bool>) { exists i :: 0 <= i < |truths| && truths[i] }

  lemma ReadFirst(p: Piece, row: Row, holds: bool, rest: Sql, left: Values)
    requires PrimaryMeans(p, row, holds)
    ensures ReadPrimary(p.sql + rest, p.values + left, row) == Read(holds, rest, left)
  {
  }

  lemma AndStep(sql: Sql, values: Values, row: Row, holds: bool, more: Sql, params: Values, holds': bool, rest: Sql, left: Values)
    requires ReadPrimary(sql, values, row) == Read(holds, [And] + more, params)
    requires ReadAnd(more, params, row) == Read(holds', rest, left)
    ensures ReadAnd(sql, values, row) == Read(holds && holds', rest, left)
  {
    hide ReadPrimary;
    assert ([And] + more)[1..] == more;
  }

  lemma OrStep(sql: Sql, values: Values, row: Row, holds: bool, more: Sql, params: Values, holds': bool, rest: Sql, left: Values)
    requires ReadAnd(sql, values, row) == Read(holds, [Or] + more, params)
    requires ReadOr(more, params, row) == Read(holds', rest, left)
    ensures ReadOr(sql, values, row) == Read(holds || holds', rest, left)
  {
    hide ReadAnd;
    assert ([Or] + more)[1..] == more;
  }

  lemma SplitTruths(truths: seq<bool>)
    requires truths != []
    ensures Conjunction(truths) == (truths[0] && Conjunction(truths[1..]))
    ensures Disjunction(truths) == (truths[0] || Disjunction(truths[1..]))
  {
    assert truths == [truths[0]] + truths[1..];
  }

  /** Pieces joined by AND read as their conjunction. */
  lemma {:induction false} AndMeans(pieces: seq<Piece>, row: Row, truths: seq<bool>, rest: Sql, left: Values)
    requires AllMean(pieces, row, truths) && pieces != []
    requires rest == [] || rest[0] != And
    ensures ReadAnd(Joined(pieces, And).sql + rest, Joined(pieces, And).values + left, row) == Read(Conjunction(truths), rest, left)
  {
    hide PrimaryMeans, ReadPrimary, ReadAnd, Conjunction;
    SplitTruths(truths);
    ReadNext(pieces, row, truths, And, rest, left);
    if |pieces| == 1 {
      assert truths[1..] == [];
      EmptyTruths();
      ReadAlone(pieces[0], row, truths[0], rest, left);
    } else {
      var joined, tail := Joined(pieces, And), Joined(pieces[1..], And);
      AndMeans(pieces[1..], row, truths[1..], rest, left);
      AndStep(joined.sql + rest, joined.values + left, row, truths[0], tail.sql + rest, tail.values + left,
              Conjunction(truths[1..]), rest, left);
    }
  }

  lemma EmptyTruths()
    ensures Conjunction([]) && !Disjunction([])
  {
  }

  /** The first of several joined pieces reads up to the word that joins it to the rest. */
  lemma ReadNext(pieces: seq<Piece>, row: Row, truths: seq<bool>, word: Token, rest: Sql, left: Values)
    requires AllMean(pieces, row, truths) && pieces != []
    ensures |pieces| > 1 ==>
      var joined, tail := Joined(pieces, word), Joined(pieces[1..], word);
      ReadPrimary(joined.sql + rest, joined.values + left, row) == Read(truths[0], [word] + (tail.sql + rest), tail.values + left)
  {
    hide ReadPrimary, PrimaryMeans;
    if |pieces| > 1 {
      var joined, tail := Joined(pieces, word), Joined(pieces[1..], word);
      assert joined.sql + rest == pieces[0].sql + ([word] + (tail.sql + rest));
      assert joined.values + left == pieces[0].values + (tail.values + left);
      ReadFirst(pieces[0], row, truths[0], [word] + (tail.sql + rest), tail.values + left);
    }
  }

  lemma ReadAlone(p: Piece, row: Row, holds: bool, rest: Sql, left: Values)
    requires PrimaryMeans(p, row, holds) && (rest == [] || rest[0] != And)
    ensures ReadAnd(p.sql + rest, p.values + left, row) == Read(holds, rest, left)
  {
    hide ReadPrimary, PrimaryMeans;
    ReadFirst(p, row, holds, rest, left);
  }

  /** Pieces joined by OR read as their disjunction. */
  lemma {:induction false} OrMeans(pieces: seq<Piece>, row: Row, truths: seq<bool>, rest: Sql, left: Values)
    requires AllMean(pieces, row, truths) && pieces != []
    requires rest == [] || (rest[0] != And && rest[0] != Or)
    ensures ReadOr(Joined(pieces, Or).sql + rest, Joined(pieces, Or).values + left, row) == Read(Disjunction(truths), rest, left)
  {
    hide PrimaryMeans, ReadPrimary, ReadAnd, ReadOr, Disjunction;
    SplitTruths(truths);
    ReadNext(pieces, row, truths, Or, rest, left);
    if |pieces| == 1 {
      assert truths[1..] == [];
      EmptyTruths();
      ReadAlone(pieces[0], row, truths[0], rest, left);
      ReadOrOfAnd(pieces[0].sql + rest, pieces[0].values + left, row, truths[0], rest, left);
    } else {
      var joined, tail := Joined(pieces, Or), Joined(pieces[1..], Or);
      OrMeans(pieces[1..], row, truths[1..], rest, left);
      PrimaryIsAnd(joined.sql + rest, joined.values + left, row, truths[0], [Or] + (tail.sql + rest), tail.values + left);
      OrStep(joined.sql + rest, joined.values + left, row, truths[0], tail.sql + rest, tail.values + left,
             Disjunction(truths[1..]), rest, left);
    }
  }

  lemma PrimaryIsAnd(sql: Sql, values: Values, row: Row, holds: bool, rest: Sql, left: Values)
    requires ReadPrimary(sql, values, row) == Read(holds, rest, left) && (rest == [] || rest[0] != And)
    ensures ReadAnd(sql, values, row) == Read(holds, rest, left)
  {
    hide ReadPrimary;
  }

  lemma ReadWrapped(p: Piece, row: Row, holds: bool, rest: Sql, left: Values)
    requires ReadOr(p.sql + ([Close] + rest), p.values + left, row) == Read(holds, [Close] + rest, left)
    ensures ReadPrimary(Wrapped(p).sql + rest, Wrapped(p).values + left, row) == Read(holds, rest, left)
  {
    hide ReadOr;
    var sql := Wrapped(p).sql + rest;
    assert sql[0] == Open && sql[1..] == p.sql + ([Close] + rest);
    assert ([Close] + rest)[1..] == rest;
  }

  /** A parenthesised disjunction is a primary. */
  lemma WrappedOrMeans(pieces: seq<Piece>, row: Row, truths: seq<bool>)
    requires AllMean(pieces, row, truths) && pieces != []
    ensures PrimaryMeans(Wrapped(Joined(pieces, Or)), row, Disjunction(truths))
  {
    hide AllMean, Disjunction, Joined, Wrapped, ReadPrimary, ReadOr;
    var p := Wrapped(Joined(pieces, Or));
    forall rest: Sql, left: Values
      ensures ReadPrimary(p.sql + rest, p.values + left, row) == Read(Disjunction(truths), rest, left)
    {
      OrMeans(pieces, row, truths, [Close] + rest, left);
      ReadWrapped(Joined(pieces, Or), row, Disjunction(truths), rest, left);
    }
  }

  lemma ReadOrOfAnd(sql: Sql, values: Values, row: Row, holds: bool, rest: Sql, left: Values)
    requires ReadAnd(sql, values, row) == Read(holds, rest, left) && (rest == [] || rest[0] != Or)
    ensures ReadOr(sql, values, row) == Read(holds, rest, left)
  {
    hide ReadAnd;
  }

  /** A parenthesised conjunction is a primary. */
  lemma WrappedAndMeans(pieces: seq<Piece>, row: Row, truths: seq<bool>)
    requires AllMean(pieces, row, truths) && pieces != []
    ensures PrimaryMeans(Wrapped(Joined(pieces, And)), row, Conjunction(truths))
  {
    hide AllMean, Conjunction, Joined, Wrapped, ReadPrimary, ReadAnd, ReadOr;
    var joined := Joined(pieces, And);
    var p := Wrapped(joined);
    forall rest: Sql, left: Values
      ensures ReadPrimary(p.sql + rest, p.values + left, row) == Read(Conjunction(truths), rest, left)
    {
      AndMeans(pieces, row, truths, [Close] + rest, left);
      ReadOrOfAnd(joined.sql + ([Close] + rest), joined.values + left, row, Conjunction(truths), [Close] + rest, left);
      ReadWrapped(joined, row, Conjunction(truths), rest, left);
    }
  }
}
