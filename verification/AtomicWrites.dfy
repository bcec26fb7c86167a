/** Conditional writes: Go models become parameter lists and a generated WHERE
    clause, whose effect is fixed by SQL's three-valued logic. */
module AtomicWrites {
  import opened Options
  import opened SqlCodec

  datatype Field = Field(name: string, column: string, kind: Kind, isID: bool)

  type Row = map<string, Cell>
  type Rows = map<string, Row>

  /** A struct value, by Go field name. */
  type Model = map<string, GoValue>

  // ----- SQL

  datatype Tri = True | False | Unknown

  function And3(a: Tri, b: Tri): Tri {
    if a == False || b == False then False
    else if a == True && b == True then True
    else Unknown
  }

  function Or3(a: Tri, b: Tri): Tri {
    if a == True || b == True then True
    else if a == False && b == False then False
    else Unknown
  }

  function Compare(a: Cell, b: Cell): Tri {
    if a == Null || b == Null then Unknown
    else if a == b then True
    else False
  }

  /** Conditions refer to parameters by their 1-based position. */
  datatype Cond =
    | Equals(column: string, param: nat)
    | IsNull(column: string)
    | And(left: Cond, right: Cond)
    | Or(left: Cond, right: Cond)

  function CellOf(row: Row, column: string): Cell {
    if column in row then row[column] else Null
  }

  function Param(args: seq<Cell>, p: nat): Cell {
    if 1 <= p <= |args| then args[p - 1] else Null
  }

  function Eval(cond: Cond, row: Row, args: seq<Cell>): Tri {
    match cond
    case Equals(column, p) => Compare(CellOf(row, column), Param(args, p))
    case IsNull(column) => if CellOf(row, column) == Null then True else False
    case And(l, r) => And3(Eval(l, row, args), Eval(r, row, args))
    case Or(l, r) => Or3(Eval(l, row, args), Eval(r, row, args))
  }

  /** One item of a SET list: a parameter, or the column itself for key-only models. */
  datatype Assignment = Assign(column: string, param: nat) | Keep(column: string)

  function ApplySets(row: Row, sets: seq<Assignment>, args: seq<Cell>): Row {
    if sets == [] then row
    else
      var before, last := ApplySets(row, sets[..|sets| - 1], args), sets[|sets| - 1];
      if last.Assign? then before[last.column := Param(args, last.param)] else before
  }

  function Selected(rows: Rows, cond: Cond, args: seq<Cell>): set<string> {
    set id | id in rows && Eval(cond, rows[id], args) == True
  }

  function UpdateRows(rows: Rows, sets: seq<Assignment>, cond: Cond, args: seq<Cell>): Rows {
    map id | id in rows :: if id in Selected(rows, cond, args) then ApplySets(rows[id], sets, args) else rows[id]
  }

  // ----- Tables

  /** One string key; names and columns are distinct. */
  ghost predicate ValidFields(fields: seq<Field>) {
    && DistinctColumns(fields)
    && (forall i, j :: 0 <= i < j < |fields| ==> fields[i].name != fields[j].name)
    && (exists k :: 0 <= k < |fields| && fields[k].isID)
    && (forall i, j :: 0 <= i < j < |fields| ==> !(fields[i].isID && fields[j].isID))
    && (forall i :: 0 <= i < |fields| ==> FieldKind(fields[i].kind) && (fields[i].isID ==> fields[i].kind == KString))
  }

  ghost predicate TypedModel(fields: seq<Field>, m: Model) {
    forall i :: 0 <= i < |fields| ==> fields[i].name in m && Typed(fields[i].kind, m[fields[i].name])
  }

  function IDColumn(fields: seq<Field>): string {
    if fields == [] then "id"
    else if fields[0].isID then fields[0].column
    else IDColumn(fields[1..])
  }

  lemma {:induction false} IDColumnIs(fields: seq<Field>, k: nat)
    requires k < |fields| && fields[k].isID
    requires forall i, j :: 0 <= i < j < |fields| ==> !(fields[i].isID && fields[j].isID)
    ensures IDColumn(fields) == fields[k].column
  {
    if k > 0 {
      IDColumnIs(fields[1..], k - 1);
    }
  }

  ghost predicate ValidRow(fields: seq<Field>, id: string, row: Row) {
    && CellOf(row, IDColumn(fields)) == Text(id)
    && forall i :: 0 <= i < |fields| ==> fields[i].column in row
  }

  /** Rows are stored under their key, and hold a cell for every column. */
  ghost predicate ValidRows(fields: seq<Field>, rows: Rows) {
    forall id :: id in rows ==> ValidRow(fields, id, rows[id])
  }

  function FieldOf(fields: seq<Field>, column: string): Option<Field> {
    if fields == [] then None
    else if fields[0].column == column then Some(fields[0])
    else FieldOf(fields[1..], column)
  }

  lemma {:induction false} FieldOfIs(fields: seq<Field>, k: nat)
    requires k < |fields|
    requires forall i, j :: 0 <= i < j < |fields| ==> fields[i].column != fields[j].column
    ensures FieldOf(fields, fields[k].column) == Some(fields[k])
  {
    if k > 0 {
      FieldOfIs(fields[1..], k - 1);
    }
  }

  // ----- Statement builders

  /** The SET list of the non-key columns, parameters numbered from 1. */
  function SetsOf(fields: seq<Field>): seq<Assignment> {
    if fields == [] then []
    else
      var rest, f := SetsOf(fields[..|fields| - 1]), fields[|fields| - 1];
      if f.isID then rest else rest + [Assign(f.column, |rest| + 1)]
  }

  ghost function ArgsOf(c: Codec, fields: seq<Field>, m: Model): (args: seq<Cell>)
    requires TypedModel(fields, m)
    ensures |args| == |SetsOf(fields)|
  {
    if fields == [] then []
    else
      var rest, f := ArgsOf(c, fields[..|fields| - 1], m), fields[|fields| - 1];
      if f.isID then rest else rest + [Encode(c, m[f.name])]
  }

  ghost predicate DistinctColumns(fields: seq<Field>) {
    forall i, j :: 0 <= i < j < |fields| ==> fields[i].column != fields[j].column
  }

  /** A non-key column takes its own parameter's value, whatever follows in the
      argument list. */
  lemma {:induction false} ApplySetsHit(c: Codec, fields: seq<Field>, m: Model, row: Row, more: seq<Cell>, i: nat)
    requires TypedModel(fields, m) && DistinctColumns(fields)
    requires i < |fields| && !fields[i].isID
    ensures var after := ApplySets(row, SetsOf(fields), ArgsOf(c, fields, m) + more);
            fields[i].column in after && after[fields[i].column] == Encode(c, m[fields[i].name])
  {
    var n := |fields| - 1;
    var f, init := fields[n], fields[..n];
    if f.isID {
      ApplySetsHit(c, init, m, row, more, i);
    } else {
      var v := Encode(c, m[f.name]);
      assert ArgsOf(c, fields, m) + more == ArgsOf(c, init, m) + ([v] + more);
      assert SetsOf(fields)[..|SetsOf(fields)| - 1] == SetsOf(init);
      if i < n {
        ApplySetsHit(c, init, m, row, [v] + more, i);
      }
    }
  }

  ghost predicate NoSuchColumn(fields: seq<Field>, col: string) {
    forall i :: 0 <= i < |fields| ==> fields[i].column != col
  }

  /** Columns without an assignment keep their cells. */
  lemma {:induction false} ApplySetsMiss(c: Codec, fields: seq<Field>, m: Model, row: Row, more: seq<Cell>, col: string)
    requires TypedModel(fields, m)
    requires forall i :: 0 <= i < |fields| && !fields[i].isID ==> fields[i].column != col
    ensures var after := ApplySets(row, SetsOf(fields), ArgsOf(c, fields, m) + more);
            (col in after <==> col in row) && CellOf(after, col) == CellOf(row, col)
  {
    if fields != [] {
      var n := |fields| - 1;
      var f, init := fields[n], fields[..n];
      if f.isID {
        ApplySetsMiss(c, init, m, row, more, col);
      } else {
        var v := Encode(c, m[f.name]);
        assert ArgsOf(c, fields, m) + more == ArgsOf(c, init, m) + ([v] + more);
        assert SetsOf(fields)[..|SetsOf(fields)| - 1] == SetsOf(init);
        ApplySetsMiss(c, init, m, row, [v] + more, col);
      }
    }
  }

  /** Highest parameter position a condition uses. */
  function MaxParam(cond: Cond): nat {
    match cond
    case Equals(_, p) => p
    case IsNull(_) => 0
    case And(l, r) => if MaxParam(l) < MaxParam(r) then MaxParam(r) else MaxParam(l)
    case Or(l, r) => if MaxParam(l) < MaxParam(r) then MaxParam(r) else MaxParam(l)
  }

  lemma {:induction false} EvalMoreArgs(cond: Cond, row: Row, args: seq<Cell>, more: seq<Cell>)
    requires MaxParam(cond) <= |args|
    ensures Eval(cond, row, args + more) == Eval(cond, row, args)
  {
    match cond
    case Equals(_, _) =>
    case IsNull(_) =>
    case And(l, r) =>
      EvalMoreArgs(l, row, args, more);
      EvalMoreArgs(r, row, args, more);
    case Or(l, r) =>
      EvalMoreArgs(l, row, args, more);
      EvalMoreArgs(r, row, args, more);
  }

  ghost predicate ColumnsHold(c: Codec, fields: seq<Field>, expected: map<string, Expected>, cols: set<string>, row: Row) {
    forall col :: col in cols ==>
      && col in expected && FieldOf(fields, col).Some?
      && ColumnHolds(c, FieldOf(fields, col).value.kind, expected[col], CellOf(row, col))
  }

  /** The test generated for one expected column; `p` is its parameter's position. */
  function TestFor(c: Codec, f: Field, e: Expected, p: nat): Cond {
    if Encode(c, e.v) == Null then IsNull(f.column)
    else if e.Plain? && IsZero(c, e.v) && !f.kind.KPtr? then Or(Equals(f.column, p), IsNull(f.column))
    else Equals(f.column, p)
  }

  lemma TestMeans(c: Codec, f: Field, e: Expected, args: seq<Cell>, row: Row)
    requires args != [] || Encode(c, e.v) == Null
    requires Encode(c, e.v) != Null ==> args[|args| - 1] == Encode(c, e.v)
    ensures Eval(TestFor(c, f, e, |args|), row, args) == True <==> ColumnHolds(c, f.kind, e, CellOf(row, f.column))
    ensures MaxParam(TestFor(c, f, e, |args|)) <= |args|
  {
    var eq := Equals(f.column, |args|);
    assert Encode(c, e.v) != Null ==> Param(args, |args|) == Encode(c, e.v);
    assert Eval(eq, row, args) == Compare(CellOf(row, f.column), Param(args, |args|));
  }

  // ----- What the writes mean

  /** `after` holds the model in its columns and `before` elsewhere. */
  ghost predicate WrittenAs(c: Codec, fields: seq<Field>, m: Model, before: Row, after: Row)
    requires TypedModel(fields, m)
  {
    && (forall i :: 0 <= i < |fields| ==> fields[i].column in after && after[fields[i].column] == Encode(c, m[fields[i].name]))
    && (forall col :: NoSuchColumn(fields, col) ==>
          (col in after <==> col in before) && CellOf(after, col) == CellOf(before, col))
  }

  /** The row of a model alone. */
  function RowFrom(c: Codec, fields: seq<Field>, m: Model): Row {
    if fields == [] then map[]
    else
      var f := fields[|fields| - 1];
      RowFrom(c, fields[..|fields| - 1], m)[f.column := if f.name in m then Encode(c, m[f.name]) else Null]
  }

  lemma {:induction false} RowFromHit(c: Codec, fields: seq<Field>, m: Model, i: nat)
    requires TypedModel(fields, m) && DistinctColumns(fields) && i < |fields|
    ensures fields[i].column in RowFrom(c, fields, m)
    ensures RowFrom(c, fields, m)[fields[i].column] == Encode(c, m[fields[i].name])
  {
    if i < |fields| - 1 {
      RowFromHit(c, fields[..|fields| - 1], m, i);
    }
  }

  lemma {:induction false} RowFromMiss(c: Codec, fields: seq<Field>, m: Model, col: string)
    requires NoSuchColumn(fields, col)
    ensures col !in RowFrom(c, fields, m)
  {
    if fields != [] {
      RowFromMiss(c, fields[..|fields| - 1], m, col);
    }
  }

  lemma RowFromIs(c: Codec, fields: seq<Field>, m: Model)
    requires TypedModel(fields, m) && DistinctColumns(fields)
    ensures WrittenAs(c, fields, m, map[], RowFrom(c, fields, m))
  {
    forall i | 0 <= i < |fields|
      ensures fields[i].column in RowFrom(c, fields, m)
           && RowFrom(c, fields, m)[fields[i].column] == Encode(c, m[fields[i].name])
    {
      RowFromHit(c, fields, m, i);
    }
    forall col | NoSuchColumn(fields, col) ensures col !in RowFrom(c, fields, m) {
      RowFromMiss(c, fields, m, col);
    }
  }

  ghost function IDName(fields: seq<Field>): string
    requires ValidFields(fields)
  {
    var k :| 0 <= k < |fields| && fields[k].isID;
    fields[k].name
  }

  /** The key a model names. */
  ghost function KeyOf(fields: seq<Field>, m: Model): string
    requires ValidFields(fields) && TypedModel(fields, m)
  {
    m[IDName(fields)].s
  }

  /** The whole effect of a conditional update whose columns are all known: the
      row is replaced exactly if it exists and every condition holds of it. */
  ghost predicate UpdateEffect(c: Codec, fields: seq<Field>, rows: Rows, m: Model, expected: map<string, Expected>,
                               rows': Rows, wrote: bool)
    requires ValidFields(fields) && TypedModel(fields, m)
  {
    var id := KeyOf(fields, m);
    && (wrote <==> id in rows && ColumnsHold(c, fields, expected, expected.Keys, rows[id]))
    && rows'.Keys == rows.Keys
    && (forall k :: k in rows && !(wrote && k == id) ==> rows'[k] == rows[k])
    && (wrote ==> WrittenAs(c, fields, m, rows[id], rows'[id]))
  }
}
