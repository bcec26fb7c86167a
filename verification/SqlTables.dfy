/** Tables updated by the generated statements, and their user-scoped view. */
module SqlTables {
  import opened SqlCodec
  import opened AtomicWrites
  import opened Options

  datatype WriteResult = Wrote(did: bool) | UnknownColumn(column: string) | NotScopable

  datatype ReadResult = Found(model: Model) | NoRows | ScanError

  lemma KeyColumn(fields: seq<Field>, m: Model) returns (k: nat)
    requires ValidFields(fields) && TypedModel(fields, m)
    ensures k < |fields| && fields[k].isID && IDColumn(fields) == fields[k].column
    ensures forall i :: 0 <= i < |fields| && fields[i].isID ==> i == k
    ensures forall c :: Encode(c, m[fields[k].name]) == Text(KeyOf(fields, m))
  {
    k :| 0 <= k < |fields| && fields[k].isID;
    IDColumnIs(fields, k);
    var j :| 0 <= j < |fields| && fields[j].isID && fields[j].name == IDName(fields);
    assert j == k;
  }

  /** The statement's condition selects the row named by the key, if its columns hold. */
  ghost predicate Chooses(c: Codec, fields: seq<Field>, expected: map<string, Expected>, cols: set<string>,
                          id: string, cond: Cond, args: seq<Cell>)
  {
    && MaxParam(cond) <= |args|
    && forall row :: Eval(cond, row, args) == True
         <==> CellOf(row, IDColumn(fields)) == Text(id) && ColumnsHold(c, fields, expected, cols, row)
  }

  lemma ChooseKey(c: Codec, fields: seq<Field>, expected: map<string, Expected>, id: string, args: seq<Cell>)
    requires args != [] && args[|args| - 1] == Text(id)
    ensures Chooses(c, fields, expected, {}, id, Equals(IDColumn(fields), |args|), args)
  {
    assert Param(args, |args|) == Text(id);
  }

  lemma ChooseColumn(c: Codec, fields: seq<Field>, expected: map<string, Expected>, cols: set<string>,
                     id: string, cond: Cond, args: seq<Cell>, col: string, args': seq<Cell>)
    requires Chooses(c, fields, expected, cols, id, cond, args)
    requires col in expected && FieldOf(fields, col).Some?
    requires args' == if Encode(c, expected[col].v) == Null then args else args + [Encode(c, expected[col].v)]
    ensures Chooses(c, fields, expected, cols + {col}, id,
                    And(cond, TestFor(c, FieldOf(fields, col).value, expected[col], |args'|)), args')
  {
    var f, e := FieldOf(fields, col).value, expected[col];
    FieldOfColumn(fields, col);
    var test := TestFor(c, f, e, |args'|);
    forall row
      ensures Eval(And(cond, test), row, args') == True
         <==> CellOf(row, IDColumn(fields)) == Text(id) && ColumnsHold(c, fields, expected, cols + {col}, row)
    {
      if args' != args {
        EvalMoreArgs(cond, row, args, [Encode(c, e.v)]);
      }
      if Encode(c, e.v) == Null {
        assert TestFor(c, f, e, |args'|) == IsNull(f.column);
      } else {
        TestMeans(c, f, e, args', row);
      }
    }
    if Encode(c, e.v) != Null {
      TestMeans(c, f, e, args', map[]);
    }
  }

  lemma {:induction false} FieldOfColumn(fields: seq<Field>, col: string)
    ensures FieldOf(fields, col).Some? ==> FieldOf(fields, col).value.column == col && FieldOf(fields, col).value in fields
    ensures FieldOf(fields, col).None? ==> NoSuchColumn(fields, col)
  {
    if fields != [] && fields[0].column != col {
      FieldOfColumn(fields[1..], col);
      if FieldOf(fields, col).None? {
        forall i | 0 <= i < |fields| ensures fields[i].column != col {
          if i > 0 {
            assert fields[1..][i - 1].column != col;
          }
        }
      }
    }
  }

  /** Some expected name is not a column of the model. */
  ghost predicate NamesUnknown(fields: seq<Field>, expected: map<string, Expected>) {
    exists col :: col in expected && FieldOf(fields, col).None?
  }

  /** No conflicting row, or its guard column equals the new row's. */
  ghost predicate GuardHolds(c: Codec, fields: seq<Field>, rows: Rows, m: Model, guard: Option<string>)
    requires ValidFields(fields) && TypedModel(fields, m)
  {
    KeyOf(fields, m) in rows && guard.Some? ==>
      Compare(CellOf(rows[KeyOf(fields, m)], guard.value), CellOf(RowFrom(c, fields, m), guard.value)) == True
  }

  ghost predicate UpsertEffect(c: Codec, fields: seq<Field>, rows: Rows, m: Model, rows': Rows, wrote: bool)
    requires ValidFields(fields) && TypedModel(fields, m)
  {
    var id := KeyOf(fields, m);
    && (forall k :: k in rows' <==> k in rows || (wrote && k == id))
    && (forall k :: k in rows && !(wrote && k == id) ==> rows'[k] == rows[k])
    && (wrote ==> WrittenAs(c, fields, m, if id in rows then rows[id] else map[], rows'[id]))
  }

  class SqlTable {
    const codec: Codec
    const fields: seq<Field>
    var rows: Rows

    ghost predicate Valid()
      reads this
    {
      ValidFields(fields) && ValidRows(fields, rows)
    }

    constructor (codec: Codec, fields: seq<Field>)
      requires ValidFields(fields)
      ensures Valid() && this.codec == codec && this.fields == fields && rows == map[]
    {
      this.codec := codec;
      this.fields := fields;
      rows := map[];
    }

    method PrepareInsert(m: Model) returns (columns: seq<string>, values: seq<Cell>)
      requires TypedModel(fields, m)
      ensures |columns| == |values| == |fields|
      ensures forall i :: 0 <= i < |fields| ==> columns[i] == fields[i].column && values[i] == Encode(codec, m[fields[i].name])
    {
      columns, values := [], [];
      for i := 0 to |fields|
        invariant |columns| == |values| == i
        invariant forall k :: 0 <= k < i ==> columns[k] == fields[k].column && values[k] == Encode(codec, m[fields[k].name])
      {
        columns := columns + [fields[i].column];
        values := values + [Encode(codec, m[fields[i].name])];
      }
    }

    /** Adds one conjunct per expected column to `cond`; columns in any order. */
    method ExpectedConditions(expected: map<string, Expected>, cond: Cond, args: seq<Cell>, ghost id: string)
      returns (unknown: Option<string>, whole: Cond, allArgs: seq<Cell>)
      requires Chooses(codec, fields, expected, {}, id, cond, args)
      ensures unknown.Some? ==> unknown.value in expected && FieldOf(fields, unknown.value).None?
      ensures unknown.None? ==> !NamesUnknown(fields, expected)
      ensures unknown.None? ==> Chooses(codec, fields, expected, expected.Keys, id, whole, allArgs)
      ensures unknown.None? ==> args <= allArgs
    {
      hide Chooses;
      whole, allArgs := cond, args;
      ghost var done: set<string> := {};
      var todo := set col | col in expected;
      while todo != {}
        invariant args <= allArgs
        invariant forall col :: col in expected <==> col in todo || col in done
        invariant Chooses(codec, fields, expected, done, id, whole, allArgs)
        invariant forall col :: col in done ==> FieldOf(fields, col).Some?
        decreases |todo|
      {
        var col :| col in todo;
        var f := FieldOf(fields, col);
        if f.None? {
          return Some(col), whole, allArgs;
        }
        var e := expected[col];
        var encoded := Encode(codec, e.v);
        ghost var before := allArgs;
        if encoded != Null {
          allArgs := allArgs + [encoded];
        }
        ChooseColumn(codec, fields, expected, done, id, whole, before, col, allArgs);
        whole := And(whole, TestFor(codec, f.value, e, |allArgs|));
        todo, done := todo - {col}, done + {col};
      }
      assert done == expected.Keys;
      unknown := None;
    }

    method UpdateIf(m: Model, expected: map<string, Expected>) returns (r: WriteResult)
      requires Valid() && TypedModel(fields, m)
      modifies this
      ensures Valid()
      ensures r.UnknownColumn? <==> NamesUnknown(fields, expected)
      ensures r.UnknownColumn? ==> r.column in expected && FieldOf(fields, r.column).None? && rows == old(rows)
      ensures !r.UnknownColumn? ==> r.Wrote? && UpdateEffect(codec, fields, old(rows), m, expected, rows, r.did)
    {
      var columns, values := PrepareInsert(m);
      var sets: seq<Assignment> := [];
      var args: seq<Cell> := [];
      var id: Cell := Null;
      for i := 0 to |columns|
        invariant sets == SetsOf(fields[..i]) && args == ArgsOf(codec, fields[..i], m)
        invariant forall k :: 0 <= k < i && fields[k].isID ==> id == values[k]
      {
        assert fields[..i + 1][..i] == fields[..i];
        if fields[i].isID {
          id := values[i];
          continue;
        }
        args := args + [values[i]];
        sets := sets + [Assign(columns[i], |args|)];
      }
      assert fields[..|fields|] == fields;
      ghost var key := KeyOf(fields, m);
      ghost var k := KeyColumn(fields, m);
      assert id == Text(key);
      ghost var setArgs := args;
      if sets == [] {
        sets := [Keep(IDColumn(fields))];
      }
      args := args + [id];
      ChooseKey(codec, fields, expected, key, args);
      var unknown, cond, all := ExpectedConditions(expected, Equals(IDColumn(fields), |args|), args, key);
      if unknown.Some? {
        return UnknownColumn(unknown.value);
      }
      var hit := Selected(rows, cond, all);
      UpdateSelects(codec, fields, rows, m, expected, cond, all, sets);
      rows := UpdateRows(rows, sets, cond, all);
      r := Wrote(|hit| > 0);
    }

    method DeleteIf(id: string, expected: map<string, Expected>) returns (r: WriteResult)
      requires Valid()
      modifies this
      ensures Valid()
      ensures r.UnknownColumn? <==> NamesUnknown(fields, expected)
      ensures r.UnknownColumn? ==> r.column in expected && FieldOf(fields, r.column).None? && rows == old(rows)
      ensures !r.UnknownColumn? ==>
        && r.Wrote?
        && (r.did <==> id in old(rows) && ColumnsHold(codec, fields, expected, expected.Keys, old(rows)[id]))
        && rows == if r.did then old(rows) - {id} else old(rows)
    {
      ChooseKey(codec, fields, expected, id, [Text(id)]);
      var unknown, cond, args := ExpectedConditions(expected, Equals(IDColumn(fields), 1), [Text(id)], id);
      if unknown.Some? {
        return UnknownColumn(unknown.value);
      }
      var hit := Selected(rows, cond, args);
      SelectsAtMostKey(codec, fields, rows, expected, id, cond, args);
      rows := rows - hit;
      r := Wrote(|hit| > 0);
    }

    method InsertIfAbsent(m: Model) returns (r: WriteResult)
      requires Valid() && TypedModel(fields, m)
      modifies this
      ensures Valid()
      ensures r == Wrote(KeyOf(fields, m) !in old(rows))
      ensures rows == if r.did then old(rows)[KeyOf(fields, m) := RowFrom(codec, fields, m)] else old(rows)
    {
      ghost var k := KeyColumn(fields, m);
      RowFromIs(codec, fields, m);
      var key := CellOf(RowFrom(codec, fields, m), IDColumn(fields)).s;
      if key in rows {
        return Wrote(false);
      }
      rows := rows[key := RowFrom(codec, fields, m)];
      r := Wrote(true);
    }

    /** Inserts, or overwrites the conflicting row while the guard column, if
        any, is equal in both. */
    method Upsert(m: Model, guard: Option<string>) returns (r: WriteResult)
      requires Valid() && TypedModel(fields, m)
      modifies this
      ensures Valid()
      ensures r == Wrote(GuardHolds(codec, fields, old(rows), m, guard))
      ensures UpsertEffect(codec, fields, old(rows), m, rows, r.did)
    {
      hide ValidRow, WrittenAs, KeyOf, UpsertEffect, RowFrom;
      NewRowIs(codec, fields, m);
      var excluded := RowFrom(codec, fields, m);
      var key := CellOf(excluded, IDColumn(fields)).s;
      if key !in rows {
        UpsertPut(codec, fields, rows, m, excluded);
        rows := rows[key := excluded];
        return Wrote(true);
      }
      if guard.Some? && Compare(CellOf(rows[key], guard.value), CellOf(excluded, guard.value)) != True {
        UpsertSkip(codec, fields, rows, m);
        return Wrote(false);
      }
      OverlayIs(codec, fields, m, rows[key]);
      UpsertPut(codec, fields, rows, m, rows[key] + excluded);
      rows := rows[key := rows[key] + excluded];
      r := Wrote(true);
    }

    /** Scans the row field by field. */
    method Get(id: string) returns (r: ReadResult)
      requires Valid()
      ensures r.NoRows? <==> id !in rows
      ensures id in rows ==>
        (r.Found? <==> forall i :: 0 <= i < |fields| ==> Decode(codec, fields[i].kind, CellOf(rows[id], fields[i].column)).Some?)
      ensures r.Found? ==> forall i :: 0 <= i < |fields| ==>
        && fields[i].name in r.model
        && Decode(codec, fields[i].kind, CellOf(rows[id], fields[i].column)) == Some(r.model[fields[i].name])
    {
      if id !in rows {
        return NoRows;
      }
      var m: Model := map[];
      for i := 0 to |fields|
        invariant forall k :: 0 <= k < i ==>
          && fields[k].name in m
          && Decode(codec, fields[k].kind, CellOf(rows[id], fields[k].column)) == Some(m[fields[k].name])
      {
        var v := Decode(codec, fields[i].kind, CellOf(rows[id], fields[i].column));
        if v.None? {
          return ScanError;
        }
        m := m[fields[i].name := v.value];
      }
      r := Found(m);
    }
  }

  lemma SelectsAtMostKey(c: Codec, fields: seq<Field>, rows: Rows, expected: map<string, Expected>,
                         id: string, cond: Cond, args: seq<Cell>)
    requires ValidRows(fields, rows) && Chooses(c, fields, expected, expected.Keys, id, cond, args)
    ensures Selected(rows, cond, args)
         == if id in rows && ColumnsHold(c, fields, expected, expected.Keys, rows[id]) then {id} else {}
  {
    forall k | k in rows
      ensures k in Selected(rows, cond, args) <==> k == id && ColumnsHold(c, fields, expected, expected.Keys, rows[k])
    {
      assert CellOf(rows[k], IDColumn(fields)) == Text(k);
    }
  }

  lemma UpdateSelects(c: Codec, fields: seq<Field>, rows: Rows, m: Model, expected: map<string, Expected>,
                      cond: Cond, all: seq<Cell>, sets: seq<Assignment>)
    requires ValidFields(fields) && ValidRows(fields, rows) && TypedModel(fields, m)
    requires Chooses(c, fields, expected, expected.Keys, KeyOf(fields, m), cond, all)
    requires ArgsOf(c, fields, m) + [Text(KeyOf(fields, m))] <= all
    requires sets == if SetsOf(fields) == [] then [Keep(IDColumn(fields))] else SetsOf(fields)
    ensures UpdateEffect(c, fields, rows, m, expected, UpdateRows(rows, sets, cond, all), |Selected(rows, cond, all)| > 0)
    ensures ValidRows(fields, UpdateRows(rows, sets, cond, all))
  {
    hide Chooses, ColumnsHold, SetsOf, ArgsOf, WrittenAs, ApplySets, KeyOf, ValidRow, UpdateRows, Selected, ValidFields;
    var id := KeyOf(fields, m);
    SelectsAtMostKey(c, fields, rows, expected, id, cond, all);
    UpdateOne(rows, sets, cond, all, id);
    if id in rows && ColumnsHold(c, fields, expected, expected.Keys, rows[id]) {
      UpdatedRow(c, fields, m, rows[id], all, sets);
      WrittenIsValid(c, fields, m, id, rows[id], ApplySets(rows[id], sets, all));
    }
  }

  lemma UpdateOne(rows: Rows, sets: seq<Assignment>, cond: Cond, args: seq<Cell>, id: string)
    ensures Selected(rows, cond, args) == {} ==> UpdateRows(rows, sets, cond, args) == rows
    ensures Selected(rows, cond, args) == {id} ==>
      id in rows && UpdateRows(rows, sets, cond, args) == rows[id := ApplySets(rows[id], sets, args)]
  {
    if Selected(rows, cond, args) == {id} {
      assert id in Selected(rows, cond, args);
    }
  }

  lemma WrittenIsValid(c: Codec, fields: seq<Field>, m: Model, id: string, before: Row, after: Row)
    requires ValidFields(fields) && TypedModel(fields, m) && KeyOf(fields, m) == id
    requires WrittenAs(c, fields, m, before, after)
    ensures ValidRow(fields, id, after)
  {
    var k := KeyColumn(fields, m);
  }

  lemma UpdatedRow(c: Codec, fields: seq<Field>, m: Model, row: Row, all: seq<Cell>, sets: seq<Assignment>)
    requires ValidFields(fields) && TypedModel(fields, m)
    requires ValidRow(fields, KeyOf(fields, m), row)
    requires ArgsOf(c, fields, m) <= all
    requires sets == if SetsOf(fields) == [] then [Keep(IDColumn(fields))] else SetsOf(fields)
    ensures WrittenAs(c, fields, m, row, ApplySets(row, sets, all))
  {
    var more := all[|ArgsOf(c, fields, m)|..];
    assert all == ArgsOf(c, fields, m) + more;
    var after := ApplySets(row, SetsOf(fields), all);
    assert ApplySets(row, sets, all) == after;
    var k := KeyColumn(fields, m);
    forall i | 0 <= i < |fields|
      ensures fields[i].column in after && after[fields[i].column] == Encode(c, m[fields[i].name])
    {
      if fields[i].isID {
        ApplySetsMiss(c, fields, m, row, more, fields[i].column);
      } else {
        ApplySetsHit(c, fields, m, row, more, i);
      }
    }
    forall col | NoSuchColumn(fields, col)
      ensures (col in after <==> col in row) && CellOf(after, col) == CellOf(row, col)
    {
      ApplySetsMiss(c, fields, m, row, more, col);
    }
  }

  lemma NewRowIs(c: Codec, fields: seq<Field>, m: Model)
    requires ValidFields(fields) && TypedModel(fields, m)
    ensures WrittenAs(c, fields, m, map[], RowFrom(c, fields, m))
    ensures CellOf(RowFrom(c, fields, m), IDColumn(fields)) == Text(KeyOf(fields, m))
  {
    RowFromIs(c, fields, m);
    var k := KeyColumn(fields, m);
  }

  lemma UpsertPut(c: Codec, fields: seq<Field>, rows: Rows, m: Model, row: Row)
    requires ValidFields(fields) && TypedModel(fields, m) && ValidRows(fields, rows)
    requires var id := KeyOf(fields, m);
             WrittenAs(c, fields, m, if id in rows then rows[id] else map[], row)
    ensures UpsertEffect(c, fields, rows, m, rows[KeyOf(fields, m) := row], true)
    ensures ValidRows(fields, rows[KeyOf(fields, m) := row])
  {
    hide WrittenAs, ValidRow, KeyOf;
    var id := KeyOf(fields, m);
    WrittenIsValid(c, fields, m, id, if id in rows then rows[id] else map[], row);
  }

  lemma UpsertSkip(c: Codec, fields: seq<Field>, rows: Rows, m: Model)
    requires ValidFields(fields) && TypedModel(fields, m)
    ensures UpsertEffect(c, fields, rows, m, rows, false)
  {
  }

  lemma OverlayIs(c: Codec, fields: seq<Field>, m: Model, row: Row)
    requires TypedModel(fields, m) && DistinctColumns(fields)
    ensures WrittenAs(c, fields, m, row, row + RowFrom(c, fields, m))
  {
    RowFromIs(c, fields, m);
  }
}
