/** Conditional updates as compare-and-swap on what Get returns, and the
    user-scoped writes. */
module TenantScope {
  import opened SqlCodec
  import opened AtomicWrites
  import opened SqlTables
  import opened Options

  // ----- Compare and swap on what Get returns

  /** Every cell is NULL or was written by the codec for its field. */
  ghost predicate WrittenRow(c: Codec, fields: seq<Field>, row: Row) {
    forall i :: 0 <= i < |fields| ==> WrittenCell(c, fields[i].kind, CellOf(row, fields[i].column))
  }

  ghost predicate WrittenRows(c: Codec, fields: seq<Field>, rows: Rows) {
    forall id :: id in rows ==> WrittenRow(c, fields, rows[id])
  }

  ghost predicate StorableModel(c: Codec, fields: seq<Field>, m: Model)
    requires TypedModel(fields, m)
  {
    forall i :: 0 <= i < |fields| ==> Storable(c, m[fields[i].name])
  }

  /** Expected values that a read of their column can return. */
  ghost predicate ExpectsReads(c: Codec, fields: seq<Field>, expected: map<string, Expected>) {
    forall col :: col in expected ==>
      && expected[col].Plain? && FieldOf(fields, col).Some?
      && Expectable(c, FieldOf(fields, col).value.kind, expected[col].v)
  }

  /** Get of the row shows the expected value in every named column. */
  ghost predicate GetShows(c: Codec, fields: seq<Field>, expected: map<string, Expected>, row: Row) {
    forall col :: col in expected && FieldOf(fields, col).Some? ==>
      ReadsAs(c, FieldOf(fields, col).value.kind, expected[col].v, CellOf(row, col))
  }

  /** The generated condition is true of a row exactly when Get would return the
      expected value in every named column. */
  lemma ConditionsMeanGet(c: Codec, fields: seq<Field>, expected: map<string, Expected>, row: Row)
    requires Lawful(c) && ValidFields(fields)
    requires WrittenRow(c, fields, row) && ExpectsReads(c, fields, expected)
    ensures ColumnsHold(c, fields, expected, expected.Keys, row) <==> GetShows(c, fields, expected, row)
  {
    hide Lawful, ColumnHolds, ReadsAs, Expectable, WrittenCell;
    forall col | col in expected
      ensures var k := FieldOf(fields, col).value.kind;
              ColumnHolds(c, k, expected[col], CellOf(row, col)) <==> ReadsAs(c, k, expected[col].v, CellOf(row, col))
    {
      FieldOfColumn(fields, col);
      var f := FieldOf(fields, col).value;
      var i :| 0 <= i < |fields| && fields[i] == f;
      ConditionMeansRead(c, f.kind, expected[col].v, CellOf(row, col));
    }
  }

  /** A conditional update writes exactly when the row exists and Get would
      return what was expected; the new row then reads as the model. */
  lemma UpdateIfIsCompareAndSwap(c: Codec, fields: seq<Field>, rows: Rows, m: Model, expected: map<string, Expected>,
                                 rows': Rows, wrote: bool)
    requires Lawful(c) && ValidFields(fields) && TypedModel(fields, m)
    requires WrittenRows(c, fields, rows) && ExpectsReads(c, fields, expected)
    requires UpdateEffect(c, fields, rows, m, expected, rows', wrote)
    ensures wrote <==> KeyOf(fields, m) in rows && GetShows(c, fields, expected, rows[KeyOf(fields, m)])
    ensures StorableModel(c, fields, m) ==> WrittenRows(c, fields, rows')
    ensures wrote && StorableModel(c, fields, m) ==>
      forall i :: 0 <= i < |fields| ==> ReadsBack(c, fields[i].kind, m[fields[i].name],
                                                  CellOf(rows'[KeyOf(fields, m)], fields[i].column))
  {
    hide Lawful, ColumnsHold, GetShows, ExpectsReads, WrittenCell, Storable, KeyOf;
    var id := KeyOf(fields, m);
    if id in rows {
      ConditionsMeanGet(c, fields, expected, rows[id]);
    }
    if wrote && StorableModel(c, fields, m) {
      WrittenReadsBack(c, fields, m, rows[id], rows'[id]);
    }
  }

  lemma WrittenReadsBack(c: Codec, fields: seq<Field>, m: Model, before: Row, after: Row)
    requires Lawful(c) && ValidFields(fields) && TypedModel(fields, m) && StorableModel(c, fields, m)
    requires WrittenAs(c, fields, m, before, after)
    ensures WrittenRow(c, fields, after)
    ensures forall i :: 0 <= i < |fields| ==> ReadsBack(c, fields[i].kind, m[fields[i].name], CellOf(after, fields[i].column))
  {
    hide Lawful, Typed, Storable, ReadsBack;
    forall i | 0 <= i < |fields|
      ensures WrittenCell(c, fields[i].kind, CellOf(after, fields[i].column))
      ensures ReadsBack(c, fields[i].kind, m[fields[i].name], CellOf(after, fields[i].column))
    {
      Reencode(c, fields[i].kind, m[fields[i].name]);
    }
  }

  // ----- User scope

  const USER_FIELD := "UserID"
  const USER_COLUMN := "user_id"

  /** The UserID field, where there is one, is stored in user_id and is not the key. */
  ghost predicate ScopeColumn(fields: seq<Field>) {
    forall i :: 0 <= i < |fields| ==>
      && (fields[i].name == USER_FIELD <==> fields[i].column == USER_COLUMN)
      && (fields[i].name == USER_FIELD ==> !fields[i].isID)
  }

  /** Rows scoped reads return to the user. */
  predicate Visible(rows: Rows, user: string, id: string) {
    id in rows && Compare(CellOf(rows[id], USER_COLUMN), Text(user)) == True
  }

  /** Rows of other users, and unowned rows, are as before; whatever was written is the user's. */
  ghost predicate TenantFrame(user: string, rows: Rows, rows': Rows) {
    && (forall id :: id in rows && !Visible(rows, user, id) ==> id in rows' && rows'[id] == rows[id])
    && (forall id :: id in rows' && (id !in rows || rows'[id] != rows[id]) ==> Visible(rows', user, id))
  }

  predicate HasUserField(fields: seq<Field>) {
    exists i :: 0 <= i < |fields| && fields[i].name == USER_FIELD && fields[i].kind == KString
  }

  function Owned(m: Model, user: string): Model {
    m[USER_FIELD := Str(user)]
  }

  /** The value written for a field: the caller's, except for the owner. */
  function OwnedValue(f: Field, m: Model, user: string): GoValue
    requires f.name in m
  {
    if f.name == "UserID" then Str(user) else m[f.name]
  }

  /** The row holds what the caller's model says, under the scope's user. */
  ghost predicate HoldsModel(c: Codec, fields: seq<Field>, m: Model, user: string, row: Row)
    requires TypedModel(fields, m)
  {
    && (forall i :: 0 <= i < |fields| && fields[i].name != "UserID" ==>
          fields[i].column in row && row[fields[i].column] == Encode(c, m[fields[i].name]))
    && (forall i :: 0 <= i < |fields| && fields[i].name == "UserID" ==>
          fields[i].column in row && row[fields[i].column] == Text(user))
  }

  /** Columns that belong to no field are as before. */
  ghost predicate OtherColumnsKept(fields: seq<Field>, before: Row, after: Row) {
    forall col :: NoSuchColumn(fields, col) ==> (col in after <==> col in before) && CellOf(after, col) == CellOf(before, col)
  }

  lemma OwnedHolds(c: Codec, fields: seq<Field>, m: Model, user: string, before: Row, after: Row)
    requires TypedModel(fields, m) && TypedModel(fields, Owned(m, user))
    requires WrittenAs(c, fields, Owned(m, user), before, after)
    ensures HoldsModel(c, fields, m, user, after) && OtherColumnsKept(fields, before, after)
  {
  }

  function ScopedExpected(expected: map<string, Expected>, user: string): map<string, Expected> {
    expected[USER_COLUMN := Exact(Str(user))]
  }

  lemma OwnedTyped(fields: seq<Field>, m: Model, user: string)
    requires ValidFields(fields) && ScopeColumn(fields) && HasUserField(fields) && TypedModel(fields, m)
    ensures TypedModel(fields, Owned(m, user))
    ensures KeyOf(fields, Owned(m, user)) == KeyOf(fields, m)
  {
  }

  lemma OwnedRow(c: Codec, fields: seq<Field>, m: Model, user: string, before: Row, after: Row)
    requires ScopeColumn(fields) && HasUserField(fields) && TypedModel(fields, Owned(m, user))
    requires WrittenAs(c, fields, Owned(m, user), before, after)
    ensures CellOf(after, USER_COLUMN) == Text(user)
  {
    var i :| 0 <= i < |fields| && fields[i].name == USER_FIELD;
    assert after[fields[i].column] == Encode(c, Owned(m, user)[fields[i].name]);
  }

  lemma ScopedHolds(c: Codec, fields: seq<Field>, expected: map<string, Expected>, user: string, row: Row)
    requires ColumnsHold(c, fields, ScopedExpected(expected, user), ScopedExpected(expected, user).Keys, row)
    ensures CellOf(row, USER_COLUMN) == Text(user)
  {
    assert USER_COLUMN in ScopedExpected(expected, user).Keys;
  }

  /** The scope's own column is always known, so only the caller can name an unknown one. */
  lemma ScopedUnknown(fields: seq<Field>, expected: map<string, Expected>, user: string)
    requires ScopeColumn(fields) && HasUserField(fields)
    ensures NamesUnknown(fields, ScopedExpected(expected, user)) <==> NamesUnknown(fields, expected)
    ensures FieldOf(fields, USER_COLUMN).Some?
  {
    FieldOfColumn(fields, USER_COLUMN);
    var i :| 0 <= i < |fields| && fields[i].name == USER_FIELD;
    assert fields[i].column == USER_COLUMN;
    var scoped := ScopedExpected(expected, user);
    assert forall col :: col in scoped <==> col in expected || col == USER_COLUMN;
  }

  /** The scoped conditions are ownership and the caller's own expectations; whatever the
      caller expects of user_id is replaced. */
  lemma ScopedColumnsHold(c: Codec, fields: seq<Field>, expected: map<string, Expected>, user: string, row: Row)
    requires ScopeColumn(fields) && HasUserField(fields)
    ensures var scoped, own := ScopedExpected(expected, user), expected - {USER_COLUMN};
      ColumnsHold(c, fields, scoped, scoped.Keys, row)
      <==> (CellOf(row, USER_COLUMN) == Text(user) && ColumnsHold(c, fields, own, own.Keys, row))
  {
    ScopedUnknown(fields, expected, user);
    var scoped, own := ScopedExpected(expected, user), expected - {USER_COLUMN};
    assert forall col :: col in scoped.Keys <==> col == USER_COLUMN || col in own.Keys;
    assert forall col :: col in own.Keys ==> scoped[col] == own[col];
    assert scoped[USER_COLUMN] == Exact(Str(user));
  }

  lemma OwnedStorable(c: Codec, fields: seq<Field>, m: Model, user: string)
    requires TypedModel(fields, m) && TypedModel(fields, Owned(m, user))
    ensures StorableModel(c, fields, m) ==> StorableModel(c, fields, Owned(m, user))
    ensures forall i :: 0 <= i < |fields| ==> Owned(m, user)[fields[i].name] == OwnedValue(fields[i], m, user)
  {
  }

  /** A scoped conditional update is compare-and-swap on what the scoped Get returns, and
      the caller's model, owned by the user, is what Get returns afterwards. */
  lemma ScopedUpdateIsCompareAndSwap(c: Codec, fields: seq<Field>, rows: Rows, m: Model, expected: map<string, Expected>,
                                     user: string, rows': Rows, wrote: bool)
    requires Lawful(c) && ValidFields(fields) && ScopeColumn(fields) && HasUserField(fields)
    requires TypedModel(fields, m) && TypedModel(fields, Owned(m, user))
    requires WrittenRows(c, fields, rows) && ExpectsReads(c, fields, expected - {USER_COLUMN})
    requires UpdateEffect(c, fields, rows, Owned(m, user), ScopedExpected(expected, user), rows', wrote)
    ensures var id := KeyOf(fields, m);
      wrote <==> Visible(rows, user, id) && GetShows(c, fields, expected - {USER_COLUMN}, rows[id])
    ensures wrote && StorableModel(c, fields, m) ==>
      forall i :: 0 <= i < |fields| ==> ReadsBack(c, fields[i].kind, OwnedValue(fields[i], m, user),
                                                  CellOf(rows'[KeyOf(fields, m)], fields[i].column))
  {
    hide ReadsBack;
    OwnedStorable(c, fields, m, user);
    hide Lawful, GetShows, ExpectsReads, WrittenCell, Storable, KeyOf, ColumnsHold, WrittenAs;
    OwnedTyped(fields, m, user);
    var id := KeyOf(fields, m);
    if id in rows {
      ScopedColumnsHold(c, fields, expected, user, rows[id]);
      ConditionsMeanGet(c, fields, expected - {USER_COLUMN}, rows[id]);
    }
    if wrote && StorableModel(c, fields, m) {
      WrittenReadsBack(c, fields, Owned(m, user), rows[id], rows'[id]);
    }
  }

  class UserTable {
    const base: SqlTable
    const userID: string

    ghost predicate Valid()
      reads this, base
    {
      base.Valid() && ScopeColumn(base.fields)
    }

    constructor (base: SqlTable, userID: string)
      requires base.Valid() && ScopeColumn(base.fields)
      ensures Valid() && this.base == base && this.userID == userID
    {
      this.base := base;
      this.userID := userID;
    }

    /** A copy of the model owned by the user; None for models without an owner field. */
    method ScopedModel(m: Model) returns (scoped: Option<Model>)
      requires Valid() && TypedModel(base.fields, m)
      ensures scoped == if HasUserField(base.fields) then Some(Owned(m, userID)) else None
      ensures scoped.Some? ==> TypedModel(base.fields, scoped.value)
      ensures scoped.Some? ==> KeyOf(base.fields, scoped.value) == KeyOf(base.fields, m)
      ensures scoped.Some? ==>
        && scoped.value.Keys == m.Keys + {"UserID"} && scoped.value["UserID"] == Str(userID)
        && forall name :: name in m && name != "UserID" ==> scoped.value[name] == m[name]
    {
      if !HasUserField(base.fields) {
        return None;
      }
      OwnedTyped(base.fields, m, userID);
      scoped := Some(Owned(m, userID));
    }

    method InsertIfAbsent(m: Model) returns (r: WriteResult)
      requires Valid() && TypedModel(base.fields, m)
      modifies base
      ensures Valid() && TenantFrame(userID, old(base.rows), base.rows)
      ensures r == if HasUserField(base.fields) then Wrote(KeyOf(base.fields, m) !in old(base.rows)) else NotScopable
      ensures r.Wrote? && r.did ==> Visible(base.rows, userID, KeyOf(base.fields, m))
      ensures base.rows == if r.Wrote? && r.did
        then old(base.rows)[KeyOf(base.fields, m) := RowFrom(base.codec, base.fields, Owned(m, userID))]
        else old(base.rows)
      ensures r.Wrote? && r.did ==>
        && HoldsModel(base.codec, base.fields, m, userID, base.rows[KeyOf(base.fields, m)])
        && OtherColumnsKept(base.fields, map[], base.rows[KeyOf(base.fields, m)])
    {
      var scoped := ScopedModel(m);
      if scoped.None? {
        return NotScopable;
      }
      hide RowFrom, KeyOf, HasUserField, ValidFields, ValidRows, ScopeColumn, TypedModel;
      NewRowIs(base.codec, base.fields, scoped.value);
      OwnedRow(base.codec, base.fields, m, userID, map[], RowFrom(base.codec, base.fields, scoped.value));
      OwnedHolds(base.codec, base.fields, m, userID, map[], RowFrom(base.codec, base.fields, scoped.value));
      hide HoldsModel, OtherColumnsKept, WrittenAs;
      InsertStaysInScope(userID, base.rows, KeyOf(base.fields, m), RowFrom(base.codec, base.fields, scoped.value));
      hide TenantFrame, Visible;
      r := base.InsertIfAbsent(scoped.value);
    }

    method UpdateIf(m: Model, expected: map<string, Expected>) returns (r: WriteResult)
      requires Valid() && TypedModel(base.fields, m)
      modifies base
      ensures Valid() && TenantFrame(userID, old(base.rows), base.rows)
      ensures r.NotScopable? <==> !HasUserField(base.fields)
      ensures r.UnknownColumn? <==> HasUserField(base.fields) && NamesUnknown(base.fields, expected)
      ensures r.UnknownColumn? ==> r.column in expected && FieldOf(base.fields, r.column).None?
      ensures r.Wrote? && r.did ==> Visible(old(base.rows), userID, KeyOf(base.fields, m))
      ensures r.Wrote? ==>
        && HasUserField(base.fields) && TypedModel(base.fields, Owned(m, userID))
        && UpdateEffect(base.codec, base.fields, old(base.rows), Owned(m, userID), ScopedExpected(expected, userID),
                        base.rows, r.did)
      ensures !(r.Wrote? && r.did) ==> base.rows == old(base.rows)
      ensures r.Wrote? && r.did ==>
        && base.rows == old(base.rows)[KeyOf(base.fields, m) := base.rows[KeyOf(base.fields, m)]]
        && HoldsModel(base.codec, base.fields, m, userID, base.rows[KeyOf(base.fields, m)])
        && OtherColumnsKept(base.fields, old(base.rows)[KeyOf(base.fields, m)], base.rows[KeyOf(base.fields, m)])
      ensures r.Wrote? && Visible(old(base.rows), userID, KeyOf(base.fields, m)) ==>
        var own := expected - {USER_COLUMN};
        (r.did <==> ColumnsHold(base.codec, base.fields, own, own.Keys, old(base.rows)[KeyOf(base.fields, m)]))
    {
      var scoped := ScopedModel(m);
      if scoped.None? {
        return NotScopable;
      }
      ScopedUnknown(base.fields, expected, userID);
      r := base.UpdateIf(scoped.value, ScopedExpected(expected, userID));
      if r.Wrote? {
        UpdateStaysInScope(base.codec, base.fields, old(base.rows), m, expected, userID, base.rows, r.did);
        UpdateHolds(base.codec, base.fields, old(base.rows), m, expected, userID, base.rows, r.did);
      }
    }

    method DeleteIf(id: string, expected: map<string, Expected>) returns (r: WriteResult)
      requires Valid()
      modifies base
      ensures Valid() && TenantFrame(userID, old(base.rows), base.rows)
      ensures r.Wrote? || r.UnknownColumn?
      ensures r.UnknownColumn? <==> NamesUnknown(base.fields, ScopedExpected(expected, userID))
      ensures r.UnknownColumn? ==> r.column == USER_COLUMN || r.column in expected
      ensures r.Wrote? && r.did ==> Visible(old(base.rows), userID, id) && base.rows == old(base.rows) - {id}
      ensures !(r.Wrote? && r.did) ==> base.rows == old(base.rows)
      ensures r.Wrote? && id !in old(base.rows) ==> !r.did
      ensures r.Wrote? && id in old(base.rows) ==>
        (r.did <==> ColumnsHold(base.codec, base.fields, ScopedExpected(expected, userID),
                                ScopedExpected(expected, userID).Keys, old(base.rows)[id]))
    {
      r := base.DeleteIf(id, ScopedExpected(expected, userID));
      if r.Wrote? && r.did {
        ScopedHolds(base.codec, base.fields, expected, userID, old(base.rows)[id]);
      }
    }

    method Upsert(m: Model) returns (r: WriteResult)
      requires Valid() && TypedModel(base.fields, m)
      modifies base
      ensures Valid() && TenantFrame(userID, old(base.rows), base.rows)
      ensures r == if HasUserField(base.fields)
        then Wrote(KeyOf(base.fields, m) !in old(base.rows) || Visible(old(base.rows), userID, KeyOf(base.fields, m)))
        else NotScopable
      ensures r.Wrote? ==>
        && TypedModel(base.fields, Owned(m, userID))
        && UpsertEffect(base.codec, base.fields, old(base.rows), Owned(m, userID), base.rows, r.did)
      ensures r.Wrote? && r.did ==> Visible(base.rows, userID, KeyOf(base.fields, m))
      ensures !(r.Wrote? && r.did) ==> base.rows == old(base.rows)
      ensures r.Wrote? && r.did ==>
        && base.rows == old(base.rows)[KeyOf(base.fields, m) := base.rows[KeyOf(base.fields, m)]]
        && HoldsModel(base.codec, base.fields, m, userID, base.rows[KeyOf(base.fields, m)])
        && OtherColumnsKept(base.fields, RowAt(old(base.rows), KeyOf(base.fields, m)), base.rows[KeyOf(base.fields, m)])
    {
      var scoped := ScopedModel(m);
      if scoped.None? {
        return NotScopable;
      }
      NewRowIs(base.codec, base.fields, scoped.value);
      OwnedRow(base.codec, base.fields, m, userID, map[], RowFrom(base.codec, base.fields, scoped.value));
      r := base.Upsert(scoped.value, Some(USER_COLUMN));
      UpsertStaysInScope(base.codec, base.fields, old(base.rows), m, userID, base.rows, r.did);
      UpsertHolds(base.codec, base.fields, old(base.rows), m, userID, base.rows, r.did);
    }

    /** SELECT … WHERE key AND user_id. */
    method Get(id: string) returns (r: ReadResult)
      requires Valid()
      ensures r.NoRows? <==> !Visible(base.rows, userID, id)
      ensures Visible(base.rows, userID, id) ==>
        (r.Found? <==> forall i :: 0 <= i < |base.fields| ==>
          Decode(base.codec, base.fields[i].kind, CellOf(base.rows[id], base.fields[i].column)).Some?)
      ensures r.Found? ==> forall i :: 0 <= i < |base.fields| ==>
        && base.fields[i].name in r.model
        && Decode(base.codec, base.fields[i].kind, CellOf(base.rows[id], base.fields[i].column))
             == Some(r.model[base.fields[i].name])
    {
      if !Visible(base.rows, userID, id) {
        return NoRows;
      }
      r := base.Get(id);
    }
  }

  lemma InsertStaysInScope(user: string, rows: Rows, id: string, row: Row)
    requires CellOf(row, USER_COLUMN) == Text(user)
    ensures TenantFrame(user, rows, rows)
    ensures id !in rows ==> TenantFrame(user, rows, rows[id := row]) && Visible(rows[id := row], user, id)
  {
  }

  lemma UpdateStaysInScope(c: Codec, fields: seq<Field>, rows: Rows, m: Model, expected: map<string, Expected>, user: string,
                           rows': Rows, wrote: bool)
    requires ValidFields(fields) && ScopeColumn(fields) && HasUserField(fields)
    requires TypedModel(fields, Owned(m, user))
    requires UpdateEffect(c, fields, rows, Owned(m, user), ScopedExpected(expected, user), rows', wrote)
    ensures TenantFrame(user, rows, rows')
    ensures wrote ==> Visible(rows, user, KeyOf(fields, Owned(m, user)))
  {
    hide WrittenAs, ColumnsHold, KeyOf;
    var id := KeyOf(fields, Owned(m, user));
    if wrote {
      ScopedHolds(c, fields, expected, user, rows[id]);
      OwnedRow(c, fields, m, user, rows[id], rows'[id]);
    }
  }

  lemma UpdateHolds(c: Codec, fields: seq<Field>, rows: Rows, m: Model, expected: map<string, Expected>, user: string,
                    rows': Rows, wrote: bool)
    requires ValidFields(fields) && ScopeColumn(fields) && HasUserField(fields)
    requires TypedModel(fields, m) && TypedModel(fields, Owned(m, user))
    requires UpdateEffect(c, fields, rows, Owned(m, user), ScopedExpected(expected, user), rows', wrote)
    ensures var id := KeyOf(fields, m);
      && (wrote ==>
            && id in rows && id in rows' && rows' == rows[id := rows'[id]]
            && HoldsModel(c, fields, m, user, rows'[id]) && OtherColumnsKept(fields, rows[id], rows'[id]))
      && (!wrote ==> rows' == rows)
    ensures var id, own := KeyOf(fields, m), expected - {USER_COLUMN};
      Visible(rows, user, id) ==> (wrote <==> ColumnsHold(c, fields, own, own.Keys, rows[id]))
  {
    OwnedTyped(fields, m, user);
    hide WrittenAs, ColumnsHold, KeyOf, HoldsModel, OtherColumnsKept;
    var id := KeyOf(fields, m);
    if wrote {
      OwnedHolds(c, fields, m, user, rows[id], rows'[id]);
    }
    if id in rows {
      ScopedColumnsHold(c, fields, expected, user, rows[id]);
    }
  }

  /** The row under the key; no columns if there is none. */
  function RowAt(rows: Rows, id: string): Row {
    if id in rows then rows[id] else map[]
  }

  lemma UpsertHolds(c: Codec, fields: seq<Field>, rows: Rows, m: Model, user: string, rows': Rows, wrote: bool)
    requires ValidFields(fields) && ScopeColumn(fields) && HasUserField(fields)
    requires TypedModel(fields, m) && TypedModel(fields, Owned(m, user))
    requires UpsertEffect(c, fields, rows, Owned(m, user), rows', wrote)
    ensures var id := KeyOf(fields, m);
      wrote ==>
        && id in rows' && rows' == rows[id := rows'[id]]
        && HoldsModel(c, fields, m, user, rows'[id]) && OtherColumnsKept(fields, RowAt(rows, id), rows'[id])
  {
    OwnedTyped(fields, m, user);
    hide WrittenAs, KeyOf, HoldsModel, OtherColumnsKept;
    var id := KeyOf(fields, m);
    if wrote {
      OwnedHolds(c, fields, m, user, RowAt(rows, id), rows'[id]);
    }
  }

  lemma UpsertStaysInScope(c: Codec, fields: seq<Field>, rows: Rows, m: Model, user: string, rows': Rows, wrote: bool)
    requires ValidFields(fields) && ScopeColumn(fields) && HasUserField(fields)
    requires TypedModel(fields, Owned(m, user))
    requires UpsertEffect(c, fields, rows, Owned(m, user), rows', wrote)
    requires wrote <==> GuardHolds(c, fields, rows, Owned(m, user), Some(USER_COLUMN))
    requires CellOf(RowFrom(c, fields, Owned(m, user)), USER_COLUMN) == Text(user)
    ensures TenantFrame(user, rows, rows')
    ensures wrote <==> KeyOf(fields, Owned(m, user)) !in rows || Visible(rows, user, KeyOf(fields, Owned(m, user)))
    ensures wrote ==> Visible(rows', user, KeyOf(fields, Owned(m, user)))
    ensures !wrote ==> rows' == rows
  {
    hide WrittenAs, KeyOf, RowFrom;
    var id := KeyOf(fields, Owned(m, user));
    if wrote {
      OwnedRow(c, fields, m, user, if id in rows then rows[id] else map[], rows'[id]);
    }
  }
}
