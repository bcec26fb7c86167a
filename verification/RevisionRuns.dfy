/** Optimistic concurrency: any number of clients, in any interleaving, read a
    row and update it on condition that its revision is still the one they read. */
module RevisionRuns {
  import opened SqlCodec
  import opened AtomicWrites
  import opened Options

  const REVISION_FIELD := "Revision"
  const REVISION_COLUMN := "revision"

  ghost predicate Revisioned(fields: seq<Field>) {
    && ValidFields(fields)
    && exists i :: 0 <= i < |fields| && fields[i] == Field(REVISION_FIELD, REVISION_COLUMN, KInt, false)
  }

  /** A client writes `model`, whose revision is one more than the `base` it read. */
  datatype Attempt = Attempt(model: Model, base: int)

  ghost predicate ValidAttempt(fields: seq<Field>, a: Attempt) {
    && TypedModel(fields, a.model)
    && REVISION_FIELD in a.model && a.model[REVISION_FIELD] == Int(a.base + 1)
  }

  function Expecting(base: int): map<string, Expected> {
    map[REVISION_COLUMN := Plain(Int(base))]
  }

  /** The attempts in the order the database ran them, with their outcomes. */
  ghost predicate Run(c: Codec, fields: seq<Field>, attempts: seq<Attempt>, states: seq<Rows>, wrote: seq<bool>) {
    && Revisioned(fields)
    && |states| == |attempts| + 1 && |wrote| == |attempts|
    && (forall i :: 0 <= i < |attempts| ==> ValidAttempt(fields, attempts[i]))
    && (forall i, j :: 0 <= i < |attempts| && j == i + 1 ==>
          UpdateEffect(c, fields, states[i], attempts[i].model, Expecting(attempts[i].base), states[j], wrote[i]))
  }

  ghost predicate HasRevision(rows: Rows, id: string) {
    id in rows && (CellOf(rows[id], REVISION_COLUMN).Null? || CellOf(rows[id], REVISION_COLUMN).Integer?)
  }

  /** The revision Get returns: NULL reads as zero. */
  function RevisionOf(rows: Rows, id: string): int
    requires id in rows
  {
    var cell := CellOf(rows[id], REVISION_COLUMN);
    if cell.Integer? then cell.n else 0
  }

  lemma RevisionField(fields: seq<Field>)
    requires Revisioned(fields)
    ensures FieldOf(fields, REVISION_COLUMN) == Some(Field(REVISION_FIELD, REVISION_COLUMN, KInt, false))
  {
    var i :| 0 <= i < |fields| && fields[i] == Field(REVISION_FIELD, REVISION_COLUMN, KInt, false);
    FieldOfIs(fields, i);
  }

  /** The condition holds exactly when the revision read back is the base,
      zero standing for NULL too. */
  lemma BaseMatches(c: Codec, fields: seq<Field>, rows: Rows, id: string, base: int)
    requires Revisioned(fields) && HasRevision(rows, id)
    ensures ColumnsHold(c, fields, Expecting(base), Expecting(base).Keys, rows[id]) <==> RevisionOf(rows, id) == base
  {
    RevisionField(fields);
    assert REVISION_COLUMN in Expecting(base).Keys;
  }

  lemma StepRevision(c: Codec, fields: seq<Field>, rows: Rows, a: Attempt, rows': Rows, wrote: bool, id: string)
    requires Revisioned(fields) && ValidAttempt(fields, a) && HasRevision(rows, id)
    requires UpdateEffect(c, fields, rows, a.model, Expecting(a.base), rows', wrote)
    ensures HasRevision(rows', id)
    ensures KeyOf(fields, a.model) == id ==> (wrote <==> a.base == RevisionOf(rows, id))
    ensures RevisionOf(rows', id) == RevisionOf(rows, id) + if wrote && KeyOf(fields, a.model) == id then 1 else 0
    ensures !(wrote && KeyOf(fields, a.model) == id) ==> rows'[id] == rows[id]
  {
    BaseMatches(c, fields, rows, id, a.base);
    if wrote && KeyOf(fields, a.model) == id {
      var i :| 0 <= i < |fields| && fields[i] == Field(REVISION_FIELD, REVISION_COLUMN, KInt, false);
      assert rows'[id][fields[i].column] == Encode(c, a.model[fields[i].name]);
    }
  }

  /** Successful writes of one row. */
  ghost function Successes(fields: seq<Field>, attempts: seq<Attempt>, wrote: seq<bool>, id: string): nat
    requires |wrote| == |attempts| && ValidFields(fields)
    requires forall i :: 0 <= i < |attempts| ==> ValidAttempt(fields, attempts[i])
  {
    if attempts == [] then 0
    else
      var n := |attempts| - 1;
      assert ValidAttempt(fields, attempts[n]);
      Successes(fields, attempts[..n], wrote[..n], id)
      + if wrote[n] && KeyOf(fields, attempts[n].model) == id then 1 else 0
  }

  lemma RunPrefix(c: Codec, fields: seq<Field>, attempts: seq<Attempt>, states: seq<Rows>, wrote: seq<bool>, n: nat)
    requires Run(c, fields, attempts, states, wrote) && n <= |attempts|
    ensures Run(c, fields, attempts[..n], states[..n + 1], wrote[..n])
  {
    hide UpdateEffect, ValidAttempt, Revisioned;
  }

  /** No update is lost: the final revision is the initial one plus the number of
      successful writes, also when the initial revision is NULL. */
  lemma {:induction false} RevisionCountsWrites(c: Codec, fields: seq<Field>, attempts: seq<Attempt>, states: seq<Rows>,
                                                wrote: seq<bool>, id: string)
    requires Run(c, fields, attempts, states, wrote) && HasRevision(states[0], id)
    ensures HasRevision(states[|attempts|], id)
    ensures RevisionOf(states[|attempts|], id) == RevisionOf(states[0], id) + Successes(fields, attempts, wrote, id)
  {
    hide UpdateEffect, ValidAttempt, Revisioned, HasRevision, RevisionOf, KeyOf;
    if attempts != [] {
      var n := |attempts| - 1;
      RunPrefix(c, fields, attempts, states, wrote, n);
      RevisionCountsWrites(c, fields, attempts[..n], states[..n + 1], wrote[..n], id);
      assert ValidAttempt(fields, attempts[n]);
      StepRevision(c, fields, states[n], attempts[n], states[n + 1], wrote[n], id);
    }
  }

  lemma {:induction false} RevisionGrows(c: Codec, fields: seq<Field>, attempts: seq<Attempt>, states: seq<Rows>,
                                         wrote: seq<bool>, id: string, i: nat, k: nat)
    requires Run(c, fields, attempts, states, wrote) && i <= k <= |attempts| && HasRevision(states[i], id)
    ensures HasRevision(states[k], id)
    ensures RevisionOf(states[i], id) <= RevisionOf(states[k], id)
    decreases k
  {
    hide UpdateEffect, ValidAttempt, Revisioned, HasRevision, RevisionOf, KeyOf;
    if i < k {
      RevisionGrows(c, fields, attempts, states, wrote, id, i, k - 1);
      assert ValidAttempt(fields, attempts[k - 1]);
      StepRevision(c, fields, states[k - 1], attempts[k - 1], states[k], wrote[k - 1], id);
    }
  }

  /** Each revision has at most one successful writer. */
  lemma OneWinnerPerRevision(c: Codec, fields: seq<Field>, attempts: seq<Attempt>, states: seq<Rows>,
                             wrote: seq<bool>, id: string, i: nat, k: nat)
    requires Run(c, fields, attempts, states, wrote) && HasRevision(states[0], id)
    requires i < k < |attempts| && wrote[i] && wrote[k]
    requires ValidAttempt(fields, attempts[i]) && KeyOf(fields, attempts[i].model) == id
    requires ValidAttempt(fields, attempts[k]) && KeyOf(fields, attempts[k].model) == id
    ensures attempts[i].base < attempts[k].base
  {
    hide UpdateEffect, ValidAttempt, Revisioned, HasRevision, RevisionOf, KeyOf;
    RevisionGrows(c, fields, attempts, states, wrote, id, 0, i);
    StepRevision(c, fields, states[i], attempts[i], states[i + 1], wrote[i], id);
    RevisionGrows(c, fields, attempts, states, wrote, id, i + 1, k);
    StepRevision(c, fields, states[k], attempts[k], states[k + 1], wrote[k], id);
  }

  /** Whoever writes on an up-to-date read succeeds: if the base is the revision
      in the table when the attempt runs, it is written. */
  lemma FreshReadWins(c: Codec, fields: seq<Field>, attempts: seq<Attempt>, states: seq<Rows>,
                      wrote: seq<bool>, id: string, i: nat)
    requires Run(c, fields, attempts, states, wrote) && HasRevision(states[0], id)
    requires i < |attempts| && ValidAttempt(fields, attempts[i]) && KeyOf(fields, attempts[i].model) == id
    ensures id in states[i]
    ensures wrote[i] <==> attempts[i].base == RevisionOf(states[i], id)
  {
    hide UpdateEffect, ValidAttempt, Revisioned, KeyOf;
    RevisionGrows(c, fields, attempts, states, wrote, id, 0, i);
    StepRevision(c, fields, states[i], attempts[i], states[i + 1], wrote[i], id);
  }
}
