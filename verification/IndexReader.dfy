/** A reader of CREATE UNIQUE INDEX statements, which finds in a built statement what it
    was built from. */
module IndexReader {
  import opened IndexDDL
  import opened Options
  import opened Text

  datatype IndexStatement = IndexStatement(
    ifNotExists: bool, index: string, table: string, columns: seq<string>, predicateSQL: string)

  function Skip(word: string, s: string): Option<string> {
    if word <= s then Some(s[|word|..]) else None
  }

  /** A quoted name after its opening quote, a doubled quote standing for one; and the rest. */
  function ReadBody(s: string): Option<(string, string)>
    decreases |s|
  {
    if s == "" then None
    else if s[0] != '"' then
      var r := ReadBody(s[1..]);
      if r.None? then None else Some(([s[0]] + r.value.0, r.value.1))
    else if |s| > 1 && s[1] == '"' then
      var r := ReadBody(s[2..]);
      if r.None? then None else Some((['"'] + r.value.0, r.value.1))
    else Some(("", s[1..]))
  }

  function ReadName(s: string): (r: Option<(string, string)>)
    ensures r.Some? ==> |r.value.1| < |s|
  {
    if s == "" || s[0] != '"' then None
    else
      BodyShorter(s[1..]);
      ReadBody(s[1..])
  }

  lemma {:induction false} BodyShorter(s: string)
    ensures ReadBody(s).Some? ==> |ReadBody(s).value.1| < |s|
    decreases |s|
  {
    if s != "" && s[0] != '"' {
      BodyShorter(s[1..]);
    } else if |s| > 1 && s[1] == '"' {
      BodyShorter(s[2..]);
    }
  }

  /** Names separated by a comma and a blank. */
  function ReadNames(s: string): Option<(seq<string>, string)>
    decreases |s|
  {
    var first := ReadName(s);
    if first.None? then None
    else
      var more := Skip(", ", first.value.1);
      if more.None? then Some(([first.value.0], first.value.1))
      else
        var rest := ReadNames(more.value);
        if rest.None? then None else Some(([first.value.0] + rest.value.0, rest.value.1))
  }

  /** From the column list on. */
  function ReadColumns(s: string, ifNotExists: bool, index: string, table: string): Option<IndexStatement> {
    var columns := ReadNames(s);
    if columns.None? then None
    else
      var close := Skip(")", columns.value.1);
      if close.None? then None
      else if close.value == "" then Some(IndexStatement(ifNotExists, index, table, columns.value.0, ""))
      else
        var predicateSQL := Skip(" WHERE ", close.value);
        if predicateSQL.None? then None
        else Some(IndexStatement(ifNotExists, index, table, columns.value.0, predicateSQL.value))
  }

  /** From the name of the table on. */
  function ReadTable(s: string, ifNotExists: bool, index: string): Option<IndexStatement> {
    var table := ReadName(s);
    if table.None? then None
    else
      var columns := Skip(" (", table.value.1);
      if columns.None? then None else ReadColumns(columns.value, ifNotExists, index, table.value.0)
  }

  /** From the name of the index on. */
  function ReadSubject(s: string, ifNotExists: bool): Option<IndexStatement> {
    var index := ReadName(s);
    if index.None? then None
    else
      var table := Skip(" ON ", index.value.1);
      if table.None? then None else ReadTable(table.value, ifNotExists, index.value.0)
  }

  function ReadStatement(s: string): Option<IndexStatement> {
    var subject := Skip("CREATE UNIQUE INDEX ", s);
    if subject.None? then None
    else
      var marked := Skip("IF NOT EXISTS ", subject.value);
      if marked.Some? then ReadSubject(marked.value, true) else ReadSubject(subject.value, false)
  }

  // ----- Reading what was built

  lemma SkipIs(word: string, rest: string)
    ensures Skip(word, word + rest) == Some(rest)
  {
  }

  lemma SkipNot(word: string, s: string)
    requires word != "" && s != "" && word[0] != s[0]
    ensures Skip(word, s) == None
  {
  }

  lemma {:induction false} ReadsBody(name: string, rest: string)
    requires rest == "" || rest[0] != '"'
    ensures ReadBody(Double(name, '"') + (['"'] + rest)) == Some((name, rest))
    decreases |name|
  {
    var s := Double(name, '"') + (['"'] + rest);
    if name == "" {
      assert s == ['"'] + rest && s[1..] == rest;
    } else {
      ReadsBody(name[1..], rest);
      var tail := Double(name[1..], '"') + (['"'] + rest);
      assert name == [name[0]] + name[1..];
      if name[0] == '"' {
        assert s == ['"', '"'] + tail && s[2..] == tail;
      } else {
        assert s == [name[0]] + tail && s[1..] == tail;
      }
    }
  }

  lemma {:induction false} ReadsName(name: string, rest: string)
    requires rest == "" || rest[0] != '"'
    ensures ReadName(QuoteIdentifier(name) + rest) == Some((TrimSpace(name), rest))
  {
    hide TrimSpace;
    ReadsBody(TrimSpace(name), rest);
    var s := QuoteIdentifier(name) + rest;
    assert s[1..] == Double(TrimSpace(name), '"') + (['"'] + rest);
  }

  function Trimmed(columns: seq<string>): seq<string> {
    seq(|columns|, i requires 0 <= i < |columns| => TrimSpace(columns[i]))
  }

  lemma {:induction false} ReadsNames(columns: seq<string>, rest: string)
    requires columns != [] && rest != "" && rest[0] == ')'
    ensures ReadNames(ColumnList(columns) + rest) == Some((Trimmed(columns), rest))
    decreases |columns|
  {
    hide ReadName, QuoteIdentifier, TrimSpace, Skip;
    if |columns| == 1 {
      ReadsName(columns[0], rest);
      SkipNot(", ", rest);
      assert Trimmed(columns) == [TrimSpace(columns[0])];
    } else {
      var tail := ColumnList(columns[1..]) + rest;
      ReadsNames(columns[1..], rest);
      assert ColumnList(columns) + rest == QuoteIdentifier(columns[0]) + (", " + tail);
      ReadsName(columns[0], ", " + tail);
      SkipIs(", ", tail);
      assert Trimmed(columns) == [TrimSpace(columns[0])] + Trimmed(columns[1..]);
    }
  }

  /** What a definition asks for, names and predicate trimmed. */
  function Asked(d: Definition, ifNotExists: bool): IndexStatement {
    IndexStatement(ifNotExists, TrimSpace(d.index), TrimSpace(d.table), Trimmed(d.columns), TrimSpace(d.predicateSQL))
  }

  lemma ReadsColumns(d: Definition, ifNotExists: bool, index: string, table: string)
    requires d.columns != []
    ensures ReadColumns(ColumnList(d.columns) + AfterColumns(d), ifNotExists, index, table)
      == Some(IndexStatement(ifNotExists, index, table, Trimmed(d.columns), TrimSpace(d.predicateSQL)))
  {
    ReadsEnd(d);
    assert AfterColumns(d) != "" && AfterColumns(d)[0] == ')';
    hide ReadNames, ColumnList, TrimSpace, Trimmed, Skip, AfterColumns;
    ReadsNames(d.columns, AfterColumns(d));
  }

  lemma ReadsTable(name: string, cols: string, ifNotExists: bool, index: string)
    ensures ReadTable(QuoteIdentifier(name) + (" (" + cols), ifNotExists, index)
      == ReadColumns(cols, ifNotExists, index, TrimSpace(name))
  {
    hide ReadName, ReadColumns, QuoteIdentifier, TrimSpace, Skip;
    ReadsName(name, " (" + cols);
    SkipIs(" (", cols);
  }

  lemma ReadsIndex(name: string, table: string, ifNotExists: bool)
    ensures ReadSubject(QuoteIdentifier(name) + (" ON " + table), ifNotExists)
      == ReadTable(table, ifNotExists, TrimSpace(name))
  {
    hide ReadName, ReadTable, QuoteIdentifier, TrimSpace, Skip;
    ReadsName(name, " ON " + table);
    SkipIs(" ON ", table);
  }

  lemma {:induction false} ReadsSubject(d: Definition, ifNotExists: bool)
    requires d.columns != []
    ensures ReadSubject(Subject(d), ifNotExists) == Some(Asked(d, ifNotExists))
  {
    var cols := ColumnList(d.columns) + AfterColumns(d);
    hide ReadTable, ReadSubject, ReadColumns, QuoteIdentifier, ColumnList, AfterColumns, TrimSpace, Trimmed;
    ReadsIndex(d.index, QuoteIdentifier(d.table) + (" (" + cols), ifNotExists);
    ReadsTable(d.table, cols, ifNotExists, TrimSpace(d.index));
    ReadsColumns(d, ifNotExists, TrimSpace(d.index), TrimSpace(d.table));
  }

  lemma ReadsEnd(d: Definition)
    ensures var where := if TrimSpace(d.predicateSQL) != "" then " WHERE " + TrimSpace(d.predicateSQL) else "";
      Skip(")", AfterColumns(d)) == Some(where)
      && (TrimSpace(d.predicateSQL) != "" ==> Skip(" WHERE ", where) == Some(TrimSpace(d.predicateSQL)))
  {
    hide TrimSpace, Skip;
    var p := TrimSpace(d.predicateSQL);
    SkipIs(")", if p != "" then " WHERE " + p else "");
    SkipIs(" WHERE ", p);
  }

  lemma ReadsCreate(subject: string)
    requires subject != "" && subject[0] == '"'
    ensures ReadStatement("CREATE UNIQUE INDEX " + subject) == ReadSubject(subject, false)
    ensures ReadStatement("CREATE UNIQUE INDEX " + "IF NOT EXISTS " + subject) == ReadSubject(subject, true)
  {
    hide ReadSubject, Skip;
    SkipIs("CREATE UNIQUE INDEX ", subject);
    SkipNot("IF NOT EXISTS ", subject);
    SkipIs("CREATE UNIQUE INDEX ", "IF NOT EXISTS " + subject);
    SkipIs("IF NOT EXISTS ", subject);
    Assoc("CREATE UNIQUE INDEX ", "IF NOT EXISTS ", subject);
  }

  /** A reader of the statement built for comparison, and of the one executed, finds the
      index, table, columns and predicate asked for, each where it belongs. */
  lemma {:induction false} BuiltReads(d: Definition)
    requires d.columns != []
    ensures ReadStatement(BaseDDL(d)) == Some(Asked(d, false))
    ensures ReadStatement(ExecDDL(d)) == Some(Asked(d, true))
  {
    hide ReadStatement, ReadSubject, Subject, ExecDDL, Asked, Create, CreateIfNotExists;
    ReadsSubject(d, false);
    ReadsSubject(d, true);
    ExecIs(d);
    SubjectQuoted(d);
    CreateWords();
    ReadsCreate(Subject(d));
  }

  lemma CreateWords()
    ensures Create() == "CREATE UNIQUE INDEX " && CreateIfNotExists() == "CREATE UNIQUE INDEX " + "IF NOT EXISTS "
  {
  }

  lemma SubjectQuoted(d: Definition)
    requires d.columns != []
    ensures Subject(d) != "" && Subject(d)[0] == '"'
  {
    hide TrimSpace, ColumnList, AfterColumns, Double;
  }

  lemma ExecIs(d: Definition)
    requires d.columns != []
    ensures ExecDDL(d) == CreateIfNotExists() + Subject(d)
  {
    hide Subject, CreateIfNotExists, Create;
    CreateNotEmpty();
    assert BaseDDL(d)[|Create()|..] == Subject(d);
  }

  lemma CreateNotEmpty()
    ensures Create() != ""
  {
  }
}
