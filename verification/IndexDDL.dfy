/** Building CREATE UNIQUE INDEX statements and comparing them with stored ones. */
module IndexDDL {
  import opened Text

  // ----- Normal form: one token at a time

  predicate Blank(c: char) {
    c == ' ' || c == '\t' || c == '\n' || c == '\r'
  }

  predicate QuoteMark(c: char) {
    c == '\'' || c == '"'
  }

  /** Length of a literal after its opening quote `q`; a doubled quote does not end it. */
  function LiteralLen(s: string, q: char): (n: nat)
    ensures n <= |s|
    decreases |s|
  {
    if s == "" then 0
    else if s[0] != q then 1 + LiteralLen(s[1..], q)
    else if |s| > 1 && s[1] == q then 2 + LiteralLen(s[2..], q)
    else 1
  }

  function BlankLen(s: string): (n: nat)
    ensures n <= |s|
    decreases |s|
  {
    if s != "" && Blank(s[0]) then 1 + BlankLen(s[1..]) else 0
  }

  /** A quoted literal, a run of blanks, or a single character. */
  function TokenLen(s: string): (n: nat)
    requires s != ""
    ensures 1 <= n <= |s|
  {
    if QuoteMark(s[0]) then 1 + LiteralLen(s[1..], s[0])
    else if Blank(s[0]) then BlankLen(s)
    else 1
  }

  function TokenForm(token: string): string
    requires token != ""
  {
    if QuoteMark(token[0]) then token
    else if Blank(token[0]) then " "
    else [Lower(token[0])]
  }

  function Fold(s: string): string
    decreases |s|
  {
    if s == "" then "" else TokenForm(s[..TokenLen(s)]) + Fold(s[TokenLen(s)..])
  }

  /** Three words, each followed by a space. */
  function Three(a: string, b: string, c: string): string {
    a + (" " + (b + (" " + (c + " "))))
  }

  function NoMarker(): string {
    Three("create", "unique", "index")
  }

  function WithMarker(): string {
    NoMarker() + Three("if", "not", "exists")
  }

  function StripMarker(norm: string): string {
    if WithMarker() <= norm then NoMarker() + norm[|WithMarker()|..] else norm
  }

  function Normalize(s: string): string {
    StripMarker(TrimSpace(Fold(s)))
  }

  predicate SqlEquivalent(a: string, b: string) {
    Normalize(a) == Normalize(b)
  }

  lemma Assoc(a: string, b: string, c: string)
    ensures a + (b + c) == (a + b) + c
  {
  }

  /** `out` is what folding has produced when `i` characters are read. */
  ghost predicate FoldedTo(s: string, i: nat, out: string) {
    i <= |s| && out + Fold(s[i..]) == Fold(s)
  }

  lemma {:induction false} FoldedStart(s: string)
    ensures FoldedTo(s, 0, "")
  {
    assert s[0..] == s && "" + Fold(s) == Fold(s);
  }

  lemma {:induction false} FoldedStep(s: string, i: nat, out: string)
    requires i < |s| && FoldedTo(s, i, out)
    ensures var j := i + TokenLen(s[i..]); FoldedTo(s, j, out + TokenForm(s[i..j]))
  {
    hide Fold, TokenLen, TokenForm;
    var j := i + TokenLen(s[i..]);
    FoldFirstToken(s[i..]);
    Slices(s, i, j);
    Assoc(out, TokenForm(s[i..j]), Fold(s[j..]));
  }

  lemma {:induction false} FoldFirstToken(s: string)
    requires s != ""
    ensures Fold(s) == TokenForm(s[..TokenLen(s)]) + Fold(s[TokenLen(s)..])
  {
    hide TokenLen, TokenForm;
  }

  lemma Slices(s: string, i: nat, j: nat)
    requires i <= j <= |s|
    ensures s[i..][..j - i] == s[i..j] && s[i..][j - i..] == s[j..]
  {
  }

  lemma {:induction false} FoldedEnd(s: string, out: string)
    requires FoldedTo(s, |s|, out)
    ensures out == Fold(s)
  {
    assert s[|s|..] == "" && out + "" == out;
  }

  lemma {:induction false} CharToken(s: string, i: nat)
    requires i < |s| && !QuoteMark(s[i]) && !Blank(s[i])
    ensures TokenLen(s[i..]) == 1 && TokenForm(s[i..i + 1]) == [Lower(s[i])]
  {
  }

  method NormalizeIndexDDL(s: string) returns (norm: string)
    ensures norm == Normalize(s)
  {
    hide Three, NoMarker, WithMarker, TrimSpace;
    var out := "";
    var i := 0;
    hide Fold, FoldedTo, TokenLen, TokenForm;
    FoldedStart(s);
    while i < |s|
      invariant 0 <= i <= |s|
      invariant FoldedTo(s, i, out)
    {
      var c := s[i];
      var next, form := i + 1, [c];
      if c == '\'' || c == '"' {
        next, form := CopyLiteral(s, i);
      } else if 'A' <= c <= 'Z' {
        CharToken(s, i);
        form := [(c as int - 'A' as int + 'a' as int) as char];
      } else if c == ' ' || c == '\t' || c == '\n' || c == '\r' {
        next := SkipBlanks(s, i);
        form := " ";
      } else {
        CharToken(s, i);
      }
      assert next == i + TokenLen(s[i..]) && form == TokenForm(s[i..next]);
      FoldedStep(s, i, out);
      out := out + form;
      i := next;
    }
    FoldedEnd(s, out);
    norm := TrimSpace(out);
    if WithMarker() <= norm {
      norm := NoMarker() + norm[|WithMarker()|..];
    }
  }

  /** The inner skipping loop. */
  method SkipBlanks(s: string, start: nat) returns (i: nat)
    requires start < |s| && Blank(s[start])
    ensures start < i <= |s| && i == start + TokenLen(s[start..]) && TokenForm(s[start..i]) == " "
  {
    i := start + 1;
    assert s[start..][1..] == s[i..];
    while i < |s| && Blank(s[i])
      invariant start < i <= |s|
      invariant start + BlankLen(s[start..]) == i + BlankLen(s[i..])
    {
      assert s[i..][1..] == s[i + 1..];
      i := i + 1;
    }
  }

  /** The inner copying loop: a literal is written verbatim. */
  method CopyLiteral(s: string, start: nat) returns (i: nat, quoted: string)
    requires start < |s| && QuoteMark(s[start])
    ensures start < i <= |s| && i == start + TokenLen(s[start..]) && quoted == TokenForm(s[start..i])
  {
    hide TokenLen, LiteralLen, TokenForm;
    var quote := s[start];
    quoted := [quote];
    i := start + 1;
    while i < |s|
      invariant start < i <= |s|
      invariant quoted == s[start..i]
      invariant start + 1 + LiteralLen(s[start + 1..], quote) == i + LiteralLen(s[i..], quote)
    {
      LiteralStep(s, i, quote);
      Append(s, start, i);
      if s[i] == quote {
        if i + 1 < |s| && s[i + 1] == quote {
          Append(s, start, i + 1);
          quoted := quoted + [quote];
          quoted := quoted + [quote];
          i := i + 2;
          continue;
        }
        quoted := quoted + [quote];
        i := i + 1;
        LiteralToken(s, start, i);
        return;
      }
      quoted := quoted + [s[i]];
      i := i + 1;
    }
    LiteralToken(s, start, i);
  }

  lemma Append(s: string, start: nat, i: nat)
    requires start <= i < |s|
    ensures s[start..i] + [s[i]] == s[start..i + 1]
  {
  }

  lemma {:induction false} LiteralToken(s: string, start: nat, i: nat)
    requires start < i <= |s| && QuoteMark(s[start])
    requires i == start + 1 + LiteralLen(s[start + 1..], s[start])
      || (i == |s| && i + LiteralLen(s[i..], s[start]) == start + 1 + LiteralLen(s[start + 1..], s[start]))
    ensures i == start + TokenLen(s[start..]) && TokenForm(s[start..i]) == s[start..i]
  {
    assert s[start..][1..] == s[start + 1..];
  }

  lemma {:induction false} LiteralStep(s: string, i: nat, q: char)
    requires i < |s|
    ensures LiteralLen(s[i..], q) ==
      if s[i] != q then 1 + LiteralLen(s[i + 1..], q)
      else if i + 1 < |s| && s[i + 1] == q then 2 + LiteralLen(s[i + 2..], q)
      else 1
  {
    assert s[i..][1..] == s[i + 1..];
    assert i + 1 < |s| ==> s[i..][2..] == s[i + 2..];
  }

  // ----- Statements

  datatype Definition = Definition(index: string, table: string, columns: seq<string>, predicateSQL: string)

  predicate Named(d: Definition) {
    && TrimSpace(d.index) != "" && d.columns != [] && TrimSpace(d.table) != ""
    && forall i :: 0 <= i < |d.columns| ==> TrimSpace(d.columns[i]) != ""
  }

  /** Every `q` doubled: strings.ReplaceAll. */
  function Double(s: string, q: char): string
    decreases |s|
  {
    if s == "" then "" else (if s[0] == q then [q, q] else [s[0]]) + Double(s[1..], q)
  }

  function Quoted(s: string, q: char): string {
    [q] + (Double(s, q) + [q])
  }

  function QuoteIdentifier(name: string): string {
    Quoted(TrimSpace(name), '"')
  }

  function ColumnList(columns: seq<string>): string
    requires columns != []
  {
    if |columns| == 1 then QuoteIdentifier(columns[0])
    else QuoteIdentifier(columns[0]) + (", " + ColumnList(columns[1..]))
  }

  function Create(): string {
    Three("CREATE", "UNIQUE", "INDEX")
  }

  function CreateIfNotExists(): string {
    Create() + Three("IF", "NOT", "EXISTS")
  }

  function AfterColumns(d: Definition): string {
    ")" + (if TrimSpace(d.predicateSQL) != "" then " WHERE " + TrimSpace(d.predicateSQL) else "")
  }

  /** Everything after the Create() words. */
  function Subject(d: Definition): string
    requires d.columns != []
  {
    QuoteIdentifier(d.index) + (" ON " + (QuoteIdentifier(d.table) + (" (" + (ColumnList(d.columns) + AfterColumns(d)))))
  }

  function BaseDDL(d: Definition): string
    requires d.columns != []
  {
    Create() + Subject(d)
  }

  /** strings.Replace with n = 1 */
  function ReplaceFirst(s: string, pattern: string, by': string): string
    requires pattern != ""
    decreases |s|
  {
    if pattern <= s then by' + s[|pattern|..]
    else if s == "" then ""
    else [s[0]] + ReplaceFirst(s[1..], pattern, by')
  }

  function ExecDDL(d: Definition): string
    requires d.columns != []
  {
    ReplaceFirst(BaseDDL(d), Create(), CreateIfNotExists())
  }

  // ----- Folding a statement

  /** A literal folds to itself when the next character is not its quote. */
  lemma {:induction false} LiteralEnds(body: string, q: char, rest: string)
    requires rest == "" || rest[0] != q
    ensures LiteralLen(Double(body, q) + ([q] + rest), q) == |Double(body, q)| + 1
    decreases |body|
  {
    var s := Double(body, q) + ([q] + rest);
    if body != "" {
      LiteralEnds(body[1..], q, rest);
      var tail := Double(body[1..], q) + ([q] + rest);
      if body[0] == q {
        assert s == [q, q] + tail && s[2..] == tail;
      } else {
        assert s == [body[0]] + tail && s[1..] == tail;
      }
    } else {
      assert s == [q] + rest;
    }
  }

  lemma {:induction false} FoldLiteral(body: string, q: char, rest: string)
    requires QuoteMark(q) && (rest == "" || rest[0] != q)
    ensures Fold(Quoted(body, q) + rest) == Quoted(body, q) + Fold(rest)
  {
    var literal := Quoted(body, q);
    var s := literal + rest;
    assert s[1..] == Double(body, q) + ([q] + rest);
    LiteralEnds(body, q, rest);
    assert TokenLen(s) == |literal|;
    assert s[..|literal|] == literal && s[|literal|..] == rest;
  }

  /** Letters and punctuation fold one by one. */
  predicate Plain(s: string) {
    forall i :: 0 <= i < |s| ==> !QuoteMark(s[i]) && !Blank(s[i])
  }

  lemma {:induction false} FoldPlain(s: string, rest: string)
    requires Plain(s)
    ensures Fold(s + rest) == LowerAll(s) + Fold(rest)
    decreases |s|
  {
    if s == "" {
      assert s + rest == rest;
    } else {
      hide Fold;
      FoldPlain(s[1..], rest);
      FoldFirst(s[0], s[1..] + rest);
      assert s == [s[0]] + s[1..];
      Assoc([s[0]], s[1..], rest);
      assert LowerAll(s) == [Lower(s[0])] + LowerAll(s[1..]);
      hide LowerAll;
      Assoc([Lower(s[0])], LowerAll(s[1..]), Fold(rest));
    }
  }

  lemma {:induction false} FoldFirst(c: char, rest: string)
    requires !QuoteMark(c) && !Blank(c)
    ensures Fold([c] + rest) == [Lower(c)] + Fold(rest)
  {
    var t := [c] + rest;
    assert t[1..] == rest && t[..1] == [c];
  }

  /** One space, followed by something that is not blank. */
  lemma {:induction false} FoldSpace(rest: string)
    requires rest == "" || !Blank(rest[0])
    ensures Fold(" " + rest) == " " + Fold(rest)
  {
    var t := " " + rest;
    assert t[1..] == rest;
    assert BlankLen(rest) == 0 && BlankLen(t) == 1;
    assert TokenLen(t) == 1 && t[..1] == " ";
  }

  /** A word and the space after it. */
  lemma {:induction false} FoldWord(word: string, rest: string)
    requires Plain(word) && rest != "" && !Blank(rest[0])
    ensures Fold(word + (" " + rest)) == LowerAll(word) + (" " + Fold(rest))
  {
    FoldPlain(word, " " + rest);
    FoldSpace(rest);
  }

  /** A keyword between two spaces. */
  lemma {:induction false} FoldKeyword(word: string, rest: string)
    requires Plain(word) && word != "" && rest != "" && !Blank(rest[0])
    ensures Fold(" " + (word + (" " + rest))) == " " + (LowerAll(word) + (" " + Fold(rest)))
  {
    FoldWord(word, rest);
    FoldSpace(word + (" " + rest));
  }

  lemma {:induction false} FoldComma(rest: string)
    requires rest != "" && !Blank(rest[0])
    ensures Fold(", " + rest) == ", " + Fold(rest)
  {
    hide Fold;
    FoldWord(",", rest);
    assert LowerAll(",") == ",";
    assert ", " + rest == "," + (" " + rest) && ", " + Fold(rest) == "," + (" " + Fold(rest));
  }

  lemma {:induction false} FoldColumns(columns: seq<string>, rest: string)
    requires columns != [] && (rest == "" || rest[0] != '"')
    ensures Fold(ColumnList(columns) + rest) == ColumnList(columns) + Fold(rest)
    decreases |columns|
  {
    if |columns| == 1 {
      FoldLiteral(TrimSpace(columns[0]), '"', rest);
    } else {
      var first, tail := QuoteIdentifier(columns[0]), ColumnList(columns[1..]);
      UnfoldColumns(columns);
      ListStartsQuoted(columns[1..]);
      FoldColumns(columns[1..], rest);
      hide Fold, ColumnList, Quoted;
      FoldComma(tail + rest);
      FoldLiteral(TrimSpace(columns[0]), '"', ", " + (tail + rest));
      hide QuoteIdentifier;
      ThreeParts(first, ", ", tail, rest);
      ThreeParts(first, ", ", tail, Fold(rest));
    }
  }

  lemma ThreeParts(a: string, b: string, c: string, d: string)
    ensures (a + (b + c)) + d == a + (b + (c + d))
  {
  }

  lemma UnfoldColumns(columns: seq<string>)
    requires |columns| > 1
    ensures ColumnList(columns) == Quoted(TrimSpace(columns[0]), '"') + (", " + ColumnList(columns[1..]))
  {
  }

  lemma ListStartsQuoted(columns: seq<string>)
    requires columns != []
    ensures ColumnList(columns) != "" && ColumnList(columns)[0] == '"'
  {
  }

  function FoldedAfter(d: Definition): string {
    ")" + (if TrimSpace(d.predicateSQL) != "" then " where " + Fold(TrimSpace(d.predicateSQL)) else "")
  }

  function FoldedSubject(d: Definition): string
    requires d.columns != []
  {
    QuoteIdentifier(d.index) + (" on " + (QuoteIdentifier(d.table) + (" (" + (ColumnList(d.columns) + FoldedAfter(d)))))
  }

  lemma {:induction false} FoldWhere(p: string)
    requires p != "" && !Blank(p[0])
    ensures Fold(" WHERE " + p) == " where " + Fold(p)
  {
    hide Fold;
    FoldKeyword("WHERE", p);
    assert LowerAll("WHERE") == "where";
    assert " WHERE " + p == " " + ("WHERE" + (" " + p)) && " where " + Fold(p) == " " + ("where" + (" " + Fold(p)));
  }

  lemma {:induction false} FoldClose(clause: string)
    ensures Fold(")" + clause) == ")" + Fold(clause)
    ensures Fold("") == ""
  {
    FoldFirst(')', clause);
  }

  lemma {:induction false} FoldAfter(d: Definition)
    ensures Fold(AfterColumns(d)) == FoldedAfter(d)
  {
    var p := TrimSpace(d.predicateSQL);
    TrimmedEnds(d.predicateSQL);
    hide TrimSpace, Fold;
    FoldClose(if p != "" then " WHERE " + p else "");
    if p != "" {
      FoldWhere(p);
    }
  }

  lemma {:induction false} FoldSubject(d: Definition)
    requires d.columns != []
    ensures Fold(Subject(d)) == FoldedSubject(d)
  {
    FoldAfter(d);
    FoldColumns(d.columns, AfterColumns(d));
    hide Fold, ColumnList, TrimSpace, Quoted, FoldedAfter, AfterColumns;
    FoldNames(TrimSpace(d.index), TrimSpace(d.table), ColumnList(d.columns) + AfterColumns(d));
  }

  lemma {:induction false} FoldNames(index: string, table: string, rest: string)
    ensures Fold(Quoted(index, '"') + (" ON " + (Quoted(table, '"') + (" (" + rest))))
      == Quoted(index, '"') + (" on " + (Quoted(table, '"') + (" (" + Fold(rest))))
  {
    var open := " (" + rest;
    var named := Quoted(table, '"') + open;
    assert named[0] == '"';
    hide Fold, Quoted;
    FoldOpen(rest);
    FoldLiteral(table, '"', open);
    FoldOn(named);
    FoldLiteral(index, '"', " ON " + named);
  }

  lemma {:induction false} FoldOpen(rest: string)
    ensures Fold(" (" + rest) == " (" + Fold(rest)
  {
    hide Fold;
    FoldPlain("(", rest);
    FoldSpace("(" + rest);
    assert LowerAll("(") == "(";
    assert " (" + rest == " " + ("(" + rest) && " (" + Fold(rest) == " " + ("(" + Fold(rest));
  }

  lemma {:induction false} FoldOn(rest: string)
    requires rest != "" && !Blank(rest[0])
    ensures Fold(" ON " + rest) == " on " + Fold(rest)
  {
    hide Fold;
    FoldKeyword("ON", rest);
    assert LowerAll("ON") == "on";
    assert " ON " + rest == " " + ("ON" + (" " + rest)) && " on " + Fold(rest) == " " + ("on" + (" " + Fold(rest)));
  }

  /** A word without quotes or blanks, then one space. */
  lemma SplitThree(a: string, b: string, c: string, rest: string)
    ensures Three(a, b, c) + rest == a + (" " + (b + (" " + (c + (" " + rest)))))
  {
  }

  lemma {:induction false} FoldThree(a: string, b: string, c: string, rest: string)
    requires Plain(a) && Plain(b) && Plain(c) && b != "" && c != "" && rest != "" && !Blank(rest[0])
    ensures Fold(Three(a, b, c) + rest) == Three(LowerAll(a), LowerAll(b), LowerAll(c)) + Fold(rest)
  {
    hide Fold, Three;
    FoldWord(c, rest);
    FoldWord(b, c + (" " + rest));
    FoldWord(a, b + (" " + (c + (" " + rest))));
    SplitThree(a, b, c, rest);
    SplitThree(LowerAll(a), LowerAll(b), LowerAll(c), Fold(rest));
  }

  lemma {:induction false} FoldCreate(rest: string)
    requires rest != "" && !Blank(rest[0])
    ensures Fold(Create() + rest) == NoMarker() + Fold(rest)
  {
    hide Fold, Three;
    FoldThree("CREATE", "UNIQUE", "INDEX", rest);
    assert LowerAll("CREATE") == "create" && LowerAll("UNIQUE") == "unique" && LowerAll("INDEX") == "index";
  }

  lemma {:induction false} FoldMarker(rest: string)
    requires rest != "" && !Blank(rest[0])
    ensures Fold(CreateIfNotExists() + rest) == WithMarker() + Fold(rest)
  {
    var marked := Three("IF", "NOT", "EXISTS") + rest;
    assert marked[0] == 'I';
    hide Fold, Three, Create, NoMarker;
    FoldThree("IF", "NOT", "EXISTS", rest);
    assert LowerAll("IF") == "if" && LowerAll("NOT") == "not" && LowerAll("EXISTS") == "exists";
    FoldCreate(marked);
    Assoc(Create(), Three("IF", "NOT", "EXISTS"), rest);
    Assoc(NoMarker(), Three("if", "not", "exists"), Fold(rest));
  }

  // ----- Normal forms of the two statements

  /** Normalisation keeps the ends, up to case. */
  lemma {:induction false} FoldEnd(s: string)
    requires s != "" && !IsSpace(s[|s| - 1])
    ensures Fold(s) != "" && !IsSpace(Fold(s)[|Fold(s)| - 1])
    decreases |s|
  {
    var n := TokenLen(s);
    if n < |s| {
      assert s[n..][|s[n..]| - 1] == s[|s| - 1];
      FoldEnd(s[n..]);
    } else {
      assert s[..n] == s && s[n..] == "";
      assert Blank(s[0]) ==> AllBlank(s, BlankLen(s)) by { BlankRun(s); }
    }
  }

  predicate AllBlank(s: string, n: nat) {
    n <= |s| && forall i :: 0 <= i < n ==> Blank(s[i])
  }

  lemma {:induction false} BlankRun(s: string)
    ensures AllBlank(s, BlankLen(s))
    decreases |s|
  {
    if s != "" && Blank(s[0]) {
      BlankRun(s[1..]);
      assert forall i :: 1 <= i < |s| ==> s[i] == s[1..][i - 1];
    }
  }

  lemma {:induction false} SubjectEnds(d: Definition)
    requires d.columns != []
    ensures Subject(d) != "" && Subject(d)[0] == '"' && !IsSpace(Subject(d)[|Subject(d)| - 1])
    ensures FoldedSubject(d) != "" && FoldedSubject(d)[0] == '"'
  {
    TrimmedEnds(d.predicateSQL);
    hide TrimSpace, ColumnList, Double;
    var after := AfterColumns(d);
    assert !IsSpace(after[|after| - 1]);
    assert Subject(d)[|Subject(d)| - 1] == after[|after| - 1];
  }

  lemma {:induction false} NormalizedPlain(f: string)
    requires f != "" && f[0] == '"' && !IsSpace(f[|f| - 1])
    ensures StripMarker(TrimSpace(NoMarker() + f)) == NoMarker() + f
  {
    var norm := NoMarker() + f;
    assert norm[0] == 'c' && Three("if", "not", "exists")[0] == 'i';
    hide Three, NoMarker;
    assert norm[|NoMarker()|] == '"' && norm[|norm| - 1] == f[|f| - 1];
    assert WithMarker()[|NoMarker()|] == 'i';
    TrimsToItself(norm);
  }

  lemma {:induction false} NormalizedMarked(f: string)
    requires f != "" && f[0] == '"' && !IsSpace(f[|f| - 1])
    ensures StripMarker(TrimSpace(WithMarker() + f)) == NoMarker() + f
  {
    var norm := WithMarker() + f;
    assert norm[0] == 'c';
    hide WithMarker, NoMarker;
    assert norm[|norm| - 1] == f[|f| - 1];
    TrimsToItself(norm);
    assert norm[|WithMarker()|..] == f;
  }

  /** Both forms of CREATE normalise to the same text. */
  lemma {:induction false} NormalizeCreate(subject: string)
    requires subject != "" && subject[0] == '"' && !IsSpace(subject[|subject| - 1])
    requires Fold(subject) != "" && Fold(subject)[0] == '"'
    ensures Normalize(Create() + subject) == NoMarker() + Fold(subject)
    ensures Normalize(CreateIfNotExists() + subject) == NoMarker() + Fold(subject)
  {
    hide StripMarker, TrimSpace, NoMarker, WithMarker, Create, CreateIfNotExists;
    FoldEnd(subject);
    hide Fold;
    FoldCreate(subject);
    NormalizedPlain(Fold(subject));
    FoldMarker(subject);
    NormalizedMarked(Fold(subject));
  }

  lemma {:induction false} NormalizeBase(d: Definition)
    requires d.columns != []
    ensures Normalize(BaseDDL(d)) == NoMarker() + FoldedSubject(d)
  {
    SubjectEnds(d);
    FoldSubject(d);
    hide Subject, FoldedSubject, Normalize, NoMarker, Create, Fold;
    NormalizeCreate(Subject(d));
  }

  lemma {:induction false} ExecForm(d: Definition)
    requires d.columns != []
    ensures ExecDDL(d) == CreateIfNotExists() + Subject(d)
  {
    hide Subject;
    var base := BaseDDL(d);
    assert Create() <= base && base[|Create()|..] == Subject(d);
  }

  lemma {:induction false} NormalizeExec(d: Definition)
    requires d.columns != []
    ensures Normalize(ExecDDL(d)) == NoMarker() + FoldedSubject(d)
  {
    SubjectEnds(d);
    FoldSubject(d);
    ExecForm(d);
    hide Subject, FoldedSubject, Normalize, NoMarker, CreateIfNotExists, Fold, ExecDDL;
    NormalizeCreate(Subject(d));
  }

  /** The statement that is run is recognised as the one that is compared. */
  lemma ExecEquivalentToBase(d: Definition)
    requires d.columns != []
    ensures SqlEquivalent(ExecDDL(d), BaseDDL(d))
  {
    NormalizeBase(d);
    NormalizeExec(d);
  }

  // ----- Reading a normal form back

  lemma {:induction false} DoubleInjective(a: string, b: string, q: char)
    requires Double(a, q) == Double(b, q)
    ensures a == b
    decreases |a|
  {
    if a != "" && b != "" {
      var da, db := Double(a[1..], q), Double(b[1..], q);
      assert Double(a, q)[0] == a[0] && Double(b, q)[0] == b[0];
      assert Double(a, q)[if a[0] == q then 2 else 1..] == da;
      assert Double(b, q)[if b[0] == q then 2 else 1..] == db;
      DoubleInjective(a[1..], b[1..], q);
      assert a == [a[0]] + a[1..] && b == [b[0]] + b[1..];
    }
  }

  /** Where a quoted name ends is determined by the text. */
  lemma {:induction false} QuotedPrefix(a: string, b: string, q: char, x: string, y: string)
    requires Quoted(a, q) + x == Quoted(b, q) + y
    requires (x == "" || x[0] != q) && (y == "" || y[0] != q)
    ensures a == b && x == y
  {
    LiteralEnds(a, q, x);
    LiteralEnds(b, q, y);
    var s, t := Quoted(a, q) + x, Quoted(b, q) + y;
    assert s[1..] == Double(a, q) + ([q] + x) && t[1..] == Double(b, q) + ([q] + y);
    var n := |Double(a, q)|;
    assert s[1..][..n] == Double(a, q) && t[1..][..n] == Double(b, q);
    assert s[n + 2..] == x && t[n + 2..] == y;
    DoubleInjective(a, b, q);
  }

  predicate SameColumns(a: seq<string>, b: seq<string>) {
    |a| == |b| && forall i :: 0 <= i < |a| ==> TrimSpace(a[i]) == TrimSpace(b[i])
  }

  /** What follows the first column. */
  function AfterFirst(columns: seq<string>, rest: string): string
    requires columns != []
  {
    if |columns| == 1 then rest else ", " + (ColumnList(columns[1..]) + rest)
  }

  lemma {:induction false} ListSplits(columns: seq<string>, rest: string)
    requires columns != []
    ensures ColumnList(columns) + rest == Quoted(TrimSpace(columns[0]), '"') + AfterFirst(columns, rest)
  {
    if |columns| > 1 {
      UnfoldColumns(columns);
      hide ColumnList, Quoted, TrimSpace;
      ThreeParts(Quoted(TrimSpace(columns[0]), '"'), ", ", ColumnList(columns[1..]), rest);
    }
  }

  lemma {:induction false} AfterFirstRead(columns: seq<string>, rest: string)
    requires columns != [] && rest != "" && rest[0] == ')'
    ensures AfterFirst(columns, rest) != ""
    ensures AfterFirst(columns, rest)[0] == if |columns| == 1 then ')' else ','
    ensures |columns| > 1 ==> AfterFirst(columns, rest)[2..] == ColumnList(columns[1..]) + rest
  {
    hide ColumnList;
  }

  lemma {:induction false} ColumnsPrefix(a: seq<string>, b: seq<string>, x: string, y: string)
    requires a != [] && b != [] && ColumnList(a) + x == ColumnList(b) + y
    requires x != "" && x[0] == ')' && y != "" && y[0] == ')'
    ensures SameColumns(a, b) && x == y
    decreases |a|
  {
    hide ColumnList, TrimSpace, Quoted;
    ListSplits(a, x);
    ListSplits(b, y);
    AfterFirstRead(a, x);
    AfterFirstRead(b, y);
    hide AfterFirst;
    QuotedPrefix(TrimSpace(a[0]), TrimSpace(b[0]), '"', AfterFirst(a, x), AfterFirst(b, y));
    if |a| > 1 {
      ColumnsPrefix(a[1..], b[1..], x, y);
      assert forall i :: 1 <= i < |a| ==> a[i] == a[1..][i - 1] && b[i] == b[1..][i - 1];
    } else {
      assert AfterFirst(a, x) == x by { LastColumn(a, x); }
      assert AfterFirst(b, y) == y by { LastColumn(b, y); }
    }
  }

  lemma LastColumn(columns: seq<string>, rest: string)
    requires |columns| == 1
    ensures AfterFirst(columns, rest) == rest
  {
  }

  lemma {:induction false} SameList(a: seq<string>, b: seq<string>)
    requires a != [] && SameColumns(a, b)
    ensures ColumnList(a) == ColumnList(b)
    decreases |a|
  {
    hide TrimSpace;
    if |a| > 1 {
      SameList(a[1..], b[1..]);
    }
  }

  /** The definitions name the same index, table and columns, and their predicates
      read the same up to blanks and the case of unquoted letters. */
  predicate SameDefinition(d: Definition, e: Definition) {
    && TrimSpace(d.index) == TrimSpace(e.index) && TrimSpace(d.table) == TrimSpace(e.table)
    && SameColumns(d.columns, e.columns)
    && Fold(TrimSpace(d.predicateSQL)) == Fold(TrimSpace(e.predicateSQL))
  }

  lemma {:induction false} AfterDetermined(d: Definition, e: Definition)
    ensures FoldedAfter(d) == FoldedAfter(e)
        <==> Fold(TrimSpace(d.predicateSQL)) == Fold(TrimSpace(e.predicateSQL))
  {
    AfterForm(d);
    AfterForm(e);
    hide TrimSpace, Fold, FoldedAfter;
    WhereInjective(Fold(TrimSpace(d.predicateSQL)), Fold(TrimSpace(e.predicateSQL)));
  }

  lemma {:induction false} AfterForm(d: Definition)
    ensures var f := Fold(TrimSpace(d.predicateSQL));
      FoldedAfter(d) == if f == "" then ")" else ")" + (" where " + f)
  {
    var p := TrimSpace(d.predicateSQL);
    TrimmedEnds(d.predicateSQL);
    hide TrimSpace;
    if p != "" {
      FoldEnd(p);
    } else {
      assert Fold("") == "";
    }
  }

  lemma WhereInjective(f: string, g: string)
    ensures ")" + (" where " + f) == ")" + (" where " + g) ==> f == g
    ensures ")" + (" where " + f) != ")"
  {
    var a, b := ")" + (" where " + f), ")" + (" where " + g);
    assert a[8..] == f && b[8..] == g;
  }

  lemma {:induction false} SubjectDetermined(d: Definition, e: Definition)
    requires d.columns != [] && e.columns != []
    requires FoldedSubject(d) == FoldedSubject(e)
    ensures SameDefinition(d, e)
  {
    AfterDetermined(d, e);
    var afterD, afterE := FoldedAfter(d), FoldedAfter(e);
    var listD, listE := ColumnList(d.columns) + afterD, ColumnList(e.columns) + afterE;
    var tableD := QuoteIdentifier(d.table) + (" (" + listD);
    var tableE := QuoteIdentifier(e.table) + (" (" + listE);
    var restD, restE := " on " + tableD, " on " + tableE;
    assert afterD[0] == ')' && afterE[0] == ')';
    hide FoldedAfter, ColumnList, TrimSpace, Fold, SameColumns;
    QuotedPrefix(TrimSpace(d.index), TrimSpace(e.index), '"', restD, restE);
    assert restD[4..] == tableD && restE[4..] == tableE;
    QuotedPrefix(TrimSpace(d.table), TrimSpace(e.table), '"', " (" + listD, " (" + listE);
    assert (" (" + listD)[2..] == listD && (" (" + listE)[2..] == listE;
    ColumnsPrefix(d.columns, e.columns, afterD, afterE);
  }

  /** Two built statements compare equal exactly when they define the same index. */
  lemma {:induction false} BaseIdentity(d: Definition, e: Definition)
    requires d.columns != [] && e.columns != []
    ensures SqlEquivalent(BaseDDL(d), BaseDDL(e)) <==> SameDefinition(d, e)
  {
    NormalizeBase(d);
    NormalizeBase(e);
    var x, y := NoMarker() + FoldedSubject(d), NoMarker() + FoldedSubject(e);
    assert x[|NoMarker()|..] == FoldedSubject(d) && y[|NoMarker()|..] == FoldedSubject(e);
    if SameDefinition(d, e) {
      AfterDetermined(d, e);
      SameList(d.columns, e.columns);
      assert FoldedSubject(d) == FoldedSubject(e);
    }
    if FoldedSubject(d) == FoldedSubject(e) {
      SubjectDetermined(d, e);
    }
  }

  // ----- Literals keep their spelling

  /** Reading from the start, some token ends after `k` characters: position `k` is
      outside every literal. */
  ghost predicate Boundary(s: string, k: nat)
    decreases k
  {
    k == 0 || (s != "" && TokenLen(s) <= k && Boundary(s[TokenLen(s)..], k - TokenLen(s)))
  }

  ghost function FoldTo(s: string, k: nat): string
    requires Boundary(s, k)
    decreases k
  {
    if k == 0 then "" else TokenForm(s[..TokenLen(s)]) + FoldTo(s[TokenLen(s)..], k - TokenLen(s))
  }

  lemma {:induction false} FoldSplits(s: string, k: nat)
    requires k <= |s| && Boundary(s, k)
    ensures Fold(s) == FoldTo(s, k) + Fold(s[k..])
    decreases k
  {
    hide Fold, TokenLen, TokenForm, FoldTo;
    if k == 0 {
      FoldToNothing(s);
    } else {
      var n := TokenLen(s);
      FoldFirstToken(s);
      FoldSplits(s[n..], k - n);
      FoldToStep(s, k);
      Slices(s, n, k);
      Assoc(TokenForm(s[..n]), FoldTo(s[n..], k - n), Fold(s[k..]));
    }
  }

  lemma FoldToNothing(s: string)
    ensures FoldTo(s, 0) == "" && FoldTo(s, 0) + Fold(s[0..]) == Fold(s)
  {
    assert s[0..] == s;
  }

  lemma FoldToStep(s: string, k: nat)
    requires 0 < k && Boundary(s, k)
    ensures FoldTo(s, k) == TokenForm(s[..TokenLen(s)]) + FoldTo(s[TokenLen(s)..], k - TokenLen(s))
  {
  }

  /** The two texts agree up to and including position `m`. */
  predicate Agree(s: string, t: string, m: nat) {
    m < |s| && m < |t| && s[..m + 1] == t[..m + 1]
  }

  lemma {:induction false} AgreeAhead(s: string, t: string, m: nat, n: nat)
    requires Agree(s, t, m) && n <= m
    ensures Agree(s[n..], t[n..], m - n) && s[..n] == t[..n]
    ensures forall i :: 0 <= i <= m ==> s[i] == t[i]
  {
    forall i | 0 <= i <= m ensures s[i] == t[i] {
      assert s[..m + 1][i] == t[..m + 1][i];
    }
  }

  lemma {:induction false} LiteralLocal(s: string, t: string, m: nat, q: char)
    requires Agree(s, t, m) && LiteralLen(s, q) <= m
    ensures LiteralLen(t, q) == LiteralLen(s, q)
    decreases |s|
  {
    AgreeAhead(s, t, m, 0);
    if s[0] != q {
      AgreeAhead(s, t, m, 1);
      LiteralLocal(s[1..], t[1..], m - 1, q);
    } else if s[1] == q {
      AgreeAhead(s, t, m, 2);
      LiteralLocal(s[2..], t[2..], m - 2, q);
    }
  }

  lemma {:induction false} BlankLocal(s: string, t: string, m: nat)
    requires Agree(s, t, m) && BlankLen(s) <= m
    ensures BlankLen(t) == BlankLen(s)
    decreases |s|
  {
    AgreeAhead(s, t, m, 0);
    if Blank(s[0]) {
      AgreeAhead(s, t, m, 1);
      BlankLocal(s[1..], t[1..], m - 1);
    }
  }

  lemma {:induction false} TokenLocal(s: string, t: string, m: nat)
    requires Agree(s, t, m) && TokenLen(s) <= m
    ensures TokenLen(t) == TokenLen(s)
  {
    AgreeAhead(s, t, m, 0);
    if QuoteMark(s[0]) {
      AgreeAhead(s, t, m, 1);
      LiteralLocal(s[1..], t[1..], m - 1, s[0]);
    } else if Blank(s[0]) {
      BlankLocal(s, t, m);
    }
  }

  /** What is read before position `k` does not depend on what comes after it. */
  lemma {:induction false} BoundaryLocal(s: string, t: string, k: nat)
    requires Boundary(s, k) && Agree(s, t, k)
    ensures Boundary(t, k) && FoldTo(t, k) == FoldTo(s, k)
    decreases k
  {
    hide TokenLen, TokenForm, Agree;
    assert s != "" && t != "" by { NotEmpty(s, t, k); }
    if k > 0 {
      var n := TokenLen(s);
      TokenLocal(s, t, k);
      AgreeAhead(s, t, k, n);
      BoundaryLocal(s[n..], t[n..], k - n);
    }
  }

  lemma NotEmpty(s: string, t: string, m: nat)
    requires Agree(s, t, m)
    ensures s != "" && t != ""
  {
  }

  lemma {:induction false} TrimLeftBefore(u: string, z: string)
    requires z != "" && !IsSpace(z[0])
    ensures TrimLeft(u + z) == TrimLeft(u) + z
    decreases |u|
  {
    if u == "" {
      assert u + z == z;
    } else if IsSpace(u[0]) {
      assert (u + z)[1..] == u[1..] + z;
      TrimLeftBefore(u[1..], z);
    }
  }

  lemma {:induction false} TrimRightAfter(z: string, w: string)
    requires z != "" && !IsSpace(z[|z| - 1])
    ensures TrimRight(z + w) == z + TrimRight(w)
    decreases |w|
  {
    if w == "" {
      assert z + w == z;
    } else if IsSpace(w[|w| - 1]) {
      assert (z + w)[..|z + w| - 1] == z + w[..|w| - 1];
      TrimRightAfter(z, w[..|w| - 1]);
    }
  }

  lemma {:induction false} TrimAround(u: string, literal: string, w: string)
    requires literal != "" && !IsSpace(literal[0]) && !IsSpace(literal[|literal| - 1])
    ensures TrimSpace(u + (literal + w)) == TrimLeft(u) + (literal + TrimRight(w))
  {
    hide IsSpace;
    TrimLeftBefore(u, literal + w);
    var z := TrimLeft(u) + literal;
    assert z[|z| - 1] == literal[|literal| - 1];
    TrimRightAfter(z, w);
    hide TrimLeft, TrimRight;
    Assoc(TrimLeft(u), literal, w);
    Assoc(TrimLeft(u), literal, TrimRight(w));
  }

  predicate NoQuotes(s: string) {
    forall i :: 0 <= i < |s| ==> !QuoteMark(s[i])
  }

  lemma NoQuotesConcat(s: string, t: string)
    requires NoQuotes(s) && NoQuotes(t)
    ensures NoQuotes(s + t)
  {
  }

  lemma {:induction false} MarkerHasNoQuotes()
    ensures NoQuotes(WithMarker())
  {
    assert NoQuotes(Three("create", "unique", "index")) && NoQuotes(Three("if", "not", "exists"));
    NoQuotesConcat(NoMarker(), Three("if", "not", "exists"));
  }

  /** The marker is looked for only before the first quote. */
  lemma {:induction false} StripBefore(u: string, z: string)
    requires z != "" && QuoteMark(z[0])
    ensures StripMarker(u + z) == StripMarker(u) + z
  {
    hide WithMarker, NoMarker;
    var m := WithMarker();
    if m <= u + z && |m| > |u| {
      assert (u + z)[|u|] == m[|u|];
      MarkerHasNoQuotes();
      assert false;
    }
    if m <= u + z {
      assert (u + z)[|m|..] == u[|m|..] + z;
      Assoc(NoMarker(), u[|m|..], z);
      assert m == (u + z)[..|m|] == u[..|m|];
    }
  }

  lemma {:induction false} Sandwich(u: string, x: string, y: string, w: string)
    requires u + (x + w) == u + (y + w)
    ensures x == y
  {
    assert (u + (x + w))[|u|..] == x + w && (u + (y + w))[|u|..] == y + w;
    assert (x + w)[..|x|] == x && (y + w)[..|y|] == y;
  }

  ghost function AroundLiteral(a: string, q: char, body: string, b: string): string {
    a + (Quoted(body, q) + b)
  }

  lemma {:induction false} NormalizeAround(a: string, q: char, x: string, b: string)
    requires QuoteMark(q) && (b == "" || b[0] != q)
    requires Boundary(AroundLiteral(a, q, x, b), |a|)
    ensures Normalize(AroundLiteral(a, q, x, b)) ==
      StripMarker(TrimLeft(FoldTo(AroundLiteral(a, q, x, b), |a|))) + (Quoted(x, q) + TrimRight(Fold(b)))
  {
    var s := AroundLiteral(a, q, x, b);
    var u := FoldTo(s, |a|);
    assert s[|a|..] == Quoted(x, q) + b;
    FoldSplits(s, |a|);
    FoldLiteral(x, q, b);
    hide Fold, Boundary, StripMarker, TrimSpace, TrimLeft, TrimRight, AroundLiteral;
    TrimAround(u, Quoted(x, q), Fold(b));
    StripBefore(TrimLeft(u), Quoted(x, q) + TrimRight(Fold(b)));
  }

  /** Statements that differ inside one terminated literal, wherever it stands, are
      equivalent only if the literals are the same, letter for letter. */
  lemma {:induction false} LiteralsAreExact(a: string, q: char, x: string, y: string, b: string)
    requires QuoteMark(q) && (b == "" || b[0] != q)
    requires Boundary(AroundLiteral(a, q, x, b), |a|)
    ensures SqlEquivalent(AroundLiteral(a, q, x, b), AroundLiteral(a, q, y, b)) <==> x == y
  {
    var s, t := AroundLiteral(a, q, x, b), AroundLiteral(a, q, y, b);
    assert Agree(s, t, |a|) by {
      assert s[..|a| + 1] == a + [q] && t[..|a| + 1] == a + [q];
    }
    BoundaryLocal(s, t, |a|);
    NormalizeAround(a, q, x, b);
    NormalizeAround(a, q, y, b);
    hide AroundLiteral, FoldTo, StripMarker, TrimLeft, TrimRight, Fold, Normalize, Quoted, Boundary;
    var u, w := StripMarker(TrimLeft(FoldTo(s, |a|))), TrimRight(Fold(b));
    if u + (Quoted(x, q) + w) == u + (Quoted(y, q) + w) {
      Sandwich(u, Quoted(x, q), Quoted(y, q), w);
      assert Quoted(x, q) + "" == Quoted(y, q) + "";
      QuotedPrefix(x, y, q, "", "");
    }
  }

  // ----- One more blank

  /** The statement without the blank before its column list. */
  function TightSubject(d: Definition): string
    requires d.columns != []
  {
    QuoteIdentifier(d.index) + (" ON " + (QuoteIdentifier(d.table) + ("(" + (ColumnList(d.columns) + AfterColumns(d)))))
  }

  lemma {:induction false} FoldTightNames(index: string, table: string, rest: string)
    ensures Fold(Quoted(index, '"') + (" ON " + (Quoted(table, '"') + ("(" + rest))))
      == Quoted(index, '"') + (" on " + (Quoted(table, '"') + ("(" + Fold(rest))))
  {
    var named := Quoted(table, '"') + ("(" + rest);
    assert named[0] == '"';
    hide Fold, Quoted;
    FoldFirst('(', rest);
    FoldLiteral(table, '"', "(" + rest);
    FoldOn(named);
    FoldLiteral(index, '"', " ON " + named);
  }

  lemma {:induction false} TightEnds(d: Definition)
    requires d.columns != []
    ensures TightSubject(d) != "" && TightSubject(d)[0] == '"' && !IsSpace(TightSubject(d)[|TightSubject(d)| - 1])
  {
    TrimmedEnds(d.predicateSQL);
    hide TrimSpace, ColumnList, Double;
    var after := AfterColumns(d);
    assert !IsSpace(after[|after| - 1]);
    assert TightSubject(d)[|TightSubject(d)| - 1] == after[|after| - 1];
  }

  /** Blanks are collapsed, not ignored: whatever the definition, a stored statement that
      lacks the blank before the column list is not equivalent to the one built. */
  lemma {:induction false} TightDiffers(d: Definition)
    requires d.columns != []
    ensures !SqlEquivalent(Create() + TightSubject(d), BaseDDL(d))
  {
    var list := ColumnList(d.columns) + AfterColumns(d);
    FoldTightNames(TrimSpace(d.index), TrimSpace(d.table), list);
    FoldAfter(d);
    FoldColumns(d.columns, AfterColumns(d));
    TightEnds(d);
    hide Fold, ColumnList, TrimSpace, Quoted, FoldedAfter, AfterColumns, Create, NoMarker;
    var tight := Fold(TightSubject(d));
    assert |FoldedSubject(d)| == |tight| + 1;
    FoldedQuote(d);
    NormalizeBase(d);
    hide Normalize, FoldedSubject, TightSubject;
    NormalizeCreate(TightSubject(d));
  }

  lemma FoldedQuote(d: Definition)
    requires d.columns != []
    ensures var s := Fold(TightSubject(d)); s != "" && s[0] == '"'
  {
    var subject := TightSubject(d);
    hide ColumnList, TrimSpace, AfterColumns;
    FoldTightNames(TrimSpace(d.index), TrimSpace(d.table), ColumnList(d.columns) + AfterColumns(d));
    hide Fold;
  }

  lemma {:induction false} TrimLeftSome(u: string, z: string)
    requires !AllSpace(u)
    ensures TrimLeft(u + z) == TrimLeft(u) + z && TrimLeft(u) != ""
    decreases |u|
  {
    if IsSpace(u[0]) {
      assert (u + z)[1..] == u[1..] + z;
      assert forall i :: 1 <= i < |u| ==> u[i] == u[1..][i - 1];
      TrimLeftSome(u[1..], z);
    }
  }

  lemma {:induction false} TrimRightSome(z: string, w: string)
    requires !AllSpace(w)
    ensures TrimRight(z + w) == z + TrimRight(w) && TrimRight(w) != ""
    decreases |w|
  {
    if IsSpace(w[|w| - 1]) {
      var init := w[..|w| - 1];
      SpaceSplit(init, [w[|w| - 1]]);
      assert w == init + [w[|w| - 1]];
      hide IsSpace, AllSpace;
      TrimRightSome(z, init);
      assert (z + w)[..|z + w| - 1] == z + init;
    }
  }

  lemma {:induction false} TrimAfter(z: string, w: string)
    requires AllSpace(w)
    ensures TrimSpace(z + w) == TrimSpace(z)
  {
    hide IsSpace;
    if AllSpace(z) {
      TrimLeftAll(z, w);
      TrimLeftAll(w, "");
      TrimLeftAll(z, "");
      assert w + "" == w && z + "" == z;
    } else {
      TrimLeftSome(z, w);
      TrimRightAll(TrimLeft(z), w);
    }
  }

  /** White space counts between two texts only if there is something else on both sides. */
  lemma {:induction false} TrimBetween(u: string, gap: string, w: string)
    requires AllSpace(gap)
    ensures AllSpace(u) || AllSpace(w) ==> TrimSpace(u + (gap + w)) == TrimSpace(u + w)
    ensures !AllSpace(u) && !AllSpace(w) ==> |TrimSpace(u + (gap + w))| == |TrimSpace(u + w)| + |gap|
  {
    hide IsSpace;
    if AllSpace(u) {
      TrimLeftAll(u, gap + w);
      TrimLeftAll(gap, w);
      TrimLeftAll(u, w);
    } else if AllSpace(w) {
      SpaceConcat(gap, w);
      TrimAfter(u, gap + w);
      TrimAfter(u, w);
    } else {
      TrimLeftSome(u, gap + w);
      TrimLeftSome(u, w);
      var x := TrimLeft(u);
      hide TrimLeft, AllSpace;
      TrimRightSome(x + gap, w);
      TrimRightSome(x, w);
      Assoc(x, gap, w);
      assert |x + gap + TrimRight(w)| == |x + TrimRight(w)| + |gap|;
    }
  }

  lemma SpaceConcat(a: string, b: string)
    requires AllSpace(a) && AllSpace(b)
    ensures AllSpace(a + b)
  {
    hide IsSpace;
  }

  lemma {:induction false} StripLength(a: string, b: string)
    requires |a| == |b| + 1
    ensures StripMarker(a) != StripMarker(b)
  {
    hide Three;
    assert |Three("if", "not", "exists")| == 14 by { ThreeLength(); }
    assert |WithMarker()| == |NoMarker()| + 14;
  }

  lemma ThreeLength()
    ensures |Three("if", "not", "exists")| == 14
  {
  }

  // A blank read after a token

  lemma {:induction false} FoldOneBlank(rest: string)
    requires rest != ""
    ensures Fold(" " + rest) == (if Blank(rest[0]) then "" else " ") + Fold(rest)
  {
    if Blank(rest[0]) {
      var s := " " + rest;
      assert s[1..] == rest;
      var n := BlankLen(rest);
      assert BlankLen(s) == n + 1;
      assert s[n + 1..] == rest[n..];
      FoldFirstToken(s);
      FoldFirstToken(rest);
      assert TokenForm(s[..n + 1]) == " " && TokenForm(rest[..n]) == " ";
      assert "" + Fold(rest) == Fold(rest);
    } else {
      FoldSpace(rest);
    }
  }

  /** A literal that ends before the text does, ends there whatever follows but its quote. */
  lemma {:induction false} LiteralStop(s: string, t: string, m: nat, q: char)
    requires LiteralLen(s, q) == m < |s| && m < |t| && s[..m] == t[..m] && t[m] != q
    ensures LiteralLen(t, q) == m
    decreases |s|
  {
    assert m > 0 ==> s[0] == s[..m][0] == t[..m][0] == t[0];
    if s[0] != q {
      assert s[1..][..m - 1] == s[..m][1..] == t[..m][1..] == t[1..][..m - 1];
      LiteralStop(s[1..], t[1..], m - 1, q);
    } else if |s| > 1 && s[1] == q {
      assert s[1] == s[..m][1] == t[..m][1] == t[1];
      assert s[2..][..m - 2] == s[..m][2..] == t[..m][2..] == t[2..][..m - 2];
      LiteralStop(s[2..], t[2..], m - 2, q);
    }
  }

  lemma {:induction false} BlankMore(s: string, k: nat)
    requires BlankLen(s) == k < |s|
    ensures BlankLen(s[..k] + (" " + s[k..])) == k + 1
    decreases |s|
  {
    var t := s[..k] + (" " + s[k..]);
    if k == 0 {
      assert t == " " + s && t[1..] == s;
    } else {
      assert s[1..][k - 1..] == s[k..];
      assert t[1..] == s[1..][..k - 1] + (" " + s[1..][k - 1..]);
      BlankMore(s[1..], k - 1);
    }
  }

  function WithBlank(s: string, k: nat): string
    requires k <= |s|
  {
    s[..k] + (" " + s[k..])
  }

  predicate BesideBlank(s: string, k: nat)
    requires k <= |s|
  {
    (k > 0 && Blank(s[k - 1])) || (k < |s| && Blank(s[k]))
  }

  lemma {:induction false} WithBlankTail(s: string, k: nat, n: nat)
    requires n <= k <= |s|
    ensures WithBlank(s, k)[..n] == s[..n] && WithBlank(s, k)[n..] == WithBlank(s[n..], k - n)
    ensures k < |s| ==> n <= k && (n < k ==> BesideBlank(s[n..], k - n) == BesideBlank(s, k))
  {
    assert s[n..][..k - n] == s[n..k] && s[n..][k - n..] == s[k..];
  }

  /** The token before the blank is the same with it, unless it is a run of blanks that
      grows. */
  lemma {:induction false} TokenKept(s: string, k: nat)
    requires 0 < k < |s| && TokenLen(s) <= k
    ensures TokenLen(WithBlank(s, k)) == if TokenLen(s) == k && Blank(s[0]) then k + 1 else TokenLen(s)
  {
    var t := WithBlank(s, k);
    if TokenLen(s) < k {
      assert s[..k] == t[..k];
      TokenLocal(s, t, k - 1);
    } else if QuoteMark(s[0]) {
      assert s[1..][..k - 1] == s[..k][1..] == t[..k][1..] == t[1..][..k - 1];
      LiteralStop(s[1..], t[1..], k - 1, s[0]);
    } else if Blank(s[0]) {
      BlankMore(s, k);
    }
  }

  /** The last character of a whole token is blank only in a run of blanks. */
  lemma {:induction false} TokenLast(s: string, k: nat)
    requires 0 < k < |s| && TokenLen(s) == k
    ensures Blank(s[k - 1]) <==> Blank(s[0])
    ensures Blank(s[0]) ==> !Blank(s[k])
  {
    if QuoteMark(s[0]) {
      LiteralLast(s[1..], s[0]);
      assert s[1..][k - 2] == s[k - 1];
    } else if Blank(s[0]) {
      BlankRun(s);
      BlankStops(s);
    }
  }

  lemma {:induction false} LiteralLast(s: string, q: char)
    requires LiteralLen(s, q) < |s|
    ensures LiteralLen(s, q) > 0 && s[LiteralLen(s, q) - 1] == q
    decreases |s|
  {
    if s[0] != q {
      LiteralLast(s[1..], q);
    } else if |s| > 1 && s[1] == q {
      LiteralLast(s[2..], q);
    }
  }

  lemma {:induction false} BlankStops(s: string)
    ensures BlankLen(s) < |s| ==> !Blank(s[BlankLen(s)])
    decreases |s|
  {
    if s != "" && Blank(s[0]) {
      BlankStops(s[1..]);
    }
  }

  /** A blank added at a boundary inside the text shows exactly when no blank is beside it. */
  lemma {:induction false} FoldWithBlank(s: string, k: nat)
    requires k < |s| && Boundary(s, k)
    ensures Fold(WithBlank(s, k)) == FoldTo(s, k) + ((if BesideBlank(s, k) then "" else " ") + Fold(s[k..]))
    decreases k
  {
    if k == 0 {
      FoldToNothing(s);
      FoldOneBlank(s);
      assert s[..0] + (" " + s[0..]) == " " + s && s[0..] == s;
      var rest := (if Blank(s[0]) then "" else " ") + Fold(s);
      assert "" + rest == rest;
    } else {
      var n := TokenLen(s);
      TokenKept(s, k);
      FoldToStep(s, k);
      FoldFirstToken(WithBlank(s, k));
      if n < k {
        WithBlankTail(s, k, n);
        BoundaryTail(s, k);
        FoldWithBlank(s[n..], k - n);
        Slices(s, n, k);
        hide Fold, FoldTo, TokenForm, TokenLen, BesideBlank, WithBlank;
        Assoc(TokenForm(s[..n]), FoldTo(s[n..], k - n), (if BesideBlank(s, k) then "" else " ") + Fold(s[k..]));
      } else {
        TokenLast(s, k);
        LastToken(s, k);
      }
    }
  }

  lemma BoundaryTail(s: string, k: nat)
    requires 0 < k && Boundary(s, k)
    ensures s != "" && TokenLen(s) <= k && Boundary(s[TokenLen(s)..], k - TokenLen(s))
  {
  }

  lemma {:induction false} LastToken(s: string, k: nat)
    requires 0 < k < |s| && TokenLen(s) == k
    requires Blank(s[k - 1]) <==> Blank(s[0])
    requires Blank(s[0]) ==> !Blank(s[k])
    requires var t := WithBlank(s, k);
      && TokenLen(t) == (if Blank(s[0]) then k + 1 else k)
      && Fold(t) == TokenForm(t[..TokenLen(t)]) + Fold(t[TokenLen(t)..])
    requires FoldTo(s, k) == TokenForm(s[..k]) + FoldTo(s[k..], 0)
    ensures Fold(WithBlank(s, k)) == FoldTo(s, k) + ((if BesideBlank(s, k) then "" else " ") + Fold(s[k..]))
  {
    hide Fold, FoldTo, TokenLen;
    FoldToNothing(s[k..]);
    AppendEmpty(TokenForm(s[..k]), Fold(s[k..]));
    if Blank(s[0]) {
      GrownBlanks(s, k);
    } else {
      hide TokenForm;
      BlankAfter(s, k);
      FoldOneBlank(s[k..]);
    }
  }

  lemma AppendEmpty(form: string, rest: string)
    ensures form + "" == form && "" + rest == rest
  {
  }

  lemma GrownBlanks(s: string, k: nat)
    requires 0 < k < |s| && Blank(s[0])
    ensures var t := WithBlank(s, k); t[k + 1..] == s[k..] && TokenForm(t[..k + 1]) == TokenForm(s[..k])
  {
  }

  lemma BlankAfter(s: string, k: nat)
    requires k <= |s|
    ensures WithBlank(s, k)[..k] == s[..k] && WithBlank(s, k)[k..] == " " + s[k..]
  {
  }

  lemma {:induction false} SingleToken(s: string)
    requires s != "" && TokenLen(s) == |s|
    ensures Fold(s) == TokenForm(s)
  {
    hide TokenLen, TokenForm;
    assert s[..|s|] == s && s[|s|..] == "" && Fold("") == "";
    FoldFirstToken(s);
    assert TokenForm(s) + "" == TokenForm(s);
  }

  lemma {:induction false} FoldBlank()
    ensures Fold(" ") == " "
  {
    var nothing := "";
    assert Fold(nothing) == "";
    hide Fold;
    FoldSpace(nothing);
    assert " " + nothing == " ";
  }

  /** At the end of the text it is trimmed again, even inside an unfinished literal. */
  lemma {:induction false} FoldBlankAtEnd(s: string)
    ensures Fold(s + " ") == Fold(s) || Fold(s + " ") == Fold(s) + " "
    decreases |s|
  {
    if s == "" {
      FoldBlank();
      assert s + " " == " " && Fold("") == "";
    } else if TokenLen(s) < |s| {
      KeptBeforeEnd(s);
      FoldBlankAtEnd(s[TokenLen(s)..]);
      hide Fold, TokenForm, TokenLen;
      var n := TokenLen(s);
      FoldFirstToken(s);
      FoldFirstToken(s + " ");
      Assoc(TokenForm(s[..n]), Fold(s[n..]), " ");
    } else {
      OnlyToken(s);
    }
  }

  lemma {:induction false} KeptBeforeEnd(s: string)
    requires s != "" && TokenLen(s) < |s|
    ensures var n, t := TokenLen(s), s + " ";
      TokenLen(t) == n && t[..n] == s[..n] && t[n..] == s[n..] + " "
  {
    var t := s + " ";
    assert s[..|s|] == t[..|s|];
    TokenLocal(s, t, |s| - 1);
    hide TokenLen;
  }

  lemma {:induction false} OnlyToken(s: string)
    requires s != "" && TokenLen(s) == |s|
    ensures Fold(s + " ") == Fold(s) || Fold(s + " ") == Fold(s) + " "
  {
    SingleToken(s);
    if QuoteMark(s[0]) {
      OnlyLiteral(s);
    } else if Blank(s[0]) {
      OnlyBlanks(s);
    } else {
      hide Fold, TokenForm, TokenLen;
      OnlyChar(s);
    }
  }

  lemma {:induction false} OnlyChar(s: string)
    requires s != "" && TokenLen(s) == |s| && !QuoteMark(s[0]) && !Blank(s[0])
    ensures Fold(s + " ") == TokenForm(s) + " "
  {
    assert s == [s[0]] && TokenForm(s) == [Lower(s[0])];
    hide Fold, TokenForm, TokenLen;
    FoldFirst(s[0], " ");
    FoldBlank();
  }

  lemma {:induction false} OnlyLiteral(s: string)
    requires s != "" && TokenLen(s) == |s| && QuoteMark(s[0])
    ensures Fold(s + " ") == TokenForm(s) + " "
  {
    var t := s + " ";
    assert t[1..] == s[1..] + " ";
    LiteralFull(s[1..], s[0]);
    assert TokenForm(s) == s;
    if TokenLen(t) == |t| {
      SingleToken(t);
    } else {
      assert t[..|s|] == s && t[|s|..] == " ";
      assert TokenLen(t) == |s|;
      hide TokenLen, TokenForm, Fold;
      FoldFirstToken(t);
      FoldBlank();
    }
  }

  lemma {:induction false} OnlyBlanks(s: string)
    requires s != "" && TokenLen(s) == |s| && Blank(s[0])
    ensures Fold(s + " ") == TokenForm(s)
  {
    BlankFull(s);
    SingleToken(s + " ");
  }

  lemma {:induction false} LiteralFull(s: string, q: char)
    requires LiteralLen(s, q) == |s|
    ensures LiteralLen(s + " ", q) >= |s|
    requires q != ' '
    decreases |s|
  {
    if s != "" {
      if s[0] != q {
        assert (s + " ")[1..] == s[1..] + " ";
        LiteralFull(s[1..], q);
      } else if |s| > 1 && s[1] == q {
        assert (s + " ")[2..] == s[2..] + " ";
        LiteralFull(s[2..], q);
      }
    }
  }

  lemma {:induction false} BlankFull(s: string)
    requires BlankLen(s) == |s|
    ensures BlankLen(s + " ") == |s| + 1
    decreases |s|
  {
    if s == "" {
      assert (s + " ")[1..] == "";
    } else {
      assert (s + " ")[1..] == s[1..] + " ";
      BlankFull(s[1..]);
    }
  }

  /** Folding keeps white space white and the rest not. */
  lemma {:induction false} FoldAllSpace(s: string)
    ensures AllSpace(Fold(s)) <==> AllSpace(s)
    decreases |s|
  {
    if s == "" {
      assert Fold(s) == "";
    } else {
      var n := TokenLen(s);
      FoldFirstToken(s);
      FoldAllSpace(s[n..]);
      TokenAllSpace(s);
      SpaceSplit(TokenForm(s[..n]), Fold(s[n..]));
      SpaceSplit(s[..n], s[n..]);
      assert s == s[..n] + s[n..];
    }
  }

  lemma SpaceSplit(a: string, b: string)
    ensures AllSpace(a + b) <==> AllSpace(a) && AllSpace(b)
  {
    hide IsSpace;
    if AllSpace(a + b) {
      assert forall i :: 0 <= i < |a| ==> a[i] == (a + b)[i];
      assert forall i :: 0 <= i < |b| ==> b[i] == (a + b)[|a| + i];
    }
  }

  lemma {:induction false} TokenAllSpace(s: string)
    requires s != ""
    ensures AllSpace(TokenForm(s[..TokenLen(s)])) <==> AllSpace(s[..TokenLen(s)])
  {
    var token := s[..TokenLen(s)];
    if Blank(s[0]) {
      BlankRun(s);
    } else {
      assert token[0] == s[0];
    }
  }

  lemma {:induction false} FoldToAllSpace(s: string, k: nat)
    requires k <= |s| && Boundary(s, k)
    ensures AllSpace(FoldTo(s, k)) <==> AllSpace(s[..k])
    decreases k
  {
    hide IsSpace, TokenForm, TokenLen, FoldTo;
    if k == 0 {
      FoldToNothing(s);
      assert s[..0] == "";
    } else {
      var n := TokenLen(s);
      BoundaryTail(s, k);
      FoldToStep(s, k);
      FoldToAllSpace(s[n..], k - n);
      TokenAllSpace(s);
      hide AllSpace, Boundary;
      SpaceSplit(TokenForm(s[..n]), FoldTo(s[n..], k - n));
      SpaceSplit(s[..n], s[n..][..k - n]);
      assert s[..k] == s[..n] + s[n..][..k - n];
    }
  }

  /** A blank added outside literals and tokens leaves a statement equivalent exactly when
      there is a blank beside it already, or nothing but white space on one side. */
  lemma {:induction false} ExtraBlank(s: string, k: nat)
    requires k <= |s| && Boundary(s, k)
    ensures SqlEquivalent(s, WithBlank(s, k)) <==> BesideBlank(s, k) || AllSpace(s[..k]) || AllSpace(s[k..])
  {
    if k == |s| {
      assert WithBlank(s, k) == s + " " && s[k..] == "";
      FoldBlankAtEnd(s);
      hide Fold, TrimSpace, StripMarker, WithBlank, BesideBlank;
      TrimAfter(Fold(s), " ");
    } else {
      hide Fold, FoldTo, TrimSpace, StripMarker, WithBlank, Boundary, BesideBlank, AllSpace;
      FoldSplits(s, k);
      FoldToAllSpace(s, k);
      FoldAllSpace(s[k..]);
      FoldWithBlank(s, k);
      var u, w := FoldTo(s, k), Fold(s[k..]);
      if BesideBlank(s, k) {
        AppendEmpty("", w);
      } else {
        GapShows(u, w);
      }
    }
  }

  lemma {:induction false} GapShows(u: string, w: string)
    ensures StripMarker(TrimSpace(u + w)) == StripMarker(TrimSpace(u + (" " + w))) <==> AllSpace(u) || AllSpace(w)
  {
    hide TrimSpace, StripMarker;
    OneSpace();
    hide AllSpace;
    TrimBetween(u, " ", w);
    if !AllSpace(u) && !AllSpace(w) {
      StripLength(TrimSpace(u + (" " + w)), TrimSpace(u + w));
    }
  }

  lemma OneSpace()
    ensures AllSpace(" ")
  {
  }

  // ----- Ensuring an index on SQLite

  datatype Outcome = Done | Rejected

  /** SQLite takes index names without regard to the case of ASCII letters. */
  ghost predicate NameTaken(stored: map<string, string>, name: string) {
    exists k :: k in stored && LowerAll(k) == LowerAll(name)
  }

  /** sqlite_master: the stored statement of each index, "" where it is NULL. */
  class IndexCatalog {
    var stored: map<string, string>

    constructor ()
      ensures stored == map[]
    {
      stored := map[];
    }

    /** CREATE UNIQUE INDEX IF NOT EXISTS; the statement is stored without that clause.
        `runs` is false when the database reports an error instead. */
    method Execute(name: string, ddl: string, runs: bool) returns (ok: bool)
      modifies this
      ensures ok == runs
      ensures stored == if runs && !NameTaken(old(stored), name) then old(stored)[name := ddl] else old(stored)
    {
      ok := runs;
      if runs && forall k :: k in stored ==> LowerAll(k) != LowerAll(name) {
        stored := stored[name := ddl];
      }
    }

    /** The comparison looks the name up letter for letter, so a definition under the same
        name in another case is neither compared nor replaced. */
    method EnsureUniqueIndexWhere(d: Definition, runs: bool) returns (r: Outcome)
      modifies this
      ensures var name := TrimSpace(d.index);
        && (r.Done? <==> Named(d) && runs && (
            name in old(stored) && old(stored)[name] != "" ==> SqlEquivalent(old(stored)[name], BaseDDL(d))))
        && stored == if r.Done? && !NameTaken(old(stored), name) then old(stored)[name := BaseDDL(d)] else old(stored)
    {
      hide Normalize, TrimSpace, Subject, Create, NameTaken;
      var indexName := TrimSpace(d.index);
      if indexName == "" || |d.columns| == 0 || TrimSpace(d.table) == "" {
        return Rejected;
      }
      for i := 0 to |d.columns|
        invariant forall j :: 0 <= j < i ==> TrimSpace(d.columns[j]) != ""
      {
        if TrimSpace(d.columns[i]) == "" {
          return Rejected;
        }
      }
      var base := BaseDDL(d);
      if indexName in stored && stored[indexName] != "" {
        var existing := NormalizeIndexDDL(stored[indexName]);
        var desired := NormalizeIndexDDL(base);
        if existing != desired {
          return Rejected;
        }
      }
      var ok := Execute(indexName, base, runs);
      r := if ok then Done else Rejected;
    }
  }

  /** After one definition has been ensured on a fresh name, ensuring another under that
      name succeeds exactly when the two define the same index, and changes nothing. */
  method EnsureTwice(catalog: IndexCatalog, d: Definition, e: Definition) returns (first: Outcome, second: Outcome)
    requires Named(d) && !NameTaken(catalog.stored, TrimSpace(d.index))
    requires Named(e) && TrimSpace(e.index) == TrimSpace(d.index)
    modifies catalog
    ensures first.Done? && (second.Done? <==> SameDefinition(d, e))
    ensures catalog.stored == old(catalog.stored)[TrimSpace(d.index) := BaseDDL(d)]
  {
    hide SqlEquivalent, SameDefinition, QuoteIdentifier;
    first := catalog.EnsureUniqueIndexWhere(d, true);
    second := catalog.EnsureUniqueIndexWhere(e, true);
    BaseIdentity(d, e);
    assert BaseDDL(d)[0] == 'C';
  }
}
