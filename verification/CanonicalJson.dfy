/** The canonical JSON text of a decoded value, and a reader that gives the value back. */
module CanonicalJson {
  import opened StringOrder

  /** What encoding/json decodes into `any`; a number stands for its shortest token. */
  datatype Tree =
    | Null
    | Bool(b: bool)
    | Num(token: string)
    | Str(s: string)
    | Arr(items: seq<Tree>)
    | Obj(fields: map<string, Tree>)

  predicate NumberChar(c: char) {
    '0' <= c <= '9' || c == '-' || c == '+' || c == '.' || c == 'e' || c == 'E'
  }

  predicate NumberToken(s: string) {
    s != "" && forall i :: 0 <= i < |s| ==> NumberChar(s[i])
  }

  predicate Valid(v: Tree) {
    match v
    case Num(token) => NumberToken(token)
    case Arr(items) => forall i :: 0 <= i < |items| ==> Valid(items[i])
    case Obj(fields) => forall k :: k in fields ==> Valid(fields[k])
    case _ => true
  }

  // ----- json.Marshal of strings and primitives

  function HexDigit(n: int): char
    requires 0 <= n < 16
  {
    "0123456789abcdef"[n]
  }

  function Hex4(n: int): string
    requires 0 <= n < 0x10000
  {
    [HexDigit(n / 0x1000), HexDigit(n / 0x100 % 0x10), HexDigit(n / 0x10 % 0x10), HexDigit(n % 0x10)]
  }

  function EscapeChar(c: char): string {
    if c == '"' then "\\\""
    else if c == '\\' then "\\\\"
    else if c == '\U{8}' then "\\b"
    else if c == '\U{C}' then "\\f"
    else if c == '\n' then "\\n"
    else if c == '\r' then "\\r"
    else if c == '\t' then "\\t"
    else if c < ' ' || c == '<' || c == '>' || c == '&' || c == '\U{2028}' || c == '\U{2029}' then
      "\\u" + Hex4(c as int)
    else [c]
  }

  function Escape(s: string): string
    decreases |s|
  {
    if s == "" then "" else EscapeChar(s[0]) + Escape(s[1..])
  }

  function Quote(s: string): string {
    "\"" + (Escape(s) + "\"")
  }

  function Primitive(v: Tree): string
    requires !v.Arr? && !v.Obj?
  {
    match v
    case Null => "null"
    case Bool(b) => if b then "true" else "false"
    case Num(token) => token
    case Str(s) => Quote(s)
  }

  // ----- The canonical text

  ghost function Canonical(v: Tree): string
    decreases v, 1
  {
    match v
    case Arr(items) => "[" + ItemsFrom(v, 0)
    case Obj(fields) => "{" + FieldsFrom(v, Ascending(fields.Keys), 0)
    case _ => Primitive(v)
  }

  /** From element `i`, with its comma, to the closing bracket. */
  ghost function ItemsFrom(v: Tree, i: nat): string
    requires v.Arr? && i <= |v.items|
    decreases v, 0, |v.items| - i, 1
  {
    if i == |v.items| then "]" else if i == 0 then ItemsAt(v, 0) else "," + ItemsAt(v, i)
  }

  ghost function ItemsAt(v: Tree, i: nat): string
    requires v.Arr? && i < |v.items|
    decreases v, 0, |v.items| - i, 0
  {
    Canonical(v.items[i]) + ItemsFrom(v, i + 1)
  }

  ghost function FieldsFrom(v: Tree, keys: seq<string>, i: nat): string
    requires v.Obj? && i <= |keys| && forall k :: k in keys ==> k in v.fields
    decreases v, 0, |keys| - i, 1
  {
    if i == |keys| then "}" else if i == 0 then FieldsAt(v, keys, 0) else "," + FieldsAt(v, keys, i)
  }

  ghost function FieldsAt(v: Tree, keys: seq<string>, i: nat): string
    requires v.Obj? && i < |keys| && forall k :: k in keys ==> k in v.fields
    decreases v, 0, |keys| - i, 0
  {
    Quote(keys[i]) + (":" + (Canonical(v.fields[keys[i]]) + FieldsFrom(v, keys, i + 1)))
  }

  lemma Assoc(a: string, b: string, c: string)
    ensures a + (b + c) == (a + b) + c
  {
  }

  lemma {:induction false} ItemWritten(v: Tree, i: nat, r: string)
    requires v.Arr? && i < |v.items|
    ensures r + ItemsFrom(v, i) == (if i > 0 then r + "," else r) + Canonical(v.items[i]) + ItemsFrom(v, i + 1)
  {
    hide Canonical;
    assert ItemsFrom(v, i) == if i == 0 then ItemsAt(v, i) else "," + ItemsAt(v, i);
    hide ItemsFrom;
    Assoc(r, ",", ItemsAt(v, i));
    Assoc(if i > 0 then r + "," else r, Canonical(v.items[i]), ItemsFrom(v, i + 1));
  }

  lemma {:induction false} FieldWritten(v: Tree, keys: seq<string>, i: nat, r: string)
    requires v.Obj? && i < |keys| && forall k :: k in keys ==> k in v.fields
    ensures r + FieldsFrom(v, keys, i)
      == (if i > 0 then r + "," else r) + Quote(keys[i]) + ":" + Canonical(v.fields[keys[i]]) + FieldsFrom(v, keys, i + 1)
  {
    hide Canonical, Quote;
    assert FieldsFrom(v, keys, i) == if i == 0 then FieldsAt(v, keys, i) else "," + FieldsAt(v, keys, i);
    hide FieldsFrom;
    var key, value, rest := Quote(keys[i]), Canonical(v.fields[keys[i]]), FieldsFrom(v, keys, i + 1);
    var start := if i > 0 then r + "," else r;
    Assoc(r, ",", FieldsAt(v, keys, i));
    Assoc(start, key, ":" + (value + rest));
    Assoc(start + key, ":", value + rest);
    Assoc(start + key + ":", value, rest);
  }

  /** Map iteration may yield the keys in any order: the text depends only on the value. */
  method MarshalCanonical(v: Tree) returns (r: string)
    ensures r == Canonical(v)
    decreases v
  {
    match v {
      case Obj(fields) =>
        var keys := Keys(fields);
        AscendingUnique(keys, fields.Keys);
        r := "{";
        assert r + FieldsFrom(v, keys, 0) == Canonical(v);
        for i := 0 to |keys|
          invariant r + FieldsFrom(v, keys, i) == Canonical(v)
        {
          hide FieldsFrom, Canonical, Quote;
          FieldWritten(v, keys, i, r);
          if i > 0 {
            r := r + ",";
          }
          var value := MarshalCanonical(fields[keys[i]]);
          r := r + Quote(keys[i]) + ":" + value;
        }
        r := r + "}";
      case Arr(items) =>
        r := "[";
        assert r + ItemsFrom(v, 0) == Canonical(v);
        for i := 0 to |items|
          invariant r + ItemsFrom(v, i) == Canonical(v)
        {
          hide ItemsFrom, Canonical;
          ItemWritten(v, i, r);
          if i > 0 {
            r := r + ",";
          }
          var item := MarshalCanonical(items[i]);
          r := r + item;
        }
        r := r + "]";
      case _ => r := Primitive(v);
    }
  }

  /** The keys of a map, collected in an arbitrary order and sorted. */
  method Keys(fields: map<string, Tree>) returns (keys: seq<string>)
    ensures Sorted(keys) && forall k :: k in keys <==> k in fields.Keys
  {
    keys := [];
    var todo := fields.Keys;
    while todo != {}
      invariant todo <= fields.Keys
      invariant forall k :: k in keys <==> k in fields.Keys && k !in todo
      invariant forall i, j :: 0 <= i < j < |keys| ==> keys[i] != keys[j]
      decreases |todo|
    {
      var k :| k in todo;
      keys := keys + [k];
      todo := todo - {k};
    }
    keys := Sort(keys);
  }

  // ----- A reader for compact JSON

  datatype Parsed<+T> = Failed | Got(value: T, rest: string)

  ghost function HexValue(c: char): int {
    if '0' <= c <= '9' then c as int - '0' as int
    else if 'a' <= c <= 'f' then c as int - 'a' as int + 10
    else if 'A' <= c <= 'F' then c as int - 'A' as int + 10
    else -1
  }

  ghost function ReadHex(text: string): Parsed<char> {
    if |text| < 4 then Failed else
      var a, b, c, d := HexValue(text[0]), HexValue(text[1]), HexValue(text[2]), HexValue(text[3]);
      if a < 0 || b < 0 || c < 0 || d < 0 then Failed else
        var code := ((a * 16 + b) * 16 + c) * 16 + d;
        if 0 <= code < 0xD800 || 0xE000 <= code < 0x11_0000 then Got(code as char, text[4..]) else Failed
  }

  /** One character of a string literal. */
  ghost function ReadChar(text: string): (r: Parsed<char>)
    ensures r.Got? ==> |r.rest| < |text|
  {
    if text == "" || text[0] < ' ' || text[0] == '"' then Failed
    else if text[0] != '\\' then Got(text[0], text[1..])
    else if |text| == 1 then Failed
    else match text[1]
      case '"' => Got('"', text[2..])
      case '\\' => Got('\\', text[2..])
      case '/' => Got('/', text[2..])
      case 'b' => Got('\U{8}', text[2..])
      case 'f' => Got('\U{C}', text[2..])
      case 'n' => Got('\n', text[2..])
      case 'r' => Got('\r', text[2..])
      case 't' => Got('\t', text[2..])
      case 'u' => ReadHex(text[2..])
      case _ => Failed
  }

  /** The rest of a string literal after its opening quote. */
  ghost function ReadChars(text: string): (r: Parsed<string>)
    ensures r.Got? ==> |r.rest| < |text|
    decreases |text|
  {
    if text != "" && text[0] == '"' then Got("", text[1..]) else
      var c := ReadChar(text);
      if c.Failed? then Failed else
        var cs := ReadChars(c.rest);
        if cs.Failed? then Failed else Got([c.value] + cs.value, cs.rest)
  }

  ghost function ReadString(text: string): (r: Parsed<string>)
    ensures r.Got? ==> |r.rest| < |text|
  {
    if text != "" && text[0] == '"' then ReadChars(text[1..]) else Failed
  }

  /** The longest run of number characters. */
  ghost function ReadNumber(text: string): (r: Parsed<string>)
    ensures r.Got? && r.value != "" ==> |r.rest| < |text|
    ensures r.Got?
    decreases |text|
  {
    if text == "" || !NumberChar(text[0]) then Got("", text) else
      var n := ReadNumber(text[1..]);
      Got([text[0]] + n.value, n.rest)
  }

  ghost function ReadWord(text: string, word: string, v: Tree): (r: Parsed<Tree>)
    requires word != ""
    ensures r.Got? ==> |r.rest| < |text|
  {
    if word <= text then Got(v, text[|word|..]) else Failed
  }

  ghost function Read(text: string): (r: Parsed<Tree>)
    ensures r.Got? ==> |r.rest| < |text|
    decreases |text|, 0
  {
    if text == "" then Failed
    else match text[0]
      case 'n' => ReadWord(text, "null", Null)
      case 't' => ReadWord(text, "true", Bool(true))
      case 'f' => ReadWord(text, "false", Bool(false))
      case '"' =>
        var s := ReadString(text);
        if s.Failed? then Failed else Got(Str(s.value), s.rest)
      case '[' => if "[]" <= text then Got(Arr([]), text[2..]) else ReadItems(text[1..], [])
      case '{' => if "{}" <= text then Got(Obj(map[]), text[2..]) else ReadFields(text[1..], map[])
      case _ =>
        var n := ReadNumber(text);
        if n.value == "" then Failed else Got(Num(n.value), n.rest)
  }

  ghost function ReadItems(text: string, before: seq<Tree>): (r: Parsed<Tree>)
    ensures r.Got? ==> |r.rest| < |text|
    decreases |text|, 1
  {
    var v := Read(text);
    if v.Failed? || v.rest == "" then Failed
    else if v.rest[0] == ',' then ReadItems(v.rest[1..], before + [v.value])
    else if v.rest[0] == ']' then Got(Arr(before + [v.value]), v.rest[1..])
    else Failed
  }

  ghost function ReadFields(text: string, before: map<string, Tree>): (r: Parsed<Tree>)
    ensures r.Got? ==> |r.rest| < |text|
    decreases |text|, 1
  {
    var k := ReadString(text);
    if k.Failed? || k.rest == "" || k.rest[0] != ':' then Failed else
      var v := Read(k.rest[1..]);
      if v.Failed? || v.rest == "" then Failed
      else if v.rest[0] == ',' then ReadFields(v.rest[1..], before[k.value := v.value])
      else if v.rest[0] == '}' then Got(Obj(before[k.value := v.value]), v.rest[1..])
      else Failed
  }

  // ----- Reading inverts printing

  lemma HexRoundTrip(n: int, s: string)
    requires 0 <= n < 0xD800
    ensures ReadHex(Hex4(n) + s) == Got(n as char, s)
  {
    var text := Hex4(n) + s;
    var a, b, c, d := n / 0x1000, n / 0x100 % 0x10, n / 0x10 % 0x10, n % 0x10;
    HexDigitRead(a);
    HexDigitRead(b);
    HexDigitRead(c);
    HexDigitRead(d);
    NibblesAddUp(n);
    assert text[4..] == s;
    hide HexValue, HexDigit;
    assert text[0] == HexDigit(a) && text[1] == HexDigit(b) && text[2] == HexDigit(c) && text[3] == HexDigit(d);
  }

  lemma NibblesAddUp(n: int)
    requires 0 <= n < 0x10000
    ensures ((n / 0x1000 * 16 + n / 0x100 % 0x10) * 16 + n / 0x10 % 0x10) * 16 + n % 0x10 == n
  {
  }

  lemma HexDigitRead(n: int)
    requires 0 <= n < 16
    ensures HexValue(HexDigit(n)) == n
  {
  }

  lemma {:induction false} ReadsChar(c: char, s: string)
    ensures ReadChar(EscapeChar(c) + s) == Got(c, s)
    ensures (EscapeChar(c) + s)[0] != '"'
  {
    var text := EscapeChar(c) + s;
    if |EscapeChar(c)| == 1 {
      assert text[1..] == s;
    } else if |EscapeChar(c)| == 2 {
      assert text[2..] == s;
    } else {
      assert text[2..] == Hex4(c as int) + s;
      HexRoundTrip(c as int, s);
    }
  }

  lemma {:induction false} ReadsChars(s: string, t: string)
    ensures ReadChars(Escape(s) + ("\"" + t)) == Got(s, t)
    decreases |s|
  {
    var text := Escape(s) + ("\"" + t);
    if s == "" {
      assert text == "\"" + t && text[1..] == t;
    } else {
      hide EscapeChar, ReadChar;
      var tail := Escape(s[1..]) + ("\"" + t);
      Assoc(EscapeChar(s[0]), Escape(s[1..]), "\"" + t);
      ReadsChar(s[0], tail);
      ReadsChars(s[1..], t);
      assert s == [s[0]] + s[1..];
    }
  }

  lemma {:induction false} ReadsString(s: string, t: string)
    ensures ReadString(Quote(s) + t) == Got(s, t)
  {
    hide ReadChars, Escape;
    ReadsChars(s, t);
    assert (Quote(s) + t)[1..] == Escape(s) + ("\"" + t);
  }

  /** A number ends here. */
  predicate Ends(s: string) {
    s == "" || !NumberChar(s[0])
  }

  lemma {:induction false} ReadsNumber(token: string, s: string)
    requires forall i :: 0 <= i < |token| ==> NumberChar(token[i])
    requires Ends(s)
    ensures ReadNumber(token + s) == Got(token, s)
    decreases |token|
  {
    if token == "" {
      assert token + s == s;
    } else {
      ReadsNumber(token[1..], s);
      assert token == [token[0]] + token[1..];
      assert (token + s)[1..] == token[1..] + s;
    }
  }

  lemma {:induction false} ReadsPrimitive(v: Tree, s: string)
    requires !v.Arr? && !v.Obj? && Valid(v) && Ends(s)
    ensures Read(Primitive(v) + s) == Got(v, s)
  {
    var text := Primitive(v) + s;
    match v {
      case Num(token) => ReadsNumber(token, s);
      case Str(x) => ReadsString(x, s);
      case Null => assert text[4..] == s;
      case Bool(b) => assert text[if b then 4 else 5..] == s;
    }
  }

  lemma CanonicalStarts(v: Tree)
    requires Valid(v)
    ensures Canonical(v) != "" && Canonical(v)[0] != ']' && Canonical(v)[0] != '}'
  {
  }

  /** The reader recovers the value from its canonical text, whatever follows. */
  lemma {:induction false} ReadsBack(v: Tree, s: string)
    requires Valid(v) && Ends(s)
    ensures Read(Canonical(v) + s) == Got(v, s)
    decreases v, 1
  {
    hide Read, Canonical, ReadItems, ReadFields, ItemsFrom, FieldsFrom;
    if v == Arr([]) || v == Obj(map[]) {
      ReadsEmpty(v, s);
    } else if v.Arr? {
      ReadsItems(v, 0, s);
      OpensArray(v, s);
    } else if v.Obj? {
      var keys := Ascending(v.fields.Keys);
      KeysComplete(v.fields, keys);
      ReadsFields(v, keys, 0, s);
      OpensObject(v, s);
    } else {
      ReadsPrimitive(v, s);
      CanonicalPrimitive(v);
    }
  }

  lemma CanonicalPrimitive(v: Tree)
    requires !v.Arr? && !v.Obj?
    ensures Canonical(v) == Primitive(v)
  {
  }

  lemma {:induction false} KeysComplete(fields: map<string, Tree>, keys: seq<string>)
    requires keys == Ascending(fields.Keys)
    ensures |keys| > 0 <==> fields != map[]
    ensures forall k :: k in keys ==> k in fields
    ensures Restrict(fields, keys[..0]) == map[] && Restrict(fields, keys) == fields
  {
    assert forall k :: k in fields ==> k in keys;
  }

  lemma {:induction false} ReadsEmpty(v: Tree, s: string)
    requires v == Arr([]) || v == Obj(map[])
    ensures Read(Canonical(v) + s) == Got(v, s)
  {
    assert Canonical(v) == if v.Arr? then "[]" else "{}";
    assert (Canonical(v) + s)[2..] == s;
  }

  lemma {:induction false} ReadsBracket(inside: string, s: string)
    requires inside != "" && inside[0] != ']'
    ensures Read("[" + inside + s) == ReadItems(inside + s, [])
  {
    hide ReadItems;
    var text := "[" + inside + s;
    assert text[1] == inside[0] && text[1..] == inside + s;
  }

  lemma {:induction false} ReadsBrace(inside: string, s: string)
    requires inside != "" && inside[0] != '}'
    ensures Read("{" + inside + s) == ReadFields(inside + s, map[])
  {
    hide ReadFields;
    var text := "{" + inside + s;
    assert text[1] == inside[0] && text[1..] == inside + s;
  }

  lemma {:induction false} OpensArray(v: Tree, s: string)
    requires v.Arr? && v.items != [] && Valid(v)
    ensures Read(Canonical(v) + s) == ReadItems(ItemsAt(v, 0) + s, v.items[..0])
  {
    hide ReadItems, Read;
    CanonicalStarts(v.items[0]);
    assert Canonical(v) == "[" + ItemsAt(v, 0);
    hide Canonical, ItemsFrom;
    ReadsBracket(ItemsAt(v, 0), s);
    assert v.items[..0] == [];
  }

  lemma {:induction false} OpensObject(v: Tree, s: string)
    requires v.Obj? && v.fields != map[] && Valid(v)
    requires forall k :: k in Ascending(v.fields.Keys) ==> k in v.fields
    requires |Ascending(v.fields.Keys)| > 0
    ensures Read(Canonical(v) + s) == ReadFields(FieldsAt(v, Ascending(v.fields.Keys), 0) + s, map[])
  {
    hide ReadFields, Read, Ascending;
    var keys := Ascending(v.fields.Keys);
    assert Canonical(v) == "{" + FieldsAt(v, keys, 0);
    hide Canonical, FieldsFrom;
    assert FieldsAt(v, keys, 0)[0] == '"';
    hide FieldsAt;
    ReadsBrace(FieldsAt(v, keys, 0), s);
  }

  lemma {:induction false} ReadsItems(v: Tree, i: nat, s: string)
    requires v.Arr? && Valid(v) && i < |v.items|
    ensures ReadItems(ItemsAt(v, i) + s, v.items[..i]) == Got(v, s)
    decreases v, 0, |v.items| - i
  {
    hide Canonical, Read;
    var more := ItemsFrom(v, i + 1) + s;
    assert v.items[..i] + [v.items[i]] == v.items[..i + 1];
    if i + 1 == |v.items| {
      assert more == "]" + s && more[1..] == s;
      assert v.items[..i + 1] == v.items;
    } else {
      ReadsItems(v, i + 1, s);
      Assoc(",", ItemsAt(v, i + 1), s);
      assert more[1..] == ItemsAt(v, i + 1) + s;
    }
    ReadsBack(v.items[i], more);
    Assoc(Canonical(v.items[i]), ItemsFrom(v, i + 1), s);
  }

  ghost function Restrict(fields: map<string, Tree>, keys: seq<string>): map<string, Tree> {
    map k | k in fields && k in keys :: fields[k]
  }

  /** One member, up to what follows its value. */
  lemma {:induction false} ReadsField(key: string, value: Tree, more: string, before: map<string, Tree>)
    requires Read(Canonical(value) + more) == Got(value, more) && more != ""
    ensures ReadFields(Quote(key) + (":" + (Canonical(value) + more)), before) ==
      if more[0] == ',' then ReadFields(more[1..], before[key := value])
      else if more[0] == '}' then Got(Obj(before[key := value]), more[1..])
      else Failed
  {
    hide Canonical, Read, ReadString, Quote;
    var rest := ":" + (Canonical(value) + more);
    ReadsString(key, rest);
    assert rest[1..] == Canonical(value) + more;
  }

  lemma {:induction false} ReadsFields(v: Tree, keys: seq<string>, i: nat, s: string)
    requires v.Obj? && Valid(v) && i < |keys| && forall k :: k in keys ==> k in v.fields
    ensures ReadFields(FieldsAt(v, keys, i) + s, Restrict(v.fields, keys[..i])) == Got(Obj(Restrict(v.fields, keys)), s)
    decreases v, 0, |keys| - i
  {
    hide Canonical, Read, Quote, ReadFields;
    var key, value := keys[i], v.fields[keys[i]];
    var after := FieldsFrom(v, keys, i + 1);
    var more := after + s;
    assert keys[..i + 1] == keys[..i] + [key];
    assert Restrict(v.fields, keys[..i])[key := value] == Restrict(v.fields, keys[..i + 1]);
    if i + 1 == |keys| {
      assert more == "}" + s && more[1..] == s;
      assert keys[..i + 1] == keys;
    } else {
      ReadsFields(v, keys, i + 1, s);
      Assoc(",", FieldsAt(v, keys, i + 1), s);
      assert more[1..] == FieldsAt(v, keys, i + 1) + s;
    }
    ReadsBack(value, more);
    ReadsField(key, value, more, Restrict(v.fields, keys[..i]));
    Assoc(Canonical(value), after, s);
    Assoc(":", Canonical(value) + after, s);
    Assoc(Quote(key), ":" + (Canonical(value) + after), s);
  }

  /** Two values have the same canonical text exactly when they are the same value. */
  lemma {:induction false} CanonicalIsInjective(a: Tree, b: Tree)
    requires Valid(a) && Valid(b)
    ensures Canonical(a) == Canonical(b) <==> a == b
  {
    ReadsBack(a, "");
    ReadsBack(b, "");
    assert Canonical(a) + "" == Canonical(a) && Canonical(b) + "" == Canonical(b);
  }

  // ----- What the text looks like

  /** The member names of an object, in the order in which a reader comes to them. */
  ghost function ReadKeys(text: string): seq<string>
    decreases |text|
  {
    var k := ReadString(text);
    if k.Failed? || k.rest == "" then [] else
      var v := Read(k.rest[1..]);
      if v.Failed? || v.rest == "" || v.rest[0] != ',' then [k.value]
      else [k.value] + ReadKeys(v.rest[1..])
  }

  lemma {:induction false} ReadsKey(key: string, value: Tree, more: string)
    requires Read(Canonical(value) + more) == Got(value, more) && more != ""
    ensures ReadKeys(Quote(key) + (":" + (Canonical(value) + more)))
      == [key] + if more[0] == ',' then ReadKeys(more[1..]) else []
  {
    hide Canonical, Read, ReadString, Quote;
    var rest := ":" + (Canonical(value) + more);
    ReadsString(key, rest);
    assert rest[1..] == Canonical(value) + more;
  }

  lemma {:induction false} ReadsKeys(v: Tree, keys: seq<string>, i: nat)
    requires v.Obj? && Valid(v) && i < |keys| && forall k :: k in keys ==> k in v.fields
    ensures ReadKeys(FieldsAt(v, keys, i)) == keys[i..]
    decreases |keys| - i
  {
    hide Canonical, Read, Quote, ReadKeys;
    var key, value, more := keys[i], v.fields[keys[i]], FieldsFrom(v, keys, i + 1);
    ReadsBack(value, more);
    ReadsKey(key, value, more);
    assert keys[i..] == [key] + keys[i + 1..];
    if i + 1 < |keys| {
      ReadsKeys(v, keys, i + 1);
      assert more[1..] == FieldsAt(v, keys, i + 1);
    } else {
      assert keys[i + 1..] == [];
    }
  }

  /** A reader meets the members of an object in ascending order of their names: each is a
      proper prefix of the next or smaller where they first differ. */
  lemma {:induction false} KeysAscend(v: Tree)
    requires v.Obj? && Valid(v) && v.fields != map[]
    ensures var text := Canonical(v); text != "" && text[0] == '{'
    ensures var keys := ReadKeys(Canonical(v)[1..]);
      && (forall k :: k in keys <==> k in v.fields)
      && (forall i, j :: 0 <= i < j < |keys| ==> ComesBefore(keys[i], keys[j]))
  {
    var keys := Ascending(v.fields.Keys);
    KeysComplete(v.fields, keys);
    ReadsKeys(v, keys, 0);
    assert Canonical(v) == "{" + FieldsAt(v, keys, 0);
    hide Canonical, Ascending, ReadKeys, FieldsAt, ComesBefore, Less;
    assert keys[0..] == keys;
    AscendingSorted(v.fields.Keys);
    forall i, j | 0 <= i < j < |keys| ensures ComesBefore(keys[i], keys[j]) {
      LessComesBefore(keys[i], keys[j]);
    }
  }

  /** Characters that the text never shows raw: they could end a script or a line. */
  predicate Safe(c: char) {
    c >= ' ' && c != '<' && c != '>' && c != '&' && c != '\U{2028}' && c != '\U{2029}'
  }

  predicate AllSafe(s: string) {
    forall i :: 0 <= i < |s| ==> Safe(s[i])
  }

  lemma HexIsSafe(n: int)
    requires 0 <= n < 0x10000
    ensures AllSafe("\\u" + Hex4(n))
  {
    HexDigitIsSafe(n / 0x1000);
    HexDigitIsSafe(n / 0x100 % 0x10);
    HexDigitIsSafe(n / 0x10 % 0x10);
    HexDigitIsSafe(n % 0x10);
    hide HexDigit;
  }

  lemma HexDigitIsSafe(n: int)
    requires 0 <= n < 16
    ensures Safe(HexDigit(n))
  {
  }

  lemma EscapedIsSafe(c: char)
    ensures AllSafe(EscapeChar(c))
  {
    if |EscapeChar(c)| > 2 {
      HexIsSafe(c as int);
    }
    hide Hex4;
  }

  lemma {:induction false} StringsAreSafe(s: string)
    ensures AllSafe(Escape(s)) && AllSafe(Quote(s))
    decreases |s|
  {
    if s != "" {
      hide EscapeChar;
      EscapedIsSafe(s[0]);
      StringsAreSafe(s[1..]);
    }
  }

  lemma {:induction false} PrimitiveIsSafe(v: Tree)
    requires !v.Arr? && !v.Obj? && Valid(v)
    ensures AllSafe(Primitive(v))
  {
    if v.Str? {
      hide Quote;
      StringsAreSafe(v.s);
    }
  }

  /** However deep a string stands, markup and line separators are escaped. */
  lemma {:induction false} TextIsSafe(v: Tree)
    requires Valid(v)
    ensures AllSafe(Canonical(v))
    decreases v, 1
  {
    if v.Arr? {
      ItemsAreSafe(v, 0);
    } else if v.Obj? {
      KeysComplete(v.fields, Ascending(v.fields.Keys));
      FieldsAreSafe(v, Ascending(v.fields.Keys), 0);
    } else {
      PrimitiveIsSafe(v);
      CanonicalPrimitive(v);
    }
  }

  lemma {:induction false} ItemsAreSafe(v: Tree, i: nat)
    requires v.Arr? && Valid(v) && i <= |v.items|
    ensures AllSafe(ItemsFrom(v, i))
    decreases v, 0, |v.items| - i
  {
    hide Canonical;
    if i < |v.items| {
      TextIsSafe(v.items[i]);
      ItemsAreSafe(v, i + 1);
    }
  }

  lemma {:induction false} FieldsAreSafe(v: Tree, keys: seq<string>, i: nat)
    requires v.Obj? && Valid(v) && i <= |keys| && forall k :: k in keys ==> k in v.fields
    ensures AllSafe(FieldsFrom(v, keys, i))
    decreases v, 0, |keys| - i
  {
    hide Canonical, Quote;
    if i < |keys| {
      StringsAreSafe(keys[i]);
      TextIsSafe(v.fields[keys[i]]);
      FieldsAreSafe(v, keys, i + 1);
    }
  }

  /** The escapes themselves: short where JSON has a short form, else four lower-case
      hexadecimal digits. */
  lemma EscapeForms(c: char)
    ensures EscapeChar('"') == "\\\"" && EscapeChar('\\') == "\\\\"
    ensures EscapeChar('\n') == "\\n" && EscapeChar('\r') == "\\r" && EscapeChar('\t') == "\\t"
    ensures EscapeChar('\U{8}') == "\\b" && EscapeChar('\U{C}') == "\\f"
    ensures Safe(c) && c != '"' && c != '\\' ==> EscapeChar(c) == [c]
    ensures EscapeChar('<') == "\\u003c" && EscapeChar('>') == "\\u003e" && EscapeChar('&') == "\\u0026"
    ensures EscapeChar('\U{2028}') == "\\u2028" && EscapeChar('\U{2029}') == "\\u2029"
    ensures c < ' ' && |EscapeChar(c)| > 2 ==>
      EscapeChar(c) == "\\u00" + [if c as int < 16 then '0' else '1', "0123456789abcdef"[c as int % 16]]
  {
    HexForms();
    hide Hex4;
    if c < ' ' {
      LowHex(c as int);
    }
  }

  lemma HexForms()
    ensures Hex4('<' as int) == "003c" && Hex4('>' as int) == "003e" && Hex4('&' as int) == "0026"
    ensures Hex4(0x2028) == "2028" && Hex4(0x2029) == "2029"
  {
  }

  lemma LowHex(n: int)
    requires 0 <= n < 32
    ensures Hex4(n) == "00" + [if n < 16 then '0' else '1', "0123456789abcdef"[n % 16]]
  {
  }
}
