/** The balanced-object scanner, against the whole JSON grammar. */
module BalancedJson {
  import opened Options

  // ----- JSON texts (RFC 8259)

  /** One character of a string, section 7. */
  datatype StrChar = Unescaped(c: char) | Escaped(c: char) | Hex(digits: string)

  /** Concrete syntax, sections 2 to 6, with arbitrary whitespace. */
  datatype Json =
    | Literal(token: string)
    | Text(chars: seq<StrChar>)
    | Array(ws: string, items: seq<Item>)
    | Object(ws: string, members: seq<Member>)

  datatype Item = Item(before: string, value: Json, after: string)

  datatype Member = Member(before: string, key: seq<StrChar>, afterKey: string, beforeValue: string, value: Json, after: string)

  predicate WhiteSpace(s: string) {
    forall i :: 0 <= i < |s| ==> s[i] == ' ' || s[i] == '\t' || s[i] == '\n' || s[i] == '\r'
  }

  predicate NumberChar(c: char) {
    '0' <= c <= '9' || c == '-' || c == '+' || c == '.' || c == 'e' || c == 'E'
  }

  predicate Token(s: string) {
    s == "true" || s == "false" || s == "null" || (s != "" && forall i :: 0 <= i < |s| ==> NumberChar(s[i]))
  }

  predicate HexDigit(c: char) {
    '0' <= c <= '9' || 'a' <= c <= 'f' || 'A' <= c <= 'F'
  }

  predicate ValidChar(ch: StrChar) {
    match ch
    case Unescaped(c) => c >= ' ' && c != '"' && c != '\\'
    case Escaped(c) => c in "\"\\/bfnrt"
    case Hex(digits) => |digits| == 4 && forall i :: 0 <= i < 4 ==> HexDigit(digits[i])
  }

  predicate ValidChars(chars: seq<StrChar>) {
    forall i :: 0 <= i < |chars| ==> ValidChar(chars[i])
  }

  predicate Valid(v: Json) {
    match v
    case Literal(token) => Token(token)
    case Text(chars) => ValidChars(chars)
    case Array(ws, items) =>
      WhiteSpace(ws) && forall i :: 0 <= i < |items| ==>
        WhiteSpace(items[i].before) && Valid(items[i].value) && WhiteSpace(items[i].after)
    case Object(ws, members) =>
      WhiteSpace(ws) && forall i :: 0 <= i < |members| ==>
        && WhiteSpace(members[i].before) && ValidChars(members[i].key) && WhiteSpace(members[i].afterKey)
        && WhiteSpace(members[i].beforeValue) && Valid(members[i].value) && WhiteSpace(members[i].after)
  }

  function PrintChar(ch: StrChar): string {
    match ch
    case Unescaped(c) => [c]
    case Escaped(c) => ['\\', c]
    case Hex(digits) => "\\u" + digits
  }

  function PrintChars(chars: seq<StrChar>): string {
    if chars == [] then "" else PrintChar(chars[0]) + PrintChars(chars[1..])
  }

  function PrintString(chars: seq<StrChar>): string {
    "\"" + PrintChars(chars) + "\""
  }

  function Print(v: Json): string
    decreases v, 1
  {
    match v
    case Literal(token) => token
    case Text(chars) => PrintString(chars)
    case Array(ws, items) => "[" + (ws + PrintItems(v, |items|)) + "]"
    case Object(ws, members) => "{" + (ws + PrintMembers(v, |members|)) + "}"
  }

  /** The first `n` items, separated by commas. */
  function PrintItems(v: Json, n: nat): string
    requires v.Array? && n <= |v.items|
    decreases v, 0, n
  {
    if n == 0 then ""
    else
      var it := v.items[n - 1];
      PrintItems(v, n - 1) + (if n == 1 then "" else ",") + it.before + Print(it.value) + it.after
  }

  function PrintMembers(v: Json, n: nat): string
    requires v.Object? && n <= |v.members|
    decreases v, 0, n
  {
    if n == 0 then ""
    else PrintMembers(v, n - 1) + (if n == 1 then "" else ",") + PrintMember(v.members[n - 1])
  }

  function PrintMember(m: Member): string
    decreases m, 0
  {
    m.before + PrintString(m.key) + m.afterKey + ":" + (m.beforeValue + Print(m.value) + m.after)
  }

  // ----- The scanner

  datatype Scan = Scan(depth: int, inString: bool, escaped: bool)

  function Level(d: int): Scan {
    Scan(d, false, false)
  }

  function Step(s: Scan, ch: char): Scan {
    if s.inString then
      if s.escaped then s.(escaped := false)
      else if ch == '\\' then s.(escaped := true)
      else if ch == '"' then s.(inString := false)
      else s
    else if ch == '"' then s.(inString := true)
    else if ch == '{' then s.(depth := s.depth + 1)
    else if ch == '}' then s.(depth := s.depth - 1)
    else s
  }

  /** The scanner stops right after this character. */
  predicate Closes(s: Scan, ch: char) {
    !s.inString && ch == '}' && s.depth == 1
  }

  /** End of the region the scanner closes, reading from `i`. */
  function CloseFrom(text: string, i: nat, s: Scan): (r: Option<nat>)
    requires i <= |text|
    ensures r.Some? ==> i < r.value <= |text|
    decreases |text| - i
  {
    if i == |text| then None
    else if Closes(s, text[i]) then Some(i + 1)
    else CloseFrom(text, i + 1, Step(s, text[i]))
  }

  /** The first region that balances, or "". */
  function Extract(text: string, start: nat): string
    requires start <= |text|
    decreases |text| - start
  {
    if start == |text| then ""
    else if text[start] != '{' then Extract(text, start + 1)
    else
      var end := CloseFrom(text, start, Level(0));
      if end.Some? then text[start..end.value] else Extract(text, start + 1)
  }

  method ExtractBalancedJSONObject(text: string) returns (r: string)
    ensures r == Extract(text, 0)
  {
    for start := 0 to |text|
      invariant Extract(text, 0) == Extract(text, start)
    {
      if text[start] != '{' {
        continue;
      }
      var depth, inString, escaped := 0, false, false;
      for i := start to |text|
        invariant CloseFrom(text, start, Level(0)) == CloseFrom(text, i, Scan(depth, inString, escaped))
        invariant escaped ==> inString
      {
        var ch := text[i];
        if inString {
          if escaped {
            escaped := false;
            continue;
          }
          if ch == '\\' {
            escaped := true;
            continue;
          }
          if ch == '"' {
            inString := false;
          }
          continue;
        }
        match ch {
          case '"' => inString := true;
          case '{' => depth := depth + 1;
          case '}' =>
            depth := depth - 1;
            if depth == 0 {
              return text[start..i + 1];
            }
          case _ =>
        }
      }
    }
    return "";
  }

  // ----- Reading a text character by character

  function Run(s: Scan, text: string): Scan
    decreases |text|
  {
    if text == "" then s else Run(Step(s, text[0]), text[1..])
  }

  lemma {:induction false} RunConcat(s: Scan, a: string, b: string)
    ensures Run(s, a + b) == Run(Run(s, a), b)
    decreases |a|
  {
    if a == "" {
      assert a + b == b;
    } else {
      RunConcat(Step(s, a[0]), a[1..], b);
      assert (a + b)[1..] == a[1..] + b;
    }
  }

  // ----- What the scanner finds

  /** A region balances when the depth, which leaves zero at its first character,
      comes back to zero for the first time at its end. */
  ghost predicate Balances(text: string, start: nat, end: nat) {
    && start < end <= |text| && text[start] == '{'
    && Run(Level(0), text[start..end]).depth == 0
    && forall k :: start < k < end ==> Run(Level(0), text[start..k]).depth != 0
  }

  ghost predicate NeverZero(s: Scan, text: string, i: nat, end: nat) {
    forall k :: i < k < end <= |text| ==> Run(s, text[i..k]).depth != 0
  }

  lemma {:induction false} RunAhead(s: Scan, text: string, i: nat, k: nat)
    requires i < k <= |text|
    ensures Run(s, text[i..k]) == Run(Step(s, text[i]), text[i + 1..k])
  {
    assert text[i..k] == [text[i]] + text[i + 1..k];
    assert text[i..k][1..] == text[i + 1..k];
  }

  lemma {:induction false} NeverZeroAhead(s: Scan, text: string, i: nat, end: nat)
    requires i < end <= |text|
    requires Step(s, text[i]).depth != 0 || end == i + 1
    requires NeverZero(Step(s, text[i]), text, i + 1, end)
    ensures NeverZero(s, text, i, end)
  {
    forall k | i < k < end ensures Run(s, text[i..k]).depth != 0 {
      RunAhead(s, text, i, k);
      if k == i + 1 {
        assert text[i + 1..k] == "";
      } else {
        assert i + 1 < k < end <= |text|;
      }
    }
  }

  predicate Scanning(text: string, i: nat, s: Scan) {
    s.depth >= 1 || (i < |text| && s == Level(0) && text[i] == '{')
  }

  /** What the scanner closes is the first return to depth zero, if there is one. */
  lemma {:induction false} ClosesAtFirstZero(text: string, i: nat, s: Scan)
    requires i <= |text| && Scanning(text, i, s)
    ensures match CloseFrom(text, i, s)
      case Some(end) => Run(s, text[i..end]).depth == 0 && NeverZero(s, text, i, end)
      case None => NeverZero(s, text, i, |text|) && (i < |text| ==> Run(s, text[i..]).depth != 0)
    decreases |text| - i
  {
    if i < |text| {
      var s' := Step(s, text[i]);
      assert text[i + 1..i + 1] == "";
      if Closes(s, text[i]) {
        RunAhead(s, text, i, i + 1);
      } else {
        assert s'.depth >= 1;
        ClosesAtFirstZero(text, i + 1, s');
        var end := match CloseFrom(text, i + 1, s') case Some(e) => e case None => |text|;
        RunAhead(s, text, i, end);
        NeverZeroAhead(s, text, i, end);
        assert text[i..|text|] == text[i..] && text[i + 1..|text|] == text[i + 1..];
        assert i + 1 == |text| ==> text[i + 1..] == "";
      }
    }
  }

  /** From one '{' at most one region balances, and the scanner finds it. */
  lemma {:induction false} CloseFromIffBalances(text: string, start: nat, end: nat)
    requires start < |text| && text[start] == '{'
    ensures CloseFrom(text, start, Level(0)) == Some(end) <==> Balances(text, start, end)
  {
    hide Run;
    ClosesAtFirstZero(text, start, Level(0));
    assert text[start..|text|] == text[start..];
  }

  /** What one start position contributes. */
  lemma {:induction false} ExtractAt(text: string, from: nat, end: nat)
    requires from < |text|
    ensures Balances(text, from, end) ==> Extract(text, from) == text[from..end] && from < end <= |text|
    ensures Extract(text, from) == Extract(text, from + 1)
      || exists e: nat :: Balances(text, from, e) && Extract(text, from) == text[from..e] != ""
  {
    if text[from] == '{' {
      CloseFromIffBalances(text, from, end);
      var close := CloseFrom(text, from, Level(0));
      if close.Some? {
        CloseFromIffBalances(text, from, close.value);
      }
    }
  }

  ghost predicate NoneBalancesBefore(text: string, from: nat, start: nat) {
    forall s: nat, e: nat :: from <= s < start ==> !Balances(text, s, e)
  }

  /** The result is the balanced region with the smallest start. */
  lemma {:induction false} ExtractsFirstBalanced(text: string, from: nat, start: nat, end: nat)
    requires from <= start && Balances(text, start, end) && NoneBalancesBefore(text, from, start)
    ensures start < end <= |text| && Extract(text, from) == text[start..end] != ""
    decreases |text| - from
  {
    assert start < end <= |text| && text[start..end][0] == text[start];
    hide Balances, Extract;
    ExtractAt(text, from, end);
    if from < start {
      ExtractsFirstBalanced(text, from + 1, start, end);
    }
  }

  /** It is "" exactly when no region balances. */
  lemma {:induction false} ExtractsNothing(text: string, from: nat)
    requires from <= |text|
    ensures Extract(text, from) == "" <==> NoneBalancesBefore(text, from, |text|)
    decreases |text| - from
  {
    if from < |text| {
      hide Balances, Extract;
      ExtractAt(text, from, 0);
      ExtractsNothing(text, from + 1);
      forall e: nat ensures Balances(text, from, e) ==> Extract(text, from) != "" {
        ExtractAt(text, from, e);
      }
    }
  }

  // ----- Printed values leave the scanner where it was

  /** The depth stays at `d` or above at every point of the text. */
  predicate Floor(s: Scan, d: int, text: string)
    decreases |text|
  {
    s.depth >= d && (text == "" || Floor(Step(s, text[0]), d, text[1..]))
  }

  lemma {:induction false} FloorConcat(s: Scan, d: int, a: string, b: string)
    requires Floor(s, d, a) && Floor(Run(s, a), d, b)
    ensures Floor(s, d, a + b)
    decreases |a|
  {
    if a == "" {
      assert a + b == b;
    } else {
      FloorConcat(Step(s, a[0]), d, a[1..], b);
      assert (a + b)[1..] == a[1..] + b;
    }
  }

  lemma {:induction false} FloorLower(s: Scan, d: int, e: int, text: string)
    requires Floor(s, e, text) && d <= e
    ensures Floor(s, d, text)
    decreases |text|
  {
    if text != "" {
      FloorLower(Step(s, text[0]), d, e, text[1..]);
    }
  }

  /** The text brings the scanner back to state `s` without ever going below its depth. */
  predicate Neutral(s: Scan, text: string) {
    Run(s, text) == s && Floor(s, s.depth, text)
  }

  lemma NeutralConcat(s: Scan, a: string, b: string)
    requires Neutral(s, a) && Neutral(s, b)
    ensures Neutral(s, a + b)
  {
    RunConcat(s, a, b);
    FloorConcat(s, s.depth, a, b);
  }

  /** Characters that mean nothing to the scanner in state `s`. */
  lemma {:induction false} NeutralPlain(s: Scan, text: string)
    requires forall i :: 0 <= i < |text| ==> Step(s, text[i]) == s
    ensures Neutral(s, text)
    decreases |text|
  {
    if text != "" {
      NeutralPlain(s, text[1..]);
    }
  }

  lemma {:induction false} NeutralChars(d: int, chars: seq<StrChar>)
    requires ValidChars(chars)
    ensures Neutral(Scan(d, true, false), PrintChars(chars))
    decreases |chars|
  {
    var s := Scan(d, true, false);
    if chars != [] {
      NeutralChar(d, chars[0]);
      NeutralChars(d, chars[1..]);
      NeutralConcat(s, PrintChar(chars[0]), PrintChars(chars[1..]));
    }
  }

  lemma {:induction false} NeutralChar(d: int, ch: StrChar)
    requires ValidChar(ch)
    ensures Neutral(Scan(d, true, false), PrintChar(ch))
  {
    var s := Scan(d, true, false);
    match ch {
      case Unescaped(c) => NeutralPlain(s, [c]);
      case Escaped(c) => NeutralEscape(s, c);
      case Hex(digits) =>
        NeutralEscape(s, 'u');
        NeutralPlain(s, digits);
        NeutralConcat(s, "\\u", digits);
    }
  }

  /** A backslash and any one character, inside a string. */
  lemma {:induction false} NeutralEscape(s: Scan, c: char)
    requires s.inString && !s.escaped
    ensures Neutral(s, ['\\', c])
  {
    var text := ['\\', c];
    assert text[1..] == [c] && text[1..][1..] == "";
    assert Run(s, text) == Run(s.(escaped := true), [c]) == Run(s, "") == s;
    assert Floor(s.(escaped := true), s.depth, [c]);
  }

  /** One character into a nested state, a neutral stretch there, one character back. */
  lemma {:induction false} NeutralNested(s: Scan, left: string, t: Scan, inner: string, right: string)
    requires |left| == 1 == |right|
    requires Step(s, left[0]) == t && t.depth >= s.depth && Step(t, right[0]) == s
    requires Neutral(t, inner)
    ensures Neutral(s, left + inner + right)
  {
    assert left[1..] == "" && right[1..] == "";
    assert Run(s, left) == t && Run(t, right) == s;
    FloorLower(t, s.depth, t.depth, inner);
    RunConcat(s, left, inner);
    FloorConcat(s, s.depth, left, inner);
    RunConcat(s, left + inner, right);
    FloorConcat(s, s.depth, left + inner, right);
  }

  lemma NeutralString(d: int, chars: seq<StrChar>)
    requires ValidChars(chars)
    ensures Neutral(Level(d), PrintString(chars))
  {
    NeutralChars(d, chars);
    NeutralNested(Level(d), "\"", Scan(d, true, false), PrintChars(chars), "\"");
  }

  lemma {:induction false} NeutralValue(d: int, v: Json)
    requires Valid(v)
    ensures Neutral(Level(d), Print(v))
    decreases v, 1
  {
    match v {
      case Literal(token) => NeutralPlain(Level(d), token);
      case Text(chars) => NeutralString(d, chars);
      case Array(ws, items) =>
        NeutralItems(d, v, |items|);
        NeutralPlain(Level(d), ws);
        NeutralConcat(Level(d), ws, PrintItems(v, |items|));
        NeutralPlain(Level(d), "[");
        NeutralConcat(Level(d), "[", ws + PrintItems(v, |items|));
        NeutralPlain(Level(d), "]");
        NeutralConcat(Level(d), "[" + (ws + PrintItems(v, |items|)), "]");
      case Object(ws, members) =>
        NeutralInside(d + 1, v);
        NeutralNested(Level(d), "{", Level(d + 1), ws + PrintMembers(v, |members|), "}");
    }
  }

  lemma {:induction false} NeutralItems(d: int, v: Json, n: nat)
    requires v.Array? && Valid(v) && n <= |v.items|
    ensures Neutral(Level(d), PrintItems(v, n))
    decreases v, 0, n
  {
    if n > 0 {
      var it := v.items[n - 1];
      var s := Level(d);
      var comma := if n == 1 then "" else ",";
      NeutralItems(d, v, n - 1);
      NeutralPlain(s, comma);
      NeutralPlain(s, it.before);
      NeutralValue(d, it.value);
      NeutralPlain(s, it.after);
      hide Neutral;
      NeutralConcat(s, PrintItems(v, n - 1), comma);
      NeutralConcat(s, PrintItems(v, n - 1) + comma, it.before);
      NeutralConcat(s, PrintItems(v, n - 1) + comma + it.before, Print(it.value));
      NeutralConcat(s, PrintItems(v, n - 1) + comma + it.before + Print(it.value), it.after);
    }
  }

  lemma {:induction false} NeutralMembers(d: int, v: Json, n: nat)
    requires v.Object? && Valid(v) && n <= |v.members|
    ensures Neutral(Level(d), PrintMembers(v, n))
    decreases v, 0, n
  {
    if n > 0 {
      var s := Level(d);
      var comma := if n == 1 then "" else ",";
      NeutralMembers(d, v, n - 1);
      NeutralPlain(s, comma);
      NeutralMember(d, v.members[n - 1]);
      hide Neutral;
      NeutralConcat(s, PrintMembers(v, n - 1), comma);
      NeutralConcat(s, PrintMembers(v, n - 1) + comma, PrintMember(v.members[n - 1]));
    }
  }

  lemma {:induction false} NeutralMember(d: int, m: Member)
    requires WhiteSpace(m.before) && ValidChars(m.key) && WhiteSpace(m.afterKey)
    requires WhiteSpace(m.beforeValue) && Valid(m.value) && WhiteSpace(m.after)
    ensures Neutral(Level(d), PrintMember(m))
    decreases m, 0
  {
    var s := Level(d);
    NeutralPlain(s, m.before);
    NeutralString(d, m.key);
    NeutralPlain(s, m.afterKey);
    NeutralPlain(s, ":");
    NeutralPlain(s, m.beforeValue);
    NeutralValue(d, m.value);
    NeutralPlain(s, m.after);
    hide Neutral;
    var key := m.before + PrintString(m.key);
    NeutralConcat(s, m.before, PrintString(m.key));
    NeutralConcat(s, key, m.afterKey);
    NeutralConcat(s, key + m.afterKey, ":");
    NeutralConcat(s, m.beforeValue, Print(m.value));
    NeutralConcat(s, m.beforeValue + Print(m.value), m.after);
    NeutralConcat(s, key + m.afterKey + ":", m.beforeValue + Print(m.value) + m.after);
  }

  /** Everything between the braces of an object. */
  lemma {:induction false} NeutralInside(d: int, v: Json)
    requires v.Object? && Valid(v)
    ensures Neutral(Level(d), v.ws + PrintMembers(v, |v.members|))
    decreases v, 0, |v.members| + 1
  {
    NeutralMembers(d, v, |v.members|);
    NeutralPlain(Level(d), v.ws);
    NeutralConcat(Level(d), v.ws, PrintMembers(v, |v.members|));
  }

  // ----- The scanner inverts the printer

  lemma {:induction false} ScansThrough(text: string, i: nat, j: nat, s: Scan)
    requires i <= j <= |text| && Floor(s, 1, text[i..j])
    ensures CloseFrom(text, i, s) == CloseFrom(text, j, Run(s, text[i..j]))
    decreases j - i
  {
    if i < j {
      assert text[i..j][1..] == text[i + 1..j];
      assert Floor(Step(s, text[i]), 1, text[i + 1..j]);
      assert !Closes(s, text[i]);
      ScansThrough(text, i + 1, j, Step(s, text[i]));
    }
  }

  lemma {:induction false} SkipsPrefix(p: string, rest: string, from: nat)
    requires from <= |p| && '{' !in p
    ensures Extract(p + rest, from) == Extract(p + rest, |p|)
    decreases |p| - from
  {
    if from < |p| {
      assert (p + rest)[from] == p[from];
      SkipsPrefix(p, rest, from + 1);
    }
  }

  /** Whatever surrounds it, the first object printed is the one extracted. */
  lemma {:induction false} ExtractInvertsPrint(p: string, v: Json, s: string)
    requires v.Object? && Valid(v)
    requires '{' !in p
    ensures Extract(p + (Print(v) + s), 0) == Print(v)
  {
    var inner := v.ws + PrintMembers(v, |v.members|);
    var printed := "{" + inner + "}";
    var text := p + (printed + s);
    var start, last := |p|, |p| + 1 + |inner|;
    SkipsPrefix(p, printed + s, 0);
    assert text[start] == '{' && text[start + 1..last] == inner && text[last] == '}';
    NeutralInside(1, v);
    ScansThrough(text, start + 1, last, Level(1));
    assert CloseFrom(text, start, Level(0)) == CloseFrom(text, start + 1, Level(1)) == Some(last + 1);
    assert text[start..last + 1] == printed;
  }
}
