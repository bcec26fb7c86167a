/** Conversion of a history to Anthropic messages, where tool results refer to calls by id. */
module AnthropicMessages {
  import opened Text
  import opened AgentLoop

  datatype Block =
    | TextBlock(text: string)
    | ImageBlock(data: string)
    | ToolUse(id: string, name: string, args: string)
    | ToolResult(id: string, payload: Payload)

  datatype Message = Assistant(blocks: seq<Block>) | User(blocks: seq<Block>)

  datatype Pending = Pending(id: string, name: string)

  // ----- Call ids

  function Decimal(n: nat): (s: string)
    ensures |s| >= 1 && forall i :: 0 <= i < |s| ==> '0' <= s[i] <= '9'
    ensures |s| >= 2 <==> n >= 10
  {
    (if n < 10 then "" else Decimal(n / 10)) + [('0' as int + n % 10) as char]
  }

  function NameOrTool(name: string): string {
    if TrimSpace(name) == "" then "tool" else TrimSpace(name)
  }

  function SyntheticToolCallID(index: nat, name: string): (id: string)
    ensures id != ""
  {
    "call_" + (Decimal(index) + ("_" + NameOrTool(name)))
  }

  function UseID(call: Call, index: nat): (id: string)
    ensures id != ""
  {
    if TrimSpace(call.id) == "" then SyntheticToolCallID(index, call.name) else TrimSpace(call.id)
  }

  lemma {:induction false} LastDigit(n: nat)
    ensures var s := Decimal(n);
      && s[|s| - 1] as int == '0' as int + n % 10
      && (n >= 10 ==> s[..|s| - 1] == Decimal(n / 10))
  {
  }

  lemma {:induction false} DecimalInjective(m: nat, n: nat)
    requires Decimal(m) == Decimal(n)
    ensures m == n
  {
    hide Decimal;
    LastDigit(m);
    LastDigit(n);
    assert m % 10 == n % 10;
    if m >= 10 {
      DecimalInjective(m / 10, n / 10);
    }
  }

  /** Digits up to the first character that is not one. */
  lemma {:induction false} SplitDigits(a: string, x: string, b: string, y: string)
    requires a + ("_" + x) == b + ("_" + y)
    requires forall i :: 0 <= i < |a| ==> a[i] != '_'
    requires forall i :: 0 <= i < |b| ==> b[i] != '_'
    ensures a == b && x == y
  {
    var s, t := a + ("_" + x), b + ("_" + y);
    assert s[|a|] == '_' && forall i :: 0 <= i < |a| ==> s[i] == a[i];
    assert t[|b|] == '_' && forall i :: 0 <= i < |b| ==> t[i] == b[i];
    assert s[..|a|] == a && t[..|b|] == b && s[|a| + 1..] == x && t[|b| + 1..] == y;
  }

  /** Ids made up for calls without one clash exactly when the calls stand in the same
      content under the same name. */
  lemma {:induction false} SyntheticIdsClash(i: nat, a: string, j: nat, b: string)
    ensures SyntheticToolCallID(i, a) == SyntheticToolCallID(j, b) <==> i == j && NameOrTool(a) == NameOrTool(b)
  {
    hide NameOrTool;
    var x, y := Decimal(i) + ("_" + NameOrTool(a)), Decimal(j) + ("_" + NameOrTool(b));
    assert ("call_" + x)[5..] == x && ("call_" + y)[5..] == y;
    if x == y {
      SplitDigits(Decimal(i), NameOrTool(a), Decimal(j), NameOrTool(b));
      DecimalInjective(i, j);
    }
  }

  // ----- The pending list

  /** The first pending call of that name, or the length of the list. */
  function FirstNamed(pending: seq<Pending>, name: string): (i: nat)
    ensures i <= |pending|
  {
    if pending == [] then 0
    else if TrimSpace(pending[0].name) == TrimSpace(name) then 0
    else 1 + FirstNamed(pending[1..], name)
  }

  function Consume(pending: seq<Pending>, name: string): (string, seq<Pending>) {
    var i := FirstNamed(pending, name);
    if i < |pending| then (pending[i].id, pending[..i] + pending[i + 1..])
    else if pending != [] then (pending[0].id, pending[1..])
    else ("", [])
  }

  lemma {:induction false} FirstNamedUnique(pending: seq<Pending>, name: string, i: nat)
    requires i <= |pending|
    requires i < |pending| ==> TrimSpace(pending[i].name) == TrimSpace(name)
    requires forall j :: 0 <= j < i ==> TrimSpace(pending[j].name) != TrimSpace(name)
    ensures FirstNamed(pending, name) == i
    decreases i
  {
    hide TrimSpace;
    if i > 0 {
      assert forall j :: 0 <= j < i - 1 ==> pending[1..][j] == pending[j + 1];
      FirstNamedUnique(pending[1..], name, i - 1);
    }
  }

  /** The call that a response of that name answers: the first of the same name, names
      trimmed, and the oldest of all if there is none. */
  predicate Picks(pending: seq<Pending>, name: string, i: nat) {
    && i < |pending|
    && (TrimSpace(pending[i].name) == TrimSpace(name) ==>
          forall j :: 0 <= j < i ==> TrimSpace(pending[j].name) != TrimSpace(name))
    && (TrimSpace(pending[i].name) != TrimSpace(name) ==>
          i == 0 && forall j :: 0 <= j < |pending| ==> TrimSpace(pending[j].name) != TrimSpace(name))
  }

  class PendingCalls {
    var calls: seq<Pending>

    constructor ()
      ensures calls == []
    {
      calls := [];
    }

    method ConsumePendingToolCall(name: string) returns (consumed: string)
      modifies this
      ensures (consumed, calls) == Consume(old(calls), name)
      ensures old(calls) == [] ==> consumed == "" && calls == []
      ensures old(calls) != [] ==>
        exists i: nat :: Picks(old(calls), name, i)
          && consumed == old(calls)[i].id && calls == old(calls)[..i] + old(calls)[i + 1..]
    {
      hide TrimSpace;
      if |calls| == 0 {
        return "";
      }
      for i := 0 to |calls|
        invariant calls == old(calls)
        invariant forall j :: 0 <= j < i ==> TrimSpace(calls[j].name) != TrimSpace(name)
      {
        if TrimSpace(calls[i].name) != TrimSpace(name) {
          continue;
        }
        FirstNamedUnique(calls, name, i);
        assert Picks(calls, name, i);
        consumed := calls[i].id;
        calls := calls[..i] + calls[i + 1..];
        return;
      }
      FirstNamedUnique(calls, name, |calls|);
      assert Picks(calls, name, 0) && calls[1..] == calls[..0] + calls[1..];
      consumed := calls[0].id;
      calls := calls[1..];
    }
  }

  // ----- Contents to messages

  /** The calls that become tool_use blocks. */
  function EmittedCalls(parts: seq<Part>): seq<Call> {
    if parts == [] then []
    else (if !parts[0].thought && parts[0].call.Some? then [parts[0].call.value] else []) + EmittedCalls(parts[1..])
  }

  function PartBlocks(part: Part, index: nat): seq<Block> {
    if part.thought then [] else
      (if part.text != "" then [TextBlock(part.text)] else []) +
      (if part.call.Some? then [ToolUse(UseID(part.call.value, index), part.call.value.name, part.call.value.args)] else [])
  }

  function AssistantBlocksOf(parts: seq<Part>, index: nat): seq<Block> {
    if parts == [] then [] else PartBlocks(parts[0], index) + AssistantBlocksOf(parts[1..], index)
  }

  function UserPart(part: Part): seq<Block> {
    if part.text != "" then [TextBlock(part.text)]
    else if part.image.Some? && part.image.value != "" then [ImageBlock(part.image.value)]
    else []
  }

  function UserBlocksOf(parts: seq<Part>): seq<Block> {
    if parts == [] then [] else UserPart(parts[0]) + UserBlocksOf(parts[1..])
  }

  function Emit(c: Content, index: nat): seq<Message> {
    if IsModel(c.role) then
      var blocks := AssistantBlocksOf(c.parts, index);
      if blocks == [] then [] else [Assistant(blocks)]
    else
      var blocks := UserBlocksOf(c.parts);
      if blocks == [] then [] else [User(blocks)]
  }

  function PendingOf(calls: seq<Call>, index: nat): seq<Pending> {
    seq(|calls|, k requires 0 <= k < |calls| => Pending(UseID(calls[k], index), calls[k].name))
  }

  function AddedPending(c: Content, index: nat): seq<Pending> {
    if IsModel(c.role) then PendingOf(EmittedCalls(c.parts), index) else []
  }

  /** The tool_result blocks of one content, and what stays pending. */
  function ResultBlocks(pending: seq<Pending>, responses: seq<Response>, index: nat): (seq<Block>, seq<Pending>)
    decreases |responses|
  {
    if responses == [] then ([], pending) else
      var (id, rest) := Consume(pending, responses[0].name);
      var callID := if id == "" then SyntheticToolCallID(index, responses[0].name) else id;
      var (blocks, left) := ResultBlocks(rest, responses[1..], index);
      ([ToolResult(callID, responses[0].payload)] + blocks, left)
  }

  function Flush(results: seq<Block>): seq<Message> {
    if results == [] then [] else [User(results)]
  }

  /** The messages still to come from position `i`. */
  function Converted(contents: seq<Content>, i: nat, pending: seq<Pending>, results: seq<Block>): seq<Message>
    requires i <= |contents|
    decreases |contents| - i
  {
    if i == |contents| then Flush(results)
    else if IsResponse(contents[i]) then
      var (blocks, left) := ResultBlocks(pending, ResponsesOf(contents[i].parts), i);
      Converted(contents, i + 1, left, results + blocks)
    else
      Flush(results) + (Emit(contents[i], i) + Converted(contents, i + 1, pending + AddedPending(contents[i], i), []))
  }

  ghost predicate UserSoFar(parts: seq<Part>, i: nat, blocks: seq<Block>) {
    i <= |parts| && blocks + UserBlocksOf(parts[i..]) == UserBlocksOf(parts)
  }

  lemma {:induction false} UserNext(parts: seq<Part>, i: nat, blocks: seq<Block>)
    requires i < |parts| && UserSoFar(parts, i, blocks)
    ensures UserSoFar(parts, i + 1, blocks + UserPart(parts[i])) && blocks + [] == blocks
  {
    assert parts[i..][1..] == parts[i + 1..];
    hide UserPart;
    assert blocks + (UserPart(parts[i]) + UserBlocksOf(parts[i + 1..])) == blocks + UserPart(parts[i]) + UserBlocksOf(parts[i + 1..]);
  }

  method AnthropicUserBlocks(parts: seq<Part>) returns (blocks: seq<Block>)
    ensures blocks == UserBlocksOf(parts)
  {
    blocks := [];
    assert UserSoFar(parts, 0, []) by {
      assert parts[0..] == parts && [] + UserBlocksOf(parts) == UserBlocksOf(parts);
    }
    for i := 0 to |parts|
      invariant UserSoFar(parts, i, blocks)
    {
      hide UserSoFar, UserBlocksOf;
      UserNext(parts, i, blocks);
      if parts[i].text != "" {
        blocks := blocks + [TextBlock(parts[i].text)];
      } else if parts[i].image.Some? && parts[i].image.value != "" {
        blocks := blocks + [ImageBlock(parts[i].image.value)];
      }
    }
    assert blocks + [] == blocks;
  }

  ghost predicate AssistantSoFar(parts: seq<Part>, index: nat, i: nat, blocks: seq<Block>, added: seq<Pending>) {
    && i <= |parts|
    && blocks + AssistantBlocksOf(parts[i..], index) == AssistantBlocksOf(parts, index)
    && added + PendingOf(EmittedCalls(parts[i..]), index) == PendingOf(EmittedCalls(parts), index)
  }

  lemma {:induction false} AssistantStart(parts: seq<Part>, index: nat)
    ensures AssistantSoFar(parts, index, 0, [], [])
  {
    assert parts[0..] == parts;
    assert [] + AssistantBlocksOf(parts, index) == AssistantBlocksOf(parts, index);
  }

  lemma {:induction false} AssistantEnd(parts: seq<Part>, index: nat, blocks: seq<Block>, added: seq<Pending>)
    requires AssistantSoFar(parts, index, |parts|, blocks, added)
    ensures blocks == AssistantBlocksOf(parts, index) && added == PendingOf(EmittedCalls(parts), index)
  {
    assert blocks + [] == blocks && added + [] == added;
  }

  lemma {:induction false} NextBlocks(parts: seq<Part>, index: nat, i: nat, blocks: seq<Block>)
    requires i < |parts|
    ensures blocks + AssistantBlocksOf(parts[i..], index)
      == blocks + PartBlocks(parts[i], index) + AssistantBlocksOf(parts[i + 1..], index)
  {
    assert parts[i..][1..] == parts[i + 1..];
    hide PartBlocks;
    assert blocks + (PartBlocks(parts[i], index) + AssistantBlocksOf(parts[i + 1..], index))
        == blocks + PartBlocks(parts[i], index) + AssistantBlocksOf(parts[i + 1..], index);
  }

  lemma {:induction false} PendingCons(call: Call, rest: seq<Call>, index: nat, added: seq<Pending>)
    ensures added + PendingOf([call] + rest, index)
      == added + [Pending(UseID(call, index), call.name)] + PendingOf(rest, index)
  {
    hide UseID;
    assert PendingOf([call] + rest, index) == [Pending(UseID(call, index), call.name)] + PendingOf(rest, index);
  }

  lemma {:induction false} NextPending(parts: seq<Part>, index: nat, i: nat, added: seq<Pending>)
    requires i < |parts|
    ensures added + PendingOf(EmittedCalls(parts[i..]), index) ==
      (if !parts[i].thought && parts[i].call.Some?
       then added + [Pending(UseID(parts[i].call.value, index), parts[i].call.value.name)] else added)
      + PendingOf(EmittedCalls(parts[i + 1..]), index)
  {
    hide UseID, PendingOf;
    assert parts[i..][1..] == parts[i + 1..];
    var rest := EmittedCalls(parts[i + 1..]);
    if !parts[i].thought && parts[i].call.Some? {
      PendingCons(parts[i].call.value, rest, index, added);
    } else {
      assert [] + rest == rest;
    }
  }

  lemma PartAppended(blocks: seq<Block>, part: Part, index: nat)
    ensures blocks + PartBlocks(part, index) ==
      if part.thought then blocks else
        var a := if part.text != "" then blocks + [TextBlock(part.text)] else blocks;
        if part.call.Some? then
          a + [ToolUse(UseID(part.call.value, index), part.call.value.name, part.call.value.args)]
        else a
  {
    hide UseID;
  }

  /** The blocks of an assistant message, and its calls for the pending list. */
  method AnthropicAssistantBlocks(parts: seq<Part>, index: nat) returns (blocks: seq<Block>, added: seq<Pending>)
    ensures blocks == AssistantBlocksOf(parts, index)
    ensures added == PendingOf(EmittedCalls(parts), index)
  {
    blocks, added := [], [];
    AssistantStart(parts, index);
    for i := 0 to |parts|
      invariant AssistantSoFar(parts, index, i, blocks, added)
    {
      hide TrimSpace, PendingOf, PartBlocks, EmittedCalls, AssistantBlocksOf;
      var part := parts[i];
      NextBlocks(parts, index, i, blocks);
      NextPending(parts, index, i, added);
      PartAppended(blocks, part, index);
      if part.thought {
        continue;
      }
      if part.text != "" {
        blocks := blocks + [TextBlock(part.text)];
      }
      if part.call.Some? {
        var id := TrimSpace(part.call.value.id);
        if id == "" {
          id := SyntheticToolCallID(index, part.call.value.name);
        }
        assert id == UseID(part.call.value, index);
        blocks := blocks + [ToolUse(id, part.call.value.name, part.call.value.args)];
        added := added + [Pending(id, part.call.value.name)];
      }
    }
    AssistantEnd(parts, index, blocks, added);
  }

  /** What is written so far and what is still to come make up the whole. */
  ghost predicate MessagesSoFar(contents: seq<Content>, i: nat, pending: seq<Pending>, results: seq<Block>, messages: seq<Message>) {
    i <= |contents| && messages + Converted(contents, i, pending, results) == Converted(contents, 0, [], [])
  }

  lemma MessagesStart(contents: seq<Content>)
    ensures MessagesSoFar(contents, 0, [], [], [])
  {
    hide Converted;
    assert [] + Converted(contents, 0, [], []) == Converted(contents, 0, [], []);
  }

  lemma {:induction false} MessagesNext(contents: seq<Content>, i: nat, pending: seq<Pending>, results: seq<Block>, messages: seq<Message>)
    requires i < |contents| && MessagesSoFar(contents, i, pending, results, messages)
    ensures IsResponse(contents[i]) ==>
      var (blocks, left) := ResultBlocks(pending, ResponsesOf(contents[i].parts), i);
      MessagesSoFar(contents, i + 1, left, results + blocks, messages)
    ensures !IsResponse(contents[i]) ==>
      MessagesSoFar(contents, i + 1, pending + AddedPending(contents[i], i), [], messages + Flush(results) + Emit(contents[i], i))
  {
    hide Converted, ResultBlocks, AddedPending, Emit, IsResponse, Flush;
    ConvertedStep(contents, i, pending, results, messages);
  }

  lemma MessagesEnd(contents: seq<Content>, pending: seq<Pending>, results: seq<Block>, messages: seq<Message>)
    requires MessagesSoFar(contents, |contents|, pending, results, messages)
    ensures messages + Flush(results) == Converted(contents, 0, [], [])
  {
  }

  lemma AppendNothing(messages: seq<Message>, pending: seq<Pending>)
    ensures messages + [] == messages && pending + [] == pending
  {
  }

  /** The messages of a whole history. */
  method ContentsToAnthropicMessages(contents: seq<Content>) returns (messages: seq<Message>)
    ensures messages == Converted(contents, 0, [], [])
    ensures Items(messages) == AllGiven(contents, 0) && NoneEmpty(messages)
  {
    ConversionKeepsContent(contents);
    NoEmptyMessage(contents, 0, [], []);
    hide Items, AllGiven, NoneEmpty;
    hide AddedPending, Emit, AssistantBlocksOf, UserBlocksOf, EmittedCalls, PendingOf, IsModel;
    hide Converted, IsResponse, ResultBlocks, ResponsesOf, MessagesSoFar, Flush;
    messages := [];
    var pending := new PendingCalls();
    var pendingToolResults: seq<Block> := [];
    MessagesStart(contents);
    for i := 0 to |contents|
      invariant fresh(pending)
      invariant MessagesSoFar(contents, i, pending.calls, pendingToolResults, messages)
    {
      MessagesNext(contents, i, pending.calls, pendingToolResults, messages);
      var content := contents[i];
      if IsResponse(content) {
        var blocks := ResultsOf(content, i, pending);
        pendingToolResults := pendingToolResults + blocks;
        continue;
      }
      messages := messages + Flush(pendingToolResults);
      pendingToolResults := [];
      AppendNothing(messages, pending.calls);
      if IsModel(content.role) {
        EmitModel(content, i);
        var blocks, added := AnthropicAssistantBlocks(content.parts, i);
        if |blocks| == 0 {
          continue;
        }
        messages := messages + [Assistant(blocks)];
        pending.calls := pending.calls + added;
      } else {
        EmitUser(content, i);
        var blocks := AnthropicUserBlocks(content.parts);
        if |blocks| == 0 {
          continue;
        }
        messages := messages + [User(blocks)];
      }
    }
    MessagesEnd(contents, pending.calls, pendingToolResults, messages);
    messages := messages + Flush(pendingToolResults);
  }

  /** `blocks` and `pending` are what the responses before part `i` have made of `was`. */
  ghost predicate ResultsSoFar(parts: seq<Part>, index: nat, was: seq<Pending>, i: nat, blocks: seq<Block>, pending: seq<Pending>) {
    i <= |parts| &&
    var (more, left) := ResultBlocks(pending, ResponsesOf(parts[i..]), index);
    (blocks + more, left) == ResultBlocks(was, ResponsesOf(parts), index)
  }

  lemma {:induction false} ResultsStart(parts: seq<Part>, index: nat, was: seq<Pending>)
    ensures ResultsSoFar(parts, index, was, 0, [], was)
  {
    assert parts[0..] == parts;
    var blocks := ResultBlocks(was, ResponsesOf(parts), index).0;
    assert [] + blocks == blocks;
  }

  lemma {:induction false} ResultsEnd(parts: seq<Part>, index: nat, was: seq<Pending>, blocks: seq<Block>, pending: seq<Pending>)
    requires ResultsSoFar(parts, index, was, |parts|, blocks, pending)
    ensures (blocks, pending) == ResultBlocks(was, ResponsesOf(parts), index)
  {
    assert blocks + [] == blocks;
  }

  lemma {:induction false} ResultsNext(parts: seq<Part>, index: nat, was: seq<Pending>, i: nat, blocks: seq<Block>, pending: seq<Pending>)
    requires i < |parts| && ResultsSoFar(parts, index, was, i, blocks, pending)
    ensures parts[i].response.None? ==> ResultsSoFar(parts, index, was, i + 1, blocks, pending)
    ensures parts[i].response.Some? ==>
      var r := parts[i].response.value;
      var (id, left) := Consume(pending, r.name);
      var callID := if id == "" then SyntheticToolCallID(index, r.name) else id;
      ResultsSoFar(parts, index, was, i + 1, blocks + [ToolResult(callID, r.payload)], left)
  {
    assert parts[i..][1..] == parts[i + 1..];
    var rest := ResponsesOf(parts[i + 1..]);
    hide ResultBlocks;
    if parts[i].response.Some? {
      NextResult(pending, parts[i].response.value, rest, index, blocks);
    } else {
      assert [] + rest == rest;
    }
  }

  lemma {:induction false} NextResult(pending: seq<Pending>, r: Response, rest: seq<Response>, index: nat, before: seq<Block>)
    ensures var (id, left) := Consume(pending, r.name);
      var callID := if id == "" then SyntheticToolCallID(index, r.name) else id;
      && before + ResultBlocks(pending, [r] + rest, index).0
        == before + [ToolResult(callID, r.payload)] + ResultBlocks(left, rest, index).0
      && ResultBlocks(pending, [r] + rest, index).1 == ResultBlocks(left, rest, index).1
  {
    hide Consume, SyntheticToolCallID;
    var all := [r] + rest;
    assert all[0] == r && all[1..] == rest;
    var (id, left) := Consume(pending, r.name);
    var callID := if id == "" then SyntheticToolCallID(index, r.name) else id;
    var more := ResultBlocks(left, rest, index).0;
    assert before + ([ToolResult(callID, r.payload)] + more) == before + [ToolResult(callID, r.payload)] + more;
  }

  /** The tool_result blocks of one content, each naming the call it consumes. */
  method ResultsOf(content: Content, index: nat, pending: PendingCalls) returns (blocks: seq<Block>)
    modifies pending
    ensures (blocks, pending.calls) == ResultBlocks(old(pending.calls), ResponsesOf(content.parts), index)
  {
    hide Consume, SyntheticToolCallID, ResultBlocks, ResponsesOf, ResultsSoFar;
    blocks := [];
    ResultsStart(content.parts, index, pending.calls);
    for i := 0 to |content.parts|
      invariant ResultsSoFar(content.parts, index, old(pending.calls), i, blocks, pending.calls)
    {
      ResultsNext(content.parts, index, old(pending.calls), i, blocks, pending.calls);
      var part := content.parts[i];
      if part.response.None? {
        continue;
      }
      var callID := pending.ConsumePendingToolCall(part.response.value.name);
      if callID == "" {
        callID := SyntheticToolCallID(index, part.response.value.name);
      }
      blocks := blocks + [ToolResult(callID, part.response.value.payload)];
    }
    ResultsEnd(content.parts, index, old(pending.calls), blocks, pending.calls);
  }

  lemma {:induction false} ConvertedStep(contents: seq<Content>, i: nat, pending: seq<Pending>, results: seq<Block>, messages: seq<Message>)
    requires i < |contents|
    ensures messages + Converted(contents, i, pending, results) ==
      if IsResponse(contents[i]) then
        var (blocks, left) := ResultBlocks(pending, ResponsesOf(contents[i].parts), i);
        messages + Converted(contents, i + 1, left, results + blocks)
      else
        messages + Flush(results) + Emit(contents[i], i)
        + Converted(contents, i + 1, pending + AddedPending(contents[i], i), [])
  {
    hide IsResponse, ResultBlocks, Emit, AddedPending, Flush;
    if !IsResponse(contents[i]) {
      var a, b, c := Flush(results), Emit(contents[i], i), Converted(contents, i + 1, pending + AddedPending(contents[i], i), []);
      assert messages + (a + (b + c)) == messages + a + b + c;
    }
  }

  lemma EmitModel(c: Content, i: nat)
    requires IsModel(c.role)
    ensures Emit(c, i) == if AssistantBlocksOf(c.parts, i) == [] then [] else [Assistant(AssistantBlocksOf(c.parts, i))]
    ensures AddedPending(c, i) == PendingOf(EmittedCalls(c.parts), i)
    ensures AssistantBlocksOf(c.parts, i) == [] ==> AddedPending(c, i) == []
  {
    if AssistantBlocksOf(c.parts, i) == [] {
      SilentMeansNoCalls(c.parts, i);
    }
  }

  lemma EmitUser(c: Content, i: nat)
    requires !IsModel(c.role)
    ensures Emit(c, i) == if UserBlocksOf(c.parts) == [] then [] else [User(UserBlocksOf(c.parts))]
    ensures AddedPending(c, i) == []
  {
  }

  lemma {:induction false} SilentMeansNoCalls(parts: seq<Part>, index: nat)
    requires AssistantBlocksOf(parts, index) == []
    ensures EmittedCalls(parts) == []
  {
    if parts != [] {
      SilentMeansNoCalls(parts[1..], index);
    }
  }

  // ----- What is in the messages

  /** One thing a message says, and whether the assistant says it. */
  datatype Item =
    | Said(byModel: bool, text: string)
    | Shown(byModel: bool, data: string)
    | Called(byModel: bool, id: string, name: string, args: string)
    | Answered(byModel: bool, payload: Payload)

  function ItemOf(byModel: bool, b: Block): Item {
    match b
    case TextBlock(text) => Said(byModel, text)
    case ImageBlock(data) => Shown(byModel, data)
    case ToolUse(id, name, args) => Called(byModel, id, name, args)
    case ToolResult(_, payload) => Answered(byModel, payload)
  }

  function ItemsIn(byModel: bool, blocks: seq<Block>): seq<Item> {
    seq(|blocks|, i requires 0 <= i < |blocks| => ItemOf(byModel, blocks[i]))
  }

  /** All that the messages say, in order. */
  function Items(messages: seq<Message>): seq<Item> {
    if messages == [] then [] else ItemsIn(messages[0].Assistant?, messages[0].blocks) + Items(messages[1..])
  }

  // What a part of a content has to say: text unless it is a thought of the model, an image
  // of the user's that has no text, a call of the model's that is no thought, and always the
  // answer to a call. A content with answers says nothing else.

  predicate Tells(c: Content, p: Part) {
    p.text != "" && !IsResponse(c) && !(IsModel(c.role) && p.thought)
  }

  predicate Pictures(c: Content, p: Part) {
    p.image.Some? && p.image.value != "" && p.text == "" && !IsResponse(c) && !IsModel(c.role)
  }

  predicate Calls(c: Content, p: Part) {
    p.call.Some? && IsModel(c.role) && !p.thought && !IsResponse(c)
  }

  /** A call goes by its own id, or else by its place in the history and its name. */
  function IdGiven(call: Call, index: nat): string {
    if TrimSpace(call.id) != "" then TrimSpace(call.id) else MadeUp(index, call.name)
  }

  function MadeUp(index: nat, name: string): string {
    "call_" + Decimal(index) + "_" + (if TrimSpace(name) != "" then TrimSpace(name) else "tool")
  }

  lemma MadeUpIs(index: nat, name: string)
    ensures SyntheticToolCallID(index, name) == MadeUp(index, name)
  {
    hide TrimSpace, Decimal;
  }

  lemma IdGivenIs(call: Call, index: nat)
    ensures UseID(call, index) == IdGiven(call, index)
  {
    hide TrimSpace, Decimal, SyntheticToolCallID, MadeUp;
    MadeUpIs(index, call.name);
  }

  /** The number that the digits spell. */
  ghost function ReadDecimal(s: string): int {
    if s == "" then 0 else 10 * ReadDecimal(s[..|s| - 1]) + (s[|s| - 1] as int - '0' as int)
  }

  lemma {:induction false} DecimalReads(n: nat)
    ensures ReadDecimal(Decimal(n)) == n
  {
    LastDigit(n);
    var s := Decimal(n);
    if n >= 10 {
      hide Decimal;
      DecimalReads(n / 10);
    } else {
      assert s[..|s| - 1] == "";
      assert ReadDecimal("") == 0;
    }
  }

  /** A response for which no call is pending is numbered by its own place. */
  lemma {:induction false} OrphansAreNumbered(responses: seq<Response>, index: nat, k: nat)
    requires k < |responses|
    ensures var blocks := ResultBlocks([], responses, index).0;
      |blocks| == |responses| && blocks[k] == ToolResult(MadeUp(index, responses[k].name), responses[k].payload)
    decreases |responses|
  {
    hide SyntheticToolCallID, MadeUp, TrimSpace;
    assert Consume([], responses[0].name) == ("", []);
    if |responses| > 1 {
      OrphansAreNumbered(responses[1..], index, if k > 0 then k - 1 else 0);
    } else {
      assert responses[1..] == [];
      assert ResultBlocks([], [], index).0 == [];
    }
    MadeUpIs(index, responses[0].name);
  }

  function Given(c: Content, index: nat, p: Part): seq<Item> {
    (if Tells(c, p) then [Said(IsModel(c.role), p.text)] else [])
    + (if Pictures(c, p) then [Shown(false, p.image.value)] else [])
    + (if Calls(c, p) then [Called(true, IdGiven(p.call.value, index), p.call.value.name, p.call.value.args)] else [])
    + (if p.response.Some? then [Answered(false, p.response.value.payload)] else [])
  }

  function GivenBy(c: Content, index: nat, parts: seq<Part>): seq<Item> {
    if parts == [] then [] else Given(c, index, parts[0]) + GivenBy(c, index, parts[1..])
  }

  /** All that the contents have to say from position `i` on. */
  function AllGiven(contents: seq<Content>, i: nat): seq<Item>
    requires i <= |contents|
    decreases |contents| - i
  {
    if i == |contents| then [] else GivenBy(contents[i], i, contents[i].parts) + AllGiven(contents, i + 1)
  }

  lemma ItemsInConcat(byModel: bool, a: seq<Block>, b: seq<Block>)
    ensures ItemsIn(byModel, a + b) == ItemsIn(byModel, a) + ItemsIn(byModel, b)
  {
    hide ItemOf;
  }

  lemma {:induction false} ItemsConcat(a: seq<Message>, b: seq<Message>)
    ensures Items(a + b) == Items(a) + Items(b)
  {
    hide ItemsIn;
    if a == [] {
      assert a + b == b && [] + Items(b) == Items(b);
    } else {
      ItemsConcat(a[1..], b);
      assert (a + b)[1..] == a[1..] + b;
      var x, y, z := ItemsIn(a[0].Assistant?, a[0].blocks), Items(a[1..]), Items(b);
      assert x + (y + z) == x + y + z;
    }
  }

  lemma OneMessage(m: Message)
    ensures Items([m]) == ItemsIn(m.Assistant?, m.blocks)
  {
    hide ItemsIn;
    assert [m][1..] == [];
    assert Items([]) == [];
    var x := ItemsIn(m.Assistant?, m.blocks);
    assert x + [] == x;
  }

  lemma FlushItems(results: seq<Block>)
    ensures Items(Flush(results)) == ItemsIn(false, results)
  {
    if results != [] {
      OneMessage(User(results));
    }
  }

  lemma AssistantPart(c: Content, index: nat, p: Part)
    requires IsModel(c.role) && !IsResponse(c) && p.response.None?
    ensures ItemsIn(true, PartBlocks(p, index)) == Given(c, index, p)
  {
    hide UseID, IdGiven, IsModel, IsResponse;
    if p.call.Some? {
      IdGivenIs(p.call.value, index);
    }
  }

  lemma UserPartGiven(c: Content, index: nat, p: Part)
    requires !IsModel(c.role) && !IsResponse(c) && p.response.None?
    ensures ItemsIn(false, UserPart(p)) == Given(c, index, p)
  {
    hide IdGiven, IsModel, IsResponse;
  }

  lemma {:induction false} PartsGiven(c: Content, index: nat, parts: seq<Part>)
    requires !IsResponse(c) && forall i :: 0 <= i < |parts| ==> parts[i].response.None?
    ensures IsModel(c.role) ==> ItemsIn(true, AssistantBlocksOf(parts, index)) == GivenBy(c, index, parts)
    ensures !IsModel(c.role) ==> ItemsIn(false, UserBlocksOf(parts)) == GivenBy(c, index, parts)
  {
    hide IsModel, IsResponse, Given, PartBlocks, UserPart, ItemsIn;
    if parts == [] {
      NoItems();
    } else {
      PartsGiven(c, index, parts[1..]);
      if IsModel(c.role) {
        AssistantPart(c, index, parts[0]);
        ItemsInConcat(true, PartBlocks(parts[0], index), AssistantBlocksOf(parts[1..], index));
      } else {
        UserPartGiven(c, index, parts[0]);
        ItemsInConcat(false, UserPart(parts[0]), UserBlocksOf(parts[1..]));
      }
    }
  }

  lemma NoItems()
    ensures ItemsIn(true, []) == [] && ItemsIn(false, []) == []
  {
  }

  lemma EmitGiven(c: Content, index: nat)
    requires !IsResponse(c)
    ensures Items(Emit(c, index)) == GivenBy(c, index, c.parts)
  {
    PartsGiven(c, index, c.parts);
    NoItems();
    hide IsModel, IsResponse, ItemsIn, GivenBy, AssistantBlocksOf, UserBlocksOf;
    if IsModel(c.role) {
      OneMessage(Assistant(AssistantBlocksOf(c.parts, index)));
    } else {
      OneMessage(User(UserBlocksOf(c.parts)));
    }
  }

  lemma ResponsePart(c: Content, index: nat, p: Part)
    requires IsResponse(c)
    ensures Given(c, index, p) == if p.response.Some? then [Answered(false, p.response.value.payload)] else []
  {
    hide IsResponse, IsModel, IdGiven;
  }

  lemma {:induction false} ResponsesGiven(c: Content, index: nat, parts: seq<Part>, pending: seq<Pending>)
    requires IsResponse(c)
    ensures ItemsIn(false, ResultBlocks(pending, ResponsesOf(parts), index).0) == GivenBy(c, index, parts)
    decreases |parts|
  {
    hide IsResponse, Given, ItemsIn, Consume, SyntheticToolCallID;
    if parts == [] {
      NoItems();
    } else {
      ResponsePart(c, index, parts[0]);
      var rest := ResponsesOf(parts[1..]);
      if parts[0].response.Some? {
        var r := parts[0].response.value;
        NextResult(pending, r, rest, index, []);
        var left := Consume(pending, r.name).1;
        ResponsesGiven(c, index, parts[1..], left);
        FirstAnswer(pending, r, rest, index);
      } else {
        ResponsesGiven(c, index, parts[1..], pending);
        assert [] + rest == rest;
        assert [] + GivenBy(c, index, parts[1..]) == GivenBy(c, index, parts[1..]);
      }
    }
  }

  lemma FirstAnswer(pending: seq<Pending>, r: Response, rest: seq<Response>, index: nat)
    ensures ItemsIn(false, ResultBlocks(pending, [r] + rest, index).0)
      == [Answered(false, r.payload)] + ItemsIn(false, ResultBlocks(Consume(pending, r.name).1, rest, index).0)
  {
    hide Consume, SyntheticToolCallID, ResultBlocks, ItemsIn;
    NextResult(pending, r, rest, index, []);
    var (id, left) := Consume(pending, r.name);
    var callID := if id == "" then SyntheticToolCallID(index, r.name) else id;
    var all, more := ResultBlocks(pending, [r] + rest, index).0, ResultBlocks(left, rest, index).0;
    assert [] + all == all && [] + [ToolResult(callID, r.payload)] + more == [ToolResult(callID, r.payload)] + more;
    ItemsInConcat(false, [ToolResult(callID, r.payload)], more);
    OneAnswer(callID, r.payload);
  }

  lemma OneAnswer(id: string, payload: Payload)
    ensures ItemsIn(false, [ToolResult(id, payload)]) == [Answered(false, payload)]
  {
  }

  lemma NoneAnswers(c: Content)
    requires !IsResponse(c)
    ensures forall i :: 0 <= i < |c.parts| ==> c.parts[i].response.None?
  {
  }

  lemma {:induction false} ConvertedGiven(contents: seq<Content>, i: nat, pending: seq<Pending>, results: seq<Block>)
    requires i <= |contents|
    ensures Items(Converted(contents, i, pending, results)) == ItemsIn(false, results) + AllGiven(contents, i)
    decreases |contents| - i
  {
    hide IsResponse, ResultBlocks, Emit, Flush, Items, ItemsIn, GivenBy, AddedPending;
    if i == |contents| {
      FlushItems(results);
      assert ItemsIn(false, results) + [] == ItemsIn(false, results);
    } else if IsResponse(contents[i]) {
      var (blocks, left) := ResultBlocks(pending, ResponsesOf(contents[i].parts), i);
      ConvertedGiven(contents, i + 1, left, results + blocks);
      ResponsesGiven(contents[i], i, contents[i].parts, pending);
      ItemsInConcat(false, results, blocks);
      var x, y, z := ItemsIn(false, results), GivenBy(contents[i], i, contents[i].parts), AllGiven(contents, i + 1);
      assert x + y + z == x + (y + z);
    } else {
      var added := pending + AddedPending(contents[i], i);
      ConvertedGiven(contents, i + 1, added, []);
      NoItems();
      EmitGiven(contents[i], i);
      FlushItems(results);
      var tail := Converted(contents, i + 1, added, []);
      ItemsConcat(Flush(results), Emit(contents[i], i) + tail);
      ItemsConcat(Emit(contents[i], i), tail);
      assert [] + AllGiven(contents, i + 1) == AllGiven(contents, i + 1);
    }
  }

  /** Conversion neither drops nor adds, moves nor relabels anything: the messages say what
      the contents have to say, in order, each in the role of its content. */
  lemma {:induction false} ConversionKeepsContent(contents: seq<Content>)
    ensures Items(Converted(contents, 0, [], [])) == AllGiven(contents, 0)
  {
    hide Converted, AllGiven, Items;
    ConvertedGiven(contents, 0, [], []);
    NoItems();
    assert [] + AllGiven(contents, 0) == AllGiven(contents, 0);
  }

  predicate NoneEmpty(messages: seq<Message>) {
    forall m :: m in messages ==> m.blocks != []
  }

  lemma NoneEmptyConcat(a: seq<Message>, b: seq<Message>)
    requires NoneEmpty(a) && NoneEmpty(b)
    ensures NoneEmpty(a + b)
  {
  }

  lemma EmitNoneEmpty(c: Content, index: nat, results: seq<Block>)
    ensures NoneEmpty(Emit(c, index)) && NoneEmpty(Flush(results))
  {
    hide AssistantBlocksOf, UserBlocksOf, IsModel;
  }

  lemma {:induction false} NoEmptyMessage(contents: seq<Content>, i: nat, pending: seq<Pending>, results: seq<Block>)
    requires i <= |contents|
    ensures NoneEmpty(Converted(contents, i, pending, results))
    decreases |contents| - i
  {
    hide IsResponse, ResultBlocks, AddedPending, Emit, Flush, NoneEmpty;
    if i == |contents| {
      EmitNoneEmpty(Content("", []), 0, results);
    } else if IsResponse(contents[i]) {
      var (blocks, left) := ResultBlocks(pending, ResponsesOf(contents[i].parts), i);
      NoEmptyMessage(contents, i + 1, left, results + blocks);
    } else {
      var added := pending + AddedPending(contents[i], i);
      NoEmptyMessage(contents, i + 1, added, []);
      EmitNoneEmpty(contents[i], i, results);
      NoneEmptyConcat(Emit(contents[i], i), Converted(contents, i + 1, added, []));
      NoneEmptyConcat(Flush(results), Emit(contents[i], i) + Converted(contents, i + 1, added, []));
    }
  }

  // ----- Runs of responses

  function RunEnd(contents: seq<Content>, i: nat): (j: nat)
    requires i <= |contents|
    ensures i <= j <= |contents|
    decreases |contents| - i
  {
    if i < |contents| && IsResponse(contents[i]) then RunEnd(contents, i + 1) else i
  }

  /** All results of the run that starts at `i`, and what stays pending. */
  function RunBlocks(contents: seq<Content>, i: nat, pending: seq<Pending>): (seq<Block>, seq<Pending>)
    requires i <= |contents|
    decreases |contents| - i
  {
    if i < |contents| && IsResponse(contents[i]) then
      var (blocks, left) := ResultBlocks(pending, ResponsesOf(contents[i].parts), i);
      var (more, rest) := RunBlocks(contents, i + 1, left);
      (blocks + more, rest)
    else ([], pending)
  }

  /** The responses of the run that starts at `i`. */
  function RunResponses(contents: seq<Content>, i: nat): seq<Response>
    requires i <= |contents|
    decreases |contents| - i
  {
    if i < |contents| && IsResponse(contents[i]) then
      ResponsesOf(contents[i].parts) + RunResponses(contents, i + 1)
    else []
  }

  lemma ConvertedResponse(contents: seq<Content>, i: nat, pending: seq<Pending>, results: seq<Block>)
    requires i < |contents| && IsResponse(contents[i])
    ensures var (blocks, left) := ResultBlocks(pending, ResponsesOf(contents[i].parts), i);
      Converted(contents, i, pending, results) == Converted(contents, i + 1, left, results + blocks)
  {
  }

  lemma {:induction false} ConvertedOther(contents: seq<Content>, i: nat, pending: seq<Pending>, results: seq<Block>)
    requires i <= |contents| && (i < |contents| ==> !IsResponse(contents[i]))
    ensures Converted(contents, i, pending, results) == Flush(results) + Converted(contents, i, pending, [])
  {
    hide IsResponse, Emit, AddedPending;
    if i == |contents| {
      assert Flush(results) + [] == Flush(results);
    } else {
      var tail := Emit(contents[i], i) + Converted(contents, i + 1, pending + AddedPending(contents[i], i), []);
      assert [] + tail == tail;
    }
  }

  /** A run of responses becomes one user message, right after what came before it. */
  lemma {:induction false} RunConverts(contents: seq<Content>, i: nat, pending: seq<Pending>, results: seq<Block>)
    requires i <= |contents|
    ensures var (blocks, left) := RunBlocks(contents, i, pending);
      Converted(contents, i, pending, results)
        == Flush(results + blocks) + Converted(contents, RunEnd(contents, i), left, [])
    decreases |contents| - i
  {
    hide IsResponse, ResultBlocks, ResponsesOf, Converted, Flush;
    if i < |contents| && IsResponse(contents[i]) {
      var (blocks, left) := ResultBlocks(pending, ResponsesOf(contents[i].parts), i);
      RunConverts(contents, i + 1, left, results + blocks);
      ConvertedResponse(contents, i, pending, results);
      var more := RunBlocks(contents, i + 1, left).0;
      hide RunBlocks;
      assert results + blocks + more == results + (blocks + more);
    } else {
      assert results + [] == results;
      ConvertedOther(contents, i, pending, results);
    }
  }

  /** One content that is no response, and the run that follows it. */
  lemma {:induction false} GroupConverts(contents: seq<Content>, i: nat)
    requires i < |contents| && !IsResponse(contents[i])
    ensures var (blocks, left) := RunBlocks(contents, i + 1, AddedPending(contents[i], i));
      Converted(contents, i, [], [])
        == Emit(contents[i], i) + (Flush(blocks) + Converted(contents, RunEnd(contents, i + 1), left, []))
  {
    var added := AddedPending(contents[i], i);
    RunConverts(contents, i + 1, added, []);
    hide RunBlocks, IsResponse, AddedPending, Emit;
    assert [] + added == added;
    var blocks := RunBlocks(contents, i + 1, added).0;
    assert [] + blocks == blocks;
    var tail := Emit(contents[i], i) + Converted(contents, i + 1, added, []);
    assert [] + tail == tail;
  }

  // ----- Consuming pending calls one after the other

  /** The results of `responses` when each consumes a pending call. */
  function Assigned(pending: seq<Pending>, responses: seq<Response>): seq<Block>
    decreases |responses|
  {
    if responses == [] then [] else
      var (id, left) := Consume(pending, responses[0].name);
      [ToolResult(id, responses[0].payload)] + Assigned(left, responses[1..])
  }

  function LeftAfter(pending: seq<Pending>, responses: seq<Response>): seq<Pending>
    decreases |responses|
  {
    if responses == [] then pending else LeftAfter(Consume(pending, responses[0].name).1, responses[1..])
  }

  predicate Identified(pending: seq<Pending>) {
    forall i :: 0 <= i < |pending| ==> pending[i].id != ""
  }

  lemma {:induction false} Consumes(pending: seq<Pending>, name: string)
    requires pending != [] && Identified(pending)
    ensures var (id, left) := Consume(pending, name);
      id != "" && |left| == |pending| - 1 && Identified(left)
  {
    hide FirstNamed;
  }

  /** While calls are pending, no result needs a made-up id. */
  lemma {:induction false} BlocksAssigned(pending: seq<Pending>, responses: seq<Response>, index: nat)
    requires Identified(pending) && |responses| <= |pending|
    ensures ResultBlocks(pending, responses, index) == (Assigned(pending, responses), LeftAfter(pending, responses))
    ensures Identified(LeftAfter(pending, responses)) && |LeftAfter(pending, responses)| == |pending| - |responses|
    decreases |responses|
  {
    if responses != [] {
      Consumes(pending, responses[0].name);
      hide Consume, SyntheticToolCallID;
      BlocksAssigned(Consume(pending, responses[0].name).1, responses[1..], index);
    }
  }

  lemma {:induction false} AssignedConcat(pending: seq<Pending>, a: seq<Response>, b: seq<Response>)
    ensures Assigned(pending, a + b) == Assigned(pending, a) + Assigned(LeftAfter(pending, a), b)
    ensures LeftAfter(pending, a + b) == LeftAfter(LeftAfter(pending, a), b)
    decreases |a|
  {
    hide Consume;
    if a == [] {
      assert a + b == b;
    } else {
      AssignedConcat(Consume(pending, a[0].name).1, a[1..], b);
      assert (a + b)[1..] == a[1..] + b;
    }
  }

  lemma {:induction false} RunAssigned(contents: seq<Content>, i: nat, pending: seq<Pending>)
    requires i <= |contents| && Identified(pending) && |RunResponses(contents, i)| <= |pending|
    ensures RunBlocks(contents, i, pending)
      == (Assigned(pending, RunResponses(contents, i)), LeftAfter(pending, RunResponses(contents, i)))
    decreases |contents| - i
  {
    if i < |contents| && IsResponse(contents[i]) {
      var rs := ResponsesOf(contents[i].parts);
      hide IsResponse, ResponsesOf;
      BlocksAssigned(pending, rs, i);
      AssignedConcat(pending, rs, RunResponses(contents, i + 1));
      hide ResultBlocks, Assigned, LeftAfter, Identified;
      RunAssigned(contents, i + 1, LeftAfter(pending, rs));
    }
  }

  /** Ids of the pending calls of one name, in order. */
  function IDsNamed(pending: seq<Pending>, key: string): seq<string> {
    if pending == [] then []
    else (if TrimSpace(pending[0].name) == key then [pending[0].id] else []) + IDsNamed(pending[1..], key)
  }

  /** How many of the first `k` responses go to that name. */
  function Earlier(responses: seq<Response>, k: nat, key: string): nat
    requires k <= |responses|
  {
    if k == 0 then 0 else Earlier(responses, k - 1, key) + (if TrimSpace(responses[k - 1].name) == key then 1 else 0)
  }

  lemma {:induction false} ConsumeHead(pending: seq<Pending>, name: string)
    requires pending != [] && TrimSpace(pending[0].name) == TrimSpace(name)
    ensures Consume(pending, name) == (pending[0].id, pending[1..])
  {
    hide TrimSpace;
    assert FirstNamed(pending, name) == 0;
    assert pending[..0] + pending[1..] == pending[1..];
  }

  lemma {:induction false} ConsumeSkips(pending: seq<Pending>, name: string)
    requires pending != [] && TrimSpace(pending[0].name) != TrimSpace(name)
    requires FirstNamed(pending[1..], name) < |pending| - 1
    ensures Consume(pending, name) == (Consume(pending[1..], name).0, [pending[0]] + Consume(pending[1..], name).1)
  {
    hide TrimSpace;
    var i := FirstNamed(pending[1..], name);
    assert FirstNamed(pending, name) == i + 1;
    assert pending[..i + 1] + pending[i + 2..] == [pending[0]] + (pending[1..][..i] + pending[1..][i + 1..]);
  }

  lemma {:induction false} IDsNamedCons(p: Pending, rest: seq<Pending>, key: string)
    ensures IDsNamed([p] + rest, key) == (if TrimSpace(p.name) == key then [p.id] else []) + IDsNamed(rest, key)
  {
    hide TrimSpace;
    assert ([p] + rest)[1..] == rest;
  }

  lemma {:induction false} IDsNamedSkip(p: Pending, rest: seq<Pending>, key: string)
    requires TrimSpace(p.name) != key
    ensures IDsNamed([p] + rest, key) == IDsNamed(rest, key)
  {
    IDsNamedCons(p, rest, key);
    assert [] + IDsNamed(rest, key) == IDsNamed(rest, key);
  }

  /** Consuming a name takes its first pending call and no other. */
  lemma {:induction false} ConsumeTakesFirst(pending: seq<Pending>, name: string, key: string)
    requires IDsNamed(pending, TrimSpace(name)) != []
    ensures var (id, left) := Consume(pending, name);
      && id == IDsNamed(pending, TrimSpace(name))[0]
      && IDsNamed(left, key) == if key == TrimSpace(name) then IDsNamed(pending, key)[1..] else IDsNamed(pending, key)
    decreases |pending|
  {
    NoneNamed(TrimSpace(name));
    hide TrimSpace, IDsNamed, Consume;
    var p, rest := pending[0], pending[1..];
    assert pending == [p] + rest;
    if TrimSpace(p.name) == TrimSpace(name) {
      ConsumeHead(pending, name);
      TakenHead(p, rest, name, key);
    } else {
      IDsNamedSkip(p, rest, TrimSpace(name));
      ConsumeTakesFirst(rest, name, key);
      NamedExists(rest, name);
      ConsumeSkips(pending, name);
      TakenLater(p, rest, Consume(rest, name).1, name, key);
    }
  }

  lemma {:induction false} TakenLater(p: Pending, rest: seq<Pending>, left: seq<Pending>, name: string, key: string)
    requires TrimSpace(p.name) != TrimSpace(name)
    requires IDsNamed(rest, TrimSpace(name)) != []
    requires IDsNamed(left, key) == if key == TrimSpace(name) then IDsNamed(rest, key)[1..] else IDsNamed(rest, key)
    ensures IDsNamed([p] + rest, TrimSpace(name)) != []
    ensures IDsNamed([p] + left, key)
      == if key == TrimSpace(name) then IDsNamed([p] + rest, key)[1..] else IDsNamed([p] + rest, key)
  {
    hide TrimSpace, IDsNamed;
    IDsNamedSkip(p, rest, TrimSpace(name));
    if TrimSpace(p.name) == key {
      IDsNamedCons(p, rest, key);
      IDsNamedCons(p, left, key);
    } else {
      IDsNamedSkip(p, rest, key);
      IDsNamedSkip(p, left, key);
    }
  }

  lemma NoneNamed(key: string)
    ensures IDsNamed([], key) == []
  {
  }

  lemma {:induction false} TakenHead(p: Pending, rest: seq<Pending>, name: string, key: string)
    requires TrimSpace(p.name) == TrimSpace(name)
    ensures IDsNamed([p] + rest, TrimSpace(name)) == [p.id] + IDsNamed(rest, TrimSpace(name))
    ensures IDsNamed(rest, key)
      == if key == TrimSpace(name) then IDsNamed([p] + rest, key)[1..] else IDsNamed([p] + rest, key)
  {
    hide TrimSpace, IDsNamed;
    IDsNamedCons(p, rest, TrimSpace(name));
    if key != TrimSpace(name) {
      IDsNamedSkip(p, rest, key);
    }
  }

  lemma {:induction false} NamedExists(pending: seq<Pending>, name: string)
    requires IDsNamed(pending, TrimSpace(name)) != []
    ensures FirstNamed(pending, name) < |pending|
  {
    hide TrimSpace;
    if TrimSpace(pending[0].name) != TrimSpace(name) {
      NamedExists(pending[1..], name);
    }
  }

  /** Every name among the responses has enough pending calls. */
  ghost predicate Covers(pending: seq<Pending>, responses: seq<Response>) {
    forall key :: Earlier(responses, |responses|, key) <= |IDsNamed(pending, key)|
  }

  lemma {:induction false} EarlierTail(responses: seq<Response>, k: nat, key: string)
    requires 0 < k <= |responses|
    ensures Earlier(responses, k, key)
      == (if TrimSpace(responses[0].name) == key then 1 else 0) + Earlier(responses[1..], k - 1, key)
  {
    hide TrimSpace;
    if k > 1 {
      EarlierTail(responses, k - 1, key);
    }
  }

  lemma AssignedCons(pending: seq<Pending>, responses: seq<Response>)
    requires responses != []
    ensures var (id, left) := Consume(pending, responses[0].name);
      Assigned(pending, responses) == [ToolResult(id, responses[0].payload)] + Assigned(left, responses[1..])
  {
  }

  /** However the results are permuted, the k-th response of a name gets the k-th pending
      call of that name. */
  lemma {:induction false} AssignedByName(pending: seq<Pending>, responses: seq<Response>, k: nat)
    requires Covers(pending, responses) && k < |responses|
    ensures |Assigned(pending, responses)| == |responses|
    ensures var key := TrimSpace(responses[k].name);
      && Earlier(responses, k, key) < |IDsNamed(pending, key)|
      && Assigned(pending, responses)[k] == ToolResult(IDsNamed(pending, key)[Earlier(responses, k, key)], responses[k].payload)
    decreases |responses|
  {
    hide Consume, Covers, TrimSpace, IDsNamed, Assigned;
    var r, key := responses[0], TrimSpace(responses[k].name);
    var (id, left) := Consume(pending, r.name);
    AssignedLength(pending, responses);
    AssignedCons(pending, responses);
    FirstCovered(pending, responses);
    ConsumeTakesFirst(pending, r.name, key);
    if k == 0 {
      assert Earlier(responses, 0, key) == 0;
    } else {
      CoversTail(pending, responses);
      AssignedByName(left, responses[1..], k - 1);
      EarlierTail(responses, k, key);
      hide Earlier;
      assert Assigned(pending, responses)[k] == Assigned(left, responses[1..])[k - 1];
    }
  }

  /** The same inside a conversion: the user message after content `i` gives the k-th
      response of a name the id emitted for the k-th call of that name. */
  lemma {:induction false} PermutedResults(contents: seq<Content>, i: nat, k: nat)
    requires i < |contents| && !IsResponse(contents[i])
    requires |RunResponses(contents, i + 1)| <= |AddedPending(contents[i], i)|
    requires Covers(AddedPending(contents[i], i), RunResponses(contents, i + 1)) && k < |RunResponses(contents, i + 1)|
    ensures var pending, rs := AddedPending(contents[i], i), RunResponses(contents, i + 1);
      var (blocks, left) := RunBlocks(contents, i + 1, pending);
      var key := TrimSpace(rs[k].name);
      && Converted(contents, i, [], [])
        == Emit(contents[i], i) + (Flush(blocks) + Converted(contents, RunEnd(contents, i + 1), left, []))
      && |blocks| == |rs| && Earlier(rs, k, key) < |IDsNamed(pending, key)|
      && blocks[k] == ToolResult(IDsNamed(pending, key)[Earlier(rs, k, key)], rs[k].payload)
  {
    var pending, rs := AddedPending(contents[i], i), RunResponses(contents, i + 1);
    AddedIdentified(contents[i], i);
    hide IsResponse, AddedPending, RunResponses, RunBlocks, Covers, IDsNamed, TrimSpace, Converted, Emit, Assigned, Earlier;
    GroupConverts(contents, i);
    RunAssigned(contents, i + 1, pending);
    AssignedByName(pending, rs, k);
  }

  lemma AddedIdentified(c: Content, index: nat)
    ensures Identified(AddedPending(c, index))
  {
    hide UseID, EmittedCalls, IsModel;
  }

  lemma FirstCovered(pending: seq<Pending>, responses: seq<Response>)
    requires Covers(pending, responses) && responses != []
    ensures IDsNamed(pending, TrimSpace(responses[0].name)) != []
  {
    hide TrimSpace;
    EarlierTail(responses, |responses|, TrimSpace(responses[0].name));
  }

  lemma {:induction false} AssignedLength(pending: seq<Pending>, responses: seq<Response>)
    ensures |Assigned(pending, responses)| == |responses|
    decreases |responses|
  {
    hide Consume;
    if responses != [] {
      AssignedLength(Consume(pending, responses[0].name).1, responses[1..]);
    }
  }

  lemma {:induction false} CoversTail(pending: seq<Pending>, responses: seq<Response>)
    requires responses != [] && Covers(pending, responses)
    requires IDsNamed(pending, TrimSpace(responses[0].name)) != []
    ensures Covers(Consume(pending, responses[0].name).1, responses[1..])
  {
    hide TrimSpace;
    forall key ensures Earlier(responses[1..], |responses| - 1, key) <= |IDsNamed(Consume(pending, responses[0].name).1, key)| {
      ConsumeTakesFirst(pending, responses[0].name, key);
      EarlierTail(responses, |responses|, key);
      assert Earlier(responses, |responses|, key) <= |IDsNamed(pending, key)|;
    }
  }

  // ----- Paired histories

  lemma {:induction false} AnswerContent(c: Content, call: Call)
    requires Answers(c, call)
    ensures IsResponse(c) && Emitted(c) && CallsOf(c.parts) == []
    ensures ResponsesOf(c.parts) == [c.parts[0].response.value]
  {
    hide IsModel;
    assert c.parts[1..] == [];
    assert ResponsesOf(c.parts[1..]) == [] && CallsOf(c.parts[1..]) == [];
  }

  /** The responses are those of the answers, one each. */
  ghost predicate RunOf(rs: seq<Response>, answers: seq<Content>) {
    |rs| == |answers| && forall k :: 0 <= k < |rs| ==> [rs[k]] == ResponsesOf(answers[k].parts)
  }

  lemma {:induction false} RunOfCons(first: Content, rs: seq<Response>, answers: seq<Content>)
    requires |ResponsesOf(first.parts)| == 1 && RunOf(rs, answers)
    ensures RunOf(ResponsesOf(first.parts) + rs, [first] + answers)
  {
    hide ResponsesOf;
  }

  /** Each content holds one response. */
  predicate OneEach(answers: seq<Content>) {
    forall k :: 0 <= k < |answers| ==> IsResponse(answers[k]) && |ResponsesOf(answers[k].parts)| == 1
  }

  lemma AnswersAreOneEach(answers: seq<Content>, calls: seq<Call>)
    requires AnswersAll(answers, calls)
    ensures OneEach(answers)
  {
    hide Answers, IsResponse, ResponsesOf;
    forall k | 0 <= k < |answers| ensures IsResponse(answers[k]) && |ResponsesOf(answers[k].parts)| == 1 {
      AnswerContent(answers[k], calls[k]);
    }
  }

  predicate StandsAt(contents: seq<Content>, j: nat, answers: seq<Content>) {
    j + |answers| <= |contents| && contents[j..j + |answers|] == answers
  }

  /** Single responses that are followed by something else are the whole run. */
  lemma {:induction false} AnswersAreRun(contents: seq<Content>, j: nat, answers: seq<Content>)
    requires j + |answers| <= |contents| && StandsAt(contents, j, answers) && OneEach(answers)
    requires j + |answers| < |contents| ==> !IsResponse(contents[j + |answers|])
    ensures RunEnd(contents, j) == j + |answers| && RunOf(RunResponses(contents, j), answers)
    decreases |answers|
  {
    hide IsResponse, ResponsesOf, RunOf, RunEnd, RunResponses, StandsAt, OneEach;
    if answers == [] {
      NothingRuns(contents, j);
    } else {
      SliceTail(contents, j, answers);
      RunStep(contents, j);
      AnswersAreRun(contents, j + 1, answers[1..]);
      RunOfCons(answers[0], RunResponses(contents, j + 1), answers[1..]);
    }
  }

  lemma SliceTail(contents: seq<Content>, j: nat, answers: seq<Content>)
    requires answers != [] && j < |contents| && StandsAt(contents, j, answers) && OneEach(answers)
    ensures contents[j] == answers[0] && answers == [answers[0]] + answers[1..]
    ensures StandsAt(contents, j + 1, answers[1..]) && OneEach(answers[1..])
    ensures IsResponse(answers[0]) && |ResponsesOf(answers[0].parts)| == 1
  {
    hide IsResponse, ResponsesOf;
  }

  lemma RunStep(contents: seq<Content>, j: nat)
    requires j < |contents| && IsResponse(contents[j])
    ensures RunEnd(contents, j) == RunEnd(contents, j + 1)
    ensures RunResponses(contents, j) == ResponsesOf(contents[j].parts) + RunResponses(contents, j + 1)
  {
  }

  lemma NothingRuns(contents: seq<Content>, j: nat)
    requires j <= |contents| && (j < |contents| ==> !IsResponse(contents[j]))
    ensures RunEnd(contents, j) == j && RunOf(RunResponses(contents, j), [])
  {
  }

  lemma RunOfLength(rs: seq<Response>, answers: seq<Content>)
    requires RunOf(rs, answers)
    ensures |rs| == |answers|
  {
  }

  lemma {:induction false} AssignedInOrder(pending: seq<Pending>, responses: seq<Response>)
    requires |pending| == |responses|
    requires forall k :: 0 <= k < |pending| ==> TrimSpace(pending[k].name) == TrimSpace(responses[k].name)
    ensures |Assigned(pending, responses)| == |responses|
    ensures forall k :: 0 <= k < |pending| ==> Assigned(pending, responses)[k] == ToolResult(pending[k].id, responses[k].payload)
    decreases |pending|
  {
    hide TrimSpace, Consume;
    if pending != [] {
      ConsumeHead(pending, responses[0].name);
      AssignedInOrder(pending[1..], responses[1..]);
      forall k | 0 < k < |pending| ensures Assigned(pending, responses)[k] == ToolResult(pending[k].id, responses[k].payload) {
        assert Assigned(pending[1..], responses[1..])[k - 1] == ToolResult(pending[1..][k - 1].id, responses[1..][k - 1].payload);
      }
    }
  }

  /** Every call of the content becomes a tool_use block: the content is the model's and
      no call hides in a thought. */
  predicate Emitted(c: Content) {
    forall i :: 0 <= i < |c.parts| && c.parts[i].call.Some? ==> IsModel(c.role) && !c.parts[i].thought
  }

  /** Emitted under ids that tell its calls apart. */
  predicate Announced(c: Content, index: nat) {
    Emitted(c) && Distinct(PendingIDs(PendingOf(CallsOf(c.parts), index)))
  }

  /** Two calls of one content get the same id exactly if they carry the same id, or carry
      none and go by the same name, or one carries the id made up for the other. */
  lemma {:induction false} UseIDsClash(a: Call, b: Call, index: nat)
    ensures var x, y := TrimSpace(a.id), TrimSpace(b.id);
      UseID(a, index) == UseID(b, index) <==>
        if x != "" && y != "" then x == y
        else if x != "" then x == SyntheticToolCallID(index, b.name)
        else if y != "" then y == SyntheticToolCallID(index, a.name)
        else NameOrTool(a.name) == NameOrTool(b.name)
  {
    hide TrimSpace, NameOrTool, SyntheticToolCallID;
    SyntheticIdsClash(index, a.name, index, b.name);
  }

  predicate NoThoughtCalls(parts: seq<Part>) {
    forall i :: 0 <= i < |parts| && parts[i].call.Some? ==> !parts[i].thought
  }

  lemma {:induction false} EmittedCount(parts: seq<Part>)
    ensures NoThoughtCalls(parts) ==> EmittedCalls(parts) == CallsOf(parts)
    ensures !NoThoughtCalls(parts) ==> |EmittedCalls(parts)| < |CallsOf(parts)|
    ensures |EmittedCalls(parts)| <= |CallsOf(parts)|
    ensures CallsOf(parts) == [] <==> forall i :: 0 <= i < |parts| ==> parts[i].call.None?
  {
    if parts != [] {
      var rest := parts[1..];
      EmittedCount(rest);
      assert forall i :: 1 <= i < |parts| ==> parts[i] == rest[i - 1];
      assert forall i :: 0 <= i < |rest| ==> rest[i] == parts[i + 1];
      assert NoThoughtCalls(parts) <==> (parts[0].call.Some? ==> !parts[0].thought) && NoThoughtCalls(rest);
    }
  }

  lemma {:induction false} EmittedPending(c: Content, index: nat)
    ensures Emitted(c) ==> AddedPending(c, index) == PendingOf(CallsOf(c.parts), index)
    ensures !Emitted(c) ==> |AddedPending(c, index)| < |CallsOf(c.parts)|
  {
    EmittedCount(c.parts);
    hide IsModel, EmittedCalls, CallsOf, UseID;
    assert Emitted(c) <==> NoThoughtCalls(c.parts) && (IsModel(c.role) || forall i :: 0 <= i < |c.parts| ==> c.parts[i].call.None?);
  }

  // ----- What the provider demands

  function UsesOf(blocks: seq<Block>): seq<string> {
    if blocks == [] then [] else (if blocks[0].ToolUse? then [blocks[0].id] else []) + UsesOf(blocks[1..])
  }

  function ResultsIn(blocks: seq<Block>): seq<string> {
    if blocks == [] then [] else (if blocks[0].ToolResult? then [blocks[0].id] else []) + ResultsIn(blocks[1..])
  }

  predicate Distinct(ids: seq<string>) {
    forall i, j :: 0 <= i < j < |ids| ==> ids[i] != ids[j]
  }

  /** The ids of the tool_use blocks of a message are distinct, the next message is the user's
      and answers exactly those ids, in order, and there are no other tool_result blocks. */
  predicate WellAnswered(messages: seq<Message>)
    decreases |messages|
  {
    messages == [] ||
    var uses := UsesOf(messages[0].blocks);
    && ResultsIn(messages[0].blocks) == []
    && if uses == [] then WellAnswered(messages[1..])
       else
         && Distinct(uses) && |messages| > 1 && messages[1].User?
         && ResultsIn(messages[1].blocks) == uses && UsesOf(messages[1].blocks) == []
         && WellAnswered(messages[2..])
  }

  lemma {:induction false} UsesOfConcat(a: seq<Block>, b: seq<Block>)
    ensures UsesOf(a + b) == UsesOf(a) + UsesOf(b)
    decreases |a|
  {
    if a == [] {
      assert a + b == b;
    } else {
      UsesOfConcat(a[1..], b);
      UsesOfCons(a[0], a[1..]);
      UsesOfCons(a[0], a[1..] + b);
      hide UsesOf;
      assert a == [a[0]] + a[1..] && a + b == [a[0]] + (a[1..] + b);
    }
  }

  lemma UsesOfCons(block: Block, rest: seq<Block>)
    ensures UsesOf([block] + rest) == (if block.ToolUse? then [block.id] else []) + UsesOf(rest)
  {
    assert ([block] + rest)[1..] == rest;
  }

  lemma {:induction false} ResultsInConcat(a: seq<Block>, b: seq<Block>)
    ensures ResultsIn(a + b) == ResultsIn(a) + ResultsIn(b)
    decreases |a|
  {
    if a == [] {
      assert a + b == b;
    } else {
      ResultsInConcat(a[1..], b);
      ResultsInCons(a[0], a[1..]);
      ResultsInCons(a[0], a[1..] + b);
      hide ResultsIn;
      assert a == [a[0]] + a[1..] && a + b == [a[0]] + (a[1..] + b);
    }
  }

  lemma ResultsInCons(block: Block, rest: seq<Block>)
    ensures ResultsIn([block] + rest) == (if block.ToolResult? then [block.id] else []) + ResultsIn(rest)
  {
    assert ([block] + rest)[1..] == rest;
  }

  lemma UsesConcat(a: seq<Block>, b: seq<Block>)
    ensures UsesOf(a + b) == UsesOf(a) + UsesOf(b) && ResultsIn(a + b) == ResultsIn(a) + ResultsIn(b)
  {
    UsesOfConcat(a, b);
    ResultsInConcat(a, b);
  }

  function PendingIDs(pending: seq<Pending>): seq<string> {
    seq(|pending|, k requires 0 <= k < |pending| => pending[k].id)
  }

  lemma OneBlock(b: Block)
    ensures UsesOf([b]) == (if b.ToolUse? then [b.id] else [])
    ensures ResultsIn([b]) == (if b.ToolResult? then [b.id] else [])
    ensures UsesOf([]) == [] && ResultsIn([]) == []
  {
    assert [b][1..] == [];
    assert UsesOf([b]) == (if b.ToolUse? then [b.id] else []) + UsesOf([]);
    assert ResultsIn([b]) == (if b.ToolResult? then [b.id] else []) + ResultsIn([]);
  }

  lemma {:induction false} OnePart(part: Part, index: nat)
    ensures ResultsIn(PartBlocks(part, index)) == []
    ensures UsesOf(PartBlocks(part, index))
      == if !part.thought && part.call.Some? then [UseID(part.call.value, index)] else []
    ensures ResultsIn(UserPart(part)) == [] && UsesOf(UserPart(part)) == []
  {
    hide UseID, UsesOf, ResultsIn;
    var text := TextBlock(part.text);
    OneBlock(text);
    OneBlock(ImageBlock(if part.image.Some? then part.image.value else ""));
    if !part.thought {
      var first := if part.text != "" then [text] else [];
      var second := if part.call.Some? then
        [ToolUse(UseID(part.call.value, index), part.call.value.name, part.call.value.args)] else [];
      if part.call.Some? {
        OneBlock(second[0]);
        assert second == [second[0]];
      }
      UsesConcat(first, second);
      assert PartBlocks(part, index) == first + second;
    }
  }

  lemma {:induction false} PendingIDsCons(call: Call, rest: seq<Call>, index: nat)
    ensures PendingIDs(PendingOf([call] + rest, index)) == [UseID(call, index)] + PendingIDs(PendingOf(rest, index))
  {
    hide UseID;
  }

  lemma {:induction false} AssistantUses(parts: seq<Part>, index: nat)
    ensures ResultsIn(AssistantBlocksOf(parts, index)) == []
    ensures UsesOf(AssistantBlocksOf(parts, index)) == PendingIDs(PendingOf(EmittedCalls(parts), index))
  {
    hide UseID, PartBlocks, UsesOf, ResultsIn, PendingOf;
    if parts == [] {
      OneBlock(TextBlock(""));
      NoPendingIDs(index);
    } else {
      var rest := EmittedCalls(parts[1..]);
      AssistantUses(parts[1..], index);
      OnePart(parts[0], index);
      UsesConcat(PartBlocks(parts[0], index), AssistantBlocksOf(parts[1..], index));
      hide PendingIDs;
      if !parts[0].thought && parts[0].call.Some? {
        PendingIDsCons(parts[0].call.value, rest, index);
      } else {
        assert [] + rest == rest;
      }
    }
  }

  lemma NoPendingIDs(index: nat)
    ensures PendingIDs(PendingOf([], index)) == []
  {
  }

  lemma {:induction false} UserUses(parts: seq<Part>)
    ensures ResultsIn(UserBlocksOf(parts)) == [] && UsesOf(UserBlocksOf(parts)) == []
  {
    hide UserPart, UsesOf, ResultsIn;
    OneBlock(TextBlock(""));
    if parts != [] {
      UserUses(parts[1..]);
      OnePart(parts[0], 0);
      UsesConcat(UserPart(parts[0]), UserBlocksOf(parts[1..]));
    }
  }

  /** The message of a content, if any, uses exactly the ids that become pending. */
  predicate Announces(messages: seq<Message>, ids: seq<string>) {
    if messages == [] then ids == []
    else |messages| == 1 && ResultsIn(messages[0].blocks) == [] && UsesOf(messages[0].blocks) == ids
  }

  lemma {:induction false} EmitAnnounces(c: Content, index: nat)
    ensures Announces(Emit(c, index), PendingIDs(AddedPending(c, index)))
  {
    AssistantUses(c.parts, index);
    UserUses(c.parts);
    hide IsModel, AssistantBlocksOf, UserBlocksOf, EmittedCalls, PendingOf;
  }

  predicate OnlyResults(blocks: seq<Block>) {
    forall k :: 0 <= k < |blocks| ==> blocks[k].ToolResult?
  }

  function BlockIDs(blocks: seq<Block>): seq<string>
    requires OnlyResults(blocks)
  {
    seq(|blocks|, k requires 0 <= k < |blocks| => blocks[k].id)
  }

  lemma {:induction false} OnlyResultsIn(blocks: seq<Block>)
    requires OnlyResults(blocks)
    ensures ResultsIn(blocks) == BlockIDs(blocks) && UsesOf(blocks) == []
  {
    if blocks != [] {
      OnlyResultsIn(blocks[1..]);
    }
  }

  /** A group is in order exactly when its results answer its uses. */
  lemma {:induction false} GroupAnswered(emitted: seq<Message>, ids: seq<string>, blocks: seq<Block>, rest: seq<Message>)
    requires Announces(emitted, ids) && OnlyResults(blocks)
    requires BlockIDs(blocks) == ids || |ids| < |blocks|
    ensures WellAnswered(emitted + (Flush(blocks) + rest))
      <==> (BlockIDs(blocks) == ids && Distinct(ids) && WellAnswered(rest))
  {
    OnlyResultsIn(blocks);
    assert Distinct([]);
    hide UsesOf, ResultsIn, Distinct;
    var flushed := Flush(blocks) + rest;
    if blocks != [] {
      assert flushed[0] == User(blocks) && flushed[1..] == rest;
      assert !WellAnswered(flushed);
    } else {
      assert [] + rest == rest;
    }
    var all := emitted + flushed;
    if emitted == [] {
      assert all == flushed;
    } else {
      assert all[0] == emitted[0] && all[1..] == flushed;
      assert blocks != [] ==> all[1] == User(blocks) && all[2..] == rest;
    }
  }

  lemma {:induction false} RunBlocksShape(contents: seq<Content>, i: nat, pending: seq<Pending>)
    requires i <= |contents|
    ensures var blocks := RunBlocks(contents, i, pending).0;
      OnlyResults(blocks) && |blocks| == |RunResponses(contents, i)|
    decreases |contents| - i
  {
    hide IsResponse, ResponsesOf;
    if i < |contents| && IsResponse(contents[i]) {
      var rs := ResponsesOf(contents[i].parts);
      ResultBlocksShape(pending, rs, i);
      hide ResultBlocks;
      RunBlocksShape(contents, i + 1, ResultBlocks(pending, rs, i).1);
    }
  }

  lemma {:induction false} ResultBlocksShape(pending: seq<Pending>, responses: seq<Response>, index: nat)
    ensures var blocks := ResultBlocks(pending, responses, index).0;
      OnlyResults(blocks) && |blocks| == |responses|
    decreases |responses|
  {
    hide Consume, SyntheticToolCallID;
    if responses != [] {
      ResultBlocksShape(Consume(pending, responses[0].name).1, responses[1..], index);
    }
  }

  /** The results a paired group should come to: result k carries the id emitted for call
      k and the payload that answers it. */
  function OwnResults(calls: seq<Call>, index: nat, answers: seq<Content>): seq<Block>
    requires AnswersAll(answers, calls)
  {
    seq(|calls|, k requires 0 <= k < |calls| =>
      ToolResult(UseID(calls[k], index), answers[k].parts[0].response.value.payload))
  }

  lemma {:induction false} PairedGroup(contents: seq<Content>, i: nat)
    requires i < |contents| && Paired(contents, i)
    ensures var calls := CallsOf(contents[i].parts);
      var next := i + 1 + |calls|;
      && next <= |contents| && AnswersAll(contents[i + 1..next], calls)
      && RunEnd(contents, i + 1) == next && RunOf(RunResponses(contents, i + 1), contents[i + 1..next])
      && |RunResponses(contents, i + 1)| == |calls|
      && !IsResponse(contents[i]) && Paired(contents, next)
  {
    hide CallsOf, AnswersAll, IsResponse, RunOf, RunEnd, RunResponses;
    var calls := CallsOf(contents[i].parts);
    var next := i + 1 + |calls|;
    NextStarts(contents, next);
    AnswersAreOneEach(contents[i + 1..next], calls);
    AnswersAreRun(contents, i + 1, contents[i + 1..next]);
    RunOfLength(RunResponses(contents, i + 1), contents[i + 1..next]);
  }

  lemma NextStarts(contents: seq<Content>, i: nat)
    requires i <= |contents| && Paired(contents, i)
    ensures i < |contents| ==> !IsResponse(contents[i])
  {
  }

  /** Responses that are the answers, consumed in order. */
  lemma {:induction false} AssignedToOwn(calls: seq<Call>, index: nat, rs: seq<Response>, answers: seq<Content>)
    requires AnswersAll(answers, calls) && RunOf(rs, answers)
    ensures Assigned(PendingOf(calls, index), rs) == OwnResults(calls, index, answers)
  {
    var pending := PendingOf(calls, index);
    forall k | 0 <= k < |calls|
      ensures rs[k] == answers[k].parts[0].response.value && rs[k].name == calls[k].name
    {
      AnswerContent(answers[k], calls[k]);
      assert [rs[k]][0] == rs[k];
    }
    hide UseID, TrimSpace, Assigned, Answers, ResponsesOf, IsModel;
    AssignedInOrder(pending, rs);
  }

  /** In an emitted group every result names its own call, and nothing stays pending. */
  lemma {:induction false} EmittedGroup(contents: seq<Content>, i: nat)
    requires i < |contents| && Paired(contents, i) && Emitted(contents[i])
    requires var calls := CallsOf(contents[i].parts);
      i + 1 + |calls| <= |contents| && AnswersAll(contents[i + 1..i + 1 + |calls|], calls)
    ensures var calls := CallsOf(contents[i].parts);
      RunBlocks(contents, i + 1, AddedPending(contents[i], i))
        == (OwnResults(calls, i, contents[i + 1..i + 1 + |calls|]), [])
    ensures AddedPending(contents[i], i) == PendingOf(CallsOf(contents[i].parts), i)
  {
    hide CallsOf, IsResponse, UseID, TrimSpace, AddedPending, RunResponses, RunEnd, Paired, ResponsesOf;
    hide Assigned, RunBlocks, LeftAfter, Answers, OwnResults;
    var calls := CallsOf(contents[i].parts);
    var pending := PendingOf(calls, i);
    var rs := RunResponses(contents, i + 1);
    var answers := contents[i + 1..i + 1 + |calls|];
    PairedGroup(contents, i);
    EmittedPending(contents[i], i);
    RunAssigned(contents, i + 1, pending);
    LeftLength(pending, rs, i);
    AssignedToOwn(calls, i, rs, answers);
  }

  lemma LeftLength(pending: seq<Pending>, responses: seq<Response>, index: nat)
    requires Identified(pending) && |pending| == |responses|
    ensures LeftAfter(pending, responses) == []
  {
    BlocksAssigned(pending, responses, index);
  }

  /** One group: it is answered exactly when its content is announced. */
  lemma {:induction false} GroupIffAnnounced(contents: seq<Content>, i: nat)
    requires i < |contents| && Paired(contents, i)
    ensures var next := i + 1 + |CallsOf(contents[i].parts)|;
      && next <= |contents| && Paired(contents, next)
      && AnswersAll(contents[i + 1..next], CallsOf(contents[i].parts))
      && (WellAnswered(Converted(contents, i, [], []))
          <==> (Announced(contents[i], i) && WellAnswered(Converted(contents, next, [], []))))
  {
    hide CallsOf, IsResponse, Paired, Converted, WellAnswered, RunBlocks, AddedPending, Emit, Emitted, RunResponses;
    hide Answers, RunOf, RunEnd, PendingIDs, BlockIDs, OwnResults, Announces, Distinct, PendingOf;
    var calls := CallsOf(contents[i].parts);
    var added := AddedPending(contents[i], i);
    var (blocks, left) := RunBlocks(contents, i + 1, added);
    var next := i + 1 + |calls|;
    PairedGroup(contents, i);
    GroupConverts(contents, i);
    EmitAnnounces(contents[i], i);
    RunBlocksShape(contents, i + 1, added);
    EmittedPending(contents[i], i);
    IDCount(added);
    if Emitted(contents[i]) {
      EmittedGroup(contents, i);
      OwnIDs(calls, i, contents[i + 1..next]);
      assert BlockIDs(blocks) == PendingIDs(added) && left == [];
    } else {
      BlockCount(blocks);
    }
    GroupAnswered(Emit(contents[i], i), PendingIDs(added), blocks, Converted(contents, next, left, []));
  }

  lemma IDCount(pending: seq<Pending>)
    ensures |PendingIDs(pending)| == |pending|
  {
  }

  lemma BlockCount(blocks: seq<Block>)
    requires OnlyResults(blocks)
    ensures |BlockIDs(blocks)| == |blocks|
  {
  }

  ghost predicate AllAnnounced(contents: seq<Content>, i: nat) {
    forall k :: i <= k < |contents| ==> Announced(contents[k], k)
  }

  lemma AllAnnouncedSplit(contents: seq<Content>, i: nat, next: nat)
    requires i < next <= |contents|
    requires forall k :: i < k < next ==> Announced(contents[k], k)
    ensures AllAnnounced(contents, i) <==> Announced(contents[i], i) && AllAnnounced(contents, next)
  {
    hide Announced;
  }

  /** The messages of a paired history are acceptable exactly when no executed call was
      left out of its assistant message and no two calls of a content share an id. */
  lemma {:induction false} AnsweredIffAnnounced(contents: seq<Content>, i: nat)
    requires i <= |contents| && Paired(contents, i)
    ensures WellAnswered(Converted(contents, i, [], [])) <==> AllAnnounced(contents, i)
    decreases |contents| - i
  {
    hide CallsOf, Paired, Converted, WellAnswered, Announced, AnswersAll, AllAnnounced;
    if i == |contents| {
      NothingLeft(contents);
    } else {
      GroupIffAnnounced(contents, i);
      var calls := CallsOf(contents[i].parts);
      var next := i + 1 + |calls|;
      AnswersAnnounced(contents, i, calls);
      AllAnnouncedSplit(contents, i, next);
      AnsweredIffAnnounced(contents, next);
    }
  }

  lemma NothingLeft(contents: seq<Content>)
    ensures WellAnswered(Converted(contents, |contents|, [], [])) && AllAnnounced(contents, |contents|)
  {
  }

  lemma OwnIDs(calls: seq<Call>, index: nat, answers: seq<Content>)
    requires AnswersAll(answers, calls)
    ensures OnlyResults(OwnResults(calls, index, answers))
    ensures BlockIDs(OwnResults(calls, index, answers)) == PendingIDs(PendingOf(calls, index))
  {
    hide UseID, Answers;
  }

  lemma AnswerAnnounced(c: Content, call: Call, index: nat)
    requires Answers(c, call)
    ensures Announced(c, index)
  {
    AnswerContent(c, call);
    NoPendingIDs(index);
  }

  lemma AnswersAnnounced(contents: seq<Content>, i: nat, calls: seq<Call>)
    requires i + 1 + |calls| <= |contents| && AnswersAll(contents[i + 1..i + 1 + |calls|], calls)
    ensures forall k :: i < k < i + 1 + |calls| ==> Announced(contents[k], k)
  {
    hide Answers, Announced;
    forall k | i < k < i + 1 + |calls| ensures Announced(contents[k], k) {
      assert contents[i + 1..i + 1 + |calls|][k - i - 1] == contents[k];
      AnswerAnnounced(contents[k], calls[k - i - 1], k);
    }
  }

  /** The messages of a paired, emitted history, group by group. */
  lemma {:induction false} EachResultNamesItsCall(contents: seq<Content>, i: nat)
    requires i < |contents| && Paired(contents, i) && Emitted(contents[i])
    ensures var calls := CallsOf(contents[i].parts);
      var next := i + 1 + |calls|;
      && next <= |contents| && AnswersAll(contents[i + 1..next], calls)
      && Converted(contents, i, [], [])
        == Emit(contents[i], i) + (Flush(OwnResults(calls, i, contents[i + 1..next])) + Converted(contents, next, [], []))
  {
    hide CallsOf, Paired, Converted, AnswersAll, RunBlocks, AddedPending, Emit, IsResponse, RunOf, RunResponses;
    PairedGroup(contents, i);
    EmittedGroup(contents, i);
    GroupConverts(contents, i);
  }

  /** From the loop to the provider: whatever the model, the tools and the scheduler do,
      a run that starts paired reports a history whose messages are acceptable exactly
      when no call was hidden in a thought or in a content that is not the model's and
      the calls of each content have ids of their own. */
  lemma {:induction false} LoopToProvider(core: seq<Content>, history: seq<Content>, w: World, maxTurns: int, n: nat, stop: Stop)
    requires WellBehaved(w) && Transcript(core, history, w, n) && StopsFor(w, maxTurns, n, stop)
    requires Paired(history, 0)
    ensures var reported := core + Closing(w, n, stop);
      WellAnswered(Converted(reported, 0, [], [])) <==> AllAnnounced(reported, 0)
  {
    ReportsPaired(core, history, w, maxTurns, n, stop);
    AnsweredIffAnnounced(core + Closing(w, n, stop), 0);
  }
}
