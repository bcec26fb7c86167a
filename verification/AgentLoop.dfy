/** The agent loop: model replies, parallel tool calls, and the history it reports. */
module AgentLoop {
  import opened Options
  import opened Text

  datatype Call = Call(id: string, name: string, args: string)

  /** What a tool call came to: its own result, or the notice that it was called too often. */
  datatype Payload = Executed(result: string) | Stuck(count: nat)

  datatype Response = Response(id: string, name: string, payload: Payload)

  datatype Part = Part(text: string, thought: bool, image: Option<string>, call: Option<Call>, response: Option<Response>)

  datatype Content = Content(role: string, parts: seq<Part>)

  function CallsOf(parts: seq<Part>): seq<Call> {
    if parts == [] then []
    else (if parts[0].call.Some? then [parts[0].call.value] else []) + CallsOf(parts[1..])
  }

  function ResponsesOf(parts: seq<Part>): seq<Response> {
    if parts == [] then []
    else (if parts[0].response.Some? then [parts[0].response.value] else []) + ResponsesOf(parts[1..])
  }

  predicate HasText(parts: seq<Part>) {
    exists i :: 0 <= i < |parts| && parts[i].text != ""
  }

  /** isFunctionResponseContent */
  predicate IsResponse(c: Content) {
    exists i :: 0 <= i < |c.parts| && c.parts[i].response.Some?
  }

  function ToolResultContent(name: string, callID: string, payload: Payload): Content {
    Content("user", [Part("", false, None, None, Some(Response(callID, name, payload)))])
  }

  /** The user message that announces the turn limit, its wording shortened. */
  const NOTICE := Content("user", [Part("[System: Do NOT call any more tools.]", false, None, None, None)])

  // ----- Paired histories

  /** A content that answers one call and holds nothing else. */
  predicate Answers(c: Content, call: Call) {
    && !IsModel(c.role) && |c.parts| == 1 && c.parts[0].call.None? && c.parts[0].text == ""
    && c.parts[0].response.Some?
    && c.parts[0].response.value.id == call.id && c.parts[0].response.value.name == call.name
  }

  /** strings.ToLower(strings.TrimSpace(role)) == "model" */
  predicate IsModel(role: string) {
    LowerAll(TrimSpace(role)) == "model"
  }

  /** The model's role is the word model, in letters of any case and between any white space. */
  lemma ModelRole(a: string, word: string, b: string)
    requires AllSpace(a) && AllSpace(b) && (word != "" ==> !IsSpace(word[0]) && !IsSpace(word[|word| - 1]))
    ensures IsModel(a + (word + b)) <==>
      && |word| == 5 && Lower(word[0]) == 'm' && Lower(word[1]) == 'o' && Lower(word[2]) == 'd'
      && Lower(word[3]) == 'e' && Lower(word[4]) == 'l'
  {
    TrimsExactly(a, word, b);
    hide TrimSpace, IsSpace, AllSpace, Lower;
    var low, model := LowerAll(word), "model";
    assert |model| == 5 && model[0] == 'm' && model[1] == 'o' && model[2] == 'd' && model[3] == 'e' && model[4] == 'l';
    if |word| == 5 && low[0] == 'm' && low[1] == 'o' && low[2] == 'd' && low[3] == 'e' && low[4] == 'l' {
      assert low == model;
    }
  }

  predicate AnswersAll(answers: seq<Content>, calls: seq<Call>) {
    |answers| == |calls| && forall k :: 0 <= k < |calls| ==> Answers(answers[k], calls[k])
  }

  /** From position `i` on, every content with calls is followed at once by their
      answers, one each and in order, and there are no other answers. */
  predicate Paired(contents: seq<Content>, i: nat)
    requires i <= |contents|
    decreases |contents| - i
  {
    i == |contents| ||
    var calls := CallsOf(contents[i].parts);
    && !IsResponse(contents[i]) && i + 1 + |calls| <= |contents|
    && AnswersAll(contents[i + 1..i + 1 + |calls|], calls)
    && Paired(contents, i + 1 + |calls|)
  }

  lemma {:induction false} PairedLast(contents: seq<Content>, c: Content, answers: seq<Content>)
    requires !IsResponse(c) && AnswersAll(answers, CallsOf(c.parts))
    ensures Paired(contents + [c] + answers, |contents|)
  {
    hide CallsOf, IsResponse, Answers;
    var all := contents + [c] + answers;
    var i := |contents|;
    assert all[i] == c && all[i + 1..] == answers && i + 1 + |answers| == |all|;
    assert all[i + 1..i + 1 + |answers|] == answers;
  }

  lemma {:induction false} PairedAppend(contents: seq<Content>, i: nat, c: Content, answers: seq<Content>)
    requires i <= |contents| && Paired(contents, i)
    requires !IsResponse(c) && AnswersAll(answers, CallsOf(c.parts))
    ensures Paired(contents + [c] + answers, i)
    decreases |contents| - i
  {
    hide CallsOf, IsResponse, AnswersAll;
    if i == |contents| {
      PairedLast(contents, c, answers);
    } else {
      var next := i + 1 + |CallsOf(contents[i].parts)|;
      PairedAppend(contents, next, c, answers);
      Kept(contents, c, answers, i, next);
    }
  }

  lemma Kept(contents: seq<Content>, c: Content, answers: seq<Content>, i: nat, next: nat)
    requires i < next <= |contents|
    ensures var all := contents + [c] + answers; all[i] == contents[i] && all[i + 1..next] == contents[i + 1..next]
  {
  }

  lemma PairedAppendOne(contents: seq<Content>, c: Content)
    requires Paired(contents, 0) && !IsResponse(c) && CallsOf(c.parts) == []
    ensures Paired(contents + [c], 0)
  {
    PairedAppend(contents, 0, c, []);
    assert contents + [c] + [] == contents + [c];
  }

  // ----- Parallel tool calls

  const MAX_TOOL_CALLS := 10

  predicate Limited(name: string) {
    "deep_research_" <= TrimSpace(name)
  }

  /** maxCallsForTool; 0 is no limit. */
  function MaxCalls(name: string): nat {
    if Limited(name) then MAX_TOOL_CALLS else 0
  }

  datatype ToolResultPair = ToolResultPair(id: string, name: string, payload: Payload)

  function Count(m: map<string, nat>, name: string): nat {
    if name in m then m[name] else 0
  }

  /** How many of `n` calls run when at most `max` may. */
  function Capped(max: nat, n: nat): nat {
    if max > 0 && n > max then max else n
  }

  /** Whichever calls came first, an unlimited tool gives its own result, and a limited
      one is refused only when it has already run `MAX_TOOL_CALLS` times. */
  predicate Pays(p: Payload, name: string, result: string) {
    p == Executed(result) || (p.Stuck? && p.count > MAX_TOOL_CALLS && Limited(name))
  }

  predicate PaysAll(results: seq<ToolResultPair>, calls: seq<Call>, outcome: nat -> string) {
    |results| == |calls| &&
    forall i :: 0 <= i < |calls| ==>
      results[i].id == calls[i].id && results[i].name == calls[i].name && Pays(results[i].payload, calls[i].name, outcome(i))
  }

  /** Tools whose name begins with deep_research_ run ten times at most, all others always. */
  ghost predicate RanWithin(called: map<string, nat>, ran: map<string, nat>) {
    forall name ::
      Count(ran, name) ==
        if "deep_research_" <= TrimSpace(name) && Count(called, name) > 10 then 10 else Count(called, name)
  }

  lemma TalliedMeans(called: map<string, nat>, ran: map<string, nat>)
    requires Tallied(called, ran)
    ensures RanWithin(called, ran)
  {
    hide TrimSpace;
  }

  /** Each slot holds the id and name of its call and what the call came to: its result, or,
      for a tool called more than ten times, the notice. */
  ghost predicate SlotsAnswered(results: seq<ToolResultPair>, calls: seq<Call>, outcome: nat -> string) {
    |results| == |calls| &&
    forall i :: 0 <= i < |calls| ==>
      && results[i].id == calls[i].id && results[i].name == calls[i].name
      && (results[i].payload == Executed(outcome(i))
          || (results[i].payload.Stuck? && results[i].payload.count > 10 && "deep_research_" <= TrimSpace(calls[i].name)))
  }

  lemma PaysAnswered(results: seq<ToolResultPair>, calls: seq<Call>, outcome: nat -> string)
    requires PaysAll(results, calls, outcome)
    ensures SlotsAnswered(results, calls, outcome)
  {
    hide TrimSpace;
  }

  ghost predicate Tallied(called: map<string, nat>, ran: map<string, nat>) {
    forall name :: Count(ran, name) == Capped(MaxCalls(name), Count(called, name))
  }

  lemma {:induction false} TallyStep(called: map<string, nat>, ran: map<string, nat>, name: string)
    requires Tallied(called, ran)
    ensures var count := Count(called, name) + 1;
      Tallied(called[name := count], if MaxCalls(name) > 0 && count > MaxCalls(name) then ran else ran[name := Count(ran, name) + 1])
  {
    hide MaxCalls;
  }

  lemma CallPays(name: string, count: nat, result: string)
    ensures if MaxCalls(name) > 0 && count > MaxCalls(name) then Pays(Stuck(count), name, result)
            else Pays(Executed(result), name, result)
  {
    hide Limited;
  }

  /** The calls of one name among some positions. */
  ghost function Named(calls: seq<Call>, positions: set<nat>, name: string): set<nat> {
    set i | i in positions && i < |calls| && calls[i].name == name
  }

  function CallCount(calls: seq<Call>, name: string): nat {
    if calls == [] then 0
    else CallCount(calls[..|calls| - 1], name) + if calls[|calls| - 1].name == name then 1 else 0
  }

  lemma {:induction false} NamedAll(calls: seq<Call>, positions: set<nat>, name: string)
    requires forall i :: i in positions <==> 0 <= i < |calls|
    ensures |Named(calls, positions, name)| == CallCount(calls, name)
    decreases |calls|
  {
    if calls == [] {
      assert Named(calls, positions, name) == {};
    } else {
      var last := |calls| - 1;
      NamedAll(calls[..last], positions - {last}, name);
      NamedLast(calls, positions, name);
    }
  }

  lemma {:induction false} NamedLast(calls: seq<Call>, positions: set<nat>, name: string)
    requires calls != [] && forall i :: i in positions <==> 0 <= i < |calls|
    ensures var last := |calls| - 1;
      |Named(calls, positions, name)|
        == |Named(calls[..last], positions - {last}, name)| + if calls[last].name == name then 1 else 0
  {
    var last := |calls| - 1;
    var before, after := Named(calls[..last], positions - {last}, name), Named(calls, positions, name);
    assert last !in before;
    assert forall i :: i in before ==> i in after;
    if calls[last].name == name {
      assert after == before + {last};
    } else {
      assert after == before;
    }
  }

  /** Each call that had its turn is counted. */
  ghost predicate CountedCalls(was: map<string, nat>, called: map<string, nat>, calls: seq<Call>, waiting: set<nat>) {
    forall name :: Count(called, name) + |Named(calls, waiting, name)| == Count(was, name) + CallCount(calls, name)
  }

  lemma {:induction false} CountedStart(was: map<string, nat>, calls: seq<Call>, waiting: set<nat>)
    requires forall i :: i in waiting <==> 0 <= i < |calls|
    ensures CountedCalls(was, was, calls, waiting)
  {
    forall name ensures |Named(calls, waiting, name)| == CallCount(calls, name) {
      NamedAll(calls, waiting, name);
    }
  }

  lemma {:induction false} CountedNext(was: map<string, nat>, called: map<string, nat>, calls: seq<Call>, waiting: set<nat>, i: nat)
    requires CountedCalls(was, called, calls, waiting) && i in waiting && i < |calls|
    ensures CountedCalls(was, called[calls[i].name := Count(called, calls[i].name) + 1], calls, waiting - {i})
  {
    forall name ensures |Named(calls, waiting, name)|
        == |Named(calls, waiting - {i}, name)| + if name == calls[i].name then 1 else 0
    {
      var before, after := Named(calls, waiting, name), Named(calls, waiting - {i}, name);
      if name == calls[i].name {
        assert before == after + {i};
      } else {
        assert before == after;
      }
    }
  }

  lemma CountedEnd(was: map<string, nat>, called: map<string, nat>, calls: seq<Call>)
    requires CountedCalls(was, called, calls, {})
    ensures forall name :: Count(called, name) == Count(was, name) + CallCount(calls, name)
  {
    assert forall name :: Named(calls, {}, name) == {};
  }

  /** How often each tool was called and how often it really ran, over one run of the loop. */
  class ToolRunner {
    var called: map<string, nat>
    var ran: map<string, nat>

    ghost predicate Valid()
      reads this
    {
      Tallied(called, ran)
    }

    constructor ()
      ensures Valid() && called == map[] && ran == map[]
    {
      called, ran := map[], map[];
    }

    /** One goroutine, up to its write. */
    method RunCall(call: Call, result: string) returns (p: Payload)
      requires Valid()
      modifies this
      ensures Valid() && Pays(p, call.name, result)
      ensures called == old(called)[call.name := Count(old(called), call.name) + 1]
    {
      hide Tallied, MaxCalls, Pays;
      var maxCalls := MaxCalls(call.name);
      CallPays(call.name, Count(called, call.name) + 1, result);
      TallyStep(called, ran, call.name);
      var count := Count(called, call.name) + 1;
      called := called[call.name := count];
      if maxCalls > 0 && count > maxCalls {
        return Stuck(count);
      }
      ran := ran[call.name := Count(ran, call.name) + 1];
      p := Executed(result);
    }

    lemma RanAsTallied()
      requires Valid()
      ensures RanWithin(called, ran)
    {
      TalliedMeans(called, ran);
    }

    /** The goroutines may take their turns in any order; each fills its own slot. */
    method ExecuteToolsParallel(calls: seq<Call>, outcome: nat -> string) returns (results: seq<ToolResultPair>)
      requires Valid()
      modifies this
      ensures Valid() && PaysAll(results, calls, outcome)
      ensures SlotsAnswered(results, calls, outcome) && RanWithin(called, ran)
      ensures forall name :: Count(called, name) == Count(old(called), name) + CallCount(calls, name)
    {
      hide Limited, Pays, Count, Valid, CountedCalls, Named, CallCount, SlotsAnswered, RanWithin;
      var slots := new ToolResultPair[|calls|](_ => ToolResultPair("", "", Stuck(0)));
      var waiting: set<nat> := {};
      for i := 0 to |calls|
        invariant forall j :: j in waiting <==> 0 <= j < i
      {
        waiting := waiting + {i};
      }
      CountedStart(called, calls, waiting);
      while waiting != {}
        invariant CountedCalls(old(called), called, calls, waiting)
        invariant Valid() && slots.Length == |calls| && fresh(slots)
        invariant forall i :: i in waiting ==> 0 <= i < |calls|
        invariant forall i :: 0 <= i < |calls| && i !in waiting ==>
          slots[i].id == calls[i].id && slots[i].name == calls[i].name && Pays(slots[i].payload, calls[i].name, outcome(i))
        decreases |waiting|
      {
        var i :| i in waiting;
        CountedNext(old(called), called, calls, waiting, i);
        waiting := waiting - {i};
        var payload := RunCall(calls[i], outcome(i));
        slots[i] := ToolResultPair(calls[i].id, calls[i].name, payload);
      }
      CountedEnd(old(called), called, calls);
      results := slots[..];
      PaysAnswered(results, calls, outcome);
      RanAsTallied();
    }
  }

  // ----- The loop

  /** One answer of the model; `promptTokens` is its usage report. */
  datatype Reply = Failure | Reply(content: Option<Content>, promptTokens: Option<int>)

  datatype Stop = GenerationError | ContextLimit | Finished | MaxTurns

  datatype Done = Done(history: seq<Content>, finalText: string, turnCount: nat, stop: Stop)

  /** Everything outside the loop. `replies(t)` answers the request of turn `t`, `textOnly`
      the one request made without tools, `outcome(t)(k)` the k-th call of turn `t`. */
  datatype World = World(
    cancelled: nat -> bool,
    replies: nat -> Reply,
    textOnly: Reply,
    outcome: nat -> nat -> string,
    maxContextTokens: int)

  function Parts(r: Reply): seq<Part> {
    if r.Reply? && r.content.Some? then r.content.value.parts else []
  }

  function Contents(r: Reply): seq<Content> {
    if r.Reply? && r.content.Some? then [r.content.value] else []
  }

  /** A model answers with text and calls, and without tools it makes no call. */
  ghost predicate WellBehaved(w: World) {
    && (forall t :: ResponsesOf(Parts(w.replies(t))) == [])
    && ResponsesOf(Parts(w.textOnly)) == [] && CallsOf(Parts(w.textOnly)) == []
  }

  predicate OverContext(w: World, r: Reply) {
    r.Reply? && w.maxContextTokens > 0 && r.promptTokens.Some? && r.promptTokens.value > w.maxContextTokens * 90 / 100
  }

  /** The reply of a turn that calls tools. */
  predicate CallsTools(w: World, t: nat) {
    var r := w.replies(t);
    r.Reply? && !OverContext(w, r) && CallsOf(Parts(r)) != []
  }

  predicate AnswersTurn(answers: seq<Content>, w: World, t: nat) {
    var calls := CallsOf(Parts(w.replies(t)));
    AnswersAll(answers, calls) &&
    forall k :: 0 <= k < |calls| ==>
      var p := answers[k].parts[0].response.value.payload;
      && answers[k] == Content("user", [Part("", false, None, None, Some(Response(calls[k].id, calls[k].name, p)))])
      && Pays(p, calls[k].name, w.outcome(t)(k))
  }

  /** `contents` is `history` followed by `n` turns: each reply and the answers to its calls. */
  predicate Transcript(contents: seq<Content>, history: seq<Content>, w: World, n: nat)
    decreases n
  {
    if n == 0 then contents == history
    else
      var calls := CallsOf(Parts(w.replies(n)));
      var at := |contents| - |calls| - 1;
      && CallsTools(w, n) && at >= 0
      && [contents[at]] == Contents(w.replies(n))
      && AnswersTurn(contents[at + 1..], w, n)
      && Transcript(contents[..at], history, w, n - 1)
  }

  /** What the last turn adds after `n` turns with tools. */
  function Closing(w: World, n: nat, stop: Stop): seq<Content> {
    match stop
    case GenerationError => []
    case ContextLimit => []
    case Finished =>
      var last := w.replies(n + 1);
      Contents(last) + (if !HasText(Parts(last)) && n > 0 then Contents(w.textOnly) else [])
    case MaxTurns =>
      if n > 0 then [NOTICE] + Contents(w.textOnly) else []
  }

  function Texts(parts: seq<Part>): string {
    if parts == [] then "" else parts[0].text + Texts(parts[1..])
  }

  /** The text of the first `n` replies. */
  function Said(w: World, n: nat): string {
    if n == 0 then "" else Said(w, n - 1) + Texts(Parts(w.replies(n)))
  }

  lemma SaidSteps(w: World, n: nat)
    ensures Said(w, n) == if n == 0 then "" else Said(w, n - 1) + Texts(Parts(w.replies(n)))
  {
  }

  /** All the text of the run. A reply that exceeds the context is not part of it. */
  function FinalText(w: World, n: nat, stop: Stop): string {
    match stop
    case GenerationError => Said(w, n)
    case ContextLimit => Said(w, n)
    case Finished =>
      var last := Parts(w.replies(n + 1));
      var said := Said(w, n) + Texts(last);
      if !HasText(last) && n > 0 then said + Texts(Parts(w.textOnly)) else said
    case MaxTurns =>
      if n > 0 then Said(w, n) + Texts(Parts(w.textOnly)) else Said(w, n)
  }

  /** Why the loop stopped after `n` turns with tools. */
  predicate StopsFor(w: World, maxTurns: int, n: nat, stop: Stop) {
    match stop
    case GenerationError => n < maxTurns && w.replies(n + 1).Failure?
    case ContextLimit => n < maxTurns && OverContext(w, w.replies(n + 1))
    case Finished =>
      && n < maxTurns && w.replies(n + 1).Reply? && !OverContext(w, w.replies(n + 1))
      && CallsOf(Parts(w.replies(n + 1))) == []
    case MaxTurns => n >= maxTurns
  }

  /** What each reason means: the turn after the last one with tools failed, its prompt took
      more than nine tenths of the context, it called no tool, or there was none left. */
  predicate Truly(w: World, maxTurns: int, n: nat, stop: Stop) {
    var r := w.replies(n + 1);
    var full := r.Reply? && w.maxContextTokens > 0 && r.promptTokens.Some? && 10 * r.promptTokens.value > 9 * w.maxContextTokens;
    && (stop == MaxTurns <==> n >= maxTurns)
    && (stop == GenerationError <==> n < maxTurns && r.Failure?)
    && (stop == ContextLimit <==> n < maxTurns && full)
    && (stop == Finished <==> n < maxTurns && r.Reply? && !full)
    && (stop == Finished ==> r.content.Some? ==> forall i :: 0 <= i < |r.content.value.parts| ==> r.content.value.parts[i].call.None?)
  }

  lemma {:induction false} NoCalls(parts: seq<Part>)
    ensures CallsOf(parts) == [] <==> forall i :: 0 <= i < |parts| ==> parts[i].call.None?
  {
    if parts != [] {
      NoCalls(parts[1..]);
      assert forall i :: 1 <= i < |parts| ==> parts[i] == parts[1..][i - 1];
    }
  }

  lemma StopIsTrue(w: World, maxTurns: int, n: nat, stop: Stop)
    requires StopsFor(w, maxTurns, n, stop)
    ensures Truly(w, maxTurns, n, stop)
  {
    NoCalls(Parts(w.replies(n + 1)));
    hide CallsOf;
  }

  /** How often the first `n` turns call a tool. */
  function TurnCalls(w: World, n: nat, name: string): nat {
    if n == 0 then 0 else TurnCalls(w, n - 1, name) + CallCount(CallsOf(Parts(w.replies(n))), name)
  }

  /** Between `was` and `called` lie the calls of `n` turns. */
  ghost predicate TurnsCounted(was: map<string, nat>, called: map<string, nat>, w: World, n: nat) {
    forall name :: Count(called, name) == Count(was, name) + TurnCalls(w, n, name)
  }

  lemma NoTurns(was: map<string, nat>, w: World)
    ensures TurnsCounted(was, was, w, 0)
  {
  }

  lemma NextTurn(was: map<string, nat>, called: map<string, nat>, called': map<string, nat>, w: World, n: nat)
    requires n > 0 && TurnsCounted(was, called, w, n - 1)
    requires forall name :: Count(called', name) == Count(called, name) + CallCount(CallsOf(Parts(w.replies(n))), name)
    ensures TurnsCounted(was, called', w, n)
  {
    hide CallCount, CallsOf, Parts;
  }

  /** The final report, after `n` turns with tools that made the history `core`. */
  predicate Reports(done: Done, core: seq<Content>, w: World, maxTurns: int, n: nat) {
    && StopsFor(w, maxTurns, n, done.stop)
    && done.history == core + Closing(w, n, done.stop)
    && done.finalText == FinalText(w, n, done.stop)
    && done.turnCount == if done.stop.MaxTurns? then n else n + 1
  }

  /** `asked` collects the histories sent to the model; `n` counts the turns with tools.
      A cancelled run reports no history. */
  method RunLoop(w: World, history: seq<Content>, maxTurns: int, runner: ToolRunner)
    returns (done: Option<Done>, n: nat, ghost core: seq<Content>, ghost asked: seq<seq<Content>>)
    requires WellBehaved(w) && runner.Valid()
    modifies runner
    ensures runner.Valid() && TurnsCounted(old(runner.called), runner.called, w, n)
    ensures Transcript(core, history, w, n) && (maxTurns <= 0 ==> n == 0) && (maxTurns > 0 ==> n <= maxTurns)
    ensures done.None? ==> n < maxTurns && w.cancelled(n + 1)
    ensures done.Some? ==> Reports(done.value, core, w, maxTurns, n)
    ensures done.Some? ==> Truly(w, maxTurns, n, done.value.stop)
    ensures Paired(history, 0) ==> AllPaired(asked)
  {
    hide AllPaired, Paired, CallsOf, ResponsesOf, HasText, WellBehaved, Transcript, AnswersTurn, PaysAll;
    hide Closing, Contents, Parts, OverContext, Quiet;
    hide TurnsCounted, CallCount, Texts, Said, Truly;
    var finalText := "";
    SaidSteps(w, 0);
    NoTurns(runner.called, w);
    AskedNothing();
    TranscriptStart(history, w);
    var contents := history;
    n := 0;
    asked := [];
    var turn := 0;
    var lastTurnHadToolCalls := false;
    while turn < maxTurns
      invariant turn == n && runner.Valid() && (maxTurns <= 0 ==> n == 0) && (maxTurns > 0 ==> n <= maxTurns)
      invariant finalText == Said(w, n)
      invariant lastTurnHadToolCalls <==> n > 0
      invariant TurnsCounted(old(runner.called), runner.called, w, n)
      invariant Transcript(contents, history, w, n)
      invariant Paired(history, 0) ==> AllPaired(asked)
    {
      turn := turn + 1;
      SaidSteps(w, turn);
      core := contents;
      ClosingForm(core, w, n);
      if w.cancelled(turn) {
        return None, n, core, asked;
      }
      Ask(asked, contents, history, w, n, []);
      asked := asked + [contents];
      var resp := w.replies(turn);
      if resp.Failure? {
        StopIsTrue(w, maxTurns, n, GenerationError);
        return Some(Done(contents, finalText, turn, GenerationError)), n, core, asked;
      }
      if OverContext(w, resp) {
        StopIsTrue(w, maxTurns, n, ContextLimit);
        return Some(Done(contents, finalText, turn, ContextLimit)), n, core, asked;
      }
      var functionCalls := CallsOf(Parts(resp));
      finalText := finalText + Texts(Parts(resp));
      contents := contents + Contents(resp);
      if |functionCalls| == 0 {
        if !HasText(Parts(resp)) && lastTurnHadToolCalls {
          AfterReply(w, turn);
          Ask(asked, core, history, w, n, Contents(resp));
          asked := asked + [contents];
          finalText := finalText + Texts(Parts(w.textOnly));
          contents := contents + Contents(w.textOnly);
        }
        StopIsTrue(w, maxTurns, n, Finished);
        return Some(Done(contents, finalText, turn, Finished)), n, core, asked;
      }
      lastTurnHadToolCalls := true;
      ghost var called := runner.called;
      var answers := AnswerTurn(w, turn, functionCalls, runner);
      NextTurn(old(runner.called), called, runner.called, w, turn);
      contents := contents + answers;
      TranscriptStep(core, answers, history, w, turn);
      n := turn;
    }
    core := contents;
    ClosingForm(core, w, n);
    if lastTurnHadToolCalls {
      contents := contents + [NOTICE];
      AfterNotice();
      Ask(asked, core, history, w, n, [NOTICE]);
      asked := asked + [contents];
      finalText := finalText + Texts(Parts(w.textOnly));
      contents := contents + Contents(w.textOnly);
    }
    StopIsTrue(w, maxTurns, n, MaxTurns);
    done := Some(Done(contents, finalText, turn, MaxTurns));
  }

  /** The calls of one turn, run and answered. */
  method AnswerTurn(w: World, turn: nat, functionCalls: seq<Call>, runner: ToolRunner) returns (answers: seq<Content>)
    requires functionCalls == CallsOf(Parts(w.replies(turn))) && runner.Valid()
    modifies runner
    ensures runner.Valid() && AnswersTurn(answers, w, turn)
    ensures forall name :: Count(runner.called, name) == Count(old(runner.called), name) + CallCount(functionCalls, name)
  {
    var results := runner.ExecuteToolsParallel(functionCalls, w.outcome(turn));
    answers := ResultContents(results);
    ResultsAnswer(results, answers, w, turn);
  }

  /** One content per result, in order. */
  method ResultContents(results: seq<ToolResultPair>) returns (answers: seq<Content>)
    ensures |answers| == |results|
    ensures forall i :: 0 <= i < |results| ==>
      answers[i] == ToolResultContent(results[i].name, results[i].id, results[i].payload)
  {
    answers := [];
    for i := 0 to |results|
      invariant |answers| == i
      invariant forall j :: 0 <= j < i ==>
        answers[j] == ToolResultContent(results[j].name, results[j].id, results[j].payload)
    {
      answers := answers + [ToolResultContent(results[i].name, results[i].id, results[i].payload)];
    }
  }

  lemma UserIsNotModel()
    ensures !IsModel("user")
  {
    var user := "user";
    assert user[0] == 'u' && user[|user| - 1] == 'r';
    TrimsToItself(user);
    hide TrimSpace;
    assert LowerAll(user)[0] == 'u';
  }

  lemma {:induction false} ResultsAnswer(results: seq<ToolResultPair>, answers: seq<Content>, w: World, t: nat)
    requires PaysAll(results, CallsOf(Parts(w.replies(t))), w.outcome(t))
    requires |answers| == |results|
    requires forall i :: 0 <= i < |results| ==>
      answers[i] == ToolResultContent(results[i].name, results[i].id, results[i].payload)
    ensures AnswersTurn(answers, w, t)
  {
    UserIsNotModel();
    hide IsModel;
  }

  lemma {:induction false} TranscriptStep(core: seq<Content>, answers: seq<Content>, history: seq<Content>, w: World, t: nat)
    requires t > 0 && Transcript(core, history, w, t - 1) && CallsTools(w, t) && AnswersTurn(answers, w, t)
    ensures Transcript(core + Contents(w.replies(t)) + answers, history, w, t)
  {
    var all := core + Contents(w.replies(t)) + answers;
    assert all[..|core|] == core && all[|core| + 1..] == answers;
    assert CallsOf(Parts(w.replies(t))) != [];
    assert w.replies(t).content.Some?;
  }

  lemma {:induction false} NoResponses(parts: seq<Part>)
    requires ResponsesOf(parts) == []
    ensures forall i :: 0 <= i < |parts| ==> parts[i].response.None?
  {
    if parts != [] {
      NoResponses(parts[1..]);
      assert forall i :: 1 <= i < |parts| ==> parts[i] == parts[1..][i - 1];
    }
  }

  lemma {:induction false} LastTurn(contents: seq<Content>, history: seq<Content>, w: World, n: nat)
    requires WellBehaved(w) && n > 0 && Transcript(contents, history, w, n)
    ensures var at := |contents| - |CallsOf(Parts(w.replies(n)))| - 1;
      && at >= 0 && Transcript(contents[..at], history, w, n - 1)
      && !IsResponse(contents[at]) && AnswersAll(contents[at + 1..], CallsOf(contents[at].parts))
  {
    hide CallsOf, AnswersAll, Pays, OverContext, ResponsesOf;
    var parts := Parts(w.replies(n));
    NoResponses(parts);
    hide WellBehaved;
    var at := |contents| - |CallsOf(parts)| - 1;
    assert [contents[at]] == Contents(w.replies(n));
    assert contents[at].parts == parts;
  }

  lemma TranscriptEnd(contents: seq<Content>, history: seq<Content>, w: World)
    requires Transcript(contents, history, w, 0)
    ensures contents == history
  {
  }

  lemma SplitAt(contents: seq<Content>, at: nat)
    requires at < |contents|
    ensures contents == contents[..at] + [contents[at]] + contents[at + 1..]
  {
  }

  /** Every turn keeps the history paired. */
  lemma {:induction false} TranscriptPaired(contents: seq<Content>, history: seq<Content>, w: World, n: nat)
    requires WellBehaved(w) && Transcript(contents, history, w, n)
    ensures Paired(history, 0) ==> Paired(contents, 0)
    decreases n
  {
    hide Paired, AnswersAll, IsResponse, Transcript, WellBehaved, CallsOf;
    if n == 0 {
      TranscriptEnd(contents, history, w);
    } else if Paired(history, 0) {
      LastTurn(contents, history, w, n);
      var at := |contents| - |CallsOf(Parts(w.replies(n)))| - 1;
      TranscriptPaired(contents[..at], history, w, n - 1);
      SplitAt(contents, at);
      PairedAppend(contents[..at], 0, contents[at], contents[at + 1..]);
    }
  }

  /** At most one content, without calls and answers. */
  predicate Quiet(added: seq<Content>) {
    |added| <= 1 && forall i :: 0 <= i < |added| ==> ResponsesOf(added[i].parts) == [] && CallsOf(added[i].parts) == []
  }

  lemma AfterReply(w: World, t: nat)
    requires WellBehaved(w) && CallsOf(Parts(w.replies(t))) == []
    ensures Quiet(Contents(w.replies(t)))
  {
  }

  lemma AfterNotice()
    ensures Quiet([NOTICE])
  {
    var parts := NOTICE.parts;
    assert |parts| == 1 && parts[1..] == [];
    assert CallsOf([]) == [] && ResponsesOf([]) == [];
    assert CallsOf(parts) == [] + CallsOf(parts[1..]);
    assert ResponsesOf(parts) == [] + ResponsesOf(parts[1..]);
  }

  lemma ClosingForm(core: seq<Content>, w: World, n: nat)
    ensures core + Closing(w, n, GenerationError) == core
    ensures core + Closing(w, n, ContextLimit) == core
    ensures core + Closing(w, n, Finished) ==
      var all := core + Contents(w.replies(n + 1));
      if !HasText(Parts(w.replies(n + 1))) && n > 0 then all + Contents(w.textOnly) else all
    ensures core + Closing(w, n, MaxTurns) ==
      if n > 0 then core + [NOTICE] + Contents(w.textOnly) else core
  {
    hide HasText, Contents;
    var r, t := Contents(w.replies(n + 1)), Contents(w.textOnly);
    assert core + (r + t) == core + r + t && core + (r + []) == core + r;
    assert core + ([NOTICE] + t) == core + [NOTICE] + t;
  }

  lemma {:induction false} ClosingPaired(core: seq<Content>, history: seq<Content>, w: World, n: nat, added: seq<Content>)
    requires WellBehaved(w) && Transcript(core, history, w, n) && Quiet(added)
    ensures Paired(history, 0) ==> Paired(core + added, 0)
  {
    TranscriptPaired(core, history, w, n);
    if |added| == 1 && Paired(history, 0) {
      NoResponses(added[0].parts);
      PairedAppendOne(core, added[0]);
      assert added == [added[0]];
    } else {
      assert |added| == 0 ==> core + added == core;
    }
  }

  ghost predicate AllPaired(asked: seq<seq<Content>>) {
    forall a :: a in asked ==> Paired(a, 0)
  }

  lemma AskedNothing()
    ensures AllPaired([]) && Quiet([])
  {
  }

  lemma TranscriptStart(history: seq<Content>, w: World)
    ensures Transcript(history, history, w, 0)
  {
  }

  lemma {:induction false} Ask(asked: seq<seq<Content>>, core: seq<Content>, history: seq<Content>, w: World, n: nat, added: seq<Content>)
    requires WellBehaved(w) && Transcript(core, history, w, n) && Quiet(added)
    requires Paired(history, 0) ==> AllPaired(asked)
    ensures Paired(history, 0) ==> AllPaired(asked + [core + added])
    ensures core + [] == core
  {
    ClosingPaired(core, history, w, n, added);
    hide Paired, Transcript;
    assert core + [] == core;
  }

  /** Started on a paired history, the loop reports a paired history whatever the model,
      the tools and the scheduler do. */
  lemma {:induction false} ReportsPaired(core: seq<Content>, history: seq<Content>, w: World, maxTurns: int, n: nat, stop: Stop)
    requires WellBehaved(w) && Transcript(core, history, w, n) && StopsFor(w, maxTurns, n, stop)
    requires Paired(history, 0)
    ensures Paired(core + Closing(w, n, stop), 0)
  {
    hide Paired, Transcript, HasText, WellBehaved, CallsOf, ResponsesOf, Parts;
    ClosingForm(core, w, n);
    match stop {
      case Finished =>
        AfterReply(w, n + 1);
        ClosingPaired(core, history, w, n, Contents(w.replies(n + 1)));
        hide Closing;
        TextOnlyPaired(core + Contents(w.replies(n + 1)), w);
      case MaxTurns =>
        AfterNotice();
        ClosingPaired(core, history, w, n, [NOTICE]);
        ClosingPaired(core, history, w, n, []);
        hide Closing;
        TextOnlyPaired(core + [NOTICE], w);
      case _ =>
        ClosingPaired(core, history, w, n, []);
    }
    assert core + [] == core;
  }

  lemma {:induction false} TextOnlyPaired(contents: seq<Content>, w: World)
    requires WellBehaved(w) && Paired(contents, 0)
    ensures Paired(contents + Contents(w.textOnly), 0)
  {
    var text := Contents(w.textOnly);
    if text != [] {
      NoResponses(text[0].parts);
      PairedAppendOne(contents, text[0]);
      assert text == [text[0]];
    } else {
      assert contents + text == contents;
    }
  }

  // ----- The text of the report

  function TextOf(contents: seq<Content>): string {
    if contents == [] then "" else Texts(contents[0].parts) + TextOf(contents[1..])
  }

  lemma Joined(a: string, b: string, c: string)
    ensures a + b + c == a + (b + c) && a + "" == a && "" + a == a
  {
  }

  /** A part's text stands between the texts before and after it. */
  lemma {:induction false} TextsAt(parts: seq<Part>, i: nat)
    requires i < |parts|
    ensures Texts(parts) == Texts(parts[..i]) + parts[i].text + Texts(parts[i + 1..])
  {
    if i == 0 {
      assert Texts(parts[..0]) == "";
      Joined("", parts[0].text, Texts(parts[1..]));
    } else {
      TextsAt(parts[1..], i - 1);
      assert parts[1..][..i - 1] == parts[..i][1..] && parts[1..][i..] == parts[i + 1..];
      var before, after := Texts(parts[..i][1..]), Texts(parts[i + 1..]);
      Joined(parts[0].text, before, parts[i].text + after);
      Joined(parts[0].text, before, parts[i].text);
      Joined(before, parts[i].text, after);
      Joined(parts[0].text + before, parts[i].text, after);
    }
  }

  lemma {:induction false} TextOfConcat(a: seq<Content>, b: seq<Content>)
    ensures TextOf(a + b) == TextOf(a) + TextOf(b)
  {
    if a == [] {
      assert a + b == b;
      Joined(TextOf(b), "", "");
    } else {
      TextOfConcat(a[1..], b);
      assert (a + b)[1..] == a[1..] + b;
      Joined(Texts(a[0].parts), TextOf(a[1..]), TextOf(b));
    }
  }

  lemma ReplyText(r: Reply)
    ensures TextOf(Contents(r)) == Texts(Parts(r))
  {
    if Contents(r) != [] {
      assert Contents(r)[1..] == [];
      Joined(Texts(Parts(r)), "", "");
    }
  }

  lemma {:induction false} AnswersSayNothing(answers: seq<Content>, calls: seq<Call>)
    requires AnswersAll(answers, calls)
    ensures TextOf(answers) == ""
    decreases |answers|
  {
    hide IsModel;
    if answers != [] {
      assert Answers(answers[0], calls[0]);
      assert answers[0].parts[1..] == [];
      assert Texts(answers[0].parts) == "";
      forall k | 0 <= k < |calls| - 1 ensures Answers(answers[1..][k], calls[1..][k]) {
        assert Answers(answers[k + 1], calls[k + 1]);
      }
      AnswersSayNothing(answers[1..], calls[1..]);
    }
  }

  /** Turns with tools add the text of the replies and no other. */
  lemma {:induction false} TranscriptText(contents: seq<Content>, history: seq<Content>, w: World, n: nat)
    requires Transcript(contents, history, w, n)
    ensures TextOf(contents) == TextOf(history) + Said(w, n) && history <= contents
    decreases n
  {
    hide CallsOf, AnswersAll, Pays, OverContext, TextOf, Texts;
    if n == 0 {
      Joined(TextOf(history), "", "");
    } else {
      var at := |contents| - |CallsOf(Parts(w.replies(n)))| - 1;
      TranscriptText(contents[..at], history, w, n - 1);
      SplitAt(contents, at);
      AnswersSayNothing(contents[at + 1..], CallsOf(Parts(w.replies(n))));
      ReplyText(w.replies(n));
      TextOfConcat(contents[..at] + [contents[at]], contents[at + 1..]);
      TextOfConcat(contents[..at], [contents[at]]);
      Joined(TextOf(history), Said(w, n - 1), Texts(Parts(w.replies(n))));
      Joined(TextOf(contents), "", "");
      assert history <= contents[..at];
    }
  }

  /** The reported text is the text of all that the run has added to the history, in order,
      without the notice of the turn limit. */
  lemma {:induction false} ReportedText(done: Done, core: seq<Content>, history: seq<Content>, w: World, maxTurns: int, n: nat)
    requires Transcript(core, history, w, n) && Reports(done, core, w, maxTurns, n)
    ensures history <= done.history
    ensures TextOf(done.history) == TextOf(history) +
      if done.stop.MaxTurns? && n > 0 then Said(w, n) + NOTICE.parts[0].text + Texts(Parts(w.textOnly)) else done.finalText
    ensures done.stop.MaxTurns? && n > 0 ==> done.finalText == Said(w, n) + Texts(Parts(w.textOnly))
  {
    TranscriptText(core, history, w, n);
    hide Transcript, StopsFor, TextOf, Texts, Said, HasText, Contents, Parts;
    TextOfConcat(core, Closing(w, n, done.stop));
    ClosingText(w, n, done.stop);
    var s, t := Said(w, n), Texts(Parts(w.textOnly));
    var last := Texts(Parts(w.replies(n + 1)));
    Joined(TextOf(history), s, "");
    Joined(s, "", "");
    Joined(s, last, "");
    Joined(TextOf(history), s, last);
    Joined(s, last, t);
    Joined(TextOf(history), s, last + t);
    Joined(s, NOTICE.parts[0].text, t);
    Joined(TextOf(history), s, NOTICE.parts[0].text + t);
  }

  lemma ClosingText(w: World, n: nat, stop: Stop)
    ensures var last, t := Texts(Parts(w.replies(n + 1))), Texts(Parts(w.textOnly));
      TextOf(Closing(w, n, stop)) ==
        if stop.Finished? then (if !HasText(Parts(w.replies(n + 1))) && n > 0 then last + t else last)
        else if stop.MaxTurns? && n > 0 then NOTICE.parts[0].text + t else ""
  {
    assert TextOf([]) == "";
    NoticeText();
    hide Contents, Parts, Texts, TextOf, HasText;
    ReplyText(w.replies(n + 1));
    ReplyText(w.textOnly);
    TextOfConcat(Contents(w.replies(n + 1)), Contents(w.textOnly));
    TextOfConcat(Contents(w.replies(n + 1)), []);
    TextOfConcat([NOTICE], Contents(w.textOnly));
    Joined(Texts(Parts(w.replies(n + 1))), "", "");
  }

  lemma NoticeText()
    ensures TextOf([NOTICE]) == NOTICE.parts[0].text
  {
    var parts, all := NOTICE.parts, [NOTICE];
    assert parts[1..] == [] && all[1..] == [];
    assert Texts([]) == "" && TextOf([]) == "";
    assert Texts(parts) == parts[0].text + Texts(parts[1..]);
    assert TextOf(all) == Texts(parts) + TextOf(all[1..]);
    Joined(parts[0].text, "", "");
  }
}
