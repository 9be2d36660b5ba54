/** The agent loop: complete, run the tools that were asked for, append, repeat; interrupts may arrive at any point.

    The chain an executor works on is what its handle loads: ConversationProtocol.HandleSeesOnlyItsAppends shows that
    it changes only by the executor's own appends, each of which adds its message or fails. */
module Executor {
  import opened Wrappers
  import opened Pairing
  import GoStrings

  datatype RunStatus = Completed | Interrupted | Errored

  datatype RunResult = RunResult(status: RunStatus, finalText: string, turns: nat, error: string)

  datatype Completion = Reply(text: string, calls: seq<ToolCall>) | Fails(error: string, contextCanceled: bool)

  /** Output and error of one tool execution; no error is None. */
  datatype ToolOutcome = ToolOutcome(output: string, error: Option<string>)

  /** Everything outside one run.  Its interrupt channel is closed at most once and stays closed, so an interrupt is the
      number of the first check that sees it; appends are numbered too.  `firstLoad` is the load that decides about the
      system prompt, `closes` whether the ref can be released at the end. */
  datatype World = World(
    interruptAt: Option<nat>,
    firstLoad: bool,
    loads: nat -> bool,
    complete: nat -> Completion,
    tools: set<string>,
    execute: (nat, nat) -> ToolOutcome,
    appends: nat -> bool,
    closes: bool)

  function InterruptedResult(call: ToolCall): ToolResult {
    ToolResult(call.id, call.name, "tool execution interrupted", true)
  }

  /** What an uninterrupted call contributes. */
  function ResultFor(w: World, turn: nat, i: nat, call: ToolCall): ToolResult {
    if call.name !in w.tools then ToolResult(call.id, call.name, "unknown tool: " + call.name, true)
    else
      var o := w.execute(turn, i);
      ToolResult(call.id, call.name, if o.error.Some? then o.error.value else o.output, o.error.Some?)
  }

  // ---------- when a reply is left unanswered ----------

  /** The interrupt is visible to this check. */
  predicate Seen(w: World, check: nat) {
    w.interruptAt.Some? && w.interruptAt.value <= check
  }

  /** A known tool is followed by a second check. */
  function ToolChecks(w: World, calls: seq<ToolCall>): nat {
    if calls == [] then 0
    else ToolChecks(w, calls[..|calls| - 1]) + if calls[|calls| - 1].name in w.tools then 2 else 1
  }

  /** The turn gets as far as storing a reply that asks, if `check` and `append` are its first check and append. */
  predicate StoresCalls(w: World, turn: nat, check: nat, append: nat) {
    && !Seen(w, check) && w.loads(turn)
    && w.complete(turn).Reply? && w.complete(turn).calls != []
    && w.appends(append)
  }

  /** The number of the check after the tool results, if the turn gets there uninterrupted. */
  function LastCheck(w: World, turn: nat, check: nat): nat
    requires w.complete(turn).Reply?
  {
    check + 2 + ToolChecks(w, w.complete(turn).calls)
  }

  /** The two ways to leave a stored reply unanswered: the interrupt is seen right after storing it, or its tool results
      cannot be stored. */
  predicate LeftOpen(w: World, turn: nat, check: nat, append: nat) {
    StoresCalls(w, turn, check, append) && (Seen(w, check + 1) || !w.appends(append + 1))
  }

  /** The turn is completed and the loop goes on. */
  predicate FullTurn(w: World, turn: nat, check: nat, append: nat) {
    StoresCalls(w, turn, check, append) && w.appends(append + 1) && !Seen(w, LastCheck(w, turn, check))
  }

  /** The turn whose reply is left unanswered, if there is one from `turn` on. */
  function OpenTurn(w: World, turn: nat, maxTurns: nat, check: nat, append: nat): Option<nat>
    decreases maxTurns + 1 - turn
  {
    if turn > maxTurns then None
    else if LeftOpen(w, turn, check, append) then Some(turn)
    else if FullTurn(w, turn, check, append) then
      OpenTurn(w, turn + 1, maxTurns, LastCheck(w, turn, check) + 1, append + 2)
    else None
  }

  /** How a turn ends the run, or None if the loop goes on. */
  function TurnStatus(w: World, turn: nat, check: nat, append: nat, released: bool): Option<RunStatus> {
    if Seen(w, check) then Some(Interrupted)
    else if !w.loads(turn) then Some(Errored)
    else if w.complete(turn).Fails? then
      Some(if Seen(w, check + 1) || w.complete(turn).contextCanceled then Interrupted else Errored)
    else if released || !w.appends(append) then Some(Errored)
    else if Seen(w, check + 1) then Some(Interrupted)
    else if w.complete(turn).calls == [] then Some(Completed)
    else if !w.appends(append + 1) then Some(Errored)
    else if Seen(w, LastCheck(w, turn, check)) then Some(Interrupted)
    else None
  }

  /** How the loop ends: as the first turn that ends it, or with an error when the turns run out. */
  function LoopStatus(w: World, turn: nat, maxTurns: nat, check: nat, append: nat, released: bool): RunStatus
    decreases maxTurns + 1 - turn
  {
    if turn > maxTurns then Errored
    else match TurnStatus(w, turn, check, append, released)
         case Some(status) => status
         case None => LoopStatus(w, turn + 1, maxTurns, LastCheck(w, turn, check) + 1, append + 2, released)
  }

  // ---------- the loop in place ----------

  class Executor {
    const systemPrompt: string
    const maxTurns: nat
    var chain: seq<Message>
    var released: bool
    var running: bool
    var result: RunResult
    var world: World
    var checks: nat
    var appendsTried: nat
    var requests: seq<seq<Message>>

    constructor (world: World, systemPrompt: string, maxTurns: int, chain: seq<Message>)
      ensures this.systemPrompt == GoStrings.TrimSpace(systemPrompt)
      ensures this.maxTurns == (if maxTurns <= 0 then 20 else maxTurns) && this.chain == chain
      ensures !released && !running && requests == []
    {
      this.systemPrompt := GoStrings.TrimSpace(systemPrompt);
      this.maxTurns := if maxTurns <= 0 then 20 else maxTurns;
      this.world, this.chain, released, running, requests := world, chain, false, false, [];
      result, checks, appendsTried := RunResult(Completed, "", 0, ""), 0, 0;
    }

    method CheckInterrupted() returns (yes: bool)
      modifies this`checks
      ensures checks == old(checks) + 1
      ensures yes == Seen(world, old(checks))
    {
      yes := world.interruptAt.Some? && world.interruptAt.value <= checks;
      checks := checks + 1;
    }

    method AppendMessage(m: Message) returns (ok: bool)
      modifies this`chain, this`appendsTried
      ensures ok == (!released && world.appends(old(appendsTried)))
      ensures chain == if ok then old(chain) + [m] else old(chain)
      ensures appendsTried == old(appendsTried) + 1
    {
      ok := !released && world.appends(appendsTried);
      appendsTried := appendsTried + 1;
      if ok {
        chain := chain + [m];
      }
    }

    /** Run the calls of one turn.  Up to some call the results are real; from the first interrupt on they say so. */
    method RunTools(turn: nat, calls: seq<ToolCall>) returns (results: seq<ToolResult>, ghost cut: nat)
      modifies this`checks
      ensures ResultsOf(world, turn, calls, results, cut) && cut <= |calls|
      ensures checks <= old(checks) + ToolChecks(world, calls)
      ensures cut == |calls| ==> checks == old(checks) + ToolChecks(world, calls)
      ensures cut < |calls| ==> checks > 0 && Seen(world, checks - 1)
    {
      hide ToolChecks, ResultFor;
      var blank := ToolResult("", "", "", false);
      results, cut := seq(|calls|, _ => blank), |calls|;
      var i := 0;
      NoCallsNoChecks(world, calls);
      while i < |calls|
        invariant i <= |calls| == |results| == cut
        invariant checks == old(checks) + ToolChecks(world, calls[..i])
        invariant forall k :: 0 <= k < i ==> results[k] == ResultFor(world, turn, k, calls[k])
      {
        MoreCallsMoreChecks(world, calls, i);
        var call := calls[i];
        var stop := CheckInterrupted();
        if stop {
          cut := i;
          results := FillInterrupted(results, calls, i);
          return;
        }
        CallResult(world, turn, i, call);
        if call.name !in world.tools {
          results := results[i := ToolResult(call.id, call.name, "unknown tool: " + call.name, true)];
        } else {
          var outcome := world.execute(turn, i);
          stop := CheckInterrupted();
          if stop {
            cut := i;
            results := FillInterrupted(results, calls, i);
            return;
          }
          var output := outcome.output;
          if outcome.error.Some? {
            output := outcome.error.value;
          }
          results := results[i := ToolResult(call.id, call.name, output, outcome.error.Some?)];
        }
        i := i + 1;
      }
      assert calls[..|calls|] == calls;
    }

    /** One iteration: None to go on, or the result the loop returns with. */
    method RunTurn(turn: nat) returns (ended: Option<RunResult>)
      requires turn >= 1
      modifies this`chain, this`appendsTried, this`checks, this`requests
      ensures old(chain) <= chain && Turn(world, turn, chain[|old(chain)|..])
      ensures requests == old(requests) || requests == old(requests) + [old(chain)]
      ensures chain != old(chain) ==> requests != old(requests)
      ensures ended.None? <==> !released && FullTurn(world, turn, old(checks), old(appendsTried))
      ensures ended.None? ==>
                && |chain| == |old(chain)| + 2 && appendsTried == old(appendsTried) + 2
                && checks == LastCheck(world, turn, old(checks)) + 1
      ensures ended.None? ==>
                var (reply, tool) := (chain[|old(chain)|], chain[|old(chain)| + 1]);
                && ResultsOf(world, turn, reply.calls, tool.results, |reply.calls|)
                && !Seen(world, checks - 1) && world.appends(appendsTried - 1)
      ensures ended.Some? ==> TurnResult(turn, chain[|old(chain)|..], ended.value)
      ensures checks > 0
      ensures ended.Some? && old(appendsTried) > 0 && world.appends(old(appendsTried) - 1) ==>
                appendsTried > 0 && SaysWhatItSaw(world, checks - 1, appendsTried - 1, turn, requests != old(requests),
                                                  chain[|old(chain)|..], ended.value)
      ensures TurnStatus(world, turn, old(checks), old(appendsTried), released) ==
              if ended.Some? then Some(ended.value.status) else None
      ensures Dangling(chain[|old(chain)|..]) <==>
              !released && LeftOpen(world, turn, old(checks), old(appendsTried))
    {
      hide ResultsOf, ToolChecks, GoStrings.TrimSpace;
      var stop := CheckInterrupted();
      if stop {
        return Some(RunResult(Interrupted, "", turn - 1, ""));
      }
      if !world.loads(turn) {
        return Some(RunResult(Errored, "", turn - 1, "load chain"));
      }
      requests := requests + [chain];
      var completion := world.complete(turn);
      if completion.Fails? {
        stop := CheckInterrupted();
        if stop || completion.contextCanceled {
          return Some(RunResult(Interrupted, "", turn - 1, ""));
        }
        return Some(RunResult(Errored, "", turn - 1, completion.error));
      }
      ghost var before := chain;
      var asking := AssistantMessage(completion.text, completion.calls);
      var ok := AppendMessage(asking);
      if !ok {
        return Some(RunResult(Errored, "", turn - 1, "append"));
      }
      assert chain[|before|..] == [asking];
      stop := CheckInterrupted();
      if stop {
        return Some(RunResult(Interrupted, "", turn, ""));
      }
      if completion.calls == [] {
        return Some(RunResult(Completed, GoStrings.TrimSpace(completion.text), turn, ""));
      }
      var results, cut := RunTools(turn, completion.calls);
      ok := AppendMessage(ToolMessage(results));
      if !ok {
        return Some(RunResult(Errored, "", turn, "append"));
      }
      assert chain[|before|..] == [asking, ToolMessage(results)];
      stop := CheckInterrupted();
      if stop {
        return Some(RunResult(Interrupted, "", turn, ""));
      }
      return None;
    }

    /** The last reply is left unanswered exactly when OpenTurn says so, and in that turn. */
    method RunLoop() returns (r: RunResult)
      modifies this`chain, this`appendsTried, this`checks, this`requests
      ensures Ended(world, old(chain), old(requests), chain, requests, r) && r.turns <= maxTurns
      ensures r.status == LoopStatus(world, 1, maxTurns, old(checks), old(appendsTried), released)
      ensures Dangling(chain[|old(chain)|..]) <==>
              !released && OpenTurn(world, 1, maxTurns, old(checks), old(appendsTried)).Some?
      ensures Dangling(chain[|old(chain)|..]) ==>
                r.turns == OpenTurn(world, 1, maxTurns, old(checks), old(appendsTried)).value
      ensures maxTurns > 0 && old(appendsTried) > 0 && world.appends(old(appendsTried) - 1) ==>
                && checks > 0 && appendsTried > 0
                && SaysWhatItSaw(world, checks - 1, appendsTried - 1, r.turns + 1,
                                 |requests| > |old(requests)| + r.turns, chain[|old(chain)|..], r)
    {
      hide Progress, Ended, Turn, TurnResult, Dangling, LeftOpen, FullTurn, TurnStatus, SaysWhatItSaw, ResultsOf;
      ghost var (start, asked) := (chain, requests);
      ghost var open := OpenTurn(world, 1, maxTurns, checks, appendsTried);
      ghost var status := LoopStatus(world, 1, maxTurns, checks, appendsTried, released);
      var turn := 1;
      NothingYet(world, start, asked);
      while turn <= maxTurns
        invariant 1 <= turn <= maxTurns + 1
        invariant Progress(world, start, asked, chain, requests, turn - 1)
        invariant !released ==> open == OpenTurn(world, turn, maxTurns, checks, appendsTried)
        invariant status == LoopStatus(world, turn, maxTurns, checks, appendsTried, released)
        invariant old(appendsTried) > 0 && world.appends(old(appendsTried) - 1) ==>
                    appendsTried > 0 && world.appends(appendsTried - 1)
        invariant turn > 1 ==> checks > 0 && !Seen(world, checks - 1)
        decreases maxTurns + 1 - turn
      {
        ghost var (before, sent, check, append) := (chain, requests, checks, appendsTried);
        var ended := RunTurn(turn);
        if ended.Some? {
          TurnEnds(world, start, asked, before, sent, chain, requests, turn, ended.value);
          if appendsTried > 0 {
            TurnSpeaksForRun(world, checks - 1, appendsTried - 1, start, asked, before, sent, chain, requests, turn,
                             ended.value);
          }
          return ended.value;
        }
        TurnContinues(world, start, asked, before, sent, chain, requests, turn);
        FullIsNotOpen(world, turn, check, append);
        turn := turn + 1;
      }
      r := RunResult(Errored, "", maxTurns, "max turns reached");
      TurnsRunOut(world, start, asked, chain, requests, r);
      if checks > 0 && appendsTried > 0 && maxTurns > 0 {
        RunningOutSpeaksForRun(world, checks - 1, appendsTried - 1, start, asked, chain, requests, r);
      }
    }

    /** Run, and the Wait that follows it. */
    method Run(w: World, userMessage: string) returns (started: bool)
      modifies this
      ensures started == (GoStrings.TrimSpace(userMessage) != "" && !old(running))
      ensures !started ==> unchanged(this)
      ensures started ==> !running && released == (old(released) || w.closes)
      ensures var run := RunCase(w, systemPrompt, maxTurns, userMessage, old(released));
              started ==>
                && Ran(run, old(chain), chain)
                && result.status == StatusOf(run, old(chain))
                && (Opens(run, old(chain)) ==>
                      var base := old(chain) + Opening(run, old(chain));
                      && Ended(w, base, old(requests), chain, requests, result) && result.turns <= maxTurns
                      && (maxTurns > 0 ==>
                            && checks > 0 && appendsTried > 0
                            && SaysWhatItSaw(w, checks - 1, appendsTried - 1, result.turns + 1,
                                             |requests| > |old(requests)| + result.turns, chain[|base|..], result)))
                && (!Opens(run, old(chain)) ==> result.turns == 0)
    {
      hide Ended, OpenTurn, LoopStatus, Replies, SaysWhatItSaw;
      if GoStrings.TrimSpace(userMessage) == "" {
        return false;
      }
      if running {
        return false;
      }
      started, running := true, true;
      world, checks, appendsTried := w, 0, 0;
      ghost var run := RunCase(w, systemPrompt, maxTurns, userMessage, released);
      ghost var start := chain;
      var ok := Open(userMessage);
      if !ok {
        Finish(RunResult(Errored, "", 0, "append"));
        return;
      }
      ghost var base := chain;
      var r := RunLoop();
      LoopRan(run, start, base, old(requests), chain, requests, r);
      Finish(r);
    }

    /** The system prompt on a chain that is empty or cannot be loaded, then the user's message. */
    method Open(userMessage: string) returns (ok: bool)
      requires appendsTried == 0
      modifies this`chain, this`appendsTried
      ensures var run := RunCase(world, systemPrompt, maxTurns, userMessage, released);
              && ok == Opens(run, old(chain))
              && chain == old(chain) + Opening(run, old(chain))[..Stored(run, old(chain))]
              && (ok ==> appendsTried == |Opening(run, old(chain))| && world.appends(appendsTried - 1))
    {
      ghost var (start, run) := (chain, RunCase(world, systemPrompt, maxTurns, userMessage, released));
      ghost var opening := Opening(run, start);
      assert opening[..0] == [] && opening[..|opening|] == opening;
      if systemPrompt != "" && (chain == [] || !world.firstLoad) {
        ok := AppendMessage(Message(System, systemPrompt, [], []));
        if !ok {
          return;
        }
      }
      ok := AppendMessage(Message(User, GoStrings.TrimSpace(userMessage), [], []));
    }

    method Finish(r: RunResult)
      modifies this`result, this`running, this`released
      ensures result == r && !running && released == (old(released) || world.closes)
    {
      result, running, released := r, false, released || world.closes;
    }
  }

  method FillInterrupted(results: seq<ToolResult>, calls: seq<ToolCall>, start: nat) returns (filled: seq<ToolResult>)
    requires |results| == |calls| && start <= |calls|
    ensures |filled| == |calls| && filled[..start] == results[..start]
    ensures forall i :: start <= i < |calls| ==> filled[i] == InterruptedResult(calls[i])
  {
    filled := results;
    for i := start to |calls|
      invariant |filled| == |calls| && filled[..start] == results[..start]
      invariant forall k :: start <= k < i ==> filled[k] == InterruptedResult(calls[k])
    {
      filled := filled[i := ToolResult(calls[i].id, calls[i].name, "tool execution interrupted", true)];
    }
  }

  lemma MoreCallsMoreChecks(w: World, calls: seq<ToolCall>, i: nat)
    requires i < |calls|
    ensures var step := if calls[i].name in w.tools then 2 else 1;
            ToolChecks(w, calls[..i + 1]) == ToolChecks(w, calls[..i]) + step <= ToolChecks(w, calls)
    decreases |calls| - i
  {
    assert calls[..i + 1][..i] == calls[..i];
    if i + 1 < |calls| {
      MoreCallsMoreChecks(w, calls, i + 1);
    } else {
      assert calls[..i + 1] == calls;
    }
  }

  lemma NoCallsNoChecks(w: World, calls: seq<ToolCall>)
    ensures ToolChecks(w, calls[..0]) == 0
  {
  }

  lemma CallResult(w: World, turn: nat, i: nat, call: ToolCall)
    ensures var (known, o) := (call.name in w.tools, w.execute(turn, i));
            ResultFor(w, turn, i, call) ==
            ToolResult(call.id, call.name,
                       if !known then "unknown tool: " + call.name
                       else if o.error.Some? then o.error.value else o.output,
                       !known || o.error.Some?)
  {
  }

  lemma FullIsNotOpen(w: World, turn: nat, check: nat, append: nat)
    ensures FullTurn(w, turn, check, append) ==> !LeftOpen(w, turn, check, append)
  {
  }

  // ---------- what the loop has done ----------

  /** One turn's messages: nothing, a reply, or a reply that asks and its answers. */
  ghost predicate Turn(w: World, turn: nat, msgs: seq<Message>) {
    && |msgs| <= 2
    && (|msgs| >= 1 ==>
          w.complete(turn).Reply? && msgs[0] == AssistantMessage(w.complete(turn).text, w.complete(turn).calls))
    && (|msgs| == 2 ==>
          && msgs[0].calls != []
          && msgs[1] == ToolMessage(msgs[1].results)
          && Reports(w, turn, msgs[0], msgs[1]))
  }

  /** Results up to `cut` are real, the rest say that they were interrupted. */
  ghost predicate ResultsOf(w: World, turn: nat, calls: seq<ToolCall>, results: seq<ToolResult>, cut: nat) {
    && |results| == |calls| && cut <= |calls|
    && (forall i :: 0 <= i < cut ==> results[i] == ResultFor(w, turn, i, calls[i]))
    && (forall i :: cut <= i < |calls| ==> results[i] == InterruptedResult(calls[i]))
    && (cut < |calls| ==> w.interruptAt.Some?)
  }

  ghost predicate TurnResult(turn: nat, msgs: seq<Message>, r: RunResult) {
    && r.turns + 1 == turn + (if msgs == [] then 0 else 1)
    && (r.status == Completed ==>
          |msgs| == 1 && msgs[0].calls == [] && r.finalText == GoStrings.TrimSpace(msgs[0].text))
  }

  /** What the status of a run says about the last check it made, its last append and its last request: interrupted
      exactly when that check saw the interrupt and nothing failed to be stored, or the model call was cancelled;
      completed exactly when that check saw nothing and the last message is a reply without calls. */
  ghost predicate SaysWhatItSaw(w: World, check: nat, append: nat, turn: nat, asked: bool, msgs: seq<Message>,
                                r: RunResult)
  {
    && (r.status == Interrupted <==>
          || (Seen(w, check) && w.appends(append))
          || (asked && w.complete(turn).Fails? && w.complete(turn).contextCanceled))
    && (r.status == Completed <==>
          !Seen(w, check) && |msgs| % 2 == 1 && msgs[|msgs| - 1].calls == [] && w.appends(append))
    && (r.status == Errored && asked && w.complete(turn).Fails? ==> r.error == w.complete(turn).error)
  }

  /** Each assistant message is the reply to the request of its turn, and each tool message has the results of that
      turn's calls, up to an interrupt. */
  ghost predicate Replies(w: World, msgs: seq<Message>) {
    forall k: nat :: 2 * k < |msgs| ==>
      && w.complete(k + 1).Reply?
      && msgs[2 * k] == AssistantMessage(w.complete(k + 1).text, w.complete(k + 1).calls)
      && (2 * k + 1 < |msgs| ==> Reports(w, k + 1, msgs[2 * k], msgs[2 * k + 1]))
  }

  ghost predicate Reports(w: World, turn: nat, reply: Message, tool: Message) {
    exists cut :: ResultsOf(w, turn, reply.calls, tool.results, cut)
  }

  /** The results of the first n turns are all real. */
  ghost predicate RealResults(w: World, msgs: seq<Message>, n: int) {
    forall k: nat :: k < n && 2 * k + 1 < |msgs| ==>
      ResultsOf(w, k + 1, msgs[2 * k].calls, msgs[2 * k + 1].results, |msgs[2 * k].calls|)
  }

  /** After `turns` full turns. */
  ghost predicate Progress(w: World, start: seq<Message>, asked: seq<seq<Message>>, chain: seq<Message>,
                           requests: seq<seq<Message>>, turns: nat)
  {
    && start <= chain && |chain| == |start| + 2 * turns
    && Rounds(chain[|start|..]) && Replies(w, chain[|start|..]) && RealResults(w, chain[|start|..], turns)
    && asked <= requests && |requests| == |asked| + turns
    && forall k :: 0 <= k < turns ==> requests[|asked| + k] == chain[..|start| + 2 * k]
  }

  /** How a loop ends: it has appended whole turns, or whole turns and one unanswered reply, and its k-th request was
      the chain after k turns. */
  ghost predicate Ended(w: World, start: seq<Message>, asked: seq<seq<Message>>, chain: seq<Message>,
                        requests: seq<seq<Message>>, r: RunResult)
  {
    && start <= chain
    && Rounds(chain[|start|..]) && Replies(w, chain[|start|..]) && RealResults(w, chain[|start|..], r.turns - 1)
    && (|chain| == |start| + 2 * r.turns || |chain| == |start| + 2 * r.turns - 1)
    && (r.status == Completed ==>
          && |chain| == |start| + 2 * r.turns - 1 && chain[|chain| - 1].calls == []
          && r.finalText == GoStrings.TrimSpace(chain[|chain| - 1].text))
    && asked <= requests && |requests| <= |asked| + r.turns + 1
    && forall k :: 0 <= k < |requests| - |asked| ==>
         |start| + 2 * k <= |chain| && requests[|asked| + k] == chain[..|start| + 2 * k]
  }

  lemma NothingYet(w: World, start: seq<Message>, asked: seq<seq<Message>>)
    ensures Progress(w, start, asked, start, asked, 0)
  {
  }

  lemma TurnRounds(w: World, turn: nat, msgs: seq<Message>)
    requires Turn(w, turn, msgs)
    ensures Rounds(msgs)
  {
  }

  lemma TurnExtends(w: World, start: seq<Message>, before: seq<Message>, chain: seq<Message>, turn: nat)
    requires start <= before <= chain && |before| == |start| + 2 * (turn - 1) && turn >= 1
    requires Rounds(before[|start|..]) && Replies(w, before[|start|..]) && Turn(w, turn, chain[|before|..])
    requires RealResults(w, before[|start|..], turn - 1)
    ensures Rounds(chain[|start|..]) && Replies(w, chain[|start|..])
    ensures RealResults(w, chain[|start|..], turn - 1)
  {
    TurnRounds(w, turn, chain[|before|..]);
    RoundsGrow(before[|start|..], chain[|before|..]);
    assert chain[|start|..] == before[|start|..] + chain[|before|..];
    hide Rounds, ResultsOf, Reports;
    var (all, earlier, more) := (chain[|start|..], before[|start|..], chain[|before|..]);
    forall k: nat | 2 * k < |all|
      ensures w.complete(k + 1).Reply?
      ensures all[2 * k] == AssistantMessage(w.complete(k + 1).text, w.complete(k + 1).calls)
      ensures 2 * k + 1 < |all| ==> Reports(w, k + 1, all[2 * k], all[2 * k + 1])
    {
      if 2 * k < |earlier| {
        assert all[2 * k] == earlier[2 * k];
        assert |earlier| % 2 == 0 && all[2 * k + 1] == earlier[2 * k + 1];
      } else {
        assert k == turn - 1 && all[2 * k] == more[0] && (2 * k + 1 < |all| ==> all[2 * k + 1] == more[1]);
      }
    }
    assert forall k: nat :: 2 * k + 1 < |earlier| ==>
                              all[2 * k] == earlier[2 * k] && all[2 * k + 1] == earlier[2 * k + 1];
  }

  lemma TurnContinues(w: World, start: seq<Message>, asked: seq<seq<Message>>, before: seq<Message>,
                      sent: seq<seq<Message>>, chain: seq<Message>, requests: seq<seq<Message>>, turn: nat)
    requires turn >= 1 && Progress(w, start, asked, before, sent, turn - 1) && before <= chain
    requires Turn(w, turn, chain[|before|..]) && |chain| == |before| + 2 && requests == sent + [before]
    requires ResultsOf(w, turn, chain[|before|].calls, chain[|before| + 1].results, |chain[|before|].calls|)
    ensures Progress(w, start, asked, chain, requests, turn)
  {
    TurnExtends(w, start, before, chain, turn);
    assert chain[|start|..][2 * (turn - 1)] == chain[|before|];
    assert chain[|start|..][2 * (turn - 1) + 1] == chain[|before| + 1];
    hide Rounds, Replies, Turn, ResultsOf;
    forall k | 0 <= k < turn ensures requests[|asked| + k] == chain[..|start| + 2 * k] {
      if k < turn - 1 {
        assert requests[|asked| + k] == sent[|asked| + k] == before[..|start| + 2 * k];
      }
    }
  }

  lemma TurnEnds(w: World, start: seq<Message>, asked: seq<seq<Message>>, before: seq<Message>,
                 sent: seq<seq<Message>>, chain: seq<Message>, requests: seq<seq<Message>>, turn: nat, r: RunResult)
    requires turn >= 1 && Progress(w, start, asked, before, sent, turn - 1) && before <= chain
    requires Turn(w, turn, chain[|before|..]) && TurnResult(turn, chain[|before|..], r)
    requires requests == sent || requests == sent + [before]
    ensures Ended(w, start, asked, chain, requests, r)
    ensures Dangling(chain[|start|..]) <==> Dangling(chain[|before|..])
    ensures r.turns <= turn && (Dangling(chain[|before|..]) ==> r.turns == turn)
  {
    TurnExtends(w, start, before, chain, turn);
    TurnLeavesOpen(w, start, before, chain, turn);
    hide Rounds, Replies, ResultsOf;
    forall k | 0 <= k < |requests| - |asked|
      ensures |start| + 2 * k <= |chain| && requests[|asked| + k] == chain[..|start| + 2 * k]
    {
      if k < turn - 1 {
        assert requests[|asked| + k] == sent[|asked| + k] == before[..|start| + 2 * k];
      }
    }
  }

  /** What the last turn says about its end holds of the whole loop. */
  lemma TurnSpeaksForRun(w: World, check: nat, append: nat, start: seq<Message>, asked: seq<seq<Message>>,
                         before: seq<Message>, sent: seq<seq<Message>>, chain: seq<Message>,
                         requests: seq<seq<Message>>, turn: nat, r: RunResult)
    requires turn >= 1 && Progress(w, start, asked, before, sent, turn - 1) && before <= chain
    requires Turn(w, turn, chain[|before|..]) && TurnResult(turn, chain[|before|..], r)
    requires requests == sent || requests == sent + [before]
    ensures SaysWhatItSaw(w, check, append, turn, requests != sent, chain[|before|..], r) ==>
              SaysWhatItSaw(w, check, append, r.turns + 1, |requests| > |asked| + r.turns, chain[|start|..], r)
  {
    hide Rounds, Replies, RealResults, Reports;
    var (all, more) := (chain[|start|..], chain[|before|..]);
    assert |all| == 2 * (turn - 1) + |more|;
    assert more != [] ==> all[|all| - 1] == more[|more| - 1];
  }

  /** Full turns leave nothing open. */
  lemma TurnLeavesOpen(w: World, start: seq<Message>, before: seq<Message>, chain: seq<Message>, turn: nat)
    requires start <= before <= chain && |before| == |start| + 2 * (turn - 1) && turn >= 1
    requires Rounds(before[|start|..])
    ensures !Dangling(before[|start|..])
    ensures Dangling(chain[|start|..]) <==> Dangling(chain[|before|..])
  {
    var rounds := before[|start|..];
    if rounds != [] {
      OddRoundsAnswer(rounds, |rounds| - 1);
    }
    assert chain[|start|..] == rounds + chain[|before|..];
  }

  lemma TurnsRunOut(w: World, start: seq<Message>, asked: seq<seq<Message>>, chain: seq<Message>,
                    requests: seq<seq<Message>>, r: RunResult)
    requires r.status == Errored && Progress(w, start, asked, chain, requests, r.turns)
    ensures Ended(w, start, asked, chain, requests, r) && !Dangling(chain[|start|..])
  {
    TurnLeavesOpen(w, start, chain, chain, r.turns + 1);
  }

  lemma RunningOutSpeaksForRun(w: World, check: nat, append: nat, start: seq<Message>, asked: seq<seq<Message>>,
                               chain: seq<Message>, requests: seq<seq<Message>>, r: RunResult)
    requires r.status == Errored && Progress(w, start, asked, chain, requests, r.turns) && !Seen(w, check)
    ensures SaysWhatItSaw(w, check, append, r.turns + 1, |requests| > |asked| + r.turns, chain[|start|..], r)
  {
    hide Rounds, Replies, RealResults;
  }

  // ---------- one run on a chain ----------

  datatype RunCase = RunCase(world: World, systemPrompt: string, maxTurns: nat, userMessage: string, released: bool)

  /** What a run appends before its loop. */
  function Opening(r: RunCase, before: seq<Message>): (msgs: seq<Message>)
    ensures 1 <= |msgs| <= 2 && Plain(msgs)
  {
    (if r.systemPrompt != "" && (before == [] || !r.world.firstLoad) then [Message(System, r.systemPrompt, [], [])]
     else [])
    + [Message(User, GoStrings.TrimSpace(r.userMessage), [], [])]
  }

  /** How much of the opening can be stored. */
  function Stored(r: RunCase, before: seq<Message>): (n: nat)
    ensures n <= |Opening(r, before)|
  {
    if r.released || !r.world.appends(0) then 0
    else if |Opening(r, before)| == 2 && !r.world.appends(1) then 1
    else |Opening(r, before)|
  }

  predicate Opens(r: RunCase, before: seq<Message>) {
    Stored(r, before) == |Opening(r, before)|
  }

  /** The turn in which a run will leave a reply unanswered, if any: decided by the prompt, the interrupt, the model's
      replies and the appends, before the run starts. */
  function UnansweredTurn(r: RunCase, before: seq<Message>): Option<nat> {
    if Opens(r, before) then OpenTurn(r.world, 1, r.maxTurns, 0, |Opening(r, before)|) else None
  }

  /** How a run ends. */
  function StatusOf(r: RunCase, before: seq<Message>): RunStatus {
    if Opens(r, before) then LoopStatus(r.world, 1, r.maxTurns, 0, |Opening(r, before)|, r.released) else Errored
  }

  /** What a run makes of a chain. */
  ghost predicate Ran(r: RunCase, before: seq<Message>, after: seq<Message>) {
    if !Opens(r, before) then after == before + Opening(r, before)[..Stored(r, before)]
    else
      var base := before + Opening(r, before);
      && base <= after && Rounds(after[|base|..]) && Replies(r.world, after[|base|..])
      && (Dangling(after) <==> UnansweredTurn(r, before).Some?)
      && (Dangling(after) ==> |after| == |base| + 2 * UnansweredTurn(r, before).value - 1)
  }

  lemma LoopRan(r: RunCase, before: seq<Message>, base: seq<Message>, asked: seq<seq<Message>>, after: seq<Message>,
                requests: seq<seq<Message>>, result: RunResult)
    requires Opens(r, before) && base == before + Opening(r, before)
    requires Ended(r.world, base, asked, after, requests, result)
    requires Dangling(after[|base|..]) <==> UnansweredTurn(r, before).Some?
    requires Dangling(after[|base|..]) ==> result.turns == UnansweredTurn(r, before).value
    ensures Ran(r, before, after)
  {
    hide OpenTurn, Replies;
    var rounds := after[|base|..];
    assert after == base + rounds;
    assert base[|base| - 1] == Opening(r, before)[|Opening(r, before)| - 1];
    if Dangling(rounds) {
      OddRoundsAnswer(rounds, |rounds| - 1);
    }
  }

  // ---------- pairing over a whole session ----------

  lemma RunAddsBlock(r: RunCase, before: seq<Message>, after: seq<Message>) returns (block: seq<Message>, n: nat)
    requires Ran(r, before, after)
    ensures after == before + block && Block(block, n)
  {
    hide Replies, UnansweredTurn;
    var opening := Opening(r, before);
    if Opens(r, before) {
      block, n := after[|before|..], |opening|;
      assert block[..n] == opening && block[n..] == after[|before + opening|..];
    } else {
      block, n := opening[..Stored(r, before)], Stored(r, before);
      assert block[..n] == block && block[n..] == [];
    }
  }

  /** One run: it keeps a paired chain paired exactly when it leaves no reply unanswered, which is decided by its
      interrupt and its appends. */
  lemma RunKeepsPairing(r: RunCase, before: seq<Message>, after: seq<Message>)
    requires Ran(r, before, after)
    ensures Paired(after) <==> Paired(before) && UnansweredTurn(r, before).None?
    ensures Paired(before) ==> PairedInside(after)
  {
    hide Paired, PairedInside, Block;
    var block, n := RunAddsBlock(r, before, after);
    BlockKeepsPairing(before, block, n);
    PairedSplits(before);
    if !Opens(r, before) {
      NothingAsked(Opening(r, before)[..Stored(r, before)], before);
    }
  }

  lemma NothingAsked(msgs: seq<Message>, before: seq<Message>)
    requires Plain(msgs)
    ensures Dangling(before + msgs) ==> Dangling(before)
  {
    if msgs != [] {
      assert (before + msgs)[|before| + |msgs| - 1] == msgs[|msgs| - 1];
    } else {
      assert before + msgs == before;
    }
  }

  /** Any number of runs, one after the other, on one chain. */
  ghost predicate IsSession(runs: seq<RunCase>, chains: seq<seq<Message>>) {
    && |chains| == |runs| + 1
    && forall k {:trigger runs[k]} :: 0 <= k < |runs| ==> Ran(runs[k], chains[k], chains[k + 1])
  }

  ghost predicate AllAnswered(runs: seq<RunCase>, chains: seq<seq<Message>>)
    requires |chains| == |runs| + 1
  {
    forall k {:trigger runs[k]} :: 0 <= k < |runs| ==> UnansweredTurn(runs[k], chains[k]).None?
  }

  /** Calls and results stay paired exactly when no run was interrupted between storing a reply and its first tool, and
      none failed to store its tool results.  A run that did cannot be repaired by any later one. */
  lemma {:induction false} SessionPairedExactly(runs: seq<RunCase>, chains: seq<seq<Message>>)
    requires IsSession(runs, chains) && Paired(chains[0])
    ensures Paired(chains[|runs|]) <==> AllAnswered(runs, chains)
  {
    hide Paired, Ran, UnansweredTurn;
    if runs != [] {
      var n := |runs| - 1;
      SessionPairedExactly(runs[..n], chains[..n + 1]);
      RunKeepsPairing(runs[n], chains[n], chains[n + 1]);
      assert forall k :: 0 <= k < n ==> runs[..n][k] == runs[k] && chains[..n + 1][k] == chains[k];
      assert AllAnswered(runs, chains) <==>
             AllAnswered(runs[..n], chains[..n + 1]) && UnansweredTurn(runs[n], chains[n]).None?;
    }
  }

  // ---------- what the status means ----------

  /** A run that leaves a reply unanswered does not report success; one that reports an interruption has seen its
      interrupt, or the model call was cancelled. */
  lemma {:induction false} StatusMeans(w: World, turn: nat, maxTurns: nat, check: nat, append: nat, released: bool)
    ensures !released && OpenTurn(w, turn, maxTurns, check, append).Some? ==>
              LoopStatus(w, turn, maxTurns, check, append, released) != Completed
    ensures LoopStatus(w, turn, maxTurns, check, append, released) == Interrupted ==>
              || w.interruptAt.Some?
              || exists t :: turn <= t <= maxTurns && w.complete(t).Fails? && w.complete(t).contextCanceled
    decreases maxTurns + 1 - turn
  {
    hide ToolChecks;
    if turn <= maxTurns && TurnStatus(w, turn, check, append, released).None? {
      StatusMeans(w, turn + 1, maxTurns, LastCheck(w, turn, check) + 1, append + 2, released);
    }
  }

  // ---------- the moment that matters ----------

  /** The number of the first check of a turn in a run that gets there. */
  function FirstCheck(w: World, turn: nat): nat
    requires turn >= 1 && forall u :: 1 <= u < turn ==> w.complete(u).Reply?
  {
    if turn == 1 then 0 else LastCheck(w, turn - 1, FirstCheck(w, turn - 1)) + 1
  }

  /** The model has asked for tools in every turn up to this one, and every chain could be loaded. */
  predicate AsksUpTo(w: World, turn: nat) {
    forall u :: 1 <= u <= turn ==> w.loads(u) && w.complete(u).Reply? && w.complete(u).calls != []
  }

  /** The interrupt is first seen by the check right after the reply of this turn was stored. */
  predicate InterruptedAt(w: World, turn: nat) {
    turn >= 1 && AsksUpTo(w, turn) && w.interruptAt == Some(FirstCheck(w, turn) + 1)
  }

  lemma {:induction false} FirstCheckGrows(w: World, turn: nat, later: nat)
    requires 1 <= turn < later && forall u :: 1 <= u < later ==> w.complete(u).Reply?
    ensures FirstCheck(w, later) > LastCheck(w, turn, FirstCheck(w, turn))
    decreases later
  {
    if turn + 1 < later {
      FirstCheckGrows(w, turn, later - 1);
    }
  }

  lemma {:induction false} OpenFrom(w: World, turn: nat, maxTurns: nat, append: nat)
    requires turn >= 1 && AsksUpTo(w, turn - 1) && forall k: nat :: w.appends(k)
    ensures OpenTurn(w, turn, maxTurns, FirstCheck(w, turn), append).Some? <==>
            exists t :: turn <= t <= maxTurns && InterruptedAt(w, t)
    decreases maxTurns + 1 - turn
  {
    hide ToolChecks;
    if turn <= maxTurns {
      var check := FirstCheck(w, turn);
      assert LeftOpen(w, turn, check, append) <==> InterruptedAt(w, turn);
      if FullTurn(w, turn, check, append) {
        OpenFrom(w, turn + 1, maxTurns, append + 2);
      } else {
        forall t | turn < t <= maxTurns && AsksUpTo(w, t)
          ensures w.interruptAt.Some? ==> w.interruptAt.value <= FirstCheck(w, t)
        {
          FirstCheckGrows(w, turn, t);
        }
      }
    }
  }

  /** When every append works, a reply is left unanswered exactly when the interrupt is first seen by one particular
      check of some turn: the one between storing the reply and running its tools. */
  lemma UnansweredOnlyAtThatMoment(r: RunCase, before: seq<Message>)
    requires !r.released && forall k: nat :: r.world.appends(k)
    ensures UnansweredTurn(r, before).Some? <==> exists t :: 1 <= t <= r.maxTurns && InterruptedAt(r.world, t)
  {
    OpenFrom(r.world, 1, r.maxTurns, |Opening(r, before)|);
  }

  /** A run that is interrupted there: the conversation ends on a call that no later message can answer. */
  method LeaveCallUnanswered(call: ToolCall) returns (chain: seq<Message>)
    ensures chain == [Message(User, "go", [], []), AssistantMessage("", [call])]
    ensures !Paired(chain)
  {
    var w := World(Some(1), true, _ => true, _ => Reply("", [call]), {}, (_, _) => ToolOutcome("", None), _ => true,
                   true);
    TrimGo();
    var executor := new Executor(w, "", 0, []);
    var started := executor.Run(w, "go");
    chain := executor.chain;
    ghost var run := RunCase(w, "", 20, "go", false);
    assert Opening(run, []) == [Message(User, "go", [], [])];
    assert LeftOpen(w, 1, 0, 1);
    assert UnansweredTurn(run, []) == Some(1);
    RunKeepsPairing(run, [], chain);
    assert chain[1..][2 * 0] == AssistantMessage("", [call]);
  }

  lemma TrimGo()
    ensures GoStrings.TrimSpace("go") == "go" && GoStrings.TrimSpace("") == ""
  {
    assert GoStrings.TrimLeft("go") == "go" && GoStrings.TrimRight("go") == "go";
  }
}
