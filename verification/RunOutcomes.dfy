/** What a run of the agent loop ends with, and what it puts on its conversation, said without the loop's own steps. */
module RunOutcomes {
  import opened Wrappers
  import opened Pairing
  import opened Executor
  import GoStrings

  // ---------- the status ----------

  /** Nothing fails: chains load, appends work, and the model always replies. */
  ghost predicate Works(w: World) {
    && (forall turn: nat :: w.loads(turn) && w.complete(turn).Reply?)
    && (forall k: nat :: w.appends(k))
  }

  /** The first turn whose reply asks for nothing. */
  predicate AnswersIn(w: World, turn: nat) {
    turn >= 1 && w.complete(turn).Reply? && w.complete(turn).calls == [] && AsksUpTo(w, turn - 1)
  }

  /** The interrupt comes, and no later than this check. */
  predicate ComesBy(interruptAt: Option<nat>, check: nat) {
    interruptAt.Some? && interruptAt.value <= check
  }

  lemma {:induction false} StatusFrom(w: World, turn: nat, maxTurns: nat, last: nat, append: nat)
    requires Works(w) && 1 <= turn <= last && AnswersIn(w, last) && last <= maxTurns
    ensures LoopStatus(w, turn, maxTurns, FirstCheck(w, turn), append, false) ==
            if Seen(w, FirstCheck(w, last) + 1) then Interrupted else Completed
    decreases last - turn
  {
    hide ToolChecks;
    if turn < last {
      FirstCheckGrows(w, turn, last);
      StatusFrom(w, turn + 1, maxTurns, last, append + 2);
    }
  }

  lemma {:induction false} StatusWithoutAnswer(w: World, turn: nat, maxTurns: nat, append: nat)
    requires Works(w) && 1 <= turn <= maxTurns && AsksUpTo(w, maxTurns)
    ensures LoopStatus(w, turn, maxTurns, FirstCheck(w, turn), append, false) ==
            if Seen(w, LastCheck(w, maxTurns, FirstCheck(w, maxTurns))) then Interrupted else Errored
    decreases maxTurns - turn
  {
    hide ToolChecks;
    if turn < maxTurns {
      FirstCheckGrows(w, turn, maxTurns);
      StatusWithoutAnswer(w, turn + 1, maxTurns, append + 2);
    }
  }

  /** When nothing fails, a run ends in one of three ways.  If the model stops asking for tools within the turn limit,
      the run is interrupted exactly when its interrupt comes no later than the check after that reply, and completed
      otherwise.  If it never does, the run is interrupted exactly when its interrupt comes no later than the check
      after the last turn's results, and ends with an error otherwise. */
  lemma StatusExactly(r: RunCase, before: seq<Message>, last: nat)
    requires !r.released && r.maxTurns >= 1 && Works(r.world)
    ensures var (w, n, status) := (r.world, r.maxTurns, StatusOf(r, before));
            && (AnswersIn(w, last) && last <= n ==>
                  status == if ComesBy(w.interruptAt, FirstCheck(w, last) + 1) then Interrupted else Completed)
            && (AsksUpTo(w, n) ==>
                  status == if ComesBy(w.interruptAt, LastCheck(w, n, FirstCheck(w, n))) then Interrupted else Errored)
            && (AsksUpTo(w, n) || exists turn: nat :: AnswersIn(w, turn) && turn <= n)
  {
    hide ToolChecks;
    if AnswersIn(r.world, last) && last <= r.maxTurns {
      StatusFrom(r.world, 1, r.maxTurns, last, |Opening(r, before)|);
    }
    if AsksUpTo(r.world, r.maxTurns) {
      StatusWithoutAnswer(r.world, 1, r.maxTurns, |Opening(r, before)|);
    } else {
      var turn := FirstAnswer(r.world, r.maxTurns);
    }
  }

  lemma {:induction false} FirstAnswer(w: World, maxTurns: nat) returns (turn: nat)
    requires Works(w) && !AsksUpTo(w, maxTurns)
    ensures AnswersIn(w, turn) && turn <= maxTurns
  {
    if AsksUpTo(w, maxTurns - 1) {
      turn := maxTurns;
    } else {
      turn := FirstAnswer(w, maxTurns - 1);
    }
  }

  // ---------- tool results ----------

  /** What the model is told about each of its calls: the tool's output, or its error marked as one; that the tool is
      unknown; or that it was interrupted. */
  lemma ResultsTellTheOutcome(w: World, turn: nat, calls: seq<ToolCall>, results: seq<ToolResult>, cut: nat, i: nat)
    requires ResultsOf(w, turn, calls, results, cut) && i < |calls|
    ensures results[i].callId == calls[i].id && results[i].name == calls[i].name
    ensures results[i].isError <==>
              i >= cut || calls[i].name !in w.tools || w.execute(turn, i).error.Some?
    ensures i < cut && calls[i].name in w.tools ==>
              match w.execute(turn, i).error
              case Some(e) => results[i].output == e
              case None => results[i].output == w.execute(turn, i).output
    ensures i < cut && calls[i].name !in w.tools ==> results[i].output == "unknown tool: " + calls[i].name
    ensures i >= cut ==> results[i].output == "tool execution interrupted"
  {
  }

  // ---------- the system prompt ----------

  /** All system messages of the chain are the prompt, and stand at its very start. */
  predicate PromptFirst(chain: seq<Message>, prompt: string) {
    forall i :: 0 <= i < |chain| && chain[i].role == System ==> i == 0 && chain[i].text == prompt
  }

  /** The run stores its system prompt although there is a conversation already. */
  predicate RepeatsPrompt(r: RunCase, before: seq<Message>) {
    r.systemPrompt != "" && before != [] && !r.world.firstLoad && !r.released && r.world.appends(0)
  }

  ghost predicate SamePrompt(runs: seq<RunCase>, prompt: string) {
    forall k :: 0 <= k < |runs| ==> runs[k].systemPrompt == prompt
  }

  lemma AfterOpening(r: RunCase, before: seq<Message>, after: seq<Message>) returns (n: nat)
    requires Ran(r, before, after)
    ensures n == Stored(r, before) && |before| + n <= |after|
    ensures after[..|before| + n] == before + Opening(r, before)[..n]
    ensures forall i :: |before| + n <= i < |after| ==> after[i].role != System
  {
    hide Replies, UnansweredTurn;
    n := Stored(r, before);
    if Opens(r, before) {
      var base := before + Opening(r, before);
      var rounds := after[|base|..];
      forall i | |base| <= i < |after| ensures after[i].role != System {
        assert after[i] == rounds[i - |base|];
        if (i - |base|) % 2 == 1 {
          OddRoundsAnswer(rounds, i - |base|);
        }
      }
    }
  }

  lemma RunKeepsPromptFirst(r: RunCase, before: seq<Message>, after: seq<Message>)
    requires Ran(r, before, after)
    ensures PromptFirst(after, r.systemPrompt) <==> PromptFirst(before, r.systemPrompt) && !RepeatsPrompt(r, before)
    ensures before <= after
  {
    var n := AfterOpening(r, before, after);
    hide Ran;
    var (b, opening) := (|before|, Opening(r, before));
    assert forall i :: 0 <= i < b ==> after[i] == after[..b + n][i] == before[i];
    assert forall i :: b <= i < b + n ==> after[i] == after[..b + n][i] == opening[i - b];
    if RepeatsPrompt(r, before) {
      assert after[b] == opening[0];
    } else {
      assert forall i :: b <= i < b + n && after[i].role == System ==> i == 0;
    }
    if PromptFirst(after, r.systemPrompt) {
      forall i | 0 <= i < b && before[i].role == System ensures i == 0 && before[i].text == r.systemPrompt {
        assert after[i] == before[i];
      }
    }
  }

  /** Over any number of runs with one prompt, from an empty chain on: the prompt stands at the start of the
      conversation and nowhere else, exactly when no run repeated it because it could not load its chain. */
  lemma {:induction false} PromptFirstExactly(runs: seq<RunCase>, chains: seq<seq<Message>>, prompt: string)
    requires IsSession(runs, chains) && chains[0] == [] && SamePrompt(runs, prompt)
    ensures PromptFirst(chains[|runs|], prompt) <==> forall k :: 0 <= k < |runs| ==> !RepeatsPrompt(runs[k], chains[k])
  {
    hide Ran, RepeatsPrompt;
    if runs != [] {
      var n := |runs| - 1;
      assert forall k :: 0 <= k < n ==> runs[..n][k] == runs[k] && chains[..n + 1][k] == chains[k];
      PromptFirstExactly(runs[..n], chains[..n + 1], prompt);
      RunKeepsPromptFirst(runs[n], chains[n], chains[n + 1]);
    }
  }

  /** Two runs, the second of which cannot load the chain of the first: the conversation has the prompt twice. */
  method RepeatPrompt() returns (chain: seq<Message>)
    ensures !PromptFirst(chain, "go")
  {
    var first := World(Some(0), true, _ => true, _ => Reply("", []), {}, (_, _) => ToolOutcome("", None), _ => true,
                       false);
    var second := first.(firstLoad := false);
    TrimGo();
    var executor := new Executor(first, "go", 0, []);
    var _ := executor.Run(first, "go");
    ghost var before := executor.chain;
    ghost var run := RunCase(first, "go", 20, "go", false);
    UserMessageStays(run, [], before);
    var _ := executor.Run(second, "go");
    chain := executor.chain;
    RunKeepsPromptFirst(RunCase(second, "go", 20, "go", false), before, chain);
  }

  lemma UserMessageStays(r: RunCase, before: seq<Message>, after: seq<Message>)
    requires Ran(r, before, after) && Stored(r, before) > 0
    ensures after != []
  {
    var n := AfterOpening(r, before, after);
  }

  /** A run that gets to its loop has the user's message right after the conversation it found, and after the system
      prompt if that conversation was empty; its first request ends with it. */
  lemma UserMessageComesNext(r: RunCase, before: seq<Message>, after: seq<Message>, asked: seq<seq<Message>>,
                             requests: seq<seq<Message>>, result: RunResult)
    requires Ran(r, before, after) && Opens(r, before)
    requires Ended(r.world, before + Opening(r, before), asked, after, requests, result)
    ensures var at := |before| + if r.systemPrompt != "" && (before == [] || !r.world.firstLoad) then 1 else 0;
            && before <= after && at < |after|
            && after[at] == Message(User, GoStrings.TrimSpace(r.userMessage), [], [])
            && (at > |before| ==> after[|before|] == Message(System, r.systemPrompt, [], []))
            && (|requests| > |asked| ==> requests[|asked|] == after[..at + 1])
  {
    var n := AfterOpening(r, before, after);
    hide Ran, Replies;
    var (b, opening) := (|before|, Opening(r, before));
    assert forall i :: 0 <= i < b ==> after[i] == after[..b + n][i] == before[i];
    assert forall i :: b <= i < b + n ==> after[i] == after[..b + n][i] == opening[i - b];
    assert |requests| > |asked| ==> requests[|asked| + 0] == after[..|before + opening| + 2 * 0];
  }
}
