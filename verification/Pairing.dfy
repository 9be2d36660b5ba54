/** Messages of a conversation, and when its tool calls and tool results are paired. */
module Pairing {
  datatype Role = System | User | Assistant | Tool

  datatype ToolCall = ToolCall(id: string, name: string, args: string)

  datatype ToolResult = ToolResult(callId: string, name: string, output: string, isError: bool)

  datatype Message = Message(role: Role, text: string, calls: seq<ToolCall>, results: seq<ToolResult>)

  function AssistantMessage(text: string, calls: seq<ToolCall>): Message { Message(Assistant, text, calls, []) }

  function ToolMessage(results: seq<ToolResult>): Message { Message(Tool, "", [], results) }

  /** A tool message that answers each call of an assistant message, in order. */
  predicate Answers(tool: Message, asked: Message) {
    && tool.role == Tool && asked.role == Assistant && asked.calls != []
    && |tool.results| == |asked.calls|
    && forall i :: 0 <= i < |asked.calls| ==>
         tool.results[i].callId == asked.calls[i].id && tool.results[i].name == asked.calls[i].name
  }

  predicate Asks(m: Message) {
    m.role == Assistant && m.calls != []
  }

  /** Every message that asks is answered by the next one, and every tool message answers the one before it. */
  predicate Paired(chain: seq<Message>) {
    && (forall i :: 0 <= i < |chain| && Asks(chain[i]) ==> i + 1 < |chain| && Answers(chain[i + 1], chain[i]))
    && (forall i :: 0 <= i < |chain| && chain[i].role == Tool ==> i > 0 && Answers(chain[i], chain[i - 1]))
  }

  /** The chain ends with calls that nobody has answered. */
  predicate Dangling(chain: seq<Message>) {
    chain != [] && Asks(chain[|chain| - 1])
  }

  /** Assistant messages, each followed by its answers, the last one possibly not. */
  predicate Rounds(msgs: seq<Message>) {
    && (forall i :: 0 <= i < |msgs| && i % 2 == 0 ==> msgs[i].role == Assistant)
    && (forall i :: 0 <= i < |msgs| && i % 2 == 1 ==> Answers(msgs[i], msgs[i - 1]))
  }

  /** Neither a reply nor an answer. */
  predicate Plain(msgs: seq<Message>) {
    forall i :: 0 <= i < |msgs| ==> msgs[i].role == System || msgs[i].role == User
  }

  /** What one run adds to a chain: plain messages first, then rounds. */
  ghost predicate Block(block: seq<Message>, n: nat) {
    n <= |block| && Plain(block[..n]) && Rounds(block[n..]) && (n == 0 ==> block == [])
  }

  /** Pairing inside a stretch of messages, leaving open whether its last message is answered later. */
  ghost predicate PairedInside(msgs: seq<Message>) {
    && (forall i :: 0 <= i < |msgs| - 1 && Asks(msgs[i]) ==> Answers(msgs[i + 1], msgs[i]))
    && (forall i :: 0 <= i < |msgs| && msgs[i].role == Tool ==> i > 0 && Answers(msgs[i], msgs[i - 1]))
  }

  lemma PairedSplits(chain: seq<Message>)
    ensures Paired(chain) <==> PairedInside(chain) && !Dangling(chain)
  {
  }

  lemma RoundsGrowAt(msgs: seq<Message>, more: seq<Message>, i: nat)
    requires Rounds(msgs) && |msgs| % 2 == 0 && Rounds(more) && i < |msgs + more|
    ensures i % 2 == 0 ==> (msgs + more)[i].role == Assistant
    ensures i % 2 == 1 ==> Answers((msgs + more)[i], (msgs + more)[i - 1])
  {
    hide Answers;
    var k := i - |msgs|;
    if k >= 0 {
      assert (msgs + more)[i] == more[k] && (k % 2 == 1 ==> (msgs + more)[i - 1] == more[k - 1]);
    }
  }

  lemma RoundsGrow(msgs: seq<Message>, more: seq<Message>)
    requires Rounds(msgs) && |msgs| % 2 == 0 && Rounds(more)
    ensures Rounds(msgs + more)
  {
    hide Answers;
    var all := msgs + more;
    forall i | 0 <= i < |all|
      ensures (i % 2 == 0 ==> all[i].role == Assistant) && (i % 2 == 1 ==> Answers(all[i], all[i - 1]))
    {
      RoundsGrowAt(msgs, more, i);
    }
  }

  lemma OddRoundsAnswer(msgs: seq<Message>, i: nat)
    requires Rounds(msgs) && i < |msgs|
    ensures i % 2 == 1 ==> msgs[i].role == Tool && Answers(msgs[i], msgs[i - 1])
  {
  }

  lemma AskingRoundIsAnswered(msgs: seq<Message>, i: nat)
    requires Rounds(msgs) && i + 1 < |msgs| && Asks(msgs[i])
    ensures Answers(msgs[i + 1], msgs[i])
  {
    OddRoundsAnswer(msgs, i);
    OddRoundsAnswer(msgs, i + 1);
  }

  lemma BlockIsPairedInside(block: seq<Message>, n: nat)
    requires Block(block, n)
    ensures PairedInside(block) && (block != [] ==> block[0].role != Tool)
  {
    var rounds := block[n..];
    assert forall i :: 0 <= i < n ==> block[i] == block[..n][i];
    hide Answers;
    forall i | 0 <= i < |block| - 1 && Asks(block[i]) ensures Answers(block[i + 1], block[i]) {
      if i >= n {
        assert block[i] == rounds[i - n] && block[i + 1] == rounds[i + 1 - n];
        AskingRoundIsAnswered(rounds, i - n);
      }
    }
    forall i | 0 <= i < |block| && block[i].role == Tool ensures i > 0 && Answers(block[i], block[i - 1]) {
      if i >= n {
        assert block[i] == rounds[i - n];
        if i > n { assert block[i - 1] == rounds[i - 1 - n]; }
      }
    }
  }

  lemma PartsArePaired(a: seq<Message>, b: seq<Message>)
    requires PairedInside(a + b) && (b != [] ==> b[0].role != Tool)
    ensures PairedInside(a) && PairedInside(b) && (b == [] || !Dangling(a))
  {
    var c := a + b;
    assert forall x, y :: Answers(x, y) ==> x.role == Tool;
    hide Answers;
    assert forall i :: 0 <= i < |a| ==> c[i] == a[i];
    assert forall i :: 0 <= i < |b| ==> c[i + |a|] == b[i];
    forall i | 0 <= i < |b| - 1 && Asks(b[i]) ensures Answers(b[i + 1], b[i]) {
      assert Asks(c[i + |a|]) && c[i + |a| + 1] == b[i + 1];
    }
    forall i | 0 <= i < |b| && b[i].role == Tool ensures i > 0 && Answers(b[i], b[i - 1]) {
      assert c[i + |a|].role == Tool && (i > 0 ==> c[i - 1 + |a|] == b[i - 1]);
    }
    if b != [] && a != [] {
      assert c[|a| - 1] == a[|a| - 1] && c[|a|] == b[0];
    }
  }

  lemma JoinIsPaired(a: seq<Message>, b: seq<Message>)
    requires PairedInside(a) && PairedInside(b) && (b == [] || !Dangling(a))
    requires b != [] ==> b[0].role != Tool
    ensures PairedInside(a + b)
  {
  }

  lemma JoinPairing(a: seq<Message>, b: seq<Message>)
    requires b != [] ==> b[0].role != Tool
    ensures PairedInside(a + b) <==> PairedInside(a) && PairedInside(b) && (b == [] || !Dangling(a))
  {
    hide PairedInside, Dangling;
    if PairedInside(a + b) {
      PartsArePaired(a, b);
    } else if PairedInside(a) && PairedInside(b) && (b == [] || !Dangling(a)) {
      JoinIsPaired(a, b);
    }
  }

  /** Adding a block keeps a chain paired exactly when it was paired, and the block does not end on unanswered calls. */
  lemma BlockKeepsPairing(chain: seq<Message>, block: seq<Message>, n: nat)
    requires Block(block, n)
    ensures PairedInside(chain) ==> (PairedInside(chain + block) <==> block == [] || !Dangling(chain))
    ensures Paired(chain + block) <==> Paired(chain) && !Dangling(chain + block)
  {
    hide PairedInside, Paired, Block, Dangling;
    BlockIsPairedInside(block, n);
    JoinPairing(chain, block);
    PairedSplits(chain);
    PairedSplits(chain + block);
    assert block == [] ==> chain + block == chain;
  }
}
