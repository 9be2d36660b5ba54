/** Tool calls and tool results on shared refs: what any number of interleaved executors leave behind.

    An executor appends its tool results through the handle with which it has just appended the reply that asked for
    them (Executor.RunTurn).  That discipline alone keeps every tool message of every ref next to what it answers,
    however many executors work on however many refs, with stale handles, expired leases and failed appends. */
module ConversationPairing {
  import opened Wrappers
  import opened ConversationStore
  import opened ConversationProtocol

  const TOOL: string := "tool"

  /** Tells whether a tool message answers the message given. */
  type Matching = (Message, Message) -> bool

  /** The last message that was appended through this handle before state i. */
  function LastOwn(states: seq<Sys>, steps: seq<Step>, i: nat, k: nat): Option<Message>
    requires |states| == |steps| + 1 && i < |states|
  {
    if i == 0 then None
    else if steps[i - 1].HandleAppend? && steps[i - 1].handle == k && states[i].appended != states[i - 1].appended then
      Some(steps[i - 1].message)
    else LastOwn(states, steps, i - 1, k)
  }

  /** Tool messages are appended through handles only, each through the handle whose last append it answers. */
  ghost predicate Disciplined(states: seq<Sys>, steps: seq<Step>, answers: Matching)
    requires |states| == |steps| + 1
  {
    forall i {:trigger steps[i]} :: 0 <= i < |steps| ==>
      && (steps[i].AddNode? ==> steps[i].message.role != TOOL)
      && (steps[i].HandleAppend? && steps[i].message.role == TOOL ==>
            var last := LastOwn(states, steps, i, steps[i].handle);
            last.Some? && answers(steps[i].message, last.value))
  }

  /** The stored node with this hash carries this message. */
  ghost predicate Carries(nodes: seq<NodeRow>, hash: string, m: Message) {
    exists j :: 0 <= j < |nodes| && nodes[j].hash == hash && nodes[j].message == m
  }

  /** The parent of this row carries a message that the row answers, if it is a tool message. */
  ghost predicate RowAnswers(nodes: seq<NodeRow>, row: NodeRow, answers: Matching) {
    row.message.role == TOOL ==> exists n :: Carries(nodes, row.parent, n) && answers(row.message, n)
  }

  ghost predicate TreeAnswers(nodes: seq<NodeRow>, answers: Matching) {
    forall i :: 0 <= i < |nodes| ==> RowAnswers(nodes, nodes[i], answers)
  }

  /** Every handle's head carries what was last appended through it. */
  ghost predicate HeadsCarry(states: seq<Sys>, steps: seq<Step>, i: nat)
    requires |states| == |steps| + 1 && i < |states|
  {
    forall k :: k in states[i].handles && LastOwn(states, steps, i, k).Some? ==>
      Carries(states[i].store.nodes, states[i].handles[k].hash, LastOwn(states, steps, i, k).value)
  }

  lemma CarriesStays(nodes: seq<NodeRow>, nodes': seq<NodeRow>, hash: string, m: Message)
    requires nodes <= nodes' && Carries(nodes, hash, m)
    ensures Carries(nodes', hash, m)
  {
    var j :| 0 <= j < |nodes| && nodes[j].hash == hash && nodes[j].message == m;
    assert nodes'[j].hash == hash && nodes'[j].message == m;
  }

  lemma RowAnswersStays(nodes: seq<NodeRow>, nodes': seq<NodeRow>, row: NodeRow, answers: Matching)
    requires nodes <= nodes' && RowAnswers(nodes, row, answers)
    ensures RowAnswers(nodes', row, answers)
  {
    if row.message.role == TOOL {
      var n :| Carries(nodes, row.parent, n) && answers(row.message, n);
      CarriesStays(nodes, nodes', row.parent, n);
    }
  }

  /** Inserting a message under a node: the new node carries it, and the tree stays paired if the node is answered. */
  lemma InsertAnswers(s: Store, parent: string, m: Message, now: nat, answers: Matching)
    requires CollisionFree(s.codec) && TreeOk(s.codec, s.nodes) && Present(s.nodes, parent)
    requires TreeAnswers(s.nodes, answers)
    requires m.role == TOOL ==> exists n :: Carries(s.nodes, parent, n) && answers(m, n)
    ensures TreeAnswers(InsertNode(s, parent, m, now).0.nodes, answers)
    ensures s.nodes <= InsertNode(s, parent, m, now).0.nodes
    ensures Carries(InsertNode(s, parent, m, now).0.nodes, InsertNode(s, parent, m, now).1, m)
  {
    hide CollisionFree, TreeOk, RowAnswers, Chain;
    var (s', hash) := InsertNode(s, parent, m, now);
    if Present(s.nodes, hash) {
      var k :| 0 <= k < |s.nodes| && s.nodes[k].hash == hash;
      StoredTwinIsSame(s, parent, m, k);
    } else {
      var row := NodeRow(hash, parent, m, now);
      assert s'.nodes == s.nodes + [row] && s'.nodes[|s.nodes|] == row;
      NewRowAnswers(s.nodes, row, answers);
      forall i | 0 <= i < |s'.nodes| ensures RowAnswers(s'.nodes, s'.nodes[i], answers) {
        if i < |s.nodes| {
          assert s'.nodes[i] == s.nodes[i];
        }
        RowAnswersStays(s.nodes, s'.nodes, s'.nodes[i], answers);
      }
    }
  }

  lemma NewRowAnswers(nodes: seq<NodeRow>, row: NodeRow, answers: Matching)
    requires row.message.role == TOOL ==> exists n :: Carries(nodes, row.parent, n) && answers(row.message, n)
    ensures RowAnswers(nodes, row, answers)
  {
  }

  /** One step: an append through a handle is the only one that matters. */
  lemma StepAnswers(s: Sys, step: Step, answers: Matching, last: Option<Message>)
    requires Inv(s) && TreeAnswers(s.store.nodes, answers)
    requires step.AddNode? ==> step.message.role != TOOL
    requires step.HandleAppend? && step.handle in s.handles && last.Some? ==>
               Carries(s.store.nodes, s.handles[step.handle].hash, last.value)
    requires step.HandleAppend? && step.message.role == TOOL ==> last.Some? && answers(step.message, last.value)
    ensures var s' := Apply(s, step);
            && TreeAnswers(s'.store.nodes, answers) && s.store.nodes <= s'.store.nodes
            && (step.HandleAppend? && step.handle in s.handles && s'.appended != s.appended ==>
                  Carries(s'.store.nodes, s'.handles[step.handle].hash, step.message))
  {
    hide CollisionFree, TreeOk, Chain, InsertNode, TreeAnswers, Carries, Kept;
    if step.HandleAppend? && step.handle in s.handles {
      var h := s.handles[step.handle];
      if AppendThrough(s.store, h, step.message, step.now).2.Ok? {
        InsertAnswers(s.store, h.hash, step.message, step.now, answers);
      }
    } else if step.AddNode? && Present(s.store.nodes, OrRoot(s.store.codec, step.parent)) {
      InsertAnswers(s.store, OrRoot(s.store.codec, step.parent), step.message, step.now, answers);
    }
  }

  lemma {:induction false} RunAnswers(states: seq<Sys>, steps: seq<Step>, i: nat, answers: Matching)
    requires IsRun(states, steps) && i < |states| && Disciplined(states, steps, answers)
    ensures TreeAnswers(states[i].store.nodes, answers) && HeadsCarry(states, steps, i)
  {
    hide Apply, Inv, Carries;
    if i == 0 {
      FreshTreeAnswers(states[0], answers);
    } else {
      RunAnswers(states, steps, i - 1, answers);
      RunKeepsInv(states, steps, i - 1);
      var (s, step) := (states[i - 1], steps[i - 1]);
      StepAnswers(s, step, answers, if step.HandleAppend? then LastOwn(states, steps, i - 1, step.handle) else None);
      forall k | k in states[i].handles && LastOwn(states, steps, i, k).Some?
        ensures Carries(states[i].store.nodes, states[i].handles[k].hash, LastOwn(states, steps, i, k).value)
      {
        HandleMoves(s, step, k);
        if LastOwn(states, steps, i, k) == LastOwn(states, steps, i - 1, k) && k in s.handles
           && states[i].handles[k].hash == s.handles[k].hash {
          CarriesStays(s.store.nodes, states[i].store.nodes, s.handles[k].hash, LastOwn(states, steps, i, k).value);
        } else if k !in s.handles {
          UnusedHandle(states, steps, i - 1, k);
        }
      }
    }
  }

  lemma FreshTreeAnswers(s: Sys, answers: Matching)
    requires IsInit(s)
    ensures TreeAnswers(s.store.nodes, answers)
  {
    assert RowOk(s.store.codec, s.store.nodes, 0);
  }

  /** A handle's head only moves by a successful append through it. */
  lemma HandleMoves(s: Sys, step: Step, k: nat)
    requires k in Apply(s, step).handles
    ensures k in s.handles && Apply(s, step).handles[k].hash != s.handles[k].hash ==>
              step.HandleAppend? && step.handle == k && Apply(s, step).appended != s.appended
    ensures k !in s.handles ==> !step.HandleAppend?
  {
    hide AdvanceRef, ReleaseLease, RenewLease, AcquireLease, CreateRef, AppendNode;
  }

  /** Nothing has been appended through a handle that does not exist yet. */
  lemma {:induction false} UnusedHandle(states: seq<Sys>, steps: seq<Step>, i: nat, k: nat)
    requires IsRun(states, steps) && i < |states| && k !in states[i].handles
    ensures LastOwn(states, steps, i, k).None?
  {
    hide Apply;
    if i > 0 {
      HandlesStay(states[i - 1], steps[i - 1], k);
      UnusedHandle(states, steps, i - 1, k);
    }
  }

  lemma HandlesStay(s: Sys, step: Step, k: nat)
    ensures k in s.handles ==> k in Apply(s, step).handles
    ensures step.HandleAppend? && step.handle == k && k !in s.handles ==> Apply(s, step) == s
  {
  }

  // ---------- reading a chain ----------

  /** Each row of a chain is stored, and follows its parent. */
  ghost predicate Linked(nodes: seq<NodeRow>, chain: seq<NodeRow>) {
    && (forall p :: 0 <= p < |chain| ==> chain[p] in nodes)
    && (forall p :: 0 < p < |chain| ==> chain[p].parent == chain[p - 1].hash)
    && (chain != [] ==> chain[0].message.role == "root")
  }

  lemma {:induction false} ChainIsLinked(c: Codec, nodes: seq<NodeRow>, i: nat)
    requires TreeOk(c, nodes) && i < |nodes|
    ensures Linked(nodes, Chain(nodes, nodes[i].hash))
  {
    hide Chain;
    ChainUnrolls(c, nodes, i);
    assert RowOk(c, nodes, i) && RowOk(c, nodes, 0);
    if i > 0 {
      var j :| 0 <= j < i && nodes[..i][j].hash == nodes[i].parent;
      assert nodes[j].hash == nodes[i].parent;
      ChainIsLinked(c, nodes, j);
      ChainsStartAtRoot(c, nodes, j);
    }
  }

  lemma HashesDiffer(c: Codec, nodes: seq<NodeRow>, a: nat, b: nat)
    requires TreeOk(c, nodes) && a < |nodes| && b < |nodes| && nodes[a].hash == nodes[b].hash
    ensures a == b
  {
    assert RowOk(c, nodes, a) && RowOk(c, nodes, b);
    if a < b {
      PresentBefore(nodes, a, b);
    } else if b < a {
      PresentBefore(nodes, b, a);
    }
  }

  /** In every interleaving, every tool message in a ref's history answers the message directly before it. */
  lemma ToolMessagesAnswer(states: seq<Sys>, steps: seq<Step>, i: nat, name: string, p: nat, answers: Matching)
    requires IsRun(states, steps) && i < |states| && Disciplined(states, steps, answers)
    requires name in states[i].store.refs && p < |History(states[i], name)|
    requires History(states[i], name)[p].role == TOOL
    ensures p > 0 && answers(History(states[i], name)[p], History(states[i], name)[p - 1])
  {
    hide Disciplined, Chain, Apply;
    RunAnswers(states, steps, i, answers);
    RunKeepsInv(states, steps, i);
    var s := states[i].store;
    RefIsLinked(s, name);
    var chain := Chain(s.nodes, s.refs[name].hash);
    var a :| 0 <= a < |s.nodes| && s.nodes[a] == chain[p];
    assert RowAnswers(s.nodes, s.nodes[a], answers);
    var n :| Carries(s.nodes, chain[p].parent, n) && answers(chain[p].message, n);
    var j :| 0 <= j < |s.nodes| && s.nodes[j].hash == chain[p].parent && s.nodes[j].message == n;
    var b :| 0 <= b < |s.nodes| && s.nodes[b] == chain[p - 1];
    HashesDiffer(s.codec, s.nodes, j, b);
  }

  lemma RefIsLinked(s: Store, name: string)
    requires StoreOk(s) && name in s.refs
    ensures TreeOk(s.codec, s.nodes) && Linked(s.nodes, Chain(s.nodes, s.refs[name].hash))
  {
    hide Chain;
    var i :| 0 <= i < |s.nodes| && s.nodes[i].hash == s.refs[name].hash;
    ChainIsLinked(s.codec, s.nodes, i);
  }
}
