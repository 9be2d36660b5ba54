/** How long a lease keeps the others away: from its last acquisition or renewal, and no longer. */
module ConversationLeases {
  import opened Wrappers
  import opened ConversationStore
  import opened ConversationProtocol

  const SECOND: nat := 1_000_000_000

  // ---------- one lease ----------

  /** Until `until` only the holder can take the ref or move its head, and from then on anybody can; the holder can
      always take it again, and only the holder can renew it. */
  ghost predicate HeldUntil(s: Store, name: string, holder: string, until: nat) {
    && name in s.refs && s.refs[name].leasedBy == holder
    && (forall runner, now: nat :: runner != "" ==>
          AcquireLease(s, name, runner, now).1 == if runner == holder || now >= until then Ok(()) else Err(RefLeased))
    && (forall runner, m, now: nat ::
          AdvanceRef(s, name, s.refs[name].hash, m, runner, now).1.Ok? <==> runner == holder || now >= until)
    && (forall runner, now: nat :: RenewLease(s, name, runner, now).1.Ok? <==> runner == holder)
  }

  lemma ExpiryIsTheEnd(s: Store, name: string, holder: string, until: nat)
    requires name in s.refs && s.refs[name].leasedBy == holder != "" && s.refs[name].leaseUntil == Some(until)
    ensures HeldUntil(s, name, holder, until)
  {
    hide InsertNode;
  }

  /** Acquiring or renewing a lease at some time keeps all others away for 30 s from then, not less and not more. */
  lemma LeaseLastsThirtySeconds(s: Store, name: string, runner: string, now: nat)
    requires runner != ""
    ensures AcquireLease(s, name, runner, now).1.Ok? ==>
              HeldUntil(AcquireLease(s, name, runner, now).0, name, runner, now + 30 * SECOND)
    ensures RenewLease(s, name, runner, now).1.Ok? ==>
              HeldUntil(RenewLease(s, name, runner, now).0, name, runner, now + 30 * SECOND)
  {
    hide HeldUntil;
    var (acquired, renewed) := (AcquireLease(s, name, runner, now), RenewLease(s, name, runner, now));
    if acquired.1.Ok? {
      ExpiryIsTheEnd(acquired.0, name, runner, now + 30 * SECOND);
    }
    if renewed.1.Ok? {
      ExpiryIsTheEnd(renewed.0, name, runner, now + 30 * SECOND);
    }
  }

  /** A lease that was given back keeps nobody away; giving back what one does not hold changes nothing. */
  lemma ReleaseFreesTheRef(s: Store, name: string, holder: string, runner: string, m: Message, now: nat)
    requires name in s.refs && holder != ""
    ensures var s' := ReleaseLease(s, name, holder);
            if s.refs[name].leasedBy == holder then
              && name in s'.refs && s'.refs[name].hash == s.refs[name].hash
              && (runner != "" ==> AcquireLease(s', name, runner, now).1.Ok?)
              && AdvanceRef(s', name, s.refs[name].hash, m, runner, now).1.Ok?
              && RenewLease(s', name, holder, now).1 == Err(LeaseNotHeld)
            else s' == s
  {
    hide InsertNode;
  }

  // ---------- leases over runs ----------

  /** The clock of a step in which the holder acquires or renews its lease on this ref. */
  function Renewal(s: Sys, step: Step, name: string, holder: string): Option<nat> {
    match step
    case Acquire(n, runner, now) => if n == name && runner == holder then Some(now) else None
    case HandleRenew(k, now) =>
      if k in s.handles && !s.handles[k].released && s.handles[k].name == name && s.handles[k].runner == holder
      then Some(now) else None
    case _ => None
  }

  /** The clock of the holder's last acquisition or renewal between two states, or `first` if there is none. */
  function LastRenewal(states: seq<Sys>, steps: seq<Step>, i: nat, k: nat, name: string, holder: string, first: nat)
    : nat
    requires |states| == |steps| + 1 && i <= k < |states|
    decreases k - i
  {
    if k == i then first
    else match Renewal(states[k - 1], steps[k - 1], name, holder)
         case Some(now) => now
         case None => LastRenewal(states, steps, i, k - 1, name, holder, first)
  }

  /** The holder does not give its lease back, and all other runners act less than 30 s after its last renewal. */
  ghost predicate KeptFresh(states: seq<Sys>, steps: seq<Step>, i: nat, j: nat, name: string, holder: string,
                            first: nat)
    requires |states| == |steps| + 1 && j < |states|
  {
    forall k {:trigger steps[k]} :: i <= k < j ==>
      && !LetsGo(states[k], steps[k], name, holder)
      && (Actor(states[k], steps[k]) != Some(holder) ==>
            Before(steps[k], LastRenewal(states, steps, i, k, name, holder, first) + 30 * SECOND))
  }

  ghost predicate ExpiresAt(s: Sys, name: string, holder: string, until: nat) {
    Holds(s, name, holder) && s.store.refs[name].leaseUntil == Some(until)
  }

  lemma RenewalSetsExpiry(s: Sys, step: Step, name: string, holder: string)
    requires Renewal(s, step, name, holder).Some? && holder != "" && Holds(Apply(s, step), name, holder)
    ensures ExpiresAt(Apply(s, step), name, holder, Renewal(s, step, name, holder).value + 30 * SECOND)
  {
  }

  lemma ExpiryStays(s: Sys, step: Step, name: string, holder: string, until: nat)
    requires ExpiresAt(s, name, holder, until) && holder != "" && Actor(s, step) == Some(holder)
    requires !LetsGo(s, step, name, holder) && Renewal(s, step, name, holder).None?
    ensures ExpiresAt(Apply(s, step), name, holder, until)
  {
    hide InsertNode;
  }

  lemma {:induction false} LeaseCountsFromLastRenewal(states: seq<Sys>, steps: seq<Step>, i: nat, j: nat, name: string,
                                                      holder: string, first: nat)
    requires IsRun(states, steps) && i <= j < |states| && holder != ""
    requires ExpiresAt(states[i], name, holder, first + 30 * SECOND)
    requires KeptFresh(states, steps, i, j, name, holder, first)
    ensures ExpiresAt(states[j], name, holder, LastRenewal(states, steps, i, j, name, holder, first) + 30 * SECOND)
    decreases j - i
  {
    hide Apply, Actor, LetsGo, Before, Renewal;
    if i < j {
      LeaseCountsFromLastRenewal(states, steps, i, j - 1, name, holder, first);
      var (s, step) := (states[j - 1], steps[j - 1]);
      if Actor(s, step) != Some(holder) {
        OthersStandBack(s, step, name);
        OthersDoNotRenew(s, step, name, holder);
      } else {
        HolderKeepsLease(s, step, name, holder);
        if Renewal(s, step, name, holder).Some? {
          RenewalSetsExpiry(s, step, name, holder);
        } else {
          ExpiryStays(s, step, name, holder, LastRenewal(states, steps, i, j - 1, name, holder, first) + 30 * SECOND);
        }
      }
    }
  }

  lemma OthersDoNotRenew(s: Sys, step: Step, name: string, holder: string)
    requires Actor(s, step) != Some(holder)
    ensures Renewal(s, step, name, holder).None?
  {
  }

  /** Whoever acquires or renews its lease and goes on renewing it has its ref to itself: as long as the others' clocks
      stay within 30 s of its last renewal, it keeps the lease, nobody else changes the ref, and the ref's history grows
      by exactly the holder's own messages, in order.  The others get the ref 30 s after the last renewal and not
      before. */
  lemma RenewedLeaseExcludesOthers(states: seq<Sys>, steps: seq<Step>, i: nat, j: nat, name: string, holder: string,
                                   first: nat)
    requires IsRun(states, steps) && i < j < |states| && holder != ""
    requires Renewal(states[i], steps[i], name, holder) == Some(first) && Holds(states[i + 1], name, holder)
    requires KeptFresh(states, steps, i + 1, j, name, holder, first)
    ensures HeldUntil(states[j].store, name, holder,
                      LastRenewal(states, steps, i + 1, j, name, holder, first) + 30 * SECOND)
    ensures History(states[j], name)
         == History(states[i + 1], name) + OwnMessages(states, steps, i + 1, j, name, holder)
    ensures forall k {:trigger steps[k]} :: i < k < j && Actor(states[k], steps[k]) != Some(holder) ==>
              && name in states[k].store.refs && name in states[k + 1].store.refs
              && states[k + 1].store.refs[name] == states[k].store.refs[name]
  {
    hide Apply, Actor, LetsGo, Before, Renewal, History, AppendsTo, HeldUntil;
    RenewalSetsExpiry(states[i], steps[i], name, holder);
    forall k {:trigger steps[k]} | i < k < j ensures LeaseStands(states[k], steps[k], name, holder) {
      LeaseCountsFromLastRenewal(states, steps, i + 1, k, name, holder, first);
    }
    LeaseCountsFromLastRenewal(states, steps, i + 1, j, name, holder, first);
    ExpiryIsTheEnd(states[j].store, name, holder,
                   LastRenewal(states, steps, i + 1, j, name, holder, first) + 30 * SECOND);
    LeaseExcludesOthers(states, steps, i + 1, j, name, holder);
  }

  // ---------- reading back ----------

  /** A ref can be made of every conversation that can be loaded, under every name that is free.  It shows that
      conversation and has no lease; nothing else changes. */
  lemma CreatedRefShowsItsChain(s: Store, name: string, hash: string, runner: string, now: nat)
    requires CollisionFree(s.codec) && TreeOk(s.codec, s.nodes)
    ensures var (s', r) := CreateRef(s, name, hash);
            && (r.Ok? <==> name != "" && name !in s.refs && LoadChain(s, hash).Ok?)
            && (r.Err? ==> s' == s)
            && (r.Ok? ==>
                  && name in s'.refs && s'.nodes == s.nodes
                  && LoadChain(s', s'.refs[name].hash) == LoadChain(s, hash)
                  && (runner != "" ==> AcquireLease(s', name, runner, now).1.Ok?)
                  && forall other :: other != name ==>
                       (other in s'.refs <==> other in s.refs)
                       && (other in s.refs ==> s'.refs[other] == s.refs[other]))
  {
    if LoadChain(s, hash).Ok? {
      StoredHashIsHex(s.codec, s.nodes, OrRoot(s.codec, hash));
    }
  }

  /** Append the messages one after the other. */
  function AppendAll(s: Store, parent: string, ms: seq<Message>, now: nat): Result<(Store, string), Error>
  {
    if ms == [] then Ok((s, parent))
    else
      match AppendAll(s, parent, ms[..|ms| - 1], now)
      case Err(e) => Err(e)
      case Ok((mid, head)) =>
        var (s', r) := AppendNode(mid, head, ms[|ms| - 1], now);
        if r.Ok? then Ok((s', r.value)) else Err(r.error)
  }

  ghost predicate ReadsBack(r: Result<(Store, string), Error>, before: seq<NodeRow>, ms: seq<Message>) {
    && r.Ok?
    && LoadChain(r.value.0, r.value.1).Ok?
    && MessagesOf(LoadChain(r.value.0, r.value.1).value) == MessagesOf(before) + ms
  }

  /** Whatever messages are appended to a conversation, loading it gives exactly what was there before and then these
      messages, in order. */
  lemma {:induction false} AppendedConversationReadsBack(s: Store, parent: string, ms: seq<Message>, now: nat)
    requires CollisionFree(s.codec) && TreeOk(s.codec, s.nodes) && LoadChain(s, parent).Ok?
    requires forall i :: 0 <= i < |ms| ==> ms[i].role != "root"
    ensures ReadsBack(AppendAll(s, parent, ms, now), LoadChain(s, parent).value, ms)
    ensures AppendAll(s, parent, ms, now).value.0.codec == s.codec
    ensures TreeOk(s.codec, AppendAll(s, parent, ms, now).value.0.nodes)
  {
    hide CollisionFree, TreeOk, LoadChain, AppendNode;
    if ms != [] {
      var (front, m) := (ms[..|ms| - 1], ms[|ms| - 1]);
      AppendedConversationReadsBack(s, parent, front, now);
      var (mid, head) := AppendAll(s, parent, front, now).value;
      OneMoreMessage(mid, head, m, now);
      assert front + [m] == ms;
    }
  }

  /** The empty hash names the empty conversation, on which every conversation can be built from its messages. */
  lemma NewConversationReadsBack(s: Store, ms: seq<Message>, now: nat)
    requires CollisionFree(s.codec) && TreeOk(s.codec, s.nodes)
    requires forall i :: 0 <= i < |ms| ==> ms[i].role != "root"
    ensures LoadChain(s, "") == Ok([]) && ReadsBack(AppendAll(s, "", ms, now), [], ms)
  {
    RootIsEmpty(s);
    AppendedConversationReadsBack(s, "", ms, now);
  }

  lemma RootIsEmpty(s: Store)
    requires CollisionFree(s.codec) && TreeOk(s.codec, s.nodes)
    ensures LoadChain(s, "") == Ok([])
  {
    ChainUnrolls(s.codec, s.nodes, 0);
    RowFacts(s.codec, s.nodes, 0);
    assert Present(s.nodes, s.nodes[0].hash);
    var root := s.nodes[0];
    assert root.hash == RootHash(s.codec) && root.message.role == "root";
    assert [root][..0] == [] && Visible([root]) == Visible([root][..0]);
  }

  lemma OneMoreMessage(s: Store, head: string, m: Message, now: nat)
    requires CollisionFree(s.codec) && TreeOk(s.codec, s.nodes) && LoadChain(s, head).Ok? && m.role != "root"
    ensures var (s', r) := AppendNode(s, head, m, now);
            && r.Ok? && s'.codec == s.codec && TreeOk(s.codec, s'.nodes) && LoadChain(s', r.value).Ok?
            && MessagesOf(LoadChain(s', r.value).value) == MessagesOf(LoadChain(s, head).value) + [m]
  {
    hide CollisionFree, TreeOk, Chain, Visible;
    AppendThenLoad(s, head, m, now, now);
    InsertKeepsTree(s, OrRoot(s.codec, head), m, now);
  }
}
