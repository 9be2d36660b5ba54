/** Runners appending to refs through leased handles, interleaved in any way.

    A handle caches the head it believes its ref to have.  Acquiring a lease and reading the head for the handle are two
    steps, as in the source; handles may be used after their lease ran out, after another runner took over, and after
    the ref moved.  `appended` records every append that reported success; no step looks at it. */
module ConversationProtocol {
  import opened Wrappers
  import opened ConversationStore

  datatype Handle = Handle(name: string, runner: string, hash: string, released: bool)

  datatype Appended = Appended(name: string, hash: string, message: Message)

  datatype Sys = Sys(store: Store, handles: map<nat, Handle>, appended: seq<Appended>)

  datatype Step =
    | Create(name: string, hash: string)
    | AddNode(parent: string, message: Message, now: nat)
    | Acquire(name: string, runner: string, now: nat)
    | Open(handle: nat, name: string, runner: string)
    | HandleAppend(handle: nat, message: Message, now: nat)
    | HandleRenew(handle: nat, now: nat)
    | HandleClose(handle: nat)
    | Abandon(name: string, runner: string)

  /** LeasedRef.Append, as a function of the handle and the store. */
  function AppendThrough(s: Store, h: Handle, m: Message, now: nat): (Store, Handle, Result<string, Error>) {
    if h.released then (s, h, Err(LeaseNotHeld))
    else
      var (s', r) := AdvanceRef(s, h.name, h.hash, m, h.runner, now);
      (s', if r.Ok? then h.(hash := r.value) else h, r)
  }

  function Apply(s: Sys, step: Step): Sys {
    match step
    case Create(name, hash) => s.(store := CreateRef(s.store, name, hash).0)
    case AddNode(parent, m, now) => s.(store := AppendNode(s.store, parent, m, now).0)
    case Acquire(name, runner, now) => s.(store := AcquireLease(s.store, name, runner, now).0)
    case Open(k, name, runner) =>
      if runner == "" || name !in s.store.refs || k in s.handles then s
      else s.(handles := s.handles[k := Handle(name, runner, s.store.refs[name].hash, false)])
    case HandleAppend(k, m, now) =>
      if k !in s.handles then s
      else
        var (store, h, r) := AppendThrough(s.store, s.handles[k], m, now);
        s.(store := store, handles := s.handles[k := h],
           appended := if r.Ok? then s.appended + [Appended(h.name, r.value, m)] else s.appended)
    case HandleRenew(k, now) =>
      if k !in s.handles || s.handles[k].released then s
      else s.(store := RenewLease(s.store, s.handles[k].name, s.handles[k].runner, now).0)
    case HandleClose(k) =>
      if k !in s.handles || s.handles[k].released then s
      else
        s.(store := ReleaseLease(s.store, s.handles[k].name, s.handles[k].runner),
           handles := s.handles[k := s.handles[k].(released := true)])
    case Abandon(name, runner) => if runner == "" then s else s.(store := ReleaseLease(s.store, name, runner))
  }

  ghost predicate IsInit(s: Sys) {
    && CollisionFree(s.store.codec) && s.handles == map[] && s.appended == [] && s.store.refs == map[]
    && |s.store.nodes| == 1 && TreeOk(s.store.codec, s.store.nodes)
  }

  ghost predicate IsRun(states: seq<Sys>, steps: seq<Step>) {
    && |states| == |steps| + 1
    && IsInit(states[0])
    && forall i {:trigger steps[i]} :: 0 <= i < |steps| ==> states[i + 1] == Apply(states[i], steps[i])
  }

  // ---------- the client handle in place ----------

  class LeasedRef {
    const db: DB
    const name: string
    const runner: string
    var hash: string
    var leaseUntil: Option<nat>
    var released: bool

    function View(): Handle
      reads this
    {
      Handle(name, runner, hash, released)
    }

    constructor (db: DB, name: string, runner: string)
      requires name in db.refs
      ensures this.db == db
      ensures View() == Handle(name, runner, db.refs[name].hash, false) && leaseUntil == db.refs[name].leaseUntil
    {
      this.db, this.name, this.runner := db, name, runner;
      hash, leaseUntil, released := db.refs[name].hash, db.refs[name].leaseUntil, false;
    }

    method Append(m: Message, now: nat) returns (r: Result<string, Error>)
      modifies this`hash, db`nodes, db`refs
      ensures (db.Snapshot(), View(), r) == AppendThrough(old(db.Snapshot()), old(View()), m, now)
    {
      if released {
        return Err(LeaseNotHeld);
      }
      r := db.Advance(name, hash, m, runner, now);
      if r.Ok? {
        hash := r.value;
      }
    }

    method Renew(now: nat, after: nat) returns (r: Result<(), Error>)
      modifies this`leaseUntil, db`refs
      ensures db.Snapshot() == if released then old(db.Snapshot())
                               else RenewLease(old(db.Snapshot()), name, runner, now).0
      ensures r == if released then Err(LeaseNotHeld) else RenewLease(old(db.Snapshot()), name, runner, now).1
      ensures leaseUntil == if r.Ok? then Some(after + LEASE_DURATION) else old(leaseUntil)
    {
      if released {
        return Err(LeaseNotHeld);
      }
      r := db.Renew(name, runner, now);
      if r.Ok? {
        leaseUntil := Some(after + LEASE_DURATION);
      }
    }

    method Close()
      modifies this`released, this`leaseUntil, db`refs
      ensures released
      ensures db.Snapshot() == if old(released) then old(db.Snapshot())
                               else ReleaseLease(old(db.Snapshot()), name, runner)
      ensures leaseUntil == if old(released) then old(leaseUntil) else None
    {
      if released {
        return;
      }
      db.Release(name, runner);
      released := true;
      leaseUntil := None;
    }

    method LoadChainRows() returns (r: Result<seq<NodeRow>, Error>)
      requires TreeOk(db.codec, db.nodes)
      ensures r == LoadChain(db.Snapshot(), hash)
    {
      r := db.LoadChainRows(hash);
    }
  }

  /** DB.LeaseRef: acquire, then read the head for a new handle. */
  method LeaseRef(db: DB, name: string, runner: string, now: nat) returns (r: Result<LeasedRef, Error>)
    modifies db`refs
    ensures db.Snapshot() == AcquireLease(old(db.Snapshot()), name, runner, now).0
    ensures var acquired := AcquireLease(old(db.Snapshot()), name, runner, now).1;
            if acquired.Err? then r == Err(acquired.error)
            else
              && r.Ok? && fresh(r.value) && r.value.db == db && name in db.refs
              && r.value.View() == Handle(name, runner, db.refs[name].hash, false)
  {
    var acquired := db.Acquire(name, runner, now);
    if acquired.Err? {
      return Err(acquired.error);
    }
    var handle := new LeasedRef(db, name, runner);
    return Ok(handle);
  }

  // ---------- invariant ----------

  ghost predicate StoreOk(s: Store) {
    && CollisionFree(s.codec) && TreeOk(s.codec, s.nodes)
    && (forall name :: name in s.refs ==>
          && Present(s.nodes, s.refs[name].hash)
          && (s.refs[name].leasedBy == "" <==> s.refs[name].leaseUntil.None?))
  }

  /** The chain of a successful append is still a prefix of its ref's chain, and ends with its message. */
  ghost predicate Kept(s: Store, a: Appended) {
    && a.name in s.refs
    && Present(s.nodes, a.hash)
    && Chain(s.nodes, a.hash) <= Chain(s.nodes, s.refs[a.name].hash)
    && EndsWith(Chain(s.nodes, a.hash), a.message)
  }

  ghost predicate EndsWith(chain: seq<NodeRow>, m: Message) {
    chain != [] && chain[|chain| - 1].message == m
  }

  ghost predicate Inv(s: Sys) {
    && StoreOk(s.store)
    && (forall k :: k in s.handles ==> s.handles[k].runner != "" && Present(s.store.nodes, s.handles[k].hash))
    && (forall i :: 0 <= i < |s.appended| ==> Kept(s.store, s.appended[i]))
  }

  /** Rows are only added, refs are never removed, and each ref's chain only grows at its end. */
  ghost predicate Grows(s: Store, s': Store) {
    && s'.codec == s.codec
    && s.nodes <= s'.nodes
    && (forall name :: name in s.refs ==>
          name in s'.refs && Chain(s.nodes, s.refs[name].hash) <= Chain(s'.nodes, s'.refs[name].hash))
  }

  lemma PresentStays(nodes: seq<NodeRow>, nodes': seq<NodeRow>, hash: string)
    requires nodes <= nodes' && Present(nodes, hash)
    ensures Present(nodes', hash)
  {
  }

  lemma GrowthKeepsAppends(s: Store, s': Store, a: Appended)
    requires StoreOk(s) && StoreOk(s') && Grows(s, s') && Kept(s, a)
    ensures Kept(s', a)
  {
    ChainsNeverChange(s.codec, s.nodes, s'.nodes, a.hash);
    PresentStays(s.nodes, s'.nodes, a.hash);
  }

  /** Changing only who holds a ref. */
  lemma LeaseChangeIsSafe(s: Store, name: string, ref: RefRow)
    requires StoreOk(s) && name in s.refs && ref.hash == s.refs[name].hash
    requires ref.leasedBy == "" <==> ref.leaseUntil.None?
    ensures StoreOk(s.(refs := s.refs[name := ref])) && Grows(s, s.(refs := s.refs[name := ref]))
  {
  }

  /** Adding a row under a stored parent. */
  lemma InsertIsSafe(s: Store, parent: string, m: Message, now: nat)
    requires StoreOk(s) && Present(s.nodes, parent)
    ensures StoreOk(InsertNode(s, parent, m, now).0) && Grows(s, InsertNode(s, parent, m, now).0)
  {
    var s' := InsertNode(s, parent, m, now).0;
    InsertKeepsTree(s, parent, m, now);
    forall name | name in s.refs
      ensures Present(s'.nodes, s.refs[name].hash)
      ensures Chain(s'.nodes, s.refs[name].hash) == Chain(s.nodes, s.refs[name].hash)
    {
      PresentStays(s.nodes, s'.nodes, s.refs[name].hash);
      ChainsNeverChange(s.codec, s.nodes, s'.nodes, s.refs[name].hash);
    }
  }

  lemma AdvanceIsSafe(s: Store, name: string, expected: string, m: Message, runner: string, now: nat)
    requires StoreOk(s)
    ensures var (s', r) := AdvanceRef(s, name, expected, m, runner, now);
            && StoreOk(s') && Grows(s, s')
            && (r.Ok? ==> name in s'.refs && s'.refs[name].hash == r.value && Kept(s', Appended(name, r.value, m)))
  {
    hide CollisionFree, TreeOk, NodeHash, Chain, StoreOk, Grows, Kept;
    if AdvanceRef(s, name, expected, m, runner, now).1.Ok? {
      var (mid, hash) := InsertNode(s, expected, m, now);
      HeadIsStored(s, name);
      InsertIsSafe(s, expected, m, now);
      InsertKeepsTree(s, expected, m, now);
      var chain := Chain(mid.nodes, hash);
      assert chain[..|chain| - 1] == Chain(s.nodes, expected);
      HeadMoves(s, mid, name, hash, m);
    } else {
      StaysSafe(s);
    }
  }

  lemma StaysSafe(s: Store)
    ensures Grows(s, s)
  {
  }

  lemma HeadIsStored(s: Store, name: string)
    requires StoreOk(s) && name in s.refs
    ensures CollisionFree(s.codec) && TreeOk(s.codec, s.nodes) && Present(s.nodes, s.refs[name].hash)
  {
  }

  /** Moving a head to a stored node whose chain continues the old head's. */
  lemma HeadMoves(s: Store, mid: Store, name: string, hash: string, m: Message)
    requires StoreOk(mid) && Grows(s, mid) && name in s.refs && mid.refs == s.refs && Present(mid.nodes, hash)
    requires Chain(s.nodes, s.refs[name].hash) <= Chain(mid.nodes, hash) && EndsWith(Chain(mid.nodes, hash), m)
    ensures var s' := mid.(refs := s.refs[name := s.refs[name].(hash := hash)]);
            StoreOk(s') && Grows(s, s') && Kept(s', Appended(name, hash, m))
  {
  }

  lemma CreateIsSafe(s: Store, name: string, hash: string)
    requires StoreOk(s)
    ensures StoreOk(CreateRef(s, name, hash).0) && Grows(s, CreateRef(s, name, hash).0)
  {
    hide CollisionFree, TreeOk, Chain;
  }

  lemma AddIsSafe(s: Store, parent: string, m: Message, now: nat)
    requires StoreOk(s)
    ensures StoreOk(AppendNode(s, parent, m, now).0) && Grows(s, AppendNode(s, parent, m, now).0)
  {
    hide StoreOk, Grows, Chain, InsertNode;
    if Present(s.nodes, OrRoot(s.codec, parent)) {
      InsertIsSafe(s, OrRoot(s.codec, parent), m, now);
    } else {
      StaysSafe(s);
    }
  }

  lemma LeaseOpsAreSafe(s: Store, name: string, runner: string, now: nat)
    requires StoreOk(s)
    ensures StoreOk(AcquireLease(s, name, runner, now).0) && Grows(s, AcquireLease(s, name, runner, now).0)
    ensures runner != "" ==> StoreOk(RenewLease(s, name, runner, now).0) && Grows(s, RenewLease(s, name, runner, now).0)
    ensures StoreOk(ReleaseLease(s, name, runner)) && Grows(s, ReleaseLease(s, name, runner))
  {
    hide StoreOk, Grows, HeldByOther;
    StaysSafe(s);
    if name in s.refs {
      var ref := s.refs[name];
      var until := Some(now + LEASE_DURATION);
      LeaseChangeIsSafe(s, name, ref.(leasedBy := "", leaseUntil := None));
      if runner != "" {
        LeaseChangeIsSafe(s, name, ref.(leasedBy := runner, leaseUntil := until));
        if ref.leasedBy != "" {
          LeaseChangeIsSafe(s, name, ref.(leaseUntil := until));
        }
      }
    }
  }

  lemma StepIsSafe(s: Sys, step: Step)
    requires Inv(s)
    ensures StoreOk(Apply(s, step).store) && Grows(s.store, Apply(s, step).store)
  {
    hide StoreOk, Grows, AdvanceRef, AppendNode, CreateRef, AcquireLease, RenewLease, ReleaseLease, Kept;
    var t := s.store;
    StaysSafe(t);
    match step
    case Create(name, hash) => CreateIsSafe(t, name, hash);
    case AddNode(parent, m, now) => AddIsSafe(t, parent, m, now);
    case Acquire(name, runner, now) => LeaseOpsAreSafe(t, name, runner, now);
    case Open(k, name, runner) =>
    case HandleAppend(k, m, now) =>
      if k in s.handles { AdvanceIsSafe(t, s.handles[k].name, s.handles[k].hash, m, s.handles[k].runner, now); }
    case HandleRenew(k, now) =>
      if k in s.handles { LeaseOpsAreSafe(t, s.handles[k].name, s.handles[k].runner, now); }
    case HandleClose(k) =>
      if k in s.handles { LeaseOpsAreSafe(t, s.handles[k].name, s.handles[k].runner, 0); }
    case Abandon(name, runner) => LeaseOpsAreSafe(t, name, runner, 0);
  }

  /** A step leaves a handle alone, opens it at its ref's head, or moves it to the node it has just appended. */
  lemma HandleStaysStored(s: Sys, step: Step, k: nat)
    requires Inv(s) && k in Apply(s, step).handles
    requires StoreOk(Apply(s, step).store) && Grows(s.store, Apply(s, step).store)
    ensures Apply(s, step).handles[k].runner != ""
    ensures Present(Apply(s, step).store.nodes, Apply(s, step).handles[k].hash)
  {
    hide AdvanceRef, RenewLease, ReleaseLease, AcquireLease, CreateRef, AppendNode, TreeOk, CollisionFree, Chain, Kept;
    var s' := Apply(s, step);
    if k in s.handles && s'.handles[k].hash == s.handles[k].hash {
      PresentStays(s.store.nodes, s'.store.nodes, s.handles[k].hash);
    } else if step.HandleAppend? {
      var h := s.handles[k];
      AdvanceIsSafe(s.store, h.name, h.hash, step.message, h.runner, step.now);
    }
  }

  lemma StepKeepsInv(s: Sys, step: Step)
    requires Inv(s)
    ensures Inv(Apply(s, step))
  {
    hide AdvanceRef, StoreOk, Grows, RenewLease, ReleaseLease, AcquireLease, CreateRef, AppendNode, Kept;
    StepIsSafe(s, step);
    var s' := Apply(s, step);
    forall k | k in s'.handles ensures s'.handles[k].runner != "" && Present(s'.store.nodes, s'.handles[k].hash) {
      HandleStaysStored(s, step, k);
    }
    forall i | 0 <= i < |s'.appended| ensures Kept(s'.store, s'.appended[i]) {
      if i < |s.appended| {
        assert Kept(s.store, s.appended[i]);
        GrowthKeepsAppends(s.store, s'.store, s.appended[i]);
      } else {
        var h := s.handles[step.handle];
        AdvanceIsSafe(s.store, h.name, h.hash, step.message, h.runner, step.now);
      }
    }
  }

  lemma {:induction false} RunKeepsInv(states: seq<Sys>, steps: seq<Step>, i: nat)
    requires IsRun(states, steps) && i < |states|
    ensures Inv(states[i])
  {
    hide Apply, Chain;
    if i > 0 {
      RunKeepsInv(states, steps, i - 1);
      StepKeepsInv(states[i - 1], steps[i - 1]);
    }
  }

  // ---------- main results ----------

  /** A ref's history only grows: an earlier head's chain is a prefix of every later head's chain. */
  lemma {:induction false} HistoryOnlyGrows(states: seq<Sys>, steps: seq<Step>, i: nat, j: nat)
    requires IsRun(states, steps) && i <= j < |states|
    ensures Grows(states[i].store, states[j].store)
    decreases j - i
  {
    hide Apply, Chain, Inv, StoreOk;
    if i < j {
      HistoryOnlyGrows(states, steps, i, j - 1);
      RunKeepsInv(states, steps, j - 1);
      StepIsSafe(states[j - 1], steps[j - 1]);
    }
  }

  /** A message whose append reported success is in its ref's chain in every later state, at the same place. */
  lemma AppendedMessagesStay(states: seq<Sys>, steps: seq<Step>, i: nat, k: nat)
    requires IsRun(states, steps) && i < |states| && k < |states[i].appended|
    ensures var (s, a) := (states[i].store, states[i].appended[k]);
            && a.name in s.refs
            && var (was, cur) := (Chain(s.nodes, a.hash), Chain(s.nodes, s.refs[a.name].hash));
               was <= cur && was != [] && cur[|was| - 1].message == a.message
  {
    RunKeepsInv(states, steps, i);
    assert Kept(states[i].store, states[i].appended[k]);
  }

  lemma {:induction false} SuccessesAreRemembered(states: seq<Sys>, steps: seq<Step>, i: nat, j: nat)
    requires IsRun(states, steps) && i <= j < |states|
    ensures states[i].appended <= states[j].appended
    decreases j - i
  {
    if i < j {
      SuccessesAreRemembered(states, steps, i, j - 1);
      assert states[j] == Apply(states[j - 1], steps[j - 1]);
    }
  }

  function MessagesOf(rows: seq<NodeRow>): seq<Message> {
    seq(|rows|, i requires 0 <= i < |rows| => rows[i].message)
  }

  /** The messages a handle's LoadChain gives. */
  function View(s: Sys, k: nat): seq<Message>
    requires k in s.handles
  {
    MessagesOf(Visible(Chain(s.store.nodes, s.handles[k].hash)))
  }

  /** What an executor relies on: what a handle loads changes only through its own successful appends, and then by
      exactly the message appended, whatever all other runners do. */
  lemma HandleSeesOnlyItsAppends(states: seq<Sys>, steps: seq<Step>, i: nat, k: nat)
    requires IsRun(states, steps) && i < |steps| && k in states[i].handles
    requires steps[i].HandleAppend? ==> steps[i].message.role != "root"
    ensures k in states[i + 1].handles
    ensures LoadChain(states[i + 1].store, states[i + 1].handles[k].hash).Ok?
    ensures View(states[i + 1], k) ==
            View(states[i], k)
            + if steps[i].HandleAppend? && steps[i].handle == k && states[i + 1].appended != states[i].appended
              then [steps[i].message] else []
  {
    hide AdvanceRef, RenewLease, ReleaseLease, AcquireLease, CreateRef, AppendNode;
    hide Chain, StoreOk, Grows, Kept, Visible;
    RunKeepsInv(states, steps, i);
    RunKeepsInv(states, steps, i + 1);
    StepIsSafe(states[i], steps[i]);
    var (s, s', step) := (states[i], states[i + 1], steps[i]);
    assert s' == Apply(s, step);
    HashIsNotEmpty(s'.store, s'.handles[k].hash);
    if step.HandleAppend? && step.handle == k && s'.appended != s.appended {
      AppendExtendsView(s.store, s.handles[k], step.message, step.now);
    } else {
      ViewStays(s.store, s'.store, s.handles[k].hash);
    }
  }

  lemma HashIsNotEmpty(s: Store, hash: string)
    requires StoreOk(s) && Present(s.nodes, hash)
    ensures OrRoot(s.codec, hash) == hash
  {
    StoredHashIsHex(s.codec, s.nodes, hash);
  }

  lemma ViewStays(s: Store, s': Store, hash: string)
    requires StoreOk(s') && Grows(s, s') && Present(s.nodes, hash)
    ensures Chain(s'.nodes, hash) == Chain(s.nodes, hash)
  {
    ChainsNeverChange(s.codec, s.nodes, s'.nodes, hash);
  }

  lemma AppendExtendsView(s: Store, h: Handle, m: Message, now: nat)
    requires StoreOk(s) && m.role != "root" && AppendThrough(s, h, m, now).2.Ok?
    ensures var (s', h', _) := AppendThrough(s, h, m, now);
            var (rows, rows') := (Visible(Chain(s.nodes, h.hash)), Visible(Chain(s'.nodes, h'.hash)));
            |rows'| == |rows| + 1 && rows'[..|rows|] == rows && rows'[|rows|].message == m
  {
    InsertKeepsTree(s, h.hash, m, now);
    var (s', hash) := InsertNode(s, h.hash, m, now);
    var chain := Chain(s'.nodes, hash);
    assert chain[..|chain| - 1] == Chain(s.nodes, h.hash);
  }

  /** In every reachable state a ref has a holder exactly when it has an expiry. */
  lemma HolderAndExpiryTogether(states: seq<Sys>, steps: seq<Step>, i: nat, name: string)
    requires IsRun(states, steps) && i < |states| && name in states[i].store.refs
    ensures states[i].store.refs[name].leasedBy == "" <==> states[i].store.refs[name].leaseUntil.None?
  {
    RunKeepsInv(states, steps, i);
  }

  /** The runner that takes a step, if a runner does. */
  function Actor(s: Sys, step: Step): Option<string> {
    match step
    case Acquire(_, runner, _) => Some(runner)
    case HandleAppend(k, _, _) => if k in s.handles then Some(s.handles[k].runner) else None
    case HandleRenew(k, _) => if k in s.handles then Some(s.handles[k].runner) else None
    case HandleClose(k) => if k in s.handles then Some(s.handles[k].runner) else None
    case Abandon(_, runner) => Some(runner)
    case _ => None
  }

  /** The step's clock has not reached `until`; steps that read no clock satisfy this trivially. */
  predicate Before(step: Step, until: nat) {
    match step
    case Acquire(_, _, now) => now < until
    case HandleAppend(_, _, now) => now < until
    case HandleRenew(_, now) => now < until
    case _ => true
  }

  /** The holder gives its lease back. */
  predicate LetsGo(s: Sys, step: Step, name: string, holder: string) {
    || (step.HandleClose? && step.handle in s.handles && !s.handles[step.handle].released
        && s.handles[step.handle].name == name && s.handles[step.handle].runner == holder)
    || step == Abandon(name, holder)
  }

  /** An append of the holder to this ref that succeeds. */
  predicate AppendsTo(s: Sys, step: Step, name: string, holder: string) {
    && step.HandleAppend? && step.handle in s.handles
    && s.handles[step.handle].name == name && s.handles[step.handle].runner == holder
    && AppendThrough(s.store, s.handles[step.handle], step.message, step.now).2.Ok?
  }

  predicate Holds(s: Sys, name: string, holder: string) {
    name in s.store.refs && s.store.refs[name].leasedBy == holder
  }

  /** The holder does not give its lease back, and everybody else acts before it runs out. */
  predicate LeaseStands(s: Sys, step: Step, name: string, holder: string) {
    && !LetsGo(s, step, name, holder)
    && (Actor(s, step) != Some(holder) && name in s.store.refs && s.store.refs[name].leaseUntil.Some? ==>
          Before(step, s.store.refs[name].leaseUntil.value))
  }

  function History(s: Sys, name: string): seq<Message>
    requires name in s.store.refs
  {
    MessagesOf(Chain(s.store.nodes, s.store.refs[name].hash))
  }

  /** The messages the holder appends to the ref between two states. */
  function OwnMessages(states: seq<Sys>, steps: seq<Step>, i: nat, j: nat, name: string, holder: string): seq<Message>
    requires |states| == |steps| + 1 && i <= j < |states|
    decreases j - i
  {
    if i == j then []
    else
      OwnMessages(states, steps, i, j - 1, name, holder)
      + if AppendsTo(states[j - 1], steps[j - 1], name, holder) then [steps[j - 1].message] else []
  }

  lemma OthersStandBack(s: Sys, step: Step, name: string)
    requires name in s.store.refs && s.store.refs[name].leasedBy != "" && s.store.refs[name].leaseUntil.Some?
    requires Actor(s, step) != Some(s.store.refs[name].leasedBy) && Before(step, s.store.refs[name].leaseUntil.value)
    ensures name in Apply(s, step).store.refs && Apply(s, step).store.refs[name] == s.store.refs[name]
  {
  }

  lemma HolderKeepsLease(s: Sys, step: Step, name: string, holder: string)
    requires Holds(s, name, holder) && holder != "" && Actor(s, step) == Some(holder) && !LetsGo(s, step, name, holder)
    ensures Holds(Apply(s, step), name, holder)
    ensures !AppendsTo(s, step, name, holder) ==>
              Apply(s, step).store.refs[name].hash == s.store.refs[name].hash
  {
    hide Chain, InsertNode;
  }

  lemma OwnAppendExtends(s: Sys, step: Step, name: string, holder: string)
    requires Inv(s) && Holds(s, name, holder) && AppendsTo(s, step, name, holder)
    ensures Holds(Apply(s, step), name, holder)
    ensures History(Apply(s, step), name) == History(s, name) + [step.message]
  {
    hide Chain, Kept;
    var (store, h, m) := (s.store, s.handles[step.handle], step.message);
    InsertKeepsTree(store, h.hash, m, step.now);
    var (store', hash) := InsertNode(store, h.hash, m, step.now);
    var (chain, chain') := (Chain(store.nodes, h.hash), Chain(store'.nodes, hash));
    assert chain'[..|chain'| - 1] == chain && chain' == chain + [chain'[|chain'| - 1]];
  }

  /** One step while the lease stands: only the holder changes the ref, and the history only by its own append. */
  lemma LeaseStandsOneStep(s: Sys, step: Step, name: string, holder: string)
    requires Inv(s) && Inv(Apply(s, step)) && Holds(s, name, holder) && holder != ""
    requires LeaseStands(s, step, name, holder)
    ensures Holds(Apply(s, step), name, holder)
    ensures Actor(s, step) != Some(holder) ==> Apply(s, step).store.refs[name] == s.store.refs[name]
    ensures History(Apply(s, step), name) ==
            History(s, name) + if AppendsTo(s, step, name, holder) then [step.message] else []
  {
    hide Apply, Chain, Kept, Grows;
    if AppendsTo(s, step, name, holder) {
      OwnAppendExtends(s, step, name, holder);
    } else {
      if Actor(s, step) == Some(holder) {
        HolderKeepsLease(s, step, name, holder);
      } else {
        OthersStandBack(s, step, name);
      }
      StepIsSafe(s, step);
      ViewStays(s.store, Apply(s, step).store, s.store.refs[name].hash);
    }
  }

  /** Lease exclusion, over any stretch of a run in which the holder does not give its lease back and everybody else
      acts before it runs out: the holder keeps it, renewals and all; nobody else changes the ref in any way; and its
      history grows by exactly the messages the holder has appended, in order. */
  lemma {:induction false} LeaseExcludesOthers(states: seq<Sys>, steps: seq<Step>, i: nat, j: nat, name: string,
                                               holder: string)
    requires IsRun(states, steps) && i <= j < |states| && holder != "" && Holds(states[i], name, holder)
    requires forall k {:trigger steps[k]} :: i <= k < j ==> LeaseStands(states[k], steps[k], name, holder)
    ensures Holds(states[j], name, holder)
    ensures History(states[j], name) == History(states[i], name) + OwnMessages(states, steps, i, j, name, holder)
    ensures forall k {:trigger steps[k]} :: i <= k < j && Actor(states[k], steps[k]) != Some(holder) ==>
              && name in states[k].store.refs && name in states[k + 1].store.refs
              && states[k + 1].store.refs[name] == states[k].store.refs[name]
    decreases j - i
  {
    hide Apply, Inv, History, Actor, LeaseStands, AppendsTo;
    if i < j {
      LeaseExcludesOthers(states, steps, i, j - 1, name, holder);
      RunKeepsInv(states, steps, j - 1);
      RunKeepsInv(states, steps, j);
      LeaseStandsOneStep(states[j - 1], steps[j - 1], name, holder);
    }
  }

  /** When an append through a handle succeeds: exactly when the handle is open, its head is still the ref's head, and
      nobody else holds an unexpired lease.  The handle's own lease need not be valid. */
  lemma AppendSucceedsExactly(states: seq<Sys>, steps: seq<Step>, i: nat, h: Handle, m: Message, now: nat)
    requires IsRun(states, steps) && i < |states|
    ensures var s := states[i].store;
            var (s', h', r) := AppendThrough(s, h, m, now);
            && (r.Ok? <==> !h.released && h.name in s.refs && s.refs[h.name].hash == h.hash
                           && !HeldByOther(s.refs[h.name], h.runner, now))
            && (r.Ok? ==>
                  && s'.refs[h.name].hash == h'.hash == r.value
                  && Chain(s.nodes, h.hash) < Chain(s'.nodes, h'.hash)
                  && |Chain(s'.nodes, h'.hash)| == |Chain(s.nodes, h.hash)| + 1
                  && EndsWith(Chain(s'.nodes, h'.hash), m))
            && (r.Err? ==> s' == s && h' == h)
  {
    RunKeepsInv(states, steps, i);
    var s := states[i].store;
    if AppendThrough(s, h, m, now).2.Ok? {
      InsertKeepsTree(s, h.hash, m, now);
      var (s', hash) := InsertNode(s, h.hash, m, now);
      var chain := Chain(s'.nodes, hash);
      assert chain[..|chain| - 1] == Chain(s.nodes, h.hash);
    }
  }

  // ---------- an append without a valid lease ----------

  ghost predicate Reachable(s: Sys) {
    exists states, steps :: IsRun(states, steps) && states[|steps|] == s
  }

  lemma ReachNext(s: Sys, step: Step)
    requires Reachable(s)
    ensures Reachable(Apply(s, step))
  {
    hide Apply;
    var states, steps :| IsRun(states, steps) && states[|steps|] == s;
    assert IsRun(states + [Apply(s, step)], steps + [step]);
  }

  lemma OneHandle(c: Codec) returns (s: Sys)
    requires CollisionFree(c)
    ensures Reachable(s) && s.store.codec == c && "main" in s.store.refs && 1 in s.handles
    ensures s.handles[1] == Handle("main", "runner", s.store.refs["main"].hash, false)
    ensures s.store.refs["main"].leasedBy == "runner" && s.store.refs["main"].leaseUntil == Some(LEASE_DURATION)
  {
    hide CollisionFree;
    var root := NodeRow(RootHash(c), "", Message("root", "{}"), 0);
    var init := Sys(Store(c, [root], map[]), map[], []);
    assert init.store.nodes[0].hash == RootHash(c) && !Present([], root.hash);
    assert TreeOk(c, [root]);
    assert IsRun([init], []);
    ReachNext(init, Create("main", ""));
    var s1 := Apply(init, Create("main", ""));
    assert Present([root], RootHash(c));
    ReachNext(s1, Acquire("main", "runner", 0));
    var s2 := Apply(s1, Acquire("main", "runner", 0));
    ReachNext(s2, Open(1, "main", "runner"));
    s := Apply(s2, Open(1, "main", "runner"));
  }

  /** A handle can append long after its lease has run out, as long as nobody else has taken the ref or moved it. */
  lemma ExpiredHandleAppends(m: Message, late: nat)
    requires late >= LEASE_DURATION
    ensures exists s ::
              && Reachable(s) && 1 in s.handles && s.handles[1].name in s.store.refs
              && s.store.refs[s.handles[1].name].leasedBy == s.handles[1].runner
              && LeaseExpired(s.store.refs[s.handles[1].name].leaseUntil, late)
              && AppendThrough(s.store, s.handles[1], m, late).2.Ok?
  {
    PlainCodecIsCollisionFree();
    hide CollisionFree;
    var s := OneHandle(PlainCodec());
    hide Reachable, InsertNode;
    assert AppendThrough(s.store, s.handles[1], m, late).2.Ok?;
  }
}
