/** The conversation store: an append-only tree of nodes named by their hashes, and refs that move along it.

    The node table is the sequence of its rows in order of insertion.  SHA-256 (section 6.2 of FIPS 180-4) and the JSON
    encoder are parameters of a store; what is used of them is that they do not collide and that a digest is printed in
    hex.  Lease times are numbers: the stored text keeps every nanosecond and is parsed back before it is compared. */
module ConversationStore {
  import opened Wrappers

  const LEASE_DURATION: nat := 30_000_000_000

  datatype Message = Message(role: string, body: string)

  datatype Codec = Codec(sha: string -> string, json: Message -> string)

  datatype NodeRow = NodeRow(hash: string, parent: string, message: Message, createdAt: nat)

  datatype RefRow = RefRow(hash: string, leasedBy: string, leaseUntil: Option<nat>)

  datatype Store = Store(codec: Codec, nodes: seq<NodeRow>, refs: map<string, RefRow>)

  datatype Error =
    | NodeNotFound | RefNotFound | RefExists | RefMoved | RefLeased | LeaseNotHeld | NameRequired | RunnerRequired

  ghost predicate CollisionFree(c: Codec) {
    && (forall x, y :: c.sha(x) == c.sha(y) ==> x == y)
    && (forall m, n :: c.json(m) == c.json(n) ==> m == n)
    && (forall x :: c.sha(x) != "" && '\n' !in c.sha(x))
  }

  function RootHash(c: Codec): string { c.sha("ROOT") }

  function NodeHash(c: Codec, parent: string, m: Message): string { c.sha(parent + "\n" + c.json(m)) }

  // ---------- hashes name nodes ----------

  lemma {:induction false} FirstNewlineSplits(p: string, x: string, q: string, y: string)
    requires '\n' !in p && '\n' !in q && p + "\n" + x == q + "\n" + y
    ensures p == q && x == y
  {
    var (s, t) := (p + "\n" + x, q + "\n" + y);
    assert s[|p|] == '\n' && t[|q|] == '\n';
    assert |p| == |q|;
    assert p == s[..|p|] && q == t[..|q|] && x == s[|p| + 1..] && y == t[|q| + 1..];
  }

  /** A hash determines the parent and the message it was made from, and no node is taken for the root. */
  lemma HashNamesNode(c: Codec, p: string, m: Message, q: string, n: Message)
    requires CollisionFree(c) && '\n' !in p && '\n' !in q
    ensures NodeHash(c, p, m) == NodeHash(c, q, n) <==> p == q && m == n
    ensures NodeHash(c, p, m) != RootHash(c)
  {
    if NodeHash(c, p, m) == NodeHash(c, q, n) {
      FirstNewlineSplits(p, c.json(m), q, c.json(n));
    }
    assert '\n' in p + "\n" + c.json(m) by {
      assert (p + "\n" + c.json(m))[|p|] == '\n';
    }
    assert '\n' !in "ROOT";
  }

  // ---------- such hashes exist ----------

  function Escape(s: string): string {
    if s == "" then ""
    else (if s[0] == '\n' then "\\n" else if s[0] == '\\' then "\\\\" else [s[0]]) + Escape(s[1..])
  }

  lemma {:induction false} EscapeKeepsApart(s: string, t: string)
    ensures Escape(s) == Escape(t) ==> s == t
    ensures '\n' !in Escape(s)
  {
    if s != "" {
      EscapeKeepsApart(s[1..], if t == "" then "" else t[1..]);
      if t != "" && Escape(s) == Escape(t) {
        var (x, y) := (if s[0] == '\n' || s[0] == '\\' then 2 else 1, if t[0] == '\n' || t[0] == '\\' then 2 else 1);
        assert Escape(s)[x..] == Escape(s[1..]) && Escape(t)[y..] == Escape(t[1..]);
        assert s == [s[0]] + s[1..] && t == [t[0]] + t[1..];
      }
    }
  }

  function PlainCodec(): Codec {
    Codec(x => "h" + Escape(x), (m: Message) => Escape(m.role) + "\n" + m.body)
  }

  /** What is asked of the hash and the encoder can be had. */
  lemma PlainCodecIsCollisionFree()
    ensures CollisionFree(PlainCodec())
  {
    var c := PlainCodec();
    forall x, y | c.sha(x) == c.sha(y) ensures x == y {
      assert ("h" + Escape(x))[1..] == Escape(x) && ("h" + Escape(y))[1..] == Escape(y);
      EscapeKeepsApart(x, y);
    }
    forall m, n | c.json(m) == c.json(n) ensures m == n {
      EscapeKeepsApart(m.role, n.role);
      EscapeKeepsApart(n.role, m.role);
      FirstNewlineSplits(Escape(m.role), m.body, Escape(n.role), n.body);
    }
    forall x ensures c.sha(x) != "" && '\n' !in c.sha(x) {
      EscapeKeepsApart(x, x);
    }
  }

  // ---------- the tree ----------

  predicate Present(nodes: seq<NodeRow>, hash: string) {
    exists i :: 0 <= i < |nodes| && nodes[i].hash == hash
  }

  ghost predicate RowOk(c: Codec, nodes: seq<NodeRow>, i: nat)
    requires i < |nodes|
  {
    var row := nodes[i];
    && (i == 0 ==> row.hash == RootHash(c) && row.parent == "" && row.message.role == "root")
    && (i > 0 ==>
          && Present(nodes[..i], row.parent) && row.parent != ""
          && row.hash == NodeHash(c, row.parent, row.message))
    && !Present(nodes[..i], row.hash)
  }

  /** The first row is the root; every other row's parent was stored before it; no hash is stored twice. */
  ghost predicate TreeOk(c: Codec, nodes: seq<NodeRow>) {
    nodes != [] && forall i :: 0 <= i < |nodes| ==> RowOk(c, nodes, i)
  }

  /** The rows from the root down to `hash`. */
  function Chain(nodes: seq<NodeRow>, hash: string): seq<NodeRow> {
    if nodes == [] then []
    else
      var (last, earlier) := (nodes[|nodes| - 1], nodes[..|nodes| - 1]);
      if last.hash != hash then Chain(earlier, hash)
      else if last.parent == "" then [last]
      else Chain(earlier, last.parent) + [last]
  }

  /** What a reader of a chain gets: rows marked as root are skipped. */
  function Visible(rows: seq<NodeRow>): seq<NodeRow> {
    if rows == [] then []
    else
      Visible(rows[..|rows| - 1]) + (if rows[|rows| - 1].message.role == "root" then [] else [rows[|rows| - 1]])
  }

  lemma {:induction false} ChainIgnoresLaterRows(nodes: seq<NodeRow>, k: nat, hash: string)
    requires k <= |nodes| && !Present(nodes[k..], hash)
    ensures Chain(nodes, hash) == Chain(nodes[..k], hash)
  {
    if k == |nodes| {
      assert nodes[..k] == nodes;
    } else {
      var n := |nodes| - 1;
      assert nodes[k..][n - k] == nodes[n];
      assert nodes[..n][..k] == nodes[..k];
      assert !Present(nodes[..n][k..], hash) by {
        forall i | 0 <= i < n - k ensures nodes[..n][k..][i].hash != hash {
          assert nodes[k..][i] == nodes[..n][k..][i];
        }
      }
      ChainIgnoresLaterRows(nodes[..n], k, hash);
    }
  }

  lemma LaterRowsDiffer(c: Codec, nodes: seq<NodeRow>, k: nat, hash: string)
    requires TreeOk(c, nodes) && k <= |nodes| && Present(nodes[..k], hash)
    ensures !Present(nodes[k..], hash)
  {
    var j :| 0 <= j < k && nodes[..k][j].hash == hash;
    forall i | 0 <= i < |nodes| - k ensures nodes[k..][i].hash != hash {
      assert RowOk(c, nodes, k + i);
      assert nodes[..k + i][j].hash == hash;
    }
  }

  /** A chain is its last row, after the chain of that row's parent in the whole table. */
  lemma ChainUnrolls(c: Codec, nodes: seq<NodeRow>, i: nat)
    requires TreeOk(c, nodes) && i < |nodes|
    ensures Chain(nodes, nodes[i].hash)
         == if i == 0 then [nodes[0]] else Chain(nodes, nodes[i].parent) + [nodes[i]]
  {
    hide Chain;
    RowFacts(c, nodes, i);
    RowFacts(c, nodes, 0);
    hide TreeOk, Present;
    assert nodes[..i + 1][i] == nodes[i] && nodes[..i + 1][..i] == nodes[..i];
    LaterRowsDiffer(c, nodes, i + 1, nodes[i].hash);
    ChainIgnoresLaterRows(nodes, i + 1, nodes[i].hash);
    ChainOfLast(nodes[..i + 1]);
    if i > 0 {
      LaterRowsDiffer(c, nodes, i, nodes[i].parent);
      ChainIgnoresLaterRows(nodes, i, nodes[i].parent);
    }
  }

  lemma RowFacts(c: Codec, nodes: seq<NodeRow>, i: nat)
    requires TreeOk(c, nodes) && i < |nodes|
    ensures RowOk(c, nodes, i) && Present(nodes[..i + 1], nodes[i].hash)
  {
    assert nodes[..i + 1][i] == nodes[i];
  }

  lemma ChainOfLast(nodes: seq<NodeRow>)
    requires nodes != []
    ensures var (last, earlier) := (nodes[|nodes| - 1], nodes[..|nodes| - 1]);
            Chain(nodes, last.hash) == if last.parent == "" then [last] else Chain(earlier, last.parent) + [last]
  {
  }

  /** Every chain of a stored hash starts at the root. */
  lemma {:induction false} ChainsStartAtRoot(c: Codec, nodes: seq<NodeRow>, i: nat)
    requires TreeOk(c, nodes) && i < |nodes|
    ensures Chain(nodes, nodes[i].hash) != [] && Chain(nodes, nodes[i].hash)[0] == nodes[0]
    ensures Chain(nodes, nodes[i].hash)[|Chain(nodes, nodes[i].hash)| - 1] == nodes[i]
  {
    ChainUnrolls(c, nodes, i);
    if i > 0 {
      assert RowOk(c, nodes, i);
      var j :| 0 <= j < i && nodes[..i][j].hash == nodes[i].parent;
      ChainsStartAtRoot(c, nodes, j);
    }
  }

  // ---------- transactions, as functions ----------

  /** INSERT OR IGNORE. */
  function InsertNode(s: Store, parent: string, m: Message, now: nat): (Store, string) {
    var hash := NodeHash(s.codec, parent, m);
    if Present(s.nodes, hash) then (s, hash)
    else (s.(nodes := s.nodes + [NodeRow(hash, parent, m, now)]), hash)
  }

  function OrRoot(c: Codec, hash: string): string {
    if hash == "" then RootHash(c) else hash
  }

  function AppendNode(s: Store, parent: string, m: Message, now: nat): (Store, Result<string, Error>) {
    var p := OrRoot(s.codec, parent);
    if !Present(s.nodes, p) then (s, Err(NodeNotFound))
    else
      var (s', hash) := InsertNode(s, p, m, now);
      (s', Ok(hash))
  }

  function LoadChain(s: Store, hash: string): Result<seq<NodeRow>, Error> {
    var h := OrRoot(s.codec, hash);
    if Present(s.nodes, h) then Ok(Visible(Chain(s.nodes, h)))
    else Err(NodeNotFound)
  }

  function CreateRef(s: Store, name: string, hash: string): (Store, Result<(), Error>) {
    var h := OrRoot(s.codec, hash);
    if name == "" then (s, Err(NameRequired))
    else if !Present(s.nodes, h) then (s, Err(NodeNotFound))
    else if name in s.refs then (s, Err(RefExists))
    else (s.(refs := s.refs[name := RefRow(h, "", None)]), Ok(()))
  }

  predicate LeaseExpired(until: Option<nat>, now: nat) {
    until.Some? && until.value <= now
  }

  /** Somebody else holds the ref under a lease that has not run out. */
  predicate HeldByOther(ref: RefRow, runner: string, now: nat) {
    ref.leasedBy != "" && ref.leasedBy != runner && !LeaseExpired(ref.leaseUntil, now)
  }

  function AcquireLease(s: Store, name: string, runner: string, now: nat): (Store, Result<(), Error>) {
    if runner == "" then (s, Err(RunnerRequired))
    else if name !in s.refs then (s, Err(RefNotFound))
    else if HeldByOther(s.refs[name], runner, now) then (s, Err(RefLeased))
    else
      (s.(refs := s.refs[name := s.refs[name].(leasedBy := runner, leaseUntil := Some(now + LEASE_DURATION))]), Ok(()))
  }

  function RenewLease(s: Store, name: string, runner: string, now: nat): (Store, Result<(), Error>) {
    if name !in s.refs then (s, Err(RefNotFound))
    else if s.refs[name].leasedBy != runner then (s, Err(LeaseNotHeld))
    else (s.(refs := s.refs[name := s.refs[name].(leaseUntil := Some(now + LEASE_DURATION))]), Ok(()))
  }

  function ReleaseLease(s: Store, name: string, runner: string): Store {
    if name in s.refs && s.refs[name].leasedBy == runner then
      s.(refs := s.refs[name := s.refs[name].(leasedBy := "", leaseUntil := None)])
    else s
  }

  /** Move a ref's head from `expected` to a new child of it, if nobody else moved it or holds it. */
  function AdvanceRef(s: Store, name: string, expected: string, m: Message, runner: string, now: nat)
    : (Store, Result<string, Error>)
  {
    if name !in s.refs then (s, Err(RefNotFound))
    else if s.refs[name].hash != expected then (s, Err(RefMoved))
    else if HeldByOther(s.refs[name], runner, now) then (s, Err(RefLeased))
    else
      var (s', hash) := InsertNode(s, expected, m, now);
      (s'.(refs := s.refs[name := s.refs[name].(hash := hash)]), Ok(hash))
  }

  // ---------- the store in place ----------

  class DB {
    const codec: Codec
    var nodes: seq<NodeRow>
    var refs: map<string, RefRow>

    function Snapshot(): Store
      reads this
    {
      Store(codec, nodes, refs)
    }

    constructor (codec: Codec, now: nat)
      ensures Snapshot() == Store(codec, [NodeRow(RootHash(codec), "", Message("root", "{}"), now)], map[])
    {
      this.codec, nodes, refs :=
        codec, [NodeRow(codec.sha("ROOT"), "", Message("root", "{}"), now)], map[];
    }

    method FindNode(hash: string) returns (index: Option<nat>)
      ensures index.Some? <==> Present(nodes, hash)
      ensures index.Some? ==> index.value < |nodes| && nodes[index.value].hash == hash
    {
      for i := 0 to |nodes|
        invariant forall j :: 0 <= j < i ==> nodes[j].hash != hash
      {
        if nodes[i].hash == hash {
          return Some(i);
        }
      }
      return None;
    }

    /** The recursive query: start at `hash`, join each row with its parent until a row has none, then list the rows
        from the top down.  It ends because a parent is always stored before its children. */
    method LoadChainRows(hash: string) returns (r: Result<seq<NodeRow>, Error>)
      requires TreeOk(codec, nodes)
      ensures r == LoadChain(Snapshot(), hash)
    {
      hide Chain, Visible, TreeOk, Present;
      var h := if hash == "" then codec.sha("ROOT") else hash;
      var at := FindNode(h);
      if at.None? {
        return Err(NodeNotFound);
      }
      var i := at.value;
      var rows := [nodes[i]];
      ChainUnrolls(codec, nodes, i);
      ParentsAreEarlier(codec, nodes, i);
      while nodes[i].parent != ""
        invariant i < |nodes| && (i == 0 <==> nodes[i].parent == "")
        invariant i > 0 ==> Present(nodes, nodes[i].parent) && Present(nodes[..i], nodes[i].parent)
        invariant Chain(nodes, h) == if i == 0 then rows else Chain(nodes, nodes[i].parent) + rows
        decreases i
      {
        var up := FindNode(nodes[i].parent);
        var j := up.value;
        OnlyOneRow(codec, nodes, j, i);
        ChainStep(codec, nodes, j, rows);
        i := j;
        rows := [nodes[i]] + rows;
        ParentsAreEarlier(codec, nodes, i);
      }
      return Ok(Visible(rows));
    }

    method Append(parent: string, m: Message, now: nat) returns (r: Result<string, Error>)
      modifies this`nodes
      ensures (Snapshot(), r) == AppendNode(old(Snapshot()), parent, m, now)
    {
      var p := if parent == "" then codec.sha("ROOT") else parent;
      var at := FindNode(p);
      if at.None? {
        return Err(NodeNotFound);
      }
      var hash := Insert(p, m, now);
      return Ok(hash);
    }

    method Insert(parent: string, m: Message, now: nat) returns (hash: string)
      modifies this`nodes
      ensures (Snapshot(), hash) == InsertNode(old(Snapshot()), parent, m, now)
    {
      hash := NodeHash(codec, parent, m);
      var at := FindNode(hash);
      if at.None? {
        nodes := nodes + [NodeRow(hash, parent, m, now)];
      }
    }

    method CreateRefRow(name: string, hash: string) returns (r: Result<(), Error>)
      modifies this`refs
      ensures (Snapshot(), r) == CreateRef(old(Snapshot()), name, hash)
    {
      if name == "" {
        return Err(NameRequired);
      }
      var h := if hash == "" then codec.sha("ROOT") else hash;
      var at := FindNode(h);
      if at.None? {
        return Err(NodeNotFound);
      }
      if name in refs {
        return Err(RefExists);
      }
      refs := refs[name := RefRow(h, "", None)];
      return Ok(());
    }

    method Acquire(name: string, runner: string, now: nat) returns (r: Result<(), Error>)
      modifies this`refs
      ensures (Snapshot(), r) == AcquireLease(old(Snapshot()), name, runner, now)
    {
      if runner == "" {
        return Err(RunnerRequired);
      }
      if name !in refs {
        return Err(RefNotFound);
      }
      var ref := refs[name];
      if ref.leasedBy != "" && ref.leasedBy != runner && !LeaseExpired(ref.leaseUntil, now) {
        return Err(RefLeased);
      }
      refs := refs[name := ref.(leasedBy := runner, leaseUntil := Some(now + LEASE_DURATION))];
      return Ok(());
    }

    method Renew(name: string, runner: string, now: nat) returns (r: Result<(), Error>)
      modifies this`refs
      ensures (Snapshot(), r) == RenewLease(old(Snapshot()), name, runner, now)
    {
      if name !in refs {
        return Err(RefNotFound);
      }
      if refs[name].leasedBy != runner {
        return Err(LeaseNotHeld);
      }
      refs := refs[name := refs[name].(leaseUntil := Some(now + LEASE_DURATION))];
      return Ok(());
    }

    method Release(name: string, runner: string)
      modifies this`refs
      ensures Snapshot() == ReleaseLease(old(Snapshot()), name, runner)
    {
      if name in refs && refs[name].leasedBy == runner {
        refs := refs[name := refs[name].(leasedBy := "", leaseUntil := None)];
      }
    }

    method Advance(name: string, expected: string, m: Message, runner: string, now: nat)
      returns (r: Result<string, Error>)
      modifies this`nodes, this`refs
      ensures (Snapshot(), r) == AdvanceRef(old(Snapshot()), name, expected, m, runner, now)
    {
      if name !in refs {
        return Err(RefNotFound);
      }
      var ref := refs[name];
      if ref.hash != expected {
        return Err(RefMoved);
      }
      if ref.leasedBy != "" && ref.leasedBy != runner && !LeaseExpired(ref.leaseUntil, now) {
        return Err(RefLeased);
      }
      var hash := Insert(expected, m, now);
      refs := refs[name := ref.(hash := hash)];
      return Ok(hash);
    }
  }

  lemma EarlierParent(c: Codec, nodes: seq<NodeRow>, i: nat)
    requires TreeOk(c, nodes) && 0 < i < |nodes|
    ensures Present(nodes, nodes[i].parent) && Present(nodes[..i], nodes[i].parent)
  {
    assert RowOk(c, nodes, i);
    var j :| 0 <= j < i && nodes[..i][j].hash == nodes[i].parent;
    assert nodes[j].hash == nodes[i].parent;
  }

  lemma ChainStep(c: Codec, nodes: seq<NodeRow>, j: nat, rows: seq<NodeRow>)
    requires TreeOk(c, nodes) && j < |nodes|
    ensures Chain(nodes, nodes[j].hash) + rows ==
            if j == 0 then [nodes[0]] + rows else Chain(nodes, nodes[j].parent) + ([nodes[j]] + rows)
  {
    hide Chain, TreeOk;
    ChainUnrolls(c, nodes, j);
  }

  /** Only the first row has no parent; the others' parents are stored before them. */
  lemma ParentsAreEarlier(c: Codec, nodes: seq<NodeRow>, i: nat)
    requires TreeOk(c, nodes) && i < |nodes|
    ensures i == 0 <==> nodes[i].parent == ""
    ensures i > 0 ==> Present(nodes, nodes[i].parent) && Present(nodes[..i], nodes[i].parent)
  {
    assert RowOk(c, nodes, i);
    if i > 0 {
      EarlierParent(c, nodes, i);
    }
  }

  lemma OnlyOneRow(c: Codec, nodes: seq<NodeRow>, j: nat, i: nat)
    requires TreeOk(c, nodes) && i < |nodes| && j < |nodes| && Present(nodes[..i], nodes[j].hash)
    ensures j < i
  {
    var k :| 0 <= k < i && nodes[..i][k].hash == nodes[j].hash;
    assert RowOk(c, nodes, j);
    if k < j {
      PresentBefore(nodes, k, j);
    }
  }

  lemma PresentBefore(nodes: seq<NodeRow>, k: nat, j: nat)
    requires k < j <= |nodes|
    ensures Present(nodes[..j], nodes[k].hash)
  {
  }

  // ---------- what one append does ----------

  lemma StoredHashIsHex(c: Codec, nodes: seq<NodeRow>, hash: string)
    requires CollisionFree(c) && TreeOk(c, nodes) && Present(nodes, hash)
    ensures hash != "" && '\n' !in hash
  {
    var i :| 0 <= i < |nodes| && nodes[i].hash == hash;
    assert RowOk(c, nodes, i);
  }

  /** A stored row with the new node's hash is that very node. */
  lemma StoredTwinIsSame(s: Store, parent: string, m: Message, k: nat)
    requires CollisionFree(s.codec) && TreeOk(s.codec, s.nodes) && Present(s.nodes, parent)
    requires k < |s.nodes| && s.nodes[k].hash == NodeHash(s.codec, parent, m)
    ensures k > 0 && s.nodes[k].parent == parent && s.nodes[k].message == m
  {
    StoredHashIsHex(s.codec, s.nodes, parent);
    assert RowOk(s.codec, s.nodes, k);
    HashNamesNode(s.codec, parent, m, parent, m);
    if k > 0 {
      EarlierParent(s.codec, s.nodes, k);
      StoredHashIsHex(s.codec, s.nodes, s.nodes[k].parent);
      HashNamesNode(s.codec, s.nodes[k].parent, s.nodes[k].message, parent, m);
    }
  }

  lemma NewRowKeepsTree(c: Codec, nodes: seq<NodeRow>, row: NodeRow)
    requires TreeOk(c, nodes) && Present(nodes, row.parent) && row.parent != ""
    requires row.hash == NodeHash(c, row.parent, row.message) && !Present(nodes, row.hash)
    ensures TreeOk(c, nodes + [row])
  {
    forall i | 0 <= i < |nodes + [row]| ensures RowOk(c, nodes + [row], i) {
      if i < |nodes| {
        assert RowOk(c, nodes, i);
        assert (nodes + [row])[..i] == nodes[..i];
      } else {
        assert (nodes + [row])[..i] == nodes;
      }
    }
  }

  /** Inserting keeps the tree well formed, and the new head's chain is the parent's chain and one row for the
      message. */
  lemma InsertKeepsTree(s: Store, parent: string, m: Message, now: nat)
    requires CollisionFree(s.codec) && TreeOk(s.codec, s.nodes) && Present(s.nodes, parent)
    ensures var (s', hash) := InsertNode(s, parent, m, now);
            && TreeOk(s.codec, s'.nodes) && s.nodes <= s'.nodes && Present(s'.nodes, hash)
            && Present(s'.nodes, parent) && Extends(s, s', parent, hash, m)
  {
    var (s', hash) := InsertNode(s, parent, m, now);
    StoredHashIsHex(s.codec, s.nodes, parent);
    var p :| 0 <= p < |s.nodes| && s.nodes[p].hash == parent;
    if Present(s.nodes, hash) {
      var k :| 0 <= k < |s.nodes| && s.nodes[k].hash == hash;
      StoredTwinIsSame(s, parent, m, k);
      ChainUnrolls(s.codec, s.nodes, k);
    } else {
      var row := NodeRow(hash, parent, m, now);
      NewRowKeepsTree(s.codec, s.nodes, row);
      assert s'.nodes[|s.nodes|] == row && s'.nodes[p].hash == parent;
      assert s'.nodes[..|s.nodes|] == s.nodes;
    }
  }

  /** In s' the chain of `hash` is what the chain of `parent` was in s, and then one row that carries m. */
  ghost predicate Extends(s: Store, s': Store, parent: string, hash: string, m: Message) {
    var chain := Chain(s'.nodes, hash);
    && chain != []
    && chain[..|chain| - 1] == Chain(s.nodes, parent)
    && chain[|chain| - 1].message == m && chain[|chain| - 1].hash == hash && chain[|chain| - 1].parent == parent
  }

  /** Stored chains never change when rows are added. */
  lemma {:induction false} ChainsNeverChange(c: Codec, nodes: seq<NodeRow>, nodes': seq<NodeRow>, hash: string)
    requires TreeOk(c, nodes') && nodes <= nodes' && Present(nodes, hash)
    ensures Chain(nodes', hash) == Chain(nodes, hash)
  {
    assert nodes'[..|nodes|] == nodes;
    LaterRowsDiffer(c, nodes', |nodes|, hash);
    ChainIgnoresLaterRows(nodes', |nodes|, hash);
  }

  /** Reading a chain right after appending to it gives the old chain and the message, exactly when the message is not
      marked as a root; appending the same message again changes nothing and names the same node. */
  lemma AppendThenLoad(s: Store, parent: string, m: Message, now: nat, later: nat)
    requires CollisionFree(s.codec) && TreeOk(s.codec, s.nodes)
    requires AppendNode(s, parent, m, now).1.Ok?
    ensures var (s', r) := AppendNode(s, parent, m, now);
            && LoadChain(s, parent).Ok? && LoadChain(s', r.value).Ok?
            && (var (before, after) := (LoadChain(s, parent).value, LoadChain(s', r.value).value);
                (|after| == |before| + 1 && after[..|before|] == before && after[|before|].message == m)
                <==> m.role != "root")
            && AppendNode(s', parent, m, later) == (s', r)
  {
    var p := OrRoot(s.codec, parent);
    var (s', hash) := InsertNode(s, p, m, now);
    InsertKeepsTree(s, p, m, now);
    var chain := Chain(s'.nodes, hash);
    assert Visible(chain) == Visible(chain[..|chain| - 1]) + (if m.role == "root" then [] else [chain[|chain| - 1]]);
  }

  /** A hash can be loaded exactly when it is stored, and its chain starts at the root and ends at it. */
  lemma LoadedChainsAreRooted(s: Store, hash: string)
    requires CollisionFree(s.codec) && TreeOk(s.codec, s.nodes)
    ensures LoadChain(s, hash).Ok? <==> Present(s.nodes, OrRoot(s.codec, hash))
    ensures LoadChain(s, hash).Ok? ==>
              var chain := Chain(s.nodes, OrRoot(s.codec, hash));
              && chain != [] && chain[0].hash == RootHash(s.codec) && chain[|chain| - 1].hash == OrRoot(s.codec, hash)
  {
    if LoadChain(s, hash).Ok? {
      var i :| 0 <= i < |s.nodes| && s.nodes[i].hash == OrRoot(s.codec, hash);
      ChainsStartAtRoot(s.codec, s.nodes, i);
      assert RowOk(s.codec, s.nodes, 0);
    }
  }
}
