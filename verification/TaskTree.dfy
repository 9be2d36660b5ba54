/** The task manager's records: spawning under a parent, and cancelling a whole subtree.

    A record is named by its task number; `recs` holds every record ever created (goroutines and waiters keep pointers
    to records that have left the table) and `live` the numbers currently in the table. */
module TaskTree {
  import opened Wrappers

  datatype TaskStatus = Running | Done | Failed | Canceled

  datatype Record = Record(
    parent: nat,
    status: TaskStatus,
    error: string,
    cancelRequested: bool,
    cancelInstalled: bool,
    done: bool)

  datatype SpawnError = UnknownParent | ParentCanceled | ParentComplete

  /** Numbers start at 1, children have larger numbers than their parents, and 0 means "no parent". */
  ghost predicate Tree(recs: map<nat, Record>, live: set<nat>, nextId: nat) {
    && live <= recs.Keys
    && forall t :: t in recs ==> recs[t].parent < t <= nextId
  }

  /** t is the root, or reaches it by parent links through records that are still in the table. */
  predicate Under(recs: map<nat, Record>, live: set<nat>, root: nat, t: nat) {
    && t in live && t in recs
    && (t == root || (recs[t].parent < t && Under(recs, live, root, recs[t].parent)))
  }

  function Subtree(recs: map<nat, Record>, live: set<nat>, root: nat): set<nat> {
    set t | t in live && Under(recs, live, root, t)
  }

  function Children(recs: map<nat, Record>, live: set<nat>, parent: nat): set<nat> {
    set c | c in live && c in recs && recs[c].parent == parent
  }

  /** A task and its ancestors, nearest first, whether they are still in the table or not. */
  function Line(recs: map<nat, Record>, t: nat): seq<nat> {
    if t !in recs then [] else [t] + (if recs[t].parent < t then Line(recs, recs[t].parent) else [])
  }

  // ---------- the lock-protected sections, as functions ----------

  /** Why a record may not be created under `parent`, if so. */
  function SpawnCheck(recs: map<nat, Record>, live: set<nat>, parent: nat): Option<SpawnError> {
    if parent == 0 then None
    else if !(parent in live && parent in recs) then Some(UnknownParent)
    else if recs[parent].cancelRequested then Some(ParentCanceled)
    else if recs[parent].done then Some(ParentComplete)
    else None
  }

  function FreshRecord(parent: nat): Record {
    Record(parent, Running, "", false, false, false)
  }

  function RequestCancel(recs: map<nat, Record>, chosen: set<nat>): map<nat, Record> {
    map t | t in recs :: if t in chosen && !recs[t].done then recs[t].(cancelRequested := true) else recs[t]
  }

  /** Records whose installed cancel function a Cancel call takes away to invoke. */
  function Cancellable(recs: map<nat, Record>, chosen: set<nat>): set<nat> {
    set t | t in chosen && t in recs && !recs[t].done && recs[t].cancelInstalled
  }

  ghost predicate Lists(list: seq<nat>, members: set<nat>) {
    && (forall t :: t in list <==> t in members)
    && (forall i, j :: 0 <= i < j < |list| ==> list[i] != list[j])
  }

  predicate AnyOpen(recs: map<nat, Record>, chosen: set<nat>) {
    exists t :: t in chosen && t in recs && !recs[t].done
  }

  // ---------- the same, in place ----------

  class TaskManager {
    var recs: map<nat, Record>
    var live: set<nat>
    var nextId: nat

    ghost predicate Valid()
      reads this
    {
      Tree(recs, live, nextId)
    }

    constructor (lastUsedId: nat)
      ensures Valid() && recs == map[] && live == {} && nextId == lastUsedId
    {
      recs, live, nextId := map[], {}, lastUsedId;
    }

    method NewRecord(parent: nat) returns (r: Result<nat, SpawnError>)
      requires Valid()
      modifies this
      ensures Valid()
      ensures match SpawnCheck(old(recs), old(live), parent)
              case Some(e) => r == Err(e) && recs == old(recs) && live == old(live) && nextId == old(nextId)
              case None =>
                && r == Ok(old(nextId) + 1) && nextId == old(nextId) + 1
                && nextId !in old(recs) && recs == old(recs)[nextId := FreshRecord(parent)]
                && live == old(live) + {nextId}
      ensures r.Ok? <==> parent == 0 || (parent in old(live) && !old(recs)[parent].cancelRequested
                                         && !old(recs)[parent].done)
      ensures r == Err(UnknownParent) <==> parent != 0 && parent !in old(live)
      ensures r == Err(ParentCanceled) <==> parent != 0 && parent in old(live) && old(recs)[parent].cancelRequested
    {
      if parent != 0 {
        if parent !in live {
          return Err(UnknownParent);
        }
        var rec := recs[parent];
        if rec.cancelRequested {
          return Err(ParentCanceled);
        }
        if rec.done {
          return Err(ParentComplete);
        }
      }
      nextId := nextId + 1;
      recs := recs[nextId := FreshRecord(parent)];
      live := live + {nextId};
      r := Ok(nextId);
    }

    /** Breadth-first cancellation.  The source also skips a queue entry that was visited before or has left the table;
        the two assertions at the top of the loop show that no entry ever is either. */
    method Cancel(root: nat) returns (found: bool, anyCanceled: bool, toCancel: seq<nat>, ghost enqueued: nat)
      requires Valid()
      modifies this`recs
      ensures Valid()
      ensures found == (root in live)
      ensures var chosen := Subtree(old(recs), live, root);
              && recs == RequestCancel(old(recs), chosen)
              && Lists(toCancel, Cancellable(old(recs), chosen))
              && anyCanceled == AnyOpen(old(recs), chosen)
              && enqueued == |chosen|
      ensures forall t :: t in toCancel <==>
                && t in live && Under(old(recs), live, root, t)
                && t in old(recs) && !old(recs)[t].done && old(recs)[t].cancelInstalled
    {
      hide Walk, Under, Children, RequestCancel, Cancellable, Lists, AnyOpen, Tree, Subtree;
      found, anyCanceled, toCancel, enqueued := root in live, false, [], 0;
      ghost var before := recs;
      if !found {
        NothingUnder(recs, live, root);
        NothingMarked(recs);
        ListedExactly(toCancel, recs, live, root);
        return;
      }
      var queue := [root];
      ghost var pending := {root};
      var visited: set<nat> := {};
      WalkStarts(recs, live, nextId, root);
      NothingMarked(recs);
      while queue != []
        invariant visited <= live && recs == RequestCancel(before, visited)
        invariant Walk(before, live, root, visited, pending) && Lists(queue, pending)
        invariant enqueued == |visited|
        invariant Lists(toCancel, Cancellable(before, visited))
        invariant anyCanceled == AnyOpen(before, visited)
        decreases live - visited
      {
        var current := queue[0];
        FirstListed(queue, pending);
        WalkHead(before, live, root, visited, pending, current);
        assert current in live && current !in visited;
        MarkOne(before, visited, current);
        var rec := recs[current];
        if !rec.done {
          recs := recs[current := rec.(cancelRequested := true)];
          if rec.cancelInstalled {
            ListOne(toCancel, Cancellable(before, visited), current);
            toCancel := toCancel + [current];
          }
          anyCanceled := true;
        }
        MarkingKeepsTree(before, live, nextId, visited + {current});
        WalkStep(before, live, nextId, root, visited, pending, current);
        queue := EnqueueChildren(current, queue[1..], pending - {current});
        pending := pending - {current} + Children(recs, live, current);
        visited := visited + {current};
        enqueued := enqueued + 1;
      }
      WalkEnds(before, live, root, visited, queue, pending);
      MarkingKeepsTree(before, live, nextId, visited);
      ListedExactly(toCancel, before, live, root);
    }

    /** Append the records whose parent is `current`; a map is walked in no particular order. */
    method EnqueueChildren(current: nat, rest: seq<nat>, ghost pending: set<nat>) returns (queue: seq<nat>)
      requires live <= recs.Keys
      requires Lists(rest, pending) && pending !! Children(recs, live, current)
      ensures Lists(queue, pending + Children(recs, live, current))
    {
      hide Lists;
      queue := rest;
      var todo := live;
      ghost var kids: set<nat> := {};
      assert pending + kids == pending;
      while todo != {}
        invariant todo <= live
        invariant kids == set c | c in live - todo && c in recs && recs[c].parent == current
        invariant Lists(queue, pending + kids)
        decreases |todo|
      {
        var c :| c in todo;
        todo := todo - {c};
        if recs[c].parent == current {
          ListOne(queue, pending + kids, c);
          assert pending + kids + {c} == pending + (kids + {c});
          queue := queue + [c];
          kids := kids + {c};
        }
      }
      assert kids == Children(recs, live, current);
    }
  }

  lemma ListedExactly(list: seq<nat>, recs: map<nat, Record>, live: set<nat>, root: nat)
    requires Lists(list, Cancellable(recs, Subtree(recs, live, root)))
    ensures forall t :: t in list <==>
              && t in live && Under(recs, live, root, t)
              && t in recs && !recs[t].done && recs[t].cancelInstalled
  {
    hide Under;
  }

  lemma NothingMarked(recs: map<nat, Record>)
    ensures RequestCancel(recs, {}) == recs && Cancellable(recs, {}) == {} && !AnyOpen(recs, {})
    ensures Lists([], {})
  {
  }

  lemma MarkingKeepsTree(recs: map<nat, Record>, live: set<nat>, nextId: nat, chosen: set<nat>)
    requires Tree(recs, live, nextId)
    ensures Tree(RequestCancel(recs, chosen), live, nextId) && RequestCancel(recs, chosen).Keys == recs.Keys >= live
    ensures forall t :: Children(RequestCancel(recs, chosen), live, t) == Children(recs, live, t)
  {
  }

  lemma MarkOne(recs: map<nat, Record>, visited: set<nat>, t: nat)
    requires t in recs && t !in visited
    ensures RequestCancel(recs, visited).Keys == recs.Keys && RequestCancel(recs, visited)[t] == recs[t]
    ensures t !in Cancellable(recs, visited)
    ensures AnyOpen(recs, visited + {t}) == (AnyOpen(recs, visited) || !recs[t].done)
    ensures RequestCancel(recs, visited + {t})
         == if recs[t].done then RequestCancel(recs, visited)
            else RequestCancel(recs, visited)[t := recs[t].(cancelRequested := true)]
    ensures Cancellable(recs, visited + {t})
         == Cancellable(recs, visited) + (if !recs[t].done && recs[t].cancelInstalled then {t} else {})
  {
  }

  lemma ListOne(list: seq<nat>, members: set<nat>, t: nat)
    requires Lists(list, members) && t !in members
    ensures Lists(list + [t], members + {t})
  {
  }

  lemma FirstListed(list: seq<nat>, members: set<nat>)
    requires Lists(list, members) && list != []
    ensures list[0] in members && Lists(list[1..], members - {list[0]})
  {
  }

  /** What has been visited and what is still queued, halfway through the walk. */
  ghost predicate Walk(recs: map<nat, Record>, live: set<nat>, root: nat, visited: set<nat>, pending: set<nat>) {
    && pending !! visited
    && (forall t :: t in visited + pending ==> Under(recs, live, root, t))
    && root in visited + pending
    && (forall c :: c in live && c in recs && recs[c].parent in visited ==> c in visited + pending)
    && (forall c :: c in visited + pending ==> c in recs && (c == root || recs[c].parent in visited))
  }

  lemma {:induction false} UnderIsLarger(recs: map<nat, Record>, live: set<nat>, root: nat, t: nat)
    requires Under(recs, live, root, t)
    ensures root <= t
  {
    if t != root {
      UnderIsLarger(recs, live, root, recs[t].parent);
    }
  }

  lemma WalkStarts(recs: map<nat, Record>, live: set<nat>, nextId: nat, root: nat)
    requires Tree(recs, live, nextId) && root in live
    ensures Walk(recs, live, root, {}, {root}) && Lists([root], {root})
  {
  }

  /** No queue entry has been visited before or has left the table. */
  lemma WalkHead(recs: map<nat, Record>, live: set<nat>, root: nat, visited: set<nat>, pending: set<nat>, t: nat)
    requires Walk(recs, live, root, visited, pending) && t in pending
    ensures t in live && t in recs && t !in visited
  {
  }

  lemma WalkStep(recs: map<nat, Record>, live: set<nat>, nextId: nat, root: nat, visited: set<nat>, pending: set<nat>,
                 t: nat)
    requires Tree(recs, live, nextId) && Walk(recs, live, root, visited, pending) && t in pending
    ensures pending - {t} !! Children(recs, live, t)
    ensures Walk(recs, live, root, visited + {t}, pending - {t} + Children(recs, live, t))
  {
    hide Tree, Under;
    forall c | c in Children(recs, live, t) ensures Under(recs, live, root, c) && c !in visited + pending {
      NewChild(recs, live, nextId, root, visited, pending, t, c);
    }
  }

  lemma NewChild(recs: map<nat, Record>, live: set<nat>, nextId: nat, root: nat, visited: set<nat>, pending: set<nat>,
                 t: nat, c: nat)
    requires Tree(recs, live, nextId) && Walk(recs, live, root, visited, pending) && t in pending
    requires c in Children(recs, live, t)
    ensures Under(recs, live, root, c) && c !in visited + pending
  {
    UnderIsLarger(recs, live, root, t);
  }

  lemma {:induction false} ClosedSetHoldsSubtree(recs: map<nat, Record>, live: set<nat>, root: nat, closed: set<nat>,
                                                 t: nat)
    requires root in closed
    requires forall c :: c in live && c in recs && recs[c].parent in closed ==> c in closed
    ensures Under(recs, live, root, t) ==> t in closed
  {
    if t != root && Under(recs, live, root, t) {
      ClosedSetHoldsSubtree(recs, live, root, closed, recs[t].parent);
    }
  }

  lemma WalkEnds(recs: map<nat, Record>, live: set<nat>, root: nat, visited: set<nat>, queue: seq<nat>,
                 pending: set<nat>)
    requires Walk(recs, live, root, visited, pending) && Lists(queue, pending) && queue == [] && visited <= live
    ensures visited == Subtree(recs, live, root)
  {
    assert pending == {};
    forall t | t in live && Under(recs, live, root, t) ensures t in visited {
      ClosedSetHoldsSubtree(recs, live, root, visited, t);
    }
  }

  lemma {:induction false} NotUnderMissing(recs: map<nat, Record>, live: set<nat>, root: nat, t: nat)
    requires root !in live
    ensures !Under(recs, live, root, t)
  {
    if t in live && t in recs && recs[t].parent < t {
      NotUnderMissing(recs, live, root, recs[t].parent);
    }
  }

  lemma NothingUnder(recs: map<nat, Record>, live: set<nat>, root: nat)
    requires root !in live
    ensures Subtree(recs, live, root) == {}
  {
    forall t | t in live ensures !Under(recs, live, root, t) {
      NotUnderMissing(recs, live, root, t);
    }
  }

  /** Every record on the line up to an occurrence of `root` is in the table. */
  predicate LiveUpTo(line: seq<nat>, live: set<nat>, root: nat, k: nat) {
    k < |line| && line[k] == root && forall i :: 0 <= i <= k ==> line[i] in live
  }

  ghost predicate LiveTo(line: seq<nat>, live: set<nat>, root: nat) {
    exists k :: LiveUpTo(line, live, root, k)
  }

  lemma LineSteps(line: seq<nat>, live: set<nat>, root: nat)
    requires line != []
    ensures LiveTo(line, live, root) <==> line[0] in live && (line[0] == root || LiveTo(line[1..], live, root))
  {
    var rest := line[1..];
    if line[0] in live && line[0] == root {
      assert LiveUpTo(line, live, root, 0);
    }
    forall k: nat | line[0] in live ensures LiveUpTo(rest, live, root, k) <==> LiveUpTo(line, live, root, k + 1) {
      assert forall i :: 0 < i < |line| ==> line[i] == rest[i - 1];
      assert forall i :: 0 <= i < |rest| ==> rest[i] == line[i + 1];
    }
    forall k: nat | LiveUpTo(line, live, root, k)
      ensures line[0] in live && (k == 0 || LiveUpTo(rest, live, root, k - 1))
    {
    }
  }

  /** What Cancel reaches: a descendant is in the subtree exactly when no record between it and the root has left the
      table.  The child of a task that completed normally is out of reach of its grandparent. */
  lemma {:induction false} CancelReachesExactly(recs: map<nat, Record>, live: set<nat>, nextId: nat, root: nat, t: nat)
    requires Tree(recs, live, nextId)
    ensures t in Subtree(recs, live, root) <==> LiveTo(Line(recs, t), live, root)
  {
    if t in recs {
      CancelReachesExactly(recs, live, nextId, root, recs[t].parent);
      LineSteps(Line(recs, t), live, root);
      var line := Line(recs, t);
      assert line[0] == t && line[1..] == Line(recs, recs[t].parent);
      assert Under(recs, live, root, t) <==> t in live && (t == root || Under(recs, live, root, recs[t].parent));
    }
  }
}
