/** Dropping the whole tree below every short hidden root task of a recorded trace. */
module TraceFilter {
  datatype Kind = TaskStart | TaskEnd | RegionStart | RegionEnd | Other

  /** Task and region 0 stand for none. */
  datatype Event = Event(kind: Kind, ts: int, task: nat, parent: nat, region: nat, hidden: bool, name: string)

  // ---------- the specification ----------

  /** The start and the end recorded for each task, and the task of each region; the last event counts. */
  function Starts(events: seq<Event>): map<nat, Event> {
    if events == [] then map[]
    else
      var (m, e) := (Starts(events[..|events| - 1]), events[|events| - 1]);
      if e.kind == TaskStart then m[e.task := e] else m
  }

  function Ends(events: seq<Event>): map<nat, Event> {
    if events == [] then map[]
    else
      var (m, e) := (Ends(events[..|events| - 1]), events[|events| - 1]);
      if e.kind == TaskEnd then m[e.task := e] else m
  }

  function RegionTasks(events: seq<Event>): map<nat, nat> {
    if events == [] then map[]
    else
      var (m, e) := (RegionTasks(events[..|events| - 1]), events[|events| - 1]);
      if e.kind == RegionStart && e.task > 0 then m[e.region := e.task] else m
  }

  function Parents(starts: map<nat, Event>): map<nat, nat> {
    map t | t in starts :: starts[t].parent
  }

  predicate IsTop(parents: map<nat, nat>, t: nat) {
    t !in parents || parents[t] == 0
  }

  /** Each task on the path is followed by its parent. */
  ghost predicate Climbs(parents: map<nat, nat>, path: seq<nat>) {
    && path != []
    && forall i :: 0 <= i < |path| - 1 ==> !IsTop(parents, path[i]) && path[i + 1] == parents[path[i]]
  }

  /** Climbing from `t` ends at `root`; on a cycle of parents it ends nowhere. */
  ghost predicate HasRoot(parents: map<nat, nat>, t: nat, root: nat) {
    IsTop(parents, root) && exists path :: Climbs(parents, path) && path[0] == t && path[|path| - 1] == root
  }

  ghost predicate ShortHiddenRoot(starts: map<nat, Event>, ends: map<nat, Event>, threshold: int, t: nat) {
    && t in starts && starts[t].parent == 0 && starts[t].hidden
    && t in ends && ends[t].ts - starts[t].ts < threshold
  }

  /** The root counts for a task; task 0 only counts for itself. */
  ghost predicate Belongs(parents: map<nat, nat>, t: nat, root: nat) {
    HasRoot(parents, t, root) && (t == 0 ==> root == 0)
  }

  /** A started task below a short hidden root. */
  ghost predicate Doomed(events: seq<Event>, threshold: int, t: nat) {
    && t in Starts(events)
    && exists root :: Belongs(Parents(Starts(events)), t, root)
                      && ShortHiddenRoot(Starts(events), Ends(events), threshold, root)
  }

  /** The task of a region, or 0 if its start is not recorded. */
  function TaskOfRegion(events: seq<Event>, region: nat): nat {
    if region in RegionTasks(events) then RegionTasks(events)[region] else 0
  }

  /** An event goes with its task, and the end of a region with the task of the region's start. */
  ghost predicate Dropped(events: seq<Event>, threshold: int, e: Event) {
    Doomed(events, threshold, if e.kind == RegionEnd then TaskOfRegion(events, e.region) else e.task)
  }

  /** The events that are not dropped, in order. */
  ghost function Survivors(events: seq<Event>, all: seq<Event>, threshold: int): seq<Event> {
    if events == [] then []
    else
      Survivors(events[..|events| - 1], all, threshold)
      + if Dropped(all, threshold, events[|events| - 1]) then [] else [events[|events| - 1]]
  }

  // ---------- climbing ----------

  lemma TopIsItsRoot(parents: map<nat, nat>, t: nat, root: nat)
    requires IsTop(parents, t)
    ensures HasRoot(parents, t, root) <==> root == t
  {
    if root == t {
      assert Climbs(parents, [t]);
    }
  }

  /** A task that has a parent has the same root as its parent. */
  lemma ParentHasSameRoot(parents: map<nat, nat>, t: nat, root: nat)
    requires !IsTop(parents, t)
    ensures HasRoot(parents, t, root) <==> HasRoot(parents, parents[t], root)
  {
    if HasRoot(parents, t, root) {
      var path :| Climbs(parents, path) && path[0] == t && path[|path| - 1] == root;
      assert Climbs(parents, path[1..]);
    }
    if HasRoot(parents, parents[t], root) {
      var path :| Climbs(parents, path) && path[0] == parents[t] && path[|path| - 1] == root;
      assert Climbs(parents, [t] + path);
    }
  }

  lemma {:induction false} RootIsUnique(parents: map<nat, nat>, path: seq<nat>, other: nat)
    requires Climbs(parents, path) && IsTop(parents, path[|path| - 1]) && HasRoot(parents, path[0], other)
    ensures other == path[|path| - 1]
    decreases |path|
  {
    if |path| == 1 {
      TopIsItsRoot(parents, path[0], other);
    } else {
      ParentHasSameRoot(parents, path[0], other);
      assert Climbs(parents, path[1..]);
      RootIsUnique(parents, path[1..], other);
    }
  }

  /** A set of tasks closed under parents, none of them at the top, has no root. */
  lemma CycleHasNoRoot(parents: map<nat, nat>, cycle: set<nat>, t: nat, root: nat)
    requires t in cycle && forall x :: x in cycle ==> !IsTop(parents, x) && parents[x] in cycle
    ensures !HasRoot(parents, t, root)
  {
    if HasRoot(parents, t, root) {
      var path :| Climbs(parents, path) && path[0] == t && path[|path| - 1] == root;
      StaysIn(parents, cycle, path, |path| - 1);
    }
  }

  lemma {:induction false} StaysIn(parents: map<nat, nat>, cycle: set<nat>, path: seq<nat>, i: nat)
    requires Climbs(parents, path) && path[0] in cycle && i < |path|
    requires forall x :: x in cycle ==> !IsTop(parents, x) && parents[x] in cycle
    ensures path[i] in cycle
  {
    if i > 0 {
      StaysIn(parents, cycle, path, i - 1);
    }
  }

  /** The root above a task, found in one climb however the parents are linked; the task itself if there is none. */
  method FindTaskRoot(taskID: nat, parents: map<nat, nat>) returns (root: nat)
    ensures taskID == 0 ==> root == 0
    ensures taskID != 0 ==>
              HasRoot(parents, taskID, root) || (root == taskID && forall r :: !HasRoot(parents, taskID, r))
  {
    if taskID == 0 {
      return 0;
    }
    var seen: set<nat> := {};
    var cur := taskID;
    ghost var path := [taskID];
    while cur != 0
      invariant cur != 0 && Climbs(parents, path) && path[0] == taskID && path[|path| - 1] == cur
      invariant forall x :: x in seen ==> !IsTop(parents, x) && (parents[x] in seen || parents[x] == cur)
      invariant taskID in seen || taskID == cur
      invariant seen <= parents.Keys
      decreases |parents.Keys - seen|
    {
      if cur in seen {
        forall r ensures !HasRoot(parents, taskID, r) {
          CycleHasNoRoot(parents, seen, taskID, r);
        }
        break;
      }
      if cur !in parents || parents[cur] == 0 {
        return cur;
      }
      ghost var left := parents.Keys - seen;
      seen := seen + {cur};
      assert parents.Keys - seen == left - {cur};
      path := path + [parents[cur]];
      cur := parents[cur];
    }
    return taskID;
  }

  // ---------- the filter ----------

  method CollectMaps(events: seq<Event>)
    returns (starts: map<nat, Event>, ends: map<nat, Event>, parents: map<nat, nat>, regions: map<nat, nat>)
    ensures starts == Starts(events) && ends == Ends(events) && regions == RegionTasks(events)
    ensures parents == Parents(starts)
  {
    starts, ends, parents, regions := map[], map[], map[], map[];
    for i := 0 to |events|
      invariant starts == Starts(events[..i]) && ends == Ends(events[..i]) && regions == RegionTasks(events[..i])
      invariant parents == Parents(starts)
    {
      assert events[..i + 1][..i] == events[..i];
      var ev := events[i];
      match ev.kind {
        case TaskStart =>
          starts := starts[ev.task := ev];
          parents := parents[ev.task := ev.parent];
        case TaskEnd =>
          ends := ends[ev.task := ev];
        case RegionStart =>
          if ev.task > 0 {
            regions := regions[ev.region := ev.task];
          }
        case _ =>
      }
    }
    assert events[..|events|] == events;
  }

  method FindDropRoots(starts: map<nat, Event>, ends: map<nat, Event>, threshold: int) returns (roots: set<nat>)
    ensures forall t :: t in roots <==> ShortHiddenRoot(starts, ends, threshold, t)
  {
    roots := {};
    var todo := starts.Keys;
    while todo != {}
      invariant todo <= starts.Keys
      invariant forall t :: t in roots <==> t !in todo && ShortHiddenRoot(starts, ends, threshold, t)
      decreases |todo|
    {
      var t :| t in todo;
      todo := todo - {t};
      var start := starts[t];
      if start.parent == 0 && start.hidden && t in ends {
        if ends[t].ts - start.ts < threshold {
          roots := roots + {t};
        }
      }
    }
  }

  method FindDropTasks(events: seq<Event>, threshold: int, starts: map<nat, Event>, parents: map<nat, nat>,
                       roots: set<nat>) returns (dropTask: set<nat>)
    requires starts == Starts(events) && parents == Parents(starts)
    requires forall t :: t in roots <==> ShortHiddenRoot(starts, Ends(events), threshold, t)
    ensures forall t :: t in dropTask <==> Doomed(events, threshold, t)
  {
    dropTask := {};
    var todo := starts.Keys;
    while todo != {}
      invariant todo <= starts.Keys
      invariant forall t :: t in dropTask <==> t !in todo && Doomed(events, threshold, t)
      decreases |todo|
    {
      var t :| t in todo;
      todo := todo - {t};
      var root := FindTaskRoot(t, parents);
      RootDecides(events, threshold, t, root);
      if root in roots {
        dropTask := dropTask + {t};
      }
    }
  }

  lemma RootDecides(events: seq<Event>, threshold: int, t: nat, root: nat)
    requires t in Starts(events)
    requires t == 0 ==> root == 0
    requires var parents := Parents(Starts(events));
             t != 0 ==> HasRoot(parents, t, root) || (root == t && forall r :: !HasRoot(parents, t, r))
    ensures Doomed(events, threshold, t) <==> ShortHiddenRoot(Starts(events), Ends(events), threshold, root)
  {
    var parents := Parents(Starts(events));
    if t == 0 {
      if ShortHiddenRoot(Starts(events), Ends(events), threshold, 0) {
        TopIsItsRoot(parents, 0, 0);
      }
    } else if HasRoot(parents, t, root) {
      var path :| Climbs(parents, path) && path[0] == t && path[|path| - 1] == root;
      forall r | HasRoot(parents, t, r) ensures r == root {
        RootIsUnique(parents, path, r);
      }
    } else if ShortHiddenRoot(Starts(events), Ends(events), threshold, t) {
      TopIsItsRoot(parents, t, t);
    }
  }

  /** What is left is exactly the events that are not dropped, in order, and the number is that of the short hidden
      roots. */
  method DropShortHiddenRoots(events: seq<Event>, thresholdMS: real)
    returns (kept: seq<Event>, ghost roots: set<nat>, n: nat)
    ensures thresholdMS <= 0.0 ==> kept == events && n == 0
    ensures thresholdMS > 0.0 ==>
              var threshold := (thresholdMS * 1000000.0).Floor;
              && kept == Survivors(events, events, threshold)
              && n == |roots|
              && forall t :: t in roots <==> ShortHiddenRoot(Starts(events), Ends(events), threshold, t)
  {
    if thresholdMS <= 0.0 || events == [] {
      return events, {}, 0;
    }
    var threshold := (thresholdMS * 1000000.0).Floor;
    var starts, ends, parents, regionTask := CollectMaps(events);
    var dropRoots := FindDropRoots(starts, ends, threshold);
    roots := dropRoots;
    if |dropRoots| == 0 {
      NothingDropped(events, events, threshold);
      return events, roots, 0;
    }
    var dropTask := FindDropTasks(events, threshold, starts, parents, dropRoots);
    var filtered: seq<Event> := [];
    for i := 0 to |events|
      invariant filtered == Survivors(events[..i], events, threshold)
    {
      assert events[..i + 1][..i] == events[..i];
      var ev := events[i];
      match ev.kind {
        case RegionEnd =>
          var taskID := if ev.region in regionTask then regionTask[ev.region] else 0;
          if taskID in dropTask {
            continue;
          }
        case _ =>
          if ev.task in dropTask {
            continue;
          }
      }
      filtered := filtered + [ev];
    }
    assert events[..|events|] == events;
    return filtered, roots, |dropRoots|;
  }

  lemma {:induction false} NothingDropped(events: seq<Event>, all: seq<Event>, threshold: int)
    requires forall t :: !ShortHiddenRoot(Starts(all), Ends(all), threshold, t)
    ensures Survivors(events, all, threshold) == events
  {
    if events != [] {
      var last := events[|events| - 1];
      NothingDropped(events[..|events| - 1], all, threshold);
      NoRootNothingDropped(all, threshold, last);
      hide Dropped;
      assert events == events[..|events| - 1] + [last];
    }
  }

  lemma NoRootNothingDropped(all: seq<Event>, threshold: int, e: Event)
    requires forall t :: !ShortHiddenRoot(Starts(all), Ends(all), threshold, t)
    ensures !Dropped(all, threshold, e)
  {
    hide ShortHiddenRoot, Starts, Ends, Belongs;
  }

  // ---------- which roots are short ----------

  /** The last event of this kind for its task. */
  predicate LastOfTask(events: seq<Event>, i: nat, kind: Kind) {
    && i < |events| && events[i].kind == kind
    && forall k :: i < k < |events| && events[k].kind == kind ==> events[k].task != events[i].task
  }

  lemma {:induction false} LastStartCounts(events: seq<Event>, i: nat)
    requires LastOfTask(events, i, TaskStart)
    ensures events[i].task in Starts(events) && Starts(events)[events[i].task] == events[i]
  {
    var n := |events| - 1;
    if i < n {
      assert LastOfTask(events[..n], i, TaskStart);
      LastStartCounts(events[..n], i);
    }
  }

  lemma {:induction false} LastEndCounts(events: seq<Event>, j: nat)
    requires LastOfTask(events, j, TaskEnd)
    ensures events[j].task in Ends(events) && Ends(events)[events[j].task] == events[j]
  {
    var n := |events| - 1;
    if j < n {
      assert LastOfTask(events[..n], j, TaskEnd);
      LastEndCounts(events[..n], j);
    }
  }

  lemma {:induction false} NoEndNoEntry(events: seq<Event>, t: nat)
    requires forall k :: 0 <= k < |events| && events[k].kind == TaskEnd ==> events[k].task != t
    ensures t !in Ends(events)
  {
    if events != [] {
      NoEndNoEntry(events[..|events| - 1], t);
    }
  }

  /** A root task and everything that goes with it is dropped exactly when it is hidden, has an end, and took less than
      the threshold by at least a nanosecond: the part of the threshold below a nanosecond does not count. */
  lemma RootDroppedExactly(events: seq<Event>, thresholdMS: real, i: nat, e: Event)
    requires LastOfTask(events, i, TaskStart) && events[i].parent == 0
    requires e.kind != RegionEnd && e.task == events[i].task
    ensures var threshold := (thresholdMS * 1000000.0).Floor;
            && (forall j: nat :: LastOfTask(events, j, TaskEnd) && events[j].task == events[i].task ==>
                  (Dropped(events, threshold, e) <==>
                   events[i].hidden && (events[j].ts - events[i].ts + 1) as real <= thresholdMS * 1000000.0))
            && ((forall k :: 0 <= k < |events| && events[k].kind == TaskEnd ==> events[k].task != events[i].task) ==>
                  !Dropped(events, threshold, e))
  {
    hide Starts, Ends, Parents;
    var (t, threshold) := (events[i].task, (thresholdMS * 1000000.0).Floor);
    LastStartCounts(events, i);
    hide ShortHiddenRoot, Doomed;
    DroppedWithItsParent(events, threshold, t);
    forall j: nat | LastOfTask(events, j, TaskEnd) && events[j].task == t
      ensures ShortHiddenRoot(Starts(events), Ends(events), threshold, t) <==>
              events[i].hidden && (events[j].ts - events[i].ts + 1) as real <= thresholdMS * 1000000.0
    {
      LastEndCounts(events, j);
      ShortByThreshold(Starts(events), Ends(events), thresholdMS * 1000000.0, t);
    }
    if forall k :: 0 <= k < |events| && events[k].kind == TaskEnd ==> events[k].task != t {
      NoEndNoEntry(events, t);
      NotShortWithoutEnd(Starts(events), Ends(events), threshold, t);
    }
  }

  lemma ShortByThreshold(starts: map<nat, Event>, ends: map<nat, Event>, threshold: real, t: nat)
    requires t in starts && t in ends && starts[t].parent == 0
    ensures ShortHiddenRoot(starts, ends, threshold.Floor, t) <==>
            starts[t].hidden && (ends[t].ts - starts[t].ts + 1) as real <= threshold
  {
  }

  lemma NotShortWithoutEnd(starts: map<nat, Event>, ends: map<nat, Event>, threshold: int, t: nat)
    requires t !in ends
    ensures !ShortHiddenRoot(starts, ends, threshold, t)
  {
  }

  // ---------- whole trees ----------

  /** A task with a parent is dropped exactly when its parent is; a root exactly when it is short and hidden.  Task 0,
      which stands for none, is never dropped along with a parent. */
  lemma DroppedWithItsParent(events: seq<Event>, threshold: int, t: nat)
    requires t in Starts(events)
    ensures var p := Starts(events)[t].parent;
            if p != 0 then Doomed(events, threshold, t) <==> t != 0 && Doomed(events, threshold, p)
            else Doomed(events, threshold, t) <==> ShortHiddenRoot(Starts(events), Ends(events), threshold, t)
  {
    var starts := Starts(events);
    var (parents, p) := (Parents(starts), starts[t].parent);
    if p == 0 {
      forall root ensures HasRoot(parents, t, root) <==> root == t {
        TopIsItsRoot(parents, t, root);
      }
    } else {
      forall root ensures HasRoot(parents, t, root) <==> HasRoot(parents, p, root) {
        ParentHasSameRoot(parents, t, root);
      }
      if p !in starts {
        forall root ensures HasRoot(parents, p, root) <==> root == p {
          TopIsItsRoot(parents, p, root);
        }
      }
    }
  }

  /** No region id is started twice. */
  predicate UniqueRegions(events: seq<Event>) {
    forall i, j :: 0 <= i < j < |events| && events[i].kind == RegionStart && events[j].kind == RegionStart ==>
      events[i].region != events[j].region
  }

  lemma {:induction false} RegionTaskHasStart(events: seq<Event>, region: nat) returns (i: nat)
    requires region in RegionTasks(events)
    ensures i < |events| && events[i].kind == RegionStart && events[i].region == region
    ensures RegionTasks(events)[region] == events[i].task > 0
  {
    var n := |events| - 1;
    if events[n].kind == RegionStart && events[n].task > 0 && events[n].region == region {
      i := n;
    } else {
      i := RegionTaskHasStart(events[..n], region);
    }
  }

  lemma {:induction false} StartedRegionHasTask(events: seq<Event>, i: nat)
    requires i < |events| && events[i].kind == RegionStart && events[i].task > 0
    ensures events[i].region in RegionTasks(events)
  {
    var n := |events| - 1;
    if i < n {
      StartedRegionHasTask(events[..n], i);
    }
  }

  /** The start and the end of a region are both dropped or both kept. */
  lemma RegionEndsWithItsStart(events: seq<Event>, threshold: int, i: nat, j: nat)
    requires UniqueRegions(events) && i < |events| && j < |events|
    requires events[i].kind == RegionStart && events[j].kind == RegionEnd && events[i].region == events[j].region
    ensures Dropped(events, threshold, events[i]) <==> Dropped(events, threshold, events[j])
  {
    var region := events[i].region;
    if events[i].task > 0 {
      StartedRegionHasTask(events, i);
    }
    if region in RegionTasks(events) {
      var k := RegionTaskHasStart(events, region);
      assert k == i;
    }
  }
}
