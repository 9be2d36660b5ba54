/** The Slack bridge: draining the reply table in order, and ignoring repeated events. */
module SlackBridge {
  import opened Wrappers
  import opened GatewayState
  import GoStrings
  import P = GatewayProtocol

  const DEFAULT_POLL_LIMIT: nat := 100
  const MAX_POLL_LIMIT: nat := 500

  /** Outcome of one call that posts a message. */
  datatype PostResult = Posted | RateLimited | Refused

  datatype Delivery = Delivery(id: nat, channel: string, text: string)

  /** One tick of the loop: the poll fails, or sees a snapshot of the reply table. */
  datatype Tick = PollFailed | Polled(outbox: seq<OutboxRow>)

  /** The world as one bridge sees it; the calls for a row are told apart by tick and row id. */
  datatype World = World(
    ticks: nat -> Tick,
    resolve: string -> Option<string>,
    firstPost: (nat, nat) -> PostResult,
    interrupted: (nat, nat) -> bool,
    secondPost: (nat, nat) -> PostResult)

  /** A post goes through at once, or at the second try, which is made after a rate limit and an uninterrupted wait. */
  predicate Sends(w: World, tick: nat, id: nat) {
    || w.firstPost(tick, id) == Posted
    || (w.firstPost(tick, id) == RateLimited && !w.interrupted(tick, id) && w.secondPost(tick, id) == Posted)
  }

  /** The reply table only ever grows at its end (see GatewayProtocol.FinishedIsForever). */
  ghost predicate GrowingOutbox(w: World, outbox: seq<OutboxRow>) {
    forall k :: w.ticks(k).Polled? ==> w.ticks(k).outbox <= outbox
  }

  function PollLimit(limit: int): nat {
    if limit <= 0 then DEFAULT_POLL_LIMIT else if limit > MAX_POLL_LIMIT then MAX_POLL_LIMIT else limit
  }

  /** What should be posted for the rows with ids in (lo, hi]: the session's Slack-addressed replies, in id order. */
  function Due(outbox: seq<OutboxRow>, session: string, resolve: string -> Option<string>, lo: nat, hi: nat)
    : seq<Delivery>
  {
    if hi <= lo then []
    else
      Due(outbox, session, resolve, lo, hi - 1)
      + (if hi <= |outbox| && outbox[hi - 1].session == session && resolve(outbox[hi - 1].channel).Some?
         then [Delivery(hi, resolve(outbox[hi - 1].channel).value, outbox[hi - 1].text)] else [])
  }

  lemma {:induction false} NothingDueInGap(outbox: seq<OutboxRow>, session: string, resolve: string -> Option<string>,
                                           lo: nat, a: nat, b: nat)
    requires lo <= a <= b && forall id :: a < id <= b ==> !Wanted(outbox, session, a, id)
    ensures Due(outbox, session, resolve, lo, b) == Due(outbox, session, resolve, lo, a)
  {
    if a < b {
      NothingDueInGap(outbox, session, resolve, lo, a, b - 1);
      assert !Wanted(outbox, session, a, b);
    }
  }

  /** The number of the session's rows above lastId, from entry `from` of the table on. */
  function Left(outbox: seq<OutboxRow>, session: string, lastId: nat, from: nat): nat
    decreases |outbox| - from
  {
    if from >= |outbox| then 0
    else
      (if from + 1 > lastId && outbox[from].session == session then 1 else 0)
      + Left(outbox, session, lastId, from + 1)
  }

  /** What is left of `left` rows once `size` of them, or all, have been handled. */
  function Rest(left: nat, size: nat): nat {
    if left <= size then 0 else left - size
  }

  /** Every send of this tick works, at once or after a rate limit. */
  ghost predicate SendsAll(w: World, tick: nat) {
    forall id: nat ::
      || w.firstPost(tick, id) == Posted
      || (w.firstPost(tick, id) == RateLimited && !w.interrupted(tick, id) && w.secondPost(tick, id) == Posted)
  }

  /** From this tick on every poll succeeds and sees the same table, and every send works. */
  ghost predicate CalmFrom(w: World, calm: nat, outbox: seq<OutboxRow>) {
    forall k :: k >= calm ==> w.ticks(k) == Polled(outbox) && SendsAll(w, k)
  }

  /** Every Slack-addressed row of the session with an id in (lo, hi] has been posted, with its text and channel. */
  ghost predicate AllPosted(posts: seq<Delivery>, outbox: seq<OutboxRow>, session: string,
                            resolve: string -> Option<string>, lo: nat, hi: nat)
  {
    forall id :: lo < id <= hi && Wanted(outbox, session, lo, id) && resolve(outbox[id - 1].channel).Some? ==>
      Delivery(id, resolve(outbox[id - 1].channel).value, outbox[id - 1].text) in posts
  }

  class Bridge {
    const session: string
    const limit: int
    var lastId: nat
    var posts: seq<Delivery>

    constructor (session: string, limit: int, initialLastId: nat)
      ensures this.session == session && this.limit == limit && lastId == initialLastId && posts == []
    {
      this.session, this.limit, this.lastId, this.posts := session, limit, initialLastId, [];
    }

    ghost predicate Exact(outbox: seq<OutboxRow>, w: World, start: nat)
      reads this
    {
      start <= lastId && posts == Due(outbox, session, w.resolve, start, lastId)
    }

    method SendWithRetry(w: World, tick: nat, id: nat) returns (ok: bool)
      ensures ok == Sends(w, tick, id)
      ensures ok <==> match w.firstPost(tick, id)
                      case Posted => true
                      case RateLimited => !w.interrupted(tick, id) && w.secondPost(tick, id).Posted?
                      case Refused => false
    {
      var result := w.firstPost(tick, id);
      if result == Posted {
        return true;
      }
      if result != RateLimited {
        return false;
      }
      if w.interrupted(tick, id) {
        return false;
      }
      result := w.secondPost(tick, id);
      return result == Posted;
    }

    /** Work through one poll; a failed send ends the batch and the row is polled again at the next tick. */
    method DeliverBatch(w: World, tick: nat, polled: seq<OutboxRow>, ghost outbox: seq<OutboxRow>, ghost start: nat)
      requires Exact(outbox, w, start) && polled <= outbox
      modifies this`lastId, this`posts
      ensures Exact(outbox, w, start) && lastId >= old(lastId)
      ensures var ids := OutboxSinceFrom(polled, session, old(lastId), PollLimit(limit), 0);
              exists n :: Delivered(w, tick, polled, ids, n) && lastId == Passed(ids, n, old(lastId))
      ensures SendsAll(w, tick) ==>
                var (before, after) := (Left(polled, session, old(lastId), 0), Left(polled, session, lastId, 0));
                && (1 <= limit <= 500 ==> after == Rest(before, limit))
                && (limit <= 0 ==> after == Rest(before, 100))
                && (limit > 500 ==> after == Rest(before, 500))
    {
      hide OutboxSinceFrom, ExactPoll, Due, Sends, Left, SendsAll;
      var ids := OutboxSinceFrom(polled, session, lastId, PollLimit(limit), 0);
      PollIsExact(polled, session, lastId, PollLimit(limit), 0);
      ghost var first := lastId;
      var k := 0;
      while k < |ids|
        invariant k <= |ids| && Exact(outbox, w, start) && lastId == Passed(ids, k, first) >= first
        invariant ProcessedUpTo(w, tick, polled, ids, k)
      {
        var id := ids[k];
        NothingDueBefore(outbox, polled, session, w.resolve, start, first, PollLimit(limit), ids, k);
        var row := polled[id - 1];
        var channel := w.resolve(row.channel);
        DueUnrolls(outbox, session, w.resolve, start, id);
        if channel.None? {
          lastId := id;
        } else {
          var ok := SendWithRetry(w, tick, id);
          if !ok {
            assert Delivered(w, tick, polled, ids, k);
            SendsAllSends(w, tick, id);
            return;
          }
          posts := posts + [Delivery(id, channel.value, row.text)];
          lastId := id;
        }
        k := k + 1;
      }
      assert Delivered(w, tick, polled, ids, k);
      FullBatch(polled, session, first, PollLimit(limit));
    }

    /** `ticks` rounds of the loop, until the context is cancelled.  Once polls and sends work and the table no longer
        grows, it takes at most one tick for each row that was left to post everything. */
    method RunOutboxLoop(w: World, ticks: nat, ghost outbox: seq<OutboxRow>, ghost calm: nat)
      requires GrowingOutbox(w, outbox) && posts == []
      modifies this`lastId, this`posts
      ensures posts == Due(outbox, session, w.resolve, old(lastId), lastId)
      ensures lastId >= old(lastId)
      ensures AllPosted(posts, outbox, session, w.resolve, old(lastId), lastId)
      ensures CalmFrom(w, calm, outbox) && ticks >= calm + Left(outbox, session, old(lastId), 0) ==>
                && (forall id: nat :: !Wanted(outbox, session, lastId, id))
                && AllPosted(posts, outbox, session, w.resolve, old(lastId), |outbox|)
    {
      hide Left, Due, SendsAll;
      ghost var (start, left) := (lastId, Left(outbox, session, lastId, 0));
      NothingDueYet(outbox, session, w.resolve, start);
      for k := 0 to ticks
        invariant Exact(outbox, w, start)
        invariant Left(outbox, session, lastId, 0) <= left
        invariant CalmFrom(w, calm, outbox) && k >= calm ==>
                    Left(outbox, session, lastId, 0) <= Rest(left, k - calm)
      {
        var tick := w.ticks(k);
        ghost var before := lastId;
        if tick.Polled? {
          DeliverBatch(w, k, tick.outbox, outbox, start);
        }
        LeftShrinks(outbox, session, before, lastId, 0);
      }
      DueHasAll(outbox, session, w.resolve, start, lastId);
      if Left(outbox, session, lastId, 0) == 0 {
        NothingLeft(outbox, session, lastId, 0);
        NothingMoreToPost(posts, outbox, session, w.resolve, start, lastId);
      }
    }

    /** A bridge beside any run of the gateway, polling any of its states: whatever the pumps, their crashes, the poll
        failures and the send failures do, its posts answer different messages of its session, in the order in which
        those messages arrived, each on the channel its message named. */
    method RunBesideGateway(w: World, ticks: nat, ghost states: seq<P.Sys>, ghost steps: seq<P.Step>, ghost calm: nat)
      requires P.IsRun(states, steps) && PollsRun(w, states) && posts == []
      modifies this`lastId, this`posts
      ensures posts == Due(states[|steps|].db.outbox, session, w.resolve, old(lastId), lastId)
      ensures AnswersInOrder(posts, states[|steps|].db, session, w.resolve)
      ensures var outbox := states[|steps|].db.outbox;
              CalmFrom(w, calm, outbox) && ticks >= calm + Left(outbox, session, old(lastId), 0) ==>
                AllPosted(posts, outbox, session, w.resolve, old(lastId), |outbox|)
    {
      PollsGrow(w, states, steps);
      ghost var t := states[|steps|].db;
      RunOutboxLoop(w, ticks, t.outbox, calm);
      DueFollowsArrival(states, steps, session, w.resolve, old(lastId), lastId);
    }
  }

  lemma SendsAllSends(w: World, tick: nat, id: nat)
    ensures SendsAll(w, tick) ==> Sends(w, tick, id)
  {
  }

  lemma {:induction false} LeftShrinks(outbox: seq<OutboxRow>, session: string, a: nat, b: nat, from: nat)
    requires a <= b
    ensures Left(outbox, session, b, from) <= Left(outbox, session, a, from)
    ensures b <= from ==> Left(outbox, session, b, from) == Left(outbox, session, a, from)
    decreases |outbox| - from
  {
    if from < |outbox| {
      LeftShrinks(outbox, session, a, b, from + 1);
    }
  }

  lemma {:induction false} NothingLeft(outbox: seq<OutboxRow>, session: string, lastId: nat, from: nat)
    requires Left(outbox, session, lastId, from) == 0
    ensures forall id :: from < id ==> !Wanted(outbox, session, lastId, id)
    decreases |outbox| - from
  {
    if from < |outbox| {
      NothingLeft(outbox, session, lastId, from + 1);
    }
  }

  lemma NothingDueYet(outbox: seq<OutboxRow>, session: string, resolve: string -> Option<string>, lo: nat)
    ensures Due(outbox, session, resolve, lo, lo) == []
  {
  }

  lemma NothingMoreToPost(posts: seq<Delivery>, outbox: seq<OutboxRow>, session: string,
                          resolve: string -> Option<string>, lo: nat, hi: nat)
    requires AllPosted(posts, outbox, session, resolve, lo, hi) && lo <= hi
    requires forall id :: 0 < id ==> !Wanted(outbox, session, hi, id)
    ensures AllPosted(posts, outbox, session, resolve, lo, |outbox|)
    ensures forall id: nat :: !Wanted(outbox, session, hi, id)
  {
    forall id | lo < id <= |outbox| && Wanted(outbox, session, lo, id) && resolve(outbox[id - 1].channel).Some?
      ensures Delivery(id, resolve(outbox[id - 1].channel).value, outbox[id - 1].text) in posts
    {
      assert !Wanted(outbox, session, hi, id);
    }
  }

  /** A poll returns as many rows as there are, up to its limit, and what comes after its last one is what is left. */
  lemma {:induction false} PollCounts(outbox: seq<OutboxRow>, session: string, lastId: nat, limit: nat, from: nat)
    ensures var r := OutboxSinceFrom(outbox, session, lastId, limit, from);
            var left := Left(outbox, session, lastId, from);
            && |r| == (if left <= limit then left else limit)
            && (r != [] ==>
                  r[|r| - 1] > from && Left(outbox, session, r[|r| - 1], from) == Rest(left, limit))
    decreases |outbox| - from
  {
    if from < |outbox| && limit > 0 {
      if from + 1 > lastId && outbox[from].session == session {
        PollCounts(outbox, session, lastId, limit - 1, from + 1);
        LeftShrinks(outbox, session, lastId, from + 1, from + 1);
      } else {
        PollCounts(outbox, session, lastId, limit, from + 1);
      }
    }
  }

  lemma FullBatch(polled: seq<OutboxRow>, session: string, first: nat, limit: nat)
    requires limit > 0
    ensures var ids := OutboxSinceFrom(polled, session, first, limit, 0);
            Left(polled, session, Passed(ids, |ids|, first), 0) == Rest(Left(polled, session, first, 0), limit)
  {
    PollCounts(polled, session, first, limit, 0);
  }

  lemma {:induction false} DueHasAll(outbox: seq<OutboxRow>, session: string, resolve: string -> Option<string>,
                                     lo: nat, hi: nat)
    ensures AllPosted(Due(outbox, session, resolve, lo, hi), outbox, session, resolve, lo, hi)
  {
    if hi > lo {
      DueHasAll(outbox, session, resolve, lo, hi - 1);
    }
  }

  /** A row needs no more attention: it is not for Slack, or its post went through. */
  predicate Handled(w: World, tick: nat, polled: seq<OutboxRow>, id: nat) {
    1 <= id <= |polled| ==> w.resolve(polled[id - 1].channel).None? || Sends(w, tick, id)
  }

  ghost predicate ProcessedUpTo(w: World, tick: nat, polled: seq<OutboxRow>, ids: seq<nat>, n: nat) {
    n <= |ids| && forall k :: 0 <= k < n ==> Handled(w, tick, polled, ids[k])
  }

  /** The batch has handled its first n rows and then stopped, at the end or at the first failed send. */
  ghost predicate Delivered(w: World, tick: nat, polled: seq<OutboxRow>, ids: seq<nat>, n: nat) {
    ProcessedUpTo(w, tick, polled, ids, n) && (n < |ids| ==> !Handled(w, tick, polled, ids[n]))
  }

  function Passed(ids: seq<nat>, n: nat, first: nat): nat {
    if n == 0 || n > |ids| then first else ids[n - 1]
  }

  /** If every send works, the poll is used up: lastID is its last id, and unless it was cut off by its limit nothing of
      the session is left. */
  lemma GoodBatchUsesUpThePoll(w: World, tick: nat, polled: seq<OutboxRow>, session: string, first: nat, limit: nat,
                               n: nat)
    requires var ids := OutboxSinceFrom(polled, session, first, limit, 0);
             Delivered(w, tick, polled, ids, n) && forall id :: id in ids ==> Sends(w, tick, id)
    ensures var ids := OutboxSinceFrom(polled, session, first, limit, 0);
            && n == |ids|
            && (|ids| < limit ==>
                  forall id: nat :: Wanted(polled, session, first, id) ==> id <= Passed(ids, n, first))
  {
    hide OutboxSinceFrom, Wanted, Sends;
    PollIsExact(polled, session, first, limit, 0);
    var ids := OutboxSinceFrom(polled, session, first, limit, 0);
    assert forall k :: 0 <= k < |ids| ==> ids[k] in ids;
    forall id: nat | |ids| < limit && Wanted(polled, session, first, id) ensures id <= Passed(ids, n, first) {
      WantedIsPositive(polled, session, first, id);
      assert Covers(ids, limit, id) && id in ids;
    }
  }

  lemma WantedIsPositive(polled: seq<OutboxRow>, session: string, first: nat, id: nat)
    requires Wanted(polled, session, first, id)
    ensures id > 0
  {
  }

  lemma DueUnrolls(outbox: seq<OutboxRow>, session: string, resolve: string -> Option<string>, lo: nat, id: nat)
    requires lo < id <= |outbox| && outbox[id - 1].session == session
    ensures Due(outbox, session, resolve, lo, id) ==
            Due(outbox, session, resolve, lo, id - 1)
            + (if resolve(outbox[id - 1].channel).Some?
               then [Delivery(id, resolve(outbox[id - 1].channel).value, outbox[id - 1].text)] else [])
  {
  }

  lemma NothingDueBefore(outbox: seq<OutboxRow>, polled: seq<OutboxRow>, session: string,
                         resolve: string -> Option<string>, start: nat, first: nat, limit: nat, ids: seq<nat>, k: nat)
    requires polled <= outbox && ExactPoll(polled, session, first, limit, 0, ids) && k < |ids| && start <= first
    ensures 1 <= ids[k] <= |polled| && polled[ids[k] - 1] == outbox[ids[k] - 1]
            && outbox[ids[k] - 1].session == session
    ensures var last := if k == 0 then first else ids[k - 1];
            last < ids[k]
            && Due(outbox, session, resolve, start, ids[k] - 1) == Due(outbox, session, resolve, start, last)
  {
    var last := if k == 0 then first else ids[k - 1];
    assert Wanted(polled, session, first, ids[k]);
    forall gap | last < gap <= ids[k] - 1 ensures !Wanted(outbox, session, last, gap) {
      assert Covers(ids, limit, gap);
    }
    NothingDueInGap(outbox, session, resolve, start, last, ids[k] - 1);
  }

  // ---------- end to end ----------

  /** The row a delivery came from. */
  predicate ComesFrom(d: Delivery, outbox: seq<OutboxRow>, session: string, resolve: string -> Option<string>,
                      lo: nat, hi: nat)
  {
    && lo < d.id <= hi && d.id <= |outbox|
    && outbox[d.id - 1].session == session && outbox[d.id - 1].text == d.text
    && resolve(outbox[d.id - 1].channel) == Some(d.channel)
  }

  ghost predicate InOrder(posts: seq<Delivery>, outbox: seq<OutboxRow>, session: string,
                          resolve: string -> Option<string>, lo: nat, hi: nat)
  {
    && (forall k :: 0 <= k < |posts| ==> ComesFrom(posts[k], outbox, session, resolve, lo, hi))
    && (forall k, l :: 0 <= k < l < |posts| ==> posts[k].id < posts[l].id)
  }

  lemma {:induction false} DueIsInOrder(outbox: seq<OutboxRow>, session: string, resolve: string -> Option<string>,
                                        lo: nat, hi: nat)
    ensures InOrder(Due(outbox, session, resolve, lo, hi), outbox, session, resolve, lo, hi)
  {
    if hi > lo {
      DueIsInOrder(outbox, session, resolve, lo, hi - 1);
      assert forall d :: ComesFrom(d, outbox, session, resolve, lo, hi - 1) ==>
                           ComesFrom(d, outbox, session, resolve, lo, hi);
    }
  }

  /** Every successful poll sees the reply table of some state of the run. */
  ghost predicate PollsRun(w: World, states: seq<P.Sys>) {
    forall k :: w.ticks(k).Polled? ==> exists m :: 0 <= m < |states| && w.ticks(k).outbox == states[m].db.outbox
  }

  lemma PollsGrow(w: World, states: seq<P.Sys>, steps: seq<P.Step>)
    requires P.IsRun(states, steps) && PollsRun(w, states)
    ensures GrowingOutbox(w, states[|steps|].db.outbox)
  {
    hide P.Apply;
    forall k | w.ticks(k).Polled? ensures w.ticks(k).outbox <= states[|steps|].db.outbox {
      var m :| 0 <= m < |states| && w.ticks(k).outbox == states[m].db.outbox;
      P.FinishedIsForever(states, steps, m, |steps|);
    }
  }

  /** Each post answers a message of the session, with its reply's text and on the message's channel, and later posts
      answer later messages. */
  ghost predicate AnswersInOrder(posts: seq<Delivery>, t: Tables, session: string, resolve: string -> Option<string>) {
    && (forall k :: 0 <= k < |posts| ==> Answers(posts[k], t, session, resolve))
    && (forall k, l :: 0 <= k < l < |posts| ==> MessageOf(posts[k], t) < MessageOf(posts[l], t))
  }

  function MessageOf(d: Delivery, t: Tables): nat {
    if 1 <= d.id <= |t.outbox| then t.outbox[d.id - 1].inReplyTo else 0
  }

  ghost predicate Answers(d: Delivery, t: Tables, session: string, resolve: string -> Option<string>) {
    && 1 <= d.id <= |t.outbox| && d.text == t.outbox[d.id - 1].text
    && t.Has(MessageOf(d, t)) && t.Row(MessageOf(d, t)).session == session
    && resolve(t.Row(MessageOf(d, t)).channel) == Some(d.channel)
  }

  lemma DueFollowsArrival(states: seq<P.Sys>, steps: seq<P.Step>, session: string, resolve: string -> Option<string>,
                          lo: nat, hi: nat)
    requires P.IsRun(states, steps)
    ensures var t := states[|steps|].db;
            AnswersInOrder(Due(t.outbox, session, resolve, lo, hi), t, session, resolve)
  {
    hide P.Apply, Due;
    var t := states[|steps|].db;
    var posts := Due(t.outbox, session, resolve, lo, hi);
    DueIsInOrder(t.outbox, session, resolve, lo, hi);
    forall k | 0 <= k < |posts| ensures Answers(posts[k], t, session, resolve) {
      assert ComesFrom(posts[k], t.outbox, session, resolve, lo, hi);
      P.RepliesGoHome(states, steps, |steps|, posts[k].id - 1);
    }
    forall k, l | 0 <= k < l < |posts| ensures MessageOf(posts[k], t) < MessageOf(posts[l], t) {
      assert ComesFrom(posts[k], t.outbox, session, resolve, lo, hi);
      assert ComesFrom(posts[l], t.outbox, session, resolve, lo, hi);
      P.RepliesFollowArrival(states, steps, |steps|, posts[k].id - 1, posts[l].id - 1);
    }
  }

  // ---------- repeated events ----------

  const DAY: int := 24 * 3600 * 1_000_000_000

  /** Remembers event keys for a day.  Calls read the clock before they take the lock, so their readings may come out of
      order; `clock` is the latest one so far. */
  class Dedupe {
    var seen: map<string, int>
    ghost var accepted: map<string, int>
    ghost var clock: int

    ghost predicate Valid()
      reads this
    {
      && (forall key :: key in seen ==> key in accepted && accepted[key] == seen[key])
      && (forall key :: key in accepted && accepted[key] >= clock - DAY ==> key in seen)
    }

    /** Accepted less than a day ago, by this call's clock and by the latest one. */
    static ghost predicate Remembered(key: string, accepted: map<string, int>, clock: int, now: int) {
      key != "" && key in accepted && accepted[key] > now - DAY && accepted[key] >= clock - DAY
    }

    static function Unexpired(seen: map<string, int>, cutoff: int): map<string, int> {
      map k | k in seen && seen[k] >= cutoff :: seen[k]
    }

    constructor (now: int)
      ensures Valid() && accepted == map[] && clock == now
    {
      seen, accepted, clock := map[], map[], now;
    }

    /** A duplicate was last accepted less than a day ago; the other way round that holds exactly unless a call with a
        later clock has purged the key in between, which takes a reading that is a day later. */
    method IsDuplicate(rawKey: string, now: int) returns (duplicate: bool)
      requires Valid()
      modifies this
      ensures Valid() && clock == if now > old(clock) then now else old(clock)
      ensures var key := GoStrings.TrimSpace(rawKey);
              && duplicate == (key != "" && key in old(seen) && old(seen)[key] > now - DAY)
              && seen == (if key == "" || duplicate then old(seen) else Unexpired(old(seen)[key := now], now - DAY))
      ensures var key := GoStrings.TrimSpace(rawKey);
              && (duplicate ==> key != "" && key in old(accepted) && old(accepted)[key] > now - DAY)
              && (Remembered(key, old(accepted), old(clock), now) ==> duplicate)
              && accepted == (if key == "" || duplicate then old(accepted) else old(accepted)[key := now])
    {
      var key := GoStrings.TrimSpace(rawKey);
      clock := if now > clock then now else clock;
      if key == "" {
        return false;
      }
      var cutoff := now - DAY;
      if key in seen && seen[key] > cutoff {
        return true;
      }
      seen := seen[key := now];
      accepted := accepted[key := now];
      Purge(cutoff);
      return false;
    }

    /** Forget what is older than the cutoff. */
    method Purge(cutoff: int)
      modifies this`seen
      ensures seen == Unexpired(old(seen), cutoff)
    {
      var todo := seen.Keys;
      while todo != {}
        invariant todo <= seen.Keys <= old(seen).Keys
        invariant forall k :: k in seen ==> seen[k] == old(seen)[k]
        invariant forall k :: k in old(seen) && k !in todo ==> (k in seen <==> old(seen)[k] >= cutoff)
        decreases |todo|
      {
        var k :| k in todo;
        todo := todo - {k};
        if seen[k] < cutoff {
          seen := seen - {k};
        }
      }
    }
  }
}
