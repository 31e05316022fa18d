/** The feed queue: entries are unique, kept in the order of their IDs, and leave only when they are
    completed, flushed, or lose their article; leases keep two workers from holding the same entry. */
module StoreFeed {
  import opened StoreState
  import opened StoreInvariant

  // ----- The invariant of the queue -----

  lemma QueueSetKeeps(s: State, queue: seq<FeedItem>, nextID: int)
    requires Inv(s) && QueueOk(queue, nextID)
    ensures Inv(s.(queue := queue, nextFeedID := nextID))
  {
    hide QueueOk, GroupOk;
    var s' := s.(queue := queue, nextFeedID := nextID);
    assert forall i, g, n :: Indexed(s', i, g, n) == Indexed(s, i, g, n) && Files(s', i, g, n) == Files(s, i, g, n);
  }

  /** Offering an article to a peer that has it queued changes nothing; otherwise one entry is added behind. */
  lemma EnqueueKeeps(s: State, peer: int, id: string, now: Time)
    requires Inv(s)
    ensures Inv(Enqueue(s, peer, id, now))
    ensures Queued(Enqueue(s, peer, id, now).queue, peer, id)
    ensures s.queue <= Enqueue(s, peer, id, now).queue
  {
    hide TablesOk, ArtsOk;
    var s' := Enqueue(s, peer, id, now);
    if !Queued(s.queue, peer, id) {
      QueueSetKeeps(s, s'.queue, s'.nextFeedID);
      assert s'.queue[|s.queue|].peer == peer;
    }
  }

  /** The entries keep their places: claiming and failing change only attempts, times and errors. */
  ghost predicate SameEntries(a: seq<FeedItem>, b: seq<FeedItem>) {
    |a| == |b| && forall i | 0 <= i < |a| ::
      a[i].id == b[i].id && a[i].peer == b[i].peer && a[i].msgid == b[i].msgid && a[i].createdAt == b[i].createdAt
      && a[i].attempts <= b[i].attempts
  }

  lemma SameEntriesOk(a: seq<FeedItem>, b: seq<FeedItem>, nextID: int)
    requires QueueOk(a, nextID) && SameEntries(a, b)
    ensures QueueOk(b, nextID)
  {
  }

  lemma {:induction false} ClaimSame(queue: seq<FeedItem>, limit: int, now: Time)
    ensures SameEntries(queue, ClaimItems(queue, limit, now).0)
  {
    if queue != [] && limit > 0 {
      ClaimSame(queue[1..], limit, now);
      ClaimSame(queue[1..], limit - 1, now);
    }
  }

  lemma {:induction false} FailSame(queue: seq<FeedItem>, id: int, err: string, next: Time)
    ensures SameEntries(queue, FailItem(queue, id, err, next))
  {
    if queue != [] && queue[0].id != id {
      FailSame(queue[1..], id, err, next);
    }
  }

  /** The entries that stay when some are taken out. */
  ghost predicate Part(part: seq<FeedItem>, queue: seq<FeedItem>) {
    forall it | it in part :: it in queue
  }

  lemma {:induction false} WithoutItemKeeps(queue: seq<FeedItem>, id: int, nextID: int)
    requires QueueOk(queue, nextID)
    ensures QueueOk(WithoutItem(queue, id), nextID)
    ensures forall it :: it in WithoutItem(queue, id) <==> it in queue && it.id != id
  {
    hide QueueOk;
    if queue != [] {
      QueueTail(queue, nextID);
      WithoutItemKeeps(queue[1..], id, nextID);
      assert queue == [queue[0]] + queue[1..];
      var rest := WithoutItem(queue[1..], id);
      QueueCons(queue[0], queue[1..], rest, nextID);
      assert [] + rest == rest;
    } else {
      assert WithoutItem(queue, id) == queue;
    }
  }

  lemma {:induction false} FlushItemsKeeps(queue: seq<FeedItem>, peer: int, nextID: int)
    requires QueueOk(queue, nextID)
    ensures QueueOk(FlushItems(queue, peer), nextID)
    ensures forall it :: it in FlushItems(queue, peer) <==> it in queue && peer > 0 && it.peer != peer
  {
    hide QueueOk;
    if queue != [] {
      QueueTail(queue, nextID);
      FlushItemsKeeps(queue[1..], peer, nextID);
      assert queue == [queue[0]] + queue[1..];
      var rest := FlushItems(queue[1..], peer);
      QueueCons(queue[0], queue[1..], rest, nextID);
      assert [] + rest == rest;
    } else {
      assert FlushItems(queue, peer) == queue;
    }
  }

  /** Every queue operation keeps the invariant. */
  lemma QueueStepsKeep(s: State, limit: int, id: int, err: string, retryAfter: int, peer: int, now: Time)
    requires Inv(s)
    ensures Inv(Claim(s, limit, now).0)
    ensures Inv(Complete(s, id))
    ensures Inv(Fail(s, id, err, retryAfter, now))
    ensures Inv(Flush(s, peer).0)
  {
    hide TablesOk, ArtsOk, QueueOk, ClaimItems, FailItem, WithoutItem, FlushItems;
    ClaimSame(s.queue, ClaimLimit(limit), now);
    SameEntriesOk(s.queue, Claim(s, limit, now).0.queue, s.nextFeedID);
    QueueSetKeeps(s, Claim(s, limit, now).0.queue, s.nextFeedID);
    WithoutItemKeeps(s.queue, id, s.nextFeedID);
    QueueSetKeeps(s, Complete(s, id).queue, s.nextFeedID);
    var next := now + if retryAfter <= 0 then 2 * MINUTE else retryAfter;
    FailSame(s.queue, id, err, next);
    SameEntriesOk(s.queue, FailItem(s.queue, id, err, next), s.nextFeedID);
    QueueSetKeeps(s, FailItem(s.queue, id, err, next), s.nextFeedID);
    FlushItemsKeeps(s.queue, peer, s.nextFeedID);
    QueueSetKeeps(s, FlushItems(s.queue, peer), s.nextFeedID);
  }

  // ----- What a claim takes -----

  lemma {:induction false} ClaimEffect(queue: seq<FeedItem>, limit: int, now: Time)
    ensures var (after, out) := ClaimItems(queue, limit, now);
            && |after| == |queue|
            && (forall i | 0 <= i < |queue| ::
                  (after[i] == queue[i] && (Due(queue[i], now) ==> |out| >= limit))
                  || (Due(queue[i], now) && after[i] == Leased(queue[i], now) && after[i] in out))
            && (forall it | it in out :: exists i | 0 <= i < |queue| :: Due(queue[i], now) && it == Leased(queue[i], now) && after[i] == it)
            && (limit >= 0 ==> |out| <= limit)
  {
    if queue != [] && limit > 0 {
      var due := Due(queue[0], now);
      var k := if due then limit - 1 else limit;
      ClaimEffect(queue[1..], k, now);
      var (after, out) := ClaimItems(queue[1..], k, now);
      var (after', out') := ClaimItems(queue, limit, now);
      forall it | it in out'
        ensures exists i | 0 <= i < |queue| :: Due(queue[i], now) && it == Leased(queue[i], now) && after'[i] == it
      {
        if it in out {
          var i :| 0 <= i < |queue[1..]| && Due(queue[1..][i], now) && it == Leased(queue[1..][i], now) && after[i] == it;
          assert queue[i + 1] == queue[1..][i] && after'[i + 1] == after[i];
        } else {
          assert after'[0] == it;
        }
      }
    }
  }

  // ----- Retry delays -----

  /** The program's delay after a failure. */
  function RetryBackoff(attempts: int): int {
    var d := attempts * MINUTE;
    var d := if d < MINUTE / 2 then MINUTE / 2 else d;
    if d > 30 * MINUTE then 30 * MINUTE else d
  }

  /** A claimed entry has been tried at least once, so the delay is as many minutes as attempts, at most thirty;
      it never shrinks from one attempt to the next. */
  lemma BackoffMinutes(attempts: int)
    requires attempts >= 1
    ensures RetryBackoff(attempts) == (if attempts <= 30 then attempts else 30) * 60_000_000_000
    ensures RetryBackoff(attempts) <= RetryBackoff(attempts + 1)
    ensures RetryBackoff(attempts) > 0
  {
  }

  // ----- Workers -----

  /** An entry that a worker has claimed and is delivering. */
  datatype Work = Work(worker: int, item: FeedItem, claimedAt: Time)

  datatype Feed = Feed(queue: seq<FeedItem>, nextID: int, now: Time, held: set<Work>)

  datatype FeedStep =
    | Tick(now: Time)
    | Offer(peer: int, msgid: string)
    | ClaimDue(worker: int, limit: int)
    | Settle(work: Work, delivered: bool)
    | FlushPeer(peer: int)
    | DropArticle(msgid: string)

  function Grab(worker: int, out: seq<FeedItem>, now: Time): set<Work> {
    set it | it in out :: Work(worker, it, now)
  }

  /** One step of the queue and its workers; a failed delivery waits for the retry delay of its attempts. */
  ghost predicate FeedNext(f: Feed, step: FeedStep, f': Feed) {
    match step
    case Tick(now) => now >= f.now && f' == f.(now := now)
    case Offer(peer, msgid) =>
      f' == if Queued(f.queue, peer, msgid) then f
            else f.(queue := f.queue + [FeedItem(f.nextID + 1, peer, msgid, 0, f.now, "", f.now)], nextID := f.nextID + 1)
    case ClaimDue(worker, limit) =>
      var (queue, out) := ClaimItems(f.queue, ClaimLimit(limit), f.now);
      f' == f.(queue := queue, held := f.held + Grab(worker, out, f.now))
    case Settle(work, delivered) =>
      && work in f.held
      && f' == f.(held := f.held - {work},
                  queue := if delivered then WithoutItem(f.queue, work.item.id)
                           else FailItem(f.queue, work.item.id, "error", f.now + RetryBackoff(work.item.attempts)))
    case FlushPeer(peer) => f' == f.(queue := FlushItems(f.queue, peer))
    case DropArticle(msgid) => f' == f.(queue := Unqueued(f.queue, msgid))
  }

  /** Every delivery in progress is within its lease. */
  ghost predicate InLease(f: Feed) {
    forall w | w in f.held :: f.now < w.claimedAt + LEASE
  }

  /** No entry has two holders, and no worker holds one twice. */
  ghost predicate OneHolder(f: Feed) {
    forall v, w | v in f.held && w in f.held && v.item.id == w.item.id :: v == w
  }

  /** A queued entry that is being delivered is leased until its claim's end. */
  ghost predicate HeldOk(f: Feed) {
    && (forall w | w in f.held :: 1 <= w.item.id <= f.nextID)
    && (forall w, i | w in f.held && 0 <= i < |f.queue| && f.queue[i].id == w.item.id ::
          f.queue[i].nextAttempt == w.claimedAt + LEASE)
    && OneHolder(f)
  }

  ghost predicate FeedInv(f: Feed) {
    QueueOk(f.queue, f.nextID) && HeldOk(f)
  }

  lemma UniqueID(queue: seq<FeedItem>, nextID: int, i: nat, j: nat)
    requires QueueOk(queue, nextID) && i < |queue| && j < |queue| && queue[i].id == queue[j].id
    ensures i == j
  {
  }

  /** How many of the first `i` entries are due. */
  function DueBefore(queue: seq<FeedItem>, i: nat, now: Time): nat
    requires i <= |queue|
  {
    if i == 0 then 0 else (if Due(queue[0], now) then 1 else 0) + DueBefore(queue[1..], i - 1, now)
  }

  /** A due entry is claimed exactly when fewer due entries than the limit stand in front of it. */
  lemma {:induction false} ClaimTakes(queue: seq<FeedItem>, limit: int, now: Time, i: nat)
    requires i < |queue| && Due(queue[i], now)
    ensures var (after, out) := ClaimItems(queue, limit, now);
            if DueBefore(queue, i, now) < limit then after[i] == Leased(queue[i], now) && after[i] in out
            else after[i] == queue[i]
  {
    if limit > 0 && i > 0 {
      ClaimTakes(queue[1..], if Due(queue[0], now) then limit - 1 else limit, now, i - 1);
    }
  }

  /** A delivery of entry `i` that outlasted its lease, where a claim up to the limit reaches. */
  ghost predicate Overrun(f: Feed, w: Work, i: nat, limit: int) {
    && w in f.held && i < |f.queue| && f.queue[i].id == w.item.id
    && f.now >= w.claimedAt + LEASE && DueBefore(f.queue, i, f.now) < limit
  }

  /** A claim that takes an entry away from a delivery in progress. */
  ghost predicate TakesOverrun(f: Feed, step: FeedStep) {
    step.ClaimDue? && exists w, i: nat :: Overrun(f, w, i, ClaimLimit(step.limit))
  }

  /** Entry `i` was due and within reach, and is now leased as `it`. */
  ghost predicate FreshClaim(f: Feed, queue: seq<FeedItem>, it: FeedItem, i: nat, limit: int) {
    && i < |queue| == |f.queue|
    && Due(f.queue[i], f.now) && it == Leased(f.queue[i], f.now) && queue[i] == it && DueBefore(f.queue, i, f.now) < limit
  }

  lemma ClaimedFresh(f: Feed, limit: int, it: FeedItem) returns (i: nat)
    requires it in ClaimItems(f.queue, limit, f.now).1
    ensures FreshClaim(f, ClaimItems(f.queue, limit, f.now).0, it, i, limit)
  {
    ClaimEffect(f.queue, limit, f.now);
    hide ClaimItems;
    var queue := ClaimItems(f.queue, limit, f.now).0;
    i :| 0 <= i < |f.queue| && Due(f.queue[i], f.now) && it == Leased(f.queue[i], f.now) && queue[i] == it;
    ClaimTakes(f.queue, limit, f.now, i);
  }

  /** A claim gives some entry two holders exactly when it takes an overrun entry that is still held: the lease
      alone keeps workers apart. */
  lemma OverrunIsClaimedTwice(f: Feed, worker: int, limit: int, f': Feed)
    requires FeedInv(f) && FeedNext(f, ClaimDue(worker, limit), f')
    ensures !OneHolder(f') <==> exists w, i: nat :: Overrun(f, w, i, ClaimLimit(limit))
    ensures OneHolder(f') ==> FeedInv(f')
  {
    hide QueueOk, SameEntries, ClaimItems, DueBefore;
    var n := ClaimLimit(limit);
    var (queue, out) := ClaimItems(f.queue, n, f.now);
    if w, i: nat :| Overrun(f, w, i, n) {
      ClaimTakes(f.queue, n, f.now, i);
      var u := Work(worker, queue[i], f.now);
      assert u in f'.held && w in f'.held && u != w && u.item.id == w.item.id;
    } else {
      ClaimSame(f.queue, n, f.now);
      SameEntriesOk(f.queue, queue, f.nextID);
      ClaimEffect(f.queue, n, f.now);
      forall it | it in out
        ensures exists i: nat :: FreshClaim(f, queue, it, i, n)
        ensures forall w | w in f.held :: w.item.id != it.id
      {
        var i := ClaimedFresh(f, n, it);
        forall w | w in f.held
          ensures w.item.id != it.id
        {
          assert !Overrun(f, w, i, n);
        }
      }
      ClaimedHeldOk(f, worker, n, queue, out, f');
    }
  }

  lemma ClaimedHeldOk(f: Feed, worker: int, limit: int, queue: seq<FeedItem>, out: seq<FeedItem>, f': Feed)
    requires FeedInv(f) && QueueOk(queue, f.nextID) && |queue| == |f.queue|
    requires f' == f.(queue := queue, held := f.held + Grab(worker, out, f.now))
    requires forall i | 0 <= i < |queue| ::
               queue[i] == f.queue[i] || (queue[i].id == f.queue[i].id && queue[i] in out)
    requires forall it | it in out :: exists i: nat :: FreshClaim(f, queue, it, i, limit)
    requires forall it, w | it in out && w in f.held :: w.item.id != it.id
    ensures HeldOk(f')
  {
    hide DueBefore;
    forall it | it in out
      ensures 1 <= it.id <= f.nextID && it.nextAttempt == f.now + LEASE
      ensures forall j | 0 <= j < |queue| && queue[j].id == it.id :: queue[j] == it
    {
      var i: nat :| FreshClaim(f, queue, it, i, limit);
      assert queue[i].id == it.id;
      forall j | 0 <= j < |queue| && queue[j].id == it.id
        ensures queue[j] == it
      {
        UniqueID(queue, f.nextID, i, j);
      }
    }
    forall w, i | w in f.held && 0 <= i < |queue| && queue[i].id == w.item.id
      ensures queue[i].nextAttempt == w.claimedAt + LEASE
    {
      assert f.queue[i].id == w.item.id;
    }
  }

  lemma {:induction false} FailItemAt(queue: seq<FeedItem>, id: int, err: string, next: Time)
    ensures |FailItem(queue, id, err, next)| == |queue|
    ensures forall i | 0 <= i < |queue| ::
              FailItem(queue, id, err, next)[i].id == queue[i].id
              && (queue[i].id != id ==> FailItem(queue, id, err, next)[i] == queue[i])
  {
    if queue != [] && queue[0].id != id {
      FailItemAt(queue[1..], id, err, next);
    }
  }

  /** Taking entries out keeps what is known about the held ones. */
  lemma PartHeldOk(f: Feed, queue: seq<FeedItem>, held: set<Work>)
    requires HeldOk(f) && Part(queue, f.queue) && held <= f.held
    ensures HeldOk(f.(queue := queue, held := held))
  {
    forall w, i | w in held && 0 <= i < |queue| && queue[i].id == w.item.id
      ensures queue[i].nextAttempt == w.claimedAt + LEASE
    {
      assert queue[i] in f.queue;
    }
  }

  lemma SettleKeeps(f: Feed, work: Work, delivered: bool, f': Feed)
    requires FeedInv(f) && FeedNext(f, Settle(work, delivered), f')
    ensures FeedInv(f')
  {
    hide QueueOk, SameEntries, WithoutItem, FailItem, RetryBackoff;
    if delivered {
      WithoutItemKeeps(f.queue, work.item.id, f.nextID);
      PartHeldOk(f, f'.queue, f'.held);
    } else {
      var next := f.now + RetryBackoff(work.item.attempts);
      FailSame(f.queue, work.item.id, "error", next);
      SameEntriesOk(f.queue, f'.queue, f.nextID);
      FailItemAt(f.queue, work.item.id, "error", next);
    }
  }

  /** A step gives an entry a second holder exactly when it claims an overrun one; otherwise the queue stays in
      order and every held entry leased. */
  lemma StepHolders(f: Feed, step: FeedStep, f': Feed)
    requires FeedInv(f) && FeedNext(f, step, f')
    ensures OneHolder(f') <==> !TakesOverrun(f, step)
    ensures OneHolder(f') ==> FeedInv(f') && f'.nextID >= f.nextID && f'.now >= f.now
  {
    hide Overrun, ClaimItems, QueueOk, WithoutItem, FailItem, FlushItems, Unqueued;
    match step
    case Tick(now) =>
    case Offer(peer, msgid) => OfferHolders(f, peer, msgid, f');
    case ClaimDue(worker, limit) => OverrunIsClaimedTwice(f, worker, limit, f');
    case Settle(work, delivered) => SettleKeeps(f, work, delivered, f');
    case FlushPeer(peer) =>
      FlushItemsKeeps(f.queue, peer, f.nextID);
      PartHeldOk(f, f'.queue, f'.held);
    case DropArticle(msgid) =>
      UnqueuedKeeps(f.queue, msgid, f.nextID);
      PartHeldOk(f, f'.queue, f'.held);
  }

  lemma OfferHolders(f: Feed, peer: int, msgid: string, f': Feed)
    requires FeedInv(f) && FeedNext(f, Offer(peer, msgid), f')
    ensures FeedInv(f')
  {
  }

  ghost predicate FeedRun(fs: seq<Feed>, steps: seq<FeedStep>) {
    && |fs| == |steps| + 1
    && forall i | 0 <= i < |steps| :: FeedNext(fs[i], steps[i], fs[i + 1])
  }

  lemma {:induction false} HoldersSoFar(fs: seq<Feed>, steps: seq<FeedStep>, k: nat)
    requires FeedRun(fs, steps) && FeedInv(fs[0]) && k < |fs|
    requires forall j | 0 <= j < k :: OneHolder(fs[j + 1]) || !TakesOverrun(fs[j], steps[j])
    ensures FeedInv(fs[k])
  {
    hide FeedNext, QueueOk, TakesOverrun, OneHolder;
    if k > 0 {
      HoldersSoFar(fs, steps, k - 1);
      var j := k - 1;
      assert FeedNext(fs[j], steps[j], fs[j + 1]) && (OneHolder(fs[j + 1]) || !TakesOverrun(fs[j], steps[j]));
      StepHolders(fs[j], steps[j], fs[j + 1]);
    }
  }

  /** In every run, under any interleaving of workers, no entry ever has two holders exactly when no claim takes an
      entry whose delivery is still in progress beyond its lease. */
  lemma OneHolderIff(fs: seq<Feed>, steps: seq<FeedStep>)
    requires FeedRun(fs, steps) && FeedInv(fs[0])
    ensures (forall k | 0 <= k < |fs| :: OneHolder(fs[k])) <==> (forall k | 0 <= k < |steps| :: !TakesOverrun(fs[k], steps[k]))
  {
    hide FeedNext, QueueOk, TakesOverrun, OneHolder;
    if forall k | 0 <= k < |fs| :: OneHolder(fs[k]) {
      forall k | 0 <= k < |steps|
        ensures !TakesOverrun(fs[k], steps[k])
      {
        HoldersSoFar(fs, steps, k);
        assert FeedNext(fs[k], steps[k], fs[k + 1]);
        StepHolders(fs[k], steps[k], fs[k + 1]);
      }
    }
    if forall k | 0 <= k < |steps| :: !TakesOverrun(fs[k], steps[k]) {
      forall k | 0 <= k < |fs|
        ensures OneHolder(fs[k])
      {
        HoldersSoFar(fs, steps, k);
      }
    }
  }

  /** In particular, while every delivery settles within its lease, no two workers ever hold the same entry, nor
      does one worker hold it twice. */
  lemma NoDoubleDelivery(fs: seq<Feed>, steps: seq<FeedStep>, k: nat)
    requires FeedRun(fs, steps) && FeedInv(fs[0]) && k < |fs|
    requires forall i | 0 <= i < |fs| :: InLease(fs[i])
    ensures FeedInv(fs[k])
    ensures forall v, w | v in fs[k].held && w in fs[k].held && v.item.id == w.item.id :: v == w
  {
    hide FeedNext, QueueOk;
    forall j | 0 <= j < |steps|
      ensures !TakesOverrun(fs[j], steps[j])
    {
      assert InLease(fs[j]);
    }
    HoldersSoFar(fs, steps, k);
  }

  /** A run from an empty queue in which an entry gets a second holder: it is offered, claimed, and claimed again
      when the lease has run out before the delivery has settled. */
  lemma OverrunRun(now: Time, peer: int, msgid: string, v: int, w: int) returns (fs: seq<Feed>, steps: seq<FeedStep>)
    ensures steps == [Offer(peer, msgid), ClaimDue(v, 0), Tick(now + LEASE), ClaimDue(w, 0)]
    ensures FeedRun(fs, steps) && fs[0] == Feed([], 0, now, {}) && FeedInv(fs[0])
    ensures !OneHolder(fs[4])
  {
    steps := [Offer(peer, msgid), ClaimDue(v, 0), Tick(now + LEASE), ClaimDue(w, 0)];
    var it := FeedItem(1, peer, msgid, 0, now, "", now);
    var f0 := Feed([], 0, now, {});
    var f1 := Feed([it], 1, now, {});
    ClaimSingle(it, now);
    var one := Leased(it, now);
    var f2 := Feed([one], 1, now, {Work(v, one, now)});
    var f3 := f2.(now := now + LEASE);
    ClaimSingle(one, now + LEASE);
    var two := Leased(one, now + LEASE);
    var f4 := f3.(queue := [two], held := {Work(v, one, now)} + {Work(w, two, now + LEASE)});
    assert [] + [it] == [it];
    hide ClaimItems;
    assert Grab(v, [one], now) == {Work(v, one, now)} && Grab(w, [two], now + LEASE) == {Work(w, two, now + LEASE)};
    assert FeedNext(f0, steps[0], f1);
    assert FeedNext(f1, steps[1], f2);
    assert FeedNext(f2, steps[2], f3) && FeedNext(f3, steps[3], f4);
    fs := [f0, f1, f2, f3, f4];
    assert Work(v, one, now) in f4.held && Work(w, two, now + LEASE) in f4.held;
  }

  lemma ClaimSingle(it: FeedItem, now: Time)
    requires Due(it, now)
    ensures ClaimItems([it], 32, now) == ([Leased(it, now)], [Leased(it, now)])
  {
    assert ClaimItems([], 31, now) == ([], []);
    assert [it][1..] == [] && [Leased(it, now)] + [] == [Leased(it, now)];
  }

  /** The steps of the feed are what the store's operations do to its queue. */
  lemma FeedIsStore(s: State, f: Feed, step: FeedStep, f': Feed)
    requires FeedNext(f, step, f') && s.queue == f.queue && s.nextFeedID == f.nextID
    ensures f'.nextID == (if step.Offer? then Enqueue(s, step.peer, step.msgid, f.now).nextFeedID else f.nextID)
    ensures f'.queue == match step
                        case Tick(_) => s.queue
                        case Offer(peer, msgid) => Enqueue(s, peer, msgid, f.now).queue
                        case ClaimDue(_, limit) => Claim(s, limit, f.now).0.queue
                        case Settle(work, delivered) =>
                          if delivered then Complete(s, work.item.id).queue
                          else Fail(s, work.item.id, "error", RetryBackoff(work.item.attempts), f.now).queue
                        case FlushPeer(peer) => Flush(s, peer).0.queue
                        case DropArticle(msgid) => if msgid in s.arts then DeleteArticle(s, msgid).queue else Unqueued(s.queue, msgid)
  {
    hide ClaimItems, FailItem, WithoutItem, FlushItems, Unqueued, Queued;
    if step.Settle? {
      BackoffAbove(step.work.item.attempts);
    }
  }

  lemma BackoffAbove(attempts: int)
    ensures RetryBackoff(attempts) > 0
  {
  }

  // ----- What happens to one entry -----

  /** How many of the first `i` entries may be tried at a time. */
  function Ripe(queue: seq<FeedItem>, i: nat, t: Time): (all: set<nat>)
    requires i <= |queue|
  {
    set j: nat | j < i && queue[j].nextAttempt <= t
  }

  lemma {:induction false} RipeCount(queue: seq<FeedItem>, i: nat, t: Time)
    requires i <= |queue|
    ensures DueBefore(queue, i, t) == |Ripe(queue, i, t)|
    decreases i
  {
    if i > 0 {
      RipeCount(queue, i - 1, t);
      DueBeforeLast(queue, i - 1, t);
      assert Ripe(queue, i, t) == Ripe(queue, i - 1, t) + if queue[i - 1].nextAttempt <= t then {i - 1} else {};
    }
  }

  lemma {:induction false} DueBeforeLast(queue: seq<FeedItem>, i: nat, t: Time)
    requires i < |queue|
    ensures DueBefore(queue, i + 1, t) == DueBefore(queue, i, t) + if Due(queue[i], t) then 1 else 0
  {
    if i > 0 {
      DueBeforeLast(queue[1..], i - 1, t);
    }
  }

  /** A claim takes an entry exactly when it may be tried and fewer than the limit stand in front of it that may; 32
      is the limit where none is given. What is taken has one more attempt and rests for two minutes; the rest of the
      queue is as it was. */
  lemma ClaimIs(s: State, limit: int, t: Time, i: nat)
    requires i < |s.queue|
    ensures var (s', out) := Claim(s, limit, t);
            var it := s.queue[i];
            |s'.queue| == |s.queue| && s' == s.(queue := s'.queue)
            && if it.nextAttempt <= t && |Ripe(s.queue, i, t)| < (if limit <= 0 then 32 else limit) then
                 s'.queue[i] == it.(attempts := it.attempts + 1, nextAttempt := t + 120_000_000_000) && s'.queue[i] in out
               else s'.queue[i] == it
  {
    hide ClaimItems, Ripe, DueBefore;
    var n := ClaimLimit(limit);
    RipeCount(s.queue, i, t);
    ClaimEffect(s.queue, n, t);
    if Due(s.queue[i], t) {
      ClaimTakes(s.queue, n, t, i);
    }
  }

  /** What a claim gives out is in the queue afterwards, and was allowed to be tried. */
  lemma ClaimedWere(s: State, limit: int, t: Time, it: FeedItem)
    requires it in Claim(s, limit, t).1
    ensures exists i: nat :: i < |s.queue| && s.queue[i].nextAttempt <= t && Claim(s, limit, t).0.queue[i] == it
                          && it == s.queue[i].(attempts := s.queue[i].attempts + 1, nextAttempt := t + 120_000_000_000)
  {
    hide ClaimItems;
    ClaimEffect(s.queue, ClaimLimit(limit), t);
  }

  /** An article that is queued for a peer is given to the next claim from then on, unless the limit is filled with
      entries in front of it. */
  lemma EnqueuedIsClaimed(s: State, peer: int, id: string, now: Time, limit: int, t: Time)
    requires t >= now && forall i | 0 <= i < |s.queue| :: s.queue[i].peer != peer || s.queue[i].msgid != id
    requires |Ripe(s.queue, |s.queue|, t)| < if limit <= 0 then 32 else limit
    ensures var s1 := Enqueue(s, peer, id, now);
            && |s1.queue| == |s.queue| + 1 && s1.queue[..|s.queue|] == s.queue
            && exists it :: it in Claim(s1, limit, t).1 && it.peer == peer && it.msgid == id && it.attempts == 1
                         && it.nextAttempt == t + 120_000_000_000 && it.lastError == "" && it.createdAt == now
  {
    hide Claim, Ripe;
    var s1 := Enqueue(s, peer, id, now);
    var k := |s.queue|;
    assert s1.queue[k].peer == peer;
    assert Ripe(s1.queue, k, t) == Ripe(s.queue, k, t) by { RipePrefix(s.queue, s1.queue, t); }
    ClaimIs(s1, limit, t, k);
  }

  lemma RipePrefix(queue: seq<FeedItem>, longer: seq<FeedItem>, t: Time)
    requires queue <= longer
    ensures Ripe(longer, |queue|, t) == Ripe(queue, |queue|, t)
  {
  }

  /** An article that waits for a peer already is not queued twice. */
  lemma EnqueuedOnce(s: State, peer: int, id: string, now: Time)
    requires exists i :: 0 <= i < |s.queue| && s.queue[i].peer == peer && s.queue[i].msgid == id
    ensures Enqueue(s, peer, id, now) == s
  {
  }

  /** A failed entry may be tried again after the given delay, or after two minutes where none is given; every other
      entry is as it was. */
  lemma FailIs(s: State, id: int, err: string, retryAfter: int, now: Time, i: nat)
    requires QueueOk(s.queue, s.nextFeedID) && i < |s.queue|
    ensures var s' := Fail(s, id, err, retryAfter, now);
            |s'.queue| == |s.queue| && s' == s.(queue := s'.queue)
            && s'.queue[i] == if s.queue[i].id != id then s.queue[i]
                              else s.queue[i].(lastError := err, nextAttempt := now + if retryAfter <= 0 then 120_000_000_000 else retryAfter)
  {
    var next := now + if retryAfter <= 0 then 120_000_000_000 else retryAfter;
    FailItemIs(s.queue, id, err, next, i);
    hide FailItem, QueueOk;
  }

  lemma {:induction false} FailItemIs(queue: seq<FeedItem>, id: int, err: string, next: Time, i: nat)
    requires (forall a, b | 0 <= a < b < |queue| :: queue[a].id < queue[b].id) && i < |queue|
    ensures |FailItem(queue, id, err, next)| == |queue|
    ensures FailItem(queue, id, err, next)[i] ==
              if queue[i].id != id then queue[i] else queue[i].(lastError := err, nextAttempt := next)
  {
    FailItemAt(queue, id, err, next);
    if queue[0].id == id {
    } else if i > 0 {
      FailItemIs(queue[1..], id, err, next, i - 1);
    }
  }

  /** Where the entries of a peer are, or of all peers. */
  function OfPeer(queue: seq<FeedItem>, peer: int): (all: set<nat>) {
    set i: nat | i < |queue| && (peer <= 0 || queue[i].peer == peer)
  }

  lemma {:induction false} FlushCount(queue: seq<FeedItem>, peer: int)
    ensures |queue| - |FlushItems(queue, peer)| == |OfPeer(queue, peer)|
    decreases |queue|
  {
    hide FlushItems;
    if queue == [] {
      assert OfPeer(queue, peer) == {};
      FlushNone(peer);
    } else {
      hide OfPeer;
      var n := |queue| - 1;
      FlushCount(queue[..n], peer);
      FlushLast(queue[..n], queue[n], peer);
      assert queue[..n] + [queue[n]] == queue;
      OfPeerLast(queue[..n], queue[n], peer);
    }
  }

  lemma FlushNone(peer: int)
    ensures FlushItems([], peer) == []
  {
  }

  lemma OfPeerLast(queue: seq<FeedItem>, last: FeedItem, peer: int)
    ensures |OfPeer(queue + [last], peer)| == |OfPeer(queue, peer)| + if peer <= 0 || last.peer == peer then 1 else 0
  {
    var n: nat := |queue|;
    assert OfPeer(queue + [last], peer) == OfPeer(queue, peer) + if peer <= 0 || last.peer == peer then {n} else {};
  }

  /** A flush takes out the entries of a peer, or all, and counts them. */
  lemma FlushIs(s: State, peer: int, it: FeedItem)
    ensures Flush(s, peer).1 == |OfPeer(s.queue, peer)|
    ensures it in Flush(s, peer).0.queue <==> it in s.queue && peer > 0 && it.peer != peer
    ensures Flush(s, peer).0 == s.(queue := Flush(s, peer).0.queue)
  {
    FlushCount(s.queue, peer);
    FlushedIff(s.queue, peer, it);
  }

  lemma {:induction false} FlushedIff(queue: seq<FeedItem>, peer: int, it: FeedItem)
    ensures it in FlushItems(queue, peer) <==> it in queue && peer > 0 && it.peer != peer
  {
    if queue != [] {
      FlushedIff(queue[1..], peer, it);
      assert queue == [queue[0]] + queue[1..];
    }
  }

  lemma {:induction false} FlushLast(queue: seq<FeedItem>, last: FeedItem, peer: int)
    ensures |FlushItems(queue + [last], peer)| == |FlushItems(queue, peer)| + if peer > 0 && last.peer != peer then 1 else 0
  {
    if queue == [] {
      assert queue + [last] == [last];
      assert [last][1..] == [];
    } else {
      FlushLast(queue[1..], last, peer);
      assert (queue + [last])[1..] == queue[1..] + [last];
    }
  }

  // ----- Leaving the queue -----

  ghost predicate Holds(queue: seq<FeedItem>, id: int) {
    exists i :: 0 <= i < |queue| && queue[i].id == id
  }

  /** Of a part of the queue, an entry is held exactly when it is in the part. */
  lemma HoldsIff(queue: seq<FeedItem>, nextID: int, part: seq<FeedItem>, it: FeedItem)
    requires QueueOk(queue, nextID) && it in queue && Part(part, queue)
    ensures Holds(part, it.id) <==> it in part
  {
    if it in part {
      var j :| 0 <= j < |part| && part[j] == it;
    }
    if Holds(part, it.id) {
      var i :| 0 <= i < |queue| && queue[i] == it;
      var j :| 0 <= j < |part| && part[j].id == it.id;
      assert part[j] in queue;
      var k :| 0 <= k < |queue| && queue[k] == part[j];
      UniqueID(queue, nextID, i, k);
    }
  }

  lemma HoldsSame(queue: seq<FeedItem>, after: seq<FeedItem>, it: FeedItem)
    requires SameEntries(queue, after) && it in queue
    ensures Holds(after, it.id)
  {
    var i :| 0 <= i < |queue| && queue[i] == it;
    assert after[i].id == it.id;
  }

  /** Completing takes the entry out, flushing those of the peer, and claiming and failing none. */
  lemma QueueStepsHold(s: State, limit: int, id: int, err: string, retryAfter: int, peer: int, now: Time, it: FeedItem)
    requires Inv(s) && it in s.queue
    ensures Holds(Claim(s, limit, now).0.queue, it.id)
    ensures Holds(Complete(s, id).queue, it.id) <==> id != it.id
    ensures Holds(Fail(s, id, err, retryAfter, now).queue, it.id)
    ensures Holds(Flush(s, peer).0.queue, it.id) <==> peer > 0 && it.peer != peer
  {
    hide TablesOk, ArtsOk, QueueOk, ClaimItems, FailItem, WithoutItem, FlushItems, Holds, SameEntries;
    ClaimSame(s.queue, ClaimLimit(limit), now);
    HoldsSame(s.queue, Claim(s, limit, now).0.queue, it);
    FailSame(s.queue, id, err, now + if retryAfter <= 0 then 2 * MINUTE else retryAfter);
    HoldsSame(s.queue, Fail(s, id, err, retryAfter, now).queue, it);
    WithoutItemKeeps(s.queue, id, s.nextFeedID);
    HoldsIff(s.queue, s.nextFeedID, Complete(s, id).queue, it);
    FlushItemsKeeps(s.queue, peer, s.nextFeedID);
    HoldsIff(s.queue, s.nextFeedID, Flush(s, peer).0.queue, it);
  }
}
