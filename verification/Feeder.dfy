/** The feeder: it queues new articles for the peers that should get them, and drains the queue. */
module Feeder {
  import opened Text
  import opened StoreState
  import opened StoreInvariant
  import opened StoreFeed
  import Memory
  import Relay

  /** A peer as the feeder sees it. */
  datatype Destination = Destination(id: int, peer: Relay.Peer)

  /** Whether an article with this Path goes to a peer; `wants` stands for the peer's patterns and flags. */
  predicate Gets(cfg: Relay.Config, d: Destination, path: string, wants: Destination -> bool) {
    !Relay.SkipPeer(cfg, d.peer, path) && wants(d)
  }

  function OfferStep(s: State, cfg: Relay.Config, d: Destination, msgid: string, path: string,
                     wants: Destination -> bool, now: Time): State {
    if Gets(cfg, d, path, wants) then Enqueue(s, d.id, msgid, now) else s
  }

  function OfferTo(s: State, cfg: Relay.Config, peers: seq<Destination>, msgid: string, path: string,
                   wants: Destination -> bool, now: Time): State
    decreases |peers|
  {
    if peers == [] then s
    else OfferTo(OfferStep(s, cfg, peers[0], msgid, path, wants, now), cfg, peers[1..], msgid, path, wants, now)
  }

  lemma EnqueueQueued(s: State, peer: int, msgid: string, now: Time, other: int, id: string)
    ensures Queued(Enqueue(s, peer, msgid, now).queue, other, id) <==> Queued(s.queue, other, id) || (other == peer && id == msgid)
    ensures s.queue <= Enqueue(s, peer, msgid, now).queue
  {
    var q, q' := s.queue, Enqueue(s, peer, msgid, now).queue;
    if !Queued(q, peer, msgid) {
      assert q'[|q|].peer == peer && q'[|q|].msgid == msgid;
      if Queued(q, other, id) {
        var i :| 0 <= i < |q| && q[i].peer == other && q[i].msgid == id;
        assert q'[i] == q[i];
      }
    }
  }

  /** An offer queues the article for exactly the peers that get it, besides what was queued, and keeps the order
      of the queue; no peer with a name on the Path is among them. */
  lemma {:induction false} OfferedIff(s: State, cfg: Relay.Config, peers: seq<Destination>, msgid: string, path: string,
                                      wants: Destination -> bool, now: Time, other: int, id: string)
    requires Inv(s)
    ensures var s' := OfferTo(s, cfg, peers, msgid, path, wants, now);
            && Inv(s') && s.queue <= s'.queue
            && (Queued(s'.queue, other, id) <==>
                  Queued(s.queue, other, id)
                  || (id == msgid && exists d :: d in peers && d.id == other && !Relay.SkipPeer(cfg, d.peer, path) && wants(d)))
    decreases |peers|
  {
    hide Inv, Queued, Enqueue, Relay.SkipPeer;
    if peers != [] {
      var d := peers[0];
      EnqueueKeeps(s, d.id, msgid, now);
      EnqueueQueued(s, d.id, msgid, now, other, id);
      var s1 := if Gets(cfg, d, path, wants) then Enqueue(s, d.id, msgid, now) else s;
      OfferedIff(s1, cfg, peers[1..], msgid, path, wants, now, other, id);
      assert peers == [d] + peers[1..];
    }
  }

  /** The peers that get the article. */
  function Receivers(cfg: Relay.Config, peers: seq<Destination>, path: string, wants: Destination -> bool): seq<Destination> {
    if peers == [] then []
    else (if Gets(cfg, peers[0], path, wants) then [peers[0]] else []) + Receivers(cfg, peers[1..], path, wants)
  }

  lemma ReceiversNext(cfg: Relay.Config, peers: seq<Destination>, i: nat, path: string, wants: Destination -> bool)
    requires i < |peers|
    ensures |Receivers(cfg, peers[i..], path, wants)| ==
              |Receivers(cfg, peers[i + 1..], path, wants)| + if Gets(cfg, peers[i], path, wants) then 1 else 0
  {
    hide Gets;
    assert peers[i..][1..] == peers[i + 1..] && peers[i..][0] == peers[i];
  }

  lemma ReceiversDone(cfg: Relay.Config, none: seq<Destination>, path: string, wants: Destination -> bool)
    requires |none| == 0
    ensures Receivers(cfg, none, path, wants) == []
  {
  }

  // ----- Draining -----

  /** How a delivery ended, and when. */
  datatype Outcome = Settled(accepted: bool) | Error(err: string, at: Time)

  /** The counters of accepted and failed deliveries after one more. */
  function Tallied(ok: int, fail: int, o: Outcome): (int, int) {
    match o
    case Settled(accepted) => (if accepted then ok + 1 else ok, fail)
    case Error(_, _) => (ok, fail + 1)
  }

  function Accepted(items: seq<FeedItem>, deliver: FeedItem -> Outcome): nat {
    if items == [] then 0 else (if deliver(items[0]) == Settled(true) then 1 else 0) + Accepted(items[1..], deliver)
  }

  function Failed(items: seq<FeedItem>, deliver: FeedItem -> Outcome): nat {
    if items == [] then 0 else (if deliver(items[0]).Error? then 1 else 0) + Failed(items[1..], deliver)
  }

  lemma TalliedIs(ok: int, fail: int, o: Outcome)
    ensures Tallied(ok, fail, o) == if o.Error? then (ok, fail + 1) else if o.accepted then (ok + 1, fail) else (ok, fail)
  {
  }

  lemma TallyNext(ok: int, fail: int, items: seq<FeedItem>, i: nat, deliver: FeedItem -> Outcome)
    requires i < |items|
    ensures var t := Tallied(ok, fail, deliver(items[i]));
            && t.0 + Accepted(items[i + 1..], deliver) == ok + Accepted(items[i..], deliver)
            && t.1 + Failed(items[i + 1..], deliver) == fail + Failed(items[i..], deliver)
  {
    assert items[i..][1..] == items[i + 1..] && items[i..][0] == items[i];
  }

  lemma TallyDone(none: seq<FeedItem>, deliver: FeedItem -> Outcome)
    requires |none| == 0
    ensures Accepted(none, deliver) == Failed(none, deliver) == 0
  {
  }

  function DrainStep(s: State, it: FeedItem, o: Outcome): State {
    match o
    case Settled(_) => Complete(s, it.id)
    case Error(err, at) => Fail(s, it.id, err, RetryBackoff(it.attempts), at)
  }

  function DrainAll(s: State, items: seq<FeedItem>, deliver: FeedItem -> Outcome): State
    decreases |items|
  {
    if items == [] then s else DrainAll(DrainStep(s, items[0], deliver(items[0])), items[1..], deliver)
  }

  /** The entry with an ID. */
  function Find(queue: seq<FeedItem>, id: int): Option<FeedItem> {
    if queue == [] then None else if queue[0].id == id then Some(queue[0]) else Find(queue[1..], id)
  }

  lemma {:induction false} FindWithout(queue: seq<FeedItem>, x: int, id: int)
    ensures Find(WithoutItem(queue, x), id) == if id == x then None else Find(queue, id)
  {
    if queue != [] {
      FindWithout(queue[1..], x, id);
      var rest := WithoutItem(queue[1..], x);
      assert [] + rest == rest && ([queue[0]] + rest)[1..] == rest;
    }
  }

  lemma {:induction false} FindFail(queue: seq<FeedItem>, x: int, err: string, next: Time, id: int)
    ensures Find(FailItem(queue, x, err, next), id) ==
              if id == x && Find(queue, x).Some? then Some(Find(queue, x).value.(lastError := err, nextAttempt := next))
              else Find(queue, id)
  {
    if queue != [] {
      FindFail(queue[1..], x, err, next, id);
      var rest := FailItem(queue[1..], x, err, next);
      assert ([queue[0]] + rest)[1..] == rest;
      var q := queue[0].(lastError := err, nextAttempt := next);
      assert ([q] + queue[1..])[1..] == queue[1..];
    }
  }

  lemma {:induction false} FindAt(queue: seq<FeedItem>, i: nat)
    requires i < |queue| && forall a, b | 0 <= a < b < |queue| :: queue[a].id < queue[b].id
    ensures Find(queue, queue[i].id) == Some(queue[i])
  {
    if i > 0 {
      assert queue[0].id < queue[i].id;
      FindAt(queue[1..], i - 1);
    }
  }

  lemma {:induction false} FindSame(a: seq<FeedItem>, b: seq<FeedItem>, id: int)
    requires |a| == |b| && forall i | 0 <= i < |a| :: a[i].id == b[i].id && (a[i].id == id ==> a[i] == b[i])
    ensures Find(a, id) == Find(b, id)
  {
    if a != [] {
      FindSame(a[1..], b[1..], id);
    }
  }

  /** What becomes of an entry. */
  function After(it: FeedItem, o: Outcome): Option<FeedItem> {
    match o
    case Settled(_) => None
    case Error(err, at) => Some(it.(lastError := err, nextAttempt := at + RetryBackoff(it.attempts)))
  }

  ghost predicate OneEach(items: seq<FeedItem>) {
    forall i, j | 0 <= i < j < |items| :: items[i].id < items[j].id
  }

  lemma {:induction false} DrainFinds(s: State, items: seq<FeedItem>, deliver: FeedItem -> Outcome, id: int)
    requires OneEach(items) && forall it | it in items :: Find(s.queue, it.id) == Some(it) && it.attempts >= 1
    ensures var q := DrainAll(s, items, deliver).queue;
            && (forall it | it in items && it.id == id :: Find(q, id) == After(it, deliver(it)))
            && ((forall it | it in items :: it.id != id) ==> Find(q, id) == Find(s.queue, id))
    decreases |items|
  {
    hide Find, WithoutItem, FailItem, RetryBackoff;
    if items != [] {
      var it := items[0];
      BackoffPositive(it.attempts);
      var s1 := DrainStep(s, it, deliver(it));
      forall x
        ensures Find(s1.queue, x) == if x == it.id then After(it, deliver(it)) else Find(s.queue, x)
      {
        if deliver(it).Settled? {
          FindWithout(s.queue, it.id, x);
        } else {
          FindFail(s.queue, it.id, deliver(it).err, deliver(it).at + RetryBackoff(it.attempts), x);
        }
      }
      assert items == [it] + items[1..];
      assert forall i | 0 <= i < |items[1..]| :: items[1..][i].id > it.id;
      DrainFinds(s1, items[1..], deliver, id);
    }
  }

  lemma BackoffPositive(attempts: int)
    requires attempts >= 1
    ensures RetryBackoff(attempts) > 0
  {
    BackoffMinutes(attempts);
  }

  /** The claimed entries come in the order of their IDs. */
  lemma {:induction false} ClaimOneEach(queue: seq<FeedItem>, limit: int, now: Time, least: int)
    requires (forall a, b | 0 <= a < b < |queue| :: queue[a].id < queue[b].id) && (queue != [] ==> least < queue[0].id)
    ensures OneEach(ClaimItems(queue, limit, now).1) && forall it | it in ClaimItems(queue, limit, now).1 :: it.id > least
  {
    if queue != [] && limit > 0 {
      ClaimOneEach(queue[1..], limit, now, queue[0].id);
      ClaimOneEach(queue[1..], limit - 1, now, queue[0].id);
    }
  }

  lemma {:induction false} ClaimTried(queue: seq<FeedItem>, limit: int, now: Time)
    requires forall i | 0 <= i < |queue| :: queue[i].attempts >= 0
    ensures forall it | it in ClaimItems(queue, limit, now).1 :: it.attempts >= 1
  {
    if queue != [] && limit > 0 {
      ClaimTried(queue[1..], limit, now);
      ClaimTried(queue[1..], limit - 1, now);
    }
  }

  /** Draining settles every entry that it claimed: a delivered or refused one is gone, a failed one waits as many
      minutes as it was tried, at most thirty; every other entry is as it was. */
  lemma DrainSettles(s: State, limit: int, now: Time, deliver: FeedItem -> Outcome, id: int)
    requires Inv(s)
    ensures var (s1, items) := Claim(s, limit, now);
            var q := DrainAll(s1, items, deliver).queue;
            && (forall it | it in items && it.id == id ::
                  var minutes := if it.attempts > 30 then 30 else it.attempts;
                  match deliver(it)
                  case Settled(_) => Find(q, id) == None
                  case Error(err, at) => Find(q, id) == Some(it.(lastError := err, nextAttempt := at + minutes * 60_000_000_000)))
            && ((forall it | it in items :: it.id != id) ==> Find(q, id) == Find(s.queue, id))
  {
    hide TablesOk, ArtsOk, ClaimItems, Find, DrainAll, Leased, Due, After;
    var n := if limit <= 0 then 32 else limit;
    var (s1, items) := Claim(s, limit, now);
    var q0 := s.queue;
    ClaimEffect(q0, n, now);
    ClaimSame(q0, n, now);
    ClaimOneEach(q0, n, now, if q0 == [] then 0 else q0[0].id - 1);
    ClaimTried(q0, n, now);
    forall it | it in items
      ensures Find(s1.queue, it.id) == Some(it)
    {
      var i :| 0 <= i < |q0| && Due(q0[i], now) && it == Leased(q0[i], now) && s1.queue[i] == it;
      FindAt(s1.queue, i);
    }
    if forall it | it in items :: it.id != id {
      FindSame(s1.queue, q0, id);
    }
    DrainFinds(s1, items, deliver, id);
    forall it | it in items
      ensures After(it, deliver(it)) ==
              match deliver(it)
              case Settled(_) => None
              case Error(err, at) =>
                Some(it.(lastError := err, nextAttempt := at + (if it.attempts > 30 then 30 else it.attempts) * 60_000_000_000))
    {
      AfterIs(it, deliver(it));
    }
  }

  lemma AfterIs(it: FeedItem, o: Outcome)
    requires it.attempts >= 1
    ensures After(it, o) ==
            match o
            case Settled(_) => None
            case Error(err, at) =>
              Some(it.(lastError := err, nextAttempt := at + (if it.attempts > 30 then 30 else it.attempts) * 60_000_000_000))
  {
    hide RetryBackoff;
    BackoffMinutes(it.attempts);
  }

  // ----- The program's feeder -----

  class Feeder {
    const store: Memory.Memory
    const cfg: Relay.Config
    var offered: int
    var ok: int
    var fail: int

    constructor (store: Memory.Memory, cfg: Relay.Config)
      ensures this.store == store && this.cfg == cfg && offered == ok == fail == 0
    {
      this.store, this.cfg, offered, ok, fail := store, cfg, 0, 0, 0;
    }

    method OfferOne(d: Destination, msgid: string, path: string, wants: Destination -> bool, now: Time)
      requires store.Valid()
      modifies this`offered, store`queue, store`nextFeedID
      ensures store.View() == OfferStep(old(store.View()), cfg, d, msgid, path, wants, now) && store.Valid()
      ensures offered == old(offered) + if Gets(cfg, d, path, wants) then 1 else 0
    {
      hide *;
      OfferStepIs(store.View(), cfg, d, msgid, path, wants, now);
      if Gets(cfg, d, path, wants) {
        store.EnqueueFeed(d.id, msgid, now);
        offered := offered + 1;
      }
    }

    /** Queues an article for the peers that get it. */
    method Offer(msgid: string, path: string, peers: seq<Destination>, wants: Destination -> bool, now: Time)
      requires store.Valid()
      modifies this`offered, store`queue, store`nextFeedID
      ensures store.View() ==
                if msgid == "" then old(store.View()) else OfferTo(old(store.View()), cfg, peers, msgid, path, wants, now)
      ensures store.Valid() && offered == old(offered) + if msgid == "" then 0 else |Receivers(cfg, peers, path, wants)|
    {
      hide *;
      if msgid == "" {
        return;
      }
      ghost var s := store.View();
      assert peers[0..] == peers;
      for i := 0 to |peers|
        invariant store.Valid()
        invariant OfferTo(s, cfg, peers, msgid, path, wants, now) == OfferTo(store.View(), cfg, peers[i..], msgid, path, wants, now)
        invariant offered + |Receivers(cfg, peers[i..], path, wants)| == old(offered) + |Receivers(cfg, peers, path, wants)|
      {
        ReceiversNext(cfg, peers, i, path, wants);
        OfferNext(store.View(), cfg, peers, i, msgid, path, wants, now);
        OfferOne(peers[i], msgid, path, wants, now);
      }
      OfferDone(store.View(), cfg, peers[|peers|..], msgid, path, wants, now);
      ReceiversDone(cfg, peers[|peers|..], path, wants);
    }

    /** Delivers one claimed entry. */
    method Settle(it: FeedItem, deliver: FeedItem -> Outcome)
      requires store.Valid()
      modifies this`ok, this`fail, store`queue
      ensures store.View() == DrainStep(old(store.View()), it, deliver(it)) && store.Valid()
      ensures (ok, fail) == Tallied(old(ok), old(fail), deliver(it))
    {
      hide *;
      TalliedIs(ok, fail, deliver(it));
      DrainStepIs(store.View(), it, deliver(it));
      match deliver(it) {
        case Error(err, at) =>
          fail := fail + 1;
          store.FailFeed(it.id, err, RetryBackoff(it.attempts), at);
        case Settled(accepted) =>
          store.CompleteFeed(it.id);
          if accepted {
            ok := ok + 1;
          }
      }
    }

    /** Claims the due entries and delivers them one after another. */
    method DrainOnce(now: Time, deliver: FeedItem -> Outcome)
      requires store.Valid()
      modifies this`ok, this`fail, store`queue
      ensures var (s1, items) := Claim(old(store.View()), 32, now);
              store.View() == DrainAll(s1, items, deliver)
              && ok == old(ok) + Accepted(items, deliver) && fail == old(fail) + Failed(items, deliver)
      ensures store.Valid()
    {
      hide *;
      var items := store.ClaimFeedDue(32, now);
      ghost var s1 := store.View();
      assert items[0..] == items;
      for i := 0 to |items|
        invariant store.Valid() && DrainAll(s1, items, deliver) == DrainAll(store.View(), items[i..], deliver)
        invariant ok + Accepted(items[i..], deliver) == old(ok) + Accepted(items, deliver)
        invariant fail + Failed(items[i..], deliver) == old(fail) + Failed(items, deliver)
      {
        DrainNext(store.View(), items, i, deliver);
        TallyNext(ok, fail, items, i, deliver);
        Settle(items[i], deliver);
      }
      DrainDone(store.View(), items[|items|..], deliver);
      TallyDone(items[|items|..], deliver);
    }
  }

  lemma OfferStepIs(s: State, cfg: Relay.Config, d: Destination, msgid: string, path: string, wants: Destination -> bool, now: Time)
    ensures OfferStep(s, cfg, d, msgid, path, wants, now) == if Gets(cfg, d, path, wants) then Enqueue(s, d.id, msgid, now) else s
  {
  }

  lemma OfferNext(s: State, cfg: Relay.Config, peers: seq<Destination>, i: nat, msgid: string, path: string,
                  wants: Destination -> bool, now: Time)
    requires i < |peers|
    ensures OfferTo(s, cfg, peers[i..], msgid, path, wants, now)
         == OfferTo(OfferStep(s, cfg, peers[i], msgid, path, wants, now), cfg, peers[i + 1..], msgid, path, wants, now)
  {
    hide OfferStep;
    assert peers[i..][1..] == peers[i + 1..] && peers[i..][0] == peers[i];
  }

  lemma OfferDone(s: State, cfg: Relay.Config, none: seq<Destination>, msgid: string, path: string, wants: Destination -> bool, now: Time)
    requires |none| == 0
    ensures OfferTo(s, cfg, none, msgid, path, wants, now) == s
  {
  }

  lemma DrainStepIs(s: State, it: FeedItem, o: Outcome)
    ensures DrainStep(s, it, o) == match o
                                   case Settled(_) => Complete(s, it.id)
                                   case Error(err, at) => Fail(s, it.id, err, RetryBackoff(it.attempts), at)
  {
  }

  lemma DrainNext(s: State, items: seq<FeedItem>, i: nat, deliver: FeedItem -> Outcome)
    requires i < |items|
    ensures DrainAll(s, items[i..], deliver) == DrainAll(DrainStep(s, items[i], deliver(items[i])), items[i + 1..], deliver)
  {
    hide DrainStep;
    assert items[i..][1..] == items[i + 1..] && items[i..][0] == items[i];
  }

  lemma DrainDone(s: State, none: seq<FeedItem>, deliver: FeedItem -> Outcome)
    requires |none| == 0
    ensures DrainAll(s, none, deliver) == s
  {
  }
}
