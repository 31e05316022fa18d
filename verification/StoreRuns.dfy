/** Whole runs of the store: the invariant along every run, when an article can be taken a second time,
    and what an article number can come to mean. */
module StoreRuns {
  import opened Text
  import opened Seqs
  import opened StoreState
  import opened StoreInvariant
  import opened StoreExpire
  import opened StoreFeed
  import opened StoreAlerts
  import opened StorePurge

  datatype GroupOp = Ensure | EnsureISC | ApplyControl | DisableControl

  datatype Step =
    | PostArticle(id: string, info: Info, prefix: string, names: seq<string>, now: Time)
    | RememberID(id: string, now: Time)
    | CancelArticle(id: string, now: Time)
    | UpdateGroup(op: GroupOp, name: string, desc: string, status: string, now: Time)
    | RemoveGroup(name: string)
    | Retain(name: string, days: Option<int>, mode: string)
    | ExpirePass(now: Time, historyDays: int)
    | PurgePass(ids: seq<string>)
    | Note(names: seq<string>, binary: bool, flood: FloodParams, now: Time)
    | SettleAlert(alert: int, action: Action)
    | SetBans(bans: seq<string>)
    | EnqueueFeed(peer: int, id: string, now: Time)
    | ClaimFeed(limit: int, now: Time)
    | CompleteFeed(item: int)
    | FailFeed(item: int, err: string, retryAfter: int, now: Time)
    | FlushFeed(peer: int)

  function Updated(s: State, op: GroupOp, name: string, desc: string, status: string, now: Time): State {
    match op
    case Ensure => EnsureGroup(s, name, desc, status, now)
    case EnsureISC => EnsureGroupISC(s, name, desc, status, now)
    case ApplyControl => ApplyControlGroup(s, name, desc, status, now)
    case DisableControl => DisableControlGroup(s, name, now)
  }

  ghost predicate NextState(s: State, step: Step, s': State) {
    match step
    case PostArticle(id, info, prefix, names, now) => s' == Post(s, id, info, prefix, names, now).0
    case RememberID(id, now) => s' == Remember(s, id, now)
    case CancelArticle(id, now) => s' == Cancel(s, id, now).0
    case UpdateGroup(op, name, desc, status, now) => s' == Updated(s, op, name, desc, status, now)
    case RemoveGroup(name) => s' == DeleteGroup(s, name)
    case Retain(name, days, mode) => s' == SetRetention(s, name, days, mode)
    case ExpirePass(now, historyDays) => s' == Expire(s, now, historyDays)
    case PurgePass(ids) => ListsDoomed(s, ids) && s' == Purge(s, ids)
    case Note(names, binary, flood, now) => s' == NoteAccept(s, names, binary, flood, now).0
    case SettleAlert(alert, action) => s' == ResolveAlert(s, alert, action)
    case SetBans(bans) => s' == s.(bans := bans)
    case EnqueueFeed(peer, id, now) => s' == StoreState.Enqueue(s, peer, id, now)
    case ClaimFeed(limit, now) => s' == Claim(s, limit, now).0
    case CompleteFeed(item) => s' == Complete(s, item)
    case FailFeed(item, err, retryAfter, now) => s' == Fail(s, item, err, retryAfter, now)
    case FlushFeed(peer) => s' == Flush(s, peer).0
  }

  ghost predicate Run(states: seq<State>, steps: seq<Step>) {
    && |states| == |steps| + 1
    && forall i | 0 <= i < |steps| :: NextState(states[i], steps[i], states[i + 1])
  }

  // ----- The invariant along every run -----

  /** An article names each group that takes it once. */
  ghost predicate NamesOnce(s: State, step: Step) {
    step.PostArticle? ==> Distinct(Used(s.groups, step.names))
  }

  ghost predicate StoreOk(s: State) {
    Inv(s) && AlertsOk(s) && s.nextAlertID >= 0
  }

  lemma BansKeep(s: State, bans: seq<string>)
    requires Inv(s)
    ensures Inv(s.(bans := bans))
  {
    SameTablesKeeps(s, s.(bans := bans));
  }

  lemma StepKeepsInv(s: State, step: Step, s': State)
    requires Inv(s) && AlertsOk(s) && s.nextAlertID >= 0 && NextState(s, step, s') && NamesOnce(s, step)
    ensures Inv(s')
  {
    hide Inv, Post, Remember, Cancel, DeleteGroup, Expire, Purge, NoteAll, ResolveAlert, SetRetention, AlertsOk, Updated;
    hide StoreState.Enqueue, Claim, Complete, Fail, Flush, ListsDoomed;
    match step
    case PostArticle(id, info, prefix, names, now) =>
      RefusedUnchanged(s, id, info, prefix, names, now);
      PostKeepsIff(s, id, info, prefix, names, now);
    case RememberID(id, now) => CancelKeeps(s, id, now);
    case CancelArticle(id, now) => CancelKeeps(s, id, now);
    case UpdateGroup(op, name, desc, status, now) => UpdatedKeeps(s, op, name, desc, status, now);
    case RemoveGroup(name) => DeleteGroupKeeps(s, name);
    case Retain(name, days, mode) => RetentionKeeps(s, name, days, mode);
    case ExpirePass(now, historyDays) => ExpireKeeps(s, now, historyDays);
    case PurgePass(ids) => PurgeExact(s, ids);
    case Note(names, binary, flood, now) =>
      NoteAcceptKeeps(s, names, binary, Defaulted(flood), now);
      SameTablesKeeps(s, s');
    case SettleAlert(alert, action) =>
      ResolveKeeps(s, alert, action);
      SameTablesKeeps(s, s');
    case SetBans(bans) => BansKeep(s, bans);
    case EnqueueFeed(peer, id, now) => EnqueueKeeps(s, peer, id, now);
    case ClaimFeed(limit, now) => QueueStepsKeep(s, limit, 0, "", 0, 0, now);
    case CompleteFeed(item) => QueueStepsKeep(s, 0, item, "", 0, 0, 0);
    case FailFeed(item, err, retryAfter, now) => QueueStepsKeep(s, 0, item, err, retryAfter, 0, now);
    case FlushFeed(peer) => QueueStepsKeep(s, 0, 0, "", 0, peer, 0);
  }

  lemma RefusedUnchanged(s: State, id: string, info: Info, prefix: string, names: seq<string>, now: Time)
    ensures var (s', r) := Post(s, id, info, prefix, names, now);
            && (r.Refused? ==> s' == s)
            && (r.Posted? <==> id !in s.history && Used(s.groups, names) != [])
  {
  }

  lemma UpdatedKeeps(s: State, op: GroupOp, name: string, desc: string, status: string, now: Time)
    requires Inv(s)
    ensures Inv(Updated(s, op, name, desc, status, now))
  {
    hide Inv;
    GroupStepsKeep(s, name, desc, status, now);
  }

  /** The alerts do not depend on any other step. */
  lemma StepKeepsAlerts(s: State, step: Step, s': State)
    requires AlertsOk(s) && s.nextAlertID >= 0 && NextState(s, step, s')
    ensures AlertsOk(s') && s'.nextAlertID >= 0
  {
    hide AlertSeqOk, FileAll, Used, DeleteArticle, ExpiredGroup, ExpiredRow, Remaining, DeleteAll, NoteAll, ResolveAlert, ClaimItems;
    match step
    case PurgePass(ids) =>
      DeleteAllAlerts(Reblocked(s), ids);
    case CancelArticle(id, now) =>
      DeleteAllAlerts(s.(history := s.history[id := now]), [id]);
      DeleteAllOne(s.(history := s.history[id := now]), id);
    case Note(names, binary, flood, now) => NoteAcceptKeeps(s, names, binary, Defaulted(flood), now);
    case SettleAlert(alert, action) => ResolveKeeps(s, alert, action);
    case _ =>
  }

  lemma DeleteAllOne(s: State, id: string)
    ensures DeleteAll(s, [id]) == DeleteArticle(s, id)
  {
    hide DeleteArticle;
    assert [id][1..] == [];
  }

  lemma {:induction false} DeleteAllAlerts(s: State, ids: seq<string>)
    ensures var s' := DeleteAll(s, ids); s'.alerts == s.alerts && s'.nextAlertID == s.nextAlertID
    decreases |ids|
  {
    if ids != [] {
      DeleteAllAlerts(DeleteArticle(s, ids[0]), ids[1..]);
    }
  }

  /** In every run from a sound store, in which articles name their groups once, the store stays sound. */
  lemma {:induction false} RunKeepsStore(states: seq<State>, steps: seq<Step>, k: nat)
    requires Run(states, steps) && k < |states| && StoreOk(states[0])
    requires forall i | 0 <= i < |steps| :: NamesOnce(states[i], steps[i])
    ensures StoreOk(states[k])
  {
    hide NextState, Inv, AlertsOk, NamesOnce;
    if k > 0 {
      RunKeepsStore(states, steps, k - 1);
      var i := k - 1;
      assert NextState(states[i], steps[i], states[i + 1]) && NamesOnce(states[i], steps[i]);
      StepKeepsInv(states[i], steps[i], states[k]);
      StepKeepsAlerts(states[i], steps[i], states[k]);
    }
  }

  /** In particular in every run of a new server. */
  lemma RunFromEmpty(states: seq<State>, steps: seq<Step>, k: nat)
    requires Run(states, steps) && k < |states| && states[0] == EMPTY
    requires forall i | 0 <= i < |steps| :: NamesOnce(states[i], steps[i])
    ensures StoreOk(states[k])
  {
    hide NextState, NamesOnce;
    EmptyInv();
    RunKeepsStore(states, steps, k);
  }

  // ----- Leaving the store and the queue -----

  /** The steps that take an article out: cancelling it, purging it, removing its only group, and an expiry that
      finds it old in each of its groups. */
  ghost predicate TakesArticle(s: State, step: Step, id: string) {
    match step
    case CancelArticle(cancelled, now) => cancelled == id
    case PurgePass(ids) => Doomed(s, id)
    case RemoveGroup(name) => id in s.arts && s.arts[id].groups.Keys == {name}
    case ExpirePass(now, historyDays) =>
      id in s.arts && forall g | g in s.arts[id].groups :: Old(s.groups, g, s.arts[id].info.storedAt, now)
    case _ => false
  }

  /** A stored article leaves the store exactly by one of these steps. */
  lemma ArticleLeavesIff(s: State, step: Step, s': State, id: string)
    requires StoreOk(s) && NextState(s, step, s') && id in s.arts
    ensures id !in s'.arts <==> TakesArticle(s, step, id)
  {
    hide Inv, Post, DeleteArticle, Expire, DeleteAll, NoteAll, ResolveAlert, AlertsOk, Updated, ListsDoomed, ClaimItems, Doomed;
    hide DeleteGroup, SetRetention, StoreState.Enqueue, Claim, Complete, Fail, Flush, Remember, Reblocked, RetainedOnly, Cancel;
    hide OnlyArticleGoes, Old;
    match step
    case PostArticle(post, info, prefix, names, now) => PostArts(s, post, info, prefix, names, now);
    case RememberID(known, now) => CancelKeeps(s, known, now);
    case CancelArticle(cancelled, now) => CancelArts(s, cancelled, now);
    case UpdateGroup(op, name, desc, status, now) => UpdatedQueue(s, op, name, desc, status, now);
    case RemoveGroup(name) => DeleteGroupKeeps(s, name);
    case ExpirePass(now, historyDays) => ExpireArts(s, now, historyDays, id);
    case PurgePass(ids) => PurgeExact(s, ids);
    case Note(names, binary, flood, now) => NoteAcceptKeeps(s, names, binary, Defaulted(flood), now);
    case SettleAlert(alert, action) => ResolveKeeps(s, alert, action);
    case Retain(name, days, mode) => RetainArts(s, name, days, mode);
    case _ => OffTablesArts(s, step, s');
  }

  lemma PostArts(s: State, id: string, info: Info, prefix: string, names: seq<string>, now: Time)
    requires Inv(s)
    ensures var s' := Post(s, id, info, prefix, names, now).0;
            s.arts.Keys <= s'.arts.Keys && s'.queue == s.queue
  {
    hide FileAll, Used, XrefOf, Inv;
  }

  lemma CancelArts(s: State, id: string, now: Time)
    requires Inv(s)
    ensures var s' := Cancel(s, id, now).0;
            s'.arts == s.arts - {id} && forall it :: it in s'.queue <==> it in s.queue && !(id in s.arts && it.msgid == id)
  {
    hide Inv, Cancel;
    CancelKeeps(s, id, now);
  }

  lemma UpdatedQueue(s: State, op: GroupOp, name: string, desc: string, status: string, now: Time)
    ensures var s' := Updated(s, op, name, desc, status, now); s'.arts == s.arts && s'.queue == s.queue
  {
  }

  lemma ExpireArts(s: State, now: Time, historyDays: int, id: string)
    requires Inv(s) && id in s.arts
    ensures var s' := Expire(s, now, historyDays);
            && s'.queue == s.queue
            && (id in s'.arts <==> exists g | g in s.arts[id].groups :: !Old(s.groups, g, s.arts[id].info.storedAt, now))
  {
    ExpireSurvivors(s, now, historyDays, id);
    hide Inv, Old, Remaining, ExpiredGroup, ExpiredRow, Forgotten;
    var s' := Expire(s, now, historyDays);
    if g :| g in s.arts[id].groups && !Old(s.groups, g, s.arts[id].info.storedAt, now) {
      assert Files(s, id, g, s.arts[id].groups[g]);
    }
  }

  lemma RetainArts(s: State, name: string, days: Option<int>, mode: string)
    ensures var s' := SetRetention(s, name, days, mode); s'.arts == s.arts && s'.queue == s.queue
  {
  }

  lemma OffTablesArts(s: State, step: Step, s': State)
    requires NextState(s, step, s') && OffTables(step)
    ensures s'.arts == s.arts
  {
    hide ClaimItems, Queued, Post, Cancel, Updated, DeleteGroup, SetRetention, Expire, Purge, NoteAccept, ResolveAlert;
  }

  /** The steps that take an entry out of the queue: completing it, flushing its peer, and cancelling or purging its
      stored article. */
  ghost predicate TakesEntry(s: State, step: Step, it: FeedItem) {
    match step
    case CompleteFeed(item) => item == it.id
    case FlushFeed(peer) => peer <= 0 || it.peer == peer
    case CancelArticle(id, now) => id in s.arts && it.msgid == id
    case PurgePass(ids) => Doomed(s, it.msgid)
    case _ => false
  }

  /** The steps that change the queue at all. */
  predicate OnQueue(step: Step) {
    || step.CancelArticle? || step.PurgePass? || step.EnqueueFeed? || step.ClaimFeed? || step.CompleteFeed?
    || step.FailFeed? || step.FlushFeed?
  }

  lemma OffQueueSame(s: State, step: Step, s': State)
    requires StoreOk(s) && NextState(s, step, s') && !OnQueue(step)
    ensures s'.queue == s.queue
  {
    hide Inv, Post, DeleteArticle, Expire, NoteAll, ResolveAlert, AlertsOk, Updated, ListsDoomed;
    hide DeleteGroup, SetRetention, Remember, RetainedOnly, OnlyArticleGoes;
    match step
    case PostArticle(id, info, prefix, names, now) => PostArts(s, id, info, prefix, names, now);
    case RememberID(known, now) => CancelKeeps(s, known, now);
    case UpdateGroup(op, name, desc, status, now) => UpdatedQueue(s, op, name, desc, status, now);
    case RemoveGroup(name) => DeleteGroupKeeps(s, name);
    case ExpirePass(now, historyDays) => ExpireQueue(s, now, historyDays);
    case Note(names, binary, flood, now) => NoteAcceptKeeps(s, names, binary, Defaulted(flood), now);
    case SettleAlert(alert, action) => ResolveKeeps(s, alert, action);
    case Retain(name, days, mode) => RetainArts(s, name, days, mode);
    case SetBans(bans) =>
  }

  /** An entry leaves the queue exactly by one of these steps, whatever else happens to the store. */
  lemma EntryLeavesIff(s: State, step: Step, s': State, it: FeedItem)
    requires StoreOk(s) && NextState(s, step, s') && it in s.queue
    ensures Holds(s'.queue, it.id) <==> !TakesEntry(s, step, it)
  {
    hide DeleteArticle, DeleteAll, AlertsOk, ListsDoomed, Doomed, Reblocked, Cancel, Complete, Fail, Claim, Flush, StoreState.Enqueue;
    hide Post, Expire, NoteAccept, ResolveAlert, Updated, DeleteGroup, SetRetention, Remember;
    hide OnlyArticleGoes, TablesOk, ArtsOk, Holds, QueueOk;
    match step
    case CancelArticle(id, now) =>
      CancelArts(s, id, now);
      PartHolds(s, s'.queue, it);
    case PurgePass(ids) =>
      PurgeExact(s, ids);
      PartHolds(s, s'.queue, it);
    case EnqueueFeed(peer, id, now) =>
      EnqueueKeeps(s, peer, id, now);
      PrefixHolds(s.queue, s'.queue, it);
    case ClaimFeed(limit, now) => QueueStepsHold(s, limit, 0, "", 0, 0, now, it);
    case CompleteFeed(item) => QueueStepsHold(s, 0, item, "", 0, 0, 0, it);
    case FailFeed(item, err, retryAfter, now) => QueueStepsHold(s, 0, item, err, retryAfter, 0, now, it);
    case FlushFeed(peer) => QueueStepsHold(s, 0, 0, "", 0, peer, 0, it);
    case _ =>
      OffQueueSame(s, step, s');
      PrefixHolds(s.queue, s'.queue, it);
  }

  lemma PartHolds(s: State, part: seq<FeedItem>, it: FeedItem)
    requires Inv(s) && it in s.queue && forall x | x in part :: x in s.queue
    ensures Holds(part, it.id) <==> it in part
  {
    HoldsIff(s.queue, s.nextFeedID, part, it);
  }

  lemma PrefixHolds(queue: seq<FeedItem>, longer: seq<FeedItem>, it: FeedItem)
    requires it in queue && queue <= longer
    ensures Holds(longer, it.id)
  {
    var i :| 0 <= i < |queue| && queue[i] == it;
    assert longer[i] == it;
  }

  lemma ExpireQueue(s: State, now: Time, historyDays: int)
    ensures Expire(s, now, historyDays).queue == s.queue
  {
    hide Remaining, ExpiredGroup, ExpiredRow, Forgotten;
  }

  /** An entry outlives its article exactly when the article goes by removing its only group or by an expiry. */
  lemma EntryOutlivesIff(s: State, step: Step, s': State, it: FeedItem)
    requires StoreOk(s) && NextState(s, step, s') && it in s.queue && it.msgid in s.arts
    ensures it.msgid !in s'.arts && Holds(s'.queue, it.id)
       <==> (step.RemoveGroup? || step.ExpirePass?) && TakesArticle(s, step, it.msgid)
  {
    hide StoreOk, NextState, Holds, Doomed;
    ArticleLeavesIff(s, step, s', it.msgid);
    EntryLeavesIff(s, step, s', it);
  }

  // ----- Taking an article a second time -----

  /** A successful post of the ID. */
  ghost predicate Succeeds(s: State, step: Step, id: string) {
    step.PostArticle? && step.id == id && Post(s, id, step.info, step.prefix, step.names, step.now).1.Posted?
  }

  /** The expiry pass drops the ID: it is old, and its article is not stored any more. */
  ghost predicate Drops(s: State, step: Step, s': State, id: string) {
    && step.ExpirePass? && step.historyDays > 0
    && id in s.history && s.history[id] < step.now - step.historyDays * DAY && id !in s'.arts
  }

  lemma {:induction false} DeleteAllHistory(s: State, ids: seq<string>)
    ensures DeleteAll(s, ids).history == s.history
    decreases |ids|
  {
    if ids != [] {
      DeleteAllHistory(DeleteArticle(s, ids[0]), ids[1..]);
    }
  }

  lemma ShortenHistory(s: State, name: string, days: int, detail: Detail, now: Time)
    requires name in s.groups
    ensures Shorten(s, name, days, detail, now).history == s.history
    ensures Shorten(s, name, days, detail, now).groups.Keys == s.groups.Keys
  {
  }

  lemma NoteOneHistory(s: State, name: string, binary: bool, p: FloodParams, now: Time)
    ensures NoteOne(s, name, binary, p, now).0.history == s.history
  {
    hide SeedApplies, Floods, Shorten, CountSince;
    if name in s.groups {
      var s1 := s.(accepts := s.accepts[name := Accepts(s, name) + [Accept(binary, now)]]);
      ShortenHistory(s1, name, p.floodDays, Seeded(p.seedWildmat), now);
      var s2 := if SeedApplies(s.groups[name], name, p) then Shorten(s1, name, p.floodDays, Seeded(p.seedWildmat), now) else s1;
      var since := now - p.window;
      ShortenHistory(s2, name, p.floodDays,
                     Flood(CountSince(Accepts(s2, name), since, true), CountSince(Accepts(s2, name), since, false), p.window), now);
    }
  }

  lemma {:induction false} NoteHistory(s: State, names: seq<string>, binary: bool, p: FloodParams, now: Time)
    ensures NoteAll(s, names, binary, p, now).0.history == s.history
    decreases |names|
  {
    hide NoteOne, TrimSpace;
    if names != [] {
      NoteOneHistory(s, TrimSpace(names[0]), binary, p, now);
      NoteHistory(NoteOne(s, TrimSpace(names[0]), binary, p, now).0, names[1..], binary, p, now);
    }
  }

  lemma UpdatedHistory(s: State, op: GroupOp, name: string, desc: string, status: string, now: Time)
    ensures Updated(s, op, name, desc, status, now).history == s.history
  {
  }

  lemma ResolvedHistory(s: State, id: int, action: Action)
    ensures ResolveAlert(s, id, action).history == s.history
  {
    hide AlertIndex, Resolved, SettledGroup;
  }

  /** A remembered ID is forgotten exactly by an expiry pass that drops it: no cancel, purge, group removal
      or queue step makes an ID acceptable again. */
  lemma ForgottenIff(s: State, step: Step, s': State, id: string)
    requires NextState(s, step, s') && id in s.history
    ensures id !in s'.history <==> Drops(s, step, s', id)
  {
    hide FileAll, Used, ExpiredGroup, ExpiredRow, Remaining, DeleteAll, NoteAll, ClaimItems, Updated, ResolveAlert, ListsDoomed;
    match step
    case UpdateGroup(op, name, desc, status, now) => UpdatedHistory(s, op, name, desc, status, now);
    case SettleAlert(alert, action) => ResolvedHistory(s, alert, action);
    case PurgePass(ids) => DeleteAllHistory(Reblocked(s), ids);
    case Note(names, binary, flood, now) => NoteHistory(s, names, binary, Defaulted(flood), now);
    case _ =>
  }

  lemma {:induction false} StaysRemembered(states: seq<State>, steps: seq<Step>, id: string, i: nat, j: nat)
    requires Run(states, steps) && i <= j < |states| && id in states[i].history
    requires forall k | i <= k < j :: !Drops(states[k], steps[k], states[k + 1], id)
    ensures id in states[j].history
    decreases j
  {
    hide NextState, Drops;
    if i < j {
      StaysRemembered(states, steps, id, i, j - 1);
      var k := j - 1;
      assert NextState(states[k], steps[k], states[k + 1]);
      ForgottenIff(states[k], steps[k], states[k + 1], id);
    }
  }

  /** Between two successful posts of one Message-ID, an expiry pass dropped it while it was not stored and
      older than the history limit. */
  lemma AcceptedTwice(states: seq<State>, steps: seq<Step>, id: string, i: nat, j: nat)
    requires Run(states, steps) && i < j < |steps|
    requires Succeeds(states[i], steps[i], id) && Succeeds(states[j], steps[j], id)
    ensures exists k | i < k < j :: Drops(states[k], steps[k], states[k + 1], id)
  {
    hide Drops, FileAll, Used;
    assert NextState(states[i], steps[i], states[i + 1]);
    assert id in states[i + 1].history;
    if forall k | i + 1 <= k < j :: !Drops(states[k], steps[k], states[k + 1], id) {
      StaysRemembered(states, steps, id, i + 1, j);
    }
  }

  // ----- What a number denotes -----

  /** Number `n` of the group is issued, and denotes the article or nothing. */
  ghost predicate Settled(s: State, g: string, n: int, id: string) {
    && g in s.groups && 1 <= n <= s.groups[g].high
    && (n in Row(s.byNum, g) ==> Row(s.byNum, g)[n] == id)
  }

  /** The steps that may take numbers back: removing the group, and an expiry that does not keep its top. */
  ghost predicate KeepsNumbers(s: State, step: Step, g: string) {
    && step != RemoveGroup(g)
    && (step.ExpirePass? ==> g in s.groups && g in s.byNum ==> TopStays(s, g, step.now))
  }

  lemma DeleteSettled(s: State, id: string, g: string, n: int, a: string)
    requires Settled(s, g, n, a)
    ensures Settled(DeleteArticle(s, id), g, n, a)
    ensures DeleteArticle(s, id).groups[g].high == s.groups[g].high
  {
  }

  lemma {:induction false} DeleteAllSettled(s: State, ids: seq<string>, g: string, n: int, a: string)
    requires Settled(s, g, n, a)
    ensures Settled(DeleteAll(s, ids), g, n, a)
    ensures DeleteAll(s, ids).groups[g].high == s.groups[g].high
    decreases |ids|
  {
    hide DeleteArticle, Settled;
    if ids != [] {
      DeleteSettled(s, ids[0], g, n, a);
      DeleteAllSettled(DeleteArticle(s, ids[0]), ids[1..], g, n, a);
    } else {
      assert Settled(s, g, n, a);
    }
  }

  lemma PostSettled(s: State, id: string, info: Info, prefix: string, names: seq<string>, now: Time, g: string, n: int, a: string)
    requires Settled(s, g, n, a)
    ensures var s' := Post(s, id, info, prefix, names, now).0;
            Settled(s', g, n, a) && s'.groups[g].high >= s.groups[g].high
  {
    hide FileAll, Used, Occurrences;
    var used := Used(s.groups, names);
    if id !in s.history && used != [] {
      FileAllAt(FilingOf(s), used, id, g);
    }
  }

  lemma UpdateSettled(s: State, op: GroupOp, name: string, desc: string, status: string, now: Time, g: string, n: int, a: string)
    requires Settled(s, g, n, a)
    ensures var s' := Updated(s, op, name, desc, status, now);
            Settled(s', g, n, a) && s'.groups[g].high == s.groups[g].high
  {
  }

  lemma ExpireSettled(s: State, now: Time, historyDays: int, g: string, n: int, a: string)
    requires Inv(s) && Settled(s, g, n, a) && TopStays(s, g, now)
    ensures var s' := Expire(s, now, historyDays);
            Settled(s', g, n, a) && s'.groups[g].high == s.groups[g].high
  {
    hide GroupOk, QueueOk, ArtsOk, FiledOk, RowOk, ExpiredGroup, Remaining, TopStays;
    ExpireHighIff(s, now, historyDays, g);
  }

  lemma SameTablesSettled(s: State, s': State, g: string, n: int, a: string)
    requires Settled(s, g, n, a) && SameTables(s, s')
    ensures Settled(s', g, n, a) && s'.groups[g].high == s.groups[g].high
  {
  }

  lemma SameIndexSettled(s: State, s': State, g: string, n: int, a: string)
    requires Settled(s, g, n, a) && s'.groups == s.groups && s'.byNum == s.byNum
    ensures Settled(s', g, n, a) && s'.groups[g].high == s.groups[g].high
  {
  }

  /** Steps that leave the group tables as they are. */
  predicate OffTables(step: Step) {
    || step.RememberID? || step.SetBans? || step.EnqueueFeed? || step.ClaimFeed? || step.CompleteFeed?
    || step.FailFeed? || step.FlushFeed?
  }

  lemma OffTablesSame(s: State, step: Step, s': State)
    requires NextState(s, step, s') && OffTables(step)
    ensures s'.groups == s.groups && s'.byNum == s.byNum
  {
    hide ClaimItems, Queued, Post, Cancel, Updated, DeleteGroup, SetRetention, Expire, Purge, NoteAccept, ResolveAlert;
  }

  lemma RetainSettled(s: State, name: string, days: Option<int>, mode: string, g: string, n: int, a: string)
    requires Settled(s, g, n, a)
    ensures Settled(SetRetention(s, name, days, mode), g, n, a)
    ensures SetRetention(s, name, days, mode).groups[g].high == s.groups[g].high
  {
  }

  lemma RemoveSettled(s: State, name: string, g: string, n: int, a: string)
    requires Settled(s, g, n, a) && name != g
    ensures Settled(DeleteGroup(s, name), g, n, a) && DeleteGroup(s, name).groups[g].high == s.groups[g].high
  {
  }

  /** A step that keeps numbers never lowers High nor gives an issued number to another article. */
  lemma StepSettled(s: State, step: Step, s': State, g: string, n: int, a: string)
    requires StoreOk(s) && NextState(s, step, s') && KeepsNumbers(s, step, g) && Settled(s, g, n, a)
    ensures Settled(s', g, n, a) && s'.groups[g].high >= s.groups[g].high
  {
    hide Inv, Post, DeleteArticle, Expire, DeleteAll, NoteAll, ResolveAlert, AlertsOk, Updated, TopStays, ListsDoomed, ClaimItems;
    hide DeleteGroup, SetRetention, StoreState.Enqueue, Claim, Complete, Fail, Flush, Remember, SameTables;
    match step
    case PostArticle(id, info, prefix, names, now) => PostSettled(s, id, info, prefix, names, now, g, n, a);
    case CancelArticle(id, now) => DeleteSettled(s.(history := s.history[id := now]), id, g, n, a);
    case UpdateGroup(op, name, desc, status, now) => UpdateSettled(s, op, name, desc, status, now, g, n, a);
    case RemoveGroup(name) => RemoveSettled(s, name, g, n, a);
    case Retain(name, days, mode) => RetainSettled(s, name, days, mode, g, n, a);
    case ExpirePass(now, historyDays) =>
      GroupHasRow(s, g);
      ExpireSettled(s, now, historyDays, g, n, a);
    case PurgePass(ids) => DeleteAllSettled(Reblocked(s), ids, g, n, a);
    case Note(names, binary, flood, now) =>
      NoteAcceptKeeps(s, names, binary, Defaulted(flood), now);
      SameTablesSettled(s, s', g, n, a);
    case SettleAlert(alert, action) =>
      ResolveKeeps(s, alert, action);
      SameTablesSettled(s, s', g, n, a);
    case _ =>
      OffTablesSame(s, step, s');
      SameIndexSettled(s, s', g, n, a);
  }

  lemma GroupHasRow(s: State, g: string)
    requires Inv(s) && g in s.groups
    ensures g in s.byNum
  {
  }

  /** Nothing but a removal takes a group away. */
  lemma StepKeepsGroup(s: State, step: Step, s': State, g: string)
    requires StoreOk(s) && NextState(s, step, s') && g in s.groups && step != RemoveGroup(g)
    ensures g in s'.groups
  {
    hide Inv, Post, DeleteArticle, Expire, DeleteAll, NoteAll, ResolveAlert, AlertsOk, Updated, ListsDoomed, ClaimItems, Doomed;
    hide DeleteGroup, SetRetention, StoreState.Enqueue, Claim, Complete, Fail, Flush, Remember, Reblocked, RetainedOnly, Cancel;
    hide OnlyArticleGoes;
    match step
    case PostArticle(id, info, prefix, names, now) => PostGroups(s, id, info, prefix, names, now);
    case RememberID(id, now) => CancelKeeps(s, id, now);
    case CancelArticle(id, now) => CancelGroups(s, id, now);
    case UpdateGroup(op, name, desc, status, now) => UpdateGroups(s, op, name, desc, status, now);
    case RemoveGroup(name) => DeleteGroupKeeps(s, name);
    case ExpirePass(now, historyDays) => ExpireGroups(s, now, historyDays);
    case PurgePass(ids) => PurgeExact(s, ids);
    case Note(names, binary, flood, now) => NoteAcceptKeeps(s, names, binary, Defaulted(flood), now);
    case SettleAlert(alert, action) => ResolveKeeps(s, alert, action);
    case Retain(name, days, mode) => RetainGroups(s, name, days, mode);
    case _ => OffTablesSame(s, step, s');
  }

  lemma PostGroups(s: State, id: string, info: Info, prefix: string, names: seq<string>, now: Time)
    ensures Post(s, id, info, prefix, names, now).0.groups.Keys == s.groups.Keys
  {
    hide FileAll, Used, XrefOf;
    if id !in s.history && Used(s.groups, names) != [] {
      FileAllKeys(FilingOf(s), Used(s.groups, names), id);
    }
  }

  lemma CancelGroups(s: State, id: string, now: Time)
    requires Inv(s)
    ensures Cancel(s, id, now).0.groups.Keys == s.groups.Keys
  {
    hide Inv, Cancel;
    CancelKeeps(s, id, now);
  }

  lemma UpdateGroups(s: State, op: GroupOp, name: string, desc: string, status: string, now: Time)
    ensures s.groups.Keys <= Updated(s, op, name, desc, status, now).groups.Keys
  {
    GroupNumbersStay(s, name, desc, status, now);
    hide EnsureGroup, EnsureGroupISC, ApplyControlGroup, DisableControlGroup;
  }

  lemma ExpireGroups(s: State, now: Time, historyDays: int)
    ensures Expire(s, now, historyDays).groups.Keys == s.groups.Keys
  {
    hide Remaining, ExpiredGroup, ExpiredRow, Forgotten;
  }

  lemma RetainGroups(s: State, name: string, days: Option<int>, mode: string)
    ensures SetRetention(s, name, days, mode).groups.Keys == s.groups.Keys
  {
  }

  /** A step that keeps numbers never lowers High, also of a group that never had an article. */
  lemma StepHigh(s: State, step: Step, s': State, g: string)
    requires StoreOk(s) && NextState(s, step, s') && NamesOnce(s, step) && KeepsNumbers(s, step, g) && g in s.groups
    ensures g in s'.groups && s'.groups[g].high >= s.groups[g].high
  {
    hide NextState, Inv, AlertsOk, NamesOnce;
    var n := s.groups[g].high;
    StepKeepsGroup(s, step, s', g);
    if n > 0 {
      GroupHasRow(s, g);
      var a := if n in s.byNum[g] then s.byNum[g][n] else "";
      StepSettled(s, step, s', g, n, a);
    } else {
      StepKeepsInv(s, step, s');
      GroupPositive(s', g);
      GroupPositive(s, g);
    }
  }

  /** An issued number denotes what it did or nothing. */
  ghost predicate DenotesLess(s: State, s': State, g: string, n: int) {
    n in Row(s'.byNum, g) ==> n in Row(s.byNum, g) && Row(s'.byNum, g)[n] == Row(s.byNum, g)[n]
  }

  lemma StepDenotes(s: State, step: Step, s': State, g: string, n: int)
    requires StoreOk(s) && NextState(s, step, s') && KeepsNumbers(s, step, g)
    requires g in s.groups && 1 <= n <= s.groups[g].high
    ensures DenotesLess(s, s', g, n)
  {
    hide NextState, StoreOk, KeepsNumbers;
    if n in Row(s.byNum, g) {
      StepSettled(s, step, s', g, n, Row(s.byNum, g)[n]);
    } else {
      StepSettled(s, step, s', g, n, "");
      StepSettled(s, step, s', g, n, "a");
    }
  }

  /** In a run without removal of the group and without an expiry that takes back its top number, the group's High
      never decreases, and a number once issued denotes its article or nothing, and once nothing, nothing for good
      (section 6.1.1.2 of RFC 3977). */
  lemma {:induction false} NumberNeverReused(states: seq<State>, steps: seq<Step>, i: nat, j: nat, g: string)
    requires Run(states, steps) && StoreOk(states[0]) && i <= j < |states|
    requires forall k | 0 <= k < |steps| :: NamesOnce(states[k], steps[k])
    requires forall k | i <= k < j :: KeepsNumbers(states[k], steps[k], g)
    requires g in states[i].groups
    ensures g in states[j].groups && states[i].groups[g].high <= states[j].groups[g].high
    ensures forall n | 1 <= n <= states[i].groups[g].high :: DenotesLess(states[i], states[j], g, n)
    decreases j
  {
    hide NextState, Inv, AlertsOk, NamesOnce, KeepsNumbers;
    if i < j {
      NumberNeverReused(states, steps, i, j - 1, g);
      var k := j - 1;
      RunKeepsStore(states, steps, k);
      assert NextState(states[k], steps[k], states[k + 1]) && KeepsNumbers(states[k], steps[k], g) && NamesOnce(states[k], steps[k]);
      StepHigh(states[k], steps[k], states[j], g);
      forall n | 1 <= n <= states[i].groups[g].high
        ensures DenotesLess(states[i], states[j], g, n)
      {
        assert DenotesLess(states[i], states[k], g, n);
        StepDenotes(states[k], steps[k], states[j], g, n);
      }
    }
  }

  lemma {:induction false} NothingStays(s: State, row: map<int, string>, nums: seq<int>, cutoff: Time)
    requires forall n | n in nums :: !Stays(s, row, n, cutoff)
    ensures Staying(s, row, nums, cutoff) == []
  {
    hide Stays;
    if nums != [] {
      NothingStays(s, row, nums[1..], cutoff);
    }
  }

  /** An expiry that empties a group takes its numbers back: the next article is number 1 again, whichever
      article had that number before. */
  lemma ExpiryReusesNumbers(s: State, g: string, now: Time, historyDays: int, id: string, info: Info)
    requires Inv(s) && g in s.groups && s.groups[g].status != "n" && s.groups[g].nums != []
    requires Cutoff(s.groups[g], now).Some?
    requires forall a, n | Files(s, a, g, n) :: s.arts[a].info.storedAt < Cutoff(s.groups[g], now).value
    requires id !in Expire(s, now, historyDays).history
    ensures var s' := Expire(s, now, historyDays);
            var r := Post(s', id, info, "", [g], now).1;
            r.Posted? && g in r.numbers && r.numbers[g] == 1 <= s.groups[g].high
  {
    hide QueueOk, ArtsOk, Remaining, FileAll;
    var s' := Expire(s, now, historyDays);
    var mg, row := s.groups[g], s.byNum[g];
    var keep := Staying(s, row, mg.nums, Cutoff(mg, now).value);
    forall n | n in mg.nums
      ensures !Stays(s, row, n, Cutoff(mg, now).value)
    {
      assert Indexed(s, row[n], g, n);
      assert Files(s, row[n], g, n);
    }
    NothingStays(s, row, mg.nums, Cutoff(mg, now).value);
    assert mg.nums[0] in mg.nums;
    assert s'.groups[g].high == 0;
    assert Used(s'.groups, [g]) == [g] by {
      assert [g][1..] == [];
      assert Used(s'.groups, []) == [];
    }
    FileAllAt(FilingOf(s'), [g], id, g);
    assert Occurrences([g], g) == 1 by {
      assert [g][1..] == [];
    }
  }

  // ----- Whitelisted groups -----

  function Retention(g: Group): (Option<int>, string) {
    (g.retentionDays, g.retentionMode)
  }

  /** What a step makes of the retention of a whitelisted group: an administrator may set it or settle an alert of the
      group, and a purge blocks the group if it has a blocked alert. */
  ghost function RetentionAfter(s: State, step: Step, g: string): (Option<int>, string)
    requires g in s.groups
  {
    match step
    case Retain(name, days, mode) => if name == g then (days, mode) else Retention(s.groups[g])
    case SettleAlert(alert, action) =>
      var i := AlertIndex(s.alerts, alert);
      if i < |s.alerts| && s.alerts[i].group == g then Retention(SettledGroup(s.groups[g], action)) else Retention(s.groups[g])
    case PurgePass(ids) => if Alerted(s, g) then (None, BLOCKED) else Retention(s.groups[g])
    case _ => Retention(s.groups[g])
  }

  ghost predicate Whitelisted(s: State, g: string) {
    g in s.groups && s.groups[g].retentionMode == WHITELIST
  }

  lemma WhitelistStep(s: State, step: Step, s': State, g: string)
    requires StoreOk(s) && NextState(s, step, s') && Whitelisted(s, g) && step != RemoveGroup(g)
    ensures g in s'.groups && Retention(s'.groups[g]) == RetentionAfter(s, step, g)
  {
    hide Inv, Post, DeleteArticle, Expire, DeleteAll, NoteAll, ResolveAlert, AlertsOk, Updated, ListsDoomed, ClaimItems, Alerted;
    hide StoreState.Enqueue, Claim, Complete, Fail, Flush, Remember, Reblocked, Cancel, Purge, SettledGroup, AlertIndex;
    StepKeepsGroup(s, step, s', g);
    match step
    case PostArticle(id, info, prefix, names, now) => PostRetention(s, id, info, prefix, names, now, g);
    case CancelArticle(id, now) => DeleteRetention(s.(history := s.history[id := now]), [id], g);
      CancelIsDelete(s, id, now);
    case UpdateGroup(op, name, desc, status, now) => UpdateRetention(s, op, name, desc, status, now, g);
    case RemoveGroup(name) =>
    case ExpirePass(now, historyDays) => ExpireRetention(s, now, historyDays, g);
    case PurgePass(ids) => PurgeRetention(s, ids, g);
    case Note(names, binary, flood, now) => NoteAcceptKeeps(s, names, binary, Defaulted(flood), now);
    case SettleAlert(alert, action) => SettleRetention(s, alert, action, g);
    case Retain(name, days, mode) =>
    case _ => OffTablesSame(s, step, s');
  }

  lemma PostRetention(s: State, id: string, info: Info, prefix: string, names: seq<string>, now: Time, g: string)
    requires Inv(s) && g in s.groups
    ensures var s' := Post(s, id, info, prefix, names, now).0; g in s'.groups && Retention(s'.groups[g]) == Retention(s.groups[g])
  {
    GroupPositive(s, g);
    hide FileAll, Used, XrefOf, Occurrences, Inv;
    var used := Used(s.groups, names);
    if id !in s.history && used != [] {
      FileAllAt(FilingOf(s), used, id, g);
    }
  }

  lemma CancelIsDelete(s: State, id: string, now: Time)
    ensures Cancel(s, id, now).0 == DeleteAll(s.(history := s.history[id := now]), [id])
  {
    DeleteAllOne(s.(history := s.history[id := now]), id);
    hide DeleteArticle, DeleteAll;
  }

  lemma {:induction false} DeleteRetention(s: State, ids: seq<string>, g: string)
    requires g in s.groups
    ensures var s' := DeleteAll(s, ids); g in s'.groups && Retention(s'.groups[g]) == Retention(s.groups[g])
    decreases |ids|
  {
    hide Unqueued, Except;
    if ids != [] {
      DeleteRetention(DeleteArticle(s, ids[0]), ids[1..], g);
    }
  }

  lemma OneRetention(s: State, name: string, h: Group, g: string)
    requires g in s.groups && (name in s.groups ==> Retention(h) == Retention(s.groups[name]))
    ensures Retention(SetGroup(s, name, h).groups[g]) == Retention(s.groups[g])
    ensures name !in s.groups ==> AddGroup(s, name, h).groups[g] == s.groups[g]
  {
  }

  lemma UpdateRetention(s: State, op: GroupOp, name: string, desc: string, status: string, now: Time, g: string)
    requires g in s.groups
    ensures var s' := Updated(s, op, name, desc, status, now); g in s'.groups && Retention(s'.groups[g]) == Retention(s.groups[g])
  {
    hide DescOr, StatusOr, SetGroup, AddGroup;
    UpdateGroups(s, op, name, desc, status, now);
    if name !in s.groups {
      OneRetention(s, name, NewGroup(desc, StatusOr(status), LOCAL, now), g);
      OneRetention(s, name, NewGroup(desc, StatusOr(status), ISC, now), g);
      OneRetention(s, name, NewGroup(desc, StatusOr(status), CONTROL, now), g);
      OneRetention(s, name, NewGroup("", "n", CONTROL, now), g);
    } else {
      var mg := s.groups[name];
      var h := mg.(description := DescOr(mg, desc), status := StatusOr(status));
      OneRetention(s, name, h.(origin := if mg.origin == "" || mg.origin == ISC then LOCAL else mg.origin), g);
      OneRetention(s, name, h.(origin := ISC), g);
      OneRetention(s, name, h.(origin := CONTROL), g);
      OneRetention(s, name, mg.(status := "n", origin := CONTROL), g);
    }
  }

  lemma ExpireRetention(s: State, now: Time, historyDays: int, g: string)
    requires g in s.groups
    ensures var s' := Expire(s, now, historyDays); g in s'.groups && Retention(s'.groups[g]) == Retention(s.groups[g])
  {
    hide Remaining, ExpiredRow, Forgotten, Staying, Cutoff;
  }

  lemma PurgeRetention(s: State, ids: seq<string>, g: string)
    requires g in s.groups
    ensures var s' := Purge(s, ids);
            g in s'.groups && Retention(s'.groups[g]) == if Alerted(s, g) then (None, BLOCKED) else Retention(s.groups[g])
  {
    DeleteRetention(Reblocked(s), ids, g);
    hide DeleteAll, Alerted;
  }

  lemma SettleRetention(s: State, alert: int, action: Action, g: string)
    requires g in s.groups
    ensures var s', i := ResolveAlert(s, alert, action), AlertIndex(s.alerts, alert);
            g in s'.groups
            && Retention(s'.groups[g]) ==
                 Retention(if i < |s.alerts| && s.alerts[i].group == g then SettledGroup(s.groups[g], action) else s.groups[g])
  {
    hide AlertIndex, SettledGroup, Resolved, StoreAlerts.Settled, Retention;
    var i := AlertIndex(s.alerts, alert);
    if i < |s.alerts| {
      SettledGroups(s, i, action, g);
    }
  }

  lemma SettledGroups(s: State, i: nat, action: Action, g: string)
    requires g in s.groups && i < |s.alerts|
    ensures var s' := StoreAlerts.Settled(s, i, action);
            g in s'.groups && s'.groups[g] == if s.alerts[i].group == g then SettledGroup(s.groups[g], action) else s.groups[g]
  {
    hide SettledGroup, Resolved;
  }

  /** A step that changes the retention of a whitelisted group, or removes it. */
  ghost predicate Releases(s: State, step: Step, g: string) {
    step == RemoveGroup(g) || (g in s.groups && RetentionAfter(s, step, g) != Retention(s.groups[g]))
  }

  /** A whitelisted group keeps its retention in every run, whatever is posted to it and however often binaries are
      noted, until an administrator changes it, a purge applies a blocked alert, or it is removed. */
  lemma {:induction false} WhitelistKept(states: seq<State>, steps: seq<Step>, i: nat, j: nat, g: string)
    requires Run(states, steps) && StoreOk(states[0]) && i <= j < |states|
    requires forall k | 0 <= k < |steps| :: NamesOnce(states[k], steps[k])
    requires Whitelisted(states[i], g) && forall k | i <= k < j :: !Releases(states[k], steps[k], g)
    ensures Whitelisted(states[j], g) && states[j].groups[g].retentionDays == states[i].groups[g].retentionDays
    decreases j
  {
    hide NextState, StoreOk, NamesOnce, RetentionAfter;
    if i < j {
      WhitelistKept(states, steps, i, j - 1, g);
      var k := j - 1;
      RunKeepsStore(states, steps, k);
      assert NextState(states[k], steps[k], states[k + 1]) && !Releases(states[k], steps[k], g);
      WhitelistStep(states[k], steps[k], states[j], g);
    }
  }

  /** After an administrator whitelists a group by its alert, nothing of it expires until one of these steps. */
  lemma WhitelistHolds(states: seq<State>, steps: seq<Step>, i: nat, j: nat, g: string, alert: int)
    requires Run(states, steps) && StoreOk(states[0]) && i < j < |states|
    requires forall k | 0 <= k < |steps| :: NamesOnce(states[k], steps[k])
    requires steps[i] == SettleAlert(alert, Whitelist) && g in states[i].groups
    requires var a := AlertIndex(states[i].alerts, alert); a < |states[i].alerts| && states[i].alerts[a].group == g
    requires forall k | i < k < j :: !Releases(states[k], steps[k], g)
    ensures Whitelisted(states[j], g) && states[j].groups[g].retentionDays == None
    ensures forall now :: Cutoff(states[j].groups[g], now) == None
  {
    hide StoreOk, NamesOnce, Releases, AlertIndex, ResolveAlert;
    assert NextState(states[i], steps[i], states[i + 1]);
    SettleRetention(states[i], alert, Whitelist, g);
    WhitelistKept(states, steps, i + 1, j, g);
  }
}
