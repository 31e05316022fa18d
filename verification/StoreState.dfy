/** The article store as a value: its tables and what every operation does to them. */
module StoreState {
  import opened Text
  import Decimal

  /** Times and durations in nanoseconds. */
  type Time = int
  const MINUTE: int := 60_000_000_000
  const DAY: int := 1440 * MINUTE

  // ----- Tables -----

  datatype Group = Group(
    description: string, status: string, origin: string, createdAt: Time,
    retentionDays: Option<int>, retentionMode: string,
    low: int, high: int, count: int, nums: seq<int>)

  const ISC := "isc"
  const CONTROL := "control"
  const LOCAL := "local"

  const AUTO := "auto"
  const WHITELIST := "whitelist"
  const BLOCKED := "blocked"

  /** What is kept of an article besides where it is filed. */
  datatype Info = Info(
    headers: string, body: string, subject: string, from: string, date: string, refs: string,
    bytes: int, lines: int, isBinary: bool, storedAt: Time)

  datatype Art = Art(info: Info, xref: string, groups: map<string, int>)

  datatype FeedItem = FeedItem(
    id: int, peer: int, msgid: string, attempts: int, nextAttempt: Time, lastError: string, createdAt: Time)

  datatype AlertStatus = Open | Blocked | Whitelisted | Dismissed

  datatype Detail = Seeded(wildmat: string) | Flood(bins: int, total: int, window: int)

  datatype Alert = Alert(id: int, group: string, detail: Detail, status: AlertStatus, createdAt: Time)

  datatype Accept = Accept(binary: bool, at: Time)

  /** `byNum` gives the Message-ID of the article with a number in a group. */
  datatype State = State(
    groups: map<string, Group>,
    arts: map<string, Art>,
    byNum: map<string, map<int, string>>,
    history: map<string, Time>,
    queue: seq<FeedItem>, nextFeedID: int,
    alerts: seq<Alert>, nextAlertID: int,
    accepts: map<string, seq<Accept>>,
    bans: seq<string>)

  const EMPTY := State(map[], map[], map[], map[], [], 0, [], 0, map[], [])

  // ----- Groups -----

  function NewGroup(desc: string, status: string, origin: string, now: Time): Group {
    Group(desc, status, origin, now, None, "", 0, 0, 0, [])
  }

  function StatusOr(status: string): string {
    if status == "" then "y" else status
  }

  function DescOr(g: Group, desc: string): string {
    if desc == "" then g.description else desc
  }

  function AddGroup(s: State, name: string, g: Group): State {
    s.(groups := s.groups[name := g], byNum := s.byNum[name := map[]])
  }

  function SetGroup(s: State, name: string, g: Group): State {
    s.(groups := s.groups[name := g])
  }

  /** Creating or updating a group from the configuration or by an administrator. */
  function EnsureGroup(s: State, name: string, desc: string, status: string, now: Time): State {
    if name !in s.groups then AddGroup(s, name, NewGroup(desc, StatusOr(status), LOCAL, now))
    else
      var g := s.groups[name];
      var origin := if g.origin == "" || g.origin == ISC then LOCAL else g.origin;
      SetGroup(s, name, g.(description := DescOr(g, desc), status := StatusOr(status), origin := origin))
  }

  /** Creating or updating a group from the ISC list, which every other source overrides. */
  function EnsureGroupISC(s: State, name: string, desc: string, status: string, now: Time): State {
    if name !in s.groups then AddGroup(s, name, NewGroup(desc, StatusOr(status), ISC, now))
    else
      var g := s.groups[name];
      if g.origin != ISC && g.origin != "" then s
      else SetGroup(s, name, g.(description := DescOr(g, desc), status := StatusOr(status), origin := ISC))
  }

  function ApplyControlGroup(s: State, name: string, desc: string, status: string, now: Time): State {
    if name !in s.groups then AddGroup(s, name, NewGroup(desc, StatusOr(status), CONTROL, now))
    else
      var g := s.groups[name];
      SetGroup(s, name, g.(description := DescOr(g, desc), status := StatusOr(status), origin := CONTROL))
  }

  function DisableControlGroup(s: State, name: string, now: Time): State {
    if name !in s.groups then AddGroup(s, name, NewGroup("", "n", CONTROL, now))
    else SetGroup(s, name, s.groups[name].(status := "n", origin := CONTROL))
  }

  // ----- Posting -----

  datatype PostError = Duplicate | NoGroup
  datatype PostOutcome = Posted(xref: string, numbers: map<string, int>) | Refused(error: PostError)

  /** The groups of an article that exist and take articles. */
  function Used(groups: map<string, Group>, names: seq<string>): (used: seq<string>)
    ensures forall g | g in used :: g in groups && groups[g].status != "n"
    ensures forall g | g in used :: g in names
  {
    if names == [] then []
    else
      var rest := Used(groups, names[1..]);
      if names[0] in groups && groups[names[0]].status != "n" then [names[0]] + rest else rest
  }

  /** A group with its next number issued. */
  function Bump(g: Group): Group {
    var n := g.high + 1;
    g.(high := n, low := if g.low == 0 then n else g.low, count := g.count + 1, nums := g.nums + [n])
  }

  function Row(byNum: map<string, map<int, string>>, g: string): map<int, string> {
    if g in byNum then byNum[g] else map[]
  }

  /** An article being filed: the group tables so far, and the numbers it got. */
  datatype Filing = Filing(
    groups: map<string, Group>, byNum: map<string, map<int, string>>, numbers: map<string, int>, parts: seq<string>)

  function FileOne(f: Filing, g: string, id: string): Filing
    requires g in f.groups
  {
    var mg := Bump(f.groups[g]);
    Filing(f.groups[g := mg], f.byNum[g := Row(f.byNum, g)[mg.high := id]], f.numbers[g := mg.high],
           f.parts + [g + ":" + Decimal.Format(mg.high)])
  }

  function FileAll(f: Filing, used: seq<string>, id: string): Filing
    requires forall g | g in used :: g in f.groups
    decreases |used|
  {
    if used == [] then f else FileAll(FileOne(f, used[0], id), used[1..], id)
  }

  function XrefOf(prefix: string, parts: seq<string>): string {
    if TrimSpace(prefix) == "" then Join(parts, ' ') else TrimSpace(prefix) + " " + Join(parts, ' ')
  }

  function FilingOf(s: State): Filing {
    Filing(s.groups, s.byNum, map[], [])
  }

  function Post(s: State, id: string, info: Info, prefix: string, groups: seq<string>, now: Time): (State, PostOutcome) {
    if id in s.history then (s, Refused(Duplicate))
    else
      var used := Used(s.groups, groups);
      if used == [] then (s, Refused(NoGroup))
      else
        var f := FileAll(FilingOf(s), used, id);
        var xref := XrefOf(prefix, f.parts);
        (s.(groups := f.groups, byNum := f.byNum,
            arts := s.arts[id := Art(info.(storedAt := now), xref, f.numbers)],
            history := s.history[id := now]),
         Posted(xref, f.numbers))
  }

  // ----- Removing articles -----

  function Remember(s: State, id: string, now: Time): State {
    if id in s.history then s else s.(history := s.history[id := now])
  }

  /** The numbers other than `n`, in their order. */
  function Except(nums: seq<int>, n: int): seq<int> {
    if nums == [] then []
    else if nums[0] == n then Except(nums[1..], n)
    else [nums[0]] + Except(nums[1..], n)
  }

  function Least(nums: seq<int>): (m: int)
    requires nums != []
    ensures m in nums && forall x | x in nums :: m <= x
  {
    if |nums| == 1 then nums[0]
    else
      var m := Least(nums[1..]);
      assert nums == [nums[0]] + nums[1..];
      if nums[0] < m then nums[0] else m
  }

  /** A group without one of its numbers. */
  function Remove(g: Group, n: int): Group {
    var nums := Except(g.nums, n);
    g.(count := if g.count - 1 < 0 then 0 else g.count - 1, nums := nums,
       low := if nums == [] then g.high else Least(nums))
  }

  /** The queue entries of other articles. */
  function Unqueued(queue: seq<FeedItem>, id: string): seq<FeedItem> {
    if queue == [] then []
    else (if queue[0].msgid == id then [] else [queue[0]]) + Unqueued(queue[1..], id)
  }

  /** Deleting an article from every group; history is left in place. */
  function DeleteArticle(s: State, id: string): State {
    if id !in s.arts then s
    else
      var filed := s.arts[id].groups;
      s.(groups := map g | g in s.groups :: if g in filed then Remove(s.groups[g], filed[g]) else s.groups[g],
         byNum := map g | g in s.byNum :: if g in filed then s.byNum[g] - {filed[g]} else s.byNum[g],
         arts := s.arts - {id},
         queue := Unqueued(s.queue, id))
  }

  function Cancel(s: State, id: string, now: Time): (State, bool) {
    (DeleteArticle(s.(history := s.history[id := now]), id), id in s.arts)
  }

  /** Removing a group, and the articles that are filed nowhere else. */
  function DeleteGroup(s: State, name: string): State {
    if name !in s.groups then s
    else
      s.(arts := map id | id in s.arts && !(name in s.arts[id].groups && s.arts[id].groups - {name} == map[]) ::
                   s.arts[id].(groups := s.arts[id].groups - {name}),
         groups := s.groups - {name},
         byNum := s.byNum - {name})
  }

  // ----- Retention -----

  /** The time before which articles of a group expire. */
  function Cutoff(g: Group, now: Time): Option<Time> {
    if g.retentionDays.Some? && g.retentionDays.value > 0 then Some(now - g.retentionDays.value * DAY) else None
  }

  /** Whether an article stored at that time expires from a group. */
  predicate Old(groups: map<string, Group>, g: string, storedAt: Time, now: Time) {
    g in groups && Cutoff(groups[g], now).Some? && storedAt < Cutoff(groups[g], now).value
  }

  /** Whether number `n` of a group stays: it has an article, and that was stored at the cutoff or later. */
  predicate Stays(s: State, row: map<int, string>, n: int, cutoff: Time) {
    n in row && !(row[n] in s.arts && s.arts[row[n]].info.storedAt < cutoff)
  }

  /** The numbers of a group whose articles stay. */
  function Staying(s: State, row: map<int, string>, nums: seq<int>, cutoff: Time): seq<int> {
    if nums == [] then []
    else
      var rest := Staying(s, row, nums[1..], cutoff);
      if Stays(s, row, nums[0], cutoff) then [nums[0]] + rest else rest
  }

  /** A group left with these numbers by an expiry. */
  function Renumbered(g: Group, keep: seq<int>): Group {
    if keep == [] then g.(nums := [], low := 0, high := 0, count := 0)
    else g.(nums := keep, low := keep[0], high := keep[|keep| - 1], count := |keep|)
  }

  function ExpiredGroup(s: State, name: string, now: Time): Group
    requires name in s.groups
  {
    var g := s.groups[name];
    match Cutoff(g, now)
    case None => g
    case Some(cutoff) => Renumbered(g, Staying(s, Row(s.byNum, name), g.nums, cutoff))
  }

  function ExpiredRow(s: State, name: string, now: Time): map<int, string>
    requires name in s.byNum
  {
    map n | n in s.byNum[name] &&
            !(s.byNum[name][n] in s.arts && Old(s.groups, name, s.arts[s.byNum[name][n]].info.storedAt, now)) ::
      s.byNum[name][n]
  }

  /** The groups that keep an article. */
  function Remaining(s: State, a: Art, now: Time): map<string, int> {
    map g | g in a.groups && !Old(s.groups, g, a.info.storedAt, now) :: a.groups[g]
  }

  predicate Forgotten(s: State, arts: map<string, Art>, id: string, now: Time, historyDays: int) {
    historyDays > 0 && id in s.history && s.history[id] < now - historyDays * DAY && id !in arts
  }

  datatype ExpireResult = ExpireResult(overview: int, articles: int, history: int)

  /** The effect of an expiry pass, the same for every order in which the groups are walked. */
  function Expire(s: State, now: Time, historyDays: int): State {
    var arts := map id | id in s.arts && Remaining(s, s.arts[id], now) != map[] ::
                  s.arts[id].(groups := Remaining(s, s.arts[id], now));
    s.(groups := map g | g in s.groups :: ExpiredGroup(s, g, now),
       byNum := map g | g in s.byNum :: ExpiredRow(s, g, now),
       arts := arts,
       history := map id | id in s.history && !Forgotten(s, arts, id, now, historyDays) :: s.history[id])
  }

  function SetRetention(s: State, name: string, days: Option<int>, mode: string): State {
    if name !in s.groups then s
    else SetGroup(s, name, s.groups[name].(retentionDays := days, retentionMode := mode))
  }

  // ----- The feed queue -----

  predicate Queued(queue: seq<FeedItem>, peer: int, id: string) {
    exists i | 0 <= i < |queue| :: queue[i].peer == peer && queue[i].msgid == id
  }

  function Enqueue(s: State, peer: int, id: string, now: Time): State {
    if Queued(s.queue, peer, id) then s
    else s.(queue := s.queue + [FeedItem(s.nextFeedID + 1, peer, id, 0, now, "", now)],
            nextFeedID := s.nextFeedID + 1)
  }

  const LEASE: int := 2 * MINUTE

  predicate Due(it: FeedItem, now: Time) {
    it.nextAttempt <= now
  }

  function Leased(it: FeedItem, now: Time): FeedItem {
    it.(attempts := it.attempts + 1, nextAttempt := now + LEASE)
  }

  /** At most `limit` due entries are claimed, from the front. */
  function ClaimItems(queue: seq<FeedItem>, limit: int, now: Time): (r: (seq<FeedItem>, seq<FeedItem>))
    ensures |r.0| == |queue|
  {
    if queue == [] || limit <= 0 then (queue, [])
    else if !Due(queue[0], now) then
      var (rest, out) := ClaimItems(queue[1..], limit, now);
      ([queue[0]] + rest, out)
    else
      var (rest, out) := ClaimItems(queue[1..], limit - 1, now);
      ([Leased(queue[0], now)] + rest, [Leased(queue[0], now)] + out)
  }

  /** A limit that is not positive stands for 32. */
  function ClaimLimit(limit: int): int {
    if limit <= 0 then 32 else limit
  }

  function Claim(s: State, limit: int, now: Time): (State, seq<FeedItem>) {
    var (queue, out) := ClaimItems(s.queue, ClaimLimit(limit), now);
    (s.(queue := queue), out)
  }

  function WithoutItem(queue: seq<FeedItem>, id: int): seq<FeedItem> {
    if queue == [] then []
    else (if queue[0].id == id then [] else [queue[0]]) + WithoutItem(queue[1..], id)
  }

  function Complete(s: State, id: int): State {
    s.(queue := WithoutItem(s.queue, id))
  }

  /** The first entry with the ID gets the error and its next time. */
  function FailItem(queue: seq<FeedItem>, id: int, err: string, next: Time): seq<FeedItem> {
    if queue == [] then []
    else if queue[0].id == id then [queue[0].(lastError := err, nextAttempt := next)] + queue[1..]
    else [queue[0]] + FailItem(queue[1..], id, err, next)
  }

  function Fail(s: State, id: int, err: string, retryAfter: int, now: Time): State {
    s.(queue := FailItem(s.queue, id, err, now + if retryAfter <= 0 then 2 * MINUTE else retryAfter))
  }

  function FlushItems(queue: seq<FeedItem>, peer: int): seq<FeedItem> {
    if queue == [] then []
    else (if peer > 0 && queue[0].peer != peer then [queue[0]] else []) + FlushItems(queue[1..], peer)
  }

  function Flush(s: State, peer: int): (State, int) {
    var kept := FlushItems(s.queue, peer);
    (s.(queue := kept), |s.queue| - |kept|)
  }
}
