/** Binary-flood alerts: how accepted articles put a short retention on a group, and how an administrator settles it. */
module StoreAlerts {
  import opened Text
  import opened Wildmat
  import opened StoreState
  import opened StoreInvariant

  datatype FloodParams = FloodParams(window: int, minBinary: int, minRatio: real, floodDays: int, seedWildmat: string)

  /** Unset parameters take their defaults: one day and seven days. */
  function Defaulted(p: FloodParams): FloodParams {
    p.(window := if p.window <= 0 then DAY else p.window, floodDays := if p.floodDays <= 0 then 7 else p.floodDays)
  }

  function NextAlertID(s: State): int {
    if s.nextAlertID == 0 then 1 else s.nextAlertID
  }

  /** The first open alert of a group, or the number of alerts. */
  function OpenAlert(alerts: seq<Alert>, group: string): (i: nat)
    ensures i <= |alerts|
    ensures i < |alerts| ==> alerts[i].group == group && alerts[i].status == Open
    ensures forall j | 0 <= j < i :: !(alerts[j].group == group && alerts[j].status == Open)
  {
    if alerts == [] then 0
    else if alerts[0].group == group && alerts[0].status == Open then 0
    else 1 + OpenAlert(alerts[1..], group)
  }

  /** The first place with an open alert of the group is the one. */
  lemma {:induction false} OpenAlertIs(alerts: seq<Alert>, group: string, i: nat)
    requires i <= |alerts| && forall j | 0 <= j < i :: !(alerts[j].group == group && alerts[j].status == Open)
    requires i < |alerts| ==> alerts[i].group == group && alerts[i].status == Open
    ensures i == OpenAlert(alerts, group)
  {
    if alerts != [] && !(alerts[0].group == group && alerts[0].status == Open) {
      OpenAlertIs(alerts[1..], group, i - 1);
    }
  }

  /** An open alert is updated; only without one is a new alert raised. */
  function EnsureOpenAlert(s: State, group: string, detail: Detail, now: Time): State {
    var i := OpenAlert(s.alerts, group);
    if i < |s.alerts| then s.(alerts := s.alerts[i := s.alerts[i].(detail := detail)])
    else
      var id := NextAlertID(s);
      s.(alerts := s.alerts + [Alert(id, group, detail, Open, now)], nextAlertID := id + 1)
  }

  function Accepts(s: State, name: string): seq<Accept> {
    if name in s.accepts then s.accepts[name] else []
  }

  /** Accepts since a time, all of them or the binary ones. */
  function CountSince(accepts: seq<Accept>, since: Time, binaryOnly: bool): nat {
    if accepts == [] then 0
    else (if accepts[0].at >= since && (!binaryOnly || accepts[0].binary) then 1 else 0)
         + CountSince(accepts[1..], since, binaryOnly)
  }

  ghost predicate SeedApplies(g: Group, name: string, p: FloodParams) {
    g.retentionDays == None && p.seedWildmat != "" && Matches(p.seedWildmat, name)
  }

  function Shorten(s: State, name: string, days: int, detail: Detail, now: Time): State
    requires name in s.groups
  {
    EnsureOpenAlert(SetRetention(s, name, Some(days), AUTO), name, detail, now)
  }

  /** Whether the accepts of a group within the window are a flood of binaries. */
  predicate Floods(bins: int, total: int, p: FloodParams) {
    total > 0 && bins >= p.minBinary && bins as real / total as real >= p.minRatio
  }

  ghost function NoteSeed(s: State, name: string, p: FloodParams, now: Time): (State, seq<string>)
    requires name in s.groups
  {
    if SeedApplies(s.groups[name], name, p) then (Shorten(s, name, p.floodDays, Seeded(p.seedWildmat), now), [name])
    else (s, [])
  }

  function NoteFlood(s: State, name: string, binary: bool, p: FloodParams, now: Time): (State, seq<string>)
    requires name in s.groups
  {
    var since := now - p.window;
    var total, bins := CountSince(Accepts(s, name), since, false), CountSince(Accepts(s, name), since, true);
    if binary && Floods(bins, total, p) then (Shorten(s, name, p.floodDays, Flood(bins, total, p.window), now), [name])
    else (s, [])
  }

  /** One accepted article in one group. */
  ghost function NoteOne(s: State, name: string, binary: bool, p: FloodParams, now: Time): (State, seq<string>) {
    if name !in s.groups then (s, [])
    else
      var s1 := s.(accepts := s.accepts[name := Accepts(s, name) + [Accept(binary, now)]]);
      if s.groups[name].retentionMode == WHITELIST then (s1, [])
      else
        var (s2, seeded) := NoteSeed(s1, name, p, now);
        var (s3, flooded) := NoteFlood(s2, name, binary, p, now);
        (s3, seeded + flooded)
  }

  ghost function NoteAll(s: State, names: seq<string>, binary: bool, p: FloodParams, now: Time): (State, seq<string>)
    decreases |names|
  {
    if names == [] then (s, [])
    else
      var (s1, out) := NoteOne(s, TrimSpace(names[0]), binary, p, now);
      var (s2, more) := NoteAll(s1, names[1..], binary, p, now);
      (s2, out + more)
  }

  ghost function NoteAccept(s: State, names: seq<string>, binary: bool, p: FloodParams, now: Time): (State, seq<string>) {
    NoteAll(s, names, binary, Defaulted(p), now)
  }

  datatype Action = Block | Whitelist | Dismiss | Reset

  /** The action of that name, in any case and with space around it. */
  function ActionOf(name: string): Option<Action> {
    match ToLower(TrimSpace(name))
    case "block" => Some(Block)
    case "whitelist" => Some(Whitelist)
    case "dismiss" => Some(Dismiss)
    case "reset" => Some(Reset)
    case _ => None
  }

  function Resolved(status: Action): AlertStatus {
    match status
    case Block => Blocked
    case Whitelist => Whitelisted
    case Dismiss => Dismissed
    case Reset => Dismissed
  }

  function AlertIndex(alerts: seq<Alert>, id: int): (i: nat)
    ensures i <= |alerts|
    ensures i < |alerts| ==> alerts[i].id == id
    ensures forall j | 0 <= j < i :: alerts[j].id != id
  {
    if alerts == [] || alerts[0].id == id then 0 else 1 + AlertIndex(alerts[1..], id)
  }

  function SettledGroup(g: Group, action: Action): Group {
    match action
    case Block => g.(status := "n", retentionDays := None, retentionMode := BLOCKED)
    case Whitelist => g.(retentionDays := None, retentionMode := WHITELIST)
    case Dismiss => g
    case Reset => g.(retentionDays := None, retentionMode := "")
  }

  /** An administrator settles the alert at a place. */
  function Settled(s: State, i: nat, action: Action): State
    requires i < |s.alerts|
  {
    var group := s.alerts[i].group;
    var s1 := s.(alerts := s.alerts[i := s.alerts[i].(status := Resolved(action))]);
    if group in s.groups then SetGroup(s1, group, SettledGroup(s.groups[group], action)) else s1
  }

  /** An administrator settles an alert; an unknown one changes nothing. */
  function ResolveAlert(s: State, id: int, action: Action): State {
    var i := AlertIndex(s.alerts, id);
    if i == |s.alerts| then s else Settled(s, i, action)
  }

  // ----- What alerts keep -----

  /** Alert IDs increase and are all issued; a group has at most one open alert. */
  ghost predicate AlertSeqOk(alerts: seq<Alert>, nextID: int) {
    && (forall i, j | 0 <= i < j < |alerts| :: alerts[i].id < alerts[j].id)
    && (forall i | 0 <= i < |alerts| :: alerts[i].id < nextID)
    && (forall i, j | 0 <= i < j < |alerts| && alerts[i].status == Open && alerts[j].status == Open ::
          alerts[i].group != alerts[j].group)
  }

  ghost predicate AlertsOk(s: State) {
    AlertSeqOk(s.alerts, NextAlertID(s))
  }

  lemma AlertUpdateOk(alerts: seq<Alert>, nextID: int, i: nat, a: Alert)
    requires AlertSeqOk(alerts, nextID) && i < |alerts|
    requires a.id == alerts[i].id && a.group == alerts[i].group && (a.status == Open ==> alerts[i].status == Open)
    ensures AlertSeqOk(alerts[i := a], nextID)
  {
  }

  lemma AlertAppendOk(alerts: seq<Alert>, nextID: int, a: Alert)
    requires AlertSeqOk(alerts, nextID) && a.id == nextID
    requires forall j | 0 <= j < |alerts| :: !(alerts[j].group == a.group && alerts[j].status == Open)
    ensures AlertSeqOk(alerts + [a], nextID + 1)
  {
  }

  /** The tables of articles and numbers are the same, up to retention and status of groups. */
  ghost predicate SameTables(s: State, s': State) {
    && s'.groups.Keys == s.groups.Keys && (forall g | g in s.groups :: SameNumbers(s'.groups[g], s.groups[g]))
    && s'.arts == s.arts && s'.byNum == s.byNum && s'.history == s.history
    && s'.queue == s.queue && s'.nextFeedID == s.nextFeedID
  }

  lemma SameTablesKeeps(s: State, s': State)
    requires Inv(s) && SameTables(s, s')
    ensures Inv(s')
  {
    hide QueueOk, GroupOk;
    forall g | g in s'.groups
      ensures GroupOk(s'.groups[g]) && RowOk(s'.groups[g], s'.byNum[g])
    {
      GroupOkNumbers(s'.groups[g], s.groups[g]);
    }
    assert forall i, g, n :: Indexed(s', i, g, n) == Indexed(s, i, g, n) && Files(s', i, g, n) == Files(s, i, g, n);
  }

  /** An open alert with the detail stands afterwards, whether updated or raised. */
  ghost predicate OpenWith(alerts: seq<Alert>, group: string, detail: Detail) {
    exists i :: 0 <= i < |alerts| && alerts[i].group == group && alerts[i].status == Open && alerts[i].detail == detail
  }

  lemma EnsureOpenAlertKeeps(s: State, group: string, detail: Detail, now: Time)
    requires AlertsOk(s) && s.nextAlertID >= 0
    ensures var s' := EnsureOpenAlert(s, group, detail, now);
            && AlertsOk(s') && s'.nextAlertID >= 0
            && s' == s.(alerts := s'.alerts, nextAlertID := s'.nextAlertID)
            && OpenWith(s'.alerts, group, detail)
  {
    hide AlertSeqOk;
    var i := OpenAlert(s.alerts, group);
    var s' := EnsureOpenAlert(s, group, detail, now);
    if i < |s.alerts| {
      AlertUpdateOk(s.alerts, NextAlertID(s), i, s.alerts[i].(detail := detail));
    } else {
      AlertAppendOk(s.alerts, NextAlertID(s), Alert(NextAlertID(s), group, detail, Open, now));
    }
    assert s'.alerts[i].group == group;
  }

  /** Nothing in a group but its retention and mode. */
  predicate RetainedOnly(g: Group, g': Group) {
    g' == g.(retentionDays := g'.retentionDays, retentionMode := g'.retentionMode)
  }

  /** Of the groups only retention and mode may change, never those of a whitelisted one; the other tables and the
      bans are the same. */
  ghost predicate RetentionOnly(s: State, s': State) {
    && SameTables(s, s') && s'.bans == s.bans
    && (forall g | g in s.groups :: RetainedOnly(s.groups[g], s'.groups[g]))
    && forall g | g in s.groups && s.groups[g].retentionMode == WHITELIST :: s'.groups[g] == s.groups[g]
  }

  lemma ShortenKeeps(s: State, name: string, days: int, detail: Detail, now: Time)
    requires AlertsOk(s) && s.nextAlertID >= 0 && name in s.groups && s.groups[name].retentionMode != WHITELIST
    ensures var s' := Shorten(s, name, days, detail, now);
            && AlertsOk(s') && s'.nextAlertID >= 0 && RetentionOnly(s, s')
            && s'.groups[name].retentionMode == AUTO && s'.accepts == s.accepts
  {
    hide AlertSeqOk, EnsureOpenAlert, OpenWith;
    EnsureOpenAlertKeeps(SetRetention(s, name, Some(days), AUTO), name, detail, now);
  }

  lemma RetentionOnlyTrans(a: State, b: State, c: State)
    requires RetentionOnly(a, b) && RetentionOnly(b, c)
    ensures RetentionOnly(a, c)
  {
  }

  lemma AcceptsOnly(s: State, accepts: map<string, seq<Accept>>)
    ensures RetentionOnly(s, s.(accepts := accepts))
  {
  }

  lemma NoteSeedKeeps(s: State, name: string, p: FloodParams, now: Time)
    requires AlertsOk(s) && s.nextAlertID >= 0 && name in s.groups && s.groups[name].retentionMode != WHITELIST
    ensures var s' := NoteSeed(s, name, p, now).0;
            && AlertsOk(s') && s'.nextAlertID >= 0 && RetentionOnly(s, s')
            && name in s'.groups && s'.groups[name].retentionMode != WHITELIST
  {
    hide SeedApplies, Shorten, RetentionOnly, AlertSeqOk;
    AcceptsOnly(s, s.accepts);
    ShortenKeeps(s, name, p.floodDays, Seeded(p.seedWildmat), now);
    KeysKept(s, Shorten(s, name, p.floodDays, Seeded(p.seedWildmat), now));
  }

  lemma NoteFloodKeeps(s: State, name: string, binary: bool, p: FloodParams, now: Time)
    requires AlertsOk(s) && s.nextAlertID >= 0 && name in s.groups && s.groups[name].retentionMode != WHITELIST
    ensures var s' := NoteFlood(s, name, binary, p, now).0; AlertsOk(s') && s'.nextAlertID >= 0 && RetentionOnly(s, s')
  {
    hide Floods, Shorten, RetentionOnly, AlertSeqOk, CountSince, Accepts;
    AcceptsOnly(s, s.accepts);
    var since := now - p.window;
    var total, bins := CountSince(Accepts(s, name), since, false), CountSince(Accepts(s, name), since, true);
    ShortenKeeps(s, name, p.floodDays, Flood(bins, total, p.window), now);
  }

  lemma TablesKeep(s: State, s': State)
    requires Inv(s) && RetentionOnly(s, s')
    ensures Inv(s')
  {
    hide Inv;
    SameTablesKeeps(s, s');
  }

  lemma NoteOneKeeps(s: State, name: string, binary: bool, p: FloodParams, now: Time)
    requires AlertsOk(s) && s.nextAlertID >= 0
    ensures var s' := NoteOne(s, name, binary, p, now).0; AlertsOk(s') && s'.nextAlertID >= 0 && RetentionOnly(s, s')
  {
    hide NoteSeed, NoteFlood, RetentionOnly, AlertSeqOk;
    AcceptsOnly(s, s.accepts);
    if name in s.groups {
      var s1 := s.(accepts := s.accepts[name := Accepts(s, name) + [Accept(binary, now)]]);
      AcceptsOnly(s, s1.accepts);
      if s.groups[name].retentionMode != WHITELIST {
        NoteSeedKeeps(s1, name, p, now);
        var s2 := NoteSeed(s1, name, p, now).0;
        NoteFloodKeeps(s2, name, binary, p, now);
        RetentionOnlyTrans(s, s1, s2);
        RetentionOnlyTrans(s, s2, NoteFlood(s2, name, binary, p, now).0);
      }
    }
  }

  lemma KeysKept(a: State, b: State)
    requires RetentionOnly(a, b)
    ensures a.groups.Keys == b.groups.Keys
  {
  }

  /** Noting accepts raises at most one open alert a group, touches nothing but retention, and never gives a
      whitelisted group a retention. */
  lemma {:induction false} NoteAcceptKeeps(s: State, names: seq<string>, binary: bool, p: FloodParams, now: Time)
    requires AlertsOk(s) && s.nextAlertID >= 0
    ensures var s' := NoteAll(s, names, binary, p, now).0; AlertsOk(s') && s'.nextAlertID >= 0 && RetentionOnly(s, s')
    decreases |names|
  {
    hide NoteOne, AlertsOk, RetentionOnly;
    AcceptsOnly(s, s.accepts);
    if names != [] {
      NoteOneKeeps(s, TrimSpace(names[0]), binary, p, now);
      var s1 := NoteOne(s, TrimSpace(names[0]), binary, p, now).0;
      NoteAcceptKeeps(s1, names[1..], binary, p, now);
      RetentionOnlyTrans(s, s1, NoteAll(s1, names[1..], binary, p, now).0);
    }
  }

  lemma ResolveKeeps(s: State, id: int, action: Action)
    requires AlertsOk(s)
    ensures var s' := ResolveAlert(s, id, action);
            AlertsOk(s') && s'.nextAlertID == s.nextAlertID && SameTables(s, s')
  {
    hide AlertsOk, SameTables, Settled;
    SameTablesId(s);
    if AlertIndex(s.alerts, id) < |s.alerts| {
      SettledKeeps(s, AlertIndex(s.alerts, id), action);
    }
  }

  lemma SameTablesId(s: State)
    ensures SameTables(s, s)
  {
  }

  lemma SettledKeeps(s: State, i: nat, action: Action)
    requires AlertsOk(s) && i < |s.alerts|
    ensures var s' := Settled(s, i, action);
            AlertsOk(s') && s'.nextAlertID == s.nextAlertID && SameTables(s, s')
  {
    hide AlertSeqOk;
    AlertUpdateOk(s.alerts, NextAlertID(s), i, s.alerts[i].(status := Resolved(action)));
  }

  // ----- What an accept means for a group -----

  /** Where the accepts at or after a time are, of all articles or of binary ones. */
  function Recent(accepts: seq<Accept>, since: Time, binaryOnly: bool): (all: set<nat>) {
    set i: nat | i < |accepts| && since <= accepts[i].at && (binaryOnly ==> accepts[i].binary)
  }

  lemma {:induction false} RecentCount(accepts: seq<Accept>, since: Time, binaryOnly: bool)
    ensures CountSince(accepts, since, binaryOnly) == |Recent(accepts, since, binaryOnly)|
    decreases |accepts|
  {
    if accepts == [] {
      assert Recent(accepts, since, binaryOnly) == {};
    } else {
      var n := |accepts| - 1;
      RecentCount(accepts[..n], since, binaryOnly);
      CountLast(accepts[..n], accepts[n], since, binaryOnly);
      assert accepts[..n] + [accepts[n]] == accepts;
      RecentLast(accepts[..n], accepts[n], since, binaryOnly);
    }
  }

  lemma {:induction false} CountLast(accepts: seq<Accept>, last: Accept, since: Time, binaryOnly: bool)
    ensures CountSince(accepts + [last], since, binaryOnly) ==
            CountSince(accepts, since, binaryOnly) + if since <= last.at && (binaryOnly ==> last.binary) then 1 else 0
  {
    if accepts == [] {
      assert accepts + [last] == [last] && [last][1..] == [];
    } else {
      CountLast(accepts[1..], last, since, binaryOnly);
      assert (accepts + [last])[1..] == accepts[1..] + [last];
    }
  }

  lemma RecentLast(accepts: seq<Accept>, last: Accept, since: Time, binaryOnly: bool)
    ensures |Recent(accepts + [last], since, binaryOnly)| ==
            |Recent(accepts, since, binaryOnly)| + if since <= last.at && (binaryOnly ==> last.binary) then 1 else 0
  {
    var n: nat := |accepts|;
    assert Recent(accepts + [last], since, binaryOnly) ==
           Recent(accepts, since, binaryOnly) + if since <= last.at && (binaryOnly ==> last.binary) then {n} else {};
  }

  /** Of the accepts since a time, enough are binary, and they are a large enough part. */
  ghost predicate MostlyBinary(accepts: seq<Accept>, since: Time, p: FloodParams) {
    var total, bins := |Recent(accepts, since, false)|, |Recent(accepts, since, true)|;
    total > 0 && bins >= p.minBinary && bins as real / total as real >= p.minRatio
  }

  /** An accepted article in one group: a group that is not whitelisted gets the short retention exactly when it has
      none and the seed wildmat names it, or when the article is binary and, of the accepts within the window, this
      one among them, enough are binary and they are a large enough part. Only then does it change, and has an open
      alert; no other group changes. */
  lemma AcceptIs(s: State, written: string, name: string, binary: bool, p: FloodParams, now: Time, window: int)
    requires name == TrimSpace(written) && name in s.groups && s.groups[name].retentionMode != "whitelist"
    requires window == if p.window <= 0 then 86_400_000_000_000 else p.window
    ensures var (s', out) := NoteAccept(s, [written], binary, p, now);
            var accepts := (if name in s.accepts then s.accepts[name] else []) + [Accept(binary, now)];
            var seeded := s.groups[name].retentionDays == None && p.seedWildmat != "" && Matches(p.seedWildmat, name);
            var flooded := binary && MostlyBinary(accepts, now - window, p);
            && s'.groups.Keys == s.groups.Keys && (forall h | h in s.groups && h != name :: s'.groups[h] == s.groups[h])
            && s'.accepts == s.accepts[name := accepts]
            && out == (if seeded then [name] else []) + (if flooded then [name] else [])
            && if seeded || flooded then
                 && s'.groups[name] == s.groups[name].(retentionDays := Some(if p.floodDays <= 0 then 7 else p.floodDays),
                                                       retentionMode := "auto")
                 && exists i :: 0 <= i < |s'.alerts| && s'.alerts[i].group == name && s'.alerts[i].status == Open
               else s'.groups[name] == s.groups[name] && s'.alerts == s.alerts
  {
    hide *;
    var d := Defaulted(p);
    var s' := NoteAccept(s, [written], binary, p, now).0;
    DefaultedIs(p, window);
    NoteSingle(s, [written], name, binary, p, now);
    AcceptOne(s, name, binary, d, now);
    var accepts := (if name in s.accepts then s.accepts[name] else []) + [Accept(binary, now)];
    MostlyBinarySame(accepts, now - window, p, d);
    if ShortenedFrom(s.(accepts := s.accepts[name := accepts]), s', name, d.floodDays) {
      ShortenedMeans(s.(accepts := s.accepts[name := accepts]), s', name, d.floodDays);
    }
  }

  lemma DefaultedIs(p: FloodParams, window: int)
    requires window == if p.window <= 0 then 86_400_000_000_000 else p.window
    ensures var d := Defaulted(p);
            d.window == window && d.floodDays == (if p.floodDays <= 0 then 7 else p.floodDays)
            && d.minBinary == p.minBinary && d.minRatio == p.minRatio && d.seedWildmat == p.seedWildmat
  {
  }

  lemma ShortenedMeans(s: State, s': State, name: string, days: int)
    requires name in s.groups && ShortenedFrom(s, s', name, days)
    ensures s'.groups.Keys == s.groups.Keys && forall h | h in s.groups && h != name :: s'.groups[h] == s.groups[h]
    ensures s'.groups[name] == s.groups[name].(retentionDays := Some(days), retentionMode := "auto") && s'.accepts == s.accepts
    ensures exists i :: 0 <= i < |s'.alerts| && s'.alerts[i].group == name && s'.alerts[i].status == Open
  {
  }

  lemma MostlyBinarySame(accepts: seq<Accept>, since: Time, p: FloodParams, d: FloodParams)
    requires d.minBinary == p.minBinary && d.minRatio == p.minRatio
    ensures MostlyBinary(accepts, since, p) == MostlyBinary(accepts, since, d)
  {
    hide Recent;
  }

  lemma NoteSingle(s: State, names: seq<string>, name: string, binary: bool, p: FloodParams, now: Time)
    requires |names| == 1 && name == TrimSpace(names[0])
    ensures NoteAccept(s, names, binary, p, now) == NoteOne(s, name, binary, Defaulted(p), now)
  {
    hide NoteOne, TrimSpace;
    var d := Defaulted(p);
    var one := NoteOne(s, name, binary, d, now);
    assert names[1..] == [] && NoteAll(one.0, [], binary, d, now) == (one.0, []);
    assert NoteAll(s, names, binary, d, now) == (one.0, one.1 + []);
    assert one.1 + [] == one.1;
  }

  lemma AcceptOne(s: State, name: string, binary: bool, d: FloodParams, now: Time)
    requires name in s.groups && s.groups[name].retentionMode != "whitelist"
    ensures var (s', out) := NoteOne(s, name, binary, d, now);
            var accepts := (if name in s.accepts then s.accepts[name] else []) + [Accept(binary, now)];
            var seeded := s.groups[name].retentionDays == None && d.seedWildmat != "" && Matches(d.seedWildmat, name);
            var flooded := binary && MostlyBinary(accepts, now - d.window, d);
            && out == (if seeded then [name] else []) + (if flooded then [name] else [])
            && s'.accepts == s.accepts[name := accepts]
            && if seeded || flooded then ShortenedFrom(s.(accepts := s.accepts[name := accepts]), s', name, d.floodDays)
               else s' == s.(accepts := s.accepts[name := accepts])
  {
    hide OpenAlert, Matches, MostlyBinary, CountSince;
    var s1 := s.(accepts := s.accepts[name := Accepts(s, name) + [Accept(binary, now)]]);
    MostlyBinaryIff(s1.accepts[name], now - d.window, d, d);
    SeededIs(s1, name, d, now);
    FloodedIs(NoteSeed(s1, name, d, now).0, name, binary, d, now);
    hide NoteSeed, NoteFlood;
  }

  lemma MostlyBinaryIff(accepts: seq<Accept>, since: Time, p: FloodParams, d: FloodParams)
    requires d.minBinary == p.minBinary && d.minRatio == p.minRatio
    ensures var total, bins := CountSince(accepts, since, false), CountSince(accepts, since, true);
            (total > 0 && bins >= d.minBinary && bins as real / total as real >= d.minRatio) == MostlyBinary(accepts, since, p)
  {
    hide Recent, CountSince;
    RecentCount(accepts, since, false);
    RecentCount(accepts, since, true);
  }

  lemma SeededIs(s: State, name: string, p: FloodParams, now: Time)
    requires name in s.groups
    ensures var g := s.groups[name];
            var seeded := g.retentionDays == None && p.seedWildmat != "" && Matches(p.seedWildmat, name);
            var (s', out) := NoteSeed(s, name, p, now);
            && out == (if seeded then [name] else [])
            && if seeded then ShortenedFrom(s, s', name, p.floodDays) else s' == s
  {
    hide Matches, EnsureOpenAlert;
    ShortenIs(s, name, p.floodDays, Seeded(p.seedWildmat), now);
  }

  lemma FloodedIs(s: State, name: string, binary: bool, p: FloodParams, now: Time)
    requires name in s.groups
    ensures var accepts := if name in s.accepts then s.accepts[name] else [];
            var total, bins := CountSince(accepts, now - p.window, false), CountSince(accepts, now - p.window, true);
            var flooded := binary && total > 0 && bins >= p.minBinary && bins as real / total as real >= p.minRatio;
            var (s', out) := NoteFlood(s, name, binary, p, now);
            && out == (if flooded then [name] else [])
            && if flooded then ShortenedFrom(s, s', name, p.floodDays) else s' == s
  {
    hide EnsureOpenAlert, CountSince;
    var total, bins := CountSince(Accepts(s, name), now - p.window, false), CountSince(Accepts(s, name), now - p.window, true);
    ShortenIs(s, name, p.floodDays, Flood(bins, total, p.window), now);
  }

  /** Only this group has changed, to the short retention, and it has an open alert. */
  ghost predicate ShortenedFrom(s: State, s': State, name: string, days: int)
    requires name in s.groups
  {
    && s'.groups == s.groups[name := s.groups[name].(retentionDays := Some(days), retentionMode := "auto")]
    && s'.accepts == s.accepts
    && exists i :: 0 <= i < |s'.alerts| && s'.alerts[i].group == name && s'.alerts[i].status == Open
  }

  lemma ShortenIs(s: State, name: string, days: int, detail: Detail, now: Time)
    requires name in s.groups
    ensures ShortenedFrom(s, Shorten(s, name, days, detail, now), name, days)
  {
    var i := OpenAlert(s.alerts, name);
    assert Shorten(s, name, days, detail, now).alerts[i].group == name;
  }

  /** A whitelisted group only has the accept noted, and a name that no group has is passed over. */
  lemma AcceptLeaves(s: State, written: string, binary: bool, p: FloodParams, now: Time)
    requires TrimSpace(written) in s.groups ==> s.groups[TrimSpace(written)].retentionMode == "whitelist"
    ensures NoteAccept(s, [written], binary, p, now).1 == []
    ensures var s' := NoteAccept(s, [written], binary, p, now).0;
            var name := TrimSpace(written);
            if name !in s.groups then s' == s
            else s' == s.(accepts := s.accepts[name := (if name in s.accepts then s.accepts[name] else []) + [Accept(binary, now)]])
  {
    hide TrimSpace, NoteSeed, NoteFlood;
    var name, d := TrimSpace(written), Defaulted(p);
    assert NoteAll(s, [written], binary, d, now) == (NoteOne(s, name, binary, d, now).0, NoteOne(s, name, binary, d, now).1 + []);
  }

  /** An accepted article is noted in its groups one after another. */
  lemma AcceptNext(s: State, names: seq<string>, written: string, binary: bool, p: FloodParams, now: Time)
    ensures var before := NoteAccept(s, names, binary, p, now);
            var last := NoteAccept(before.0, [written], binary, p, now);
            NoteAccept(s, names + [written], binary, p, now) == (last.0, before.1 + last.1)
  {
    hide NoteOne;
    NoteNext(s, names, written, binary, Defaulted(p), now);
  }

  lemma {:induction false} NoteNext(s: State, names: seq<string>, written: string, binary: bool, p: FloodParams, now: Time)
    ensures var before := NoteAll(s, names, binary, p, now);
            var last := NoteAll(before.0, [written], binary, p, now);
            NoteAll(s, names + [written], binary, p, now) == (last.0, before.1 + last.1)
    decreases |names|
  {
    hide NoteOne, NoteAll, TrimSpace;
    NoteFirst(s, names, binary, p, now);
    NoteFirst(s, names + [written], binary, p, now);
    if names == [] {
      assert names + [written] == [written];
      assert [] + NoteAll(s, [written], binary, p, now).1 == NoteAll(s, [written], binary, p, now).1;
    } else {
      var first := NoteOne(s, TrimSpace(names[0]), binary, p, now);
      NoteNext(first.0, names[1..], written, binary, p, now);
      assert (names + [written])[1..] == names[1..] + [written];
      var before := NoteAll(first.0, names[1..], binary, p, now);
      var last := NoteAll(before.0, [written], binary, p, now);
      assert first.1 + (before.1 + last.1) == (first.1 + before.1) + last.1;
    }
  }

  lemma NoteFirst(s: State, names: seq<string>, binary: bool, p: FloodParams, now: Time)
    ensures NoteAll(s, names, binary, p, now) ==
            if names == [] then (s, [])
            else
              var first := NoteOne(s, TrimSpace(names[0]), binary, p, now);
              var more := NoteAll(first.0, names[1..], binary, p, now);
              (more.0, first.1 + more.1)
  {
    hide NoteOne, TrimSpace;
  }

  // ----- What settling an alert means -----

  /** Settling the alert with an ID, the only one that has it: its group is blocked, whitelisted, left alone or
      reset; no other group, alert or table changes. */
  lemma ResolveIs(s: State, id: int, action: Action, i: nat)
    requires AlertsOk(s) && i < |s.alerts| && s.alerts[i].id == id
    ensures var s' := ResolveAlert(s, id, action);
            var name := s.alerts[i].group;
            && s' == s.(groups := s'.groups, alerts := s'.alerts)
            && s'.alerts == s.alerts[i := s.alerts[i].(status := if action == Block then Blocked
                                                         else if action == Whitelist then Whitelisted else Dismissed)]
            && s'.groups.Keys == s.groups.Keys && (forall h | h in s.groups && h != name :: s'.groups[h] == s.groups[h])
            && (name in s.groups ==>
                  var g, g' := s.groups[name], s'.groups[name];
                  && (action == Block ==> g' == g.(status := "n", retentionDays := None, retentionMode := "blocked"))
                  && (action == Whitelist ==> g' == g.(retentionDays := None, retentionMode := "whitelist"))
                  && (action == Dismiss ==> g' == g)
                  && (action == Reset ==> g' == g.(retentionDays := None, retentionMode := "")))
  {
    var k := AlertIndex(s.alerts, id);
    assert k == i;
  }

  lemma ResolveUnknown(s: State, id: int, action: Action)
    requires forall i | 0 <= i < |s.alerts| :: s.alerts[i].id != id
    ensures ResolveAlert(s, id, action) == s
  {
  }
}
