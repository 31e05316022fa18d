/** Removing what is not wanted: the purge of banned and blocked groups, and the gate it must agree with. */
module StorePurge {
  import opened Text
  import opened Seqs
  import opened Wildmat
  import opened StoreState
  import opened StoreInvariant

  // ----- The gate -----

  /** Whether a pattern matches a group; blank patterns match nothing. */
  ghost predicate PatternMatches(pattern: string, group: string) {
    TrimSpace(pattern) != "" && Matches(TrimSpace(pattern), group)
  }

  ghost predicate GroupMatches(patterns: seq<string>, group: string) {
    exists p :: p in patterns && PatternMatches(p, group)
  }

  ghost predicate Blocked(s: State, group: string) {
    group in s.groups && s.groups[group].retentionMode == BLOCKED
  }

  /** Whether an article for these groups is refused: one banned or blocked group is enough. */
  ghost predicate GroupsUnwanted(s: State, groups: set<string>) {
    exists g :: g in groups && (GroupMatches(s.bans, g) || Blocked(s, g))
  }

  // ----- The purge -----

  ghost predicate Alerted(s: State, group: string) {
    exists a :: a in s.alerts && a.group == group && a.status == AlertStatus.Blocked
  }

  function BlockedAgain(g: Group): Group {
    g.(status := "n", retentionDays := None, retentionMode := BLOCKED)
  }

  /** Groups with a blocked alert are blocked again. */
  ghost function Reblocked(s: State): State {
    s.(groups := map g | g in s.groups :: if Alerted(s, g) then BlockedAgain(s.groups[g]) else s.groups[g])
  }

  ghost function ReblockedBy(s: State, names: set<string>): State {
    s.(groups := map g | g in s.groups :: if g in names then BlockedAgain(s.groups[g]) else s.groups[g])
  }

  lemma ReblockNone(s: State)
    ensures ReblockedBy(s, {}) == s
  {
    assert ReblockedBy(s, {}).groups == s.groups;
  }

  lemma ReblockOne(s: State, names: set<string>, name: string)
    ensures var t, u := ReblockedBy(s, names), ReblockedBy(s, names + {name});
            u == if name in t.groups then t.(groups := t.groups[name := BlockedAgain(t.groups[name])]) else t
  {
    var t, u := ReblockedBy(s, names), ReblockedBy(s, names + {name});
    assert u.groups == if name in t.groups then t.groups[name := BlockedAgain(t.groups[name])] else t.groups;
  }

  lemma ReblockAll(s: State, names: set<string>)
    requires forall g :: g in names <==> Alerted(s, g)
    ensures ReblockedBy(s, names) == Reblocked(s)
  {
    hide Alerted, BlockedAgain;
    assert ReblockedBy(s, names).groups == Reblocked(s).groups;
  }

  /** The groups whose articles go. */
  ghost predicate Unwanted(s: State, group: string) {
    Alerted(s, group) || Blocked(s, group) || (group in s.groups && GroupMatches(s.bans, group))
  }

  /** With blocked alerts applied, the group's mode and the ban list decide. */
  lemma UnwantedAt(s: State, name: string)
    ensures Reblocked(s).groups.Keys == s.groups.Keys && Reblocked(s).bans == s.bans
    ensures name in s.groups ==>
              (Unwanted(s, name) <==> Reblocked(s).groups[name].retentionMode == BLOCKED || GroupMatches(s.bans, name))
    ensures name in s.groups && Alerted(s, name) ==> Unwanted(s, name)
    ensures name !in s.groups ==> (Unwanted(s, name) <==> Alerted(s, name))
  {
    hide GroupMatches, Alerted;
  }

  ghost predicate Doomed(s: State, id: string) {
    id in s.arts && exists g :: g in s.arts[id].groups && Unwanted(s, g)
  }

  function DeleteAll(s: State, ids: seq<string>): State
    decreases |ids|
  {
    if ids == [] then s else DeleteAll(DeleteArticle(s, ids[0]), ids[1..])
  }

  /** A purge that removes the unwanted articles in this order. */
  ghost function Purge(s: State, ids: seq<string>): State {
    DeleteAll(Reblocked(s), ids)
  }

  /** `ids` lists the unwanted articles once each. */
  ghost predicate ListsDoomed(s: State, ids: seq<string>) {
    Distinct(ids) && forall id :: id in ids <==> Doomed(s, id)
  }

  /** Other groups that also carried a removed article. */
  ghost function CrosspostGroups(s: State): set<string> {
    set id, g | id in s.arts && g in s.arts[id].groups && Doomed(s, id) && !Unwanted(s, g) :: g
  }

  // ----- What it does -----

  lemma ReblockedKeeps(s: State)
    requires Inv(s)
    ensures Inv(Reblocked(s)) && Reblocked(s).arts == s.arts
    ensures forall g | g in s.groups :: SameNumbers(Reblocked(s).groups[g], s.groups[g])
  {
    hide QueueOk, GroupOk, Alerted;
    var s' := Reblocked(s);
    forall g | g in s'.groups
      ensures GroupOk(s'.groups[g]) && RowOk(s'.groups[g], s'.byNum[g])
    {
      GroupOkNumbers(s'.groups[g], s.groups[g]);
    }
    assert forall i, g, n :: Indexed(s', i, g, n) == Indexed(s, i, g, n) && Files(s', i, g, n) == Files(s, i, g, n);
  }

  /** Deleting a list of articles removes exactly these, with their queue entries, and no history. */
  lemma {:induction false} DeleteAllExact(s: State, ids: seq<string>)
    requires Inv(s)
    ensures var s' := DeleteAll(s, ids);
            && Inv(s')
            && (forall id :: id in s'.arts <==> id in s.arts && id !in ids)
            && (forall id | id in s'.arts :: s'.arts[id] == s.arts[id])
            && s'.history == s.history && s'.bans == s.bans && s'.alerts == s.alerts
            && s'.groups.Keys == s.groups.Keys
            && (forall g | g in s.groups :: s'.groups[g].retentionMode == s.groups[g].retentionMode
                                         && s'.groups[g].high == s.groups[g].high)
            && (forall it :: it in s'.queue ==> it in s.queue)
            && (forall it | it in s.queue && it.msgid !in ids :: it in s'.queue)
            && (forall it | it in s'.queue && it.msgid in s.arts :: it.msgid !in ids)
    decreases |ids|
  {
    hide Inv, Except, Unqueued;
    if ids != [] {
      var id := ids[0];
      DeleteArticleKeeps(s, id);
      DeleteOneQueue(s, id);
      DeleteAllExact(DeleteArticle(s, id), ids[1..]);
      assert ids == [id] + ids[1..];
    }
  }

  lemma DeleteOneQueue(s: State, id: string)
    requires Inv(s)
    ensures forall it :: it in DeleteArticle(s, id).queue <==> it in s.queue && !(id in s.arts && it.msgid == id)
  {
    hide TablesOk, ArtsOk, QueueOk, Unqueued;
    UnqueuedKeeps(s.queue, id, s.nextFeedID);
  }

  /** A purge deletes exactly the articles filed in a banned or blocked group: every other article, all
      history and all other queue entries are left, and no group's High changes. */
  lemma PurgeExact(s: State, ids: seq<string>)
    requires Inv(s) && ListsDoomed(s, ids)
    ensures var s' := Purge(s, ids);
            && Inv(s')
            && (forall id :: id in s'.arts <==> id in s.arts && !Doomed(s, id))
            && (forall id | id in s'.arts :: s'.arts[id] == s.arts[id])
            && s'.history == s.history
            && s'.groups.Keys == s.groups.Keys && (forall g | g in s.groups :: s'.groups[g].high == s.groups[g].high)
            && (forall it :: it in s'.queue <==> it in s.queue && !Doomed(s, it.msgid))
  {
    hide Doomed, Inv, DeleteAll;
    ReblockedKeeps(s);
    DeleteAllExact(Reblocked(s), ids);
    forall id | Doomed(s, id)
      ensures id in s.arts
    {
      DoomedStored(s, id);
    }
  }

  lemma DoomedStored(s: State, id: string)
    requires Doomed(s, id)
    ensures id in s.arts
  {
  }

  /** After a purge the gate refuses the groups of no stored article. */
  lemma PurgedPassesGate(s: State, ids: seq<string>, id: string)
    requires Inv(s) && ListsDoomed(s, ids) && id in Purge(s, ids).arts
    ensures !GroupsUnwanted(Purge(s, ids), Purge(s, ids).arts[id].groups.Keys)
  {
    hide DeleteAll, Inv, GroupMatches;
    var s' := Purge(s, ids);
    PurgeExact(s, ids);
    ReblockedKeeps(s);
    DeleteAllExact(Reblocked(s), ids);
    assert !Doomed(s, id);
    forall g | g in s.arts[id].groups
      ensures !GroupMatches(s'.bans, g) && !Blocked(s', g)
    {
      assert !Unwanted(s, g);
      FiledGroupExists(s, id, g);
    }
  }

  lemma FiledGroupExists(s: State, id: string, g: string)
    requires Inv(s) && id in s.arts && g in s.arts[id].groups
    ensures g in s.groups
  {
    assert Files(s, id, g, s.arts[id].groups[g]);
  }

  /** Two orders of removal leave the same articles, index, history and queue, and the same numbers in every group. */
  lemma PurgeOrder(s: State, ids: seq<string>, js: seq<string>)
    requires Inv(s) && ListsDoomed(s, ids) && ListsDoomed(s, js)
    ensures var a, b := Purge(s, ids), Purge(s, js);
            && a.arts == b.arts && a.history == b.history && a.byNum == b.byNum
            && (forall it :: it in a.queue <==> it in b.queue)
            && (forall g | g in s.groups :: g in a.groups && g in b.groups
                  && (forall n :: n in a.groups[g].nums <==> n in b.groups[g].nums))
  {
    hide Doomed, Purge;
    var a, b := Purge(s, ids), Purge(s, js);
    PurgeExact(s, ids);
    PurgeExact(s, js);
    SameArtsSameIndex(a, b);
  }

  lemma SameArtsSameIndex(a: State, b: State)
    requires Inv(a) && Inv(b) && a.arts == b.arts && a.groups.Keys == b.groups.Keys
    ensures a.byNum == b.byNum
    ensures forall g | g in a.groups :: forall n :: n in a.groups[g].nums <==> n in b.groups[g].nums
  {
    hide GroupOk, QueueOk, ArtsOk;
    forall g | g in a.byNum
      ensures a.byNum[g] == b.byNum[g]
    {
      forall n
        ensures n in a.byNum[g] <==> n in b.byNum[g]
        ensures n in a.byNum[g] ==> a.byNum[g][n] == b.byNum[g][n]
      {
        if n in a.byNum[g] {
          assert Indexed(a, a.byNum[g][n], g, n);
          assert Files(b, a.byNum[g][n], g, n);
          assert Indexed(b, a.byNum[g][n], g, n);
        }
        if n in b.byNum[g] {
          assert Indexed(b, b.byNum[g][n], g, n);
          assert Files(a, b.byNum[g][n], g, n);
          assert Indexed(a, b.byNum[g][n], g, n);
        }
      }
    }
  }

  // ----- What is not wanted -----

  /** A ban pattern that is not blank names the group. */
  ghost predicate Banned(bans: seq<string>, g: string) {
    exists i :: 0 <= i < |bans| && TrimSpace(bans[i]) != "" && Matches(TrimSpace(bans[i]), g)
  }

  lemma BannedIff(bans: seq<string>, g: string)
    ensures GroupMatches(bans, g) <==> Banned(bans, g)
  {
    hide TrimSpace, Matches;
    if GroupMatches(bans, g) {
      var p :| p in bans && PatternMatches(p, g);
      var i :| 0 <= i < |bans| && bans[i] == p;
    }
    if i :| 0 <= i < |bans| && TrimSpace(bans[i]) != "" && Matches(TrimSpace(bans[i]), g) {
      assert bans[i] in bans && PatternMatches(bans[i], g);
    }
  }

  /** An administrator has blocked the group by its alert. */
  ghost predicate AlertBlocks(s: State, g: string) {
    exists i :: 0 <= i < |s.alerts| && s.alerts[i].group == g && s.alerts[i].status == AlertStatus.Blocked
  }

  lemma AlertBlocksIff(s: State, g: string)
    ensures Alerted(s, g) <==> AlertBlocks(s, g)
  {
    if Alerted(s, g) {
      var a :| a in s.alerts && a.group == g && a.status == AlertStatus.Blocked;
      var i :| 0 <= i < |s.alerts| && s.alerts[i] == a;
    }
    if i :| 0 <= i < |s.alerts| && s.alerts[i].group == g && s.alerts[i].status == AlertStatus.Blocked {
      assert s.alerts[i] in s.alerts;
    }
  }

  /** The gate refuses an article exactly when one of its groups is banned or blocked. */
  lemma GateIs(s: State, groups: set<string>)
    ensures GroupsUnwanted(s, groups) <==>
            exists g :: g in groups && (Banned(s.bans, g) || (g in s.groups && s.groups[g].retentionMode == "blocked"))
  {
    hide GroupMatches, Banned;
    forall g
      ensures GroupMatches(s.bans, g) <==> Banned(s.bans, g)
    {
      BannedIff(s.bans, g);
    }
  }

  /** A stored article goes in a purge exactly when one of its groups is banned, blocked, or blocked by its alert. */
  lemma PurgedIff(s: State, ids: seq<string>, id: string)
    requires Inv(s) && ListsDoomed(s, ids) && id in s.arts
    ensures id !in Purge(s, ids).arts <==>
            exists g :: g in s.arts[id].groups
                     && (Banned(s.bans, g) || AlertBlocks(s, g) || (g in s.groups && s.groups[g].retentionMode == "blocked"))
    ensures id in Purge(s, ids).arts ==> Purge(s, ids).arts[id] == s.arts[id]
  {
    PurgeExact(s, ids);
    forall g
      ensures GroupMatches(s.bans, g) <==> Banned(s.bans, g)
      ensures Alerted(s, g) <==> AlertBlocks(s, g)
      ensures g in s.arts[id].groups ==> g in s.groups
    {
      BannedIff(s.bans, g);
      AlertBlocksIff(s, g);
      if g in s.arts[id].groups {
        FiledGroupExists(s, id, g);
      }
    }
    hide Inv, GroupMatches, Banned, Alerted, AlertBlocks, Purge;
  }

  /** A group with a blocked alert is closed, blocked and without retention afterwards; another keeps its status and
      retention. */
  lemma PurgeBlocks(s: State, ids: seq<string>, g: string)
    requires g in s.groups
    ensures var s' := Purge(s, ids);
            && g in s'.groups
            && s'.groups[g].status == (if AlertBlocks(s, g) then "n" else s.groups[g].status)
            && s'.groups[g].retentionDays == (if AlertBlocks(s, g) then None else s.groups[g].retentionDays)
            && s'.groups[g].retentionMode == (if AlertBlocks(s, g) then "blocked" else s.groups[g].retentionMode)
  {
    AlertBlocksIff(s, g);
    hide Alerted, AlertBlocks, DeleteAll;
    DeleteAllModes(Reblocked(s), ids, g);
  }

  lemma {:induction false} DeleteAllModes(s: State, ids: seq<string>, g: string)
    requires g in s.groups
    ensures var s' := DeleteAll(s, ids);
            && g in s'.groups && s'.groups[g].status == s.groups[g].status
            && s'.groups[g].retentionDays == s.groups[g].retentionDays && s'.groups[g].retentionMode == s.groups[g].retentionMode
    decreases |ids|
  {
    hide Except, Unqueued, Least;
    if ids != [] {
      DeleteAllModes(DeleteArticle(s, ids[0]), ids[1..], g);
    }
  }
}
