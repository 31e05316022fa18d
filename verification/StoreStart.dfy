/** Where GROUP starts a reader: when the Low of a group names an article, in every reachable store. */
module StoreStart {
  import opened Text
  import opened Seqs
  import opened StoreState
  import opened StoreInvariant
  import opened StoreExpire
  import opened StoreAlerts
  import opened StorePurge
  import opened StoreRead
  import opened StoreRuns

  /** The group has articles, and GROUP starts at a number that names none of them. */
  ghost predicate GroupGap(g: Group) {
    g.nums != [] && FirstNum(g) !in g.nums
  }

  ghost predicate Gap(s: State, g: string) {
    g in s.groups && GroupGap(s.groups[g])
  }

  /** A successful post to a group that was emptied while its Low was above zero. */
  ghost predicate Opens(s: State, step: Step, g: string) {
    && step.PostArticle? && step.id !in s.history && g in Used(s.groups, step.names)
    && s.groups[g].nums == [] && s.groups[g].low > 0
  }

  ghost predicate FiledIn(s: State, id: string, g: string) {
    id in s.arts && g in s.arts[id].groups
  }

  /** The steps that give the group its Low anew: one of its articles is cancelled or purged, it has a retention
      when an expiry comes by, or it is removed. */
  ghost predicate Closes(s: State, step: Step, g: string) {
    match step
    case CancelArticle(id, now) => FiledIn(s, id, g)
    case PurgePass(ids) => exists id :: id in ids && FiledIn(s, id, g)
    case ExpirePass(now, historyDays) => g in s.groups && Cutoff(s.groups[g], now).Some?
    case RemoveGroup(name) => name == g
    case _ => false
  }

  // ----- One group -----

  /** The next number leaves Low naming an article exactly when there was no Low yet or it named one before. */
  lemma BumpStartsIff(g: Group)
    requires GroupOk(g)
    ensures FirstNum(Bump(g)) in Bump(g).nums <==> g.low == 0 || g.low in g.nums
  {
    if g.low in g.nums {
      assert g.low in Bump(g).nums;
    }
  }

  lemma BumpByGap(g: Group, k: nat)
    requires GroupOk(g)
    ensures GroupGap(BumpBy(g, k)) <==> GroupGap(g) || (k > 0 && g.nums == [] && g.low > 0)
  {
    hide Range;
    assert BumpBy(g, 0).nums == g.nums;
  }

  /** Taking a number out leaves Low naming an article whenever one is left. */
  lemma RemoveStarts(g: Group, row: map<int, string>, n: int)
    requires GroupOk(g) && RowOk(g, row) && n in row
    ensures !GroupGap(Remove(g, n))
  {
    RemoveOk(g, row, n);
    hide Increasing, Except;
  }

  /** So does an expiry of a group with a retention. */
  lemma RenumberedStarts(g: Group, row: map<int, string>, s: State, cutoff: Time)
    requires GroupOk(g)
    ensures !GroupGap(Renumbered(g, Staying(s, row, g.nums, cutoff)))
  {
    hide Staying, Increasing;
    var keep := Staying(s, row, g.nums, cutoff);
    StayingOf(s, row, g.nums, cutoff);
    if keep != [] {
      var n := keep[0];
      assert n in keep;
      assert n in g.nums;
    }
  }

  // ----- One step -----

  lemma PostGap(s: State, id: string, info: Info, prefix: string, names: seq<string>, now: Time, g: string)
    requires Inv(s)
    ensures var step := PostArticle(id, info, prefix, names, now);
            Gap(Post(s, id, info, prefix, names, now).0, g) <==> Gap(s, g) || Opens(s, step, g)
  {
    hide FileAll, Used, BumpBy, RowBy, GroupGap, Occurrences, GroupOk, RowOk, FiledOk, ArtsOk, QueueOk, XrefOf;
    var used := Used(s.groups, names);
    if id !in s.history && used != [] {
      FileAllKeys(FilingOf(s), used, id);
      if g in s.groups {
        GroupHighOk(s.groups[g]);
        FileAllAt(FilingOf(s), used, id, g);
        OccurrencesIn(used, g);
        BumpByGap(s.groups[g], Occurrences(used, g));
      }
    }
  }

  lemma DeleteGap(s: State, id: string, g: string)
    requires Inv(s)
    ensures Gap(DeleteArticle(s, id), g) <==> Gap(s, g) && !FiledIn(s, id, g)
  {
    hide Remove, GroupGap, GroupOk, QueueOk, ArtsOk, Unqueued;
    if FiledIn(s, id, g) {
      assert Files(s, id, g, s.arts[id].groups[g]);
      RemoveStarts(s.groups[g], s.byNum[g], s.arts[id].groups[g]);
    }
  }

  lemma {:induction false} DeleteAllGap(s: State, ids: seq<string>, g: string)
    requires Inv(s)
    ensures Gap(DeleteAll(s, ids), g) <==> Gap(s, g) && !exists id :: id in ids && FiledIn(s, id, g)
    decreases |ids|
  {
    hide Inv, Gap, DeleteArticle;
    if ids != [] {
      DeleteArticleKeeps(s, ids[0]);
      DeleteGap(s, ids[0], g);
      DeleteAllGap(DeleteArticle(s, ids[0]), ids[1..], g);
      assert ids == [ids[0]] + ids[1..];
      forall id
        ensures FiledIn(DeleteArticle(s, ids[0]), id, g) <==> id != ids[0] && FiledIn(s, id, g)
      {
        DeleteFiledIn(s, ids[0], id, g);
      }
    }
  }

  lemma DeleteFiledIn(s: State, id: string, other: string, g: string)
    ensures FiledIn(DeleteArticle(s, id), other, g) <==> other != id && FiledIn(s, other, g)
  {
    hide Remove, Unqueued;
  }

  lemma ExpireGap(s: State, now: Time, historyDays: int, g: string)
    requires Inv(s)
    ensures Gap(Expire(s, now, historyDays), g) <==> Gap(s, g) && Cutoff(s.groups[g], now).None?
  {
    hide GroupGap, Renumbered, Staying, GroupOk, RowOk, FiledOk, QueueOk, ArtsOk, Remaining, ExpiredRow, Cutoff;
    if g in s.groups && Cutoff(s.groups[g], now).Some? {
      RenumberedStarts(s.groups[g], Row(s.byNum, g), s, Cutoff(s.groups[g], now).value);
    }
  }

  lemma ReblockedGap(s: State, g: string)
    requires Inv(s)
    ensures Gap(Reblocked(s), g) <==> Gap(s, g)
    ensures forall id :: FiledIn(Reblocked(s), id, g) <==> FiledIn(s, id, g)
  {
    hide Alerted, Inv;
  }

  lemma UpdateGap(s: State, op: GroupOp, name: string, desc: string, status: string, now: Time, g: string)
    ensures Gap(Updated(s, op, name, desc, status, now), g) <==> Gap(s, g)
  {
    GroupNumbersStay(s, name, desc, status, now);
    hide GroupGap, EnsureGroup, EnsureGroupISC, ApplyControlGroup, DisableControlGroup;
    var s' := Updated(s, op, name, desc, status, now);
    if g in s.groups {
      SameGap(s'.groups[g], s.groups[g]);
    } else if g in s'.groups {
      NoNumsNoGap(s'.groups[g]);
    }
  }

  lemma SameGap(g: Group, h: Group)
    requires SameNumbers(g, h)
    ensures GroupGap(g) <==> GroupGap(h)
  {
  }

  lemma NoNumsNoGap(g: Group)
    requires g.nums == []
    ensures !GroupGap(g)
  {
  }

  /** After a step GROUP starts at a number that names nothing exactly when the step is a post to the emptied group,
      or it did so before and the step does not give the group its Low anew. */
  lemma StepGap(s: State, step: Step, s': State, g: string)
    requires StoreOk(s) && NextState(s, step, s')
    ensures Gap(s', g) <==> Opens(s, step, g) || (Gap(s, g) && !Closes(s, step, g))
  {
    hide Inv, Post, DeleteArticle, Expire, DeleteAll, NoteAll, ResolveAlert, AlertsOk, Updated, ListsDoomed, ClaimItems, Used;
    hide StoreState.Enqueue, Claim, Complete, Fail, Flush, Remember, SameTables, Reblocked, GroupGap, FiledIn, Cutoff;
    match step
    case PostArticle(id, info, prefix, names, now) => PostGap(s, id, info, prefix, names, now, g);
    case CancelArticle(id, now) => CancelGap(s, id, now, g);
    case UpdateGroup(op, name, desc, status, now) => UpdateGap(s, op, name, desc, status, now, g);
    case ExpirePass(now, historyDays) => ExpireGap(s, now, historyDays, g);
    case PurgePass(ids) =>
      ReblockedKeeps(s);
      ReblockedGap(s, g);
      DeleteAllGap(Reblocked(s), ids, g);
    case Note(names, binary, flood, now) =>
      NoteAcceptKeeps(s, names, binary, Defaulted(flood), now);
      SameTablesGap(s, s', g);
    case SettleAlert(alert, action) =>
      ResolveKeeps(s, alert, action);
      SameTablesGap(s, s', g);
    case RemoveGroup(name) => RemoveGroupGap(s, name, g);
    case Retain(name, days, mode) => RetainGap(s, name, days, mode, g);
    case _ => OffTablesSame(s, step, s');
  }

  lemma CancelGap(s: State, id: string, now: Time, g: string)
    requires Inv(s)
    ensures Gap(Cancel(s, id, now).0, g) <==> Gap(s, g) && !FiledIn(s, id, g)
  {
    hide Inv, DeleteArticle, GroupGap;
    var s1 := s.(history := s.history[id := now]);
    HistoryInv(s, id, now);
    DeleteGap(s1, id, g);
    assert FiledIn(s1, id, g) <==> FiledIn(s, id, g);
  }

  lemma HistoryInv(s: State, id: string, now: Time)
    requires Inv(s)
    ensures Inv(s.(history := s.history[id := now]))
  {
    hide TablesOk, QueueOk;
    HistoryKeeps(s, s.history[id := now]);
  }

  lemma RemoveGroupGap(s: State, name: string, g: string)
    ensures Gap(DeleteGroup(s, name), g) <==> Gap(s, g) && name != g
  {
  }

  lemma RetainGap(s: State, name: string, days: Option<int>, mode: string, g: string)
    ensures Gap(SetRetention(s, name, days, mode), g) <==> Gap(s, g)
  {
  }

  lemma SameTablesGap(s: State, s': State, g: string)
    requires SameTables(s, s')
    ensures Gap(s', g) <==> Gap(s, g)
  {
  }

  // ----- Whole runs -----

  /** Some post found the group emptied, and no step since then gave the group its Low anew. */
  ghost predicate LeftOpen(states: seq<State>, steps: seq<Step>, g: string, k: nat)
    requires |states| == |steps| + 1 && k <= |steps|
  {
    exists i :: 0 <= i < k && Opens(states[i], steps[i], g) && forall j | i < j < k :: !Closes(states[j], steps[j], g)
  }

  lemma {:induction false} RunGap(states: seq<State>, steps: seq<Step>, g: string, k: nat)
    requires Run(states, steps) && k < |states| && states[0] == EMPTY
    requires forall i | 0 <= i < |steps| :: NamesOnce(states[i], steps[i])
    ensures Gap(states[k], g) <==> LeftOpen(states, steps, g, k)
  {
    hide NextState, StoreOk, NamesOnce, Opens, Closes, GroupGap;
    if k > 0 {
      var i := k - 1;
      RunGap(states, steps, g, i);
      RunFromEmpty(states, steps, i);
      assert NextState(states[i], steps[i], states[i + 1]);
      StepGap(states[i], steps[i], states[k], g);
    }
  }

  /** In every run from the empty store, GROUP on a group with articles starts at one of them exactly when no post
      found the group emptied with a Low, or since then an article of the group was cancelled or purged, an expiry
      found it with a retention, or it was removed. */
  lemma GroupStartsIff(states: seq<State>, steps: seq<Step>, k: nat, g: string, c: Cursor)
    requires Run(states, steps) && k < |states| && states[0] == EMPTY
    requires forall i | 0 <= i < |steps| :: NamesOnce(states[i], steps[i])
    requires g in states[k].groups && states[k].groups[g].nums != []
    ensures GroupCommand(states[k], c, g).0.cur in states[k].groups[g].nums <==> !LeftOpen(states, steps, g, k)
  {
    hide NextState, NamesOnce, LeftOpen;
    RunGap(states, steps, g, k);
  }

  // ----- A run that gets there -----

  lemma PostToOne(s: State, id: string, info: Info, g: string, now: Time)
    requires id !in s.history && g in s.groups && s.groups[g].status != "n" && s.groups[g].high >= 0
    ensures var (s', r) := Post(s, id, info, "", [g], now);
            && r.Posted? && s'.groups == s.groups[g := Bump(s.groups[g])] && s'.history == s.history[id := now]
            && s'.arts.Keys == s.arts.Keys + {id} && s'.arts[id].groups == map[g := s.groups[g].high + 1]
            && Distinct(Used(s.groups, [g]))
  {
    hide FileAll, XrefOf, Used, Bump;
    UsedOne(s.groups, g);
    FileAllOne(FilingOf(s), g, id);
    BumpHigh(s.groups[g]);
  }

  lemma UsedOne(groups: map<string, Group>, g: string)
    requires g in groups && groups[g].status != "n"
    ensures Used(groups, [g]) == [g]
  {
    assert [g][1..] == [];
    assert Used(groups, []) == [];
  }

  lemma FileAllOne(f: Filing, g: string, id: string)
    requires g in f.groups
    ensures FileAll(f, [g], id) == FileOne(f, g, id)
  {
    hide FileOne;
    assert [g][1..] == [];
    assert FileAll(FileOne(f, g, id), [], id) == FileOne(f, g, id);
  }

  lemma BumpHigh(g: Group)
    ensures Bump(g).high == g.high + 1
  {
  }

  /** A run in which GROUP starts the reader at a number that names nothing: the only article of a group is
      cancelled, and another one is posted. */
  lemma LowMayNameNothing(g: string, a: string, b: string, info: Info, now: Time, c: Cursor)
      returns (states: seq<State>, steps: seq<Step>)
    requires a != b
    ensures steps == [UpdateGroup(Ensure, g, "", "", now), PostArticle(a, info, "", [g], now),
                      CancelArticle(a, now), PostArticle(b, info, "", [g], now)]
    ensures Run(states, steps) && states[0] == EMPTY && forall i | 0 <= i < |steps| :: NamesOnce(states[i], steps[i])
    ensures g in states[4].groups && states[4].groups[g].nums == [2] && GroupCommand(states[4], c, g).0.cur == 1
  {
    steps := [UpdateGroup(Ensure, g, "", "", now), PostArticle(a, info, "", [g], now),
              CancelArticle(a, now), PostArticle(b, info, "", [g], now)];
    var s1, s2, s3, s4 := EmptiedStates(g, a, b, info, now);
    EnsureStep(EMPTY, g, now);
    PostStep(s1, a, info, g, now);
    CancelStep(s2, a, now);
    PostStep(s3, b, info, g, now);
    hide NextState, NamesOnce, Post, Used, Cancel, EnsureGroup;
    states := [EMPTY, s1, s2, s3, s4];
    RunOfFour(states, steps);
  }

  lemma EnsureStep(s: State, g: string, now: Time)
    ensures var step := UpdateGroup(Ensure, g, "", "", now); NextState(s, step, EnsureGroup(s, g, "", "", now)) && NamesOnce(s, step)
  {
  }

  lemma PostStep(s: State, id: string, info: Info, g: string, now: Time)
    requires Distinct(Used(s.groups, [g]))
    ensures var step := PostArticle(id, info, "", [g], now); NextState(s, step, Post(s, id, info, "", [g], now).0) && NamesOnce(s, step)
  {
    hide Post, Used;
  }

  lemma CancelStep(s: State, id: string, now: Time)
    ensures NextState(s, CancelArticle(id, now), Cancel(s, id, now).0) && NamesOnce(s, CancelArticle(id, now))
  {
    hide Cancel;
  }

  lemma RunOfFour(states: seq<State>, steps: seq<Step>)
    requires |states| == 5 && |steps| == 4
    requires NextState(states[0], steps[0], states[1]) && NextState(states[1], steps[1], states[2])
    requires NextState(states[2], steps[2], states[3]) && NextState(states[3], steps[3], states[4])
    ensures Run(states, steps)
  {
    hide NextState;
  }

  lemma EmptiedStates(g: string, a: string, b: string, info: Info, now: Time)
      returns (s1: State, s2: State, s3: State, s4: State)
    requires a != b
    ensures s1 == EnsureGroup(EMPTY, g, "", "", now) && s2 == Post(s1, a, info, "", [g], now).0
    ensures s3 == Cancel(s2, a, now).0 && s4 == Post(s3, b, info, "", [g], now).0
    ensures Distinct(Used(s1.groups, [g])) && Distinct(Used(s3.groups, [g]))
    ensures g in s4.groups && s4.groups[g].nums == [2] && s4.groups[g].low == 1
  {
    hide Post, Used, Remove, Bump;
    s1 := EnsureGroup(EMPTY, g, "", "", now);
    s2 := Post(s1, a, info, "", [g], now).0;
    PostToOne(s1, a, info, g, now);
    s3 := Cancel(s2, a, now).0;
    assert s3.groups[g] == Remove(Bump(s1.groups[g]), 1);
    EmptiedOnce(s1.groups[g]);
    PostToOne(s3, b, info, g, now);
    s4 := Post(s3, b, info, "", [g], now).0;
  }

  lemma EmptiedOnce(g: Group)
    requires g.nums == [] && g.low == g.high == 0
    ensures var h := Remove(Bump(g), 1); h.nums == [] && h.low == h.high == 1 && h.status == g.status
    ensures Bump(Remove(Bump(g), 1)).nums == [2] && Bump(Remove(Bump(g), 1)).low == 1
  {
    assert Bump(g).nums == [1];
    assert [1][1..] == [];
    assert Except([1], 1) == Except([], 1) == [];
  }
}
