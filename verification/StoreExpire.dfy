/** Retention: what an expiry pass removes, what it keeps, and what it does to a group's numbers. */
module StoreExpire {
  import opened StoreState
  import opened StoreInvariant

  lemma {:induction false} StayingOf(s: State, row: map<int, string>, nums: seq<int>, cutoff: Time)
    ensures forall n :: n in Staying(s, row, nums, cutoff) <==> n in nums && Stays(s, row, n, cutoff)
    ensures Increasing(nums) ==> Increasing(Staying(s, row, nums, cutoff))
  {
    hide Stays;
    if nums != [] {
      var rest := nums[1..];
      StayingOf(s, row, rest, cutoff);
      assert nums == [nums[0]] + rest;
      if Increasing(nums) {
        IncreasingTail(nums);
        var kept := Staying(s, row, rest, cutoff);
        assert forall i | 0 <= i < |kept| :: kept[i] in kept;
      }
    }
  }

  lemma RenumberedOk(g: Group, keep: seq<int>)
    requires GroupOk(g) && Increasing(keep) && forall n | n in keep :: n in g.nums
    ensures GroupOk(Renumbered(g, keep)) && Renumbered(g, keep).nums == keep
  {
    if keep != [] {
      assert keep[0] in keep;
      var last := keep[|keep| - 1];
      forall n | n in keep
        ensures n <= last
      {
        var i :| 0 <= i < |keep| && keep[i] == n;
      }
    }
  }

  lemma ExpiredGroupOk(s: State, name: string, now: Time)
    requires TablesOk(s) && name in s.groups
    ensures GroupOk(ExpiredGroup(s, name, now))
    ensures RowOk(ExpiredGroup(s, name, now), ExpiredRow(s, name, now))
  {
    hide GroupOk, FiledOk, Staying, Renumbered, Increasing;
    var g := s.groups[name];
    if Cutoff(g, now).Some? {
      var cutoff := Cutoff(g, now).value;
      StayingOf(s, s.byNum[name], g.nums, cutoff);
      GroupIncreasing(g);
      RenumberedOk(g, Staying(s, s.byNum[name], g.nums, cutoff));
    }
  }

  lemma GroupIncreasing(g: Group)
    requires GroupOk(g)
    ensures Increasing(g.nums)
  {
  }

  /** An expiry pass removes exactly the filings whose group has a positive retention and whose article was
      stored before that group's cutoff. */
  lemma ExpireFilings(s: State, now: Time, historyDays: int, id: string, g: string, n: int)
    requires Inv(s)
    ensures var s' := Expire(s, now, historyDays);
            && (Files(s', id, g, n) <==> Files(s, id, g, n) && !Old(s.groups, g, s.arts[id].info.storedAt, now))
            && (Indexed(s', id, g, n) <==> Files(s', id, g, n))
  {
    hide GroupOk, QueueOk, RowOk, ArtsOk, Old, Forgotten, ExpiredGroup;
    assert Indexed(s, id, g, n) <==> Files(s, id, g, n);
    if Files(s, id, g, n) && !Old(s.groups, g, s.arts[id].info.storedAt, now) {
      assert g in Remaining(s, s.arts[id], now);
    }
  }

  /** Expiry keeps the invariant. */
  lemma ExpireKeeps(s: State, now: Time, historyDays: int)
    requires Inv(s)
    ensures Inv(Expire(s, now, historyDays))
  {
    hide GroupOk, QueueOk, ExpiredGroup, ExpiredRow, Remaining, RowOk;
    var s' := Expire(s, now, historyDays);
    forall g | g in s'.groups
      ensures GroupOk(s'.groups[g]) && RowOk(s'.groups[g], s'.byNum[g])
    {
      ExpiredGroupOk(s, g, now);
    }
    forall id, g, n
      ensures Indexed(s', id, g, n) <==> Files(s', id, g, n)
    {
      ExpireFilings(s, now, historyDays, id, g, n);
    }
    ExpireArts(s, now, historyDays);
  }

  lemma ExpireArts(s: State, now: Time, historyDays: int)
    requires ArtsOk(s)
    ensures ArtsOk(Expire(s, now, historyDays))
  {
    hide Remaining, ExpiredGroup, ExpiredRow;
  }

  /** An article survives exactly when some group still files it, and its text is untouched. */
  lemma ExpireSurvivors(s: State, now: Time, historyDays: int, id: string)
    requires Inv(s) && id in s.arts
    ensures var s' := Expire(s, now, historyDays);
            && (id in s'.arts <==> exists g, n :: Files(s, id, g, n) && !Old(s.groups, g, s.arts[id].info.storedAt, now))
            && (id in s'.arts ==> s'.arts[id].info == s.arts[id].info && s'.arts[id].xref == s.arts[id].xref)
  {
    hide GroupOk, QueueOk, RowOk, Old, TablesOk, Forgotten, ExpiredGroup, ExpiredRow;
    var left := Remaining(s, s.arts[id], now);
    if left != map[] {
      var g :| g in left;
      assert Files(s, id, g, left[g]);
    }
    if g, n :| Files(s, id, g, n) && !Old(s.groups, g, s.arts[id].info.storedAt, now) {
      assert g in left;
    }
  }

  /** A filing goes exactly when its group keeps articles for a number of days and its article was stored longer ago
      than that; with its filing goes its number; an article goes with its last filing; and an ID is forgotten exactly
      when it is older than the history's days and its article is not stored. */
  lemma ExpiryByAge(s: State, now: Time, historyDays: int, id: string, g: string, n: int)
    requires Inv(s)
    ensures var s' := Expire(s, now, historyDays);
            && (Files(s, id, g, n) ==>
                  (!Files(s', id, g, n) <==>
                     var d := s.groups[g].retentionDays;
                     d.Some? && d.value > 0 && s.arts[id].info.storedAt + d.value * 86_400_000_000_000 < now)
                  && (n in s'.groups[g].nums <==> Files(s', id, g, n)))
            && (Files(s', id, g, n) ==> Files(s, id, g, n))
            && (id in s.arts ==> (id in s'.arts <==> exists h, m :: Files(s', id, h, m)))
            && (id in s.history ==>
                  (id !in s'.history <==>
                     historyDays > 0 && id !in s'.arts && s.history[id] + historyDays * 86_400_000_000_000 < now))
  {
    ExpireFilings(s, now, historyDays, id, g, n);
    ExpireLeaves(s, now, historyDays);
    ExpireKeeps(s, now, historyDays);
    var s' := Expire(s, now, historyDays);
    hide Expire, Inv;
    if Files(s, id, g, n) {
      FiledInGroup(s, id, g, n);
      forall x | Files(s', x, g, n)
        ensures Files(s, x, g, n)
      {
        ExpireFilings(s, now, historyDays, x, g, n);
      }
      NumberWithFiling(s, s', id, g, n);
    }
    if id in s'.arts {
      StoredFiled(s', id);
    }
  }

  lemma FiledInGroup(s: State, id: string, g: string, n: int)
    requires Inv(s) && Files(s, id, g, n)
    ensures g in s.groups && g in s.byNum
  {
    assert Indexed(s, id, g, n);
  }

  lemma StoredFiled(s: State, id: string)
    requires Inv(s) && id in s.arts
    ensures exists h, m :: Files(s, id, h, m)
  {
    var h :| h in s.arts[id].groups;
    assert Files(s, id, h, s.arts[id].groups[h]);
  }

  /** Where no filing is new, a number stays exactly with its filing. */
  lemma NumberWithFiling(s: State, s': State, id: string, g: string, n: int)
    requires Inv(s) && Inv(s') && Files(s, id, g, n) && g in s'.groups
    requires forall x | Files(s', x, g, n) :: Files(s, x, g, n)
    ensures n in s'.groups[g].nums <==> Files(s', id, g, n)
  {
    hide GroupOk, QueueOk, ArtsOk;
    assert Indexed(s, id, g, n);
    if n in s'.groups[g].nums {
      var x := s'.byNum[g][n];
      assert Indexed(s', x, g, n) && Files(s', x, g, n);
      assert Indexed(s, x, g, n);
    }
    if Files(s', id, g, n) {
      assert Indexed(s', id, g, n);
    }
  }

  /** Groups without a positive retention keep everything; the queue is not touched; history forgets exactly
      the IDs that are older than its limit and no longer stored. */
  lemma ExpireLeaves(s: State, now: Time, historyDays: int)
    requires Inv(s)
    ensures var s' := Expire(s, now, historyDays);
            && s'.groups.Keys == s.groups.Keys && s'.queue == s.queue
            && (forall g | g in s.groups && Cutoff(s.groups[g], now).None? ::
                  s'.groups[g] == s.groups[g] && s'.byNum[g] == s.byNum[g])
            && (forall id | id in s.history ::
                  id !in s'.history <==> historyDays > 0 && id !in s'.arts && s.history[id] < now - historyDays * DAY)
            && (forall id | id in s'.history :: id in s.history && s'.history[id] == s.history[id])
  {
    hide GroupOk, QueueOk, Remaining, Staying, Renumbered, FiledOk, ArtsOk, RowOk, ExpiredRow;
    forall g | g in s.groups && Cutoff(s.groups[g], now).None?
      ensures ExpiredRow(s, g, now) == s.byNum[g]
    {
      RowKept(s, g, now);
    }
  }

  lemma RowKept(s: State, g: string, now: Time)
    requires g in s.byNum && g in s.groups && Cutoff(s.groups[g], now).None?
    ensures ExpiredRow(s, g, now) == s.byNum[g]
  {
    var row := ExpiredRow(s, g, now);
    assert forall n | n in s.byNum[g] :: n in row && row[n] == s.byNum[g][n];
    assert forall n | n in row :: n in s.byNum[g];
  }

  /** A group's top number stays when there is no retention, when the article with that number stays, or
      when no number was ever issued. */
  ghost predicate TopStays(s: State, g: string, now: Time)
    requires g in s.groups && g in s.byNum
  {
    var mg, row := s.groups[g], s.byNum[g];
    || Cutoff(mg, now).None?
    || mg.high == 0
    || (mg.high in row && row[mg.high] in s.arts && !Old(s.groups, g, s.arts[row[mg.high]].info.storedAt, now))
  }

  /** Expiry keeps a group's High exactly when its top number stays; otherwise it lowers it, and the next
      article gets a number that was issued before. */
  lemma ExpireHighIff(s: State, now: Time, historyDays: int, g: string)
    requires Inv(s) && g in s.groups
    ensures var s' := Expire(s, now, historyDays);
            && s'.groups[g].high <= s.groups[g].high
            && (s'.groups[g].high == s.groups[g].high <==> TopStays(s, g, now))
            && (!TopStays(s, g, now) ==> Bump(s'.groups[g]).high <= s.groups[g].high)
  {
    hide QueueOk, ArtsOk, Staying, ExpiredRow, Remaining;
    var mg, row := s.groups[g], s.byNum[g];
    if Cutoff(mg, now).Some? {
      var keep := Staying(s, row, mg.nums, Cutoff(mg, now).value);
      StayingOf(s, row, mg.nums, Cutoff(mg, now).value);
      if keep != [] {
        var last := keep[|keep| - 1];
        assert last in keep;
        RowOfNumber(s, g, last);
        if mg.high in keep {
          var i :| 0 <= i < |keep| && keep[i] == mg.high;
        }
      }
      if mg.high in row {
        RowOfNumber(s, g, mg.high);
      }
    }
  }

  lemma RowOfNumber(s: State, g: string, n: int)
    requires TablesOk(s) && g in s.groups && n in s.byNum[g]
    ensures s.byNum[g][n] in s.arts && n in s.groups[g].nums
  {
    assert Indexed(s, s.byNum[g][n], g, n);
  }

  // ----- The pass group by group -----

  /** The state after the pass went through some of the groups. */
  function ExpireSome(s: State, done: set<string>, now: Time): State {
    s.(groups := map g | g in s.groups :: if g in done then ExpiredGroup(s, g, now) else s.groups[g],
       byNum := map g | g in s.byNum :: if g in done then ExpiredRow(s, g, now) else s.byNum[g],
       arts := map id | id in s.arts :: s.arts[id].(groups := RemainingSome(s, s.arts[id], done, now)))
  }

  function RemainingSome(s: State, a: Art, done: set<string>, now: Time): map<string, int> {
    map g | g in a.groups && !(g in done && Old(s.groups, g, a.info.storedAt, now)) :: a.groups[g]
  }

  /** An article without the groups in which it expired, and a group without its expired articles. */
  function WithoutExpired(a: Art, g: string, cutoff: Time): Art {
    if a.info.storedAt < cutoff then a.(groups := a.groups - {g}) else a
  }

  lemma ExpireSomeNone(s: State, now: Time)
    ensures ExpireSome(s, {}, now) == s
  {
    hide ExpiredGroup, ExpiredRow, Old;
    var t := ExpireSome(s, {}, now);
    forall id | id in s.arts
      ensures RemainingSome(s, s.arts[id], {}, now) == s.arts[id].groups
    {
    }
    assert t.groups == s.groups && t.byNum == s.byNum && t.arts == s.arts;
  }

  /** Groups not reached yet, and their index, are as they were; stored times never change. */
  lemma ExpireSomeAt(s: State, done: set<string>, now: Time, g: string)
    requires g in s.groups && g in s.byNum && g !in done
    ensures var t := ExpireSome(s, done, now);
            && t.groups[g] == s.groups[g] && t.byNum[g] == s.byNum[g] && t.arts.Keys == s.arts.Keys
            && t.groups.Keys == s.groups.Keys && t.byNum.Keys == s.byNum.Keys
            && (forall id | id in s.arts :: t.arts[id].info == s.arts[id].info)
  {
    hide ExpiredGroup, ExpiredRow, RemainingSome;
  }

  /** One more group: its numbers and index are those of the specification, and the expired articles lose it. */
  lemma ExpireSomeNext(s: State, done: set<string>, now: Time, g: string)
    requires g in s.groups && g in s.byNum && g !in done
    ensures var t, u := ExpireSome(s, done, now), ExpireSome(s, done + {g}, now);
            && u.groups == t.groups[g := ExpiredGroup(s, g, now)]
            && u.byNum == t.byNum[g := ExpiredRow(s, g, now)]
            && u.arts.Keys == t.arts.Keys
            && u == t.(groups := u.groups, byNum := u.byNum, arts := u.arts)
            && forall id | id in t.arts ::
                 u.arts[id] == match Cutoff(s.groups[g], now)
                               case None => t.arts[id]
                               case Some(cutoff) => WithoutExpired(t.arts[id], g, cutoff)
  {
    hide ExpiredGroup, ExpiredRow;
    forall id | id in s.arts
      ensures RemainingSome(s, s.arts[id], done + {g}, now) ==
                if Old(s.groups, g, s.arts[id].info.storedAt, now) then RemainingSome(s, s.arts[id], done, now) - {g}
                else RemainingSome(s, s.arts[id], done, now)
    {
    }
  }

  /** Groups without retention change nothing. */
  lemma ExpireSomeSkip(s: State, done: set<string>, now: Time, g: string)
    requires g in s.groups && g in s.byNum && g !in done && Cutoff(s.groups[g], now).None?
    ensures ExpireSome(s, done + {g}, now) == ExpireSome(s, done, now)
  {
    hide RemainingSome;
    ExpireSomeNext(s, done, now, g);
    RowKept(s, g, now);
    var t, u := ExpireSome(s, done, now), ExpireSome(s, done + {g}, now);
    assert u.groups == t.groups && u.byNum == t.byNum;
    assert u.arts == t.arts;
  }

  function FiledArts(arts: map<string, Art>): map<string, Art> {
    map id | id in arts && arts[id].groups != map[] :: arts[id]
  }

  /** An ID that the history drops: its article is not stored, and its time is before the limit. */
  predicate OldId(history: map<string, Time>, stored: set<string>, id: string, now: Time, historyDays: int) {
    historyDays > 0 && id in history && history[id] < now - historyDays * DAY && id !in stored
  }

  function Known(history: map<string, Time>, stored: set<string>, now: Time, historyDays: int): map<string, Time> {
    map id | id in history && !OldId(history, stored, id, now, historyDays) :: history[id]
  }

  /** The last part of the pass: articles without groups and forgotten IDs go. */
  function Swept(t: State, now: Time, historyDays: int): State {
    var arts := FiledArts(t.arts);
    t.(arts := arts, history := Known(t.history, arts.Keys, now, historyDays))
  }

  /** The groups' part takes no article and no ID; the sweep takes no number. */
  lemma SweptSame(s: State, all: set<string>, now: Time, historyDays: int)
    ensures var t := ExpireSome(s, all, now);
            && |t.arts| == |s.arts| && t.history == s.history && Swept(t, now, historyDays).byNum == t.byNum
  {
    hide ExpiredGroup, ExpiredRow, RemainingSome, FiledArts, Known;
    var t := ExpireSome(s, all, now);
    assert t.arts.Keys == s.arts.Keys;
    KeysSize(t.arts);
    KeysSize(s.arts);
  }

  lemma SweptIs(t: State, now: Time, historyDays: int)
    ensures Swept(t, now, historyDays)
         == t.(arts := FiledArts(t.arts), history := Known(t.history, FiledArts(t.arts).Keys, now, historyDays))
    ensures historyDays <= 0 ==> Swept(t, now, historyDays).history == t.history
  {
    hide FiledArts;
  }

  /** The pass as the program does it, group by group in any order and then the sweep, is the specified one. */
  lemma ExpireIsSwept(s: State, all: set<string>, now: Time, historyDays: int)
    requires s.groups.Keys <= all && s.byNum.Keys <= all
    ensures Expire(s, now, historyDays) == Swept(ExpireSome(s, all, now), now, historyDays)
  {
    var t := ExpireSome(s, all, now);
    ArtsSwept(s, all, now, historyDays);
    ForgottenIsOld(s, t, Expire(s, now, historyDays).arts, now, historyDays);
    hide ExpiredGroup, ExpiredRow, Forgotten, Remaining, RemainingSome, FiledArts, OldId;
    var e, w := Expire(s, now, historyDays), Swept(t, now, historyDays);
    assert e.groups == w.groups && e.byNum == w.byNum;
    assert e.history == w.history;
  }

  lemma ArtsSwept(s: State, all: set<string>, now: Time, historyDays: int)
    requires s.groups.Keys <= all
    ensures Expire(s, now, historyDays).arts == FiledArts(ExpireSome(s, all, now).arts)
  {
    hide ExpiredGroup, ExpiredRow, Forgotten, Remaining, RemainingSome;
    RemainingAll(s, all, now);
  }

  lemma ForgottenIsOld(s: State, t: State, arts: map<string, Art>, now: Time, historyDays: int)
    requires s.history == t.history
    ensures forall id :: Forgotten(s, arts, id, now, historyDays) == OldId(t.history, arts.Keys, id, now, historyDays)
  {
  }

  lemma RemainingAll(s: State, all: set<string>, now: Time)
    requires s.groups.Keys <= all
    ensures forall id | id in s.arts :: RemainingSome(s, s.arts[id], all, now) == Remaining(s, s.arts[id], now)
  {
  }

  // ----- Counting -----

  /** The filings of an index: each group with each of its numbers. */
  ghost function Pairs<V>(byNum: map<string, map<int, V>>): set<(string, int)> {
    set g, n | g in byNum && n in byNum[g] :: (g, n)
  }

  ghost function RowPairs(g: string, ns: set<int>): set<(string, int)> {
    set n | n in ns :: (g, n)
  }

  lemma Element<T>(all: set<T>) returns (x: T)
    requires all != {}
    ensures x in all
  {
    x :| x in all;
  }

  lemma {:induction false} RowPairsSize(g: string, ns: set<int>)
    ensures |RowPairs(g, ns)| == |ns|
  {
    if |ns| == 0 {
      assert RowPairs(g, ns) == {};
    } else {
      var n := Element(ns);
      RowPairsSize(g, ns - {n});
      assert RowPairs(g, ns) == RowPairs(g, ns - {n}) + {(g, n)};
    }
  }

  /** Taking numbers out of one group takes as many filings. */
  lemma PairsShrink<V>(byNum: map<string, map<int, V>>, g: string, row: map<int, V>)
    requires g in byNum && row.Keys <= byNum[g].Keys
    ensures |Pairs(byNum[g := row])| == |Pairs(byNum)| - (|byNum[g]| - |row|)
  {
    var out := byNum[g].Keys - row.Keys;
    PairsLess(byNum, g, row);
    RowPairsSize(g, out);
    hide Pairs, RowPairs;
    SubsetSize(RowPairs(g, out), Pairs(byNum));
    SubsetSize(row.Keys, byNum[g].Keys);
    assert |row.Keys| == |row| && |byNum[g].Keys| == |byNum[g]|;
  }

  lemma PairsLess<V>(byNum: map<string, map<int, V>>, g: string, row: map<int, V>)
    requires g in byNum && row.Keys <= byNum[g].Keys
    ensures var gone := RowPairs(g, byNum[g].Keys - row.Keys);
            gone <= Pairs(byNum) && Pairs(byNum[g := row]) == Pairs(byNum) - gone
  {
    var gone := RowPairs(g, byNum[g].Keys - row.Keys);
    forall h, n
      ensures (h, n) in Pairs(byNum[g := row]) <==> (h, n) in Pairs(byNum) - gone
    {
    }
  }

  /** The filings that expire. */
  ghost predicate Expires(s: State, now: Time, g: string, n: int) {
    g in s.byNum && n in s.byNum[g] && s.byNum[g][n] in s.arts
    && Old(s.groups, g, s.arts[s.byNum[g][n]].info.storedAt, now)
  }

  ghost function Expiring(s: State, now: Time): set<(string, int)> {
    set p | p in Pairs(s.byNum) && Expires(s, now, p.0, p.1)
  }

  /** What a pass reports: how many filings, articles and IDs it removed. */
  ghost function Removed(s: State, s': State): ExpireResult {
    ExpireResult(|Pairs(s.byNum)| - |Pairs(s'.byNum)|, |s.arts| - |s'.arts|, |s.history| - |s'.history|)
  }

  /** The three counts are exact: the filings that expire, the articles left without a group, the IDs dropped. */
  lemma RemovedIsExact(s: State, now: Time, historyDays: int)
    ensures var s' := Expire(s, now, historyDays);
            Removed(s, s') == ExpireResult(|Expiring(s, now)|, |s.arts.Keys - s'.arts.Keys|, |s.history.Keys - s'.history.Keys|)
  {
    hide Expire, Pairs, Expiring;
    var s' := Expire(s, now, historyDays);
    PairsExpired(s, now, historyDays);
    SubsetSize(Expiring(s, now), Pairs(s.byNum));
    ExpireShrinks(s, now, historyDays);
    SubsetSize(s'.arts.Keys, s.arts.Keys);
    SubsetSize(s'.history.Keys, s.history.Keys);
    KeysSize(s.arts);
    KeysSize(s'.arts);
    KeysSize(s.history);
    KeysSize(s'.history);
  }

  lemma KeysSize<K, V>(m: map<K, V>)
    ensures |m.Keys| == |m|
  {
  }

  lemma ExpireShrinks(s: State, now: Time, historyDays: int)
    ensures var s' := Expire(s, now, historyDays);
            s'.arts.Keys <= s.arts.Keys && s'.history.Keys <= s.history.Keys
  {
    hide ExpiredGroup, ExpiredRow, Remaining, Forgotten;
  }

  lemma PairsExpired(s: State, now: Time, historyDays: int)
    ensures Expiring(s, now) <= Pairs(s.byNum)
    ensures Pairs(Expire(s, now, historyDays).byNum) == Pairs(s.byNum) - Expiring(s, now)
  {
    hide ExpiredGroup, Old, Remaining, Forgotten;
    var after := Expire(s, now, historyDays).byNum;
    forall g, n
      ensures (g, n) in Pairs(after) <==> (g, n) in Pairs(s.byNum) - Expiring(s, now)
    {
    }
  }

  lemma SubsetSize<T>(a: set<T>, b: set<T>)
    requires a <= b
    ensures |b - a| == |b| - |a|
  {
  }
}
