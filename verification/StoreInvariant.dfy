/** What every operation of the store keeps: the group numbers, the number index, the articles and the history agree. */
module StoreInvariant {
  import opened Text
  import opened Seqs
  import opened StoreState

  // ----- The invariant -----

  ghost predicate Increasing(nums: seq<int>) {
    forall i, j | 0 <= i < j < |nums| :: nums[i] < nums[j]
  }

  /** A group's numbers: increasing, counted, between 1 and High, and none below Low. */
  ghost predicate GroupOk(g: Group) {
    && Increasing(g.nums)
    && g.count == |g.nums|
    && 0 <= g.low <= g.high
    && (forall n | n in g.nums :: 1 <= n <= g.high)
    && (g.nums != [] ==> 1 <= g.low <= g.nums[0])
  }

  /** The index lists exactly the group's numbers. */
  ghost predicate RowOk(g: Group, row: map<int, string>) {
    forall n :: n in row <==> n in g.nums
  }

  /** Number `n` of group `g` is article `id`. */
  ghost predicate Files(s: State, id: string, g: string, n: int) {
    id in s.arts && g in s.arts[id].groups && s.arts[id].groups[g] == n
  }

  ghost predicate Indexed(s: State, id: string, g: string, n: int) {
    g in s.byNum && n in s.byNum[g] && s.byNum[g][n] == id
  }

  /** The index and the articles describe the same filing, both ways. */
  ghost predicate FiledOk(s: State) {
    forall id, g, n :: Indexed(s, id, g, n) <==> Files(s, id, g, n)
  }

  ghost predicate TablesOk(s: State) {
    && s.byNum.Keys == s.groups.Keys
    && (forall g | g in s.groups :: GroupOk(s.groups[g]) && RowOk(s.groups[g], s.byNum[g]))
    && FiledOk(s)
  }

  ghost predicate ArtsOk(s: State) {
    forall id | id in s.arts :: s.arts[id].groups != map[] && id in s.history
  }

  /** Queue entries have increasing IDs, all issued, a count of attempts, and no peer is offered an article twice. */
  ghost predicate QueueOk(queue: seq<FeedItem>, nextID: int) {
    && (forall i, j | 0 <= i < j < |queue| :: queue[i].id < queue[j].id)
    && (forall i | 0 <= i < |queue| :: 1 <= queue[i].id <= nextID && queue[i].attempts >= 0)
    && (forall i, j | 0 <= i < j < |queue| :: queue[i].peer != queue[j].peer || queue[i].msgid != queue[j].msgid)
    && nextID >= 0
  }

  ghost predicate Inv(s: State) {
    TablesOk(s) && ArtsOk(s) && QueueOk(s.queue, s.nextFeedID)
  }

  lemma EmptyInv()
    ensures Inv(EMPTY)
  {
  }

  // ----- Group creation and update -----

  /** Two groups with the same numbers. */
  ghost predicate SameNumbers(g: Group, h: Group) {
    g.low == h.low && g.high == h.high && g.count == h.count && g.nums == h.nums
  }

  lemma SetGroupKeeps(s: State, name: string, g: Group)
    requires Inv(s) && name in s.groups && SameNumbers(g, s.groups[name])
    ensures Inv(SetGroup(s, name, g))
  {
    hide GroupOk, Increasing, QueueOk;
    var s' := SetGroup(s, name, g);
    GroupOkNumbers(g, s.groups[name]);
    assert forall id, g, n :: Indexed(s', id, g, n) == Indexed(s, id, g, n) && Files(s', id, g, n) == Files(s, id, g, n);
  }

  lemma GroupOkNumbers(g: Group, h: Group)
    requires SameNumbers(g, h) && GroupOk(h)
    ensures GroupOk(g)
  {
  }

  lemma AddGroupKeeps(s: State, name: string, g: Group)
    requires Inv(s) && name !in s.groups && g.nums == [] && g.low == g.high == g.count == 0
    ensures Inv(AddGroup(s, name, g))
  {
    hide QueueOk, GroupOk;
    var s' := AddGroup(s, name, g);
    assert GroupOk(g) by { EmptyGroupOk(g); }
    forall id, h, n
      ensures Indexed(s', id, h, n) <==> Files(s', id, h, n)
    {
      assert Indexed(s, id, h, n) <==> Files(s, id, h, n);
    }
  }

  lemma EmptyGroupOk(g: Group)
    requires g.nums == [] && g.low == g.high == g.count == 0
    ensures GroupOk(g)
  {
  }

  /** Every group has the numbers that it had, and a group that is new has none. */
  ghost predicate NumbersStay(s: State, s': State) {
    && (forall g | g in s.groups :: g in s'.groups && SameNumbers(s'.groups[g], s.groups[g]))
    && forall g | g in s'.groups && g !in s.groups :: s'.groups[g].nums == []
  }

  lemma OneGroupNumbers(s: State, name: string, g: Group)
    requires if name in s.groups then SameNumbers(g, s.groups[name]) else g.nums == []
    ensures NumbersStay(s, SetGroup(s, name, g)) && NumbersStay(s, AddGroup(s, name, g)) && NumbersStay(s, s)
  {
  }

  /** Creating, updating and disabling groups leave the numbers of every group. */
  lemma GroupNumbersStay(s: State, name: string, desc: string, status: string, now: Time)
    ensures NumbersStay(s, EnsureGroup(s, name, desc, status, now))
    ensures NumbersStay(s, EnsureGroupISC(s, name, desc, status, now))
    ensures NumbersStay(s, ApplyControlGroup(s, name, desc, status, now))
    ensures NumbersStay(s, DisableControlGroup(s, name, now))
  {
    hide NumbersStay, SetGroup, AddGroup;
    if name !in s.groups {
      OneGroupNumbers(s, name, NewGroup(desc, StatusOr(status), LOCAL, now));
      OneGroupNumbers(s, name, NewGroup(desc, StatusOr(status), ISC, now));
      OneGroupNumbers(s, name, NewGroup(desc, StatusOr(status), CONTROL, now));
      OneGroupNumbers(s, name, NewGroup("", "n", CONTROL, now));
    } else {
      var g := s.groups[name];
      var h := g.(description := DescOr(g, desc), status := StatusOr(status));
      OneGroupNumbers(s, name, h.(origin := if g.origin == "" || g.origin == ISC then LOCAL else g.origin));
      OneGroupNumbers(s, name, h.(origin := ISC));
      OneGroupNumbers(s, name, h.(origin := CONTROL));
      OneGroupNumbers(s, name, g.(status := "n", origin := CONTROL));
    }
  }

  /** Creating, updating and disabling groups keep the invariant, and no existing group's numbers change. */
  lemma GroupStepsKeep(s: State, name: string, desc: string, status: string, now: Time)
    requires Inv(s)
    ensures NumbersStay(s, EnsureGroup(s, name, desc, status, now))
    ensures NumbersStay(s, EnsureGroupISC(s, name, desc, status, now))
    ensures NumbersStay(s, ApplyControlGroup(s, name, desc, status, now))
    ensures NumbersStay(s, DisableControlGroup(s, name, now))
    ensures Inv(EnsureGroup(s, name, desc, status, now))
    ensures Inv(EnsureGroupISC(s, name, desc, status, now))
    ensures Inv(ApplyControlGroup(s, name, desc, status, now))
    ensures Inv(DisableControlGroup(s, name, now))
  {
    hide Inv, NumbersStay;
    GroupNumbersStay(s, name, desc, status, now);
    if name !in s.groups {
      AddGroupKeeps(s, name, NewGroup(desc, StatusOr(status), LOCAL, now));
      AddGroupKeeps(s, name, NewGroup(desc, StatusOr(status), ISC, now));
      AddGroupKeeps(s, name, NewGroup(desc, StatusOr(status), CONTROL, now));
      AddGroupKeeps(s, name, NewGroup("", "n", CONTROL, now));
    } else {
      SetGroupKeeps(s, name, EnsureGroup(s, name, desc, status, now).groups[name]);
      SetGroupKeeps(s, name, ApplyControlGroup(s, name, desc, status, now).groups[name]);
      SetGroupKeeps(s, name, DisableControlGroup(s, name, now).groups[name]);
      var g := s.groups[name];
      SetGroupKeeps(s, name, g.(description := DescOr(g, desc), status := StatusOr(status), origin := ISC));
    }
  }

  lemma RetentionKeeps(s: State, name: string, days: Option<int>, mode: string)
    requires Inv(s)
    ensures Inv(SetRetention(s, name, days, mode))
  {
    hide Inv;
    if name in s.groups {
      SetGroupKeeps(s, name, s.groups[name].(retentionDays := days, retentionMode := mode));
    }
  }

  // ----- Posting -----

  function Occurrences(used: seq<string>, g: string): nat {
    if used == [] then 0 else (if used[0] == g then 1 else 0) + Occurrences(used[1..], g)
  }

  /** The `k` numbers from `lo` on. */
  function Range(lo: int, k: nat): (r: seq<int>)
    ensures |r| == k && forall i | 0 <= i < k :: r[i] == lo + i
    ensures forall n :: n in r <==> lo <= n < lo + k
  {
    if k == 0 then [] else Range(lo, k - 1) + [lo + k - 1]
  }

  function Span(lo: int, k: nat): (all: set<int>)
    ensures forall n :: n in all <==> lo <= n < lo + k
  {
    if k == 0 then {} else Span(lo, k - 1) + {lo + k - 1}
  }

  /** A group with `k` numbers issued to one article. */
  function BumpBy(g: Group, k: nat): Group {
    g.(high := g.high + k, low := if g.low == 0 && k > 0 then g.high + 1 else g.low, count := g.count + k,
       nums := g.nums + Range(g.high + 1, k))
  }

  function RowBy(row: map<int, string>, high: int, k: nat, id: string): map<int, string> {
    map n | n in row.Keys + Span(high + 1, k) :: if high < n <= high + k then id else row[n]
  }

  lemma BumpBumpBy(g: Group, k: nat)
    requires 0 <= g.high
    ensures BumpBy(Bump(g), k) == BumpBy(g, k + 1)
    ensures BumpBy(g, 0) == g
  {
    assert g.nums + [g.high + 1] + Range(g.high + 2, k) == g.nums + Range(g.high + 1, k + 1);
    assert g.nums + Range(g.high + 1, 0) == g.nums;
  }

  lemma RowRowBy(row: map<int, string>, high: int, k: nat, id: string)
    ensures RowBy(row[high + 1 := id], high + 1, k, id) == RowBy(row, high, k + 1, id)
    ensures RowBy(row, high, 0, id) == row
  {
  }

  lemma FileOneAt(f: Filing, h: string, id: string, g: string)
    requires h in f.groups && g in f.groups
    ensures var f1 := FileOne(f, h, id);
            && f1.groups.Keys == f.groups.Keys
            && (h != g ==> f1.groups[g] == f.groups[g] && Row(f1.byNum, g) == Row(f.byNum, g)
                           && (g in f1.numbers <==> g in f.numbers) && (g in f.numbers ==> f1.numbers[g] == f.numbers[g]))
            && (h == g ==> f1.groups[g] == Bump(f.groups[g]) && f1.groups[g].high == f.groups[g].high + 1
                           && Row(f1.byNum, g) == Row(f.byNum, g)[f.groups[g].high + 1 := id]
                           && g in f1.numbers && f1.numbers[g] == f.groups[g].high + 1)
  {
  }

  /** What filing does to one group: it issues as many numbers as the group is named. */
  lemma {:induction false} FileAllAt(f: Filing, used: seq<string>, id: string, g: string)
    requires (forall h | h in used :: h in f.groups) && g in f.groups && 0 <= f.groups[g].high
    ensures var f', k := FileAll(f, used, id), Occurrences(used, g);
            && g in f'.groups && f'.groups[g] == BumpBy(f.groups[g], k)
            && Row(f'.byNum, g) == RowBy(Row(f.byNum, g), f.groups[g].high, k, id)
            && (g in f'.numbers <==> g in f.numbers || k > 0)
            && (g in f'.numbers ==> f'.numbers[g] == if k > 0 then f.groups[g].high + k else f.numbers[g])
    decreases |used|
  {
    hide BumpBy, RowBy;
    if used == [] {
      BumpBumpBy(f.groups[g], 0);
      RowRowBy(Row(f.byNum, g), f.groups[g].high, 0, id);
    } else {
      var f1 := FileOne(f, used[0], id);
      FileOneAt(f, used[0], id, g);
      hide FileOne;
      FileAllAt(f1, used[1..], id, g);
      if used[0] == g {
        BumpBumpBy(f.groups[g], Occurrences(used[1..], g));
        RowRowBy(Row(f.byNum, g), f.groups[g].high, Occurrences(used[1..], g), id);
      }
    }
  }

  /** Filing touches the named groups only. */
  lemma {:induction false} FileAllKeys(f: Filing, used: seq<string>, id: string)
    requires forall h | h in used :: h in f.groups
    ensures var f' := FileAll(f, used, id);
            && f'.groups.Keys == f.groups.Keys
            && f'.byNum.Keys == f.byNum.Keys + (set h | h in used)
            && f'.numbers.Keys == f.numbers.Keys + (set h | h in used)
            && |f'.parts| == |f.parts| + |used|
    decreases |used|
  {
    if used != [] {
      FileAllKeys(FileOne(f, used[0], id), used[1..], id);
      assert used == [used[0]] + used[1..];
    }
  }

  lemma {:induction false} OccurrencesIn(used: seq<string>, g: string)
    ensures Occurrences(used, g) > 0 <==> g in used
    ensures Distinct(used) ==> Occurrences(used, g) <= 1
  {
    if used != [] {
      OccurrencesIn(used[1..], g);
      assert used == [used[0]] + used[1..];
      if Distinct(used) {
        DistinctTail(used);
      }
    }
  }

  lemma {:induction false} OccursTwice(used: seq<string>) returns (g: string)
    requires !Distinct(used)
    ensures g in used && Occurrences(used, g) >= 2
  {
    if used[0] in used[1..] {
      g := used[0];
      OccurrencesIn(used[1..], g);
    } else {
      assert !Distinct(used[1..]) by {
        var i, j :| 0 <= i < j < |used| && used[i] == used[j];
        assert used[j] == used[1..][j - 1];
        assert used[i] == used[1..][i - 1];
      }
      g := OccursTwice(used[1..]);
    }
  }

  lemma BumpByOk(g: Group, row: map<int, string>, k: nat, id: string)
    requires GroupOk(g) && RowOk(g, row)
    ensures GroupOk(BumpBy(g, k)) && RowOk(BumpBy(g, k), RowBy(row, g.high, k, id))
  {
    BumpByGroupOk(g, k);
    hide GroupOk, Range, Span;
  }

  lemma BumpByGroupOk(g: Group, k: nat)
    requires GroupOk(g)
    ensures GroupOk(BumpBy(g, k))
  {
    hide Range;
    var more := Range(g.high + 1, k);
    assert forall i | 0 <= i < |g.nums| :: g.nums[i] in g.nums;
    IncreasingAppend(g.nums, more);
  }

  lemma IncreasingAppend(a: seq<int>, b: seq<int>)
    requires Increasing(a) && Increasing(b) && forall i, j | 0 <= i < |a| && 0 <= j < |b| :: a[i] < b[j]
    ensures Increasing(a + b)
  {
  }

  /** A successful Post keeps the invariant exactly when no group that takes the article is named twice:
      otherwise the first of the two numbers would keep denoting an article that is not filed under it. */
  lemma PostKeepsIff(s: State, id: string, info: Info, prefix: string, groups: seq<string>, now: Time)
    requires Inv(s)
    ensures var (s', r) := Post(s, id, info, prefix, groups, now);
            Inv(s') <==> (r.Posted? ==> Distinct(Used(s.groups, groups)))
  {
    hide FileAll, Used, Inv;
    if Post(s, id, info, prefix, groups, now).1.Posted? {
      var used := Used(s.groups, groups);
      if Distinct(used) {
        PostedKeeps(s, id, info, prefix, groups, now);
      } else {
        var g := OccursTwice(used);
        GroupPositive(s, g);
        FiledTwice(FilingOf(s), used, id, g);
        PostedTwice(Post(s, id, info, prefix, groups, now).0, id, g, s.groups[g].high + 1);
      }
    }
  }

  lemma PostedKeeps(s: State, id: string, info: Info, prefix: string, groups: seq<string>, now: Time)
    requires Inv(s) && Post(s, id, info, prefix, groups, now).1.Posted? && Distinct(Used(s.groups, groups))
    ensures Inv(Post(s, id, info, prefix, groups, now).0)
  {
    hide FileAll, Used, TablesOk, ArtsOk, QueueOk;
    PostedTables(s, id, info, prefix, groups, now);
    PostedArts(s, id, info, prefix, groups, now);
  }

  /** Named twice, a group gets two numbers in the index, but the article records only the second. */
  lemma FiledTwice(f: Filing, used: seq<string>, id: string, g: string)
    requires (forall h | h in used :: h in f.groups) && g in f.groups && 0 <= f.groups[g].high
    requires Occurrences(used, g) >= 2
    ensures var f', n := FileAll(f, used, id), f.groups[g].high + 1;
            && g in f'.byNum && n in f'.byNum[g] && f'.byNum[g][n] == id
            && g in f'.numbers && f'.numbers[g] != n
  {
    hide FileAll, BumpBy, RowBy, Occurrences;
    FileAllAt(f, used, id, g);
    RowByHas(Row(f.byNum, g), f.groups[g].high, Occurrences(used, g), id, f.groups[g].high + 1);
  }

  lemma GroupPositive(s: State, g: string)
    requires Inv(s) && g in s.groups
    ensures 0 <= s.groups[g].high
  {
    GroupHighOk(s.groups[g]);
  }

  lemma PostedTwice(s: State, id: string, g: string, n: int)
    requires Indexed(s, id, g, n) && !Files(s, id, g, n)
    ensures !Inv(s)
  {
  }

  lemma RowByHas(row: map<int, string>, high: int, k: nat, id: string, n: int)
    requires high < n <= high + k
    ensures n in RowBy(row, high, k, id) && RowBy(row, high, k, id)[n] == id
  {
  }

  lemma PostedArts(s: State, id: string, info: Info, prefix: string, groups: seq<string>, now: Time)
    requires Inv(s) && Post(s, id, info, prefix, groups, now).1.Posted?
    ensures ArtsOk(Post(s, id, info, prefix, groups, now).0)
  {
    hide FileAll, Used, TablesOk, QueueOk;
    var used := Used(s.groups, groups);
    FileAllKeys(FilingOf(s), used, id);
    assert used[0] in FileAll(FilingOf(s), used, id).numbers;
  }

  lemma PostedTables(s: State, id: string, info: Info, prefix: string, groups: seq<string>, now: Time)
    requires Inv(s) && Post(s, id, info, prefix, groups, now).1.Posted? && Distinct(Used(s.groups, groups))
    ensures TablesOk(Post(s, id, info, prefix, groups, now).0)
  {
    hide FileAll, Used, GroupOk, RowOk, QueueOk, Indexed, Files, Inv, Post;
    var s' := Post(s, id, info, prefix, groups, now).0;
    PostedGroups(s, id, info, prefix, groups, now);
    forall i, g, n
      ensures Indexed(s', i, g, n) <==> Files(s', i, g, n)
    {
      PostedFiling(s, id, info, prefix, groups, now, i, g, n);
    }
  }

  lemma PostedGroups(s: State, id: string, info: Info, prefix: string, groups: seq<string>, now: Time)
    requires Inv(s) && Post(s, id, info, prefix, groups, now).1.Posted?
    ensures var s' := Post(s, id, info, prefix, groups, now).0;
            && s'.byNum.Keys == s'.groups.Keys
            && forall g | g in s'.groups :: GroupOk(s'.groups[g]) && RowOk(s'.groups[g], s'.byNum[g])
  {
    hide FileAll, Used, BumpBy, RowBy, GroupOk, RowOk, QueueOk, FiledOk, ArtsOk, Occurrences, XrefOf;
    var used := Used(s.groups, groups);
    var s' := Post(s, id, info, prefix, groups, now).0;
    FileAllKeys(FilingOf(s), used, id);
    forall g | g in s'.groups
      ensures GroupOk(s'.groups[g]) && RowOk(s'.groups[g], s'.byNum[g])
    {
      GroupHighOk(s.groups[g]);
      FileAllAt(FilingOf(s), used, id, g);
      BumpByOk(s.groups[g], s.byNum[g], Occurrences(used, g), id);
    }
  }

  lemma GroupHighOk(g: Group)
    requires GroupOk(g)
    ensures 0 <= g.high && forall n | n in g.nums :: n <= g.high
  {
  }

  lemma PostedFiling(s: State, id: string, info: Info, prefix: string, groups: seq<string>, now: Time, i: string, g: string, n: int)
    requires Inv(s) && Post(s, id, info, prefix, groups, now).1.Posted? && Distinct(Used(s.groups, groups))
    ensures var s' := Post(s, id, info, prefix, groups, now).0;
            Indexed(s', i, g, n) <==> Files(s', i, g, n)
  {
    hide FileAll, Used, BumpBy, RowBy, GroupOk, QueueOk, Occurrences;
    var used := Used(s.groups, groups);
    FileAllKeys(FilingOf(s), used, id);
    assert Indexed(s, i, g, n) <==> Files(s, i, g, n);
    if g in s.groups {
      GroupHighOk(s.groups[g]);
      FileAllAt(FilingOf(s), used, id, g);
      OccurrencesIn(used, g);
      RowByAt(s.byNum[g], s.groups[g].high, Occurrences(used, g), id, i, n);
    }
  }

  lemma RowByAt(row: map<int, string>, high: int, k: nat, id: string, i: string, n: int)
    requires k <= 1 && forall m | m in row :: m <= high
    ensures n in RowBy(row, high, k, id) && RowBy(row, high, k, id)[n] == i
       <==> (k == 1 && n == high + 1 && i == id) || (n in row && row[n] == i)
  {
  }

  // ----- Cancelling and deleting -----

  lemma {:induction false} ExceptOf(nums: seq<int>, n: int)
    ensures forall x :: x in Except(nums, n) <==> x in nums && x != n
    ensures Increasing(nums) ==> Increasing(Except(nums, n)) && |Except(nums, n)| == |nums| - if n in nums then 1 else 0
  {
    if nums != [] {
      var rest := nums[1..];
      ExceptOf(rest, n);
      assert nums == [nums[0]] + rest;
      if Increasing(nums) {
        IncreasingTail(nums);
        if nums[0] != n {
          assert forall i | 0 <= i < |Except(rest, n)| :: Except(rest, n)[i] in Except(rest, n);
        }
      }
    }
  }

  lemma IncreasingTail(nums: seq<int>)
    requires Increasing(nums) && nums != []
    ensures Increasing(nums[1..]) && forall x | x in nums[1..] :: nums[0] < x
  {
  }

  lemma RemoveOk(g: Group, row: map<int, string>, n: int)
    requires GroupOk(g) && RowOk(g, row) && n in row
    ensures GroupOk(Remove(g, n)) && RowOk(Remove(g, n), row - {n})
  {
    hide Except;
    ExceptOf(g.nums, n);
    assert g.nums != [];
    var g' := Remove(g, n);
    if g'.nums != [] {
      assert g'.nums[0] in g'.nums;
      assert forall x | x in g.nums :: g.nums[0] <= x;
    }
  }

  lemma {:induction false} UnqueuedKeeps(queue: seq<FeedItem>, id: string, nextID: int)
    requires QueueOk(queue, nextID)
    ensures QueueOk(Unqueued(queue, id), nextID)
    ensures forall it :: it in Unqueued(queue, id) <==> it in queue && it.msgid != id
  {
    if queue != [] {
      QueueTail(queue, nextID);
      UnqueuedKeeps(queue[1..], id, nextID);
      var rest := Unqueued(queue[1..], id);
      assert queue == [queue[0]] + queue[1..];
      if queue[0].msgid != id {
        assert forall it | it in rest :: it in queue[1..];
        QueueCons(queue[0], queue[1..], rest, nextID);
      }
    }
  }

  lemma QueueTail(queue: seq<FeedItem>, nextID: int)
    requires QueueOk(queue, nextID) && queue != []
    ensures QueueOk(queue[1..], nextID)
  {
  }

  /** An entry in front of a part of what followed it. */
  lemma QueueCons(it: FeedItem, tail: seq<FeedItem>, part: seq<FeedItem>, nextID: int)
    requires QueueOk([it] + tail, nextID) && QueueOk(part, nextID)
    requires forall x | x in part :: x in tail
    ensures QueueOk([it] + part, nextID)
  {
    var q, p := [it] + tail, [it] + part;
    assert q[0] == it;
    assert forall j | 1 <= j < |p| :: p[j] == part[j - 1];
    forall j | 1 <= j < |p|
      ensures it.id < p[j].id && (it.peer != p[j].peer || it.msgid != p[j].msgid)
    {
      assert p[j] in part;
      var k :| 0 <= k < |tail| && tail[k] == p[j];
      assert q[k + 1] == p[j] && q[0] == it;
    }
  }

  /** Article `id` is gone, with its numbers and its queue entries, and nothing else: every other article, number
      and entry, the history, and every group's High are as they were. */
  ghost predicate OnlyArticleGoes(s: State, id: string, s': State) {
    && s'.arts == s.arts - {id} && s'.history == s.history
    && s'.groups.Keys == s.groups.Keys && (forall g | g in s.groups :: s'.groups[g].high == s.groups[g].high)
    && (forall g, n | g in s.groups :: n in s'.groups[g].nums <==> n in s.groups[g].nums && !Files(s, id, g, n))
    && (forall it :: it in s'.queue <==> it in s.queue && !(id in s.arts && it.msgid == id))
  }

  lemma DeleteArticleExact(s: State, id: string)
    requires Inv(s)
    ensures OnlyArticleGoes(s, id, DeleteArticle(s, id))
  {
    hide TablesOk, ArtsOk, QueueOk, Except, Unqueued, Least;
    UnqueuedKeeps(s.queue, id, s.nextFeedID);
    var s' := DeleteArticle(s, id);
    forall g, n | g in s.groups
      ensures n in s'.groups[g].nums <==> n in s.groups[g].nums && !Files(s, id, g, n)
    {
      if id in s.arts && g in s.arts[id].groups {
        ExceptOf(s.groups[g].nums, s.arts[id].groups[g]);
      }
    }
  }

  /** Deleting an article keeps the invariant, and takes out exactly this article. */
  lemma DeleteArticleKeeps(s: State, id: string)
    requires Inv(s)
    ensures Inv(DeleteArticle(s, id))
    ensures OnlyArticleGoes(s, id, DeleteArticle(s, id))
  {
    hide Inv, OnlyArticleGoes, DeleteArticle;
    DeleteArticleInv(s, id);
    DeleteArticleExact(s, id);
  }

  lemma DeleteArticleInv(s: State, id: string)
    requires Inv(s)
    ensures Inv(DeleteArticle(s, id))
  {
    hide QueueOk, Except, Unqueued, GroupOk;
    if id in s.arts {
      var s' := DeleteArticle(s, id);
      UnqueuedKeeps(s.queue, id, s.nextFeedID);
      forall g | g in s'.groups
        ensures GroupOk(s'.groups[g]) && RowOk(s'.groups[g], s'.byNum[g])
      {
        if g in s.arts[id].groups {
          assert Files(s, id, g, s.arts[id].groups[g]);
          RemoveOk(s.groups[g], s.byNum[g], s.arts[id].groups[g]);
        }
      }
      forall i, g, n
        ensures Indexed(s', i, g, n) <==> Files(s', i, g, n)
      {
        assert Indexed(s, i, g, n) <==> Files(s, i, g, n);
        assert Indexed(s, id, g, n) <==> Files(s, id, g, n);
      }
    }
  }

  lemma HistoryKeeps(s: State, history: map<string, Time>)
    requires Inv(s) && forall id | id in s.arts :: id in history
    ensures Inv(s.(history := history))
  {
    hide QueueOk, GroupOk;
    var s' := s.(history := history);
    assert forall i, g, n :: Indexed(s', i, g, n) == Indexed(s, i, g, n) && Files(s', i, g, n) == Files(s, i, g, n);
  }

  /** A cancelled ID is known from then on, also if it was not before, and its article goes if it is stored; an ID
      that is remembered is known, with its own time if it was so before. No other ID gets or loses its time. */
  lemma CancelKeeps(s: State, id: string, now: Time)
    requires Inv(s)
    ensures var s' := Cancel(s, id, now).0;
            Inv(s') && s'.history == s.history[id := now] && OnlyArticleGoes(s.(history := s'.history), id, s')
    ensures var s' := Remember(s, id, now);
            && Inv(s') && id in s'.history && (id !in s.history ==> s'.history[id] == now)
            && (forall i | i in s.history :: i in s'.history && s'.history[i] == s.history[i])
            && (forall i | i in s'.history :: i == id || i in s.history)
            && s' == s.(history := s'.history)
  {
    hide QueueOk, TablesOk, OnlyArticleGoes;
    HistoryKeeps(s, s.history[id := now]);
    DeleteArticleKeeps(s.(history := s.history[id := now]), id);
    CancelHistory(s, id, now);
  }

  lemma CancelHistory(s: State, id: string, now: Time)
    ensures Cancel(s, id, now).0.history == s.history[id := now]
  {
  }

  /** Removing a group keeps the invariant; exactly the articles that were filed nowhere else go, and the others
      leave this group only. */
  lemma DeleteGroupKeeps(s: State, name: string)
    requires Inv(s)
    ensures var s' := DeleteGroup(s, name);
            && Inv(s') && s'.groups == s.groups - {name}
            && s'.history == s.history && s'.queue == s.queue
            && (forall id :: id in s'.arts <==> id in s.arts && s.arts[id].groups.Keys != {name})
            && (forall id | id in s'.arts :: s'.arts[id] == s.arts[id].(groups := s.arts[id].groups - {name}))
  {
    hide Inv;
    RemovedGroupInv(s, name);
    RemovedGroupArts(s, name);
  }

  lemma RemovedGroupArts(s: State, name: string)
    requires Inv(s)
    ensures var s' := DeleteGroup(s, name);
            && (forall id :: id in s'.arts <==> id in s.arts && s.arts[id].groups.Keys != {name})
            && (forall id | id in s'.arts :: s'.arts[id] == s.arts[id].(groups := s.arts[id].groups - {name}))
  {
    hide QueueOk, GroupOk, RowOk;
    var s' := DeleteGroup(s, name);
    forall id | id in s.arts
      ensures id in s'.arts <==> s.arts[id].groups.Keys != {name}
      ensures id in s'.arts ==> s'.arts[id] == s.arts[id].(groups := s.arts[id].groups - {name})
    {
      var gs := s.arts[id].groups;
      if name in gs {
        assert Files(s, id, name, gs[name]) && Indexed(s, id, name, gs[name]);
        assert gs.Keys == {name} <==> gs - {name} == map[] by {
          assert (gs - {name}).Keys == gs.Keys - {name};
          assert gs - {name} == map[] <==> (gs - {name}).Keys == {};
          assert gs.Keys == (gs.Keys - {name}) + {name};
        }
      } else {
        assert gs - {name} == gs;
      }
    }
  }

  lemma RemovedGroupInv(s: State, name: string)
    requires Inv(s)
    ensures Inv(DeleteGroup(s, name))
  {
    hide QueueOk, GroupOk;
    if name in s.groups {
      var s' := DeleteGroup(s, name);
      forall i, g, n
        ensures Indexed(s', i, g, n) <==> Files(s', i, g, n)
      {
        assert Indexed(s, i, g, n) <==> Files(s, i, g, n);
        if Indexed(s', i, g, n) {
          assert g in s.arts[i].groups - {name};
        }
      }
    }
  }
}
