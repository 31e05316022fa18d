/** Reading a group: its numbers, the article before or after a number, and a client's place in the group. */
module StoreRead {
  import opened Text
  import opened StoreState
  import opened StoreInvariant
  import Decimal

  // ----- Queries -----

  function Nums(s: State, group: string): seq<int> {
    if group in s.groups then s.groups[group].nums else []
  }

  /** The numbers in a range; a zero bound is no bound. */
  function InRange(nums: seq<int>, lo: int, hi: int): seq<int> {
    if nums == [] then []
    else (if (lo == 0 || nums[0] >= lo) && (hi == 0 || nums[0] <= hi) then [nums[0]] else []) + InRange(nums[1..], lo, hi)
  }

  function Above(nums: seq<int>, cur: int): (r: seq<int>)
    ensures forall n :: n in r <==> n in nums && n > cur
  {
    if nums == [] then []
    else
      assert nums == [nums[0]] + nums[1..];
      (if nums[0] > cur then [nums[0]] else []) + Above(nums[1..], cur)
  }

  /** The first listed number above `cur`. */
  function NextNumber(nums: seq<int>, cur: int): (r: Option<int>)
    ensures r == if Above(nums, cur) == [] then None else Some(Above(nums, cur)[0])
  {
    if nums == [] then None
    else if nums[0] > cur then Some(nums[0])
    else NextNumber(nums[1..], cur)
  }

  /** The last listed number below `cur`. */
  function PrevNumber(nums: seq<int>, cur: int): Option<int> {
    if nums == [] then None
    else if nums[|nums| - 1] < cur then Some(nums[|nums| - 1])
    else PrevNumber(nums[..|nums| - 1], cur)
  }

  // ----- Commands -----

  /** The selected group and the current article number. */
  datatype Cursor = Cursor(group: Option<string>, cur: int)

  datatype Reply =
    | Selected(count: int, low: int, high: int, name: string)
    | Listed(count: int, low: int, high: int, name: string, nums: seq<int>)
    | Retrieved(num: int, id: string)
    | NoSuchGroup | NoGroupSelected | NoCurrent | NoNext | NoPrevious | NoNumber | SyntaxError

  function ArticleID(s: State, group: string, n: int): string {
    var row := Row(s.byNum, group);
    if n in row then row[n] else ""
  }

  function FirstNum(g: Group): int {
    if g.low > 0 then g.low else 0
  }

  function GroupCommand(s: State, c: Cursor, name: string): (Cursor, Reply) {
    if name !in s.groups then (c, NoSuchGroup)
    else
      var g := s.groups[name];
      (Cursor(Some(name), FirstNum(g)), Selected(g.count, g.low, g.high, name))
  }

  const MAX_ART_NUM: int := 2147483647

  /** A range of article numbers: nothing, one number, or two with a dash, the second of which may be missing. */
  function ParseRange(spec: string): Option<(int, int)> {
    if spec == "" then Some((0, 0))
    else
      var i := IndexOf(spec, '-');
      if i < |spec| then
        var lo, b := Decimal.Parse(spec[..i]), spec[i + 1..];
        if lo == None || lo.value < 1 then None
        else if b == "" then Some((lo.value, MAX_ART_NUM))
        else if Decimal.Parse(b) == None then None
        else Some((lo.value, Decimal.Parse(b).value))
      else
        var n := Decimal.Parse(spec);
        if n == None || n.value < 1 then None else Some((n.value, n.value))
  }

  /** LISTGROUP selects its group even when the range is not understood. */
  function ListgroupCommand(s: State, c: Cursor, arg: string, spec: string): (Cursor, Reply) {
    if arg == "" && c.group == None then (c, NoGroupSelected)
    else
      var name := if arg == "" then c.group.value else arg;
      if name !in s.groups then (c, NoSuchGroup)
      else
        var g := s.groups[name];
        var c1 := Cursor(Some(name), FirstNum(g));
        var range := ParseRange(spec);
        if range == None then (c1, SyntaxError)
        else (c1, Listed(g.count, g.low, g.high, name, InRange(g.nums, range.value.0, range.value.1)))
  }

  function NextCommand(s: State, c: Cursor): (Cursor, Reply) {
    if c.group == None then (c, NoGroupSelected)
    else if c.cur <= 0 then (c, NoCurrent)
    else
      match NextNumber(Nums(s, c.group.value), c.cur)
      case None => (c, NoNext)
      case Some(n) => (c.(cur := n), Retrieved(n, ArticleID(s, c.group.value, n)))
  }

  function LastCommand(s: State, c: Cursor): (Cursor, Reply) {
    if c.group == None then (c, NoGroupSelected)
    else if c.cur <= 0 then (c, NoCurrent)
    else
      match PrevNumber(Nums(s, c.group.value), c.cur)
      case None => (c, NoPrevious)
      case Some(n) => (c.(cur := n), Retrieved(n, ArticleID(s, c.group.value, n)))
  }

  /** STAT with a number moves to it if it names an article. */
  function StatCommand(s: State, c: Cursor, n: int): (Cursor, Reply) {
    if c.group == None then (c, NoGroupSelected)
    else if n < 1 then (c, SyntaxError)
    else if n in Row(s.byNum, c.group.value) then (c.(cur := n), Retrieved(n, ArticleID(s, c.group.value, n)))
    else (c, NoNumber)
  }

  // ----- Walking through a group -----

  lemma {:induction false} AboveAll(nums: seq<int>, cur: int)
    requires forall i | 0 <= i < |nums| :: cur < nums[i]
    ensures Above(nums, cur) == nums
  {
    if nums != [] {
      AboveAll(nums[1..], cur);
    }
  }

  /** What lies above the first number above `cur` is the rest. */
  lemma {:induction false} AboveNext(nums: seq<int>, cur: int)
    requires Increasing(nums) && Above(nums, cur) != []
    ensures var n := Above(nums, cur)[0]; cur < n && Above(nums, n) == Above(nums, cur)[1..]
  {
    if nums[0] > cur {
      AboveAll(nums, cur);
      AboveAll(nums[1..], nums[0]);
    } else {
      IncreasingTail(nums);
      AboveNext(nums[1..], cur);
    }
  }

  /** The numbers that NEXT retrieves, one after another, until it retrieves none. */
  ghost function Nexts(s: State, c: Cursor): seq<int>
    requires Inv(s)
    decreases if c.group == None then 0 else |Above(Nums(s, c.group.value), c.cur)|
  {
    var (c', r) := NextCommand(s, c);
    if !r.Retrieved? then []
    else
      IncreasingNums(s, c.group.value);
      AboveNext(Nums(s, c.group.value), c.cur);
      [r.num] + Nexts(s, c')
  }

  lemma IncreasingNums(s: State, g: string)
    requires Inv(s)
    ensures Increasing(Nums(s, g))
  {
    hide RowOk, FiledOk, ArtsOk, QueueOk;
  }

  lemma {:induction false} NextsAbove(s: State, g: string, cur: int)
    requires Inv(s) && cur > 0
    ensures Nexts(s, Cursor(Some(g), cur)) == Above(Nums(s, g), cur)
    decreases |Above(Nums(s, g), cur)|
  {
    hide Inv;
    IncreasingNums(s, g);
    if Above(Nums(s, g), cur) != [] {
      AboveNext(Nums(s, g), cur);
      NextsAbove(s, g, Above(Nums(s, g), cur)[0]);
    }
  }

  /** On a quiet store, GROUP and then NEXT until it fails goes through exactly the numbers that LISTGROUP reports,
      once each and in ascending order; the starting number belongs to the walk when it names an article. */
  lemma WalkVisitsAll(s: State, c: Cursor, name: string)
    requires Inv(s) && name in s.groups
    ensures var (start, r) := GroupCommand(s, c, name);
            var nums := s.groups[name].nums;
            && r.Selected? && start.group == Some(name)
            && (if start.cur in nums then [start.cur] else []) + Nexts(s, start) == nums
            && Increasing(nums)
            && (name != "" ==> ListgroupCommand(s, c, name, "").1 == Listed(r.count, r.low, r.high, name, nums))
            && r.count == |nums|
  {
    hide ParseRange;
    var g := s.groups[name];
    GroupFacts(s, name);
    RangeOpen(g.nums);
    NameOrCurrent(s, c, name);
    hide Inv, InRange, Nexts, ListgroupCommand;
    if g.nums == [] {
      NextsNone(s, Cursor(Some(name), FirstNum(g)));
    } else {
      NextsAbove(s, name, g.low);
      AboveLow(g.nums, g.low);
    }
  }

  lemma NextsNone(s: State, c: Cursor)
    requires Inv(s) && c.group.Some? && Nums(s, c.group.value) == []
    ensures Nexts(s, c) == []
  {
  }

  lemma AboveLow(nums: seq<int>, low: int)
    requires Increasing(nums) && nums != [] && low <= nums[0]
    ensures (if low in nums then [low] else []) + Above(nums, low) == nums
  {
    if low == nums[0] {
      AboveAll(nums[1..], low);
      assert low in nums;
    } else {
      AboveAll(nums, low);
      assert low !in nums;
    }
  }

  lemma GroupFacts(s: State, name: string)
    requires Inv(s) && name in s.groups
    ensures var g := s.groups[name]; Increasing(g.nums) && g.count == |g.nums| && (g.nums != [] ==> 1 <= g.low <= g.nums[0])
  {
    hide RowOk, FiledOk, ArtsOk, QueueOk;
  }

  lemma {:induction false} RangeOpen(nums: seq<int>)
    ensures InRange(nums, 0, 0) == nums
  {
    if nums != [] {
      RangeOpen(nums[1..]);
    }
  }

  lemma NameOrCurrent(s: State, c: Cursor, name: string)
    requires name in s.groups
    ensures name != "" ==>
              var g := s.groups[name];
              ListgroupCommand(s, c, name, "").1 == Listed(g.count, g.low, g.high, name, InRange(g.nums, 0, 0))
  {
  }

  /** The range that is understood selects the numbers from the first to the second, unless the second is zero:
      that lists everything from the first on, although no number lies in the range. */
  lemma RangeListedIff(nums: seq<int>, lo: int, hi: int)
    requires lo >= 1
    ensures ParseRange(Decimal.Format(lo) + "-" + Decimal.Format(hi)) == Some((lo, hi))
    ensures (forall n :: n in InRange(nums, lo, hi) <==> n in nums && lo <= n <= hi)
       <==> (hi != 0 || forall n | n in nums :: n < lo)
  {
    ParseTwo(lo, hi);
    RangeOf(nums, lo, hi);
  }

  lemma ParseTwo(lo: int, hi: int)
    requires lo >= 1
    ensures ParseRange(Decimal.Format(lo) + "-" + Decimal.Format(hi)) == Some((lo, hi))
  {
    hide Decimal.Parse, Decimal.FormatNat;
    var a, b := Decimal.Format(lo), Decimal.Format(hi);
    Decimal.ParseFormat(lo);
    Decimal.ParseFormat(hi);
    assert '-' !in a && b != "" by { Decimal.FormatChars(lo); Decimal.FormatChars(hi); }
    IndexOfAt(a, '-', b);
    var spec := a + ['-'] + b;
    assert spec == a + "-" + b && spec[..|a|] == a && spec[|a| + 1..] == b;
  }

  lemma {:induction false} RangeOf(nums: seq<int>, lo: int, hi: int)
    ensures forall n :: n in InRange(nums, lo, hi) <==> n in nums && (lo == 0 || n >= lo) && (hi == 0 || n <= hi)
  {
    if nums != [] {
      RangeOf(nums[1..], lo, hi);
      assert nums == [nums[0]] + nums[1..];
    }
  }

  // ----- Back and forth -----

  lemma {:induction false} PrevIs(nums: seq<int>, cur: int, i: nat)
    requires Increasing(nums) && i < |nums| && nums[i] < cur && (i + 1 < |nums| ==> cur <= nums[i + 1])
    ensures PrevNumber(nums, cur) == Some(nums[i])
  {
    if i + 1 < |nums| {
      var init := nums[..|nums| - 1];
      assert nums[i + 1] <= nums[|nums| - 1];
      PrevIs(init, cur, i);
    }
  }

  lemma {:induction false} PrevNone(nums: seq<int>, cur: int)
    requires forall i | 0 <= i < |nums| :: cur <= nums[i]
    ensures PrevNumber(nums, cur) == None
  {
    if nums != [] {
      PrevNone(nums[..|nums| - 1], cur);
    }
  }

  lemma {:induction false} NextIs(nums: seq<int>, cur: int, i: nat)
    requires Increasing(nums) && i < |nums| && cur < nums[i] && (i > 0 ==> nums[i - 1] <= cur)
    ensures NextNumber(nums, cur) == Some(nums[i])
  {
    if i > 0 {
      IncreasingTail(nums);
      assert nums[0] <= nums[i - 1];
      NextIs(nums[1..], cur, i - 1);
    }
  }

  lemma {:induction false} NextNone(nums: seq<int>, cur: int)
    requires forall i | 0 <= i < |nums| :: nums[i] <= cur
    ensures NextNumber(nums, cur) == None
  {
    if nums != [] {
      NextNone(nums[1..], cur);
    }
  }

  /** Where the first number above `cur` is. */
  lemma {:induction false} NextAt(nums: seq<int>, cur: int) returns (i: nat)
    requires Increasing(nums) && NextNumber(nums, cur).Some?
    ensures i < |nums| && NextNumber(nums, cur).value == nums[i] && cur < nums[i]
    ensures forall j | 0 <= j < i :: nums[j] <= cur
  {
    if nums[0] > cur {
      i := 0;
    } else {
      IncreasingTail(nums);
      var j := NextAt(nums[1..], cur);
      i := j + 1;
    }
  }

  lemma {:induction false} PrevAt(nums: seq<int>, cur: int) returns (i: nat)
    requires Increasing(nums) && PrevNumber(nums, cur).Some?
    ensures i < |nums| && PrevNumber(nums, cur).value == nums[i] && nums[i] < cur
    ensures forall j | i < j < |nums| :: cur <= nums[j]
  {
    var last := |nums| - 1;
    if nums[last] < cur {
      i := last;
    } else {
      i := PrevAt(nums[..last], cur);
    }
  }

  lemma BackIff(nums: seq<int>, cur: int)
    requires Increasing(nums) && NextNumber(nums, cur).Some?
    ensures PrevNumber(nums, NextNumber(nums, cur).value) == Some(cur) <==> cur in nums
  {
    var i := NextAt(nums, cur);
    hide NextNumber, PrevNumber, Above;
    if i > 0 {
      PrevIs(nums, nums[i], i - 1);
      if cur in nums {
        var j :| 0 <= j < |nums| && nums[j] == cur;
        assert j < i;
      }
    } else {
      PrevNone(nums, nums[0]);
      assert forall j | 0 <= j < |nums| :: cur < nums[j];
    }
  }

  /** After a NEXT that retrieved an article, LAST goes back exactly when the cursor was on a stored article. */
  lemma LastUndoesNextIff(s: State, c: Cursor)
    requires Inv(s) && NextCommand(s, c).1.Retrieved?
    ensures LastCommand(s, NextCommand(s, c).0).0 == c <==> c.cur in Nums(s, c.group.value)
  {
    var nums := Nums(s, c.group.value);
    IncreasingNums(s, c.group.value);
    BackIff(nums, c.cur);
    var i := NextAt(nums, c.cur);
    hide Inv, Increasing, Above, NextNumber, PrevNumber, Nums, ArticleID;
  }

  lemma ForthIff(nums: seq<int>, cur: int)
    requires Increasing(nums) && PrevNumber(nums, cur).Some?
    ensures NextNumber(nums, PrevNumber(nums, cur).value) == Some(cur) <==> cur in nums
  {
    var i := PrevAt(nums, cur);
    hide NextNumber, PrevNumber, Above;
    if i + 1 < |nums| {
      NextIs(nums, nums[i], i + 1);
      if cur in nums {
        var j :| 0 <= j < |nums| && nums[j] == cur;
        assert j > i;
      }
    } else {
      NextNone(nums, nums[i]);
      assert forall j | 0 <= j < |nums| :: nums[j] < cur;
    }
  }

  /** After a LAST that retrieved an article, NEXT goes back exactly when the cursor was on a stored article. */
  lemma NextUndoesLastIff(s: State, c: Cursor)
    requires Inv(s) && LastCommand(s, c).1.Retrieved?
    ensures NextCommand(s, LastCommand(s, c).0).0 == c <==> c.cur in Nums(s, c.group.value)
  {
    var nums := Nums(s, c.group.value);
    IncreasingNums(s, c.group.value);
    PositiveNums(s, c.group.value);
    ForthIff(nums, c.cur);
    var i := PrevAt(nums, c.cur);
    hide Inv, Increasing, Above, NextNumber, PrevNumber, Nums, ArticleID;
  }

  lemma PositiveNums(s: State, g: string)
    requires Inv(s)
    ensures forall i | 0 <= i < |Nums(s, g)| :: Nums(s, g)[i] > 0
  {
    hide RowOk, FiledOk, ArtsOk, QueueOk;
  }

  /** The reply names the article that is filed under the number to which the cursor moved. */
  ghost predicate Filed(s: State, c: Cursor, r: (Cursor, Reply)) {
    r.1.Retrieved? ==> c.group.Some? && r.0 == c.(cur := r.1.num) && Files(s, r.1.id, c.group.value, r.1.num)
  }

  /** NEXT, LAST and STAT answer with the article that is filed under the number. */
  lemma RetrievedIsFiled(s: State, c: Cursor, n: int)
    requires Inv(s)
    ensures Filed(s, c, NextCommand(s, c)) && Filed(s, c, LastCommand(s, c)) && Filed(s, c, StatCommand(s, c, n))
  {
    if c.group.Some? {
      var g := c.group.value;
      IncreasingNums(s, g);
      NumberInRow(s, g);
      RowFiles(s, g);
      hide Inv, Files, ArticleID;
      if NextCommand(s, c).1.Retrieved? {
        var i := NextAt(Nums(s, g), c.cur);
      }
      if LastCommand(s, c).1.Retrieved? {
        var i := PrevAt(Nums(s, g), c.cur);
      }
    }
  }

  lemma RowFiles(s: State, g: string)
    requires Inv(s)
    ensures forall m | m in Row(s.byNum, g) :: Files(s, ArticleID(s, g, m), g, m)
  {
    hide GroupOk, RowOk, ArtsOk, QueueOk;
    forall m | m in Row(s.byNum, g)
      ensures Files(s, ArticleID(s, g, m), g, m)
    {
      assert Indexed(s, s.byNum[g][m], g, m);
    }
  }

  lemma NumberInRow(s: State, g: string)
    requires Inv(s)
    ensures forall n :: n in Nums(s, g) <==> n in Row(s.byNum, g)
  {
    hide GroupOk, FiledOk, ArtsOk, QueueOk;
  }

  // ----- What the commands answer -----

  /** GROUP answers with the group's own counters: as many numbers as it says, none below its low and none above its
      high; and moves to the low. */
  lemma GroupMeans(s: State, c: Cursor, name: string)
    requires Inv(s)
    ensures var (c', r) := GroupCommand(s, c, name);
            if name !in s.groups then c' == c && r == NoSuchGroup
            else
              && r.Selected? && r.name == name && c' == Cursor(Some(name), r.low)
              && r.low == s.groups[name].low && r.high == s.groups[name].high
              && r.count == |s.groups[name].nums| && forall n | n in s.groups[name].nums :: 1 <= r.low <= n <= r.high
  {
    hide RowOk, FiledOk, ArtsOk, QueueOk;
  }

  /** NEXT moves to the least number above the place in the group, and LAST to the greatest below it, and each answers
      with the article filed there; where there is none, nothing moves. */
  lemma NextMeans(s: State, c: Cursor)
    requires Inv(s) && c.group.Some? && c.cur > 0
    ensures var (c', r) := NextCommand(s, c);
            var nums := if c.group.value in s.groups then s.groups[c.group.value].nums else [];
            if exists m :: m in nums && m > c.cur then
              && r.Retrieved? && c' == c.(cur := r.num) && Files(s, r.id, c.group.value, r.num)
              && r.num in nums && r.num > c.cur && forall m | m in nums :: m <= c.cur || r.num <= m
            else r == NoNext && c' == c
  {
    RetrievedIsFiled(s, c, 1);
    IncreasingNums(s, c.group.value);
    hide Inv, Files, ArticleID;
    var nums := Nums(s, c.group.value);
    if NextNumber(nums, c.cur).Some? {
      var i := NextAt(nums, c.cur);
      assert nums[i] in nums;
    } else {
      assert forall m :: m in Above(nums, c.cur) <==> m in nums && m > c.cur;
    }
  }

  lemma LastMeans(s: State, c: Cursor)
    requires Inv(s) && c.group.Some? && c.cur > 0
    ensures var (c', r) := LastCommand(s, c);
            var nums := if c.group.value in s.groups then s.groups[c.group.value].nums else [];
            if exists m :: m in nums && m < c.cur then
              && r.Retrieved? && c' == c.(cur := r.num) && Files(s, r.id, c.group.value, r.num)
              && r.num in nums && r.num < c.cur && forall m | m in nums :: c.cur <= m || m <= r.num
            else r == NoPrevious && c' == c
  {
    RetrievedIsFiled(s, c, 1);
    IncreasingNums(s, c.group.value);
    PrevMeans(Nums(s, c.group.value), c.cur);
    hide Inv, Files, ArticleID, PrevNumber;
  }

  lemma PrevMeans(nums: seq<int>, cur: int)
    requires Increasing(nums)
    ensures var r := PrevNumber(nums, cur);
            if exists m :: m in nums && m < cur then
              r.Some? && r.value in nums && r.value < cur && forall m | m in nums :: cur <= m || m <= r.value
            else r == None
  {
    if PrevNumber(nums, cur).Some? {
      var i := PrevAt(nums, cur);
      hide PrevNumber;
      assert nums[i] in nums;
    } else {
      PrevMissing(nums, cur);
    }
  }

  lemma {:induction false} PrevMissing(nums: seq<int>, cur: int)
    requires PrevNumber(nums, cur) == None
    ensures forall m | m in nums :: cur <= m
  {
    if nums != [] {
      PrevMissing(nums[..|nums| - 1], cur);
      assert nums == nums[..|nums| - 1] + [nums[|nums| - 1]];
    }
  }

  /** Without a group, or off every article, NEXT and LAST say so; STAT needs a group and a number of an article. */
  lemma NowhereMeans(s: State, c: Cursor, n: int)
    requires Inv(s)
    ensures c.group == None ==> NextCommand(s, c) == LastCommand(s, c) == StatCommand(s, c, n) == (c, NoGroupSelected)
    ensures c.group.Some? && c.cur <= 0 ==> NextCommand(s, c) == LastCommand(s, c) == (c, NoCurrent)
    ensures c.group.Some? && n >= 1 ==>
              var (c', r) := StatCommand(s, c, n);
              if c.group.value in s.groups && n in s.groups[c.group.value].nums then
                r.Retrieved? && r.num == n && Files(s, r.id, c.group.value, n) && c' == c.(cur := n)
              else r == NoNumber && c' == c
  {
    if c.group.Some? {
      NumberInRow(s, c.group.value);
      RetrievedIsFiled(s, c, n);
    }
    hide Inv, Files, ArticleID, NextNumber, PrevNumber;
  }

  /** LISTGROUP with nothing, one number, or an open or closed range. */
  lemma ListgroupMeans(s: State, c: Cursor, name: string, lo: int, hi: int)
    requires Inv(s) && name in s.groups && name != "" && lo >= 1 && hi >= 1
    ensures ListgroupCommand(s, c, name, "").0 == GroupCommand(s, c, name).0
    ensures var r := ListgroupCommand(s, c, name, Decimal.Format(lo)).1;
            r.Listed? && forall n :: n in r.nums <==> n in s.groups[name].nums && n == lo
    ensures var r := ListgroupCommand(s, c, name, Decimal.Format(lo) + "-").1;
            r.Listed? && forall n :: n in r.nums <==> n in s.groups[name].nums && lo <= n <= 2147483647
    ensures var r := ListgroupCommand(s, c, name, Decimal.Format(lo) + "-" + Decimal.Format(hi)).1;
            r.Listed? && (forall n :: n in r.nums <==> n in s.groups[name].nums && lo <= n <= hi)
            && r.low == s.groups[name].low && r.high == s.groups[name].high && r.count == s.groups[name].count
  {
    ParseOne(lo);
    ParseTwo(lo, hi);
    hide Inv, ParseRange, InRange;
    var nums := s.groups[name].nums;
    RangeOf(nums, lo, lo);
    RangeOf(nums, lo, MAX_ART_NUM);
    RangeOf(nums, lo, hi);
  }

  lemma ParseOne(lo: int)
    requires lo >= 1
    ensures ParseRange(Decimal.Format(lo)) == Some((lo, lo))
    ensures ParseRange(Decimal.Format(lo) + "-") == Some((lo, MAX_ART_NUM))
  {
    hide Decimal.Parse, Decimal.FormatNat;
    var a := Decimal.Format(lo);
    Decimal.ParseFormat(lo);
    assert '-' !in a && a != "" by { Decimal.FormatChars(lo); }
    IndexOfAt(a, '-', "");
    var spec := a + ['-'] + "";
    assert spec == a + "-" && spec[..|a|] == a && spec[|a| + 1..] == "";
  }

  /** The numbers that LISTGROUP lists stand in the group's order. */
  lemma {:induction false} RangeOrdered(nums: seq<int>, lo: int, hi: int)
    requires Increasing(nums)
    ensures Increasing(InRange(nums, lo, hi))
  {
    if nums != [] {
      IncreasingTail(nums);
      RangeOrdered(nums[1..], lo, hi);
      RangeOf(nums[1..], lo, hi);
      var rest := InRange(nums[1..], lo, hi);
      forall i | 0 <= i < |rest|
        ensures nums[0] < rest[i]
      {
        assert rest[i] in rest;
        var k :| 0 <= k < |nums| - 1 && nums[1..][k] == rest[i];
        assert nums[0] < nums[k + 1];
      }
    }
  }
}
