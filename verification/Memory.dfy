/** The in-memory article store: its group and article objects are changed in place, and every operation
    does to the tables what the specification says. */
module Memory {
  import opened Text
  import opened Seqs
  import opened StoreInvariant
  import opened Order
  import Decimal
  import S = StoreState
  import X = StoreExpire
  import F = StoreFeed
  import A = StoreAlerts
  import P = StorePurge
  import R = StoreRead
  import W = Wildmat

  /** A newsgroup with its article numbers. */
  class MemGroup {
    const name: string
    const createdAt: S.Time
    var description: string
    var status: string
    var origin: string
    var retentionDays: Option<int>
    var retentionMode: string
    var low: int
    var high: int
    var count: int
    var nums: seq<int>

    constructor (name: string, description: string, status: string, origin: string, now: S.Time)
      ensures this.name == name && View() == S.NewGroup(description, status, origin, now)
    {
      this.name, createdAt := name, now;
      this.description, this.status, this.origin := description, status, origin;
      retentionDays, retentionMode := None, "";
      low, high, count, nums := 0, 0, 0, [];
    }

    ghost function View(): S.Group
      reads this
    {
      S.Group(description, status, origin, createdAt, retentionDays, retentionMode, low, high, count, nums)
    }

    /** Issues the next number. */
    method Issue() returns (n: int)
      modifies this`high, this`low, this`count, this`nums
      ensures View() == S.Bump(old(View())) && n == high == old(high) + 1
    {
      high := high + 1;
      if low == 0 {
        low := high;
      }
      count := count + 1;
      n := high;
      nums := nums + [n];
    }

    /** Takes a number out. */
    method Remove(n: int)
      modifies this`low, this`count, this`nums
      ensures View() == S.Remove(old(View()), n)
    {
      hide S.Except;
      var kept := Without(n);
      count := count - 1;
      if count < 0 {
        count := 0;
      }
      nums := kept;
      if |kept| == 0 {
        low := high;
      } else {
        low := Smallest(kept);
      }
    }

    /** What settling an alert does to the group. */
    method Settle(action: A.Action)
      modifies this`status, this`retentionDays, this`retentionMode
      ensures View() == A.SettledGroup(old(View()), action)
    {
      match action
      case Block => status, retentionDays, retentionMode := "n", None, S.BLOCKED;
      case Whitelist => retentionDays, retentionMode := None, S.WHITELIST;
      case Dismiss =>
      case Reset => retentionDays, retentionMode := None, "";
    }

    /** Leaves the group with these numbers. */
    method Renumber(keep: seq<int>)
      modifies this`low, this`high, this`count, this`nums
      ensures View() == S.Renumbered(old(View()), keep)
    {
      nums := keep;
      if |keep| == 0 {
        low, high, count := 0, 0, 0;
      } else {
        low, high := keep[0], keep[|keep| - 1];
        count := |keep|;
      }
    }

    method Without(n: int) returns (kept: seq<int>)
      ensures kept == S.Except(nums, n)
    {
      kept := [];
      assert nums[0..] == nums;
      for i := 0 to |nums|
        invariant kept + S.Except(nums[i..], n) == S.Except(nums, n)
      {
        assert nums[i..][1..] == nums[i + 1..];
        if nums[i] != n {
          kept := kept + [nums[i]];
        }
      }
    }
  }

  method Smallest(nums: seq<int>) returns (low: int)
    requires nums != []
    ensures low == S.Least(nums)
  {
    low := nums[0];
    for i := 0 to |nums|
      invariant low in nums
      invariant forall j | 0 <= j < i :: low <= nums[j]
    {
      if nums[i] < low {
        low := nums[i];
      }
    }
  }

  /** A stored article; the number index and the article table share the object. */
  class MemArt {
    const msgid: string
    const info: S.Info
    var xref: string
    var groups: map<string, int>

    constructor (msgid: string, info: S.Info)
      ensures this.msgid == msgid && this.info == info && groups == map[]
    {
      this.msgid, this.info, xref, groups := msgid, info, "", map[];
    }

    ghost function View(): S.Art
      reads this
    {
      S.Art(info, xref, groups)
    }
  }

  /** What a purge removed. */
  datatype AlertError = AlertNotFound | UnknownAction

  datatype PurgeResult = PurgeResult(groups: seq<string>, cross: seq<string>, articles: int, ids: seq<string>)

  /** Whether one of the patterns matches a group. */
  method MatchesAny(patterns: seq<string>, group: string) returns (b: bool)
    ensures b <==> P.GroupMatches(patterns, group)
  {
    hide P.PatternMatches;
    for i := 0 to |patterns|
      invariant forall j | 0 <= j < i :: !P.PatternMatches(patterns[j], group)
    {
      var m := MatchesOne(patterns[i], group);
      if m {
        return true;
      }
    }
    return false;
  }

  method MatchesOne(pattern0: string, group: string) returns (m: bool)
    ensures m <==> P.PatternMatches(pattern0, group)
  {
    hide W.Matches, TrimSpace;
    var pattern := TrimSpace(pattern0);
    if pattern == "" {
      return false;
    }
    m := W.Match(pattern, group);
  }

  method NumbersInRange(nums: seq<int>, lo: int, hi: int) returns (out: seq<int>)
    ensures out == R.InRange(nums, lo, hi)
  {
    out := [];
    assert nums[0..] == nums;
    for i := 0 to |nums|
      invariant out + R.InRange(nums[i..], lo, hi) == R.InRange(nums, lo, hi)
    {
      InRangeNext(nums[i..], lo, hi, out);
      assert nums[i..][1..] == nums[i + 1..] && nums[i..][0] == nums[i];
      if (lo == 0 || nums[i] >= lo) && (hi == 0 || nums[i] <= hi) {
        out := out + [nums[i]];
      }
    }
    assert nums[|nums|..] == [] && out + [] == out;
  }

  lemma InRangeNext(nums: seq<int>, lo: int, hi: int, out: seq<int>)
    requires nums != []
    ensures out + R.InRange(nums, lo, hi) ==
              (if (lo == 0 || nums[0] >= lo) && (hi == 0 || nums[0] <= hi) then out + [nums[0]] else out)
              + R.InRange(nums[1..], lo, hi)
  {
    var rest := R.InRange(nums[1..], lo, hi);
    assert out + ([nums[0]] + rest) == (out + [nums[0]]) + rest && [] + rest == rest;
  }

  class Memory {
    var groups: map<string, MemGroup>
    var arts: map<string, MemArt>
    var byNum: map<string, map<int, MemArt>>
    var history: map<string, S.Time>
    var queue: seq<S.FeedItem>
    var nextFeedID: int
    var alerts: seq<S.Alert>
    var nextAlertID: int
    var accepts: map<string, seq<S.Accept>>
    var bans: seq<string>

    constructor ()
      ensures Valid() && View() == S.EMPTY
      ensures groups == map[] && arts == map[]
    {
      groups, arts, byNum, history := map[], map[], map[], map[];
      queue, nextFeedID, alerts, nextAlertID, accepts, bans := [], 0, [], 0, map[], [];
    }

    ghost function GroupsView(): map<string, S.Group>
      reads this`groups, groups.Values
    {
      map g | g in groups :: groups[g].View()
    }

    ghost function ArtsView(): map<string, S.Art>
      reads this`arts, arts.Values
    {
      map id | id in arts :: arts[id].View()
    }

    ghost function IndexView(): map<string, map<int, string>>
      reads this`byNum
    {
      TableView(byNum)
    }

    /** The tables as a value. */
    ghost function View(): S.State
      reads this, groups.Values, arts.Values
    {
      S.State(GroupsView(), ArtsView(), IndexView(), history, queue, nextFeedID, alerts, nextAlertID, accepts, bans)
    }

    ghost predicate Linked()
      reads this`groups, this`arts, this`byNum
    {
      LinkedTables(groups, arts, byNum)
    }

    ghost predicate Valid()
      reads this, groups.Values, arts.Values
    {
      Linked() && Inv(View())
    }

    // ----- Posting -----

    /** The view of the groups after one of them changed. */
    twostate lemma GroupChanged(g: string)
      requires groups == old(groups) && g in groups && Named()
      requires forall h | h in groups && h != g :: unchanged(groups[h])
      ensures GroupsView() == old(GroupsView())[g := groups[g].View()]
    {
    }

    twostate lemma GroupsSame()
      requires groups == old(groups) && forall h | h in groups :: unchanged(groups[h])
      ensures GroupsView() == old(GroupsView())
    {
    }

    twostate lemma ArtsSame()
      requires arts == old(arts) && forall i | i in arts :: unchanged(arts[i])
      ensures ArtsView() == old(ArtsView())
    {
    }

    ghost predicate Named()
      reads this`groups
    {
      forall h | h in groups :: groups[h].name == h
    }

    /** Files an article in one group under the next number. */
    method FileInGroup(g: string, art: MemArt) returns (n: int)
      requires g in groups && g in byNum && Named()
      modifies groups[g], this`byNum, art`groups
      ensures GroupsView() == old(GroupsView())[g := S.Bump(old(GroupsView())[g])]
      ensures n == old(GroupsView())[g].high + 1
      ensures byNum == old(byNum)[g := old(byNum)[g][n := art]]
      ensures IndexView() == old(IndexView())[g := old(IndexView())[g][n := art.msgid]]
      ensures art.groups == old(art.groups)[g := n]
    {
      hide S.Bump;
      var mg := groups[g];
      assert old(GroupsView())[g] == old(mg.View());
      n := mg.Issue();
      GroupChanged(g);
      label Issued:
      byNum := byNum[g := byNum[g][n := art]];
      art.groups := art.groups[g := n];
      GroupsSame@Issued();
      IndexExtended(old(byNum), g, n, art);
    }

    lemma IndexExtended(before: map<string, map<int, MemArt>>, g: string, n: int, art: MemArt)
      requires g in before && byNum == before[g := before[g][n := art]]
      ensures IndexView() == TableView(before)[g := TableView(before)[g][n := art.msgid]]
    {
      assert RowView(byNum[g]) == RowView(before[g])[n := art.msgid];
    }

    /** The groups among `names` that exist and take articles. */
    method UsedGroups(names: seq<string>) returns (used: seq<string>)
      ensures used == S.Used(GroupsView(), names)
    {
      used := [];
      assert names[0..] == names;
      for i := 0 to |names|
        invariant used + S.Used(GroupsView(), names[i..]) == S.Used(GroupsView(), names)
      {
        assert names[i..][1..] == names[i + 1..];
        if names[i] in groups && groups[names[i]].status != "n" {
          used := used + [names[i]];
        }
      }
    }

    /** The tables of groups and numbers, with what an article got so far. */
    ghost function FilingView(numbers: map<string, int>, parts: seq<string>): S.Filing
      reads this`groups, this`byNum, groups.Values
    {
      S.Filing(GroupsView(), IndexView(), numbers, parts)
    }

    /** Files an article in one more group, and notes the number for the reply and the Xref. */
    method FileNext(g: string, art: MemArt, numbers0: map<string, int>, parts0: seq<string>)
      returns (numbers: map<string, int>, parts: seq<string>)
      requires g in groups && byNum.Keys == groups.Keys && Named() && numbers0 == art.groups
      modifies groups[g], this`byNum, art`groups
      ensures FilingView(numbers, parts) == S.FileOne(old(FilingView(numbers0, parts0)), g, art.msgid)
      ensures byNum.Keys == groups.Keys && numbers == art.groups && Adds(old(byNum), byNum, art)
    {
      hide S.FileOne, S.Bump, GroupsView, IndexView;
      IndexKeys();
      ghost var f := FilingView(numbers0, parts0);
      var n := FileInGroup(g, art);
      numbers := numbers0[g := n];
      parts := parts0 + [g + ":" + Decimal.Format(n)];
      FileOneIs(f, g, art.msgid, n);
    }

    method FileInGroups(used: seq<string>, art: MemArt) returns (numbers: map<string, int>, parts: seq<string>)
      requires (forall g | g in used :: g in groups) && byNum.Keys == groups.Keys && art.groups == map[]
      requires Named()
      modifies groups.Values, this`byNum, art`groups
      ensures FilingView(numbers, parts) == S.FileAll(old(FilingView(map[], [])), used, art.msgid)
      ensures art.groups == numbers && Adds(old(byNum), byNum, art)
    {
      hide S.FileAll, S.FileOne, IndexView, Adds;
      ghost var f0 := FilingView(map[], []);
      numbers, parts := map[], [];
      AddsNothing(byNum, art);
      assert used[0..] == used;
      for i := 0 to |used|
        invariant byNum.Keys == groups.Keys && numbers == art.groups && Adds(old(byNum), byNum, art)
        invariant S.FileAll(f0, used, art.msgid) == S.FileAll(FilingView(numbers, parts), used[i..], art.msgid)
      {
        assert used[i..][1..] == used[i + 1..] && used[i..][0] == used[i];
        FileAllStep(FilingView(numbers, parts), used[i..], art.msgid);
        ghost var before := byNum;
        numbers, parts := FileNext(used[i], art, numbers, parts);
        AddsMore(old(byNum), before, byNum, art);
      }
      assert used[|used|..] == [];
      FileAllDone(FilingView(numbers, parts), art.msgid);
    }

    /** Puts a filed article into the article table and its ID into the history. */
    method Insert(art: MemArt, xref: string, now: S.Time)
      requires art !in arts.Values
      modifies this`arts, this`history, art`xref
      ensures arts == old(arts)[art.msgid := art] && history == old(history)[art.msgid := now]
      ensures ArtsView() == old(ArtsView())[art.msgid := S.Art(art.info, xref, art.groups)]
      ensures GroupsView() == old(GroupsView())
    {
      art.xref := xref;
      GroupsSame();
      ArtsSame();
      ghost var before := ArtsView();
      arts := arts[art.msgid := art];
      history := history[art.msgid := now];
      assert ArtsView() == before[art.msgid := art.View()];
    }

    /** A new article object, filed in its groups but not yet in the article table. */
    method FileNew(id: string, info: S.Info, used: seq<string>)
      returns (art: MemArt, numbers: map<string, int>, parts: seq<string>)
      requires (forall g | g in used :: g in groups) && byNum.Keys == groups.Keys && Named()
      modifies groups.Values, this`byNum
      ensures fresh(art) && art.msgid == id && art.info == info && art.groups == numbers
      ensures FilingView(numbers, parts) == S.FileAll(old(FilingView(map[], [])), used, id)
      ensures ArtsView() == old(ArtsView()) && Adds(old(byNum), byNum, art)
    {
      hide S.FileAll, GroupsView, IndexView, Adds;
      art := new MemArt(id, info);
      GroupsSame();
      numbers, parts := FileInGroups(used, art);
      ArtsSame();
    }

    /** Files and stores a new article. */
    method StoreArticle(id: string, info: S.Info, prefix: string, used: seq<string>, now: S.Time) returns (r: S.PostOutcome)
      requires Linked() && byNum.Keys == groups.Keys && id !in arts && forall g | g in used :: g in groups
      modifies this`byNum, this`arts, this`history, groups.Values
      ensures (View(), r) == Filed(old(View()), id, info, prefix, used, now)
      ensures Linked()
    {
      hide S.FileAll, S.XrefOf, LinkedTables, Adds, IndexView, GroupsView, ArtsView;
      LinkedNames(groups, arts, byNum);
      IndexKeys();
      var art, numbers, parts := FileNew(id, info.(storedAt := now), used);
      LinkedAdds(groups, arts, old(byNum), byNum, art);
      Insert(art, S.XrefOf(prefix, parts), now);
      r := S.Posted(S.XrefOf(prefix, parts), numbers);
    }

    /** Stores an article in the groups that exist and take articles, unless its ID is known. */
    method Post(id: string, info: S.Info, prefix: string, names: seq<string>, now: S.Time) returns (r: S.PostOutcome)
      requires Valid()
      modifies this`byNum, this`arts, this`history, groups.Values
      ensures (View(), r) == S.Post(old(View()), id, info, prefix, names, now)
      ensures Linked()
      ensures Valid() <==> (r.Posted? ==> Distinct(S.Used(old(GroupsView()), names)))
    {
      hide Inv, S.FileAll, S.XrefOf, S.Used, Linked;
      ghost var s := View();
      PostKeepsIff(s, id, info, prefix, names, now);
      if id in history {
        return S.Refused(S.Duplicate);
      }
      var used := UsedGroups(names);
      if |used| == 0 {
        return S.Refused(S.NoGroup);
      }
      RowsExist(s);
      IndexKeys();
      UnknownNotStored(s, id);
      r := StoreArticle(id, info, prefix, used, now);
    }

    // ----- Removing articles -----

    /** Takes an article's number out of one group. */
    method Unfile(g: string, n: int)
      requires g in groups && g in byNum && Named()
      modifies groups[g], this`byNum
      ensures GroupsView() == old(GroupsView())[g := S.Remove(old(GroupsView())[g], n)]
      ensures byNum == old(byNum)[g := old(byNum)[g] - {n}]
    {
      hide S.Remove;
      byNum := byNum[g := byNum[g] - {n}];
      var mg := groups[g];
      assert old(GroupsView())[g] == old(mg.View());
      mg.Remove(n);
      GroupChanged(g);
    }

    /** The article is out of its groups but for those left. */
    ghost predicate Unfiled(gs: map<string, S.Group>, table: map<string, map<int, MemArt>>, filed: map<string, int>, left: set<string>)
      reads this`groups, this`byNum, groups.Values
    {
      && byNum.Keys == groups.Keys
      && GroupsView() == GroupsWithout(gs, filed, left) && byNum == TableWithout(table, filed, left)
    }

    method UnfileNext(g: string, n: int, ghost gs: map<string, S.Group>, ghost table: map<string, map<int, MemArt>>,
                      ghost filed: map<string, int>, ghost left: set<string>)
      requires g in left && left <= filed.Keys && n == filed[g] && g in groups && Named()
      requires Unfiled(gs, table, filed, left) && gs.Keys == table.Keys == groups.Keys
      modifies groups[g], this`byNum
      ensures Unfiled(gs, table, filed, left - {g})
    {
      hide S.Remove, GroupsView, GroupsWithout, TableWithout;
      IndexKeys();
      Unfile(g, n);
      WithoutOne(gs, table, filed, left, g);
    }

    /** Takes an article out of all its groups, in whatever order the map gives them. */
    method UnfileAll(art: MemArt)
      requires Named() && byNum.Keys == groups.Keys && art.groups.Keys <= groups.Keys
      modifies groups.Values, this`byNum
      ensures Unfiled(old(GroupsView()), old(byNum), art.groups, {})
    {
      hide Unfiled;
      ghost var gs, table, filed := GroupsView(), byNum, art.groups;
      IndexKeys();
      UnfiledNone(filed);
      var todo := art.groups.Keys;
      while todo != {}
        invariant todo <= filed.Keys && art.groups == filed && Unfiled(gs, table, filed, todo)
        decreases todo
      {
        var g :| g in todo;
        UnfileNext(g, art.groups[g], gs, table, filed, todo);
        todo := todo - {g};
      }
    }

    lemma UnfiledNone(filed: map<string, int>)
      requires byNum.Keys == groups.Keys
      ensures Unfiled(GroupsView(), byNum, filed, filed.Keys)
    {
      WithoutNone(GroupsView(), byNum, filed);
    }

    method Unqueue(id: string)
      modifies this`queue
      ensures queue == S.Unqueued(old(queue), id)
    {
      var kept := [];
      assert queue[0..] == queue;
      for i := 0 to |queue|
        invariant queue == old(queue) && kept + S.Unqueued(queue[i..], id) == S.Unqueued(queue, id)
      {
        assert queue[i..][1..] == queue[i + 1..];
        if queue[i].msgid != id {
          kept := kept + [queue[i]];
        }
      }
      queue := kept;
    }

    /** Takes a stored article out of every table but the history. */
    method TakeOut(id: string)
      requires Linked() && id in arts && byNum.Keys == groups.Keys && arts[id].groups.Keys <= groups.Keys
      modifies this`byNum, this`arts, this`queue, groups.Values
      ensures View() == TakenOut(old(View()), id, old(byNum))
      ensures byNum == TableWithout(old(byNum), old(arts[id].groups), {}) && arts == old(arts) - {id}
    {
      hide S.Unqueued, GroupsView, ArtsView, LinkedTables, GroupsWithout, TableWithout, TableView;
      LinkedNames(groups, arts, byNum);
      ArtsViewAt(id);
      UnfileAll(arts[id]);
      ArtsSame();
      label Unfiled:
      arts := arts - {id};
      ArtRemoved@Unfiled(id);
      GroupsSame@Unfiled();
      Unqueue(id);
    }

    /** Deletes an article from every group; history is left in place. */
    method DeleteArticle(id: string) returns (ok: bool)
      requires Valid()
      modifies this`byNum, this`arts, this`queue, groups.Values
      ensures View() == S.DeleteArticle(old(View()), id) && ok == (id in old(arts))
      ensures Valid() && Smaller(arts, old(arts)) && arts.Keys == old(arts).Keys - {id}
    {
      hide S.DeleteArticle, GroupsView, ArtsView, Inv, LinkedTables, TakenOut, TableWithout, TableView, SmallerTable;
      ghost var s := View();
      DeleteArticleKeeps(s, id);
      StoredKeys();
      IndexKeys();
      if id !in arts {
        NothingDeleted(s, id);
        return false;
      }
      RowsExist(s);
      FiledGroups(s, id);
      ArtsViewAt(id);
      TakeOut(id);
      DeletedIs(s, id, old(byNum));
      StoredKeys();
      TableShrinks(old(byNum), old(arts[id].groups));
      SmallerWithout(byNum, groups, "");
      LinkedShrinks(groups, old(arts), old(byNum), groups, arts, byNum, View());
      return true;
    }

    lemma StoredKeys()
      ensures ArtsView().Keys == arts.Keys
    {
    }

    lemma ArtsViewAt(id: string)
      requires id in arts
      ensures id in ArtsView() && ArtsView()[id] == arts[id].View()
    {
    }

    twostate lemma ArtRemoved(id: string)
      requires arts == old(arts) - {id} && forall i | i in arts :: unchanged(arts[i])
      ensures ArtsView() == old(ArtsView()) - {id}
    {
    }

    /** Forgets nothing: an ID is remembered once. */
    method RememberMessageID(id: string, now: S.Time)
      requires Valid()
      modifies this`history
      ensures View() == S.Remember(old(View()), id, now) && Valid()
    {
      hide Inv;
      ghost var s := View();
      CancelKeeps(s, id, now);
      if id !in history {
        history := history[id := now];
      }
    }

    /** Cancels an article: its ID stays known, whether it was stored or not. */
    method CancelMessageID(id: string, now: S.Time) returns (existed: bool)
      requires Valid()
      modifies this`byNum, this`arts, this`queue, this`history, groups.Values
      ensures (View(), existed) == S.Cancel(old(View()), id, now) && Valid()
    {
      hide Inv, S.DeleteArticle, GroupsView, ArtsView, IndexView, LinkedTables, Smaller;
      ghost var s := View();
      StoredKeys();
      StoredInHistory(s);
      HistoryKeeps(s, s.history[id := now]);
      history := history[id := now];
      existed := DeleteArticle(id);
    }

    // ----- Removing a group -----

    /** The view of the articles after one of them changed. */
    twostate lemma ArtChanged(id: string)
      requires arts == old(arts) && id in arts && forall i | i in arts && i != id :: arts[i] != arts[id] && unchanged(arts[i])
      ensures ArtsView() == old(ArtsView())[id := arts[id].View()]
    {
    }

    /** The articles are without the group but for those left to look at. */
    ghost predicate Dropping(as0: map<string, S.Art>, arts0: map<string, MemArt>, name: string, left: set<string>)
      reads this`arts, arts.Values
    {
      && left <= arts.Keys && ArtsView() == ArtsWithout(as0, name, left)
      && Smaller(arts, arts0)
    }

    /** Takes the group off one article, and the article out of the store if no group is left. */
    method DropGroupFrom(id: string, name: string, ghost as0: map<string, S.Art>, ghost arts0: map<string, MemArt>, ghost left: set<string>)
      requires Dropping(as0, arts0, name, left) && id in left && left <= as0.Keys
      requires forall i | i in arts :: arts[i].msgid == i
      modifies this`arts, arts.Values
      ensures Dropping(as0, arts0, name, left - {id})
      ensures forall a | a in old(arts).Values && a != old(arts)[id] :: unchanged(a)
    {
      hide ArtsWithout, ArtsView;
      var art := arts[id];
      ArtsViewAt(id);
      StoredKeys();
      WithoutGroup(as0, name, left, id);
      if name in art.groups {
        art.groups := art.groups - {name};
        ArtChanged(id);
        if |art.groups| == 0 {
          label Empty:
          arts := arts - {id};
          ArtRemoved@Empty(id);
        }
      }
      StoredKeys();
    }

    /** Removes a group and every article that is filed nowhere else. */
    method DeleteGroup(name: string) returns (ok: bool)
      requires Valid()
      modifies this`groups, this`arts, this`byNum, arts.Values
      ensures View() == S.DeleteGroup(old(View()), name) && ok == (name in old(groups)) && Valid()
    {
      hide Inv, LinkedTables, ArtsWithout, S.DeleteGroup, TableView, GroupsView, ArtsView, Smaller, SmallerTable;
      ghost var s := View();
      RemovedGroupInv(s, name);
      IndexKeys();
      if name !in groups {
        NoGroupToDelete(s, name);
        return false;
      }
      LinkedNames(groups, arts, byNum);
      DropEverywhere(name);
      GroupsSame();
      label Dropped:
      groups := groups - {name};
      byNum := byNum - {name};
      GroupRemoved@Dropped(name);
      TableRemoved(old(byNum), name);
      SmallerWithout(old(byNum), old(groups), name);
      StoredKeys();
      WithoutGroupIs(s, name);
      LinkedShrinks(old(groups), old(arts), old(byNum), groups, arts, byNum, View());
      return true;
    }

    method DropEverywhere(name: string)
      requires forall i | i in arts :: arts[i].msgid == i
      modifies this`arts, arts.Values
      ensures ArtsView() == ArtsWithout(old(ArtsView()), name, {})
      ensures Smaller(arts, old(arts))
    {
      hide ArtsWithout, ArtsView;
      ghost var as0, arts0 := ArtsView(), arts;
      StoredKeys();
      WithoutGroupNone(as0, name);
      var todo := arts.Keys;
      while todo != {}
        invariant todo <= as0.Keys && Dropping(as0, arts0, name, todo)
        invariant arts.Values <= arts0.Values && (forall i | i in arts :: arts[i].msgid == i)
        decreases todo
      {
        var id :| id in todo;
        DropGroupFrom(id, name, as0, arts0, todo);
        todo := todo - {id};
      }
    }

    twostate lemma GroupRemoved(name: string)
      requires groups == old(groups) - {name} && forall g | g in groups :: unchanged(groups[g])
      ensures GroupsView() == old(GroupsView()) - {name}
    {
    }

    // ----- Creating and updating groups -----

    twostate lemma GroupAdded(name: string, new g: MemGroup)
      requires groups == old(groups)[name := g] && name !in old(groups) && forall h | h in old(groups) :: unchanged(groups[h])
      ensures GroupsView() == old(GroupsView())[name := g.View()]
    {
    }

    method CreateGroup(name: string, desc: string, status: string, origin: string, now: S.Time)
      requires Valid() && name !in groups
      modifies this`groups, this`byNum
      ensures View() == S.AddGroup(old(View()), name, S.NewGroup(desc, status, origin, now)) && Valid()
    {
      hide Inv, LinkedTables, TableView, GroupsView, ArtsView;
      ghost var s := View();
      IndexKeys();
      AddGroupKeeps(s, name, S.NewGroup(desc, status, origin, now));
      var g := new MemGroup(name, desc, status, origin, now);
      groups := groups[name := g];
      byNum := byNum[name := map[]];
      ArtsSame();
      GroupAdded(name, g);
      TableAdded(old(byNum), name);
      LinkedGroupAdded(old(groups), arts, old(byNum), name, g);
    }

    /** The state after one group's description of itself changed, its numbers being the same. */
    twostate lemma GroupUpdated(name: string)
      requires old(Valid()) && groups == old(groups) && arts == old(arts) && byNum == old(byNum) && name in groups
      requires history == old(history) && queue == old(queue) && nextFeedID == old(nextFeedID) && alerts == old(alerts)
      requires nextAlertID == old(nextAlertID) && accepts == old(accepts) && bans == old(bans)
      requires forall g | g in groups && g != name :: unchanged(groups[g])
      requires forall id | id in arts :: unchanged(arts[id])
      requires SameNumbers(groups[name].View(), old(groups[name].View()))
      ensures View() == S.SetGroup(old(View()), name, groups[name].View()) && Valid()
    {
      hide Inv;
      LinkedNames(groups, arts, byNum);
      GroupChanged(name);
      ArtsSame();
      SetGroupKeeps(old(View()), name, groups[name].View());
    }

    method EnsureGroup(name: string, desc: string, status0: string, now: S.Time)
      requires Valid()
      modifies this`groups, this`byNum, groups.Values
      ensures View() == S.EnsureGroup(old(View()), name, desc, status0, now) && Valid()
    {
      hide Inv, LinkedTables;
      var status := if status0 == "" then "y" else status0;
      if name !in groups {
        CreateGroup(name, desc, status, S.LOCAL, now);
        return;
      }
      var g := groups[name];
      if g.origin == S.CONTROL {
        if desc != "" {
          g.description := desc;
        }
        g.status := status;
      } else {
        if desc != "" {
          g.description := desc;
        }
        g.status := status;
        if g.origin == "" || g.origin == S.ISC {
          g.origin := S.LOCAL;
        }
      }
      LinkedNames(groups, arts, byNum);
      GroupUpdated(name);
    }

    method EnsureGroupISC(name: string, desc: string, status0: string, now: S.Time)
      requires Valid()
      modifies this`groups, this`byNum, groups.Values
      ensures View() == S.EnsureGroupISC(old(View()), name, desc, status0, now) && Valid()
    {
      hide Inv, LinkedTables;
      var status := if status0 == "" then "y" else status0;
      if name !in groups {
        CreateGroup(name, desc, status, S.ISC, now);
        return;
      }
      var g := groups[name];
      if g.origin != S.ISC && g.origin != "" {
        return;
      }
      if desc != "" {
        g.description := desc;
      }
      g.status := status;
      g.origin := S.ISC;
      LinkedNames(groups, arts, byNum);
      GroupUpdated(name);
    }

    method ApplyControlGroup(name: string, desc: string, status0: string, now: S.Time)
      requires Valid()
      modifies this`groups, this`byNum, groups.Values
      ensures View() == S.ApplyControlGroup(old(View()), name, desc, status0, now) && Valid()
    {
      hide Inv, LinkedTables;
      var status := if status0 == "" then "y" else status0;
      if name !in groups {
        CreateGroup(name, desc, status, S.CONTROL, now);
        return;
      }
      var g := groups[name];
      if desc != "" {
        g.description := desc;
      }
      g.status := status;
      g.origin := S.CONTROL;
      LinkedNames(groups, arts, byNum);
      GroupUpdated(name);
    }

    method DisableControlGroup(name: string, now: S.Time)
      requires Valid()
      modifies this`groups, this`byNum, groups.Values
      ensures View() == S.DisableControlGroup(old(View()), name, now) && Valid()
    {
      hide Inv, LinkedTables;
      if name !in groups {
        CreateGroup(name, "", "n", S.CONTROL, now);
        return;
      }
      var g := groups[name];
      g.status := "n";
      g.origin := S.CONTROL;
      LinkedNames(groups, arts, byNum);
      GroupUpdated(name);
    }

    method SetGroupRetention(name: string, days: Option<int>, mode: string) returns (ok: bool)
      requires Valid()
      modifies groups.Values
      ensures View() == S.SetRetention(old(View()), name, days, mode) && ok == (name in groups) && Valid()
    {
      hide Inv, LinkedTables;
      if name !in groups {
        return false;
      }
      var g := groups[name];
      g.retentionDays := days;
      g.retentionMode := mode;
      LinkedNames(groups, arts, byNum);
      GroupUpdated(name);
      return true;
    }

    // ----- Retention -----

    /** One group is being expired: numbers taken out of its index are taken off their articles. */
    ghost predicate Expiring(g: string, as0: map<string, S.Art>, table0: map<string, map<int, MemArt>>)
      reads this`byNum, this`arts, arts.Values
    {
      && g in byNum && g in table0 && byNum == table0[g := byNum[g]] && Smaller(byNum[g], table0[g])
      && ArtsView() == ArtsByRow(as0, g, byNum[g].Keys)
    }

    /** Looks at one number of a group: an article from before the cutoff loses the group. */
    method ExpireNumber(mg: MemGroup, n: int, cutoff: S.Time, ghost as0: map<string, S.Art>, ghost table0: map<string, map<int, MemArt>>)
      returns (present: bool, old_: bool)
      requires Expiring(mg.name, as0, table0) && FiledIn(as0, table0, mg.name)
      requires LinkedTables(groups, arts, table0) && arts.Keys == as0.Keys
      modifies this`byNum, arts.Values, mg`count
      ensures Expiring(mg.name, as0, table0)
      ensures present == (n in old(byNum)[mg.name])
      ensures old_ == (present && old(byNum)[mg.name][n].info.storedAt < cutoff)
      ensures byNum[mg.name] == if old_ then old(byNum)[mg.name] - {n} else old(byNum)[mg.name]
    {
      hide ArtsByRow, ArtsView, LinkedTables, FiledIn;
      var g := mg.name;
      present, old_ := n in byNum[g], false;
      if !present {
        return;
      }
      var a := byNum[g][n];
      if a.info.storedAt < cutoff {
        LinkedEntry(groups, arts, table0, g, n);
        LinkedNames(groups, arts, table0);
        ArtsByRowNext(as0, table0, g, byNum[g].Keys, n);
        ArtsViewAt(a.msgid);
        a.groups := a.groups - {g};
        ArtChanged(a.msgid);
        byNum := byNum[g := byNum[g] - {n}];
        mg.count := mg.count - 1;
        old_ := true;
      }
    }

    /** One round: the number's article goes if it is from before the cutoff. */
    method ExpireRound(mg: MemGroup, nums: seq<int>, i: nat, cutoff: S.Time, ghost as0: map<string, S.Art>,
                       ghost table0: map<string, map<int, MemArt>>) returns (stays: bool, gone: bool)
      requires i < |nums| && Increasing(nums) && Expiring(mg.name, as0, table0) && FiledIn(as0, table0, mg.name)
      requires LinkedTables(groups, arts, table0) && arts.Keys == as0.Keys
      requires RowAt(table0[mg.name], byNum[mg.name], nums, i, cutoff)
      modifies this`byNum, arts.Values, mg`count
      ensures Expiring(mg.name, as0, table0) && mg.name in table0
      ensures RowAt(table0[mg.name], byNum[mg.name], nums, i + 1, cutoff)
      ensures stays == (nums[i] in table0[mg.name] && !(table0[mg.name][nums[i]].info.storedAt < cutoff))
      ensures |byNum[mg.name]| == |old(byNum)[mg.name]| - if gone then 1 else 0
    {
      hide Expiring, LinkedTables, FiledIn, RowAt;
      ExpiringRow(mg.name, as0, table0);
      ghost var row := byNum[mg.name];
      var present, old_ := ExpireNumber(mg, nums[i], cutoff, as0, table0);
      ExpiringRow(mg.name, as0, table0);
      RowAtNext(table0[mg.name], row, nums, i, cutoff);
      stays, gone := present && !old_, old_;
    }

    /** Expires one group; the result is the number of filings removed. */
    method ExpireNumbers(mg: MemGroup, cutoff: S.Time, ghost t: S.State) returns (keep: seq<int>, removed: int)
      requires ArtsView() == t.arts && Linked() && mg.name in byNum
      requires FiledIn(t.arts, byNum, mg.name) && Increasing(mg.nums) && RowOk(mg.View(), RowView(byNum[mg.name]))
      modifies this`byNum, arts.Values, mg`count
      ensures Expiring(mg.name, t.arts, old(byNum))
      ensures keep == S.Staying(t, RowView(old(byNum)[mg.name]), mg.nums, cutoff)
      ensures forall n | n in old(byNum)[mg.name] ::
                n in byNum[mg.name] <==> !(old(byNum)[mg.name][n].info.storedAt < cutoff)
      ensures removed == |old(byNum)[mg.name]| - |byNum[mg.name]|
    {
      hide Expiring, LinkedTables, FiledIn, S.Staying, ArtsView, RowOk, RowAt, RowView;
      ghost var table0, row0 := byNum, byNum[mg.name];
      var nums := mg.nums;
      StoredKeys();
      ArtsViewInfo(t.arts);
      ExpiringStart(mg.name, t.arts);
      RowAtStart(row0, nums, cutoff);
      InNums(mg.View(), row0, nums);
      keep, removed := [], 0;
      assert nums[0..] == nums;
      for i := 0 to |nums|
        invariant Expiring(mg.name, t.arts, table0) && mg.name in byNum && RowAt(row0, byNum[mg.name], nums, i, cutoff)
        invariant keep + S.Staying(t, RowView(row0), nums[i..], cutoff) == S.Staying(t, RowView(row0), nums, cutoff)
        invariant removed == |row0| - |byNum[mg.name]|
      {
        StayingStep(t, table0, groups, arts, mg.name, nums[i..], cutoff, keep);
        assert nums[i..][1..] == nums[i + 1..] && nums[i..][0] == nums[i];
        var stays, gone := ExpireRound(mg, nums, i, cutoff, t.arts, table0);
        ExpiringRow(mg.name, t.arts, table0);
        if gone {
          removed := removed + 1;
        }
        if stays {
          keep := keep + [nums[i]];
        }
      }
      assert nums[|nums|..] == [];
      StayingEmpty(t, RowView(row0), cutoff);
      RowAtEnd(row0, byNum[mg.name], nums, cutoff);
    }

    lemma ArtsViewInfo(as0: map<string, S.Art>)
      requires ArtsView() == as0
      ensures as0.Keys == arts.Keys && forall id | id in arts :: as0[id].info == arts[id].info
    {
    }

    /** The pass has been through some groups of the state it started from. */
    ghost predicate PassAt(s: S.State, done: set<string>, now: S.Time)
      reads this, groups.Values, arts.Values
    {
      Linked() && TablesOk(s) && View() == X.ExpireSome(s, done, now)
    }

    /** One group of the pass. */
    method ExpireGroup(g: string, cutoff: S.Time, now: S.Time, ghost s: S.State, ghost done: set<string>) returns (removed: int)
      requires PassAt(s, done, now) && g in s.groups && g !in done && S.Cutoff(s.groups[g], now) == Some(cutoff)
      modifies this`byNum, arts.Values, groups.Values
      ensures PassAt(s, done + {g}, now)
      ensures removed == |X.Pairs(old(IndexView()))| - |X.Pairs(IndexView())|
    {
      hide S.Staying, GroupsView, ArtsView, TableView, X.ExpireSome, Expiring, LinkedTables, FiledIn, TablesOk, RowView;
      hide X.Pairs, Smaller, S.Renumbered;
      GroupInPass(s, done, now, g);
      var mg := groups[g];
      ghost var t := View();
      var keep;
      StoredKeys();
      ArtsViewInfo(t.arts);
      keep, removed := ExpireNumbers(mg, cutoff, t);
      label Numbered:
      RenumberedSame(mg.View(), s.groups[g], keep);
      mg.Renumber(keep);
      GroupChanged(g);
      ArtsSame@Numbered();
      PassNext(s, done, now, g, cutoff, t, old(byNum), keep);
    }

    /** What the pass knows of a group it has not reached. */
    lemma GroupInPass(s: S.State, done: set<string>, now: S.Time, g: string)
      requires PassAt(s, done, now) && g in s.groups && g !in done
      ensures g in groups && groups[g].name == g && g in byNum && groups[g].View() == s.groups[g]
      ensures GroupsView()[g] == s.groups[g]
      ensures FiledIn(View().arts, byNum, g) && Increasing(groups[g].nums) && RowOk(groups[g].View(), RowView(byNum[g]))
      ensures Named()
    {
      X.ExpireSomeAt(s, done, now, g);
      FiledInPass(s, done, now, g, byNum);
    }

    /** After one group was expired and renumbered, the pass has been through that group too. */
    lemma PassNext(s: S.State, done: set<string>, now: S.Time, g: string, cutoff: S.Time, t: S.State,
                   table0: map<string, map<int, MemArt>>, keep: seq<int>)
      requires TablesOk(s) && t == X.ExpireSome(s, done, now) && g in s.groups && g !in done
      requires S.Cutoff(s.groups[g], now) == Some(cutoff)
      requires LinkedTables(groups, arts, table0) && TableView(table0) == t.byNum && FiledIn(t.arts, table0, g)
      requires t.arts.Keys == arts.Keys && forall id | id in arts :: t.arts[id].info == arts[id].info
      requires Expiring(g, t.arts, table0)
      requires forall n | n in table0[g] :: n in byNum[g] <==> !(table0[g][n].info.storedAt < cutoff)
      requires keep == S.Staying(t, RowView(table0[g]), s.groups[g].nums, cutoff)
      requires View() == t.(groups := t.groups[g := S.Renumbered(s.groups[g], keep)], arts := ArtsView(), byNum := IndexView())
      ensures PassAt(s, done + {g}, now)
      ensures |table0[g]| - |byNum[g]| == |X.Pairs(t.byNum)| - |X.Pairs(IndexView())|
    {
      hide S.Staying, ArtsView, GroupsView, TableView, X.ExpireSome, LinkedTables, FiledIn, TablesOk, RowView, X.Pairs, Smaller;
      hide S.Renumbered, S.ExpiredGroup, S.ExpiredRow, ArtsByRow, X.WithoutExpired;
      ghost var row, u := byNum[g], X.ExpireSome(s, done + {g}, now);
      RowsOfPass(s, done, now, g, table0);
      TableSet(table0, g, row);
      X.ExpireSomeNext(s, done, now, g);
      ExpiredGroupIs(s, t, g, now, cutoff);
      ExpiredRowIs(s, groups, arts, table0, g, row, now, cutoff);
      ArtsExpired(t.arts, groups, arts, table0, g, row, cutoff);
      SameArts(ArtsView(), u.arts);
      LinkedRow(groups, arts, table0, g, row);
      assert PassAt(s, done + {g}, now);
      RowCount(table0, t.byNum, g, row);
    }

    /** Goes through the groups in whatever order the map gives them. */
    method ExpireGroups(now: S.Time, ghost s: S.State) returns (removed: int)
      requires Valid() && s == View()
      modifies this`byNum, arts.Values, groups.Values
      ensures PassAt(s, s.groups.Keys, now)
      ensures removed == |X.Pairs(s.byNum)| - |X.Pairs(IndexView())|
    {
      hide PassAt, Inv, Linked, X.Pairs, IndexView, View;
      PassStart(s, now);
      removed := 0;
      var todo := groups.Keys;
      while todo != {}
        invariant todo <= s.groups.Keys && PassAt(s, s.groups.Keys - todo, now)
        invariant removed == |X.Pairs(s.byNum)| - |X.Pairs(IndexView())|
        decreases todo
      {
        var g :| g in todo;
        var n := ExpireNext(g, now, s, s.groups.Keys - todo);
        removed := removed + n;
        assert s.groups.Keys - todo + {g} == s.groups.Keys - (todo - {g});
        todo := todo - {g};
      }
      assert s.groups.Keys - todo == s.groups.Keys;
    }

    /** Looks at one group: without a positive retention it is left alone. */
    method ExpireNext(g: string, now: S.Time, ghost s: S.State, ghost done: set<string>) returns (removed: int)
      requires PassAt(s, done, now) && g in s.groups && g !in done
      modifies this`byNum, arts.Values, groups.Values
      ensures PassAt(s, done + {g}, now)
      ensures removed == |X.Pairs(old(IndexView()))| - |X.Pairs(IndexView())|
    {
      hide PassAt, X.Pairs, IndexView;
      GroupInPass(s, done, now, g);
      var days := groups[g].retentionDays;
      if days.Some? && days.value > 0 {
        removed := ExpireGroup(g, now - days.value * S.DAY, now, s, done);
      } else {
        PassSkip(s, done, now, g);
        removed := 0;
      }
    }

    lemma PassStart(s: S.State, now: S.Time)
      requires Valid() && s == View()
      ensures PassAt(s, {}, now) && s.groups.Keys == groups.Keys && s.groups.Keys - groups.Keys == {}
      ensures s.byNum == IndexView()
    {
      hide LinkedTables, TablesOk, X.ExpireSome;
      X.ExpireSomeNone(s, now);
    }

    lemma PassSkip(s: S.State, done: set<string>, now: S.Time, g: string)
      requires PassAt(s, done, now) && g in s.groups && g !in done && S.Cutoff(s.groups[g], now).None?
      ensures PassAt(s, done + {g}, now)
    {
      hide X.ExpireSome, LinkedTables, View;
      X.ExpireSomeSkip(s, done, now, g);
    }

    /** Drops the articles that are filed nowhere. */
    method SweepArts() returns (removed: int)
      modifies this`arts
      ensures ArtsView() == X.FiledArts(old(ArtsView()))
      ensures Smaller(arts, old(arts)) && removed == |old(ArtsView())| - |ArtsView()|
      ensures GroupsView() == old(GroupsView())
    {
      hide ArtsView, GroupsView, X.FiledArts, FiledOrLeft;
      ghost var as0 := ArtsView();
      StoredKeys();
      FiledOrLeftAll(as0);
      removed := 0;
      var todo := arts.Keys;
      while todo != {}
        invariant todo <= arts.Keys && Smaller(arts, old(arts)) && ArtsView() == FiledOrLeft(as0, todo)
        invariant removed == |as0| - |ArtsView()| && todo <= as0.Keys
        decreases todo
      {
        var id :| id in todo;
        FiledOrLeftOne(as0, todo, id);
        ArtsViewAt(id);
        if |arts[id].groups| == 0 {
          label Here:
          arts := arts - {id};
          ArtRemoved@Here(id);
          removed := removed + 1;
        }
        StoredKeys();
        todo := todo - {id};
      }
      FiledOrLeftNone(as0);
      GroupsSame();
    }

    /** Forgets the old IDs of articles that are not stored. */
    method SweepHistory(now: S.Time, historyDays: int) returns (removed: int)
      requires historyDays > 0
      modifies this`history
      ensures history == X.Known(old(history), arts.Keys, now, historyDays) && removed == |old(history)| - |history|
      ensures GroupsView() == old(GroupsView()) && ArtsView() == old(ArtsView())
    {
      hide X.Known, KnownOrLeft, GroupsView, ArtsView;
      ghost var h0 := history;
      KnownOrLeftAll(h0, arts.Keys, now, historyDays);
      removed := 0;
      var todo := history.Keys;
      while todo != {}
        invariant todo <= history.Keys && todo <= h0.Keys && history == KnownOrLeft(h0, arts.Keys, todo, now, historyDays)
        invariant removed == |h0| - |history|
        decreases todo
      {
        var id :| id in todo;
        KnownOrLeftOne(h0, arts.Keys, todo, id, now, historyDays);
        if history[id] < now - historyDays * S.DAY && id !in arts {
          history := history - {id};
          removed := removed + 1;
        }
        todo := todo - {id};
      }
      KnownOrLeftNone(h0, arts.Keys, now, historyDays);
      GroupsSame();
      ArtsSame();
    }

    /** The last part of the pass. */
    method Sweep(now: S.Time, historyDays: int) returns (articles: int, forgotten: int)
      modifies this`arts, this`history
      ensures View() == X.Swept(old(View()), now, historyDays) && Smaller(arts, old(arts))
      ensures articles == |old(View()).arts| - |View().arts| && forgotten == |old(View()).history| - |View().history|
    {
      hide X.Swept, X.FiledArts, X.Known, GroupsView, ArtsView, IndexView, Smaller;
      ghost var t := View();
      articles := SweepArts();
      forgotten := 0;
      if historyDays > 0 {
        forgotten := SweepHistory(now, historyDays);
      }
      StoredKeys();
      X.SweptIs(t, now, historyDays);
    }

    /** With fewer articles but the same groups and index, the objects are still linked. */
    lemma LinkedStill(arts0: map<string, MemArt>)
      requires LinkedTables(groups, arts0, byNum) && Smaller(arts, arts0) && Inv(View())
      ensures Linked()
    {
      hide Inv, LinkedTables, Smaller, SmallerTable, ArtsView, GroupsView, TableView;
      StoredKeys();
      SmallerWithout(byNum, groups, "");
      LinkedShrinks(groups, arts0, byNum, groups, arts, byNum, View());
    }

    /** Runs an expiry pass. */
    method Expire(now: S.Time, historyDays: int) returns (r: S.ExpireResult)
      requires Valid()
      modifies this`byNum, this`arts, this`history, arts.Values, groups.Values
      ensures View() == S.Expire(old(View()), now, historyDays) && Valid()
      ensures r == X.Removed(old(View()), View())
    {
      hide Inv, LinkedTables, TablesOk, X.ExpireSome, S.Expire, X.Swept, GroupsView, ArtsView, TableView, X.Pairs, Smaller, SmallerTable;
      ghost var s := View();
      X.ExpireKeeps(s, now, historyDays);
      RowsExist(s);
      IndexKeys();
      var overview := ExpireGroups(now, s);
      ghost var t := View();
      var articles, forgotten := Sweep(now, historyDays);
      X.ExpireIsSwept(s, s.groups.Keys, now, historyDays);
      X.SweptSame(s, s.groups.Keys, now, historyDays);
      LinkedStill(old(arts));
      r := S.ExpireResult(overview, articles, forgotten);
    }

    lemma ExpiringStart(g: string, as0: map<string, S.Art>)
      requires g in byNum && ArtsView() == as0 && FiledIn(as0, byNum, g)
      ensures Expiring(g, as0, byNum)
    {
      ArtsByRowStart(as0, byNum, g);
      assert byNum == byNum[g := byNum[g]];
    }

    lemma ExpiringRow(g: string, as0: map<string, S.Art>, table0: map<string, map<int, MemArt>>)
      requires Expiring(g, as0, table0)
      ensures g in byNum && g in table0 && Smaller(byNum[g], table0[g]) && byNum == table0[g := byNum[g]]
    {
    }

    // ----- The feed queue -----

    /** Queues an article for a peer, unless it already is. */
    method EnqueueFeed(peer: int, id: string, now: S.Time)
      requires Valid()
      modifies this`queue, this`nextFeedID
      ensures View() == S.Enqueue(old(View()), peer, id, now) && Valid()
    {
      hide Inv, LinkedTables;
      F.EnqueueKeeps(View(), peer, id, now);
      for i := 0 to |queue|
        invariant forall j | 0 <= j < i :: !(queue[j].peer == peer && queue[j].msgid == id)
        invariant queue == old(queue) && nextFeedID == old(nextFeedID)
      {
        if queue[i].peer == peer && queue[i].msgid == id {
          return;
        }
      }
      nextFeedID := nextFeedID + 1;
      queue := queue + [S.FeedItem(nextFeedID, peer, id, 0, now, "", now)];
    }

    /** Claims due entries from the front: each is leased to the caller. */
    method ClaimFeedDue(limit0: int, now: S.Time) returns (out: seq<S.FeedItem>)
      requires Valid()
      modifies this`queue
      ensures (View(), out) == S.Claim(old(View()), limit0, now) && Valid()
    {
      hide Inv, LinkedTables, S.ClaimItems;
      F.QueueStepsKeep(View(), limit0, 0, "", 0, 0, now);
      var limit := if limit0 <= 0 then 32 else limit0;
      out := ClaimUpTo(limit, now);
    }

    method ClaimUpTo(limit: int, now: S.Time) returns (out: seq<S.FeedItem>)
      modifies this`queue
      ensures (queue, out) == S.ClaimItems(old(queue), limit, now)
    {
      hide S.ClaimItems, Claimed;
      ghost var q0 := queue;
      out := [];
      var i := 0;
      ClaimedStart(q0, limit, now);
      while i < |queue| && |out| < limit
        invariant i <= |queue| == |q0| && queue[i..] == q0[i..]
        invariant Claimed(q0, limit, now, queue[..i], out, i)
      {
        ClaimedNext(q0, limit, now, queue[..i], out, i);
        assert queue[i] == q0[i] by { assert queue[i..][0] == q0[i..][0]; }
        ghost var before := queue;
        if queue[i].nextAttempt <= now {
          queue := queue[i := queue[i].(attempts := queue[i].attempts + 1, nextAttempt := now + S.LEASE)];
          out := out + [queue[i]];
        }
        i := i + 1;
        assert queue[..i] == before[..i - 1] + [queue[i - 1]];
        assert queue[i..] == before[i - 1..][1..] && q0[i..] == q0[i - 1..][1..];
      }
      ClaimedEnd(q0, limit, now, queue[..i], out, i);
      assert queue == queue[..i] + queue[i..];
    }

    method CompleteFeed(id: int)
      requires Valid()
      modifies this`queue
      ensures View() == S.Complete(old(View()), id) && Valid()
    {
      hide Inv, LinkedTables;
      F.QueueStepsKeep(View(), 0, id, "", 0, 0, 0);
      var kept := [];
      assert queue[0..] == queue;
      for i := 0 to |queue|
        invariant queue == old(queue) && kept + S.WithoutItem(queue[i..], id) == S.WithoutItem(queue, id)
      {
        assert queue[i..][1..] == queue[i + 1..];
        if queue[i].id != id {
          kept := kept + [queue[i]];
        }
      }
      queue := kept;
    }

    /** Notes a failed delivery on its entry. */
    method FailFeed(id: int, err: string, retryAfter0: int, now: S.Time)
      requires Valid()
      modifies this`queue
      ensures View() == S.Fail(old(View()), id, err, retryAfter0, now) && Valid()
    {
      hide Inv, LinkedTables, S.FailItem;
      ghost var q0 := queue;
      F.QueueStepsKeep(View(), 0, id, err, retryAfter0, 0, now);
      var retryAfter := if retryAfter0 <= 0 then 2 * S.MINUTE else retryAfter0;
      for i := 0 to |queue|
        invariant queue == q0
        invariant forall j | 0 <= j < i :: queue[j].id != id
      {
        if queue[i].id == id {
          FailedAt(queue, i, id, err, now + retryAfter);
          queue := queue[i := queue[i].(lastError := err, nextAttempt := now + retryAfter)];
          return;
        }
      }
      FailedNowhere(queue, id, err, now + retryAfter);
    }

    /** Drops the entries of one peer, or all of them. */
    method FlushFeedQueue(peer: int) returns (n: int)
      requires Valid()
      modifies this`queue
      ensures (View(), n) == S.Flush(old(View()), peer) && Valid()
    {
      hide Inv, LinkedTables, S.FlushItems;
      F.QueueStepsKeep(View(), 0, 0, "", 0, peer, 0);
      var kept;
      kept, n := NotFlushed(peer);
      queue := kept;
    }

    method NotFlushed(peer: int) returns (kept: seq<S.FeedItem>, n: int)
      ensures kept == S.FlushItems(queue, peer) && n == |queue| - |kept|
    {
      var q := queue;
      kept, n := [], 0;
      assert q[0..] == q;
      for i := 0 to |q|
        invariant kept + S.FlushItems(q[i..], peer) == S.FlushItems(q, peer)
        invariant n == i - |kept|
      {
        assert q[i..][1..] == q[i + 1..] && q[i..][0] == q[i];
        if peer > 0 && q[i].peer != peer {
          assert (kept + [q[i]]) + S.FlushItems(q[i + 1..], peer) == kept + ([q[i]] + S.FlushItems(q[i + 1..], peer));
          kept := kept + [q[i]];
        } else {
          assert kept + ([] + S.FlushItems(q[i + 1..], peer)) == kept + S.FlushItems(q[i + 1..], peer);
          n := n + 1;
        }
      }
      assert q[|q|..] == [] && kept + [] == kept;
    }

    // ----- Flood alerts -----

    /** The place of the group's open alert, or the number of alerts. */
    method OpenAlertIndex(group: string) returns (i: nat)
      ensures i == A.OpenAlert(alerts, group)
    {
      hide *;
      i := 0;
      while i < |alerts|
        invariant i <= |alerts| && forall j | 0 <= j < i :: !(alerts[j].group == group && alerts[j].status == S.Open)
      {
        if alerts[i].group == group && alerts[i].status == S.Open {
          break;
        }
        i := i + 1;
      }
      A.OpenAlertIs(alerts, group, i);
    }

    /** An open alert of the group gets the detail; without one, an alert is raised. */
    method EnsureOpenAlert(group: string, detail: S.Detail, now: S.Time)
      modifies this`alerts, this`nextAlertID
      ensures View() == A.EnsureOpenAlert(old(View()), group, detail, now)
    {
      hide A.OpenAlert, GroupsView, ArtsView, IndexView;
      var i := OpenAlertIndex(group);
      if i < |alerts| {
        alerts := alerts[i := alerts[i].(detail := detail)];
        return;
      }
      var id := if nextAlertID == 0 then 1 else nextAlertID;
      alerts := alerts + [S.Alert(id, group, detail, S.Open, now)];
      nextAlertID := id + 1;
    }

    /** Puts an automatic retention on a group. */
    method Shorten(name: string, days: int, detail: S.Detail, now: S.Time)
      requires name in groups && Named()
      modifies groups[name], this`alerts, this`nextAlertID
      ensures View() == A.Shorten(old(View()), name, days, detail, now)
    {
      hide A.EnsureOpenAlert, GroupsView, ArtsView, IndexView;
      IndexKeys();
      var g := groups[name];
      assert old(GroupsView())[name] == old(g.View()) by { GroupsViewAt(name); }
      g.retentionDays := Some(days);
      g.retentionMode := S.AUTO;
      GroupChanged(name);
      EnsureOpenAlert(name, detail, now);
    }

    lemma GroupsViewAt(name: string)
      requires name in groups
      ensures name in GroupsView() && GroupsView()[name] == groups[name].View()
    {
    }

    /** Counts the accepts of a group from a time on, all of them and the binary ones. */
    method CountWindow(name: string, since: S.Time) returns (total: int, bins: int)
      ensures total == A.CountSince(A.Accepts(View(), name), since, false)
      ensures bins == A.CountSince(A.Accepts(View(), name), since, true)
    {
      var list := if name in accepts then accepts[name] else [];
      total, bins := 0, 0;
      assert list[0..] == list;
      for i := 0 to |list|
        invariant total + A.CountSince(list[i..], since, false) == A.CountSince(list, since, false)
        invariant bins + A.CountSince(list[i..], since, true) == A.CountSince(list, since, true)
      {
        assert list[i..][1..] == list[i + 1..];
        if list[i].at < since {
          continue;
        }
        total := total + 1;
        if list[i].binary {
          bins := bins + 1;
        }
      }
    }

    /** Seeds a retention when the group matches the seed pattern and has none. */
    method NoteSeed(name: string, p: A.FloodParams, now: S.Time) returns (out: seq<string>)
      requires name in groups && Named()
      modifies groups[name], this`alerts, this`nextAlertID
      ensures (View(), out) == A.NoteSeed(old(View()), name, p, now)
    {
      hide A.Shorten, W.Matches, ArtsView, IndexView, GroupsView;
      GroupsViewAt(name);
      out := [];
      var g := groups[name];
      if g.retentionDays == None && p.seedWildmat != "" {
        var matches := W.Match(p.seedWildmat, name);
        if matches {
          Shorten(name, p.floodDays, S.Seeded(p.seedWildmat), now);
          out := [name];
        }
      }
    }

    /** Puts a retention on the group when its recent accepts are a flood. */
    method NoteFlood(name: string, binary: bool, p: A.FloodParams, now: S.Time) returns (out: seq<string>)
      requires name in groups && Named()
      modifies groups[name], this`alerts, this`nextAlertID
      ensures (View(), out) == A.NoteFlood(old(View()), name, binary, p, now)
    {
      hide A.Shorten, A.CountSince, A.Accepts, ArtsView, IndexView, GroupsView;
      GroupsViewAt(name);
      out := [];
      if !binary {
        return;
      }
      var total, bins := CountWindow(name, now - p.window);
      if total == 0 || bins < p.minBinary {
        return;
      }
      var ratio := bins as real / total as real;
      if ratio < p.minRatio {
        return;
      }
      Shorten(name, p.floodDays, S.Flood(bins, total, p.window), now);
      out := [name];
    }

    method NoteOne(name: string, binary: bool, p: A.FloodParams, now: S.Time) returns (out: seq<string>)
      requires Named()
      modifies groups.Values, this`accepts, this`alerts, this`nextAlertID
      ensures (View(), out) == A.NoteOne(old(View()), name, binary, p, now)
    {
      hide A.NoteSeed, A.NoteFlood, ArtsView, IndexView, GroupsView;
      IndexKeys();
      out := [];
      if name !in groups {
        return;
      }
      GroupsViewAt(name);
      accepts := accepts[name := (if name in accepts then accepts[name] else []) + [S.Accept(binary, now)]];
      if groups[name].retentionMode == S.WHITELIST {
        return;
      }
      var seeded := NoteSeed(name, p, now);
      var flooded := NoteFlood(name, binary, p, now);
      out := seeded + flooded;
    }

    /** Notes an accepted article in its groups, and answers with the groups that got a retention for it. */
    method NoteAccept(names: seq<string>, binary: bool, flood: A.FloodParams, now: S.Time) returns (flooded: seq<string>)
      requires Valid() && A.AlertsOk(View()) && View().nextAlertID >= 0
      modifies groups.Values, this`accepts, this`alerts, this`nextAlertID
      ensures (View(), flooded) == A.NoteAccept(old(View()), names, binary, flood, now)
      ensures Valid() && A.AlertsOk(View()) && View().nextAlertID >= 0
    {
      hide Inv, View, LinkedTables, A.NoteAll, A.NoteOne, A.AlertsOk, Noted;
      ghost var s := View();
      LinkedNames(groups, arts, byNum);
      var p := flood.(window := if flood.window <= 0 then S.DAY else flood.window,
                      floodDays := if flood.floodDays <= 0 then 7 else flood.floodDays);
      flooded := [];
      assert names[0..] == names;
      NotedStart(s, names, binary, p, now);
      for i := 0 to |names|
        invariant Noted(s, names, binary, p, now, View(), flooded, i)
      {
        NotedNext(s, names, binary, p, now, View(), flooded, i);
        var name := TrimSpace(names[i]);
        var out := NoteOne(name, binary, p, now);
        flooded := flooded + out;
      }
      NotedEnd(s, names, binary, p, now, View(), flooded);
      A.NoteAcceptKeeps(s, names, binary, p, now);
      A.TablesKeep(s, View());
    }

    /** Settles the first alert with the ID, if the action is one of the four in any case. */
    method ResolveGroupAlert(id: int, action: string) returns (error: Option<AlertError>)
      requires Valid() && A.AlertsOk(View())
      modifies groups.Values, this`alerts
      ensures var act := A.ActionOf(action);
              && View() == (if act == None then old(View()) else A.ResolveAlert(old(View()), id, act.value))
              && error == if forall a | a in old(alerts) :: a.id != id then Some(AlertNotFound)
                          else if act == None then Some(UnknownAction) else None
      ensures Valid() && A.AlertsOk(View())
    {
      hide Inv, LinkedTables, A.AlertsOk, ArtsView, IndexView, GroupsView, A.ActionOf;
      ghost var s := View();
      IndexKeys();
      LinkedNames(groups, arts, byNum);
      var act := A.ActionOf(action);
      ResolvedKeeps(s, id, if act == None then A.Dismiss else act.value);
      for i := 0 to |alerts|
        invariant View() == s && alerts == old(alerts)
        invariant forall j | 0 <= j < i :: alerts[j].id != id
      {
        if alerts[i].id == id {
          if act == None {
            return Some(UnknownAction);
          }
          Settle(i, act.value);
          return None;
        }
      }
      return Some(AlertNotFound);
    }

    /** Settles the alert at a place. */
    method Settle(i: nat, action: A.Action)
      requires i < |alerts| && Named()
      modifies groups.Values, this`alerts
      ensures View() == A.Settled(old(View()), i, action)
    {
      hide ArtsView, IndexView, GroupsView, A.SettledGroup;
      IndexKeys();
      var group := alerts[i].group;
      if group in groups {
        GroupsViewAt(group);
        groups[group].Settle(action);
        GroupChanged(group);
      }
      alerts := alerts[i := alerts[i].(status := A.Resolved(action))];
    }

    // ----- Unwanted groups -----

    /** Whether an article for these groups is unwanted. */
    method GroupsUnwanted(names: seq<string>) returns (unwanted: bool)
      ensures unwanted <==> P.GroupsUnwanted(View(), set g | g in names)
    {
      hide P.GroupMatches, ArtsView, IndexView;
      for i := 0 to |names|
        invariant forall j | 0 <= j < i :: !P.GroupMatches(bans, names[j])
      {
        var banned := MatchesAny(bans, names[i]);
        if banned {
          return true;
        }
      }
      for i := 0 to |names|
        invariant forall j | 0 <= j < |names| :: !P.GroupMatches(bans, names[j])
        invariant forall j | 0 <= j < i :: !P.Blocked(View(), names[j])
      {
        if names[i] in groups && groups[names[i]].retentionMode == S.BLOCKED {
          return true;
        }
      }
      return false;
    }

    /** Blocks a group once more. */
    method BlockAgain(name: string, ghost s: S.State, ghost names: set<string>)
      requires View() == P.ReblockedBy(s, names) && Named()
      modifies groups.Values
      ensures View() == P.ReblockedBy(s, names + {name})
    {
      hide ArtsView, GroupsView, IndexView;
      IndexKeys();
      P.ReblockOne(s, names, name);
      if name in groups {
        GroupsViewAt(name);
        var g := groups[name];
        g.status := "n";
        g.retentionDays := None;
        g.retentionMode := S.BLOCKED;
        GroupChanged(name);
      }
    }

    /** Blocks the groups with a blocked alert. */
    method BlockAlerted() returns (names: set<string>)
      requires Named()
      modifies groups.Values
      ensures View() == P.Reblocked(old(View()))
      ensures forall g :: g in names <==> P.Alerted(old(View()), g)
    {
      hide View, P.ReblockedBy, P.Reblocked;
      ghost var s := View();
      ViewAlerts();
      names := {};
      P.ReblockNone(s);
      for i := 0 to |alerts|
        invariant View() == P.ReblockedBy(s, names)
        invariant forall g :: g in names <==> exists j :: 0 <= j < i && alerts[j].group == g && alerts[j].status == S.AlertStatus.Blocked
      {
        if alerts[i].status == S.AlertStatus.Blocked {
          BlockAgain(alerts[i].group, s, names);
          names := names + {alerts[i].group};
        }
      }
      P.ReblockAll(s, names);
    }

    lemma ViewAlerts()
      ensures View().alerts == alerts && View().bans == bans && View().arts == ArtsView()
    {
    }

    /** Adds the blocked and the banned groups. */
    method AddUnwanted(names0: set<string>, ghost s: S.State) returns (names: set<string>)
      requires View() == P.Reblocked(s) && forall g :: g in names0 <==> P.Alerted(s, g)
      ensures forall g :: g in names <==> P.Unwanted(s, g)
    {
      hide P.GroupMatches, P.Alerted, P.Unwanted, P.Reblocked, ArtsView, IndexView;
      ViewAlerts();
      IndexKeys();
      names := names0;
      var todo := groups.Keys;
      while todo != {}
        invariant todo <= groups.Keys
        invariant forall g :: g in names <==> P.Alerted(s, g) || (g in groups.Keys - todo && P.Unwanted(s, g))
        decreases todo
      {
        var name :| name in todo;
        GroupsViewAt(name);
        P.UnwantedAt(s, name);
        if groups[name].retentionMode == S.BLOCKED {
          names := names + {name};
        }
        var banned := MatchesAny(bans, name);
        if banned {
          names := names + {name};
        }
        todo := todo - {name};
      }
      forall g | g !in groups
        ensures P.Unwanted(s, g) == P.Alerted(s, g)
      {
        P.UnwantedAt(s, g);
      }
      forall g | g in groups
        ensures P.Alerted(s, g) ==> P.Unwanted(s, g)
      {
        P.UnwantedAt(s, g);
      }
    }

    /** The articles in one of the groups, and the other groups that carry them. */
    method FindDoomed(names: set<string>) returns (doomed: seq<string>, cross: set<string>)
      ensures Distinct(doomed) && forall id :: id in doomed <==> Hits(ArtsView(), id, names)
      ensures forall g :: g in cross <==> exists id :: Hits(ArtsView(), id, names) && g in ArtsView()[id].groups && g !in names
    {
      doomed, cross := [], {};
      var todo := arts.Keys;
      while todo != {}
        invariant todo <= arts.Keys && Distinct(doomed)
        invariant forall id :: id in doomed <==> id !in todo && Hits(ArtsView(), id, names)
        invariant forall g :: g in cross <==> exists id :: id in doomed && g in ArtsView()[id].groups && g !in names
        decreases todo
      {
        var id :| id in todo;
        if arts[id].groups.Keys * names != {} {
          cross := cross + (arts[id].groups.Keys - names);
          doomed := doomed + [id];
        }
        todo := todo - {id};
      }
    }

    /** The same, each sorted. */
    method ListDoomed(names: set<string>, ghost s: S.State) returns (doomed: seq<string>, cross: seq<string>)
      requires ArtsView() == s.arts && forall g :: g in names <==> P.Unwanted(s, g)
      ensures P.ListsDoomed(s, doomed) && Sorted(doomed) && Lists(cross, P.CrosspostGroups(s)) && Sorted(cross)
      ensures forall id | id in doomed :: id in arts
    {
      hide P.Unwanted, P.Doomed, Sorted, Hits, ArtsView;
      var found, others := FindDoomed(names);
      doomed := SortStrings(found);
      SameListing(found, doomed, set id | id in found);
      DoomedIs(s, names, doomed, others);
      cross := SortedSet(others);
      ArtsKeys();
    }

    lemma ArtsKeys()
      ensures ArtsView().Keys == arts.Keys
    {
    }

    /** Deletes articles one after another. */
    method DeleteListed(ids: seq<string>) returns (deleted: seq<string>)
      requires Valid()
      modifies this`byNum, this`arts, this`queue, groups.Values
      ensures View() == P.DeleteAll(old(View()), ids) && Valid()
      ensures Distinct(ids) && (forall id | id in ids :: id in old(arts)) ==> deleted == ids
    {
      hide View, Valid, S.DeleteArticle;
      ghost var s := View();
      deleted := [];
      assert ids[0..] == ids;
      for i := 0 to |ids|
        invariant Valid() && P.DeleteAll(s, ids) == P.DeleteAll(View(), ids[i..])
        invariant Distinct(ids) && (forall id | id in ids :: id in old(arts)) ==>
                    deleted == ids[..i] && forall j | i <= j < |ids| :: ids[j] in arts
      {
        assert ids[i..][1..] == ids[i + 1..];
        var ok := DeleteArticle(ids[i]);
        if ok {
          deleted := deleted + [ids[i]];
        }
      }
      assert ids[|ids|..] == [] && ids[..|ids|] == ids;
    }

    /** Deletes every article in a banned or blocked group. The groups, the other groups of these articles and the
        articles are reported in ascending order. */
    method PurgeUnwantedArticles() returns (r: PurgeResult)
      requires Valid()
      modifies this`byNum, this`arts, this`queue, groups.Values
      ensures P.ListsDoomed(old(View()), r.ids) && View() == P.Purge(old(View()), r.ids) && Valid()
      ensures r.articles == |r.ids| && Sorted(r.ids)
      ensures Lists(r.cross, P.CrosspostGroups(old(View()))) && Sorted(r.cross)
      ensures Distinct(r.groups) && Sorted(r.groups) && forall g :: g in r.groups <==> P.Unwanted(old(View()), g)
    {
      hide Inv, LinkedTables, P.Reblocked, P.Unwanted, P.DeleteAll, View, Sorted, P.Doomed, P.CrosspostGroups;
      ghost var s := View();
      P.ReblockedKeeps(s);
      LinkedNames(groups, arts, byNum);
      var names := BlockAlerted();
      names := AddUnwanted(names, s);
      ViewAlerts();
      var doomed, cross := ListDoomed(names, s);
      var sorted := SortedSet(names);
      var deleted := DeleteListed(doomed);
      r := PurgeResult(sorted, cross, |deleted|, deleted);
    }

    // ----- Reading -----

    /** The numbers of a group in a range; a zero bound is no bound. */
    method ArticleNumbers(group: string, lo: int, hi: int) returns (out: seq<int>)
      ensures out == R.InRange(R.Nums(View(), group), lo, hi)
    {
      hide ArtsView, IndexView, GroupsView;
      IndexKeys();
      if group !in groups {
        return [];
      }
      GroupsViewAt(group);
      var nums := groups[group].nums;
      out := NumbersInRange(nums, lo, hi);
    }

    /** The ID of the article with a number in a group. */
    method GetByNumber(group: string, num: int) returns (id: Option<string>)
      ensures id == if num in S.Row(View().byNum, group) then Some(R.ArticleID(View(), group, num)) else None
    {
      if group !in byNum || num !in byNum[group] {
        return None;
      }
      return Some(byNum[group][num].msgid);
    }

    /** The article after a number. */
    method Next(group: string, cur: int) returns (r: Option<(int, string)>)
      requires Valid()
      ensures r == match R.NextNumber(R.Nums(View(), group), cur)
                   case None => None
                   case Some(n) => Some((n, R.ArticleID(View(), group, n)))
    {
      hide ArtsView, TableView, Inv, LinkedTables, R.ArticleID;
      R.NumberInRow(View(), group);
      if group !in groups {
        return None;
      }
      GroupsViewAt(group);
      var nums := groups[group].nums;
      assert nums[0..] == nums;
      for i := 0 to |nums|
        invariant R.NextNumber(nums, cur) == R.NextNumber(nums[i..], cur)
      {
        assert nums[i..][1..] == nums[i + 1..];
        if nums[i] > cur {
          RowEntry(group, nums[i]);
          return Some((nums[i], byNum[group][nums[i]].msgid));
        }
      }
      return None;
    }

    /** The article before a number. */
    method Prev(group: string, cur: int) returns (found: Option<(int, string)>)
      requires Valid()
      ensures found == match R.PrevNumber(R.Nums(View(), group), cur)
                       case None => None
                       case Some(n) => Some((n, R.ArticleID(View(), group, n)))
    {
      hide ArtsView, TableView, Inv, LinkedTables, R.ArticleID;
      R.NumberInRow(View(), group);
      if group !in groups {
        return None;
      }
      GroupsViewAt(group);
      var nums := groups[group].nums;
      found := None;
      for i := 0 to |nums|
        invariant found == match R.PrevNumber(nums[..i], cur)
                           case None => None
                           case Some(n) => Some((n, R.ArticleID(View(), group, n)))
      {
        assert nums[..i + 1][..i] == nums[..i];
        if nums[i] < cur {
          RowEntry(group, nums[i]);
          found := Some((nums[i], byNum[group][nums[i]].msgid));
        }
      }
      assert nums[..|nums|] == nums;
    }

    lemma RowEntry(group: string, n: int)
      requires n in S.Row(View().byNum, group)
      ensures group in byNum && n in byNum[group] && byNum[group][n].msgid == R.ArticleID(View(), group, n)
    {
    }

    lemma IndexKeys()
      ensures IndexView().Keys == byNum.Keys && GroupsView().Keys == groups.Keys && ArtsView().Keys == arts.Keys
    {
    }
  }

  /** Every entry of a table is the article or was there before. */
  ghost predicate Adds(before: map<string, map<int, MemArt>>, table: map<string, map<int, MemArt>>, art: MemArt) {
    forall g, n | g in table && n in table[g] ::
      table[g][n] == art || (g in before && n in before[g] && table[g][n] == before[g][n])
  }

  lemma AddsNothing(table: map<string, map<int, MemArt>>, art: MemArt)
    ensures Adds(table, table, art)
  {
  }

  lemma AddsMore(a: map<string, map<int, MemArt>>, b: map<string, map<int, MemArt>>, c: map<string, map<int, MemArt>>, art: MemArt)
    requires Adds(a, b, art) && Adds(b, c, art)
    ensures Adds(a, c, art)
  {
  }

  /** Objects know their keys, and the number index points to stored article objects. */
  ghost predicate LinkedTables(groups: map<string, MemGroup>, arts: map<string, MemArt>, byNum: map<string, map<int, MemArt>>) {
    && (forall g | g in groups :: groups[g].name == g)
    && (forall id | id in arts :: arts[id].msgid == id)
    && (forall g, n | g in byNum && n in byNum[g] :: byNum[g][n].msgid in arts && arts[byNum[g][n].msgid] == byNum[g][n])
  }

  lemma LinkedAdds(groups: map<string, MemGroup>, arts: map<string, MemArt>, before: map<string, map<int, MemArt>>,
                   table: map<string, map<int, MemArt>>, art: MemArt)
    requires LinkedTables(groups, arts, before) && Adds(before, table, art) && art.msgid !in arts
    ensures LinkedTables(groups, arts[art.msgid := art], table)
  {
  }

  lemma LinkedNames(groups: map<string, MemGroup>, arts: map<string, MemArt>, byNum: map<string, map<int, MemArt>>)
    requires LinkedTables(groups, arts, byNum)
    ensures forall g | g in groups :: groups[g].name == g
    ensures forall id | id in arts :: arts[id].msgid == id
  {
  }

  lemma UnknownNotStored(s: S.State, id: string)
    requires Inv(s) && id !in s.history
    ensures id !in s.arts
  {
  }

  ghost function TableView(table: map<string, map<int, MemArt>>): map<string, map<int, string>> {
    map g | g in table :: RowView(table[g])
  }

  ghost function RowView(row: map<int, MemArt>): map<int, string> {
    map n | n in row :: row[n].msgid
  }

  /** The state and answer after a new article was filed in these groups. */
  function Filed(s: S.State, id: string, info: S.Info, prefix: string, used: seq<string>, now: S.Time): (S.State, S.PostOutcome)
    requires forall g | g in used :: g in s.groups
  {
    var f := S.FileAll(S.FilingOf(s), used, id);
    var xref := S.XrefOf(prefix, f.parts);
    (s.(groups := f.groups, byNum := f.byNum, arts := s.arts[id := S.Art(info.(storedAt := now), xref, f.numbers)],
        history := s.history[id := now]),
     S.Posted(xref, f.numbers))
  }

  /** The groups after an article was taken out of those that file it, but for some that are left. */
  ghost function GroupsWithout(gs: map<string, S.Group>, filed: map<string, int>, left: set<string>): map<string, S.Group> {
    map g | g in gs :: if g in filed && g !in left then S.Remove(gs[g], filed[g]) else gs[g]
  }

  ghost function TableWithout(table: map<string, map<int, MemArt>>, filed: map<string, int>, left: set<string>):
    map<string, map<int, MemArt>>
  {
    map g | g in table :: if g in filed && g !in left then table[g] - {filed[g]} else table[g]
  }

  lemma WithoutNone(gs: map<string, S.Group>, table: map<string, map<int, MemArt>>, filed: map<string, int>)
    ensures GroupsWithout(gs, filed, filed.Keys) == gs && TableWithout(table, filed, filed.Keys) == table
  {
    hide S.Remove;
  }

  lemma WithoutOne(gs: map<string, S.Group>, table: map<string, map<int, MemArt>>, filed: map<string, int>, left: set<string>, g: string)
    requires g in left && left <= filed.Keys && g in gs && g in table
    ensures var gs', table' := GroupsWithout(gs, filed, left), TableWithout(table, filed, left);
            && g in gs' && gs'[g := S.Remove(gs'[g], filed[g])] == GroupsWithout(gs, filed, left - {g})
            && g in table' && table'[g := table'[g] - {filed[g]}] == TableWithout(table, filed, left - {g})
            && GroupsWithout(gs, filed, left - {g}).Keys == gs.Keys
            && TableWithout(table, filed, left - {g}).Keys == table.Keys
  {
    hide S.Remove;
  }

  /** The tables without an article that the index has in this form. */
  ghost function TakenOut(s: S.State, id: string, table: map<string, map<int, MemArt>>): S.State
    requires id in s.arts
  {
    var filed := s.arts[id].groups;
    s.(groups := GroupsWithout(s.groups, filed, {}), byNum := TableView(TableWithout(table, filed, {})),
       arts := s.arts - {id}, queue := S.Unqueued(s.queue, id))
  }

  /** The tables after all removals are those of the specification. */
  lemma DeletedIs(s: S.State, id: string, table: map<string, map<int, MemArt>>)
    requires id in s.arts && TableView(table) == s.byNum
    ensures S.DeleteArticle(s, id) == TakenOut(s, id, table)
  {
    hide S.Remove, S.Unqueued;
    var filed := s.arts[id].groups;
    forall g | g in table && g in filed
      ensures RowView(table[g] - {filed[g]}) == RowView(table[g]) - {filed[g]}
    {
    }
    assert S.DeleteArticle(s, id).groups == TakenOut(s, id, table).groups;
    assert S.DeleteArticle(s, id).byNum == TakenOut(s, id, table).byNum;
  }

  lemma NothingDeleted(s: S.State, id: string)
    requires id !in s.arts
    ensures S.DeleteArticle(s, id) == s
  {
  }

  lemma TableShrinks(table: map<string, map<int, MemArt>>, filed: map<string, int>)
    ensures SmallerTable(TableWithout(table, filed, {}), table)
  {
  }

  /** The articles without a group, those filed nowhere else dropped, but for some that are left as they were. */
  ghost function ArtsWithout(as0: map<string, S.Art>, name: string, left: set<string>): map<string, S.Art> {
    map id | id in as0 && (id in left || !(name in as0[id].groups && as0[id].groups - {name} == map[])) ::
      if id in left then as0[id] else as0[id].(groups := as0[id].groups - {name})
  }

  lemma WithoutGroupNone(as0: map<string, S.Art>, name: string)
    ensures ArtsWithout(as0, name, as0.Keys) == as0
  {
  }

  lemma WithoutGroup(as0: map<string, S.Art>, name: string, left: set<string>, id: string)
    requires id in left && left <= as0.Keys
    ensures var now, next := ArtsWithout(as0, name, left), ArtsWithout(as0, name, left - {id});
            && id in now && now[id] == as0[id] && left <= now.Keys && left - {id} <= next.Keys
            && next == if name !in as0[id].groups then now
                       else if as0[id].groups - {name} == map[] then now[id := as0[id].(groups := map[])] - {id}
                       else now[id := as0[id].(groups := as0[id].groups - {name})]
  {
    if name !in as0[id].groups {
      assert as0[id].groups - {name} == as0[id].groups;
    }
  }

  lemma NoGroupToDelete(s: S.State, name: string)
    requires name !in s.groups
    ensures S.DeleteGroup(s, name) == s
  {
  }

  lemma WithoutGroupIs(s: S.State, name: string)
    requires name in s.groups
    ensures S.DeleteGroup(s, name) ==
              s.(arts := ArtsWithout(s.arts, name, {}), groups := s.groups - {name}, byNum := s.byNum - {name})
  {
  }

  lemma TableRemoved(table: map<string, map<int, MemArt>>, name: string)
    ensures TableView(table - {name}) == TableView(table) - {name}
  {
  }

  lemma TableAdded(table: map<string, map<int, MemArt>>, name: string)
    ensures TableView(table[name := map[]]) == TableView(table)[name := map[]]
  {
    assert RowView(map[]) == map[];
  }

  lemma LinkedGroupAdded(groups: map<string, MemGroup>, arts: map<string, MemArt>, table: map<string, map<int, MemArt>>,
                         name: string, g: MemGroup)
    requires LinkedTables(groups, arts, table) && g.name == name
    ensures LinkedTables(groups[name := g], arts, table[name := map[]])
  {
  }

  /** The articles in a group whose index now has these numbers only. */
  ghost function ArtsByRow(as0: map<string, S.Art>, g: string, row: set<int>): map<string, S.Art> {
    map id | id in as0 ::
      if g in as0[id].groups && as0[id].groups[g] !in row then as0[id].(groups := as0[id].groups - {g}) else as0[id]
  }

  /** A group's index and the articles agree. */
  ghost predicate FiledIn(as0: map<string, S.Art>, table: map<string, map<int, MemArt>>, g: string) {
    && g in table
    && (forall n | n in table[g] :: Filed1(as0, table[g][n].msgid, g, n))
    && (forall id, n | Filed1(as0, id, g, n) :: n in table[g] && table[g][n].msgid == id)
  }

  ghost predicate Filed1(as0: map<string, S.Art>, id: string, g: string, n: int) {
    id in as0 && g in as0[id].groups && as0[id].groups[g] == n
  }

  lemma FiledInPass(s: S.State, done: set<string>, now: S.Time, g: string, table: map<string, map<int, MemArt>>)
    requires TablesOk(s) && g in s.groups && g !in done
    requires TableView(table) == X.ExpireSome(s, done, now).byNum
    ensures FiledIn(X.ExpireSome(s, done, now).arts, table, g)
  {
    hide GroupOk, RowOk, S.ExpiredGroup, S.ExpiredRow, S.Old;
    var t := X.ExpireSome(s, done, now);
    X.ExpireSomeAt(s, done, now, g);
    forall n | n in table[g]
      ensures Filed1(t.arts, table[g][n].msgid, g, n)
    {
      assert Indexed(s, table[g][n].msgid, g, n);
      assert Files(s, table[g][n].msgid, g, n);
    }
    forall id, n | Filed1(t.arts, id, g, n)
      ensures n in table[g] && table[g][n].msgid == id
    {
      assert Files(s, id, g, n);
      assert Indexed(s, id, g, n);
    }
  }

  lemma ArtsByRowStart(as0: map<string, S.Art>, table: map<string, map<int, MemArt>>, g: string)
    requires FiledIn(as0, table, g)
    ensures ArtsByRow(as0, g, table[g].Keys) == as0
  {
    forall id | id in as0 && g in as0[id].groups
      ensures as0[id].groups[g] in table[g]
    {
      assert Filed1(as0, id, g, as0[id].groups[g]);
    }
  }

  /** Taking one number out of the index takes the group off its article only. */
  lemma ArtsByRowNext(as0: map<string, S.Art>, table: map<string, map<int, MemArt>>, g: string, row: set<int>, n: int)
    requires FiledIn(as0, table, g) && n in table[g] && n in row
    ensures var now, id := ArtsByRow(as0, g, row), table[g][n].msgid;
            id in now && ArtsByRow(as0, g, row - {n}) == now[id := now[id].(groups := now[id].groups - {g})]
  {
    var id := table[g][n].msgid;
    assert Filed1(as0, id, g, n);
    forall i | i in as0 && g in as0[i].groups && as0[i].groups[g] == n
      ensures i == id
    {
      assert Filed1(as0, i, g, n);
    }
  }

  lemma LinkedEntry(groups: map<string, MemGroup>, arts: map<string, MemArt>, table: map<string, map<int, MemArt>>, g: string, n: int)
    requires LinkedTables(groups, arts, table) && g in table && n in table[g]
    ensures table[g][n].msgid in arts && arts[table[g][n].msgid] == table[g][n]
  {
  }

  /** One step of keeping the numbers that stay, behind those kept so far. */
  lemma StayingStep(t: S.State, table: map<string, map<int, MemArt>>, groups: map<string, MemGroup>, arts: map<string, MemArt>,
                    g: string, nums: seq<int>, cutoff: S.Time, keep: seq<int>)
    requires LinkedTables(groups, arts, table) && g in table && nums != []
    requires t.arts.Keys == arts.Keys && forall id | id in arts :: t.arts[id].info == arts[id].info
    ensures var row := table[g];
            keep + S.Staying(t, RowView(row), nums, cutoff) ==
              (if nums[0] in row && !(row[nums[0]].info.storedAt < cutoff) then keep + [nums[0]] else keep)
              + S.Staying(t, RowView(row), nums[1..], cutoff)
  {
    var row, rest := table[g], S.Staying(t, RowView(table[g]), nums[1..], cutoff);
    assert keep + ([nums[0]] + rest) == (keep + [nums[0]]) + rest;
  }

  lemma StayingEmpty(t: S.State, row: map<int, string>, cutoff: S.Time)
    ensures S.Staying(t, row, [], cutoff) == []
  {
  }

  lemma InNums(g: S.Group, row: map<int, MemArt>, nums: seq<int>)
    requires RowOk(g, RowView(row)) && g.nums == nums
    ensures forall n | n in row :: n in nums
  {
    assert forall n | n in row :: n in RowView(row);
  }

  /** The first `i` numbers of a group were looked at. */
  ghost predicate RowAt(row0: map<int, MemArt>, row: map<int, MemArt>, nums: seq<int>, i: nat, cutoff: S.Time)
    requires i <= |nums|
  {
    && Smaller(row, row0)
    && (forall j | i <= j < |nums| && nums[j] in row0 :: nums[j] in row)
    && forall j | 0 <= j < i && nums[j] in row0 :: nums[j] in row <==> !(row0[nums[j]].info.storedAt < cutoff)
  }

  lemma RowAtStart(row0: map<int, MemArt>, nums: seq<int>, cutoff: S.Time)
    ensures RowAt(row0, row0, nums, 0, cutoff)
  {
  }

  lemma RowAtNext(row0: map<int, MemArt>, row: map<int, MemArt>, nums: seq<int>, i: nat, cutoff: S.Time)
    requires i < |nums| && Increasing(nums) && RowAt(row0, row, nums, i, cutoff)
    ensures nums[i] in row <==> nums[i] in row0
    ensures nums[i] in row ==> row[nums[i]] == row0[nums[i]]
    ensures RowAt(row0, if nums[i] in row && row[nums[i]].info.storedAt < cutoff then row - {nums[i]} else row, nums, i + 1, cutoff)
    ensures nums[i] in row ==> |row - {nums[i]}| == |row| - 1
  {
    if nums[i] in row {
      assert (row - {nums[i]}).Keys == row.Keys - {nums[i]};
      assert |(row - {nums[i]}).Keys| == |row - {nums[i]}| && |row.Keys| == |row|;
    }
  }

  lemma RowAtEnd(row0: map<int, MemArt>, row: map<int, MemArt>, nums: seq<int>, cutoff: S.Time)
    requires RowAt(row0, row, nums, |nums|, cutoff) && forall n | n in row0 :: n in nums
    ensures forall n | n in row0 :: n in row <==> !(row0[n].info.storedAt < cutoff)
  {
  }

  // ----- Unwanted articles -----

  /** The article is in one of the groups. */
  ghost predicate Hits(as0: map<string, S.Art>, id: string, names: set<string>) {
    id in as0 && as0[id].groups.Keys * names != {}
  }

  lemma HitsIsDoomed(s: S.State, names: set<string>, id: string)
    requires forall g :: g in names <==> P.Unwanted(s, g)
    ensures Hits(s.arts, id, names) <==> P.Doomed(s, id)
  {
    hide P.Unwanted;
    if Hits(s.arts, id, names) {
      var g :| g in s.arts[id].groups.Keys * names;
    }
    if P.Doomed(s, id) {
      var g :| g in s.arts[id].groups && P.Unwanted(s, g);
      assert g in s.arts[id].groups.Keys * names;
    }
  }

  lemma DoomedIs(s: S.State, names: set<string>, doomed: seq<string>, cross: set<string>)
    requires (forall g :: g in names <==> P.Unwanted(s, g)) && Distinct(doomed)
    requires forall id :: id in doomed <==> Hits(s.arts, id, names)
    requires forall g :: g in cross <==> exists id :: Hits(s.arts, id, names) && g in s.arts[id].groups && g !in names
    ensures P.ListsDoomed(s, doomed) && cross == P.CrosspostGroups(s)
    ensures forall id | id in doomed :: id in s.arts
  {
    hide P.Unwanted, P.Doomed;
    forall id
      ensures Hits(s.arts, id, names) <==> P.Doomed(s, id)
    {
      HitsIsDoomed(s, names, id);
    }
    hide Hits;
    forall g
      ensures g in cross <==> g in P.CrosspostGroups(s)
    {
    }
  }

  // ----- Alerts -----

  /** The first `i` groups were noted. */
  ghost predicate Noted(s: S.State, names: seq<string>, binary: bool, p: A.FloodParams, now: S.Time,
                        t: S.State, out: seq<string>, i: nat)
    requires i <= |names|
  {
    var rest := A.NoteAll(t, names[i..], binary, p, now);
    A.NoteAll(s, names, binary, p, now) == (rest.0, out + rest.1)
  }

  lemma NotedStart(s: S.State, names: seq<string>, binary: bool, p: A.FloodParams, now: S.Time)
    ensures Noted(s, names, binary, p, now, s, [], 0)
  {
    hide A.NoteAll;
    var rest := A.NoteAll(s, names, binary, p, now);
    assert names[0..] == names && [] + rest.1 == rest.1;
  }

  lemma NotedNext(s: S.State, names: seq<string>, binary: bool, p: A.FloodParams, now: S.Time,
                  t: S.State, out: seq<string>, i: nat)
    requires i < |names| && Noted(s, names, binary, p, now, t, out, i)
    ensures var r := A.NoteOne(t, TrimSpace(names[i]), binary, p, now);
            Noted(s, names, binary, p, now, r.0, out + r.1, i + 1)
  {
    hide A.NoteOne, TrimSpace;
    assert names[i..][0] == names[i] && names[i..][1..] == names[i + 1..];
    var r := A.NoteOne(t, TrimSpace(names[i]), binary, p, now);
    var rest := A.NoteAll(r.0, names[i + 1..], binary, p, now);
    assert out + (r.1 + rest.1) == (out + r.1) + rest.1;
  }

  lemma NotedEnd(s: S.State, names: seq<string>, binary: bool, p: A.FloodParams, now: S.Time, t: S.State, out: seq<string>)
    requires Noted(s, names, binary, p, now, t, out, |names|)
    ensures A.NoteAll(s, names, binary, p, now) == (t, out)
  {
    assert out + [] == out;
  }

  lemma ResolvedKeeps(s: S.State, id: int, action: A.Action)
    requires Inv(s) && A.AlertsOk(s)
    ensures var s' := A.ResolveAlert(s, id, action); Inv(s') && A.AlertsOk(s')
  {
    hide Inv, A.AlertsOk, A.ResolveAlert, A.SameTables;
    A.ResolveKeeps(s, id, action);
    A.SameTablesKeeps(s, A.ResolveAlert(s, id, action));
  }

  // ----- Claiming and failing -----

  /** The first `i` entries were looked at. */
  ghost predicate Claimed(q0: seq<S.FeedItem>, limit: int, now: S.Time, head: seq<S.FeedItem>, out: seq<S.FeedItem>, i: nat)
    requires i <= |q0|
  {
    var r := S.ClaimItems(q0[i..], limit - |out|, now);
    S.ClaimItems(q0, limit, now) == (head + r.0, out + r.1)
  }

  lemma ClaimedNext(q0: seq<S.FeedItem>, limit: int, now: S.Time, head: seq<S.FeedItem>, out: seq<S.FeedItem>, i: nat)
    requires i < |q0| && Claimed(q0, limit, now, head, out, i) && |out| < limit
    ensures S.Due(q0[i], now) ==> Claimed(q0, limit, now, head + [S.Leased(q0[i], now)], out + [S.Leased(q0[i], now)], i + 1)
    ensures !S.Due(q0[i], now) ==> Claimed(q0, limit, now, head + [q0[i]], out, i + 1)
  {
    hide S.Leased, S.Due;
    assert q0[i..][0] == q0[i] && q0[i..][1..] == q0[i + 1..];
    var taken := S.Leased(q0[i], now);
    var r := S.ClaimItems(q0[i + 1..], limit - |out| - 1, now);
    assert head + ([taken] + r.0) == (head + [taken]) + r.0 && out + ([taken] + r.1) == (out + [taken]) + r.1;
    var k := S.ClaimItems(q0[i + 1..], limit - |out|, now);
    assert head + ([q0[i]] + k.0) == (head + [q0[i]]) + k.0;
  }

  lemma ClaimedStart(q0: seq<S.FeedItem>, limit: int, now: S.Time)
    ensures Claimed(q0, limit, now, q0[..0], [], 0)
  {
    hide S.ClaimItems;
    var r := S.ClaimItems(q0, limit, now);
    assert q0[0..] == q0 && q0[..0] + r.0 == r.0 && [] + r.1 == r.1;
  }

  lemma ClaimedEnd(q0: seq<S.FeedItem>, limit: int, now: S.Time, head: seq<S.FeedItem>, out: seq<S.FeedItem>, i: nat)
    requires i <= |q0| && Claimed(q0, limit, now, head, out, i) && (i == |q0| || |out| >= limit)
    ensures S.ClaimItems(q0, limit, now) == (head + q0[i..], out)
  {
    assert S.ClaimItems(q0[i..], limit - |out|, now) == (q0[i..], []);
    assert out + [] == out;
  }

  lemma {:induction false} FailedAt(queue: seq<S.FeedItem>, i: nat, id: int, err: string, next: S.Time)
    requires i < |queue| && queue[i].id == id && forall j | 0 <= j < i :: queue[j].id != id
    ensures S.FailItem(queue, id, err, next) == queue[i := queue[i].(lastError := err, nextAttempt := next)]
  {
    if i > 0 {
      FailedAt(queue[1..], i - 1, id, err, next);
    }
  }

  lemma {:induction false} FailedNowhere(queue: seq<S.FeedItem>, id: int, err: string, next: S.Time)
    requires forall j | 0 <= j < |queue| :: queue[j].id != id
    ensures S.FailItem(queue, id, err, next) == queue
  {
    if queue != [] {
      FailedNowhere(queue[1..], id, err, next);
    }
  }

  // ----- An expiry pass -----

  /** The articles that are filed somewhere, or still to be looked at. */
  ghost function FiledOrLeft(as0: map<string, S.Art>, left: set<string>): map<string, S.Art> {
    map id | id in as0 && (id in left || as0[id].groups != map[]) :: as0[id]
  }

  lemma FiledOrLeftAll(as0: map<string, S.Art>)
    ensures FiledOrLeft(as0, as0.Keys) == as0
  {
  }

  lemma FiledOrLeftNone(as0: map<string, S.Art>)
    ensures FiledOrLeft(as0, {}) == X.FiledArts(as0)
  {
  }

  lemma FiledOrLeftOne(as0: map<string, S.Art>, left: set<string>, id: string)
    requires id in left && left <= as0.Keys
    ensures var now, next := FiledOrLeft(as0, left), FiledOrLeft(as0, left - {id});
            && id in now && now[id] == as0[id] && (next == if as0[id].groups == map[] then now - {id} else now)
            && |now - {id}| == |now| - 1
  {
    RemoveSize(FiledOrLeft(as0, left), id);
  }

  lemma RemoveSize<K, V>(m: map<K, V>, k: K)
    requires k in m
    ensures |m - {k}| == |m| - 1
  {
    assert (m - {k}).Keys == m.Keys - {k};
    assert |(m - {k}).Keys| == |m - {k}| && |m.Keys| == |m|;
  }

  /** The IDs that are not forgotten, or still to be looked at. */
  ghost function KnownOrLeft(h: map<string, S.Time>, stored: set<string>, left: set<string>, now: S.Time, historyDays: int): map<string, S.Time> {
    map id | id in h && (id in left || !X.OldId(h, stored, id, now, historyDays)) :: h[id]
  }

  lemma KnownOrLeftAll(h: map<string, S.Time>, stored: set<string>, now: S.Time, historyDays: int)
    ensures KnownOrLeft(h, stored, h.Keys, now, historyDays) == h
  {
    hide X.OldId;
  }

  lemma KnownOrLeftNone(h: map<string, S.Time>, stored: set<string>, now: S.Time, historyDays: int)
    ensures KnownOrLeft(h, stored, {}, now, historyDays) == X.Known(h, stored, now, historyDays)
  {
    hide X.OldId;
  }

  lemma KnownOrLeftOne(h: map<string, S.Time>, stored: set<string>, left: set<string>, id: string, now: S.Time, historyDays: int)
    requires id in left && left <= h.Keys && historyDays > 0
    ensures var was, next := KnownOrLeft(h, stored, left, now, historyDays), KnownOrLeft(h, stored, left - {id}, now, historyDays);
            && id in was && was[id] == h[id] && |was - {id}| == |was| - 1
            && next == (if h[id] < now - historyDays * S.DAY && id !in stored then was - {id} else was)
            && left <= was.Keys && left - {id} <= next.Keys
  {
    RemoveSize(KnownOrLeft(h, stored, left, now, historyDays), id);
    var was, next := KnownOrLeft(h, stored, left, now, historyDays), KnownOrLeft(h, stored, left - {id}, now, historyDays);
    assert X.OldId(h, stored, id, now, historyDays) == (h[id] < now - historyDays * S.DAY && id !in stored);
    hide X.OldId;
    assert next == if X.OldId(h, stored, id, now, historyDays) then was - {id} else was;
  }

  lemma RenumberedSame(a: S.Group, b: S.Group, keep: seq<int>)
    requires a == b.(count := a.count)
    ensures S.Renumbered(a, keep) == S.Renumbered(b, keep)
  {
  }

  lemma RowsOfPass(s: S.State, done: set<string>, now: S.Time, g: string, table: map<string, map<int, MemArt>>)
    requires TablesOk(s) && g in s.groups && g !in done && TableView(table) == X.ExpireSome(s, done, now).byNum
    ensures var t := X.ExpireSome(s, done, now);
            && g in table && g in s.byNum && RowView(table[g]) == s.byNum[g] == t.byNum[g]
            && t.arts.Keys == s.arts.Keys && forall id | id in s.arts :: t.arts[id].info == s.arts[id].info
  {
    hide GroupOk, RowOk, FiledOk;
    X.ExpireSomeAt(s, done, now, g);
  }

  lemma TableSet(table: map<string, map<int, MemArt>>, g: string, row: map<int, MemArt>)
    requires g in table
    ensures TableView(table[g := row]) == TableView(table)[g := RowView(row)]
    ensures TableView(table).Keys == table.Keys && TableView(table)[g] == RowView(table[g])
  {
    hide RowView;
  }

  lemma RowSize(row: map<int, MemArt>)
    ensures |RowView(row)| == |row| && RowView(row).Keys == row.Keys
  {
    assert RowView(row).Keys == row.Keys;
    assert |RowView(row).Keys| == |RowView(row)| && |row.Keys| == |row|;
  }

  lemma RowCount(table0: map<string, map<int, MemArt>>, index0: map<string, map<int, string>>, g: string, row: map<int, MemArt>)
    requires g in table0 && index0 == TableView(table0) && Smaller(row, table0[g])
    ensures |table0[g]| - |row| == |X.Pairs(index0)| - |X.Pairs(TableView(table0[g := row]))|
  {
    hide RowView, TableView, X.Pairs;
    TableSet(table0, g, row);
    RowSize(row);
    RowSize(table0[g]);
    X.PairsShrink(index0, g, RowView(row));
  }

  lemma ExpiredRowIs(s: S.State, groups: map<string, MemGroup>, arts: map<string, MemArt>, table0: map<string, map<int, MemArt>>,
                     g: string, row: map<int, MemArt>, now: S.Time, cutoff: S.Time)
    requires LinkedTables(groups, arts, table0) && g in table0 && g in s.groups && g in s.byNum
    requires s.byNum[g] == RowView(table0[g]) && Smaller(row, table0[g]) && S.Cutoff(s.groups[g], now) == Some(cutoff)
    requires s.arts.Keys == arts.Keys && forall id | id in arts :: s.arts[id].info == arts[id].info
    requires forall n | n in table0[g] :: n in row <==> !(table0[g][n].info.storedAt < cutoff)
    ensures RowView(row) == S.ExpiredRow(s, g, now)
  {
    hide LinkedTables, S.Cutoff;
    var expired := S.ExpiredRow(s, g, now);
    forall n | n in table0[g]
      ensures n in row <==> n in expired
      ensures n in row ==> RowView(row)[n] == expired[n]
    {
      LinkedEntry(groups, arts, table0, g, n);
    }
    assert RowView(row) == expired;
  }

  lemma ExpiredGroupIs(s: S.State, t: S.State, g: string, now: S.Time, cutoff: S.Time)
    requires g in s.groups && g in s.byNum && S.Cutoff(s.groups[g], now) == Some(cutoff)
    requires t.arts.Keys == s.arts.Keys && forall id | id in s.arts :: t.arts[id].info == s.arts[id].info
    ensures S.ExpiredGroup(s, g, now)
         == S.Renumbered(s.groups[g], S.Staying(t, s.byNum[g], s.groups[g].nums, cutoff))
  {
    StayingSame(s, t, s.byNum[g], s.groups[g].nums, cutoff);
  }

  lemma {:induction false} StayingSame(s: S.State, t: S.State, row: map<int, string>, nums: seq<int>, cutoff: S.Time)
    requires t.arts.Keys == s.arts.Keys && forall id | id in s.arts :: t.arts[id].info == s.arts[id].info
    ensures S.Staying(t, row, nums, cutoff) == S.Staying(s, row, nums, cutoff)
  {
    if nums != [] {
      StayingSame(s, t, row, nums[1..], cutoff);
    }
  }

  /** Taking the old numbers out of a group's index takes the group off the articles from before the cutoff. */
  lemma ArtsExpired(as0: map<string, S.Art>, groups: map<string, MemGroup>, arts: map<string, MemArt>,
                    table0: map<string, map<int, MemArt>>, g: string, row: map<int, MemArt>, cutoff: S.Time)
    requires LinkedTables(groups, arts, table0) && FiledIn(as0, table0, g)
    requires as0.Keys == arts.Keys && forall id | id in arts :: as0[id].info == arts[id].info
    requires forall n | n in table0[g] :: n in row <==> !(table0[g][n].info.storedAt < cutoff)
    ensures var now := ArtsByRow(as0, g, row.Keys);
            now.Keys == as0.Keys && forall id | id in as0 :: now[id] == X.WithoutExpired(as0[id], g, cutoff)
  {
    forall id | id in as0
      ensures ArtsByRow(as0, g, row.Keys)[id] == X.WithoutExpired(as0[id], g, cutoff)
    {
      if g in as0[id].groups {
        assert Filed1(as0, id, g, as0[id].groups[g]);
        LinkedEntry(groups, arts, table0, g, as0[id].groups[g]);
      } else {
        assert as0[id].groups - {g} == as0[id].groups;
      }
    }
  }

  lemma SameArts(a: map<string, S.Art>, b: map<string, S.Art>)
    requires a.Keys == b.Keys && forall id | id in a :: a[id] == b[id]
    ensures a == b
  {
  }

  lemma LinkedRow(groups: map<string, MemGroup>, arts: map<string, MemArt>, table: map<string, map<int, MemArt>>,
                  g: string, row: map<int, MemArt>)
    requires LinkedTables(groups, arts, table) && g in table && Smaller(row, table[g])
    ensures LinkedTables(groups, arts, table[g := row])
  {
  }

  lemma FiledGroups(s: S.State, id: string)
    requires Inv(s) && id in s.arts
    ensures s.arts[id].groups.Keys <= s.groups.Keys
  {
    forall g | g in s.arts[id].groups
      ensures g in s.groups
    {
      assert Files(s, id, g, s.arts[id].groups[g]);
    }
  }

  lemma StoredInHistory(s: S.State)
    requires Inv(s)
    ensures forall id | id in s.arts :: id in s.history
  {
  }

  ghost predicate Smaller<K, V>(m': map<K, V>, m: map<K, V>) {
    forall k | k in m' :: k in m && m'[k] == m[k]
  }

  ghost predicate SmallerTable(table': map<string, map<int, MemArt>>, table: map<string, map<int, MemArt>>) {
    forall g | g in table' :: g in table && Smaller(table'[g], table[g])
  }

  lemma SmallerWithout(table: map<string, map<int, MemArt>>, groups: map<string, MemGroup>, name: string)
    ensures SmallerTable(table - {name}, table) && Smaller(groups - {name}, groups)
    ensures SmallerTable(table, table) && Smaller(groups, groups)
  {
  }

  /** Smaller tables stay linked as long as the index lists stored articles only. */
  lemma LinkedShrinks(groups: map<string, MemGroup>, arts: map<string, MemArt>, table: map<string, map<int, MemArt>>,
                      groups': map<string, MemGroup>, arts': map<string, MemArt>, table': map<string, map<int, MemArt>>,
                      s': S.State)
    requires LinkedTables(groups, arts, table) && Inv(s')
    requires s'.arts.Keys == arts'.Keys && s'.byNum == TableView(table')
    requires Smaller(groups', groups) && Smaller(arts', arts) && SmallerTable(table', table)
    ensures LinkedTables(groups', arts', table')
  {
    forall g, n | g in table' && n in table'[g]
      ensures table'[g][n].msgid in arts'
    {
      assert Indexed(s', table'[g][n].msgid, g, n);
    }
  }

  lemma RowsExist(s: S.State)
    requires Inv(s)
    ensures s.byNum.Keys == s.groups.Keys
  {
  }

  lemma FileAllStep(f: S.Filing, used: seq<string>, id: string)
    requires used != [] && forall g | g in used :: g in f.groups
    ensures S.FileAll(f, used, id) == S.FileAll(S.FileOne(f, used[0], id), used[1..], id)
  {
  }

  lemma FileOneIs(f: S.Filing, g: string, id: string, n: int)
    requires g in f.groups && g in f.byNum && n == f.groups[g].high + 1
    ensures S.FileOne(f, g, id)
         == S.Filing(f.groups[g := S.Bump(f.groups[g])], f.byNum[g := f.byNum[g][n := id]], f.numbers[g := n],
                     f.parts + [g + ":" + Decimal.Format(n)])
  {
  }

  lemma FileAllDone(f: S.Filing, id: string)
    ensures S.FileAll(f, [], id) == f
  {
  }
}
