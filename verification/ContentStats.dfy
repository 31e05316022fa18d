/** Content statistics: how many text and binary articles each group got, on each day and in total, how many each
    poster wrote, and how many came by way of each site. Every update adds to several tables at once; the totals stay
    the sums of the days. */
module ContentStats {
  import opened Text
  import opened Seqs
  import opened StoreInvariant
  import opened Memory
  import S = StoreState

  // ----- Tables -----

  datatype Counts = Counts(text: int, bin: int) {
    function Of(binary: bool): int {
      if binary then bin else text
    }

    /** One more article. */
    function More(binary: bool): Counts {
      if binary then Counts(text, bin + 1) else Counts(text + 1, bin)
    }
  }

  type GroupTable = map<string, Counts>
  type PosterTable = map<string, int>

  function At(t: GroupTable, g: string): Counts {
    if g in t then t[g] else Counts(0, 0)
  }

  function PosterAt(t: PosterTable, key: string): int {
    if key in t then t[key] else 0
  }

  function DayTable<V>(days: map<int, map<string, V>>, day: int): map<string, V> {
    if day in days then days[day] else map[]
  }

  /** The UTC day of a time. */
  function DayOf(at: S.Time): int {
    at / S.DAY
  }

  /** Posters are told apart by their From field without case and outer white space. */
  function PosterKey(from: string): string {
    ToLower(TrimSpace(from))
  }

  // ----- The sites of a Path -----

  const NO_SITE := "not-for-mail"

  /** What is not counted as a site, in lower case. */
  function ExcludedKeys(exclude: seq<string>): set<string> {
    if exclude == [] then {NO_SITE}
    else
      var key := ToLower(TrimSpace(exclude[0]));
      (if key == "" then {} else {key}) + ExcludedKeys(exclude[1..])
  }

  /** The hops that are sites, in the spelling that comes first. */
  function SiteHops(hops: seq<string>, skip: set<string>): seq<string> {
    if hops == [] then []
    else
      var hop := TrimSpace(hops[0]);
      if hop == "" || ToLower(hop) in skip then SiteHops(hops[1..], skip)
      else [hop] + SiteHops(hops[1..], skip + {ToLower(hop)})
  }

  function StatSites(path: string, exclude: seq<string>): seq<string> {
    SiteHops(Split(path, '!'), ExcludedKeys(exclude))
  }

  ghost predicate IsHop(hops: seq<string>, site: string) {
    exists k :: 0 <= k < |hops| && TrimSpace(hops[k]) == site
  }

  ghost predicate HasKey(names: seq<string>, key: string) {
    exists k :: 0 <= k < |names| && TrimSpace(names[k]) != "" && ToLower(TrimSpace(names[k])) == key
  }

  /** Hops, nonblank and not to be skipped, each once in any case. */
  ghost predicate HopsOnce(sites: seq<string>, hops: seq<string>, skip: set<string>) {
    && (forall i, j | 0 <= i < j < |sites| :: ToLower(sites[i]) != ToLower(sites[j]))
    && (forall i | 0 <= i < |sites| :: ToLower(sites[i]) !in skip && sites[i] != "" && IsHop(hops, sites[i]))
  }

  lemma {:induction false} SiteHopsOnce(hops: seq<string>, skip: set<string>)
    ensures HopsOnce(SiteHops(hops, skip), hops, skip)
    decreases |hops|
  {
    hide TrimSpace, ToLower;
    if hops != [] {
      var hop, rest := TrimSpace(hops[0]), hops[1..];
      var skips := hop == "" || ToLower(hop) in skip;
      var skip' := if skips then skip else skip + {ToLower(hop)};
      var more := SiteHops(rest, skip');
      SiteHopsOnce(rest, skip');
      forall i | 0 <= i < |more|
        ensures IsHop(hops, more[i])
      {
        assert IsHop(rest, more[i]);
        var k :| 0 <= k < |rest| && TrimSpace(rest[k]) == more[i];
        assert hops[k + 1] == rest[k];
      }
      assert IsHop(hops, hop);
    }
  }

  /** No other hop is left out. */
  lemma {:induction false} SiteHopsAll(hops: seq<string>, skip: set<string>, i: nat)
    requires i < |hops| && TrimSpace(hops[i]) != "" && ToLower(TrimSpace(hops[i])) !in skip
    ensures exists k :: 0 <= k < |SiteHops(hops, skip)| && ToLower(SiteHops(hops, skip)[k]) == ToLower(TrimSpace(hops[i]))
    decreases |hops|
  {
    hide TrimSpace, ToLower;
    var hop, rest := TrimSpace(hops[0]), hops[1..];
    var sites := SiteHops(hops, skip);
    if hop == "" || ToLower(hop) in skip {
      SiteHopsAll(rest, skip, i - 1);
    } else if ToLower(TrimSpace(hops[i])) == ToLower(hop) {
      assert sites[0] == hop;
    } else {
      var skip' := skip + {ToLower(hop)};
      SiteHopsAll(rest, skip', i - 1);
      var more := SiteHops(rest, skip');
      var k :| 0 <= k < |more| && ToLower(more[k]) == ToLower(TrimSpace(hops[i]));
      assert sites[k + 1] == more[k];
    }
  }

  /** The sites of a Path are hops of it, each once in any case: exactly those that are not blank, not among the
      names left out, and not the mark of the Path's end. */
  lemma StatSitesAre(path: string, exclude: seq<string>)
    ensures HopsOnce(StatSites(path, exclude), Split(path, '!'), ExcludedKeys(exclude))
    ensures forall key :: (exists k :: 0 <= k < |StatSites(path, exclude)| && ToLower(StatSites(path, exclude)[k]) == key)
                     <==> HasKey(Split(path, '!'), key) && key != NO_SITE && !HasKey(exclude, key)
  {
    hide TrimSpace, ToLower, Split, SiteHops;
    var hops, skip, sites := Split(path, '!'), ExcludedKeys(exclude), StatSites(path, exclude);
    SiteHopsOnce(hops, skip);
    forall key
      ensures (exists k :: 0 <= k < |sites| && ToLower(sites[k]) == key)
         <==> HasKey(hops, key) && key != NO_SITE && !HasKey(exclude, key)
    {
      LeftOut(exclude, key);
      if k :| 0 <= k < |sites| && ToLower(sites[k]) == key {
        assert IsHop(hops, sites[k]);
        var i :| 0 <= i < |hops| && TrimSpace(hops[i]) == sites[k];
      }
      if HasKey(hops, key) && key !in skip {
        var i :| 0 <= i < |hops| && TrimSpace(hops[i]) != "" && ToLower(TrimSpace(hops[i])) == key;
        SiteHopsAll(hops, skip, i);
      }
    }
  }

  lemma {:induction false} LeftOut(exclude: seq<string>, key: string)
    ensures key in ExcludedKeys(exclude) <==> key == NO_SITE || HasKey(exclude, key)
  {
    hide TrimSpace;
    if exclude != [] {
      LeftOut(exclude[1..], key);
      if HasKey(exclude[1..], key) {
        var k :| 0 <= k < |exclude[1..]| && TrimSpace(exclude[1..][k]) != "" && ToLower(TrimSpace(exclude[1..][k])) == key;
        assert exclude[k + 1] == exclude[1..][k];
      }
      if HasKey(exclude, key) {
        var k :| 0 <= k < |exclude| && TrimSpace(exclude[k]) != "" && ToLower(TrimSpace(exclude[k])) == key;
        assert k > 0 ==> exclude[1..][k - 1] == exclude[k];
      }
    }
  }

  lemma SitesDistinct(path: string, exclude: seq<string>)
    ensures Distinct(StatSites(path, exclude))
  {
    hide ToLower, TrimSpace, Split, SiteHops;
    SiteHopsOnce(Split(path, '!'), ExcludedKeys(exclude));
  }

  method PathStatSites(path: string, exclude: seq<string>) returns (out: seq<string>)
    ensures out == StatSites(path, exclude)
  {
    hide TrimSpace, ToLower, Split;
    var ex: set<string> := {};
    assert exclude[0..] == exclude;
    for i := 0 to |exclude|
      invariant ex + ExcludedKeys(exclude[i..]) == ExcludedKeys(exclude)
    {
      assert exclude[i..][1..] == exclude[i + 1..];
      var e := ToLower(TrimSpace(exclude[i]));
      if e != "" {
        ex := ex + {e};
      }
    }
    ex := ex + {NO_SITE};
    out := [];
    var seen := {};
    var hops := Split(path, '!');
    assert hops[0..] == hops && ex + seen == ex && out + SiteHops(hops, ex) == SiteHops(hops, ex);
    for i := 0 to |hops|
      invariant out + SiteHops(hops[i..], ex + seen) == SiteHops(hops, ex)
    {
      assert hops[i..][1..] == hops[i + 1..];
      var hop := TrimSpace(hops[i]);
      if hop == "" {
        continue;
      }
      var key := ToLower(hop);
      if key in ex {
        continue;
      }
      if key in seen {
        continue;
      }
      assert ex + (seen + {key}) == ex + seen + {key};
      seen := seen + {key};
      out := out + [hop];
    }
  }

  /** strings.TrimRight for carriage returns. */
  function TrimCRs(line: string): string {
    if line != "" && line[|line| - 1] == '\r' then TrimCRs(line[..|line| - 1]) else line
  }

  const PATH_FIELD := "Path:"

  function PathLine(lines: seq<string>): string {
    if lines == [] then ""
    else
      var line := TrimCRs(lines[0]);
      if |line| >= |PATH_FIELD| && EqualFold(line[..|PATH_FIELD|], PATH_FIELD) then TrimSpace(line[|PATH_FIELD|..])
      else PathLine(lines[1..])
  }

  /** The Path in the text of a header block. */
  function PathOf(headers: string): string {
    PathLine(Split(headers, '\n'))
  }

  method PathFromHeaders(headers: string) returns (path: string)
    ensures path == PathOf(headers)
  {
    hide TrimCRs, TrimSpace, EqualFold, Split;
    var lines := Split(headers, '\n');
    assert lines[0..] == lines;
    for i := 0 to |lines|
      invariant PathLine(lines[i..]) == PathLine(lines)
    {
      assert lines[i..][1..] == lines[i + 1..];
      var line := TrimCRs(lines[i]);
      if |line| >= |PATH_FIELD| && EqualFold(line[..|PATH_FIELD|], PATH_FIELD) {
        return TrimSpace(line[|PATH_FIELD|..]);
      }
    }
    return "";
  }

  // ----- What the tables say -----

  ghost function Sum<D>(days: set<D>, f: D -> int): int {
    if days == {} then 0
    else
      var d :| d in days;
      f(d) + Sum(days - {d}, f)
  }

  /** Any day may be counted first. */
  lemma {:induction false} SumSplit<D>(days: set<D>, f: D -> int, e: D)
    requires e in days
    ensures Sum(days, f) == f(e) + Sum(days - {e}, f)
    decreases |days|
  {
    var d :| d in days && Sum(days, f) == f(d) + Sum(days - {d}, f);
    if d != e {
      SumSplit(days - {d}, f, e);
      SumSplit(days - {e}, f, d);
      assert days - {d} - {e} == days - {e} - {d};
    }
  }

  lemma {:induction false} SumSame<D>(days: set<D>, f: D -> int, h: D -> int)
    requires forall d | d in days :: f(d) == h(d)
    ensures Sum(days, f) == Sum(days, h)
    decreases |days|
  {
    if days != {} {
      var d :| d in days;
      SumSplit(days, f, d);
      SumSplit(days, h, d);
      SumSame(days - {d}, f, h);
    }
  }

  /** Changing what is counted on one day changes the sum by the difference, also when the day is new. */
  lemma SumChange<D>(days: set<D>, f: D -> int, h: D -> int, day: D)
    requires forall d | d in days && d != day :: f(d) == h(d)
    requires day in days || f(day) == 0
    ensures Sum(days + {day}, h) == Sum(days, f) + h(day) - f(day)
  {
    SumSplit(days + {day}, h, day);
    assert days + {day} - {day} == days - {day};
    SumSame(days - {day}, f, h);
    if day in days {
      SumSplit(days, f, day);
    } else {
      assert days - {day} == days;
    }
  }

  /** The tables. */
  datatype Tables = Tables(days: map<int, GroupTable>, total: GroupTable, posters: map<int, PosterTable>, sites: map<int, PosterTable>)

  const NONE := Tables(map[], map[], map[], map[])

  /** What one can ask: a group's total, its sum over the days, its count on a day; a poster's or a
      site's sum and count on a day. */
  datatype Query =
    | InGroup(g: string, binary: bool)
    | InGroupSum(g: string, binary: bool)
    | InGroupOn(day: int, g: string, binary: bool)
    | By(key: string)
    | ByOn(day: int, key: string)
    | Via(site: string)
    | ViaOn(day: int, site: string)

  ghost function Cell(t: Tables, g: string, binary: bool): int -> int {
    d => At(DayTable(t.days, d), g).Of(binary)
  }

  ghost function PosterCell(t: Tables, key: string): int -> int {
    d => PosterAt(DayTable(t.posters, d), key)
  }

  ghost function SiteCell(t: Tables, site: string): int -> int {
    d => PosterAt(DayTable(t.sites, d), site)
  }

  ghost function Tally(t: Tables, q: Query): int {
    match q
    case InGroup(g, binary) => At(t.total, g).Of(binary)
    case InGroupSum(g, binary) => Sum(t.days.Keys, Cell(t, g, binary))
    case InGroupOn(day, g, binary) => Cell(t, g, binary)(day)
    case By(key) => Sum(t.posters.Keys, PosterCell(t, key))
    case ByOn(day, key) => PosterCell(t, key)(day)
    case Via(site) => Sum(t.sites.Keys, SiteCell(t, site))
    case ViaOn(day, site) => SiteCell(t, site)(day)
  }

  // ----- Counting one thing -----

  function Hit(q: Query, day: int, g: string, binary: bool): int {
    match q
    case InGroup(h, b) => if h == g && b == binary then 1 else 0
    case InGroupSum(h, b) => if h == g && b == binary then 1 else 0
    case InGroupOn(d, h, b) => if d == day && h == g && b == binary then 1 else 0
    case _ => 0
  }

  function PosterHit(q: Query, day: int, from: string): int {
    match q
    case By(k) => if k == PosterKey(from) && k != "" then 1 else 0
    case ByOn(d, k) => if d == day && k == PosterKey(from) && k != "" then 1 else 0
    case _ => 0
  }

  function SiteHit(q: Query, day: int, site: string): int {
    match q
    case Via(v) => if v == site then 1 else 0
    case ViaOn(d, v) => if d == day && v == site then 1 else 0
    case _ => 0
  }

  function SitesHits(q: Query, day: int, sites: seq<string>): int {
    if sites == [] then 0 else SiteHit(q, day, sites[0]) + SitesHits(q, day, sites[1..])
  }

  function Opened(t: Tables, day: int): Tables {
    if day in t.days then t else t.(days := t.days[day := map[]])
  }

  function GroupCounted(t: Tables, day: int, g: string, binary: bool): Tables {
    var table := DayTable(t.days, day);
    t.(days := t.days[day := table[g := At(table, g).More(binary)]], total := t.total[g := At(t.total, g).More(binary)])
  }

  function PosterCounted(t: Tables, day: int, from: string): Tables {
    var key, table := PosterKey(from), DayTable(t.posters, day);
    if key == "" then t else t.(posters := t.posters[day := table[key := PosterAt(table, key) + 1]])
  }

  function SitesOpened(t: Tables, day: int): Tables {
    if day in t.sites then t else t.(sites := t.sites[day := map[]])
  }

  function SiteCounted(t: Tables, day: int, site: string): Tables {
    var table := DayTable(t.sites, day);
    t.(sites := t.sites[day := table[site := PosterAt(table, site) + 1]])
  }

  lemma SitesOpenedTally(t: Tables, day: int, q: Query)
    ensures Tally(SitesOpened(t, day), q) == Tally(t, q)
  {
    var t' := SitesOpened(t, day);
    if q.Via? && day !in t.sites {
      SumChange(t.sites.Keys, SiteCell(t, q.site), SiteCell(t', q.site), day);
      assert t'.sites.Keys == t.sites.Keys + {day};
    }
  }

  lemma SiteTally(t: Tables, day: int, site: string, q: Query)
    ensures Tally(SiteCounted(t, day, site), q) == Tally(t, q) + SiteHit(q, day, site)
  {
    var t' := SiteCounted(t, day, site);
    if q.Via? {
      SumChange(t.sites.Keys, SiteCell(t, q.site), SiteCell(t', q.site), day);
      assert t'.sites.Keys == t.sites.Keys + {day};
    }
  }

  lemma {:induction false} SitesHitsSnoc(q: Query, day: int, sites: seq<string>, i: nat)
    requires i < |sites|
    ensures SitesHits(q, day, sites[..i + 1]) == SitesHits(q, day, sites[..i]) + SiteHit(q, day, sites[i])
  {
    hide SiteHit;
    if i > 0 {
      SitesHitsSnoc(q, day, sites[1..], i - 1);
      assert sites[..i + 1][1..] == sites[1..][..i] && sites[..i][1..] == sites[1..][..i - 1];
    } else {
      assert sites[..1][1..] == [] && sites[..0] == [];
    }
  }

  /** Sites that are listed once each count once each. */
  lemma {:induction false} SitesHitsAre(q: Query, day: int, sites: seq<string>)
    requires Distinct(sites)
    ensures SitesHits(q, day, sites) ==
              if (q.Via? && q.site in sites) || (q.ViaOn? && q.day == day && q.site in sites) then 1 else 0
  {
    if sites != [] {
      DistinctTail(sites);
      SitesHitsAre(q, day, sites[1..]);
      hide Distinct;
      assert forall v :: v in sites <==> v == sites[0] || v in sites[1..];
    }
  }

  lemma OpenedTally(t: Tables, day: int, q: Query)
    ensures Tally(Opened(t, day), q) == Tally(t, q)
  {
    var t' := Opened(t, day);
    if q.InGroupSum? && day !in t.days {
      SumChange(t.days.Keys, Cell(t, q.g, q.binary), Cell(t', q.g, q.binary), day);
      assert t'.days.Keys == t.days.Keys + {day};
    }
  }

  /** Counting an article in a group moves exactly that group's counts: the total, the sum, and the day's. */
  lemma GroupTally(t: Tables, day: int, g: string, binary: bool, q: Query)
    ensures Tally(GroupCounted(t, day, g, binary), q) == Tally(t, q) + Hit(q, day, g, binary)
  {
    var t' := GroupCounted(t, day, g, binary);
    if q.InGroupSum? {
      SumChange(t.days.Keys, Cell(t, q.g, q.binary), Cell(t', q.g, q.binary), day);
      assert t'.days.Keys == t.days.Keys + {day};
    }
  }

  lemma PosterTally(t: Tables, day: int, from: string, q: Query)
    ensures Tally(PosterCounted(t, day, from), q) == Tally(t, q) + PosterHit(q, day, from)
  {
    hide PosterKey;
    var t' := PosterCounted(t, day, from);
    if q.By? && PosterKey(from) != "" {
      SumChange(t.posters.Keys, PosterCell(t, q.key), PosterCell(t', q.key), day);
      assert t'.posters.Keys == t.posters.Keys + {day};
    }
  }

  // ----- Recording an article -----

  /** How often an article counts for a query: once for each time a group is named, once for its poster. */
  function NamesHits(q: Query, day: int, names: seq<string>, binary: bool): int {
    if names == [] then 0
    else
      (if TrimSpace(names[0]) == "" then 0 else Hit(q, day, TrimSpace(names[0]), binary))
      + NamesHits(q, day, names[1..], binary)
  }

  lemma {:induction false} NamesHitsSnoc(q: Query, day: int, names: seq<string>, binary: bool, i: nat)
    requires i < |names|
    ensures NamesHits(q, day, names[..i + 1], binary) ==
              NamesHits(q, day, names[..i], binary)
              + if TrimSpace(names[i]) == "" then 0 else Hit(q, day, TrimSpace(names[i]), binary)
  {
    hide TrimSpace;
    if i > 0 {
      NamesHitsSnoc(q, day, names[1..], binary, i - 1);
      assert names[..i + 1][1..] == names[1..][..i] && names[..i][1..] == names[1..][..i - 1];
    } else {
      assert names[..1][1..] == [] && names[..0] == [];
    }
  }

  lemma {:induction false} TotalAndSumAlike(day: int, names: seq<string>, binary: bool, g: string, b: bool)
    ensures NamesHits(InGroup(g, b), day, names, binary) == NamesHits(InGroupSum(g, b), day, names, binary)
  {
    if names != [] {
      TotalAndSumAlike(day, names[1..], binary, g, b);
    }
  }

  /** Every total is the sum of its days. */
  ghost predicate Balanced(t: Tables) {
    forall g, binary :: Tally(t, InGroup(g, binary)) == Tally(t, InGroupSum(g, binary))
  }

  // ----- Counting the store -----

  /** Whether a stored article answers a query, with these sites left out. */
  predicate Meets(a: S.Art, q: Query, exclude: seq<string>) {
    match q
    case InGroup(g, binary) => g in a.groups && a.info.isBinary == binary
    case InGroupSum(g, binary) => g in a.groups && a.info.isBinary == binary
    case InGroupOn(day, g, binary) => g in a.groups && a.info.isBinary == binary && DayOf(a.info.storedAt) == day
    case By(key) => key != "" && PosterKey(a.info.from) == key
    case ByOn(day, key) => key != "" && PosterKey(a.info.from) == key && DayOf(a.info.storedAt) == day
    case Via(site) => site in StatSites(PathOf(a.info.headers), exclude)
    case ViaOn(day, site) => site in StatSites(PathOf(a.info.headers), exclude) && DayOf(a.info.storedAt) == day
  }

  ghost function Answers(arts: map<string, S.Art>, done: set<string>, q: Query, exclude: seq<string>): set<string> {
    set id | id in done && id in arts && Meets(arts[id], q, exclude)
  }

  lemma AnswersMore(arts: map<string, S.Art>, done: set<string>, id: string, q: Query, exclude: seq<string>)
    requires id in arts && id !in done
    ensures |Answers(arts, done + {id}, q, exclude)| ==
              |Answers(arts, done, q, exclude)| + if Meets(arts[id], q, exclude) then 1 else 0
  {
    hide Meets;
    assert Answers(arts, done + {id}, q, exclude) == Answers(arts, done, q, exclude) + if Meets(arts[id], q, exclude) then {id} else {};
  }

  /** How an article's groups, looked at one by one, its poster and its sites add up. */
  function GroupsHits(q: Query, day: int, groups: set<string>, binary: bool): int {
    match q
    case InGroup(g, b) => if g in groups && b == binary then 1 else 0
    case InGroupSum(g, b) => if g in groups && b == binary then 1 else 0
    case InGroupOn(d, g, b) => if d == day && g in groups && b == binary then 1 else 0
    case _ => 0
  }

  lemma GroupsHitsMore(q: Query, day: int, groups: set<string>, binary: bool, g: string)
    requires g !in groups
    ensures GroupsHits(q, day, groups + {g}, binary) == GroupsHits(q, day, groups, binary) + Hit(q, day, g, binary)
  {
  }

  lemma ArticleHits(a: S.Art, q: Query, exclude: seq<string>)
    ensures GroupsHits(q, DayOf(a.info.storedAt), a.groups.Keys, a.info.isBinary)
            + PosterHit(q, DayOf(a.info.storedAt), a.info.from)
            + SitesHits(q, DayOf(a.info.storedAt), StatSites(PathOf(a.info.headers), exclude)) == if Meets(a, q, exclude) then 1 else 0
  {
    hide PathOf, StatSites, PosterKey;
    SitesDistinct(PathOf(a.info.headers), exclude);
    SitesHitsAre(q, DayOf(a.info.storedAt), StatSites(PathOf(a.info.headers), exclude));
    hide SitesHits, Distinct;
  }

  /** The tables count exactly these articles of the store. */
  ghost predicate Counted(t: Tables, arts: map<string, S.Art>, done: set<string>, exclude: seq<string>) {
    forall q :: Tally(t, q) == |Answers(arts, done, q, exclude)|
  }

  lemma CountedNone(arts: map<string, S.Art>, exclude: seq<string>)
    ensures Counted(NONE, arts, {}, exclude)
  {
    forall q
      ensures Tally(NONE, q) == |Answers(arts, {}, q, exclude)|
    {
      assert Answers(arts, {}, q, exclude) == {};
    }
  }

  /** Counting all stored articles balances the books. */
  lemma CountedBalances(t: Tables, arts: map<string, S.Art>, done: set<string>, exclude: seq<string>)
    requires Counted(t, arts, done, exclude)
    ensures Balanced(t)
  {
    forall g, binary
      ensures Tally(t, InGroup(g, binary)) == Tally(t, InGroupSum(g, binary))
    {
      assert Answers(arts, done, InGroup(g, binary), exclude) == Answers(arts, done, InGroupSum(g, binary), exclude);
      assert Tally(t, InGroup(g, binary)) == |Answers(arts, done, InGroup(g, binary), exclude)|;
      assert Tally(t, InGroupSum(g, binary)) == |Answers(arts, done, InGroupSum(g, binary), exclude)|;
    }
  }

  /** After a recount, the text and binary articles of every group add up to the group's own count. */
  lemma TotalIsCount(t: Tables, s: S.State, g: string, exclude: seq<string>)
    requires Inv(s) && Counted(t, s.arts, s.arts.Keys, exclude) && g in s.groups
    ensures At(t.total, g).text + At(t.total, g).bin == s.groups[g].count
  {
    hide Inv, Meets;
    var texts, bins := Answers(s.arts, s.arts.Keys, InGroup(g, false), exclude), Answers(s.arts, s.arts.Keys, InGroup(g, true), exclude);
    assert Tally(t, InGroup(g, false)) == |texts| && Tally(t, InGroup(g, true)) == |bins|;
    CarriersSplit(s, g, exclude);
    CarriersCount(s, g, s.groups[g].nums);
  }

  ghost function Carriers(s: S.State, g: string): set<string> {
    set id | id in s.arts && g in s.arts[id].groups
  }

  lemma CarriersSplit(s: S.State, g: string, exclude: seq<string>)
    ensures |Carriers(s, g)| ==
              |Answers(s.arts, s.arts.Keys, InGroup(g, false), exclude)| + |Answers(s.arts, s.arts.Keys, InGroup(g, true), exclude)|
  {
    var texts, bins := Answers(s.arts, s.arts.Keys, InGroup(g, false), exclude), Answers(s.arts, s.arts.Keys, InGroup(g, true), exclude);
    assert texts !! bins && Carriers(s, g) == texts + bins;
  }

  /** A group has one article for each of its numbers. */
  lemma CarriersCount(s: S.State, g: string, nums: seq<int>)
    requires Inv(s) && g in s.groups && nums == s.groups[g].nums
    ensures |Carriers(s, g)| == s.groups[g].count == |nums|
  {
    NumsFile(s, g);
    hide Inv;
    var ids := seq(|nums|, i requires 0 <= i < |nums| => s.byNum[g][nums[i]]);
    forall i, j | 0 <= i < j < |ids|
      ensures ids[i] != ids[j]
    {
      assert Files(s, ids[i], g, nums[i]) && Files(s, ids[j], g, nums[j]);
    }
    forall id | id in ids
      ensures id in Carriers(s, g)
    {
      var i :| 0 <= i < |ids| && ids[i] == id;
      assert Files(s, id, g, nums[i]);
    }
    forall id | id in Carriers(s, g)
      ensures id in ids
    {
      var n := s.arts[id].groups[g];
      assert Files(s, id, g, n);
      var i :| 0 <= i < |nums| && nums[i] == n;
      assert ids[i] == id;
    }
    DistinctSize(ids, Carriers(s, g));
  }

  lemma NumsFile(s: S.State, g: string)
    requires Inv(s) && g in s.groups
    ensures g in s.byNum && s.groups[g].count == |s.groups[g].nums| && Increasing(s.groups[g].nums)
    ensures forall n | n in s.groups[g].nums :: n in s.byNum[g] && Files(s, s.byNum[g][n], g, n)
    ensures forall id, n | Files(s, id, g, n) :: n in s.groups[g].nums && s.byNum[g][n] == id
  {
    hide ArtsOk, QueueOk;
    forall n | n in s.groups[g].nums
      ensures n in s.byNum[g] && Files(s, s.byNum[g][n], g, n)
    {
      assert Indexed(s, s.byNum[g][n], g, n);
    }
    forall id, n | Files(s, id, g, n)
      ensures n in s.groups[g].nums && s.byNum[g][n] == id
    {
      assert Indexed(s, id, g, n);
    }
  }

  /** The store's statistics tables. */
  class Statistics {
    const store: Memory
    var groupDay: map<int, GroupTable>
    var groupTotal: GroupTable
    var fromDay: map<int, PosterTable>
    var pathDay: map<int, PosterTable>

    constructor (store: Memory)
      ensures this.store == store && View() == NONE
    {
      this.store, groupDay, groupTotal, fromDay, pathDay := store, map[], map[], map[], map[];
    }

    ghost function View(): Tables
      reads this
    {
      Tables(groupDay, groupTotal, fromDay, pathDay)
    }

    method OpenDay(day: int)
      modifies this`groupDay
      ensures View() == Opened(old(View()), day) && day in groupDay
    {
      if day !in groupDay {
        groupDay := groupDay[day := map[]];
      }
    }

    /** Counts one article in one group. */
    method CountGroup(day: int, g: string, binary: bool)
      requires day in groupDay
      modifies this`groupDay, this`groupTotal
      ensures View() == GroupCounted(old(View()), day, g, binary) && day in groupDay
    {
      var cur := if g in groupDay[day] then groupDay[day][g] else Counts(0, 0);
      groupDay := groupDay[day := groupDay[day][g := cur.More(binary)]];
      var tot := if g in groupTotal then groupTotal[g] else Counts(0, 0);
      groupTotal := groupTotal[g := tot.More(binary)];
    }

    method CountPoster(day: int, from: string)
      modifies this`fromDay
      ensures View() == PosterCounted(old(View()), day, from)
    {
      var key := ToLower(TrimSpace(from));
      if key != "" {
        if day !in fromDay {
          fromDay := fromDay[day := map[]];
        }
        fromDay := fromDay[day := fromDay[day][key := (if key in fromDay[day] then fromDay[day][key] else 0) + 1]];
      }
    }

    /** Counts one article for each site of its Path. */
    method CountSites(day: int, path: string, exclude: seq<string>)
      modifies this`pathDay
      ensures forall q :: Tally(View(), q) == Tally(old(View()), q) + SitesHits(q, day, StatSites(path, exclude))
    {
      hide Tally, SiteHit, StatSites;
      ghost var t0 := View();
      if day !in pathDay {
        pathDay := pathDay[day := map[]];
      }
      forall q { SitesOpenedTally(t0, day, q); }
      var sites := PathStatSites(path, exclude);
      for i := 0 to |sites|
        invariant day in pathDay && View() == t0.(sites := pathDay)
        invariant forall q :: Tally(View(), q) == Tally(t0, q) + SitesHits(q, day, sites[..i])
      {
        ghost var t, site := View(), sites[i];
        forall q
          ensures Tally(SiteCounted(t, day, site), q) == Tally(t0, q) + SitesHits(q, day, sites[..i + 1])
        {
          SitesHitsSnoc(q, day, sites, i);
          SiteTally(t, day, site, q);
        }
        var n := if sites[i] in pathDay[day] then pathDay[day][sites[i]] else 0;
        pathDay := pathDay[day := pathDay[day][sites[i] := n + 1]];
      }
      assert sites[..|sites|] == sites;
    }

    /** Records an accepted article: every count moves by how often the article answers for it, and totals stay
        the sums of their days. */
    method Record(names: seq<string>, from: string, path: string, exclude: seq<string>, binary: bool, at: Option<S.Time>, now: S.Time)
      requires Balanced(View())
      modifies this
      ensures var day := DayOf(if at.Some? then at.value else now);
              forall q :: Tally(View(), q) == Tally(old(View()), q) + NamesHits(q, day, names, binary) + PosterHit(q, day, from)
                                              + SitesHits(q, day, StatSites(path, exclude))
      ensures Balanced(View())
    {
      hide Tally, Hit, PosterHit, SitesHits, StatSites, Opened, GroupCounted, PosterCounted, Balanced;
      var day := DayOf(if at.Some? then at.value else now);
      ghost var t0 := View();
      OpenDay(day);
      forall q ensures Tally(View(), q) == Tally(t0, q) { OpenedTally(t0, day, q); }
      for i := 0 to |names|
        invariant day in groupDay
        invariant forall q :: Tally(View(), q) == Tally(t0, q) + NamesHits(q, day, names[..i], binary)
      {
        ghost var t := View();
        forall q {
          NamesHitsSnoc(q, day, names, binary, i);
        }
        var g := TrimSpace(names[i]);
        if g != "" {
          CountGroup(day, g, binary);
          forall q { GroupTally(t, day, g, binary, q); }
        }
      }
      assert names[..|names|] == names;
      ghost var t := View();
      CountPoster(day, from);
      forall q { PosterTally(t, day, from, q); }
      CountSites(day, path, exclude);
      RecordBalances(t0, View(), day, names, from, StatSites(path, exclude), binary);
    }

    /** Counts one stored article. */
    method CountArticle(a: MemArt, exclude: seq<string>, ghost arts: map<string, S.Art>, ghost done: set<string>)
      requires a.msgid in arts && arts[a.msgid] == a.View() && a.msgid !in done && Counted(View(), arts, done, exclude)
      modifies this
      ensures Counted(View(), arts, done + {a.msgid}, exclude)
    {
      hide Tally, Hit, PosterHit, SitesHits, StatSites, PathOf, Opened, GroupCounted, PosterCounted, GroupsHits, Counted, Answers, Meets;
      var day := DayOf(a.info.storedAt);
      ghost var t0 := View();
      OpenDay(day);
      forall q ensures Tally(View(), q) == Tally(t0, q) { OpenedTally(t0, day, q); }
      var todo := a.groups.Keys;
      GroupsHitsNone(day, a.info.isBinary, a.groups.Keys - todo);
      while todo != {}
        invariant todo <= a.groups.Keys && day in groupDay
        invariant forall q :: Tally(View(), q) == Tally(t0, q) + GroupsHits(q, day, a.groups.Keys - todo, a.info.isBinary)
        decreases todo
      {
        var g :| g in todo;
        ghost var t, before := View(), a.groups.Keys - todo;
        CountGroup(day, g, a.info.isBinary);
        todo := todo - {g};
        assert a.groups.Keys - todo == before + {g};
        forall q
          ensures Tally(View(), q) == Tally(t0, q) + GroupsHits(q, day, before + {g}, a.info.isBinary)
        {
          GroupTally(t, day, g, a.info.isBinary, q);
          GroupsHitsMore(q, day, before, a.info.isBinary, g);
        }
      }
      assert a.groups.Keys - todo == a.groups.Keys;
      ghost var t := View();
      CountPoster(day, a.info.from);
      forall q { PosterTally(t, day, a.info.from, q); }
      var path := PathFromHeaders(a.info.headers);
      CountSites(day, path, exclude);
      ArticleCounted(t0, View(), a.View(), a.msgid, arts, done, exclude);
    }

    /** Counts the store anew. */
    method Refresh(exclude: seq<string>)
      requires store.Valid()
      modifies this
      ensures Counted(View(), store.View().arts, store.View().arts.Keys, exclude) && Balanced(View())
    {
      hide Counted, Balanced, Inv;
      groupDay, groupTotal, fromDay, pathDay := map[], map[], map[], map[];
      ghost var arts := store.ArtsView();
      store.StoredKeys();
      CountedNone(arts, exclude);
      var todo := store.arts.Keys;
      assert arts.Keys - todo == {};
      while todo != {}
        invariant todo <= arts.Keys && Counted(View(), arts, arts.Keys - todo, exclude)
        decreases todo
      {
        var id :| id in todo;
        store.ArtsViewAt(id);
        ghost var done := arts.Keys - todo;
        CountArticle(store.arts[id], exclude, arts, done);
        todo := todo - {id};
        assert arts.Keys - todo == done + {id};
      }
      assert arts.Keys - todo == arts.Keys;
      CountedBalances(View(), arts, arts.Keys, exclude);
    }
  }

  lemma GroupsHitsNone(day: int, binary: bool, none: set<string>)
    requires none == {}
    ensures forall q :: GroupsHits(q, day, none, binary) == 0
  {
  }

  lemma RecordBalances(t: Tables, t': Tables, day: int, names: seq<string>, from: string, sites: seq<string>, binary: bool)
    requires Balanced(t)
    requires forall q :: Tally(t', q) == Tally(t, q) + NamesHits(q, day, names, binary) + PosterHit(q, day, from) + SitesHits(q, day, sites)
    ensures Balanced(t')
  {
    hide Tally, NamesHits, SitesHits;
    forall g, b
      ensures Tally(t', InGroup(g, b)) == Tally(t', InGroupSum(g, b))
    {
      TotalAndSumAlike(day, names, binary, g, b);
      NoSiteInGroup(day, sites, g, b);
    }
  }

  lemma {:induction false} NoSiteInGroup(day: int, sites: seq<string>, g: string, binary: bool)
    ensures SitesHits(InGroup(g, binary), day, sites) == SitesHits(InGroupSum(g, binary), day, sites) == 0
  {
    if sites != [] {
      NoSiteInGroup(day, sites[1..], g, binary);
    }
  }

  lemma ArticleCounted(t: Tables, t': Tables, a: S.Art, id: string, arts: map<string, S.Art>, done: set<string>, exclude: seq<string>)
    requires Counted(t, arts, done, exclude) && id in arts && id !in done && arts[id] == a
    requires var day := DayOf(a.info.storedAt);
             forall q :: Tally(t', q) == Tally(t, q) + GroupsHits(q, day, a.groups.Keys, a.info.isBinary) + PosterHit(q, day, a.info.from)
                                         + SitesHits(q, day, StatSites(PathOf(a.info.headers), exclude))
    ensures Counted(t', arts, done + {id}, exclude)
  {
    hide Tally, GroupsHits, PosterHit, SitesHits, StatSites, PathOf, Answers, Meets;
    forall q
      ensures Tally(t', q) == |Answers(arts, done + {id}, q, exclude)|
    {
      ArticleHits(a, q, exclude);
      AnswersMore(arts, done, id, q, exclude);
    }
  }

  // ----- What the numbers say -----

  /** Articles of a group, text or binary, on a day or at all. */
  ghost function Posted(arts: map<string, S.Art>, g: string, binary: bool, day: Option<int>): set<string> {
    set id | id in arts && g in arts[id].groups && arts[id].info.isBinary == binary
          && (day.Some? ==> arts[id].info.storedAt / 86_400_000_000_000 == day.value)
  }

  /** After a recount the tables hold, for every group, the number of its text and of its binary articles, for every
      day of the clock and in total. */
  lemma GroupCountsAre(t: Tables, arts: map<string, S.Art>, exclude: seq<string>, g: string, day: int)
    requires Counted(t, arts, arts.Keys, exclude)
    ensures At(t.total, g).text == |Posted(arts, g, false, None)| && At(t.total, g).bin == |Posted(arts, g, true, None)|
    ensures var today := At(DayTable(t.days, day), g);
            today.text == |Posted(arts, g, false, Some(day))| && today.bin == |Posted(arts, g, true, Some(day))|
  {
    forall binary: bool
      ensures Answers(arts, arts.Keys, InGroup(g, binary), exclude) == Posted(arts, g, binary, None)
      ensures Answers(arts, arts.Keys, InGroupOn(day, g, binary), exclude) == Posted(arts, g, binary, Some(day))
    {
    }
    hide Answers, Posted, Sum;
    assert Tally(t, InGroup(g, false)) == |Answers(arts, arts.Keys, InGroup(g, false), exclude)|;
    assert Tally(t, InGroup(g, true)) == |Answers(arts, arts.Keys, InGroup(g, true), exclude)|;
    assert Tally(t, InGroupOn(day, g, false)) == |Answers(arts, arts.Keys, InGroupOn(day, g, false), exclude)|;
    assert Tally(t, InGroupOn(day, g, true)) == |Answers(arts, arts.Keys, InGroupOn(day, g, true), exclude)|;
  }

  /** And for every poster and site, the number of articles of the day. */
  lemma DayCountsAre(t: Tables, arts: map<string, S.Art>, exclude: seq<string>, key: string, site: string, day: int)
    requires Counted(t, arts, arts.Keys, exclude) && key != ""
    ensures PosterAt(DayTable(t.posters, day), key) ==
            |set id | id in arts && ToLower(TrimSpace(arts[id].info.from)) == key && arts[id].info.storedAt / 86_400_000_000_000 == day|
    ensures PosterAt(DayTable(t.sites, day), site) ==
            |set id | id in arts && site in StatSites(PathOf(arts[id].info.headers), exclude)
                   && arts[id].info.storedAt / 86_400_000_000_000 == day|
  {
    hide TrimSpace, ToLower, StatSites, PathOf, Sum;
    var byKey, via := ByOn(day, key), ViaOn(day, site);
    assert Tally(t, byKey) == |Answers(arts, arts.Keys, byKey, exclude)|;
    assert Tally(t, via) == |Answers(arts, arts.Keys, via, exclude)|;
    assert Answers(arts, arts.Keys, byKey, exclude) ==
           set id | id in arts && ToLower(TrimSpace(arts[id].info.from)) == key && arts[id].info.storedAt / 86_400_000_000_000 == day;
    assert Answers(arts, arts.Keys, via, exclude) ==
           set id | id in arts && site in StatSites(PathOf(arts[id].info.headers), exclude)
                 && arts[id].info.storedAt / 86_400_000_000_000 == day;
  }

  /** One more hop is one more site, unless it is blank, left out, or there already in some case. */
  lemma NextSite(path: string, hop: string, exclude: seq<string>)
    requires '!' !in hop
    ensures var key := ToLower(TrimSpace(hop));
            var sites := StatSites(path, exclude);
            StatSites(path + "!" + hop, exclude) ==
              if TrimSpace(hop) == "" || key == NO_SITE || HasKey(exclude, key) || exists k :: 0 <= k < |sites| && ToLower(sites[k]) == key
              then sites else sites + [TrimSpace(hop)]
  {
    SplitSnoc(path, '!', hop);
    hide TrimSpace, ToLower, Split, SiteHops;
    assert path + "!" + hop == path + ['!'] + hop;
    LeftOut(exclude, ToLower(TrimSpace(hop)));
    SiteHopsSnoc(Split(path, '!'), hop, ExcludedKeys(exclude));
  }

  lemma {:induction false} SiteHopsSnoc(hops: seq<string>, hop: string, skip: set<string>)
    ensures var key := ToLower(TrimSpace(hop));
            var sites := SiteHops(hops, skip);
            SiteHops(hops + [hop], skip) ==
              if TrimSpace(hop) == "" || key in skip || exists k :: 0 <= k < |sites| && ToLower(sites[k]) == key
              then sites else sites + [TrimSpace(hop)]
    decreases |hops|
  {
    hide TrimSpace, ToLower;
    if hops == [] {
      assert hops + [hop] == [hop] && [hop][1..] == [];
    } else {
      var first, rest := TrimSpace(hops[0]), hops[1..];
      assert (hops + [hop])[1..] == rest + [hop];
      if first == "" || ToLower(first) in skip {
        SiteHopsSnoc(rest, hop, skip);
      } else {
        SiteHopsSnoc(rest, hop, skip + {ToLower(first)});
        SeenFirst(first, SiteHops(rest, skip + {ToLower(first)}), ToLower(TrimSpace(hop)));
      }
    }
  }

  lemma SeenFirst(first: string, more: seq<string>, key: string)
    ensures (exists k :: 0 <= k < |[first] + more| && ToLower(([first] + more)[k]) == key)
       <==> ToLower(first) == key || exists k :: 0 <= k < |more| && ToLower(more[k]) == key
  {
    hide ToLower;
    var all := [first] + more;
    assert all[0] == first;
    assert forall k | 0 <= k < |more| :: all[k + 1] == more[k];
    if ToLower(first) == key {
      assert ToLower(all[0]) == key;
    }
    if k :| 0 <= k < |more| && ToLower(more[k]) == key {
      assert ToLower(all[k + 1]) == key;
    }
  }

  predicate NamesPath(line: string) {
    |line| >= 5 && EqualFold(line[..5], "Path:")
  }

  /** The Path of a header block is the value of its first line with that name; without one there is none. */
  lemma PathIs(before: seq<string>, line: string, after: seq<string>)
    requires forall i | 0 <= i < |before| :: !NamesPath(before[i])
    ensures PathLine(before) == ""
    ensures NamesPath(line) ==> PathLine(before + [line] + after) == TrimSpace(line[5..])
  {
    hide NamesPath, TrimSpace, EqualFold;
    assert before + [] == before;
    PathSkip(before, []);
    assert before + [line] + after == before + ([line] + after);
    PathSkip(before, [line] + after);
    LineNamesPath(line);
    assert ([line] + after)[1..] == after;
  }

  lemma {:induction false} PathSkip(before: seq<string>, rest: seq<string>)
    requires forall i | 0 <= i < |before| :: !NamesPath(before[i])
    ensures PathLine(before + rest) == PathLine(rest)
    decreases |before|
  {
    hide NamesPath, TrimSpace, EqualFold, TrimCRs;
    if before == [] {
      assert before + rest == rest;
    } else {
      assert (before + rest)[1..] == before[1..] + rest;
      assert forall i | 0 <= i < |before| - 1 :: before[1..][i] == before[i + 1];
      LineNamesPath(before[0]);
      PathSkip(before[1..], rest);
    }
  }

  lemma LineNamesPath(line: string)
    ensures var cut := TrimCRs(line);
            (|cut| >= |PATH_FIELD| && EqualFold(cut[..|PATH_FIELD|], PATH_FIELD) <==> NamesPath(line))
            && (NamesPath(line) ==> TrimSpace(cut[|PATH_FIELD|..]) == TrimSpace(line[5..]))
  {
    var cut, ends := TrimmedCRs(line);
    FifthIsColon(line);
    FifthIsColon(cut);
    hide TrimSpace, EqualFold, TrimCRs;
    CutLong(line, cut, ends);
    if NamesPath(line) {
      assert cut[..5] == line[..5] && line[5..] == cut[5..] + ends;
      TrimPadded(cut[5..], ends);
    }
    if |cut| >= 5 {
      assert cut[..5] == line[..5];
    }
  }

  lemma CutLong(line: string, cut: string, ends: string)
    requires line == cut + ends && forall c | c in ends :: c == '\r'
    ensures |line| >= 5 && line[4] != '\r' ==> |cut| >= 5
  {
    forall j | |cut| <= j < |line|
      ensures line[j] == '\r'
    {
      assert line[j] == ends[j - |cut|] && ends[j - |cut|] in ends;
    }
  }

  lemma FifthIsColon(line: string)
    ensures NamesPath(line) ==> line[4] != '\r'
  {
    if NamesPath(line) {
      AlikeIff(line[..5], "Path:");
      assert FoldChar(line[..5][4]) == FoldChar("Path:"[4]);
    }
  }

  lemma {:induction false} TrimmedCRs(line: string) returns (cut: string, ends: string)
    ensures cut == TrimCRs(line) && line == cut + ends && forall c | c in ends :: c == '\r'
  {
    if line != "" && line[|line| - 1] == '\r' {
      cut, ends := TrimmedCRs(line[..|line| - 1]);
      ends := ends + ['\r'];
    } else {
      cut, ends := line, "";
    }
  }

  lemma TrimPadded(v: string, ends: string)
    requires forall c | c in ends :: c == '\r'
    ensures TrimSpace(v + ends) == TrimSpace(v)
  {
    TrimLeftMore(v, ends);
    assert IsSpace('\r');
    hide IsSpace, TrimLeft;
    TrimRightPadded(TrimLeft(v), ends);
  }

  /** Trimming on the left leaves what follows, unless nothing is left in front of it. */
  lemma TrimLeftMore(v: string, ends: string)
    requires forall c | c in ends :: c == '\r'
    ensures TrimLeft(v + ends) == if TrimLeft(v) == "" then "" else TrimLeft(v) + ends
  {
    assert IsSpace('\r');
    hide IsSpace;
    var k := LeadingSpace(v);
    var a, b := v[..k], v[k..];
    assert v == a + b && v + ends == a + (b + ends);
    TrimLeftPadded(a, b);
    TrimLeftPadded(a, b + ends);
    if b == "" {
      assert b + ends == ends && ends + "" == ends;
      TrimLeftPadded(ends, "");
    } else {
      assert (b + ends)[0] == b[0];
    }
  }

  lemma {:induction false} LeadingSpace(v: string) returns (k: nat)
    ensures k <= |v| && (forall c | c in v[..k] :: IsSpace(c)) && (k < |v| ==> !IsSpace(v[k]))
  {
    hide IsSpace;
    if v == "" || !IsSpace(v[0]) {
      k := 0;
    } else {
      k := LeadingSpace(v[1..]);
      assert v[..k + 1] == [v[0]] + v[1..][..k];
      k := k + 1;
    }
  }
}
