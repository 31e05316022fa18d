/** Path statistics: how many articles passed each site and each pair of neighbouring sites. Statistics of parts
    of a feed merge into those of the whole. */
module Inpaths {
  import opened Text
  import opened Seqs

  /** Times in nanoseconds. */
  type Time = int

  datatype Stats = Stats(
    sites: seq<string>, siteIdx: map<string, int>, siteCount: map<string, int>, rels: map<string, int>,
    articles: int, start: Time, end: Time)

  function NewStats(now: Time): Stats {
    Stats([], map[], map[], map[], 0, now, now)
  }

  // ----- Paths -----

  /** Whether a hop counts; `letter` says which characters are letters. */
  predicate HopOK(hop: string, letter: char -> bool) {
    var h := TrimSpace(hop);
    h != "" && !EqualFold(h, "not-for-mail") && exists c | c in h :: letter(c)
  }

  function GoodHops(hops: seq<string>, letter: char -> bool): seq<string> {
    if hops == [] then []
    else (if HopOK(hops[0], letter) then [hops[0]] else []) + GoodHops(hops[1..], letter)
  }

  function ParseHops(path: string, letter: char -> bool): seq<string> {
    var p := TrimSpace(path);
    if p == "" then [] else GoodHops(Split(p, '!'), letter)
  }

  /** The pairs of neighbours, each with the later one first, from the end of the path. */
  function Neighbours(hops: seq<string>): seq<string> {
    if |hops| < 2 then [] else Neighbours(hops[1..]) + [hops[1] + "!" + hops[0]]
  }

  // ----- Adding and merging -----

  function Counted(m: map<string, int>, k: string): int {
    if k in m then m[k] else 0
  }

  function Add(m: map<string, int>, k: string, n: int): map<string, int> {
    m[k := Counted(m, k) + n]
  }

  function AddAll(m: map<string, int>, ks: seq<string>): map<string, int>
    decreases |ks|
  {
    if ks == [] then m else AddAll(Add(m, ks[0], 1), ks[1..])
  }

  /** A site gets the next index when it is new. */
  function WithSite(s: Stats, name: string): Stats {
    if name in s.siteIdx then s else s.(sites := s.sites + [name], siteIdx := s.siteIdx[name := |s.sites|])
  }

  function CountSite(s: Stats, name: string, n: int): Stats {
    WithSite(s.(siteCount := Add(s.siteCount, name, n)), name)
  }

  function CountSites(s: Stats, hops: seq<string>): Stats
    decreases |hops|
  {
    if hops == [] then s else CountSites(CountSite(s, hops[0], 1), hops[1..])
  }

  function WithPath(s: Stats, path: string, now: Time, letter: char -> bool): Stats {
    var hops := ParseHops(path, letter);
    if hops == [] then s
    else
      var s1 := s.(start := if s.articles == 0 then now else s.start, end := now, articles := s.articles + 1);
      var s2 := CountSites(s1, hops);
      s2.(rels := AddAll(s2.rels, Neighbours(hops)))
  }

  function MergeSites(s: Stats, names: seq<string>, counts: map<string, int>): Stats
    decreases |names|
  {
    if names == [] then s else MergeSites(CountSite(s, names[0], Counted(counts, names[0])), names[1..], counts)
  }

  function Sum(a: map<string, int>, b: map<string, int>): map<string, int> {
    map k | k in a.Keys + b.Keys :: Counted(a, k) + Counted(b, k)
  }

  /** Adds other statistics, whose sites come in this order. */
  function WithMerged(s: Stats, o: Stats, names: seq<string>): Stats {
    if o.articles == 0 then s
    else
      var start := if s.articles == 0 || o.start < s.start then o.start else s.start;
      var end := if o.end > s.end then o.end else s.end;
      var s1 := MergeSites(s.(start := start, end := end, articles := s.articles + o.articles), names, o.siteCount);
      s1.(rels := Sum(s1.rels, o.rels))
  }

  // ----- What statistics say -----

  /** The counts are those of a collection. */
  ghost predicate Counts(m: map<string, int>, all: multiset<string>) {
    forall k :: (k in m <==> k in all) && (k in all ==> m[k] == all[k])
  }

  /** The sites are those counted, each with its index. */
  ghost predicate SitesOk(s: Stats) {
    && s.siteIdx.Keys == s.siteCount.Keys && (forall name :: name in s.sites <==> name in s.siteIdx)
    && (forall i | 0 <= i < |s.sites| :: s.siteIdx[s.sites[i]] == i)
  }

  /** Statistics of `n` articles with these hops and these neighbours. */
  ghost predicate Says(s: Stats, hops: multiset<string>, rels: multiset<string>, n: int) {
    SitesOk(s) && Counts(s.siteCount, hops) && Counts(s.rels, rels) && s.articles == n
    && (n == 0 ==> hops == multiset{} && rels == multiset{}) && n >= 0
  }

  lemma AddCounts(m: map<string, int>, all: multiset<string>, k: string)
    requires Counts(m, all)
    ensures Counts(Add(m, k, 1), all + multiset{k})
  {
  }

  lemma {:induction false} AddAllCounts(m: map<string, int>, all: multiset<string>, ks: seq<string>)
    requires Counts(m, all)
    ensures Counts(AddAll(m, ks), all + multiset(ks))
    decreases |ks|
  {
    hide Counts, Add;
    if ks == [] {
      assert all + multiset(ks) == all;
    } else {
      AddCounts(m, all, ks[0]);
      AddAllCounts(Add(m, ks[0], 1), all + multiset{ks[0]}, ks[1..]);
      assert ks == [ks[0]] + ks[1..];
      assert all + multiset{ks[0]} + multiset(ks[1..]) == all + multiset(ks);
    }
  }

  lemma SumCounts(a: map<string, int>, b: map<string, int>, all: multiset<string>, more: multiset<string>)
    requires Counts(a, all) && Counts(b, more)
    ensures Counts(Sum(a, b), all + more)
  {
  }

  lemma CountSiteOk(s: Stats, name: string, n: int)
    requires SitesOk(s)
    ensures var s' := CountSite(s, name, n);
            && SitesOk(s') && s'.siteCount == Add(s.siteCount, name, n) && s.sites <= s'.sites
            && s' == s.(sites := s'.sites, siteIdx := s'.siteIdx, siteCount := s'.siteCount)
  {
  }

  lemma {:induction false} CountSitesSays(s: Stats, all: multiset<string>, hops: seq<string>)
    requires SitesOk(s) && Counts(s.siteCount, all)
    ensures var s' := CountSites(s, hops);
            && SitesOk(s') && Counts(s'.siteCount, all + multiset(hops))
            && s' == s.(sites := s'.sites, siteIdx := s'.siteIdx, siteCount := s'.siteCount)
    decreases |hops|
  {
    hide SitesOk, Counts, CountSite, Add;
    if hops == [] {
      assert all + multiset(hops) == all;
    } else {
      CountSiteOk(s, hops[0], 1);
      AddCounts(s.siteCount, all, hops[0]);
      CountSitesSays(CountSite(s, hops[0], 1), all + multiset{hops[0]}, hops[1..]);
      assert hops == [hops[0]] + hops[1..];
      assert all + multiset{hops[0]} + multiset(hops[1..]) == all + multiset(hops);
    }
  }

  /** Adding a path adds its hops and neighbours, and one article if it has any hop. */
  lemma AddPathSays(s: Stats, path: string, now: Time, letter: char -> bool, all: multiset<string>, rels: multiset<string>, n: int)
    requires Says(s, all, rels, n)
    ensures var hops := ParseHops(path, letter);
            Says(WithPath(s, path, now, letter), all + multiset(hops), rels + multiset(Neighbours(hops)), n + if hops == [] then 0 else 1)
  {
    hide ParseHops, Counts, Neighbours, SitesOk;
    var hops := ParseHops(path, letter);
    if hops == [] {
      NoNeighbours();
      assert all + multiset(hops) == all && rels + multiset(Neighbours(hops)) == rels;
    } else {
      var s1 := s.(start := if s.articles == 0 then now else s.start, end := now, articles := s.articles + 1);
      SitesSame(s, s1);
      CountSitesSays(s1, all, hops);
      var s2 := CountSites(s1, hops);
      AddAllCounts(s2.rels, rels, Neighbours(hops));
      SitesSame(s2, WithPath(s, path, now, letter));
    }
  }

  lemma NoNeighbours()
    ensures Neighbours([]) == []
  {
  }

  lemma SitesSame(s: Stats, s': Stats)
    requires SitesOk(s) && s'.sites == s.sites && s'.siteIdx == s.siteIdx && s'.siteCount == s.siteCount
    ensures SitesOk(s')
  {
  }

  lemma {:induction false} MergeSitesOk(s: Stats, names: seq<string>, counts: map<string, int>)
    requires SitesOk(s) && Distinct(names)
    ensures var s' := MergeSites(s, names, counts);
            && SitesOk(s') && s.sites <= s'.sites
            && (forall k :: k in s'.siteCount <==> k in s.siteCount || k in names)
            && (forall k | k in s'.siteCount ::
                  s'.siteCount[k] == Counted(s.siteCount, k) + if k in names then Counted(counts, k) else 0)
            && s' == s.(sites := s'.sites, siteIdx := s'.siteIdx, siteCount := s'.siteCount)
    decreases |names|
  {
    hide SitesOk;
    if names != [] {
      CountSiteOk(s, names[0], Counted(counts, names[0]));
      hide CountSite;
      DistinctTail(names);
      MergeSitesOk(CountSite(s, names[0], Counted(counts, names[0])), names[1..], counts);
    }
  }

  /** Merging adds up what both statistics say, whatever the order in which the sites come. */
  lemma MergeSays(s: Stats, o: Stats, names: seq<string>, all: multiset<string>, rels: multiset<string>, n: int,
                  more: multiset<string>, moreRels: multiset<string>, m: int)
    requires Says(s, all, rels, n) && Says(o, more, moreRels, m) && Lists(names, o.siteCount.Keys)
    ensures Says(WithMerged(s, o, names), all + more, rels + moreRels, n + m)
  {
    hide SitesOk, Counts, Distinct;
    if m == 0 {
      assert all + more == all && rels + moreRels == rels;
    } else {
      var s' := WithMerged(s, o, names);
      var start := if s.articles == 0 || o.start < s.start then o.start else s.start;
      var end := if o.end > s.end then o.end else s.end;
      var s1 := s.(start := start, end := end, articles := s.articles + o.articles);
      SitesSame(s, s1);
      MergeSitesOk(s1, names, o.siteCount);
      var s2 := MergeSites(s1, names, o.siteCount);
      MergedCounts(s.siteCount, o.siteCount, s2.siteCount, names, all, more);
      SumCounts(s2.rels, o.rels, rels, moreRels);
      SitesSame(s2, s');
    }
  }

  lemma MergedCounts(a: map<string, int>, b: map<string, int>, c: map<string, int>, names: seq<string>,
                     all: multiset<string>, more: multiset<string>)
    requires Counts(a, all) && Counts(b, more) && forall k :: k in names <==> k in b
    requires forall k :: k in c <==> k in a || k in names
    requires forall k | k in c :: c[k] == Counted(a, k) + if k in names then Counted(b, k) else 0
    ensures Counts(c, all + more)
  {
  }

  // ----- What one path and one merge do -----

  /** A hop counts if it is not blank, not the mark of a path's end in any case, and has a letter; it counts as often
      as the path names it. */
  lemma {:induction false} GoodHopsAre(hops: seq<string>, letter: char -> bool, h: string)
    ensures multiset(GoodHops(hops, letter))[h] ==
              if TrimSpace(h) != "" && !EqualFold(TrimSpace(h), "not-for-mail") && (exists c | c in TrimSpace(h) :: letter(c))
              then multiset(hops)[h] else 0
  {
    hide TrimSpace, EqualFold;
    if hops != [] {
      GoodHopsAre(hops[1..], letter, h);
      assert hops == [hops[0]] + hops[1..];
    }
  }

  /** The hops that count keep their order. */
  lemma {:induction false} GoodHopsInOrder(a: seq<string>, b: seq<string>, letter: char -> bool)
    ensures GoodHops(a + b, letter) == GoodHops(a, letter) + GoodHops(b, letter)
  {
    hide HopOK;
    if a == [] {
      assert a + b == b;
    } else {
      GoodHopsInOrder(a[1..], b, letter);
      assert (a + b)[1..] == a[1..] + b && (a + b)[0] == a[0];
    }
  }

  lemma HopsAre(path: string, letter: char -> bool, h: string)
    ensures var parts := Split(TrimSpace(path), '!');
            multiset(ParseHops(path, letter))[h] ==
              if TrimSpace(h) != "" && !EqualFold(TrimSpace(h), "not-for-mail") && (exists c | c in TrimSpace(h) :: letter(c))
              then multiset(parts)[h] else 0
  {
    var p := TrimSpace(path);
    GoodHopsAre(Split(p, '!'), letter, h);
    if p == "" {
      assert Split(p, '!') == [""];
      EmptyTrimmed();
      assert h != "" ==> multiset([""])[h] == 0;
    }
  }

  lemma EmptyTrimmed()
    ensures TrimSpace("") == ""
  {
  }

  /** The places at which a hop stands. */
  ghost function Places(hops: seq<string>, h: string): set<nat> {
    set i: nat | i < |hops| && hops[i] == h
  }

  /** The places of hops that stand, with the one in front of them, for a link. */
  ghost function LinkPlaces(hops: seq<string>, k: string): set<nat> {
    set i: nat | 1 <= i < |hops| && LinkAt(hops, i) == k
  }

  function LinkAt(hops: seq<string>, i: nat): string
    requires 1 <= i < |hops|
  {
    hops[i] + "!" + hops[i - 1]
  }

  lemma {:induction false} AddAllAt(m: map<string, int>, ks: seq<string>, k: string)
    ensures Counted(AddAll(m, ks), k) == Counted(m, k) + multiset(ks)[k]
    decreases |ks|
  {
    if ks != [] {
      AddAllAt(Add(m, ks[0], 1), ks[1..], k);
      assert ks == [ks[0]] + ks[1..];
    }
  }

  /** The link of the last two hops comes first. */
  lemma {:induction false} NeighboursLast(hops: seq<string>, h: string)
    requires hops != []
    ensures Neighbours(hops + [h]) == [h + "!" + hops[|hops| - 1]] + Neighbours(hops)
  {
    if |hops| == 1 {
      assert (hops + [h])[1..] == [h];
      assert Neighbours([h]) == [] && Neighbours(hops) == [];
    } else {
      NeighboursLast(hops[1..], h);
      assert (hops + [h])[1..] == hops[1..] + [h] && (hops + [h])[1] == hops[1];
    }
  }

  lemma {:induction false} LinksCount(hops: seq<string>, k: string)
    ensures multiset(Neighbours(hops))[k] == |LinkPlaces(hops, k)|
  {
    if |hops| < 2 {
      assert LinkPlaces(hops, k) == {};
    } else {
      var n := |hops| - 1;
      var init := hops[..n];
      LinksCount(init, k);
      NeighboursLast(init, hops[n]);
      assert hops == init + [hops[n]];
      hide Neighbours, LinkPlaces;
      LinkPlacesLast(hops, k);
      assert multiset(Neighbours(hops)) == multiset{LinkAt(hops, n)} + multiset(Neighbours(init));
    }
  }

  lemma LinkPlacesLast(hops: seq<string>, k: string)
    requires |hops| >= 2
    ensures var n := |hops| - 1;
            |LinkPlaces(hops, k)| == |LinkPlaces(hops[..n], k)| + if LinkAt(hops, n) == k then 1 else 0
  {
    var n := |hops| - 1;
    forall i: nat | 1 <= i < n
      ensures LinkAt(hops[..n], i) == LinkAt(hops, i)
    {
    }
    hide LinkAt;
    assert LinkPlaces(hops, k) == LinkPlaces(hops[..n], k) + if LinkAt(hops, n) == k then {n as nat} else {};
  }

  lemma {:induction false} PlacesCount(hops: seq<string>, h: string)
    ensures multiset(hops)[h] == |Places(hops, h)|
  {
    if hops == [] {
      assert Places(hops, h) == {};
    } else {
      var n := |hops| - 1;
      PlacesCount(hops[..n], h);
      assert hops == hops[..n] + [hops[n]];
      assert Places(hops, h) == Places(hops[..n], h) + if hops[n] == h then {n as nat} else {};
    }
  }

  lemma {:induction false} CountSitesAt(s: Stats, hops: seq<string>, h: string)
    ensures var s' := CountSites(s, hops);
            Counted(s'.siteCount, h) == Counted(s.siteCount, h) + multiset(hops)[h]
            && s' == s.(sites := s'.sites, siteIdx := s'.siteIdx, siteCount := s'.siteCount)
    decreases |hops|
  {
    if hops != [] {
      CountSitesAt(CountSite(s, hops[0], 1), hops[1..], h);
      assert hops == [hops[0]] + hops[1..];
    }
  }

  /** A path counts every hop where it stands, and every pair of neighbours as a link from the later to the one in front
      of it; it is one more article if it has a hop that counts, and the last so far. */
  lemma AddPathCounts(s: Stats, path: string, now: Time, letter: char -> bool, k: string)
    ensures var s', hops := WithPath(s, path, now, letter), ParseHops(path, letter);
            && (if k in s'.rels then s'.rels[k] else 0) == (if k in s.rels then s.rels[k] else 0) + |LinkPlaces(hops, k)|
            && (if k in s'.siteCount then s'.siteCount[k] else 0) == (if k in s.siteCount then s.siteCount[k] else 0) + |Places(hops, k)|
            && (hops == [] ==> s' == s)
            && (hops != [] ==> s'.articles == s.articles + 1 && s'.end == now && s'.start == if s.articles == 0 then now else s.start)
  {
    hide ParseHops, Neighbours, CountSites, AddAll;
    var hops := ParseHops(path, letter);
    LinksCount(hops, k);
    PlacesCount(hops, k);
    if hops == [] {
      assert LinkPlaces(hops, k) == {} && Places(hops, k) == {};
    } else {
      var s1 := s.(start := if s.articles == 0 then now else s.start, end := now, articles := s.articles + 1);
      CountSitesAt(s1, hops, k);
      AddAllAt(CountSites(s1, hops).rels, Neighbours(hops), k);
    }
  }

  lemma SumAt(a: map<string, int>, b: map<string, int>, k: string)
    ensures Counted(Sum(a, b), k) == Counted(a, k) + Counted(b, k)
  {
  }

  lemma MergedSite(s: Stats, o: Stats, names: seq<string>, k: string)
    requires SitesOk(s) && Lists(names, o.siteCount.Keys)
    ensures var s' := MergeSites(s, names, o.siteCount);
            Counted(s'.siteCount, k) == Counted(s.siteCount, k) + Counted(o.siteCount, k)
            && s' == s.(sites := s'.sites, siteIdx := s'.siteIdx, siteCount := s'.siteCount)
  {
    MergeSitesOk(s, names, o.siteCount);
    hide Distinct, SitesOk, MergeSites;
  }

  /** Merging adds the counts of every site and link and the articles, and takes the earlier start and the later end. */
  lemma MergedIs(s: Stats, o: Stats, names: seq<string>, k: string)
    requires SitesOk(s) && Lists(names, o.siteCount.Keys) && o.articles != 0
    ensures var s' := WithMerged(s, o, names);
            && (if k in s'.rels then s'.rels[k] else 0) == (if k in s.rels then s.rels[k] else 0) + (if k in o.rels then o.rels[k] else 0)
            && (if k in s'.siteCount then s'.siteCount[k] else 0)
                 == (if k in s.siteCount then s.siteCount[k] else 0) + (if k in o.siteCount then o.siteCount[k] else 0)
            && s'.articles == s.articles + o.articles
            && s'.start == (if s.articles == 0 || o.start < s.start then o.start else s.start)
            && s'.end == (if s.end < o.end then o.end else s.end)
  {
    hide Distinct, MergeSites, Sum;
    var start := if s.articles == 0 || o.start < s.start then o.start else s.start;
    var end := if o.end > s.end then o.end else s.end;
    var s1 := s.(start := start, end := end, articles := s.articles + o.articles);
    SitesSame(s, s1);
    hide SitesOk;
    MergedSite(s1, o, names, k);
    SumAt(s1.rels, o.rels, k);
  }

  // ----- Partitions -----

  function HopsOf(paths: seq<string>, letter: char -> bool): multiset<string> {
    if paths == [] then multiset{} else multiset(ParseHops(paths[0], letter)) + HopsOf(paths[1..], letter)
  }

  function NeighboursOf(paths: seq<string>, letter: char -> bool): multiset<string> {
    if paths == [] then multiset{} else multiset(Neighbours(ParseHops(paths[0], letter))) + NeighboursOf(paths[1..], letter)
  }

  function ArticlesOf(paths: seq<string>, letter: char -> bool): int {
    if paths == [] then 0 else (if ParseHops(paths[0], letter) == [] then 0 else 1) + ArticlesOf(paths[1..], letter)
  }

  /** The sums over a list of paths in one value. */
  datatype Totals = Totals(hops: multiset<string>, rels: multiset<string>, n: int) {
    function Plus(o: Totals): Totals {
      Totals(hops + o.hops, rels + o.rels, n + o.n)
    }
  }

  function TotalsOf(paths: seq<string>, letter: char -> bool): Totals {
    Totals(HopsOf(paths, letter), NeighboursOf(paths, letter), ArticlesOf(paths, letter))
  }

  lemma {:induction false} TotalsAppend(p: seq<string>, q: seq<string>, letter: char -> bool)
    ensures TotalsOf(p + q, letter) == TotalsOf(p, letter).Plus(TotalsOf(q, letter))
  {
    hide ParseHops, Neighbours;
    if p == [] {
      assert p + q == q;
    } else {
      assert (p + q)[1..] == p[1..] + q;
      TotalsAppend(p[1..], q, letter);
    }
  }

  /** Only how often each path occurs matters. */
  lemma {:induction false} TotalsPermute(p: seq<string>, q: seq<string>, letter: char -> bool)
    requires multiset(p) == multiset(q)
    ensures TotalsOf(p, letter) == TotalsOf(q, letter)
    decreases |p|
  {
    hide ParseHops, Neighbours, TotalsOf;
    assert |p| == |multiset(p)| == |multiset(q)| == |q|;
    if p != [] {
      var i := FirstOut(p, q);
      TotalsPermute(p[1..], q[..i] + q[i + 1..], letter);
      TotalsMoved(p, q, i, letter);
    }
  }

  lemma FirstOut(p: seq<string>, q: seq<string>) returns (i: nat)
    requires multiset(p) == multiset(q) && p != []
    ensures i < |q| && q[i] == p[0] && multiset(p[1..]) == multiset(q[..i] + q[i + 1..])
  {
    assert p[0] in multiset(p) && p == [p[0]] + p[1..];
    i :| 0 <= i < |q| && q[i] == p[0];
    assert q == q[..i] + [q[i]] + q[i + 1..];
    assert multiset(p[1..]) == multiset(p) - multiset{p[0]};
    assert multiset(q[..i] + q[i + 1..]) == multiset(q) - multiset{q[i]};
  }

  lemma TotalsMoved(p: seq<string>, q: seq<string>, i: nat, letter: char -> bool)
    requires p != [] && i < |q| && q[i] == p[0]
    requires TotalsOf(p[1..], letter) == TotalsOf(q[..i] + q[i + 1..], letter)
    ensures TotalsOf(p, letter) == TotalsOf(q, letter)
  {
    hide TotalsOf;
    assert p == [p[0]] + p[1..] && q == q[..i] + ([q[i]] + q[i + 1..]);
    TotalsAppend([p[0]], p[1..], letter);
    TotalsAppend(q[..i], q[i + 1..], letter);
    TotalsAppend(q[..i], [q[i]] + q[i + 1..], letter);
    TotalsAppend([q[i]], q[i + 1..], letter);
  }

  /** A way to gather statistics: a log of paths with their times, or the merge of two gatherings. */
  datatype Gathering = Log(created: Time, entries: seq<(string, Time)>) | Merged(into: Gathering, from: Gathering)

  function LogPaths(entries: seq<(string, Time)>): seq<string> {
    if entries == [] then [] else [entries[0].0] + LogPaths(entries[1..])
  }

  function Paths(g: Gathering): seq<string> {
    match g
    case Log(_, entries) => LogPaths(entries)
    case Merged(a, b) => Paths(a) + Paths(b)
  }

  function AddPaths(s: Stats, entries: seq<(string, Time)>, letter: char -> bool): Stats
    decreases |entries|
  {
    if entries == [] then s else AddPaths(WithPath(s, entries[0].0, entries[0].1, letter), entries[1..], letter)
  }

  /** The statistics that a gathering can end with. */
  ghost predicate Gathers(g: Gathering, s: Stats, letter: char -> bool) {
    match g
    case Log(created, entries) => s == AddPaths(NewStats(created), entries, letter)
    case Merged(a, b) =>
      exists x, y, names :: Gathers(a, x, letter) && Gathers(b, y, letter) && Lists(names, y.siteCount.Keys) && s == WithMerged(x, y, names)
  }

  ghost predicate SaysTotals(s: Stats, t: Totals) {
    Says(s, t.hops, t.rels, t.n)
  }

  lemma {:induction false} AddPathsSays(s: Stats, t: Totals, entries: seq<(string, Time)>, letter: char -> bool)
    requires SaysTotals(s, t)
    ensures SaysTotals(AddPaths(s, entries, letter), t.Plus(TotalsOf(LogPaths(entries), letter)))
    decreases |entries|
  {
    hide Says, WithPath, ParseHops, Neighbours;
    if entries == [] {
      assert t.Plus(TotalsOf([], letter)) == t;
    } else {
      var hops := ParseHops(entries[0].0, letter);
      AddPathSays(s, entries[0].0, entries[0].1, letter, t.hops, t.rels, t.n);
      var one := Totals(multiset(hops), multiset(Neighbours(hops)), if hops == [] then 0 else 1);
      AddPathsSays(WithPath(s, entries[0].0, entries[0].1, letter), t.Plus(one), entries[1..], letter);
      assert LogPaths(entries)[1..] == LogPaths(entries[1..]);
      TotalsFirst(LogPaths(entries), t, letter);
    }
  }

  lemma TotalsFirst(paths: seq<string>, t: Totals, letter: char -> bool)
    requires paths != []
    ensures var hops := ParseHops(paths[0], letter);
            var one := Totals(multiset(hops), multiset(Neighbours(hops)), if hops == [] then 0 else 1);
            t.Plus(one).Plus(TotalsOf(paths[1..], letter)) == t.Plus(TotalsOf(paths, letter))
  {
    hide ParseHops, Neighbours;
  }

  lemma NewSays(now: Time)
    ensures SaysTotals(NewStats(now), Totals(multiset{}, multiset{}, 0))
  {
  }

  lemma {:induction false} GatheringSays(g: Gathering, s: Stats, letter: char -> bool)
    requires Gathers(g, s, letter)
    ensures SaysTotals(s, TotalsOf(Paths(g), letter))
  {
    hide Says, WithMerged, AddPaths, ParseHops, Neighbours, TotalsOf, Lists;
    match g
    case Log(created, entries) =>
      NewSays(created);
      var none := Totals(multiset{}, multiset{}, 0);
      AddPathsSays(NewStats(created), none, entries, letter);
      var t := TotalsOf(LogPaths(entries), letter);
      assert none.Plus(t) == t;
    case Merged(a, b) =>
      var x, y, names :| Gathers(a, x, letter) && Gathers(b, y, letter) && Lists(names, y.siteCount.Keys) && s == WithMerged(x, y, names);
      GatheringSays(a, x, letter);
      GatheringSays(b, y, letter);
      var ta, tb := TotalsOf(Paths(a), letter), TotalsOf(Paths(b), letter);
      MergeSays(x, y, names, ta.hops, ta.rels, ta.n, tb.hops, tb.rels, tb.n);
      TotalsAppend(Paths(a), Paths(b), letter);
  }

  /** However the paths are spread over logs and in whatever order these are merged, the counts are those of one
      log with all the paths, and the sites are the same. */
  lemma PartitionsAgree(g: Gathering, h: Gathering, s: Stats, t: Stats, letter: char -> bool)
    requires Gathers(g, s, letter) && Gathers(h, t, letter) && multiset(Paths(g)) == multiset(Paths(h))
    ensures s.siteCount == t.siteCount && s.rels == t.rels && s.articles == t.articles
    ensures forall name :: name in s.sites <==> name in t.sites
    ensures |s.sites| == |t.sites|
  {
    hide Gathers, TotalsOf;
    GatheringSays(g, s, letter);
    GatheringSays(h, t, letter);
    TotalsPermute(Paths(g), Paths(h), letter);
    var all := TotalsOf(Paths(g), letter);
    SameSaying(s, t, all.hops, all.rels, all.n);
  }

  lemma SameSaying(s: Stats, t: Stats, hops: multiset<string>, rels: multiset<string>, n: int)
    requires Says(s, hops, rels, n) && Says(t, hops, rels, n)
    ensures s.siteCount == t.siteCount && s.rels == t.rels && s.articles == t.articles
    ensures forall name :: name in s.sites <==> name in t.sites
    ensures |s.sites| == |t.sites|
  {
    SitesDistinct(s);
    SitesDistinct(t);
    DistinctSize(s.sites, s.siteCount.Keys);
    DistinctSize(t.sites, t.siteCount.Keys);
    assert s.siteCount == t.siteCount;
    assert s.rels == t.rels;
  }

  lemma SitesDistinct(s: Stats)
    requires SitesOk(s)
    ensures Distinct(s.sites)
  {
  }

  /** Merging into statistics without articles takes over the other's times, except that the end stays that of
      the fresh statistics when they were created later. */
  lemma MergeIntoFresh(created: Time, o: Stats, names: seq<string>)
    requires SitesOk(o) && o.articles > 0 && Lists(names, o.siteCount.Keys)
    ensures var s := WithMerged(NewStats(created), o, names);
            s.start == o.start && (s.end == o.end <==> created <= o.end)
  {
    var s1 := NewStats(created).(start := o.start, end := if o.end > created then o.end else created, articles := o.articles);
    MergeSitesOk(s1, names, o.siteCount);
  }

  // ----- What every gathering keeps -----

  /** A site name as it stands in a path: not empty, with a letter, and without an exclamation mark. */
  predicate Hop(name: string) {
    name != "" && '!' !in name
  }

  ghost predicate Link(key: string, sites: seq<string>) {
    exists a, b :: a in sites && b in sites && key == a + "!" + b
  }

  /** Every count is positive, and every link joins two sites. */
  ghost predicate Sound(s: Stats) {
    && SitesOk(s) && (forall name | name in s.sites :: Hop(name) && s.siteCount[name] >= 1)
    && (forall key | key in s.rels :: Link(key, s.sites) && s.rels[key] >= 1)
    && (s.articles > 0 ==> s.sites != []) && s.articles >= 0
  }

  lemma {:induction false} GoodHopsPlain(hops: seq<string>, letter: char -> bool)
    requires forall h | h in hops :: '!' !in h
    ensures forall h | h in GoodHops(hops, letter) :: Hop(h) && HopOK(h, letter)
  {
    if hops != [] {
      GoodHopsPlain(hops[1..], letter);
    }
  }

  lemma {:induction false} SplitPlain(s: string, sep: char)
    ensures forall p | p in Split(s, sep) :: sep !in p
  {
    if s != "" {
      SplitPlain(s[1..], sep);
    }
  }

  lemma ParseHopsPlain(path: string, letter: char -> bool)
    ensures forall h | h in ParseHops(path, letter) :: Hop(h) && HopOK(h, letter)
  {
    hide HopOK, Split;
    SplitPlain(TrimSpace(path), '!');
    GoodHopsPlain(Split(TrimSpace(path), '!'), letter);
  }

  lemma {:induction false} NeighboursLink(hops: seq<string>)
    ensures forall key | key in Neighbours(hops) :: Link(key, hops)
  {
    if |hops| >= 2 {
      NeighboursLink(hops[1..]);
      forall key | key in Neighbours(hops)
        ensures Link(key, hops)
      {
        if key in Neighbours(hops[1..]) {
          LinkMore(key, hops[1..], hops);
        } else {
          assert hops[0] in hops && hops[1] in hops && key == hops[1] + "!" + hops[0];
        }
      }
    }
  }

  lemma LinkMore(key: string, sites: seq<string>, more: seq<string>)
    requires Link(key, sites) && forall a | a in sites :: a in more
    ensures Link(key, more)
  {
  }

  /** The key joins two of these hops. */
  ghost predicate Joins(key: string, hops: multiset<string>) {
    exists a, b :: a in hops && b in hops && key == a + "!" + b
  }

  lemma JoinsMore(key: string, hops: multiset<string>, more: multiset<string>)
    ensures Joins(key, hops) ==> Joins(key, hops + more) && Joins(key, more + hops)
  {
    if Joins(key, hops) {
      var a, b :| a in hops && b in hops && key == a + "!" + b;
      assert a in hops + more && b in hops + more && a in more + hops && b in more + hops;
    }
  }

  lemma LinkJoins(key: string, hops: seq<string>)
    requires Link(key, hops)
    ensures Joins(key, multiset(hops))
  {
    var a, b :| a in hops && b in hops && key == a + "!" + b;
    assert a in multiset(hops) && b in multiset(hops);
  }

  /** All hops of all paths, each a site name, and all neighbours, each linking two of the hops. */
  lemma {:induction false} TotalsSound(paths: seq<string>, letter: char -> bool)
    ensures forall h | h in HopsOf(paths, letter) :: Hop(h)
    ensures forall key | key in NeighboursOf(paths, letter) :: Joins(key, HopsOf(paths, letter))
    ensures ArticlesOf(paths, letter) > 0 ==> exists h :: h in HopsOf(paths, letter)
  {
    hide ParseHops, Neighbours, Joins, Link, Hop;
    if paths != [] {
      var hops := ParseHops(paths[0], letter);
      ParseHopsPlain(paths[0], letter);
      NeighboursLink(hops);
      TotalsSound(paths[1..], letter);
      if hops != [] {
        assert hops[0] in HopsOf(paths, letter);
      }
      forall key | key in NeighboursOf(paths, letter)
        ensures Joins(key, HopsOf(paths, letter))
      {
        if key in Neighbours(hops) {
          LinkJoins(key, hops);
        }
        JoinsMore(key, multiset(hops), HopsOf(paths[1..], letter));
        JoinsMore(key, HopsOf(paths[1..], letter), multiset(hops));
      }
    }
  }

  /** Every gathering is sound. */
  lemma GatheringSound(g: Gathering, s: Stats, letter: char -> bool)
    requires Gathers(g, s, letter)
    ensures Sound(s)
  {
    hide HopsOf, NeighboursOf, ArticlesOf, Gathers, Hop;
    GatheringSays(g, s, letter);
    TotalsSound(Paths(g), letter);
  }

  // ----- The program's statistics -----

  class PathStats {
    const letter: char -> bool
    var sites: seq<string>
    var siteIdx: map<string, int>
    var siteCount: map<string, int>
    var rels: map<string, int>
    var articles: int
    var start: Time
    var end: Time

    constructor (letter: char -> bool, now: Time)
      ensures View() == NewStats(now) && this.letter == letter
    {
      this.letter := letter;
      sites, siteIdx, siteCount, rels, articles, start, end := [], map[], map[], map[], 0, now, now;
    }

    ghost function View(): Stats
      reads this
    {
      Stats(sites, siteIdx, siteCount, rels, articles, start, end)
    }

    method SiteIndex(name: string) returns (i: int)
      modifies this`sites, this`siteIdx
      ensures View() == WithSite(old(View()), name) && name in siteIdx && i == siteIdx[name]
    {
      if name in siteIdx {
        return siteIdx[name];
      }
      i := |sites|;
      sites := sites + [name];
      siteIdx := siteIdx[name := i];
    }

    method Hops(path0: string) returns (hops: seq<string>)
      ensures hops == ParseHops(path0, letter)
    {
      hide HopOK;
      var path := TrimSpace(path0);
      if path == "" {
        return [];
      }
      hops := [];
      var parts := Split(path, '!');
      assert parts[0..] == parts;
      for i := 0 to |parts|
        invariant hops + GoodHops(parts[i..], letter) == GoodHops(parts, letter)
      {
        assert parts[i..][1..] == parts[i + 1..];
        if HopOK(parts[i], letter) {
          hops := hops + [parts[i]];
        }
      }
    }

    /** Records one Path field. */
    method AddPath(path: string, now: Time)
      modifies this
      ensures View() == WithPath(old(View()), path, now, letter)
    {
      hide ParseHops, Neighbours, CountSites, AddAll;
      var hops := Hops(path);
      if |hops| == 0 {
        return;
      }
      if articles == 0 {
        start := now;
      }
      end := now;
      articles := articles + 1;
      CountHops(hops);
      CountNeighbours(hops);
    }

    method CountHops(hops: seq<string>)
      modifies this`sites, this`siteIdx, this`siteCount
      ensures View() == CountSites(old(View()), hops)
    {
      assert hops[0..] == hops;
      for i := 0 to |hops|
        invariant CountSites(old(View()), hops) == CountSites(View(), hops[i..])
      {
        assert hops[i..][1..] == hops[i + 1..];
        var h := hops[i];
        siteCount := siteCount[h := (if h in siteCount then siteCount[h] else 0) + 1];
        var _ := SiteIndex(h);
      }
    }

    method CountNeighbours(hops: seq<string>)
      requires hops != []
      modifies this`rels
      ensures rels == AddAll(old(rels), Neighbours(hops))
    {
      var i := |hops| - 1;
      NeighboursOfOne(hops[i..]);
      while i > 0
        invariant 0 <= i < |hops| && rels == AddAll(old(rels), Neighbours(hops[i..]))
        decreases i
      {
        var key := hops[i] + "!" + hops[i - 1];
        assert hops[i - 1..][1..] == hops[i..] && hops[i - 1..][1] == hops[i];
        AddAllSnoc(old(rels), Neighbours(hops[i..]), key);
        rels := rels[key := (if key in rels then rels[key] else 0) + 1];
        i := i - 1;
      }
      assert hops[0..] == hops;
    }

    /** Adds other statistics into these, which may be the same object. The sites come in some order of the other's
        table. */
    method Merge(other: PathStats) returns (ghost names: seq<string>)
      modifies this
      ensures View() == WithMerged(old(View()), old(other.View()), names)
      ensures old(other.articles) != 0 ==> Lists(names, old(other.siteCount).Keys)
    {
      hide MergeSites, Sum, Distinct;
      names := [];
      if other.articles == 0 {
        return;
      }
      if articles == 0 {
        start := other.start;
      } else if other.start < start {
        start := other.start;
      }
      if other.end > end {
        end := other.end;
      }
      articles := articles + other.articles;
      names := MergeCounts(other);
      MergeRels(other.rels);
    }

    method MergeCounts(other: PathStats) returns (ghost names: seq<string>)
      modifies this`sites, this`siteIdx, this`siteCount
      ensures View() == MergeSites(old(View()), names, old(other.siteCount)) && Lists(names, old(other.siteCount).Keys)
    {
      hide CountSite;
      ghost var counts := other.siteCount;
      names := [];
      var todo := other.siteCount.Keys;
      while todo != {}
        invariant todo <= counts.Keys == other.siteCount.Keys && Lists(names, counts.Keys - todo)
        invariant forall name | name in todo :: other.siteCount[name] == counts[name]
        invariant View() == MergeSites(old(View()), names, counts)
        decreases todo
      {
        var name :| name in todo;
        MergeSitesSnoc(old(View()), names, name, counts);
        CountOne(name, other.siteCount[name]);
        todo := todo - {name};
        names := names + [name];
      }
    }

    method CountOne(name: string, n: int)
      modifies this`sites, this`siteIdx, this`siteCount
      ensures View() == CountSite(old(View()), name, n)
      ensures siteCount == old(siteCount)[name := Counted(old(siteCount), name) + n]
    {
      siteCount := siteCount[name := (if name in siteCount then siteCount[name] else 0) + n];
      var _ := SiteIndex(name);
    }

    method MergeRels(more: map<string, int>)
      modifies this`rels
      ensures rels == Sum(old(rels), more)
    {
      hide SumSome, Sum;
      var todo := more.Keys;
      SumNone(old(rels), more);
      while todo != {}
        invariant todo <= more.Keys && rels == SumSome(old(rels), more, todo)
        decreases todo
      {
        var key :| key in todo;
        SumNext(old(rels), more, todo, key);
        rels := rels[key := (if key in rels then rels[key] else 0) + more[key]];
        todo := todo - {key};
      }
      SumDone(old(rels), more);
    }
  }

  /** The sum but for the keys that are left. */
  function SumSome(a: map<string, int>, b: map<string, int>, left: set<string>): map<string, int> {
    map k | k in a.Keys + (b.Keys - left) :: Counted(a, k) + if k in left then 0 else Counted(b, k)
  }

  lemma SumNone(a: map<string, int>, b: map<string, int>)
    ensures SumSome(a, b, b.Keys) == a
  {
  }

  lemma SumNext(a: map<string, int>, b: map<string, int>, left: set<string>, key: string)
    requires key in left && left <= b.Keys
    ensures SumSome(a, b, left - {key}) == Add(SumSome(a, b, left), key, b[key])
  {
  }

  lemma SumDone(a: map<string, int>, b: map<string, int>)
    ensures SumSome(a, b, {}) == Sum(a, b)
  {
  }

  lemma NeighboursOfOne(hops: seq<string>)
    requires |hops| == 1
    ensures Neighbours(hops) == []
  {
  }

  lemma {:induction false} AddAllSnoc(m: map<string, int>, ks: seq<string>, k: string)
    ensures AddAll(m, ks + [k]) == Add(AddAll(m, ks), k, 1)
    decreases |ks|
  {
    hide Add;
    if ks == [] {
      assert (ks + [k])[1..] == [];
    } else {
      assert (ks + [k])[1..] == ks[1..] + [k];
      AddAllSnoc(Add(m, ks[0], 1), ks[1..], k);
    }
  }

  lemma {:induction false} MergeSitesSnoc(s: Stats, names: seq<string>, name: string, counts: map<string, int>)
    ensures MergeSites(s, names + [name], counts) == CountSite(MergeSites(s, names, counts), name, Counted(counts, name))
    decreases |names|
  {
    hide CountSite;
    if names == [] {
      assert (names + [name])[1..] == [];
    } else {
      assert (names + [name])[1..] == names[1..] + [name];
      MergeSitesSnoc(CountSite(s, names[0], Counted(counts, names[0])), names[1..], name, counts);
    }
  }
}
