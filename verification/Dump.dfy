/** Path statistics written as a dump file and read back. */
module Dump {
  import opened Text
  import opened Seqs
  import opened Inpaths
  import opened Order
  import D = Decimal

  // ----- Words -----

  /** A word: not empty, without white space. */
  predicate Word(w: string) {
    w != "" && forall c | c in w :: !IsSpace(c)
  }

  /** Position of the first white space, or |s|. */
  function WordEnd(s: string): (i: nat)
    ensures i <= |s| && (forall c | c in s[..(i)] :: !IsSpace(c)) && (i < |s| ==> IsSpace(s[i]))
  {
    if s == "" || IsSpace(s[0]) then 0
    else
      var j := WordEnd(s[1..]);
      assert s[..1 + j] == [s[0]] + s[1..][..j];
      1 + j
  }

  /** strings.Fields. */
  function Fields(s: string): (ws: seq<string>)
    ensures forall w | w in ws :: Word(w)
    decreases |s|
  {
    if s == "" then []
    else if IsSpace(s[0]) then Fields(s[1..])
    else
      var i := WordEnd(s);
      [s[..i]] + Fields(s[i..])
  }

  lemma {:induction false} WordEndAt(w: string, rest: string)
    requires (forall c | c in w :: !IsSpace(c)) && (rest == "" || IsSpace(rest[0]))
    ensures WordEnd(w + rest) == |w|
  {
    hide IsSpace;
    if w == "" {
      assert w + rest == rest;
    } else {
      assert w[0] in w && (w + rest)[1..] == w[1..] + rest;
      WordEndAt(w[1..], rest);
    }
  }

  lemma FieldsWord(w: string, rest: string)
    requires Word(w) && (rest == "" || rest[0] == ' ')
    ensures Fields(w + rest) == [w] + if rest == "" then [] else Fields(rest[1..])
  {
    assert w[0] in w;
    SpaceIsSpace();
    hide IsSpace, WordEnd;
    WordEndAt(w, rest);
    assert (w + rest)[..|w|] == w && (w + rest)[|w|..] == rest;
  }

  /** Words joined by spaces are the fields of the line. */
  lemma {:induction false} FieldsJoin(ws: seq<string>)
    requires forall w | w in ws :: Word(w)
    ensures Fields(Join(ws, ' ')) == ws
    ensures forall c | c in Join(ws, ' ') :: c == ' ' || !IsSpace(c)
    ensures Trimmed(Join(ws, ' ')) && (ws != [] ==> Join(ws, ' ') != "" && Join(ws, ' ')[0] == ws[0][0])
  {
    hide IsSpace, WordEnd, Fields;
    if |ws| == 0 {
      NoFields();
    } else {
      var w := ws[0];
      assert w in ws && w[0] in w && w[|w| - 1] in w;
      if |ws| == 1 {
        FieldsWord(w, "");
        assert w + "" == w;
      } else {
        var rest := Join(ws[1..], ' ');
        FieldsJoin(ws[1..]);
        FieldsWord(w, [' '] + rest);
        assert w + ([' '] + rest) == w + [' '] + rest && ([' '] + rest)[1..] == rest;
        assert ws == [w] + ws[1..];
      }
    }
  }

  lemma NoFields()
    ensures Fields("") == []
  {
  }

  lemma SpaceIsSpace()
    ensures IsSpace(' ') && IsSpace('\n')
  {
  }

  lemma NumberWord(n: int)
    ensures Word(D.Format(n))
    ensures forall c | c in D.Format(n) :: c !in {'!', ',', ':', '\n'}
  {
    D.ParseFormat(n);
    D.FormatChars(n);
  }

  // ----- Writing -----

  const VERSION := "3.1.1"
  const SECOND: int := 1_000_000_000

  /** Whole seconds since the epoch. */
  function Unix(t: Time): int {
    t / SECOND
  }

  /** Integer halving that rounds toward zero. */
  function Half(n: int): int {
    if n >= 0 then n / 2 else -(-n / 2)
  }

  function HeaderWords(s: Stats): seq<string> {
    ["!!NINP", VERSION, D.Format(Unix(s.start)), D.Format(Unix(s.end)), D.Format(|s.sites|), D.Format(s.articles),
     D.Format(Half(Unix(s.start) + Unix(s.end)))]
  }

  function SiteWords(sites: seq<string>, count: map<string, int>): seq<string> {
    if sites == [] then [] else [sites[0], D.Format(Counted(count, sites[0]))] + SiteWords(sites[1..], count)
  }

  /** A link as the indices of its two sites, with its count when that is not one. */
  function RelItem(fi: int, ti: int, n: int): string {
    D.Format(fi) + "!" + D.Format(ti) + if n == 1 then "" else "," + D.Format(n)
  }

  /** The links in this order; a key that does not join two known sites is left out. */
  function RelItems(s: Stats, keys: seq<string>): seq<string> {
    if keys == [] then []
    else
      var i := IndexOf(keys[0], '!');
      var rest := RelItems(s, keys[1..]);
      if i == 0 || i == |keys[0]| then rest
      else
        var from, to := keys[0][..i], keys[0][i + 1..];
        if from in s.siteIdx && to in s.siteIdx then
          [RelItem(s.siteIdx[from], s.siteIdx[to], Counted(s.rels, keys[0]))] + rest
        else rest
  }

  function Blob(items: seq<string>): string {
    if items == [] then ":" else if |items| == 1 then ":" + items[0] else ":" + items[0] + ":" + Blob(items[1..])
  }

  function HeaderLine(s: Stats): string {
    Join(HeaderWords(s), ' ')
  }

  function SiteLine(s: Stats): string {
    Join(SiteWords(s.sites, s.siteCount), ' ')
  }

  function RelLine(s: Stats, keys: seq<string>): string {
    Blob(RelItems(s, keys))
  }

  function EndLine(s: Stats): string {
    "!!NEND " + D.Format(|s.rels|)
  }

  const REC_LINE := "!!NLREC"

  /** The dump, its links in this order; without articles there is none. */
  function DumpText(s: Stats, keys: seq<string>): Option<string> {
    if s.articles == 0 then None
    else Some(HeaderLine(s) + "\n" + SiteLine(s) + "\n" + REC_LINE + "\n" + RelLine(s, keys) + "\n" + EndLine(s) + "\n")
  }

  // ----- Reading -----

  const MAX_TOKEN: nat := 65536

  /** A reader of lines: what is left, and whether a line was too long for it. */
  datatype Scanner = Scanner(rest: string, tooLong: bool)

  /** A line and its newline must fit into the reader's buffer. */
  predicate Fits(line: string) {
    OctetLength(line) < MAX_TOKEN
  }

  function Scan(sc: Scanner): (r: (Scanner, Option<string>))
    ensures r.1.Some? ==> |r.0.rest| < |sc.rest| && !r.0.tooLong
    ensures r.1.None? ==> r.0.rest == sc.rest
  {
    if sc.rest == "" || sc.tooLong then (sc, None)
    else
      var i := IndexOf(sc.rest, '\n');
      if !Fits(sc.rest[..i]) then (sc.(tooLong := true), None)
      else (sc.(rest := if i < |sc.rest| then sc.rest[i + 1..] else ""), Some(sc.rest[..i]))
  }

  function NextNonEmpty(sc: Scanner): (Scanner, string)
    decreases |sc.rest|
  {
    var (sc1, line) := Scan(sc);
    if line == None then (sc1, "")
    else if TrimSpace(line.value) != "" then (sc1, TrimSpace(line.value))
    else NextNonEmpty(sc1)
  }

  /** A number, or zero for what is none. */
  function Atoi(s: string): int {
    var n := D.Parse(s);
    if n == None then 0 else n.value
  }

  function SetSite(s: Stats, name: string, n: int): Stats {
    var s1 := WithSite(s, name);
    s1.(siteCount := s1.siteCount[name := n])
  }

  function SetSites(s: Stats, words: seq<string>): Stats
    decreases |words|
  {
    if |words| < 2 then s else SetSites(SetSite(s, words[0], Atoi(words[1])), words[2..])
  }

  /** Sites up to the line that begins the links. */
  function ReadSites(sc: Scanner, s: Stats): (Scanner, Stats)
    decreases |sc.rest|
  {
    var (sc1, line) := Scan(sc);
    if line == None then (sc1, s)
    else
      var t := TrimSpace(line.value);
      if t == "" then ReadSites(sc1, s)
      else if HasPrefix(t, REC_LINE) then (sc1, s)
      else ReadSites(sc1, SetSites(s, Fields(t)))
  }

  /** The lines up to the end mark, put together. */
  function ReadBlob(sc: Scanner): (Scanner, string)
    decreases |sc.rest|
  {
    var (sc1, line) := Scan(sc);
    if line == None then (sc1, "")
    else
      var t := TrimSpace(line.value);
      if HasPrefix(t, "!!NEND") then (sc1, "")
      else
        var (sc2, more) := ReadBlob(sc1);
        (sc2, t + more)
  }

  /** Position of the last occurrence of `c`, or -1. */
  function LastIndexOf(s: string, c: char): (i: int)
    ensures -1 <= i < |s|
    ensures i >= 0 ==> s[i] == c
  {
    if s == "" then -1 else if s[|s| - 1] == c then |s| - 1 else LastIndexOf(s[..|s| - 1], c)
  }

  /** The count behind a comma, and what stands before it. */
  function CutCount(part: string): (string, int) {
    var j := LastIndexOf(part, ',');
    if j > 0 && D.Parse(part[j + 1..]).Some? then (part[..j], D.Parse(part[j + 1..]).value) else (part, 1)
  }

  function ReadRel(s: Stats, part0: string): Stats {
    var part := TrimSpace(part0);
    if part == "" then s
    else
      var (link, n) := CutCount(part);
      var idx := Split(link, '!');
      if |idx| < 2 then s
      else
        var a, b := D.Parse(idx[0]), D.Parse(idx[1]);
        if a.Some? && b.Some? && 0 <= a.value < |s.sites| && 0 <= b.value < |s.sites| then
          s.(rels := Add(s.rels, s.sites[a.value] + "!" + s.sites[b.value], n))
        else s
  }

  function ReadRels(s: Stats, parts: seq<string>): Stats
    decreases |parts|
  {
    if parts == [] then s else ReadRels(ReadRel(s, parts[0]), parts[1..])
  }

  function ParseRelations(s: Stats, blob0: string): Stats {
    var blob := TrimSpace(blob0);
    if blob == "" || blob == ":" then s
    else ReadRels(s, Split(if HasPrefix(blob, ":") then blob else ":" + blob, ':'))
  }

  datatype ReadResult = Read(stats: Stats) | Failed(error: ReadError)
  datatype ReadError = EmptyDump | BadHeader | ShortHeader | LineTooLong

  function DumpOf(text: string): ReadResult {
    var (sc, line) := NextNonEmpty(Scanner(text, false));
    if line == "" then Failed(EmptyDump)
    else if !HasPrefix(line, "!!NINP ") then Failed(BadHeader)
    else
      var fields := Fields(line);
      if |fields| < 7 then Failed(ShortHeader)
      else
        var s := Stats([], map[], map[], map[], Atoi(fields[5]), Atoi(fields[2]) * SECOND, Atoi(fields[3]) * SECOND);
        var (sc1, s1) := ReadSites(sc, s);
        var (sc2, blob) := ReadBlob(sc1);
        if sc2.tooLong then Failed(LineTooLong) else Read(ParseRelations(s1, blob))
  }

  // ----- Lines -----

  lemma ScanLine(line: string, rest: string)
    requires '\n' !in line
    ensures Scan(Scanner(line + "\n" + rest, false)) ==
              if Fits(line) then (Scanner(rest, false), Some(line)) else (Scanner(line + "\n" + rest, true), None)
  {
    hide Fits;
    var text := line + "\n" + rest;
    assert text == line + ['\n'] + rest;
    IndexOfAt(line, '\n', rest);
    assert text[..|line|] == line && text[|line| + 1..] == rest;
  }

  lemma WordsLine(ws: seq<string>)
    requires forall w | w in ws :: Word(w)
    ensures '\n' !in Join(ws, ' ') && TrimSpace(Join(ws, ' ')) == Join(ws, ' ')
    ensures Fields(Join(ws, ' ')) == ws
    ensures ws != [] ==> Join(ws, ' ') != "" && Join(ws, ' ')[0] == ws[0][0]
  {
    hide Word, TrimSpace, IsSpace;
    SpaceIsSpace();
    FieldsJoin(ws);
    TrimSpaceId(Join(ws, ' '));
  }

  // ----- The header -----

  lemma HeaderWordsAre(s: Stats)
    ensures forall w | w in HeaderWords(s) :: Word(w)
    ensures HasPrefix(HeaderLine(s), "!!NINP ")
  {
    hide IsSpace, D.Format;
    NumberWord(Unix(s.start));
    NumberWord(Unix(s.end));
    NumberWord(|s.sites|);
    NumberWord(s.articles);
    NumberWord(Half(Unix(s.start) + Unix(s.end)));
    MarkWords();
  }

  lemma MarkWords()
    ensures Word("!!NINP") && Word(VERSION)
  {
  }

  lemma HeaderRead(s: Stats, rest: string)
    ensures var (sc, line) := NextNonEmpty(Scanner(HeaderLine(s) + "\n" + rest, false));
            if Fits(HeaderLine(s)) then sc == Scanner(rest, false) && line == HeaderLine(s) else line == ""
    ensures Fields(HeaderLine(s)) == HeaderWords(s) && '\n' !in HeaderLine(s)
  {
    hide Fits, Scan, HeaderWords, Word, TrimSpace;
    HeaderWordsAre(s);
    hide HasPrefix;
    WordsLine(HeaderWords(s));
    ScanLine(HeaderLine(s), rest);
    assert HeaderLine(s) != "" by { HeaderNotEmpty(s); }
  }

  lemma HeaderNotEmpty(s: Stats)
    ensures HeaderWords(s) != []
  {
  }

  lemma AtoiFormat(n: int)
    ensures Atoi(D.Format(n)) == n
  {
    hide D.Format, D.Parse;
    D.ParseFormat(n);
  }

  // ----- The sites -----

  ghost predicate WordSites(s: Stats) {
    forall name | name in s.sites :: Word(name)
  }

  lemma {:induction false} SiteWordsAre(sites: seq<string>, count: map<string, int>)
    requires forall name | name in sites :: Word(name)
    ensures forall w | w in SiteWords(sites, count) :: Word(w)
    ensures |SiteWords(sites, count)| == 2 * |sites|
    ensures sites != [] ==> SiteWords(sites, count)[0] == sites[0]
  {
    hide Word, D.Format;
    if sites != [] {
      SiteWordsAre(sites[1..], count);
      NumberWord(Counted(count, sites[0]));
    }
  }

  /** The statistics with the first `k` sites only. */
  ghost function FirstSites(s: Stats, t: Stats, k: nat): Stats
    requires SitesOk(s) && k <= |s.sites|
  {
    t.(sites := s.sites[..k], siteIdx := map name | name in s.siteIdx && s.siteIdx[name] < k :: s.siteIdx[name],
       siteCount := map name | name in s.siteIdx && s.siteIdx[name] < k :: s.siteCount[name])
  }

  lemma FirstSitesNext(s: Stats, t: Stats, k: nat)
    requires SitesOk(s) && k < |s.sites|
    ensures SetSite(FirstSites(s, t, k), s.sites[k], Counted(s.siteCount, s.sites[k])) == FirstSites(s, t, k + 1)
  {
    var name := s.sites[k];
    assert name in s.sites && s.siteIdx[name] == k;
    forall x | x in s.siteIdx && s.siteIdx[x] == k
      ensures x == name
    {
      var i :| 0 <= i < |s.sites| && s.sites[i] == x;
    }
    var u, v := SetSite(FirstSites(s, t, k), name, Counted(s.siteCount, name)), FirstSites(s, t, k + 1);
    assert u.sites == v.sites;
    assert u.siteIdx == v.siteIdx;
    assert u.siteCount == v.siteCount;
  }

  lemma FirstSitesEnds(s: Stats, t: Stats)
    requires SitesOk(s)
    ensures FirstSites(s, t, 0) == t.(sites := [], siteIdx := map[], siteCount := map[])
    ensures FirstSites(s, t, |s.sites|) == t.(sites := s.sites, siteIdx := s.siteIdx, siteCount := s.siteCount)
  {
    forall name | name in s.siteIdx
      ensures 0 <= s.siteIdx[name] < |s.sites|
    {
      var i :| 0 <= i < |s.sites| && s.sites[i] == name;
    }
    assert s.sites[..|s.sites|] == s.sites;
    assert FirstSites(s, t, |s.sites|).siteIdx == s.siteIdx;
    assert FirstSites(s, t, |s.sites|).siteCount == s.siteCount;
  }

  /** The words of the remaining sites restore them. */
  lemma {:induction false} SitesRestored(s: Stats, t: Stats, k: nat)
    requires SitesOk(s) && k <= |s.sites|
    ensures SetSites(FirstSites(s, t, k), SiteWords(s.sites[k..], s.siteCount)) == FirstSites(s, t, |s.sites|)
    decreases |s.sites| - k
  {
    hide FirstSites, SetSite, Atoi, SitesOk;
    if k < |s.sites| {
      var words, name := SiteWords(s.sites[k..], s.siteCount), s.sites[k];
      assert s.sites[k..][0] == name && s.sites[k..][1..] == s.sites[k + 1..];
      assert words == [name, D.Format(Counted(s.siteCount, name))] + SiteWords(s.sites[k + 1..], s.siteCount);
      AtoiFormat(Counted(s.siteCount, name));
      assert words[2..] == SiteWords(s.sites[k + 1..], s.siteCount);
      FirstSitesNext(s, t, k);
      SitesRestored(s, t, k + 1);
    }
  }

  /** Reading the site lines gives the sites back. */
  lemma SitesRead(s: Stats, t: Stats, rest: string)
    requires Sound(s) && s.sites != [] && WordSites(s) && t.sites == [] && t.siteIdx == t.siteCount == map[]
    ensures var text := SiteLine(s) + "\n" + REC_LINE + "\n" + rest;
            var (sc, u) := ReadSites(Scanner(text, false), t);
            if Fits(SiteLine(s)) then
              sc == Scanner(rest, false) && u == t.(sites := s.sites, siteIdx := s.siteIdx, siteCount := s.siteCount)
            else sc.tooLong
  {
    hide Sound, Fits, Scan, Word, SetSites, Fields, TrimSpace;
    var words := SiteWords(s.sites, s.siteCount);
    SiteWordsAre(s.sites, s.siteCount);
    WordsLine(words);
    SiteLineNotRec(s);
    var tail := REC_LINE + "\n" + rest;
    assert SiteLine(s) + "\n" + REC_LINE + "\n" + rest == SiteLine(s) + "\n" + tail;
    ScanLine(SiteLine(s), tail);
    RecLineScans(rest);
    SitesOfSound(s);
    FirstSitesEnds(s, t);
    SitesRestored(s, t, 0);
    assert s.sites[0..] == s.sites;
    hide SiteLine, FirstSites;
    ReadSitesTwo(SiteLine(s), rest, t);
  }

  lemma SitesOfSound(s: Stats)
    requires Sound(s)
    ensures SitesOk(s)
  {
  }

  lemma SiteLineNotRec(s: Stats)
    requires Sound(s) && s.sites != [] && WordSites(s)
    ensures SiteLine(s) != "" && !HasPrefix(SiteLine(s), REC_LINE)
  {
    hide SitesOk, Word, Fields, TrimSpace, Join, SiteWords, Link;
    SiteWordsAre(s.sites, s.siteCount);
    WordsLine(SiteWords(s.sites, s.siteCount));
    var name := s.sites[0];
    assert name in s.sites && Hop(name) && name[0] != '!';
  }

  lemma RecLineScans(rest: string)
    ensures Scan(Scanner(REC_LINE + "\n" + rest, false)) == (Scanner(rest, false), Some(REC_LINE))
    ensures TrimSpace(REC_LINE) == REC_LINE
  {
    RecLineFits();
    hide Fits;
    ScanLine(REC_LINE, rest);
    TrimSpaceId(REC_LINE);
  }

  lemma RecLineFits()
    ensures Fits(REC_LINE)
  {
    OctetsBound(REC_LINE);
  }

  lemma {:induction false} OctetsBound(s: string)
    ensures OctetLength(s) <= 4 * |s|
  {
    if s != "" {
      OctetsBound(s[1..]);
    }
  }

  lemma ReadSitesTwo(line: string, rest: string, t: Stats)
    requires Scan(Scanner(line + "\n" + (REC_LINE + "\n" + rest), false)) ==
               if Fits(line) then (Scanner(REC_LINE + "\n" + rest, false), Some(line))
               else (Scanner(line + "\n" + (REC_LINE + "\n" + rest), true), None)
    requires Scan(Scanner(REC_LINE + "\n" + rest, false)) == (Scanner(rest, false), Some(REC_LINE))
    requires TrimSpace(line) == line != "" && !HasPrefix(line, REC_LINE) && TrimSpace(REC_LINE) == REC_LINE
    ensures ReadSites(Scanner(line + "\n" + (REC_LINE + "\n" + rest), false), t) ==
              if Fits(line) then (Scanner(rest, false), SetSites(t, Fields(line)))
              else (Scanner(line + "\n" + (REC_LINE + "\n" + rest), true), t)
  {
    hide Fits, Scan, SetSites, Fields, TrimSpace;
    if Fits(line) {
      assert HasPrefix(REC_LINE, REC_LINE);
      assert ReadSites(Scanner(REC_LINE + "\n" + rest, false), SetSites(t, Fields(line))) == (Scanner(rest, false), SetSites(t, Fields(line)));
    }
  }

  // ----- The links -----

  lemma LinkParts(a: string, b: string)
    requires Hop(a)
    ensures var key := a + "!" + b;
            IndexOf(key, '!') == |a| && 0 < |a| < |key| && key[..|a|] == a && key[|a| + 1..] == b
  {
    IndexOfAt(a, '!', b);
    var key := a + ['!'] + b;
    assert key == a + "!" + b && key[..|a|] == a && key[|a| + 1..] == b;
  }

  lemma {:induction false} LastIndexAt(a: string, c: char, b: string)
    requires c !in b
    ensures LastIndexOf(a + [c] + b, c) == |a|
  {
    var s := a + [c] + b;
    if b != "" {
      assert s[|s| - 1] == b[|b| - 1] && b[|b| - 1] in b;
      assert s[..|s| - 1] == a + [c] + b[..|b| - 1];
      LastIndexAt(a, c, b[..|b| - 1]);
    }
  }

  lemma {:induction false} LastIndexNone(s: string, c: char)
    requires c !in s
    ensures LastIndexOf(s, c) == -1
  {
    if s != "" {
      assert s[|s| - 1] in s;
      LastIndexNone(s[..|s| - 1], c);
    }
  }

  /** The text of a link is one word without colons, its count can be cut off, and its indices split. */
  lemma RelItemIs(fi: int, ti: int, n: int)
    ensures var item, link := RelItem(fi, ti, n), D.Format(fi) + "!" + D.Format(ti);
            Word(item) && ':' !in item && CutCount(item) == (link, n) && Split(link, '!') == [D.Format(fi), D.Format(ti)]
  {
    RelItemWord(fi, ti, n);
    NumberWord(fi);
    NumberWord(ti);
    NumberWord(n);
    hide D.Format, D.Parse, Word;
    var a, b, link := D.Format(fi), D.Format(ti), D.Format(fi) + "!" + D.Format(ti);
    assert link == a + ['!'] + b;
    SplitAt(a, '!', b);
    SplitFree(b, '!');
    assert ',' !in link;
    if n == 1 {
      assert RelItem(fi, ti, n) == link;
      LastIndexNone(link, ',');
    } else {
      var item := link + [','] + D.Format(n);
      assert RelItem(fi, ti, n) == item;
      LastIndexAt(link, ',', D.Format(n));
      D.ParseFormat(n);
      assert item[|link| + 1..] == D.Format(n) && item[..|link|] == link;
    }
  }

  lemma RelItemWord(fi: int, ti: int, n: int)
    ensures Word(RelItem(fi, ti, n)) && ':' !in RelItem(fi, ti, n)
  {
    NumberWord(fi);
    NumberWord(ti);
    NumberWord(n);
    hide D.Format;
  }

  /** Reading a link's text counts the link again. */
  lemma RelItemRead(s: Stats, t: Stats, a: string, b: string, n: int)
    requires SitesOk(s) && a in s.sites && b in s.sites && t.sites == s.sites
    ensures a in s.siteIdx && b in s.siteIdx
    ensures ReadRel(t, RelItem(s.siteIdx[a], s.siteIdx[b], n)) == t.(rels := Add(t.rels, a + "!" + b, n))
  {
    var i :| 0 <= i < |s.sites| && s.sites[i] == a;
    var j :| 0 <= j < |s.sites| && s.sites[j] == b;
    assert s.siteIdx[a] == i && s.siteIdx[b] == j;
    hide SitesOk;
    RelItemIs(i, j, n);
    D.ParseFormat(i);
    D.ParseFormat(j);
    WordTrimmed(RelItem(i, j, n));
    hide D.Parse, D.Format, Split, CutCount, TrimSpace, Word, RelItem;
  }

  lemma WordTrimmed(w: string)
    requires Word(w)
    ensures TrimSpace(w) == w && w != ""
  {
    hide IsSpace;
    assert w[0] in w && w[|w| - 1] in w;
    TrimSpaceId(w);
  }

  function AddKeys(m: map<string, int>, keys: seq<string>, counts: map<string, int>): map<string, int>
    decreases |keys|
  {
    if keys == [] then m else AddKeys(Add(m, keys[0], Counted(counts, keys[0])), keys[1..], counts)
  }

  lemma {:induction false} AddKeysAre(m: map<string, int>, keys: seq<string>, counts: map<string, int>)
    requires Distinct(keys)
    ensures var all := AddKeys(m, keys, counts);
            && (forall k :: k in all <==> k in m || k in keys)
            && (forall k | k in all :: all[k] == Counted(m, k) + if k in keys then Counted(counts, k) else 0)
    decreases |keys|
  {
    hide Distinct;
    if keys != [] {
      DistinctTail(keys);
      AddKeysAre(Add(m, keys[0], Counted(counts, keys[0])), keys[1..], counts);
    }
  }

  lemma AddKeysAll(keys: seq<string>, counts: map<string, int>)
    requires Lists(keys, counts.Keys)
    ensures AddKeys(map[], keys, counts) == counts
  {
    hide Distinct;
    AddKeysAre(map[], keys, counts);
  }

  /** The first link's text comes first. */
  lemma RelItemsFirst(s: Stats, keys: seq<string>, a: string, b: string)
    requires keys != [] && keys[0] == a + "!" + b && Hop(a) && a in s.siteIdx && b in s.siteIdx
    ensures RelItems(s, keys) == [RelItem(s.siteIdx[a], s.siteIdx[b], Counted(s.rels, keys[0]))] + RelItems(s, keys[1..])
  {
    LinkParts(a, b);
  }

  /** Two sites joined by a link. */
  lemma LinkOf(s: Stats, key: string) returns (a: string, b: string)
    requires Sound(s) && key in s.rels
    ensures key == a + "!" + b && a in s.sites && b in s.sites && Hop(a) && a in s.siteIdx && b in s.siteIdx
  {
    a, b :| a in s.sites && b in s.sites && key == a + "!" + b;
  }

  lemma BlobSplits(item: string, items: seq<string>)
    requires ':' !in item
    ensures Split(Blob([item] + items), ':') == ["", item] + if items == [] then [] else Split(Blob(items), ':')
  {
    BlobFirst(item, items);
    hide Split, Blob;
    if items == [] {
      SplitAt("", ':', item);
      SplitFree(item, ':');
    } else {
      SplitAt("", ':', item + [':'] + Blob(items));
      SplitAt(item, ':', Blob(items));
    }
  }

  lemma BlobFirst(item: string, items: seq<string>)
    ensures Blob([item] + items) == "" + [':'] + if items == [] then item else item + [':'] + Blob(items)
  {
    assert ([item] + items)[1..] == items;
    if items != [] {
      assert ":" + item + ":" + Blob(items) == "" + [':'] + (item + [':'] + Blob(items));
    }
  }

  lemma ReadTwo(t: Stats, item: string, more: seq<string>)
    ensures ReadRels(t, ["", item] + more) == ReadRels(ReadRel(t, item), more)
  {
    hide ReadRel;
    assert ReadRel(t, "") == t by { ReadNothing(t); }
    assert (["", item] + more)[1..] == [item] + more && ([item] + more)[1..] == more;
  }

  lemma ReadNothing(t: Stats)
    ensures ReadRel(t, "") == t
  {
    assert TrimSpace("") == "";
  }

  /** Reading the links' text counts every link. */
  lemma {:induction false} ItemsRead(s: Stats, t: Stats, keys: seq<string>)
    requires Sound(s) && keys != [] && (forall key | key in keys :: key in s.rels) && t.sites == s.sites
    ensures RelItems(s, keys) != []
    ensures ReadRels(t, Split(RelLine(s, keys), ':')) == t.(rels := AddKeys(t.rels, keys, s.rels))
    decreases |keys|
  {
    hide Sound, ReadRel, ReadRels, Split, Blob, RelItems, RelItem, Hop;
    var a, b := LinkOf(s, keys[0]);
    RelItemsFirst(s, keys, a, b);
    SitesOfSound(s);
    var n := Counted(s.rels, keys[0]);
    var item, items := RelItem(s.siteIdx[a], s.siteIdx[b], n), RelItems(s, keys[1..]);
    RelItemIs(s.siteIdx[a], s.siteIdx[b], n);
    RelItemRead(s, t, a, b, n);
    BlobSplits(item, items);
    hide SitesOk, Add;
    var t1 := t.(rels := Add(t.rels, keys[0], n));
    if |keys| == 1 {
      NoItems(s, keys[1..]);
      ReadTwo(t, item, []);
      assert ["", item] + [] == ["", item];
      ReadNoRels(t1);
    } else {
      ReadTwo(t, item, Split(Blob(items), ':'));
      ItemsRead(s, t1, keys[1..]);
    }
  }

  lemma NoItems(s: Stats, keys: seq<string>)
    requires keys == []
    ensures RelItems(s, keys) == []
  {
  }

  lemma ReadNoRels(t: Stats)
    ensures ReadRels(t, []) == t
  {
  }

  lemma {:induction false} BlobWord(s: Stats, keys: seq<string>)
    requires Sound(s) && forall key | key in keys :: key in s.rels
    ensures forall item | item in RelItems(s, keys) :: Word(item) && ':' !in item
    ensures |RelItems(s, keys)| == |keys|
  {
    hide Sound, Word, RelItem, RelItems, Hop;
    if keys == [] {
      NoItems(s, keys);
    } else {
      var a, b := LinkOf(s, keys[0]);
      RelItemsFirst(s, keys, a, b);
      RelItemIs(s.siteIdx[a], s.siteIdx[b], Counted(s.rels, keys[0]));
      BlobWord(s, keys[1..]);
    }
  }

  lemma {:induction false} BlobChars(items: seq<string>)
    requires forall item | item in items :: Word(item)
    ensures Word(Blob(items)) && Blob(items)[0] == ':' && (items == [] <==> Blob(items) == ":")
  {
    ColonIsNoSpace();
    hide IsSpace;
    if |items| > 0 {
      assert items[0] in items;
      if |items| > 1 {
        BlobChars(items[1..]);
      }
    }
  }

  lemma ColonIsNoSpace()
    ensures !IsSpace(':')
  {
  }

  /** Reading the link line restores all links. */
  lemma RelsRestored(s: Stats, t: Stats, keys: seq<string>)
    requires Sound(s) && Lists(keys, s.rels.Keys) && t.sites == s.sites && t.rels == map[]
    ensures ParseRelations(t, RelLine(s, keys)) == t.(rels := s.rels)
    ensures Word(RelLine(s, keys)) && RelLine(s, keys)[0] == ':'
  {
    hide Sound, Split, Blob, RelItems, ReadRels, Word, Distinct, TrimSpace;
    BlobWord(s, keys);
    BlobChars(RelItems(s, keys));
    WordTrimmed(RelLine(s, keys));
    AddKeysAll(keys, s.rels);
    if keys != [] {
      ItemsRead(s, t, keys);
    } else {
      assert s.rels == map[];
    }
  }

  // ----- The end -----

  lemma EndLineIs(s: Stats)
    ensures '\n' !in EndLine(s) && TrimSpace(EndLine(s)) == EndLine(s) && HasPrefix(EndLine(s), "!!NEND")
  {
    NumberWord(|s.rels|);
    EndMark(D.Format(|s.rels|));
    hide D.Format, IsSpace, TrimSpace, HasPrefix;
    TrimSpaceId(EndLine(s));
  }

  lemma EndMark(n: string)
    requires Word(n) && '\n' !in n
    ensures var line := "!!NEND " + n; '\n' !in line && Trimmed(line) && HasPrefix(line, "!!NEND")
  {
    var line := "!!NEND " + n;
    assert n[|n| - 1] in n && line[|line| - 1] == n[|n| - 1];
    assert line[..6] == "!!NEND";
  }

  lemma BlobRead(s: Stats, rel: string)
    requires Word(rel) && rel[0] == ':'
    ensures var (sc, blob) := ReadBlob(Scanner(rel + "\n" + EndLine(s) + "\n", false));
            if Fits(rel) && Fits(EndLine(s)) then !sc.tooLong && blob == rel else sc.tooLong
  {
    WordTrimmed(rel);
    NoNewline(rel);
    EndLineIs(s);
    hide Fits, Scan, Word, TrimSpace, EndLine;
    var tail := EndLine(s) + "\n";
    assert rel + "\n" + EndLine(s) + "\n" == rel + "\n" + tail;
    ScanLine(rel, tail);
    assert tail == EndLine(s) + "\n" + "";
    ScanLine(EndLine(s), "");
    ReadBlobTwo(rel, EndLine(s));
  }

  lemma NoNewline(w: string)
    requires Word(w)
    ensures '\n' !in w
  {
    SpaceIsSpace();
  }

  lemma ReadBlobTwo(rel: string, end: string)
    requires TrimSpace(rel) == rel && rel != "" && rel[0] == ':' && TrimSpace(end) == end && HasPrefix(end, "!!NEND")
    requires Scan(Scanner(rel + "\n" + (end + "\n"), false)) ==
               if Fits(rel) then (Scanner(end + "\n", false), Some(rel)) else (Scanner(rel + "\n" + (end + "\n"), true), None)
    requires Scan(Scanner(end + "\n", false)) ==
               if Fits(end) then (Scanner("", false), Some(end)) else (Scanner(end + "\n", true), None)
    ensures var (sc, blob) := ReadBlob(Scanner(rel + "\n" + (end + "\n"), false));
            if Fits(rel) && Fits(end) then !sc.tooLong && blob == rel else sc.tooLong
  {
    hide Fits, Scan, TrimSpace;
    if Fits(rel) {
      assert rel + "" == rel;
      var (sc, blob) := ReadBlob(Scanner(end + "\n", false));
      assert if Fits(end) then sc == Scanner("", false) && blob == "" else sc.tooLong;
    }
  }

  // ----- The round trip -----

  /** The statistics with their times cut to whole seconds. */
  function Seconds(s: Stats): Stats {
    s.(start := Unix(s.start) * SECOND, end := Unix(s.end) * SECOND)
  }

  ghost predicate LinesFit(s: Stats, keys: seq<string>) {
    Fits(HeaderLine(s)) && Fits(SiteLine(s)) && Fits(RelLine(s, keys)) && Fits(EndLine(s))
  }

  function Begun(s: Stats): Stats {
    Stats([], map[], map[], map[], s.articles, Unix(s.start) * SECOND, Unix(s.end) * SECOND)
  }

  lemma HeaderNumbers(s: Stats)
    ensures var fields := HeaderWords(s);
            |fields| == 7 && Stats([], map[], map[], map[], Atoi(fields[5]), Atoi(fields[2]) * SECOND, Atoi(fields[3]) * SECOND) == Begun(s)
  {
    hide Atoi, D.Format;
    AtoiFormat(Unix(s.start));
    AtoiFormat(Unix(s.end));
    AtoiFormat(s.articles);
  }

  /** Once the header line is read, the rest is read behind it. */
  lemma DumpAfterHeader(s: Stats, rest: string)
    requires HeaderLine(s) != ""
    ensures DumpOf(HeaderLine(s) + "\n" + rest) ==
              if !Fits(HeaderLine(s)) then Failed(EmptyDump)
              else
                var (sc1, s1) := ReadSites(Scanner(rest, false), Begun(s));
                var (sc2, blob) := ReadBlob(sc1);
                if sc2.tooLong then Failed(LineTooLong) else Read(ParseRelations(s1, blob))
  {
    hide Fits, HeaderLine, NextNonEmpty, ReadSites, ReadBlob, ParseRelations, HeaderWords, Fields, HasPrefix, Atoi;
    HeaderRead(s, rest);
    HeaderWordsAre(s);
    HeaderNumbers(s);
  }

  /** Sites without white space come back exactly when every line fits into the reader's buffer. */
  lemma WordSitesDump(s: Stats, keys: seq<string>)
    requires Sound(s) && s.articles > 0 && Lists(keys, s.rels.Keys) && WordSites(s)
    ensures LinesFit(s, keys) ==> DumpOf(DumpText(s, keys).value) == Read(Seconds(s))
    ensures !LinesFit(s, keys) ==> DumpOf(DumpText(s, keys).value).Failed?
  {
    hide Fits, HeaderLine, SiteLine, RelLine, EndLine, ReadSites, ReadBlob, ParseRelations, Word, Distinct, Link, SitesOk, WordSites, DumpOf;
    HeaderLineNotEmpty(s);
    var t := Begun(s).(sites := s.sites, siteIdx := s.siteIdx, siteCount := s.siteCount);
    RelsRestored(s, t, keys);
    var end := RelLine(s, keys) + "\n" + EndLine(s) + "\n";
    var rest := SiteLine(s) + "\n" + REC_LINE + "\n" + end;
    assert DumpText(s, keys).value == HeaderLine(s) + "\n" + rest;
    DumpAfterHeader(s, rest);
    SitesRead(s, Begun(s), end);
    BlobRead(s, RelLine(s, keys));
    if Fits(HeaderLine(s)) && !Fits(SiteLine(s)) {
      var (sc1, s1) := ReadSites(Scanner(rest, false), Begun(s));
      TooLongStays(sc1);
    }
  }

  lemma HeaderLineNotEmpty(s: Stats)
    ensures HeaderLine(s) != ""
  {
    hide HeaderWords, Word;
    HeaderWordsAre(s);
  }

  lemma TooLongStays(sc: Scanner)
    requires sc.tooLong
    ensures ReadBlob(sc).0.tooLong
  {
  }

  lemma {:induction false} SetSitesWords(s: Stats, words: seq<string>)
    requires WordSites(s) && forall w | w in words :: Word(w)
    ensures WordSites(SetSites(s, words))
    decreases |words|
  {
    hide Word, Atoi;
    if |words| >= 2 {
      SetSitesWords(SetSite(s, words[0], Atoi(words[1])), words[2..]);
    }
  }

  /** Every site read from a dump is a word. */
  lemma {:induction false} ReadSitesWords(sc: Scanner, s: Stats)
    requires WordSites(s)
    ensures WordSites(ReadSites(sc, s).1)
    decreases |sc.rest|
  {
    hide WordSites, SetSites, Word, TrimSpace, Scan, Fields, HasPrefix;
    var (sc1, line) := Scan(sc);
    ScanShrinks(sc);
    if line.Some? {
      var t := TrimSpace(line.value);
      if t == "" {
        ReadSitesWords(sc1, s);
      } else if !HasPrefix(t, REC_LINE) {
        SetSitesWords(s, Fields(t));
        ReadSitesWords(sc1, SetSites(s, Fields(t)));
      }
    }
  }

  lemma ScanShrinks(sc: Scanner)
    ensures Scan(sc).1.Some? ==> |Scan(sc).0.rest| < |sc.rest|
  {
  }

  lemma {:induction false} ReadRelsSites(s: Stats, parts: seq<string>)
    ensures ReadRels(s, parts).sites == s.sites
    decreases |parts|
  {
    if parts != [] {
      hide TrimSpace, CutCount, Split, D.Parse;
      ReadRelsSites(ReadRel(s, parts[0]), parts[1..]);
    }
  }

  /** A dump of sound statistics gives them back, times cut to the second, exactly when no site name has white
      space in it and every line fits into the reader's buffer; the links may have been written in any order. */
  lemma DumpRoundTripIff(s: Stats, keys: seq<string>)
    requires Sound(s) && s.articles > 0 && Lists(keys, s.rels.Keys)
    ensures DumpOf(DumpText(s, keys).value) == Read(Seconds(s)) <==> WordSites(s) && LinesFit(s, keys)
  {
    hide Sound, Distinct, LinesFit, Word, HeaderLine, SiteLine, RelLine, EndLine, NextNonEmpty, HasPrefix, Fields, Atoi,
         ReadSites, ReadBlob, Split, TrimSpace, ReadRels;
    if WordSites(s) {
      WordSitesDump(s, keys);
    } else {
      var (sc, line) := NextNonEmpty(Scanner(DumpText(s, keys).value, false));
      var fields := Fields(line);
      if |fields| >= 7 {
        var t := Stats([], map[], map[], map[], Atoi(fields[5]), Atoi(fields[2]) * SECOND, Atoi(fields[3]) * SECOND);
        ReadSitesWords(sc, t);
        var t1 := ReadSites(sc, t).1;
        forall parts {
          ReadRelsSites(t1, parts);
        }
      }
    }
  }

  // ----- The program's reader and writer -----

  class LineReader {
    var rest: string
    var tooLong: bool

    constructor (text: string)
      ensures View() == Scanner(text, false)
    {
      rest, tooLong := text, false;
    }

    ghost function View(): Scanner
      reads this
    {
      Scanner(rest, tooLong)
    }

    method ScanNext() returns (line: Option<string>)
      modifies this
      ensures (View(), line) == Scan(old(View()))
    {
      if rest == "" || tooLong {
        return None;
      }
      var i := IndexOf(rest, '\n');
      var text := rest[..i];
      if !Fits(text) {
        tooLong := true;
        return None;
      }
      rest := if i < |rest| then rest[i + 1..] else "";
      return Some(text);
    }

    method NextNonEmptyLine() returns (text: string)
      modifies this
      ensures (View(), text) == NextNonEmpty(old(View()))
    {
      hide Scan;
      ghost var sc := View();
      while true
        invariant NextNonEmpty(sc) == NextNonEmpty(View())
        decreases |rest|
      {
        ScanShrinks(View());
        var line := ScanNext();
        if line == None {
          return "";
        }
        text := TrimSpace(line.value);
        if text != "" {
          return;
        }
      }
    }
  }

  /** Reads the sites into the statistics. */
  method ReadSiteLines(sc: LineReader, s: PathStats)
    modifies sc, s`sites, s`siteIdx, s`siteCount
    ensures (sc.View(), s.View()) == ReadSites(old(sc.View()), old(s.View()))
  {
    hide Scan, SetSites, Fields, TrimSpace, HasPrefix;
    ghost var sc0, s0 := sc.View(), s.View();
    while true
      invariant ReadSites(sc0, s0) == ReadSites(sc.View(), s.View())
      decreases |sc.rest|
    {
      ScanShrinks(sc.View());
      var line := sc.ScanNext();
      if line == None {
        return;
      }
      var t := TrimSpace(line.value);
      if t == "" {
        continue;
      }
      if HasPrefix(t, REC_LINE) {
        return;
      }
      ReadSiteWords(s, Fields(t));
    }
  }

  method ReadSiteWords(s: PathStats, words: seq<string>)
    modifies s`sites, s`siteIdx, s`siteCount
    ensures s.View() == SetSites(old(s.View()), words)
  {
    hide Atoi;
    var i := 0;
    assert words[0..] == words;
    while i + 1 < |words|
      invariant 0 <= i <= |words| && SetSites(old(s.View()), words) == SetSites(s.View(), words[i..])
    {
      assert words[i..][2..] == words[i + 2..];
      var n := Atoi(words[i + 1]);
      var _ := s.SiteIndex(words[i]);
      s.siteCount := s.siteCount[words[i] := n];
      i := i + 2;
    }
  }

  method ReadRelLines(sc: LineReader) returns (blob: string)
    modifies sc
    ensures (sc.View(), blob) == ReadBlob(old(sc.View()))
  {
    hide Scan, TrimSpace, HasPrefix;
    ghost var sc0 := sc.View();
    blob := "";
    assert blob + ReadBlob(sc0).1 == ReadBlob(sc0).1;
    while true
      invariant var (end, more) := ReadBlob(sc.View()); ReadBlob(sc0) == (end, blob + more)
      decreases |sc.rest|
    {
      ScanShrinks(sc.View());
      ghost var before := sc.View();
      var line := sc.ScanNext();
      if line == None {
        assert blob + "" == blob;
        return;
      }
      var t := TrimSpace(line.value);
      if HasPrefix(t, "!!NEND") {
        assert blob + "" == blob;
        return;
      }
      ghost var more := ReadBlob(sc.View()).1;
      assert blob + (t + more) == (blob + t) + more;
      blob := blob + t;
    }
  }

  /** Counts one link, if the text is one. */
  method CountRel(s: PathStats, part0: string)
    modifies s`rels
    ensures s.View() == ReadRel(old(s.View()), part0)
  {
    hide TrimSpace, Split, D.Parse, LastIndexOf;
    var part := TrimSpace(part0);
    if part == "" {
      return;
    }
    var count := 1;
    var j := LastIndexOf(part, ',');
    if j > 0 {
      var n := D.Parse(part[j + 1..]);
      if n.Some? {
        count := n.value;
        part := part[..j];
      }
    }
    var idx := Split(part, '!');
    if |idx| < 2 {
      return;
    }
    var a, b := D.Parse(idx[0]), D.Parse(idx[1]);
    if a == None || b == None || a.value < 0 || b.value < 0 || a.value >= |s.sites| || b.value >= |s.sites| {
      return;
    }
    var key := s.sites[a.value] + "!" + s.sites[b.value];
    s.rels := s.rels[key := (if key in s.rels then s.rels[key] else 0) + count];
  }

  method CountRels(s: PathStats, blob0: string)
    modifies s`rels
    ensures s.View() == ParseRelations(old(s.View()), blob0)
  {
    hide TrimSpace, Split, ReadRel;
    var blob := TrimSpace(blob0);
    if blob == "" || blob == ":" {
      return;
    }
    if !HasPrefix(blob, ":") {
      blob := ":" + blob;
    }
    var parts := Split(blob, ':');
    assert parts[0..] == parts;
    for i := 0 to |parts|
      invariant ReadRels(old(s.View()), parts) == ReadRels(s.View(), parts[i..])
    {
      assert parts[i..][1..] == parts[i + 1..];
      CountRel(s, parts[i]);
    }
  }

  /** Reads a dump file. */
  method ReadDump(text: string, letter: char -> bool, now: Time) returns (s: PathStats, error: Option<ReadError>)
    ensures fresh(s)
    ensures DumpOf(text) == if error.Some? then Failed(error.value) else Read(s.View())
  {
    hide NextNonEmpty, ReadSites, ReadBlob, ParseRelations, Fields, HasPrefix, Atoi;
    var sc := new LineReader(text);
    s := new PathStats(letter, now);
    var line := sc.NextNonEmptyLine();
    if line == "" {
      return s, Some(EmptyDump);
    }
    if !HasPrefix(line, "!!NINP ") {
      return s, Some(BadHeader);
    }
    var fields := Fields(line);
    if |fields| < 7 {
      return s, Some(ShortHeader);
    }
    s.start := Atoi(fields[2]) * SECOND;
    s.end := Atoi(fields[3]) * SECOND;
    s.articles := Atoi(fields[5]);
    ReadSiteLines(sc, s);
    var blob := ReadRelLines(sc);
    CountRels(s, blob);
    error := if sc.tooLong then Some(LineTooLong) else None;
  }

  // ----- The order of the links -----

  /** The keys of the links, sorted. */
  method SortedRelKeys(m: map<string, int>) returns (keys: seq<string>)
    ensures Lists(keys, m.Keys) && Sorted(keys)
  {
    keys := SortedSet(m.Keys);
  }

  /** Writes a dump file. */
  method WriteDump(s: PathStats) returns (text: Option<string>, ghost keys: seq<string>)
    requires SitesOk(s.View())
    ensures Lists(keys, s.rels.Keys) && Sorted(keys) && text == DumpText(s.View(), keys)
  {
    hide HeaderLine, SiteLine, RelLine, EndLine, Sorted, Distinct;
    var sorted := SortedRelKeys(s.rels);
    keys := sorted;
    if s.articles == 0 {
      return None, keys;
    }
    var header := WriteHeader(s);
    var sites := WriteSites(s);
    var rels := WriteRels(s, sorted);
    EndLineText(s.View());
    text := Some(header + "\n" + sites + "\n" + REC_LINE + "\n" + rels + "\n" + "!!NEND " + D.Format(|s.rels|) + "\n");
    EndWritten(header + "\n" + sites + "\n" + REC_LINE + "\n" + rels + "\n", D.Format(|s.rels|));
  }

  lemma EndLineText(s: Stats)
    ensures EndLine(s) == "!!NEND " + D.Format(|s.rels|)
  {
  }

  lemma EndWritten(head: string, n: string)
    ensures head + "!!NEND " + n + "\n" == head + ("!!NEND " + n) + "\n"
  {
  }

  method WriteHeader(s: PathStats) returns (line: string)
    ensures line == HeaderLine(s.View())
  {
    hide D.Format;
    var start, end := Unix(s.start), Unix(s.end);
    var avg := Half(start + end);
    line := "!!NINP " + VERSION + " " + D.Format(start) + " " + D.Format(end) + " " + D.Format(|s.sites|) + " "
            + D.Format(s.articles) + " " + D.Format(avg);
    JoinSeven("!!NINP", VERSION, D.Format(start), D.Format(end), D.Format(|s.sites|), D.Format(s.articles), D.Format(avg));
  }

  lemma JoinSeven(a: string, b: string, c: string, d: string, e: string, f: string, g: string)
    ensures Join([a, b, c, d, e, f, g], ' ') == a + " " + b + " " + c + " " + d + " " + e + " " + f + " " + g
  {
    var all := [a, b, c, d, e, f, g];
    assert all[1..] == [b, c, d, e, f, g] && all[1..][1..] == [c, d, e, f, g] && all[1..][1..][1..] == [d, e, f, g];
    assert Join([f, g], ' ') == f + " " + g;
    assert [e, f, g][1..] == [f, g] && [d, e, f, g][1..] == [e, f, g];
    assert Join([e, f, g], ' ') == e + " " + Join([f, g], ' ');
    assert Join([d, e, f, g], ' ') == d + " " + Join([e, f, g], ' ');
    assert [c, d, e, f, g][1..] == [d, e, f, g] && [b, c, d, e, f, g][1..] == [c, d, e, f, g];
    assert Join([c, d, e, f, g], ' ') == c + " " + Join([d, e, f, g], ' ');
    assert Join([b, c, d, e, f, g], ' ') == b + " " + Join([c, d, e, f, g], ' ');
  }

  method WriteSites(s: PathStats) returns (line: string)
    requires SitesOk(s.View())
    ensures line == SiteLine(s.View())
  {
    hide D.Format;
    line := "";
    for i := 0 to |s.sites|
      invariant line == Join(SiteWords(s.sites[..i], s.siteCount), ' ')
    {
      var name := s.sites[i];
      assert name in s.sites;
      if i > 0 {
        line := line + " ";
      }
      SiteWordsSnoc(s.sites, s.siteCount, i);
      line := line + name + " " + D.Format(s.siteCount[name]);
    }
    assert s.sites[..|s.sites|] == s.sites;
  }

  lemma {:induction false} SiteWordsSnoc(sites: seq<string>, count: map<string, int>, i: nat)
    requires i < |sites|
    ensures Join(SiteWords(sites[..i + 1], count), ' ') ==
              Join(SiteWords(sites[..i], count), ' ') + (if i > 0 then " " else "") + sites[i] + " " + D.Format(Counted(count, sites[i]))
  {
    hide D.Format;
    var a, b := SiteWords(sites[..i + 1], count), SiteWords(sites[..i], count);
    SiteWordsLast(sites, count, i);
    JoinTwo(b, sites[i], D.Format(Counted(count, sites[i])));
  }

  lemma {:induction false} SiteWordsLast(sites: seq<string>, count: map<string, int>, i: nat)
    requires i < |sites|
    ensures SiteWords(sites[..i + 1], count) == SiteWords(sites[..i], count) + [sites[i], D.Format(Counted(count, sites[i]))]
    ensures SiteWords(sites[..i], count) == [] <==> i == 0
  {
    hide D.Format;
    if i > 0 {
      SiteWordsLast(sites[1..], count, i - 1);
      assert sites[..i + 1][1..] == sites[1..][..i] && sites[..i][1..] == sites[1..][..i - 1];
    } else {
      assert sites[..1][1..] == [] && sites[..0] == [];
    }
  }

  lemma {:induction false} JoinTwo(ws: seq<string>, a: string, b: string)
    ensures Join(ws + [a, b], ' ') == Join(ws, ' ') + (if ws == [] then "" else " ") + a + " " + b
  {
    if |ws| == 0 {
      assert ws + [a, b] == [a, b] && [a, b][1..] == [b];
    } else {
      assert (ws + [a, b])[1..] == ws[1..] + [a, b];
      JoinTwo(ws[1..], a, b);
      if |ws| > 1 {
        assert Join(ws, ' ') == ws[0] + [' '] + Join(ws[1..], ' ');
      }
    }
  }

  method WriteRels(s: PathStats, keys: seq<string>) returns (line: string)
    requires forall key | key in keys :: key in s.rels
    ensures line == RelLine(s.View(), keys)
  {
    hide RelItems, Blob, RelItem, IndexOf;
    line := "";
    var first := true;
    ghost var items := [];
    assert keys[0..] == keys;
    for i := 0 to |keys|
      invariant items + RelItems(s.View(), keys[i..]) == RelItems(s.View(), keys)
      invariant first == (items == []) && line == (if first then "" else Blob(items))
    {
      RelItemsStep(s.View(), keys[i..], items);
      assert keys[i..][1..] == keys[i + 1..] && keys[i..][0] == keys[i];
      var key := keys[i];
      var j := IndexOf(key, '!');
      if j == 0 || j == |key| {
        continue;
      }
      var from, to := key[..j], key[j + 1..];
      if from !in s.siteIdx || to !in s.siteIdx {
        continue;
      }
      var item := RelItem(s.siteIdx[from], s.siteIdx[to], s.rels[key]);
      BlobSnoc(items, item);
      if !first {
        line := line + ":";
      }
      first := false;
      line := line + ":" + item;
      items := items + [item];
    }
    NoItems(s.View(), keys[|keys|..]);
    assert items + [] == items;
    if first {
      NoBlob();
      line := line + ":";
    }
  }

  lemma NoBlob()
    ensures Blob([]) == ":"
  {
  }

  lemma RelItemsStep(s: Stats, keys: seq<string>, items: seq<string>)
    requires keys != []
    ensures var i, rest := IndexOf(keys[0], '!'), RelItems(s, keys[1..]);
            items + RelItems(s, keys) ==
              if i == 0 || i == |keys[0]| then items + rest
              else
                var from, to := keys[0][..i], keys[0][i + 1..];
                if from in s.siteIdx && to in s.siteIdx then
                  (items + [RelItem(s.siteIdx[from], s.siteIdx[to], Counted(s.rels, keys[0]))]) + rest
                else items + rest
  {
    hide RelItem, IndexOf;
  }

  lemma {:induction false} BlobSnoc(items: seq<string>, item: string)
    ensures Blob(items + [item]) == (if items == [] then "" else Blob(items) + ":") + ":" + item
  {
    if items != [] {
      assert (items + [item])[1..] == items[1..] + [item];
      BlobSnoc(items[1..], item);
      if |items| == 1 {
        assert Blob(items + [item]) == ":" + items[0] + ":" + Blob([item]);
      }
    }
  }

  // ----- The layout of a dump -----

  /** The lines of a dump: the header with times in seconds, the sites with their counts, the links, and how many of
      these there are. */
  lemma LayoutIs(s: Stats, keys: seq<string>)
    requires s.articles != 0
    ensures var start, end := s.start / 1_000_000_000, s.end / 1_000_000_000;
            var middle := if start + end >= 0 then (start + end) / 2 else -(-(start + end) / 2);
            DumpText(s, keys) ==
            Some("!!NINP" + " " + "3.1.1" + " " + D.Format(start) + " " + D.Format(end) + " " + D.Format(|s.sites|) + " "
                 + D.Format(s.articles) + " " + D.Format(middle) + "\n"
                 + SiteLine(s) + "\n" + "!!NLREC" + "\n" + RelLine(s, keys) + "\n" + ("!!NEND " + D.Format(|s.rels|)) + "\n")
  {
    var start, end := s.start / 1_000_000_000, s.end / 1_000_000_000;
    var middle := if start + end >= 0 then (start + end) / 2 else -(-(start + end) / 2);
    JoinSeven("!!NINP", VERSION, D.Format(start), D.Format(end), D.Format(|s.sites|), D.Format(s.articles), D.Format(middle));
    hide D.Format, Join, SiteLine, RelLine;
  }

  /** Sites stand in their order, each with its count. */
  lemma SiteLineIs(s: Stats, name: string)
    ensures SiteLine(s.(sites := s.sites + [name])) ==
            (if s.sites == [] then "" else SiteLine(s) + " ") + name + " " + D.Format(if name in s.siteCount then s.siteCount[name] else 0)
    ensures SiteLine(s.(sites := [])) == ""
  {
    var more := s.sites + [name];
    SiteWordsSnoc(more, s.siteCount, |s.sites|);
    assert more[..|s.sites| + 1] == more && more[..|s.sites|] == s.sites;
    hide D.Format;
  }

  /** A link is written as the places of its two sites, with its count unless that is one. */
  lemma RelLineIs(s: Stats, keys: seq<string>, a: string, b: string)
    requires Hop(a) && a in s.siteIdx && b in s.siteIdx
    ensures var n := if a + "!" + b in s.rels then s.rels[a + "!" + b] else 0;
            RelLine(s, keys + [a + "!" + b]) ==
            (if RelItems(s, keys) == [] then "" else RelLine(s, keys) + ":") + ":"
            + (D.Format(s.siteIdx[a]) + "!" + D.Format(s.siteIdx[b]) + if n == 1 then "" else "," + D.Format(n))
    ensures RelLine(s, []) == ":" && RelItems(s, []) == []
  {
    var key := a + "!" + b;
    RelItemsFirst(s, [key], a, b);
    assert [key][1..] == [];
    RelItemsAppend(s, keys, [key]);
    var item := RelItem(s.siteIdx[a], s.siteIdx[b], Counted(s.rels, key));
    assert RelItems(s, [key]) == [item];
    BlobSnoc(RelItems(s, keys), item);
    hide D.Format, RelItems, Blob;
  }

  lemma {:induction false} RelItemsAppend(s: Stats, a: seq<string>, b: seq<string>)
    ensures RelItems(s, a + b) == RelItems(s, a) + RelItems(s, b)
  {
    hide RelItem, IndexOf;
    if a == [] {
      assert a + b == b;
    } else {
      assert (a + b)[1..] == a[1..] + b;
      RelItemsAppend(s, a[1..], b);
    }
  }

  /** What is no dump: nothing, a first line without the mark, or one with fewer than seven words. */
  lemma NoDump(line: string, rest: string)
    requires '\n' !in line && Fits(line) && TrimSpace(line) != ""
    ensures !HasPrefix(TrimSpace(line), "!!NINP ") ==> DumpOf(line + "\n" + rest) == Failed(BadHeader)
    ensures HasPrefix(TrimSpace(line), "!!NINP ") && |Fields(TrimSpace(line))| < 7 ==> DumpOf(line + "\n" + rest) == Failed(ShortHeader)
    ensures DumpOf("") == Failed(EmptyDump)
  {
    ScanLine(line, rest);
    hide TrimSpace, Fields, HasPrefix, Scan, ReadSites, ReadBlob, Fits;
    NothingScans();
  }

  lemma NothingScans()
    ensures Scan(Scanner("", false)) == (Scanner("", false), None)
  {
  }
}
