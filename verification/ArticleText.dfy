/** Articles: parsing received text, writing it out again, and the proof that the two undo each other
    whatever order the header map is walked in. */
module ArticleText {
  import opened Text
  import opened Seqs

  type Headers = map<string, seq<string>>

  const CRLF := "\r\n"

  // ----- Line ends -----

  /** strings.ReplaceAll. */
  function ReplaceAll(s: string, what: string, with: string): string
    requires what != ""
    decreases |s|
  {
    if |s| < |what| then s
    else if HasPrefix(s, what) then with + ReplaceAll(s[|what|..], what, with)
    else [s[0]] + ReplaceAll(s[1..], what, with)
  }

  function NormalizeNewlines(s: string): string {
    ReplaceAll(ReplaceAll(ReplaceAll(s, "\r\n", "\n"), "\r", "\n"), "\n", "\r\n")
  }

  predicate Plain(s: string) {
    '\r' !in s && '\n' !in s
  }

  /** A text whose only line ends are CRLF pairs. */
  predicate CrlfOnly(s: string)
    decreases |s|
  {
    s == "" || (if HasPrefix(s, CRLF) then CrlfOnly(s[2..]) else s[0] != '\r' && s[0] != '\n' && CrlfOnly(s[1..]))
  }

  lemma {:induction false} ReplaceNone(s: string, what: string, with: string)
    requires what != "" && what[0] !in s
    ensures ReplaceAll(s, what, with) == s
  {
    if |s| >= |what| {
      ReplaceNone(s[1..], what, with);
    }
  }

  lemma {:induction false} ReplaceRemoves(s: string)
    ensures '\r' !in ReplaceAll(s, "\r", "\n")
  {
    if s != "" {
      ReplaceRemoves(s[1..]);
    }
  }

  lemma {:induction false} RestoresCrlf(s: string)
    requires '\r' !in s
    ensures CrlfOnly(ReplaceAll(s, "\n", "\r\n"))
  {
    if s != "" {
      RestoresCrlf(s[1..]);
      var t := ReplaceAll(s[1..], "\n", "\r\n");
      if s[0] == '\n' {
        assert ("\r\n" + t)[2..] == t;
      } else {
        assert ([s[0]] + t)[1..] == t;
        assert ([s[0]] + t)[0] == s[0] && s[0] in s;
        assert ReplaceAll(s, "\n", "\r\n") == [s[0]] + t;
      }
    }
  }

  lemma {:induction false} CrlfOnlyRestored(s: string)
    requires CrlfOnly(s)
    ensures '\r' !in ReplaceAll(s, "\r\n", "\n")
    ensures ReplaceAll(ReplaceAll(s, "\r\n", "\n"), "\n", "\r\n") == s
    decreases |s|
  {
    if |s| < 2 {
    } else if HasPrefix(s, CRLF) {
      CrlfOnlyRestored(s[2..]);
      var t := ReplaceAll(s[2..], "\r\n", "\n");
      assert ("\n" + t)[1..] == t;
      assert s == CRLF + s[2..];
    } else {
      CrlfOnlyRestored(s[1..]);
      var t := ReplaceAll(s[1..], "\r\n", "\n");
      assert ([s[0]] + t)[1..] == t;
      assert s == [s[0]] + s[1..];
    }
  }

  /** Line ends come out as CRLF pairs, and text that has them already is kept. */
  lemma NormalizeCanonical(s: string)
    ensures CrlfOnly(NormalizeNewlines(s))
    ensures CrlfOnly(s) ==> NormalizeNewlines(s) == s
  {
    hide CrlfOnly, ReplaceAll;
    var a := ReplaceAll(s, "\r\n", "\n");
    ReplaceRemoves(a);
    RestoresCrlf(ReplaceAll(a, "\r", "\n"));
    if CrlfOnly(s) {
      CrlfOnlyRestored(s);
      ReplaceNone(a, "\r", "\n");
    }
  }

  lemma {:induction false} CrlfOnlyAppend(a: string, b: string)
    requires CrlfOnly(a)
    ensures CrlfOnly(a + b) <==> CrlfOnly(b)
    decreases |a|
  {
    if a == "" {
      assert a + b == b;
    } else if HasPrefix(a, CRLF) {
      CrlfOnlyAppend(a[2..], b);
      assert (a + b)[2..] == a[2..] + b;
      assert (a + b)[..2] == a[..2];
    } else {
      CrlfOnlyAppend(a[1..], b);
      assert (a + b)[1..] == a[1..] + b;
    }
  }

  lemma {:induction false} PlainIsCrlfOnly(s: string)
    requires Plain(s)
    ensures CrlfOnly(s)
  {
    if s != "" {
      PlainIsCrlfOnly(s[1..]);
    }
  }

  // ----- Splitting head and body -----

  /** Position of the first empty line's separator, or the length. */
  function FindBlank(s: string): (i: nat)
    ensures i <= |s|
    ensures i < |s| ==> i + 4 <= |s| && s[i..(i + 4)] == "\r\n\r\n"
  {
    if |s| < 4 then |s|
    else if s[..4] == "\r\n\r\n" then 0
    else
      var j := FindBlank(s[1..]);
      assert j < |s[1..]| ==> s[1..][j..j + 4] == s[1 + j..1 + j + 4];
      1 + j
  }

  /** strings.Split at CRLF. */
  function SplitLines(s: string): (ls: seq<string>)
    ensures |ls| >= 1
    decreases |s|
  {
    if s == "" then [""]
    else if HasPrefix(s, CRLF) then [""] + SplitLines(s[2..])
    else
      var rest := SplitLines(s[1..]);
      [[s[0]] + rest[0]] + rest[1..]
  }

  lemma {:induction false} SplitLinesPlain(s: string)
    requires CrlfOnly(s)
    ensures forall l | l in SplitLines(s) :: Plain(l)
    decreases |s|
  {
    if s == "" {
    } else if HasPrefix(s, CRLF) {
      SplitLinesPlain(s[2..]);
    } else {
      SplitLinesPlain(s[1..]);
      var rest := SplitLines(s[1..]);
      assert Plain(rest[0]);
      assert forall l | l in rest[1..] :: l in rest;
      assert Plain([s[0]] + rest[0]);
    }
  }

  lemma {:induction false} SplitLinesAt(line: string, rest: string)
    requires Plain(line)
    ensures SplitLines(line + CRLF + rest) == [line] + SplitLines(rest)
  {
    var s := line + CRLF + rest;
    if line == "" {
      assert s[2..] == rest;
    } else {
      assert s[1..] == line[1..] + CRLF + rest;
      assert Plain(line[1..]);
      SplitLinesAt(line[1..], rest);
      assert line == [line[0]] + line[1..];
    }
  }

  lemma {:induction false} SplitLinesOne(line: string)
    requires Plain(line)
    ensures SplitLines(line) == [line]
  {
    if line != "" {
      assert Plain(line[1..]);
      SplitLinesOne(line[1..]);
      assert line == [line[0]] + line[1..];
    }
  }

  lemma {:induction false} FindBlankSkip(line: string, rest: string)
    requires Plain(line)
    ensures FindBlank(line + CRLF + rest)
         == if HasPrefix(rest, CRLF) then |line| else |line| + 2 + FindBlank(rest)
  {
    hide FindBlank;
    var s := line + CRLF + rest;
    if line == "" {
      FindBlankHere(s);
      assert s[1..] == "\n" + rest;
      FindBlankOther(s[1..]);
      assert s[1..][1..] == rest;
      assert |rest| >= 2 ==> s[..4] == CRLF + rest[..2];
    } else {
      assert s[1..] == line[1..] + CRLF + rest;
      assert s[0] == line[0] && line[0] in line;
      FindBlankOther(s);
      assert Plain(line[1..]);
      FindBlankSkip(line[1..], rest);
    }
  }

  lemma FindBlankHere(s: string)
    requires s != ""
    ensures FindBlank(s) == if HasPrefix(s, "\r\n\r\n") then 0 else 1 + FindBlank(s[1..])
  {
  }

  lemma FindBlankOther(s: string)
    requires s != "" && s[0] != '\r'
    ensures FindBlank(s) == 1 + FindBlank(s[1..])
  {
  }

  // ----- Parsing -----

  datatype Error = NoSeparator | FoldedWithoutName | MalformedLine
  datatype Result<+T> = Ok(value: T) | Err(error: Error)

  datatype Parts = Parts(rawHeaders: string, headers: Headers, body: string)

  function Values(h: Headers, name: string): seq<string> {
    if name in h then h[name] else []
  }

  function Add(h: Headers, name: string, value: string): Headers {
    h[name := Values(h, name) + [value]]
  }

  /** Ends the header in progress, if it has a name. */
  function Flush(h: Headers, name: string, val: string): Headers {
    if name == "" then h else Add(h, name, TrimSpace(val))
  }

  /** Header lines, with the header `name` in progress and `val` read of it. */
  function ParseLines(lines: seq<string>, name: string, val: string, h: Headers): Result<Headers> {
    if lines == [] then Ok(Flush(h, name, val))
    else
      var line := lines[0];
      if line == "" then ParseLines(lines[1..], name, val, h)
      else if line[0] == ' ' || line[0] == '\t' then
        if name == "" then Err(FoldedWithoutName)
        else ParseLines(lines[1..], name, val + " " + TrimSpace(line), h)
      else
        var i := IndexOf(line, ':');
        if i == |line| then Err(MalformedLine)
        else
          // A header without a name is not flushed, and what was read of it stays in front.
          var kept := if name == "" then val else "";
          ParseLines(lines[1..], line[..i], kept + TrimPrefix(line[i + 1..], " "), Flush(h, name, val))
  }

  function ParseHead(head: string, body: string): Result<Parts> {
    match ParseLines(SplitLines(head), "", "", map[])
    case Ok(h) => Ok(Parts(head, h, body))
    case Err(e) => Err(e)
  }

  function ParseSpec(raw: string): Result<Parts> {
    var text := NormalizeNewlines(raw);
    var i := FindBlank(text);
    if i < |text| then ParseHead(text[..i], text[i + 4..])
    else if HasSuffix(text, CRLF) then ParseHead(text[..|text| - 2], "")
    else Err(NoSeparator)
  }

  // ----- What parsing guarantees -----

  predicate GoodName(k: string) {
    k != "" && ':' !in k && Plain(k) && k[0] != ' ' && k[0] != '\t'
  }

  predicate GoodValue(v: string) {
    Trimmed(v) && Plain(v)
  }

  ghost predicate WellFormed(h: Headers) {
    forall k | k in h :: GoodName(k) && h[k] != [] && forall v | v in h[k] :: GoodValue(v)
  }

  lemma TrimSpacePlain(s: string)
    requires Plain(s)
    ensures GoodValue(TrimSpace(s))
  {
  }

  lemma FlushWellFormed(h: Headers, name: string, val: string)
    requires WellFormed(h) && Plain(val) && (name == "" || GoodName(name))
    ensures WellFormed(Flush(h, name, val))
  {
    hide TrimSpace, Trimmed, Plain;
    TrimSpacePlain(val);
  }

  lemma CutGood(line: string, kept: string)
    requires Plain(line) && Plain(kept) && line != "" && line[0] != ' ' && line[0] != '\t'
    ensures var i := IndexOf(line, ':');
            && (i == 0 || GoodName(line[..i]))
            && (i < |line| ==> Plain(kept + TrimPrefix(line[i + 1..], " ")))
  {
    var i := IndexOf(line, ':');
    hide IndexOf;
    assert forall c | c in line[..i] :: c in line;
    if i < |line| {
      assert forall c | c in line[i + 1..] :: c in line;
    }
    assert i > 0 ==> line[..i][0] == line[0];
  }

  lemma {:induction false} ParseLinesWellFormed(lines: seq<string>, name: string, val: string, h: Headers)
    requires forall l | l in lines :: Plain(l)
    requires WellFormed(h) && Plain(val) && (name == "" || GoodName(name))
    ensures var r := ParseLines(lines, name, val, h); r.Ok? ==> WellFormed(r.value)
    decreases |lines|
  {
    hide Plain, GoodName, WellFormed, TrimSpace, Trimmed, IndexOf, TrimPrefix, Flush;
    FlushWellFormed(h, name, val);
    if lines != [] {
      var line := lines[0];
      if line == "" {
        ParseLinesWellFormed(lines[1..], name, val, h);
      } else if line[0] == ' ' || line[0] == '\t' {
        if name != "" {
          FoldPlain(val, line);
          ParseLinesWellFormed(lines[1..], name, val + " " + TrimSpace(line), h);
        }
      } else {
        var i := IndexOf(line, ':');
        var kept := if name == "" then val else "";
        PlainEmpty();
        CutGood(line, kept);
        if i < |line| {
          ParseLinesWellFormed(lines[1..], line[..i], kept + TrimPrefix(line[i + 1..], " "), Flush(h, name, val));
        }
      }
    }
  }

  lemma FoldPlain(val: string, line: string)
    requires Plain(val) && Plain(line)
    ensures Plain(val + " " + TrimSpace(line))
  {
  }

  lemma PlainEmpty()
    ensures Plain("")
  {
  }

  lemma {:induction false} CrlfOnlyCut(s: string, i: nat)
    requires CrlfOnly(s) && i + 2 <= |s| && s[i..i + 2] == CRLF
    ensures CrlfOnly(s[..i]) && CrlfOnly(s[i + 2..])
    decreases |s|
  {
    if i > 0 {
      if HasPrefix(s, CRLF) {
        assert i >= 2 by {
          assert s[i] == '\r';
        }
        assert s[2..][i - 2..i] == s[i..i + 2];
        CrlfOnlyCut(s[2..], i - 2);
        assert s[..i][2..] == s[2..][..i - 2];
        assert s[..i][..2] == CRLF;
        assert s[2..][i..] == s[i + 2..];
      } else {
        assert s[1..][i - 1..i + 1] == s[i..i + 2];
        CrlfOnlyCut(s[1..], i - 1);
        assert s[..i][1..] == s[1..][..i - 1];
        assert s[1..][i + 1..] == s[i + 2..];
      }
    }
  }

  /** Whatever parses has well-formed headers and a body whose line ends are CRLF. */
  lemma ParsedIsWellFormed(raw: string)
    ensures var r := ParseSpec(raw); r.Ok? ==> WellFormed(r.value.headers) && CrlfOnly(r.value.body)
  {
    hide CrlfOnly, FindBlank, SplitLines, ParseLines, NormalizeNewlines;
    var text := NormalizeNewlines(raw);
    NormalizeCanonical(raw);
    var i := FindBlank(text);
    var head := if i < |text| then text[..i] else if HasSuffix(text, CRLF) then text[..|text| - 2] else "";
    if i < |text| {
      assert text[i..i + 2] == text[i..i + 4][..2];
      CrlfOnlyCut(text, i);
      assert text[i + 2..][0..2] == text[i..i + 4][2..];
      CrlfOnlyCut(text[i + 2..], 0);
      assert text[i + 2..][2..] == text[i + 4..];
    } else if HasSuffix(text, CRLF) {
      CrlfOnlyCut(text, |text| - 2);
      CrlfOnlyEmpty();
    }
    if i < |text| || HasSuffix(text, CRLF) {
      SplitLinesPlain(head);
      ParseLinesWellFormed(SplitLines(head), "", "", map[]);
    }
  }

  lemma CrlfIsCrlfOnly()
    ensures CrlfOnly(CRLF)
  {
  }

  lemma CrlfOnlyEmpty()
    ensures CrlfOnly("")
  {
  }

  // ----- Writing -----

  const WELL_KNOWN: seq<string> := [
    "Path", "From", "Newsgroups", "Subject", "Date", "Message-ID",
    "Organization", "Injection-Date", "Injection-Info", "References",
    "Followup-To", "Reply-To", "Sender", "Expires", "Distribution",
    "Keywords", "Summary", "Approved", "Control", "MIME-Version",
    "Content-Type", "Content-Transfer-Encoding", "User-Agent", "Xref"
  ]

  function HeaderLine(k: string, v: string): string {
    k + ": " + v
  }

  /** All the lines of one header. */
  function KeyText(k: string, vs: seq<string>): string {
    if vs == [] then "" else HeaderLine(k, vs[0]) + CRLF + KeyText(k, vs[1..])
  }

  /** The header lines in the order of `ks`. */
  function HeaderText(h: Headers, ks: seq<string>): string
    requires forall k | k in ks :: k in h
  {
    if ks == [] then "" else KeyText(ks[0], h[ks[0]]) + HeaderText(h, ks[1..])
  }

  function EndedBody(body: string): string {
    if body != "" && !HasSuffix(body, CRLF) then body + CRLF else body
  }

  function Serialize(h: Headers, ks: seq<string>, body: string): string
    requires forall k | k in ks :: k in h
  {
    HeaderText(h, ks) + CRLF + EndedBody(body)
  }

  /** `ks` lists every header name once. */
  ghost predicate Enumerates(ks: seq<string>, h: Headers) {
    Distinct(ks) && (forall k :: k in ks <==> k in h)
  }

  /** Position among the well-known names, which come first and in this order. */
  function Rank(k: string): (r: nat)
    ensures r <= |WELL_KNOWN|
    ensures r < |WELL_KNOWN| ==> EqualFold(k, WELL_KNOWN[r])
    ensures forall j | 0 <= j < r :: !EqualFold(k, WELL_KNOWN[j])
  {
    RankFrom(k, 0)
  }

  function RankFrom(k: string, i: nat): (r: nat)
    requires i <= |WELL_KNOWN|
    ensures i <= r <= |WELL_KNOWN|
    ensures r < |WELL_KNOWN| ==> EqualFold(k, WELL_KNOWN[r])
    ensures forall j | i <= j < r :: !EqualFold(k, WELL_KNOWN[j])
    decreases |WELL_KNOWN| - i
  {
    if i == |WELL_KNOWN| || EqualFold(k, WELL_KNOWN[i]) then i else RankFrom(k, i + 1)
  }

  ghost predicate RankSorted(ks: seq<string>) {
    forall i, j | 0 <= i < j < |ks| :: Rank(ks[i]) <= Rank(ks[j])
  }

  // ----- Writing and parsing undo each other -----

  datatype Entry = Entry(name: string, value: string)

  predicate GoodEntry(e: Entry) {
    GoodName(e.name) && GoodValue(e.value)
  }

  function EntryText(es: seq<Entry>): string {
    if es == [] then "" else HeaderLine(es[0].name, es[0].value) + CRLF + EntryText(es[1..])
  }

  function EntryLines(es: seq<Entry>): seq<string> {
    if es == [] then [] else [HeaderLine(es[0].name, es[0].value)] + EntryLines(es[1..])
  }

  function AddAll(h: Headers, es: seq<Entry>): Headers
    decreases es
  {
    if es == [] then h else AddAll(Add(h, es[0].name, es[0].value), es[1..])
  }

  function KeyEntries(k: string, vs: seq<string>): seq<Entry> {
    if vs == [] then [] else [Entry(k, vs[0])] + KeyEntries(k, vs[1..])
  }

  function Entries(h: Headers, ks: seq<string>): seq<Entry>
    requires forall k | k in ks :: k in h
  {
    if ks == [] then [] else KeyEntries(ks[0], h[ks[0]]) + Entries(h, ks[1..])
  }

  lemma {:induction false} EntryTextAppend(a: seq<Entry>, b: seq<Entry>)
    ensures EntryText(a + b) == EntryText(a) + EntryText(b)
  {
    hide HeaderLine;
    if a == [] {
      assert a + b == b;
    } else {
      EntryTextAppend(a[1..], b);
      var line := HeaderLine(a[0].name, a[0].value) + CRLF;
      assert (a + b)[1..] == a[1..] + b && (a + b)[0] == a[0];
      assert line + (EntryText(a[1..]) + EntryText(b)) == (line + EntryText(a[1..])) + EntryText(b);
    }
  }

  lemma {:induction false} KeyTextEntries(k: string, vs: seq<string>)
    ensures KeyText(k, vs) == EntryText(KeyEntries(k, vs))
  {
    if vs != [] {
      KeyTextEntries(k, vs[1..]);
      assert KeyEntries(k, vs)[1..] == KeyEntries(k, vs[1..]);
    }
  }

  lemma {:induction false} HeaderTextEntries(h: Headers, ks: seq<string>)
    requires forall k | k in ks :: k in h
    ensures HeaderText(h, ks) == EntryText(Entries(h, ks))
  {
    if ks != [] {
      HeaderTextEntries(h, ks[1..]);
      KeyTextEntries(ks[0], h[ks[0]]);
      EntryTextAppend(KeyEntries(ks[0], h[ks[0]]), Entries(h, ks[1..]));
    }
  }

  lemma {:induction false} KeyEntriesGood(k: string, vs: seq<string>)
    requires GoodName(k) && forall v | v in vs :: GoodValue(v)
    ensures forall e | e in KeyEntries(k, vs) :: GoodEntry(e)
    ensures |KeyEntries(k, vs)| == |vs|
  {
    if vs != [] {
      KeyEntriesGood(k, vs[1..]);
    }
  }

  lemma {:induction false} EntriesGood(h: Headers, ks: seq<string>)
    requires WellFormed(h) && forall k | k in ks :: k in h
    ensures forall e | e in Entries(h, ks) :: GoodEntry(e)
    ensures ks != [] ==> Entries(h, ks) != []
  {
    if ks != [] {
      EntriesGood(h, ks[1..]);
      KeyEntriesGood(ks[0], h[ks[0]]);
    }
  }

  lemma HeaderLinePlain(e: Entry)
    requires GoodEntry(e)
    ensures Plain(HeaderLine(e.name, e.value))
  {
  }

  lemma {:induction false} EntryTextCrlf(es: seq<Entry>)
    requires forall e | e in es :: GoodEntry(e)
    ensures CrlfOnly(EntryText(es))
  {
    hide CrlfOnly, Plain, HeaderLine;
    CrlfOnlyEmpty();
    if es != [] {
      var line := HeaderLine(es[0].name, es[0].value);
      HeaderLinePlain(es[0]);
      PlainIsCrlfOnly(line);
      EntryTextCrlf(es[1..]);
      CrlfIsCrlfOnly();
      CrlfOnlyAppend(CRLF, EntryText(es[1..]));
      CrlfOnlyAppend(line, CRLF + EntryText(es[1..]));
      assert EntryText(es) == line + (CRLF + EntryText(es[1..]));
    }
  }

  lemma PlainFirst(s: string)
    requires Plain(s) && s != ""
    ensures s[0] != '\r'
  {
  }

  /** The first empty line of a written article ends its header. */
  lemma {:induction false} BlankAfterEntries(es: seq<Entry>, rest: string)
    requires es != [] && forall e | e in es :: GoodEntry(e)
    ensures |EntryText(es)| >= 2
    ensures FindBlank(EntryText(es) + CRLF + rest) == |EntryText(es)| - 2
  {
    hide FindBlank, Plain, Trimmed;
    var line := HeaderLine(es[0].name, es[0].value);
    HeaderLinePlain(es[0]);
    var tail := EntryText(es[1..]) + CRLF + rest;
    assert EntryText(es) + CRLF + rest == line + CRLF + tail;
    FindBlankSkip(line, tail);
    if |es| == 1 {
      assert tail == CRLF + rest;
    } else {
      BlankAfterEntries(es[1..], rest);
      assert GoodEntry(es[1]);
      assert es[1..][0] == es[1];
      assert tail[0] == es[1].name[0];
      assert tail[0] != '\r' by {
        assert Plain(es[1].name);
        PlainFirst(es[1].name);
      }
    }
  }

  lemma {:induction false} SplitEntries(es: seq<Entry>)
    requires es != [] && forall e | e in es :: GoodEntry(e)
    ensures |EntryText(es)| >= 2
    ensures SplitLines(EntryText(es)[..|EntryText(es)| - 2]) == EntryLines(es)
  {
    hide SplitLines;
    var line := HeaderLine(es[0].name, es[0].value);
    HeaderLinePlain(es[0]);
    var head := EntryText(es)[..|EntryText(es)| - 2];
    if |es| == 1 {
      assert EntryText(es[1..]) == "";
      assert head == line;
      SplitLinesOne(line);
      assert EntryLines(es[1..]) == [];
    } else {
      SplitEntries(es[1..]);
      var tail := EntryText(es[1..])[..|EntryText(es[1..])| - 2];
      assert head == line + CRLF + tail;
      SplitLinesAt(line, tail);
    }
  }

  /** Parsing one written header line. */
  lemma ParseEntry(e: Entry, rest: seq<string>, name: string, val: string, h: Headers)
    requires GoodEntry(e)
    requires name == "" ==> val == ""
    ensures ParseLines([HeaderLine(e.name, e.value)] + rest, name, val, h)
         == ParseLines(rest, e.name, e.value, Flush(h, name, val))
  {
    hide TrimSpace, Plain, Trimmed, Flush, IndexOf, HeaderLine;
    var line := HeaderLine(e.name, e.value);
    HeaderLineCut(e);
    var lines := [line] + rest;
    assert lines[0] == line;
    assert lines[1..] == rest;
    assert "" + e.value == e.value;
  }

  /** Cutting a written header line at its colon. */
  lemma HeaderLineCut(e: Entry)
    requires GoodEntry(e)
    ensures var line := HeaderLine(e.name, e.value);
            && line != "" && line[0] != ' ' && line[0] != '\t'
            && IndexOf(line, ':') == |e.name| < |line|
            && line[..|e.name|] == e.name && TrimPrefix(line[|e.name| + 1..], " ") == e.value
  {
    hide TrimSpace, Trimmed, IndexOf;
    var line := HeaderLine(e.name, e.value);
    assert line == e.name + [':'] + (" " + e.value);
    IndexOfAt(e.name, ':', " " + e.value);
    assert line[0] == e.name[0];
    assert line[..|e.name|] == e.name;
    assert line[|e.name| + 1..] == " " + e.value;
    assert TrimPrefix(" " + e.value, " ") == e.value;
  }

  lemma {:induction false} ParseEntries(es: seq<Entry>, name: string, val: string, h: Headers)
    requires forall e | e in es :: GoodEntry(e)
    requires name == "" ==> val == ""
    ensures ParseLines(EntryLines(es), name, val, h) == Ok(AddAll(Flush(h, name, val), es))
    decreases |es|
  {
    if es != [] {
      hide ParseLines, HeaderLine, TrimSpace;
      var e := es[0];
      assert GoodEntry(e);
      ParseEntry(e, EntryLines(es[1..]), name, val, h);
      ParseEntries(es[1..], e.name, e.value, Flush(h, name, val));
      TrimSpaceId(e.value);
    }
  }

  lemma {:induction false} AddAllAppend(h: Headers, a: seq<Entry>, b: seq<Entry>)
    ensures AddAll(h, a + b) == AddAll(AddAll(h, a), b)
    decreases |a|
  {
    if a == [] {
      assert a + b == b;
    } else {
      AddAllAppend(Add(h, a[0].name, a[0].value), a[1..], b);
      assert (a + b)[1..] == a[1..] + b;
    }
  }

  lemma {:induction false} AddAllKey(h: Headers, k: string, vs: seq<string>)
    requires vs != []
    ensures AddAll(h, KeyEntries(k, vs)) == h[k := Values(h, k) + vs]
    decreases |vs|
  {
    var es := KeyEntries(k, vs);
    var h1 := Add(h, k, vs[0]);
    assert es[1..] == KeyEntries(k, vs[1..]);
    if |vs| == 1 {
      assert vs == [vs[0]];
    } else {
      AddAllKey(h1, k, vs[1..]);
      assert Values(h, k) + [vs[0]] + vs[1..] == Values(h, k) + vs;
    }
  }

  lemma {:induction false} AddAllEntries(acc: Headers, h: Headers, ks: seq<string>)
    requires WellFormed(h) && Distinct(ks) && (forall k | k in ks :: k in h && k !in acc)
    ensures AddAll(acc, Entries(h, ks)) == acc + map k | k in ks :: h[k]
    decreases |ks|
  {
    hide KeyEntries, WellFormed;
    if ks != [] {
      var k, tail := ks[0], ks[1..];
      KeyHasValues(h, k);
      AddAllKey(acc, k, h[k]);
      AddAllAppend(acc, KeyEntries(k, h[k]), Entries(h, tail));
      DistinctTail(ks);
      var acc' := acc[k := Values(acc, k) + h[k]];
      assert Values(acc, k) + h[k] == h[k];
      AddAllEntries(acc', h, tail);
      RestrictTail(acc, h, ks);
    }
  }

  lemma KeyHasValues(h: Headers, k: string)
    requires WellFormed(h) && k in h
    ensures h[k] != []
  {
  }

  lemma RestrictTail(acc: Headers, h: Headers, ks: seq<string>)
    requires ks != [] && forall k | k in ks :: k in h
    ensures acc[ks[0] := h[ks[0]]] + (map x | x in ks[1..] :: h[x]) == acc + map x | x in ks :: h[x]
  {
    assert ks == [ks[0]] + ks[1..];
  }

  /** Parsing a written article that has headers gives the same headers and body, in every order of writing. */
  lemma RoundTrip(h: Headers, ks: seq<string>, body: string)
    requires WellFormed(h) && CrlfOnly(body) && Enumerates(ks, h) && h != map[]
    ensures var head := HeaderText(h, ks);
            && |head| >= 2
            && ParseSpec(Serialize(h, ks, body)) == Ok(Parts(head[..|head| - 2], h, EndedBody(body)))
  {
    hide CrlfOnly, FindBlank, SplitLines, ParseLines, NormalizeNewlines, HeaderText, EntryText, Entries, AddAll;
    var es, tail := Entries(h, ks), EndedBody(body);
    var text, head := Serialize(h, ks, body), HeaderText(h, ks);
    SomeKey(h, ks);
    EntriesGood(h, ks);
    HeaderTextEntries(h, ks);
    SerializedCrlf(h, ks, body);
    NormalizeCanonical(text);
    BlankAfterEntries(es, tail);
    assert text == head + CRLF + tail;
    var i := |head| - 2;
    assert i < |text|;
    assert text[i + 4..] == tail;
    assert text[..i] == head[..i];
    SplitEntries(es);
    ParseEntries(es, "", "", map[]);
    AddAllEntries(map[], h, ks);
    assert map[] + (map k | k in ks :: h[k]) == h;
    assert Flush(map[], "", "") == map[];
  }

  lemma SomeKey(h: Headers, ks: seq<string>)
    requires Enumerates(ks, h)
    ensures ks == [] <==> h == map[]
  {
    if ks != [] {
      assert ks[0] in h;
    }
    if h != map[] {
      var k :| k in h;
      assert k in ks;
    }
  }

  lemma SerializedCrlf(h: Headers, ks: seq<string>, body: string)
    requires WellFormed(h) && CrlfOnly(body) && forall k | k in ks :: k in h
    ensures CrlfOnly(Serialize(h, ks, body)) && CrlfOnly(EndedBody(body))
  {
    hide CrlfOnly, HeaderText, EntryText, Entries;
    CrlfIsCrlfOnly();
    EntriesGood(h, ks);
    HeaderTextEntries(h, ks);
    EntryTextCrlf(Entries(h, ks));
    CrlfOnlyAppend(body, CRLF);
    CrlfOnlyAppend(CRLF, EndedBody(body));
    CrlfOnlyAppend(HeaderText(h, ks), CRLF + EndedBody(body));
    assert Serialize(h, ks, body) == HeaderText(h, ks) + (CRLF + EndedBody(body));
  }

  /** The article comes back exactly when it has a header or no body: without headers, the text of a body
      is read as headers. */
  lemma RoundTripIff(h: Headers, ks: seq<string>, body: string)
    requires WellFormed(h) && CrlfOnly(body) && Enumerates(ks, h)
    ensures var r := ParseSpec(Serialize(h, ks, body));
            (r.Ok? && r.value.headers == h && r.value.body == EndedBody(body)) <==> (h != map[] || body == "")
  {
    SomeKey(h, ks);
    if h != map[] {
      RoundTrip(h, ks, body);
    } else {
      NoHeaders(body);
      assert Serialize(h, ks, body) == CRLF + EndedBody(body);
    }
  }

  lemma NoHeaders(body: string)
    requires CrlfOnly(body)
    ensures var r := ParseSpec(CRLF + EndedBody(body));
            (r.Ok? && r.value.headers == map[] && r.value.body == EndedBody(body)) <==> body == ""
  {
    hide CrlfOnly, NormalizeNewlines;
    var text := CRLF + EndedBody(body);
    CrlfIsCrlfOnly();
    CrlfOnlyAppend(body, CRLF);
    CrlfOnlyAppend(CRLF, EndedBody(body));
    NormalizeCanonical(text);
    if body == "" {
      assert text == CRLF;
      assert text[..0] == "";
      assert [""][1..] == [];
    }
  }

  // ----- The stored copy -----

  /** What is kept of a written article: the text before and after its first empty line. */
  function StoredCopy(wire: string): (string, string) {
    var i := FindBlank(wire);
    if i < |wire| then (wire[..i], wire[i + 4..]) else (wire, "")
  }

  /** A stored copy put together again is the article as written, ready to be offered to peers. */
  lemma StoredCopyDelivers(h: Headers, ks: seq<string>, body: string)
    requires WellFormed(h) && CrlfOnly(body) && Enumerates(ks, h) && h != map[]
    ensures var wire := Serialize(h, ks, body);
            var (hdr, text) := StoredCopy(wire);
            hdr + "\r\n\r\n" + text == wire && text == EndedBody(body)
  {
    hide FindBlank, HeaderText, EntryText, Entries;
    SomeKey(h, ks);
    EntriesGood(h, ks);
    HeaderTextEntries(h, ks);
    BlankAfterEntries(Entries(h, ks), EndedBody(body));
    var wire, i := Serialize(h, ks, body), |HeaderText(h, ks)| - 2;
    assert wire == HeaderText(h, ks) + CRLF + EndedBody(body);
    assert wire == wire[..i] + wire[i..i + 4] + wire[i + 4..];
    assert wire[i + 4..] == EndedBody(body);
  }

  /** The header block of one order, with one name moved to the front, has the same length. */
  lemma {:induction false} HeaderTextMoved(h: Headers, ks: seq<string>, i: nat)
    requires i < |ks| && forall k | k in ks :: k in h
    ensures var rest := ks[..i] + ks[i + 1..];
            (forall k | k in rest :: k in h) &&
            OctetLength(HeaderText(h, ks)) == OctetLength(KeyText(ks[i], h[ks[i]])) + OctetLength(HeaderText(h, rest))
    decreases i
  {
    var rest := ks[..i] + ks[i + 1..];
    OctetLengthAppend(KeyText(ks[0], h[ks[0]]), HeaderText(h, ks[1..]));
    if i == 0 {
      assert rest == ks[1..];
    } else {
      HeaderTextMoved(h, ks[1..], i - 1);
      assert rest[1..] == ks[1..][..i - 1] + ks[1..][i..];
      OctetLengthAppend(KeyText(ks[0], h[ks[0]]), HeaderText(h, rest[1..]));
    }
  }

  /** Two orders of the same names give header blocks of the same length. */
  lemma {:induction false} HeaderTextLength(h: Headers, ks: seq<string>, js: seq<string>)
    requires Distinct(ks) && Distinct(js) && |ks| == |js|
    requires (forall k :: k in ks <==> k in js) && (forall k | k in ks :: k in h)
    ensures OctetLength(HeaderText(h, ks)) == OctetLength(HeaderText(h, js))
    decreases |ks|
  {
    if ks == [] {
    } else {
      var k := ks[0];
      assert k in js;
      var i :| 0 <= i < |js| && js[i] == k;
      HeaderTextMoved(h, js, i);
      DistinctRemove(js, i);
      DistinctTail(ks);
      HeaderTextLength(h, ks[1..], js[..i] + js[i + 1..]);
      OctetLengthAppend(KeyText(k, h[k]), HeaderText(h, ks[1..]));
    }
  }

  /** The size reported for an article is that of the text stored, although it is serialized a second time. */
  lemma BytesEqualsStored(h: Headers, ks: seq<string>, js: seq<string>, body: string)
    requires Enumerates(ks, h) && Enumerates(js, h)
    ensures OctetLength(Serialize(h, ks, body)) == OctetLength(Serialize(h, js, body))
  {
    DistinctSize(ks, h.Keys);
    DistinctSize(js, h.Keys);
    HeaderTextLength(h, ks, js);
    OctetLengthAppend(HeaderText(h, ks), CRLF + EndedBody(body));
    OctetLengthAppend(HeaderText(h, js), CRLF + EndedBody(body));
    assert Serialize(h, ks, body) == HeaderText(h, ks) + (CRLF + EndedBody(body));
    assert Serialize(h, js, body) == HeaderText(h, js) + (CRLF + EndedBody(body));
  }
}
