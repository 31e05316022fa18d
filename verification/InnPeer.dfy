/** A peer described in the three configuration fragments of INN, written out and read back from a paste. */
module InnPeer {
  import opened Text
  import D = Decimal

  datatype Spec = Spec(
    name: string, pathToken: string, incomingHost: string, outgoingHost: string, port: int,
    patterns: string, distributions: string, flags: string, password: string)

  const NO_SPEC := Spec("", "", "", "", 0, "", "", "", "")

  // ----- Defaults -----

  /** The host up to its first dot. */
  function SlugName(host0: string): string {
    var host := TrimSpace(host0);
    var i := IndexOf(host, '.');
    if host == "" then "peer" else if 0 < i < |host| then host[..i] else host
  }

  function Or(a: string, b: string): string {
    if a == "" then b else a
  }

  /** Empty fields filled with values that INN accepts. */
  function Defaulted(s: Spec): Spec {
    var incoming, outgoing := TrimSpace(s.incomingHost), TrimSpace(s.outgoingHost);
    var out := Or(outgoing, incoming);
    Spec(Or(TrimSpace(s.name), SlugName(out)), TrimSpace(s.pathToken), Or(incoming, out), out,
         if s.port <= 0 then 119 else s.port, Or(s.patterns, "*"), s.distributions, Or(s.flags, "Tm"), s.password)
  }

  // ----- Writing -----

  /** The line that opens a peer block. */
  function Opening(name: string): string {
    "peer " + name + " {"
  }

  /** A line inside a peer block. */
  function Setting(key: string, pad: string, value: string): string {
    "    " + key + ":" + pad + value
  }

  const PAD7 := "       "
  const PAD8 := "        "
  const PAD4 := "    "

  function FormatIncoming(s0: Spec): string {
    var s := Defaulted(s0);
    Opening(s.name) + "\n" + Setting("hostname", PAD7, s.incomingHost) + "\n"
    + (if TrimSpace(s.password) != "" then Setting("password", PAD7, s.password) + "\n" else "") + "}" + "\n"
  }

  function FormatInnfeed(s0: Spec): string {
    var s := Defaulted(s0);
    Opening(s.name) + "\n" + Setting("ip-name", PAD8, s.outgoingHost) + "\n"
    + Setting("port-number", PAD4, D.Format(s.port)) + "\n" + "}" + "\n"
  }

  function FormatNewsfeeds(s0: Spec): string {
    var s := Defaulted(s0);
    var site := if s.pathToken != "" then s.name + "/" + s.pathToken else s.name;
    var dist := if s.distributions != "" then "/" + s.distributions else "";
    site + ":" + s.patterns + dist + ":" + s.flags + ":innfeed!" + "\n"
  }

  datatype Fragment = Incoming | Innfeed | Newsfeeds

  function FormatOf(s: Spec, f: Fragment): string {
    match f
    case Incoming => FormatIncoming(s)
    case Innfeed => FormatInnfeed(s)
    case Newsfeeds => FormatNewsfeeds(s)
  }

  /** The fragments of a peer, one after another. */
  function Snippets(s: Spec, order: seq<Fragment>): string {
    if order == [] then "" else FormatOf(s, order[0]) + Snippets(s, order[1..])
  }

  // ----- Lines -----

  const MAX_LINE: nat := 1024 * 1024

  function DropCR(line: string): string {
    if line != "" && line[|line| - 1] == '\r' then line[..|line| - 1] else line
  }

  /** The lines of a text, up to the first that does not fit into the reader's buffer. */
  function ScanLines(text: string): seq<string>
    decreases |text|
  {
    if text == "" then []
    else
      var i := IndexOf(text, '\n');
      if OctetLength(text[..i]) >= MAX_LINE then []
      else [DropCR(text[..i])] + ScanLines(if i < |text| then text[i + 1..] else "")
  }

  /** A line without the characters of the set at its end. */
  function TrimEnd(s: string, cut: set<char>): (t: string)
    ensures t <= s && (t == "" || t[|t| - 1] !in cut)
  {
    if s != "" && s[|s| - 1] in cut then TrimEnd(s[..|s| - 1], cut) else s
  }

  function TrimStart(s: string, cut: set<char>): string {
    if s != "" && s[0] in cut then TrimStart(s[1..], cut) else s
  }

  const BLANKS := {' ', '\t'}

  /** The lines with those that end in a backslash continued, behind a pending beginning. */
  function Unfolded(lines: seq<string>, pending: string): string
    decreases |lines|
  {
    if lines == [] then (if pending == "" then "" else pending + "\n")
    else
      var trimmed := TrimEnd(lines[0], BLANKS);
      var line := if pending == "" then trimmed else pending + TrimSpace(trimmed);
      if HasSuffix(line, "\\") then Unfolded(lines[1..], TrimEnd(line[..|line| - 1], BLANKS))
      else line + "\n" + Unfolded(lines[1..], "")
  }

  function UnfoldContinued(text: string): string {
    Unfolded(ScanLines(text), "")
  }

  // ----- Patterns of lines -----

  /** White space of the line patterns. */
  predicate Blank(c: char) {
    c in {'\t', '\n', '\U{0C}', '\r', ' '}
  }

  function SkipBlank(s: string): string {
    if s != "" && Blank(s[0]) then SkipBlank(s[1..]) else s
  }

  /** The characters at the front that are in a class. */
  function Run(s: string, member: char -> bool): (w: string)
    ensures w <= s && forall c | c in w :: member(c)
  {
    if s != "" && member(s[0]) then [s[0]] + Run(s[1..], member) else ""
  }

  function NotBlank(): char -> bool {
    c => !Blank(c)
  }

  predicate IsDigit(c: char) {
    '0' <= c <= '9'
  }

  /** What follows a keyword at the front of a line, in any case. */
  function AfterKey(line: string, key: string): Option<string> {
    var t := SkipBlank(line);
    if |key| <= |t| && forall i | 0 <= i < |key| :: FoldChar(t[i]) == key[i] then Some(t[|key|..]) else None
  }

  /** What follows a keyword and a colon. */
  function KeyRest(line: string, key: string): Option<string> {
    var after := AfterKey(line, key);
    if after == None then None
    else
      var t := SkipBlank(after.value);
      if HasPrefix(t, ":") then Some(SkipBlank(t[1..])) else None
  }

  /** The value behind a keyword: as much as is in the class. */
  function KeyRun(line: string, key: string, member: char -> bool): Option<string> {
    var rest := KeyRest(line, key);
    if rest == None || Run(rest.value, member) == "" then None else Some(Run(rest.value, member))
  }

  function KeyWord(line: string, key: string): Option<string> {
    KeyRun(line, key, NotBlank())
  }

  /** The name of a peer block. */
  function PeerBlock(line: string): Option<string> {
    var after := AfterKey(line, "peer");
    if after == None || after.value == "" || !Blank(after.value[0]) then None
    else
      var w := Run(SkipBlank(after.value), NotBlank());
      if w == "" then None else Some(w)
  }

  function PatternLine(line: string): Option<string> {
    var rest := KeyRest(line, "pattern");
    if rest == None || rest.value == "" then None else rest
  }

  /** One to three digits. */
  function Octet(s: string): string {
    var ds := Run(s, IsDigit);
    if |ds| > 3 then ds[..3] else ds
  }

  /** An address of `k` numbers with dots between them, at the front of a text. */
  function Dotted(s: string, k: nat): Option<string> {
    var o := Octet(s);
    if k == 0 then None
    else if o == "" then None
    else if k == 1 then Some(o)
    else if !HasPrefix(s[|o|..], ".") then None
    else
      var more := Dotted(s[|o| + 1..], k - 1);
      if more == None then None else Some(o + "." + more.value)
  }

  function IPv4Line(line: string): Option<string> {
    var rest := KeyRest(line, "ipv4");
    if rest == None then None else Dotted(rest.value, 4)
  }

  predicate HexOrColon(c: char) {
    IsDigit(c) || 'a' <= c <= 'f' || 'A' <= c <= 'F' || c == ':'
  }

  function IPv6Line(line: string): Option<string> {
    KeyRun(line, "ipv6", HexOrColon)
  }

  predicate AlphaNum(c: char) {
    IsDigit(c) || 'a' <= c <= 'z' || 'A' <= c <= 'Z'
  }

  predicate Label(p: string) {
    1 <= |p| <= 64 && AlphaNum(p[0]) && AlphaNum(p[|p| - 1]) && forall c | c in p :: AlphaNum(c) || c == '-'
  }

  /** A line that is nothing but a host name. */
  predicate BareHost(line: string) {
    var parts := Split(line, '.');
    |parts| >= 2 && forall p | p in parts :: Label(p)
  }

  predicate IsIPLiteral(host: string) {
    ':' in host || (host != "" && (forall c | c in host :: !('a' <= c <= 'z' || 'A' <= c <= 'Z')) && |Split(host, '.')| == 4)
  }

  // ----- Reading -----

  predicate Contains(s: string, p: string) {
    HasPrefix(s, p) || (s != "" && Contains(s[1..], p))
  }

  function ApplyPatternField(s: Spec, field0: string): Spec {
    var field := TrimEnd(TrimPrefix(TrimSpace(field0), ":"), {'\\'});
    var i := IndexOf(field, '/');
    var patterns, distribs := field[..i], if i < |field| then field[i + 1..] else "";
    s.(patterns := Or(patterns, s.patterns), distributions := Or(distribs, s.distributions))
  }

  datatype FeedLine = FeedLine(site: string, patterns: string, flags: string, param: string)

  /** The four fields of a newsfeeds line; the last may contain colons. */
  function SplitNewsfeeds(line: string): Option<FeedLine> {
    var i := IndexOf(line, ':');
    if i == |line| then None
    else
      var r1 := line[i + 1..];
      var j := IndexOf(r1, ':');
      if j == |r1| then None
      else
        var r2 := r1[j + 1..];
        var k := IndexOf(r2, ':');
        if k == |r2| || TrimSpace(line[..i]) == "" then None
        else Some(FeedLine(TrimSpace(line[..i]), r1[..j], r2[..k], r2[k + 1..]))
  }

  /** A newsfeeds line for a peer, or for the server itself; other lines apply to nothing. */
  function ApplyNewsfeeds(s: Spec, line: string): Option<Spec> {
    var fields := SplitNewsfeeds(line);
    if fields == None then None
    else
      var f := fields.value;
      var i := IndexOf(f.site, '/');
      var name, pathToken := f.site[..i], if i < |f.site| then f.site[i + 1..] else "";
      var feeds := Contains(ToLower(f.param), "innfeed");
      if EqualFold(name, "ME") then Some(ApplyFields(s, s.name, pathToken, f))
      else if HasSuffix(name, "!") && !feeds then None
      else if '!' !in f.param && !feeds then None
      else Some(ApplyFields(s, Or(name, s.name), pathToken, f))
  }

  function ApplyFields(s: Spec, name: string, pathToken: string, f: FeedLine): Spec {
    ApplyPatternField(s, f.patterns).(name := name, pathToken := Or(pathToken, s.pathToken), flags := Or(TrimSpace(f.flags), s.flags))
  }

  /** A paste read so far: what it said of the peer, the peer block that is open, and whether anything was found. */
  datatype Paste = Paste(spec: Spec, inPeer: string, found: bool)

  function Quoted(w: string, cut: set<char>): string {
    TrimEnd(TrimStart(w, cut), cut)
  }

  const QUOTES := {'"', ';'}

  function PeerLine(p: Paste, line: string): Paste {
    if HasPrefix(line, "}") then p.(inPeer := "")
    else if KeyWord(line, "ip-name").Some? then
      p.(spec := p.spec.(outgoingHost := Quoted(KeyWord(line, "ip-name").value, QUOTES)), found := true)
    else if KeyWord(line, "hostname").Some? then
      p.(spec := p.spec.(incomingHost := Quoted(KeyWord(line, "hostname").value, QUOTES)), found := true)
    else if KeyRun(line, "port-number", IsDigit).Some? then
      var n := D.Parse(KeyRun(line, "port-number", IsDigit).value);
      p.(spec := p.spec.(port := if n == None then 0 else n.value), found := true)
    else if KeyWord(line, "password").Some? then
      p.(spec := p.spec.(password := Quoted(KeyWord(line, "password").value, QUOTES)), found := true)
    else p
  }

  function BareLine(p: Paste, line: string): Paste {
    var s := p.spec;
    var asIncoming, asOutgoing := s.incomingHost == "" || IsIPLiteral(s.incomingHost), s.outgoingHost == "" || IsIPLiteral(s.outgoingHost);
    p.(spec := s.(name := Or(s.name, line), incomingHost := if asIncoming then line else s.incomingHost,
                  outgoingHost := if asOutgoing then line else s.outgoingHost),
       found := p.found || s.name == "" || asIncoming || asOutgoing)
  }

  function OuterLine(p: Paste, line: string): Paste {
    if PatternLine(line).Some? then p.(spec := ApplyPatternField(p.spec, PatternLine(line).value), found := true)
    else if IPv4Line(line).Some? then
      if p.spec.outgoingHost == "" && p.spec.incomingHost == "" then
        p.(spec := p.spec.(outgoingHost := IPv4Line(line).value), found := true)
      else p
    else if IPv6Line(line).Some? then p
    else if ApplyNewsfeeds(p.spec, line).Some? then p.(spec := ApplyNewsfeeds(p.spec, line).value, found := true)
    else if BareHost(line) then BareLine(p, line)
    else p
  }

  function PasteLine(p: Paste, line0: string): Paste {
    var line := TrimSpace(line0);
    if line == "" || HasPrefix(line, "#") || HasPrefix(line, "//") then p
    else if PeerBlock(line).Some? then
      var peer := Quoted(PeerBlock(line).value, {'"'});
      p.(inPeer := peer, spec := p.spec.(name := Or(p.spec.name, peer)), found := p.found || p.spec.name == "")
    else if p.inPeer != "" then PeerLine(p, line)
    else OuterLine(p, line)
  }

  function PasteLines(p: Paste, lines: seq<string>): Paste
    decreases |lines|
  {
    if lines == [] then p else PasteLines(PasteLine(p, lines[0]), lines[1..])
  }

  const EMPTY_PASTE := Paste(NO_SPEC, "", false)

  /** The peer of a paste, if it describes one. */
  function ParsePaste(text: string): Option<Spec> {
    var p := PasteLines(EMPTY_PASTE, ScanLines(UnfoldContinued(text)));
    if p.found then Some(Defaulted(p.spec)) else None
  }

  // ----- Notes on a paste -----

  /** The fields that a paste can mention. */
  datatype FieldName = NameField | PathTokenField | IncomingHostField | HostField | PortField
                     | PatternsField | DistributionsField | FlagsField | PasswordField

  /** What a line marks inside a peer block. */
  function PeerMarks(line: string): seq<FieldName> {
    if HasPrefix(line, "}") then []
    else if KeyWord(line, "ip-name").Some? then [HostField]
    else if KeyWord(line, "hostname").Some? then [IncomingHostField]
    else if KeyRun(line, "port-number", IsDigit).Some? then [PortField]
    else if KeyWord(line, "password").Some? then [PasswordField]
    else []
  }

  function If(b: bool, field: FieldName): seq<FieldName> {
    if b then [field] else []
  }

  function FeedMarks(s: Spec, t: Spec): seq<FieldName> {
    If(t.name != "" && t.name != s.name, NameField) + If(t.pathToken != "" && t.pathToken != s.pathToken, PathTokenField)
    + [PatternsField] + If(t.distributions != "", DistributionsField) + If(t.flags != "", FlagsField)
  }

  function BareMarks(s: Spec): seq<FieldName> {
    If(s.name == "", NameField) + If(s.incomingHost == "" || IsIPLiteral(s.incomingHost), IncomingHostField)
    + If(s.outgoingHost == "" || IsIPLiteral(s.outgoingHost), HostField)
  }

  /** What a line marks outside of blocks. */
  function OuterMarks(s: Spec, line: string): seq<FieldName> {
    if PatternLine(line).Some? then
      [PatternsField] + If(ApplyPatternField(s, PatternLine(line).value).distributions != "", DistributionsField)
    else if IPv4Line(line).Some? then If(s.outgoingHost == "" && s.incomingHost == "", HostField)
    else if IPv6Line(line).Some? then []
    else if ApplyNewsfeeds(s, line).Some? then FeedMarks(s, ApplyNewsfeeds(s, line).value)
    else if BareHost(line) then BareMarks(s)
    else []
  }

  const OFFERED := "patterns/flags applied on offer"

  /** What a line outside of blocks warns of, or nothing. */
  function OuterWarning(s: Spec, line: string): string {
    if PatternLine(line).Some? then OFFERED
    else if IPv4Line(line).Some? then "IPV4 " + IPv4Line(line).value
    else if IPv6Line(line).Some? then "IPV6 " + IPv6Line(line).value
    else if ApplyNewsfeeds(s, line).Some? then OFFERED
    else ""
  }

  /** The fields that a line of a paste mentions, and its warning. */
  function LineNotes(p: Paste, line0: string): (seq<FieldName>, string) {
    var line := TrimSpace(line0);
    if line == "" || HasPrefix(line, "#") || HasPrefix(line, "//") then ([], "")
    else if PeerBlock(line).Some? then (If(p.spec.name == "", NameField), "")
    else if p.inPeer != "" then (PeerMarks(line), "")
    else (OuterMarks(p.spec, line), OuterWarning(p.spec, line))
  }

  function Mark(present: seq<FieldName>, fields: seq<FieldName>): seq<FieldName>
    decreases |fields|
  {
    if fields == [] then present
    else Mark(if fields[0] in present then present else present + [fields[0]], fields[1..])
  }

  function AppendUnique(warns: seq<string>, warn: string): seq<string> {
    var w := TrimSpace(warn);
    if w == "" || w in warns then warns else warns + [w]
  }

  /** The fields mentioned in a paste, and its warnings. */
  datatype Notes = Notes(present: seq<FieldName>, warns: seq<string>)

  function Noted(n: Notes, p: Paste, line: string): Notes {
    Notes(Mark(n.present, LineNotes(p, line).0), AppendUnique(n.warns, LineNotes(p, line).1))
  }

  function NoteLines(n: Notes, p: Paste, lines: seq<string>): Notes
    decreases |lines|
  {
    if lines == [] then n else NoteLines(Noted(n, p, lines[0]), PasteLine(p, lines[0]), lines[1..])
  }

  const NO_NOTES := Notes([], [])

  function PasteNotes(text: string): Notes {
    var n := NoteLines(NO_NOTES, EMPTY_PASTE, ScanLines(UnfoldContinued(text)));
    if n.present == [] then Notes([], ["no peer found in paste"]) else n
  }

  /** Every field that says something is among these. */
  ghost predicate Mentions(present: seq<FieldName>, s: Spec) {
    && (s.name != "" ==> NameField in present) && (s.pathToken != "" ==> PathTokenField in present)
    && (s.incomingHost != "" ==> IncomingHostField in present) && (s.outgoingHost != "" ==> HostField in present)
    && (s.port != 0 ==> PortField in present) && (s.patterns != "" ==> PatternsField in present)
    && (s.distributions != "" ==> DistributionsField in present) && (s.flags != "" ==> FlagsField in present)
    && (s.password != "" ==> PasswordField in present)
  }

  lemma {:induction false} MarkIs(present: seq<FieldName>, fields: seq<FieldName>)
    ensures forall f :: f in Mark(present, fields) <==> f in present || f in fields
    decreases |fields|
  {
    if fields != [] {
      var more := if fields[0] in present then present else present + [fields[0]];
      MarkIs(more, fields[1..]);
      assert forall f :: f in fields <==> f == fields[0] || f in fields[1..];
      assert forall f :: f in more <==> f in present || f == fields[0];
    }
  }

  /** A field that is set is mentioned with it. */
  lemma SetHostMentions(present: seq<FieldName>, s: Spec, v: string)
    requires Mentions(present, s)
    ensures Mentions(present + [], s)
    ensures Mentions(present + [HostField], s.(outgoingHost := v))
    ensures Mentions(present + [IncomingHostField], s.(incomingHost := v))
  {
    assert present + [] == present;
  }

  lemma SetOtherMentions(present: seq<FieldName>, s: Spec, v: string, n: int)
    requires Mentions(present, s)
    ensures Mentions(present + [PortField], s.(port := n))
    ensures Mentions(present + [PasswordField], s.(password := v))
  {
  }

  lemma PeerLineMentions(p: Paste, line: string, present: seq<FieldName>)
    requires Mentions(present, p.spec)
    ensures var q, marks := PeerLine(p, line), PeerMarks(line);
            Mentions(present + marks, q.spec) && (q.found <==> p.found || marks != [])
  {
    hide KeyWord, KeyRun, Quoted, D.Parse, Mentions, HasPrefix;
    var q := PeerLine(p, line).spec;
    SetHostMentions(present, p.spec, q.outgoingHost);
    SetHostMentions(present, p.spec, q.incomingHost);
    SetOtherMentions(present, p.spec, q.password, q.port);
  }

  lemma OuterLineMentions(p: Paste, line: string, present: seq<FieldName>)
    requires Mentions(present, p.spec)
    ensures var q, marks := OuterLine(p, line), OuterMarks(p.spec, line);
            Mentions(present + marks, q.spec) && (q.found <==> p.found || marks != [])
  {
    hide PatternLine, IPv4Line, IPv6Line, ApplyNewsfeeds, BareHost, IsIPLiteral, TrimSpace, TrimEnd, IndexOf;
    if PatternLine(line).Some? {
    } else if IPv4Line(line).Some? {
    } else if IPv6Line(line).Some? {
    } else if ApplyNewsfeeds(p.spec, line).Some? {
      FeedMentions(p.spec, line, present);
    }
  }

  lemma FeedMentions(s: Spec, line: string, present: seq<FieldName>)
    requires Mentions(present, s) && ApplyNewsfeeds(s, line).Some?
    ensures var t := ApplyNewsfeeds(s, line).value; Mentions(present + FeedMarks(s, t), t)
  {
    hide SplitNewsfeeds, Contains, ToLower, EqualFold, HasSuffix, TrimSpace, TrimEnd, IndexOf;
    var t := ApplyNewsfeeds(s, line).value;
    FeedMarksIn(s, t);
  }

  lemma FeedMarksIn(s: Spec, t: Spec)
    ensures var marks := FeedMarks(s, t);
            && PatternsField in marks
            && (t.name != "" && t.name != s.name ==> NameField in marks)
            && (t.pathToken != "" && t.pathToken != s.pathToken ==> PathTokenField in marks)
            && (t.distributions != "" ==> DistributionsField in marks) && (t.flags != "" ==> FlagsField in marks)
  {
  }

  lemma LineMentions(n: Notes, p: Paste, line0: string)
    requires Mentions(n.present, p.spec) && (p.found <==> n.present != [])
    ensures var q, m := PasteLine(p, line0), Noted(n, p, line0);
            Mentions(m.present, q.spec) && (q.found <==> m.present != [])
  {
    hide PeerLine, OuterLine, PeerMarks, OuterMarks, TrimSpace, PeerBlock, Quoted, OuterWarning, AppendUnique, Mark;
    var line := TrimSpace(line0);
    var marks := LineNotes(p, line0).0;
    MarkIs(n.present, marks);
    MarkEmpty(n.present, marks);
    if line == "" || HasPrefix(line, "#") || HasPrefix(line, "//") || PeerBlock(line).Some? {
    } else if p.inPeer != "" {
      PeerLineMentions(p, line, n.present);
    } else {
      OuterLineMentions(p, line, n.present);
    }
  }

  lemma MarkEmpty(present: seq<FieldName>, fields: seq<FieldName>)
    ensures Mark(present, fields) == [] <==> present == [] && fields == []
  {
    MarkIs(present, fields);
    if present != [] {
      assert present[0] in Mark(present, fields);
    }
    if fields != [] {
      assert fields[0] in Mark(present, fields);
    }
  }

  lemma {:induction false} LinesMention(n: Notes, p: Paste, lines: seq<string>)
    requires Mentions(n.present, p.spec) && (p.found <==> n.present != [])
    ensures var q, m := PasteLines(p, lines), NoteLines(n, p, lines);
            Mentions(m.present, q.spec) && (q.found <==> m.present != [])
    decreases |lines|
  {
    hide PasteLine, Noted, Mentions;
    if lines != [] {
      LineMentions(n, p, lines[0]);
      LinesMention(Noted(n, p, lines[0]), PasteLine(p, lines[0]), lines[1..]);
    }
  }

  /** A paste describes a peer exactly when it mentions a field, and a field that it does not mention has nothing but
      its default. */
  lemma PasteMentions(text: string)
    ensures ParsePaste(text).Some? <==> PasteNotes(text).present != []
    ensures ParsePaste(text).Some? ==>
              exists said :: Mentions(PasteNotes(text).present, said) && ParsePaste(text).value == Defaulted(said)
  {
    hide Defaulted, PasteLines, NoteLines, ScanLines, UnfoldContinued;
    LinesMention(NO_NOTES, EMPTY_PASTE, ScanLines(UnfoldContinued(text)));
  }

  // ----- Well-formed peers -----

  /** One word that no line pattern cuts short. */
  predicate Token(w: string) {
    w != "" && forall c | c in w :: !IsSpace(c)
  }

  predicate Value(w: string) {
    Token(w) && w[0] !in QUOTES && w[|w| - 1] !in QUOTES && w[|w| - 1] != '\\'
  }

  predicate Field(w: string) {
    ':' !in w && '\n' !in w && Trimmed(w)
  }

  const RESERVED := {"pattern", "ipv4", "ipv6", "me"}

  predicate PlainName(name: string) {
    && Token(name) && ':' !in name && '/' !in name && name[0] != '#' && name[0] != '"' && name[|name| - 1] != '"'
    && Fold(name) !in RESERVED
  }

  /** The pattern field of a newsfeeds line. */
  function PatternField(s: Spec): string {
    s.patterns + if s.distributions != "" then "/" + s.distributions else ""
  }

  /** A peer whose fields can stand in the fragments: no separators, comment starts or reserved names. */
  predicate WellFormed(s: Spec) {
    && PlainName(s.name) && Value(s.incomingHost) && Value(s.outgoingHost) && s.port > 0
    && (s.password == "" || Value(s.password)) && Field(s.pathToken)
    && s.patterns != "" && '/' !in s.patterns && Field(PatternField(s)) && PatternField(s)[|PatternField(s)| - 1] != '\\'
    && s.flags != "" && Field(s.flags)
  }

  // ----- Lines that are written -----

  /** A line that comes back from the readers as it is. */
  predicate Plain(line: string) {
    '\n' !in line && OctetLength(line) < MAX_LINE && line != "" && line[|line| - 1] !in {' ', '\t', '\r', '\\'}
  }

  function Unlines(lines: seq<string>): string {
    if lines == [] then "" else lines[0] + "\n" + Unlines(lines[1..])
  }

  lemma {:induction false} UnlinesAppend(a: seq<string>, b: seq<string>)
    ensures Unlines(a + b) == Unlines(a) + Unlines(b)
  {
    if a == [] {
      assert a + b == b;
    } else {
      assert (a + b)[1..] == a[1..] + b;
      UnlinesAppend(a[1..], b);
    }
  }

  lemma {:induction false} ScanUnlines(lines: seq<string>)
    requires forall line | line in lines :: Plain(line)
    ensures ScanLines(Unlines(lines)) == lines
  {
    if lines != [] {
      var line, rest := lines[0], Unlines(lines[1..]);
      assert Plain(line);
      var text := line + ['\n'] + rest;
      assert Unlines(lines) == text;
      IndexOfAt(line, '\n', rest);
      assert text[..|line|] == line && text[|line| + 1..] == rest;
      ScanUnlines(lines[1..]);
    }
  }

  lemma {:induction false} UnfoldUnlines(lines: seq<string>)
    requires forall line | line in lines :: Plain(line)
    ensures Unfolded(lines, "") == Unlines(lines)
  {
    if lines != [] {
      assert Plain(lines[0]);
      assert TrimEnd(lines[0], BLANKS) == lines[0];
      UnfoldUnlines(lines[1..]);
    }
  }

  /** Lines without continuations or blanks at their ends are read as they stand. */
  lemma PlainText(lines: seq<string>)
    requires forall line | line in lines :: Plain(line)
    ensures ScanLines(UnfoldContinued(Unlines(lines))) == lines
  {
    hide Plain;
    ScanUnlines(lines);
    UnfoldUnlines(lines);
  }

  lemma {:induction false} PasteAppend(p: Paste, a: seq<string>, b: seq<string>)
    ensures PasteLines(p, a + b) == PasteLines(PasteLines(p, a), b)
    decreases |a|
  {
    hide PasteLine;
    if a == [] {
      assert a + b == b;
    } else {
      assert (a + b)[1..] == a[1..] + b;
      PasteAppend(PasteLine(p, a[0]), a[1..], b);
    }
  }

  // ----- Keywords -----

  /** Letters, digits and dashes of a keyword fold to themselves. */
  predicate Keyword(key: string) {
    key != "" && forall c | c in key :: 'a' <= c <= 'z' || c == '-' || IsDigit(c)
  }

  lemma Keywords()
    ensures Keyword("peer") && Keyword("ip-name") && Keyword("hostname") && Keyword("port-number") && Keyword("password")
    ensures Keyword("pattern") && Keyword("ipv4") && Keyword("ipv6")
  {
  }

  lemma {:induction false} RunAll(w: string, rest: string, member: char -> bool)
    requires (forall c | c in w :: member(c)) && (rest == "" || !member(rest[0]))
    ensures Run(w + rest, member) == w
  {
    if w == "" {
      assert w + rest == rest;
    } else {
      assert w[0] in w && (w + rest)[1..] == w[1..] + rest;
      RunAll(w[1..], rest, member);
    }
  }

  lemma {:induction false} SkipPad(pad: string, s: string)
    requires (forall c | c in pad :: Blank(c)) && (s == "" || !Blank(s[0]))
    ensures SkipBlank(pad + s) == s
  {
    if pad == "" {
      assert pad + s == s;
    } else {
      assert pad[0] in pad && (pad + s)[1..] == pad[1..] + s;
      SkipPad(pad[1..], s);
    }
  }

  lemma AfterKeyAt(key: string, rest: string)
    requires Keyword(key)
    ensures AfterKey(key + rest, key) == Some(rest)
  {
    var t := key + rest;
    assert key[0] in key && t[0] == key[0];
    assert SkipBlank(t) == t;
    forall i | 0 <= i < |key|
      ensures FoldChar(t[i]) == key[i]
    {
      assert key[i] in key;
    }
    assert t[|key|..] == rest;
  }

  /** A keyword, a colon, padding and a value. */
  lemma KeyRunAt(key: string, pad: string, w: string, member: char -> bool)
    requires Keyword(key) && (forall c | c in pad :: Blank(c)) && w != "" && !Blank(w[0]) && forall c | c in w :: member(c)
    ensures KeyRun(key + ":" + pad + w, key, member) == Some(w)
  {
    var line := key + ":" + pad + w;
    assert line == key + (":" + pad + w);
    AfterKeyAt(key, ":" + pad + w);
    assert SkipBlank(":" + pad + w) == ":" + pad + w;
    assert (":" + pad + w)[1..] == pad + w;
    SkipPad(pad, w);
    RunAll(w, "", member);
    assert w + "" == w;
  }

  /** A line that differs from the keyword at some place. */
  lemma KeyMiss(line: string, key: string, i: nat)
    requires line != "" && !Blank(line[0]) && i < |key| && (i < |line| ==> FoldChar(line[i]) != key[i])
    ensures AfterKey(line, key) == None && KeyRest(line, key) == None
  {
    assert SkipBlank(line) == line;
  }

  /** A name before a separator is none of the keywords unless it is that word. */
  lemma NameMiss(name: string, sep: char, rest: string, key: string)
    requires name != "" && sep in {':', '/'} && Keyword(key) && Fold(name) != key
    requires forall c | c in name :: !Blank(c) && c != ':'
    ensures KeyRest(name + [sep] + rest, key) == None
  {
    var line := name + [sep] + rest;
    assert name[0] in name && line[0] == name[0];
    if |name| < |key| {
      assert line[|name|] == sep && FoldChar(sep) == sep && key[|name|] in key;
      KeyMiss(line, key, |name|);
    } else if |name| == |key| {
      var i :| 0 <= i < |key| && Fold(name)[i] != key[i];
      assert line[i] == name[i];
      KeyMiss(line, key, i);
    } else {
      LongName(name, sep, rest, key);
    }
  }

  lemma LongName(name: string, sep: char, rest: string, key: string)
    requires |key| < |name| && forall c | c in name :: !Blank(c) && c != ':'
    ensures KeyRest(name + [sep] + rest, key) == None
  {
    var line := name + [sep] + rest;
    assert name[0] in name && SkipBlank(line) == line;
    assert name[|key|] in name && line[|key|..][0] == name[|key|];
    assert SkipBlank(line[|key|..]) == line[|key|..];
  }

  lemma NamePeer(name: string, sep: char, rest: string)
    requires name != "" && sep in {':', '/'} && forall c | c in name :: !Blank(c)
    ensures PeerBlock(name + [sep] + rest) == None
  {
    var line := name + [sep] + rest;
    assert name[0] in name && SkipBlank(line) == line;
    if |line| >= 4 {
      if |name| < 4 {
        assert line[|name|] == sep && FoldChar(sep) == sep;
      } else if |name| == 4 {
        assert line[4..][0] == sep;
      } else {
        assert name[4] in name && line[4..][0] == name[4];
      }
    }
  }

  // ----- The fragments, line by line -----

  function IncomingLines(s: Spec): seq<string> {
    [Opening(s.name), Setting("hostname", PAD7, s.incomingHost)]
    + (if s.password != "" then [Setting("password", PAD7, s.password)] else []) + ["}"]
  }

  function InnfeedLines(s: Spec): seq<string> {
    [Opening(s.name), Setting("ip-name", PAD8, s.outgoingHost), Setting("port-number", PAD4, D.Format(s.port)), "}"]
  }

  function SiteField(s: Spec): string {
    if s.pathToken != "" then s.name + "/" + s.pathToken else s.name
  }

  function FeedText(s: Spec): string {
    SiteField(s) + ":" + PatternField(s) + ":" + s.flags + ":innfeed!"
  }

  function LinesOf(s: Spec, f: Fragment): seq<string> {
    match f
    case Incoming => IncomingLines(s)
    case Innfeed => InnfeedLines(s)
    case Newsfeeds => [FeedText(s)]
  }

  lemma TokenTrim(w: string)
    requires Token(w)
    ensures Trimmed(w) && TrimSpace(w) == w
    ensures forall c | c in w :: !Blank(c) && c != '\n'
  {
    assert w[0] in w && w[|w| - 1] in w;
    TrimSpaceId(w);
  }

  /** An indented line without its indentation. */
  lemma TrimIndent(pad: string, line: string)
    requires Trimmed(line) && forall c | c in pad :: c == ' '
    ensures TrimSpace(pad + line) == line
  {
    SpaceIs();
    hide IsSpace, TrimLeft, TrimRight;
    TrimLeftPadded(pad, line);
    TrimSpaceId(line);
  }

  lemma SpaceIs()
    ensures IsSpace(' ')
  {
  }

  /** Every line of a well-formed fragment is read as it is written, if it is not too long. */
  ghost predicate ShortLines(s: Spec) {
    forall f, line | line in LinesOf(s, f) :: OctetLength(line) < MAX_LINE
  }

  lemma LinesPlain(s: Spec, f: Fragment)
    requires WellFormed(s) && ShortLines(s)
    ensures forall line | line in LinesOf(s, f) :: Plain(line)
  {
    hide WellFormed, LinesOf;
    forall line | line in LinesOf(s, f)
      ensures Plain(line)
    {
      LineEnds(s, f, line);
    }
  }

  /** How a line ends that readers leave alone. */
  predicate EndsWell(line: string) {
    '\n' !in line && line != "" && line[|line| - 1] !in {' ', '\t', '\r', '\\'}
  }

  lemma LineEnds(s: Spec, f: Fragment, line: string)
    requires WellFormed(s) && line in LinesOf(s, f)
    ensures EndsWell(line)
  {
    hide IsSpace, D.Format, WellFormed, EndsWell, Opening, Setting, FeedText;
    SpecFacts(s);
    OpeningEnds(s.name);
    SettingEnds("hostname", PAD7, s.incomingHost);
    SettingEnds("ip-name", PAD8, s.outgoingHost);
    SettingEnds("port-number", PAD4, D.Format(s.port));
    if s.password != "" {
      SettingEnds("password", PAD7, s.password);
    }
    FeedEnds(s);
    BraceEnds();
  }

  lemma BraceEnds()
    ensures EndsWell("}")
  {
  }

  lemma OpeningEnds(name: string)
    requires '\n' !in name
    ensures EndsWell(Opening(name))
  {
  }

  lemma SettingEnds(key: string, pad: string, w: string)
    requires '\n' !in key && '\n' !in pad && EndsWell(w)
    ensures EndsWell(Setting(key, pad, w))
  {
  }

  lemma FeedEnds(s: Spec)
    requires '\n' !in SiteField(s) && '\n' !in PatternField(s) && '\n' !in s.flags
    ensures EndsWell(FeedText(s))
  {
    hide SiteField, PatternField;
  }

  lemma SpecFacts(s: Spec)
    requires WellFormed(s)
    ensures EndsWell(s.incomingHost) && EndsWell(s.outgoingHost) && (s.password == "" || EndsWell(s.password))
    ensures EndsWell(D.Format(s.port))
    ensures '\n' !in s.name && '\n' !in SiteField(s) && '\n' !in PatternField(s) && '\n' !in s.flags
  {
    hide D.Format, EndsWell;
    ValueEnds(s.incomingHost);
    ValueEnds(s.outgoingHost);
    if s.password != "" {
      ValueEnds(s.password);
    }
    NumberEnds(s.port);
    TokenTrim(s.name);
  }

  lemma ValueEnds(w: string)
    requires Value(w)
    ensures EndsWell(w)
  {
    assert w[|w| - 1] in w;
  }

  lemma NumberEnds(n: int)
    requires n > 0
    ensures EndsWell(D.Format(n)) && Token(D.Format(n)) && forall c | c in D.Format(n) :: IsDigit(c)
  {
    D.ParseFormat(n);
    D.FormatChars(n);
    var w := D.Format(n);
    assert w[|w| - 1] in w;
  }

  /** The fragments are these lines. */
  lemma FormatLines(s: Spec, f: Fragment)
    requires Defaulted(s) == s && (s.password == "" || TrimSpace(s.password) != "")
    ensures FormatOf(s, f) == Unlines(LinesOf(s, f))
  {
    hide Defaulted, D.Format, TrimSpace;
    match f
    case Incoming =>
      IncomingUnlines(s);
    case Innfeed =>
      InnfeedUnlines(s);
    case Newsfeeds =>
      FeedUnlines(s);
  }

  lemma IncomingUnlines(s: Spec)
    requires Defaulted(s) == s && (s.password == "" || TrimSpace(s.password) != "")
    ensures FormatIncoming(s) == Unlines(IncomingLines(s))
  {
    TrimNothing();
    hide Defaulted, TrimSpace, Opening, Setting, Unlines;
    IncomingOf(Opening(s.name), Setting("hostname", PAD7, s.incomingHost), s.password != "", Setting("password", PAD7, s.password), "}");
  }

  lemma IncomingOf(a: string, b: string, some: bool, c: string, d: string)
    ensures Unlines([a, b] + (if some then [c] else []) + [d])
         == a + "\n" + b + "\n" + (if some then c + "\n" else "") + d + "\n"
  {
    hide Unlines;
    if some {
      assert [a, b] + [c] + [d] == [a, b, c, d];
      UnlinesFour(a, b, c, d);
    } else {
      assert [a, b] + [] + [d] == [a, b, d];
      UnlinesThree(a, b, d);
      assert a + "\n" + b + "\n" + "" == a + "\n" + b + "\n";
    }
  }

  lemma TrimNothing()
    ensures TrimSpace("") == ""
  {
  }

  lemma UnlinesThree(a: string, b: string, c: string)
    ensures Unlines([a, b, c]) == a + "\n" + b + "\n" + c + "\n"
  {
    assert [a, b, c][1..] == [b, c] && [b, c][1..] == [c] && [c][1..] == [];
    assert Unlines([c]) == c + "\n";
    assert Unlines([b, c]) == b + "\n" + (c + "\n");
  }

  lemma UnlinesFour(a: string, b: string, c: string, d: string)
    ensures Unlines([a, b, c, d]) == a + "\n" + b + "\n" + (c + "\n") + d + "\n"
    ensures Unlines([a, b, c, d]) == a + "\n" + b + "\n" + c + "\n" + d + "\n"
  {
    UnlinesThree(b, c, d);
    assert [a, b, c, d][1..] == [b, c, d];
  }

  lemma InnfeedUnlines(s: Spec)
    requires Defaulted(s) == s
    ensures FormatInnfeed(s) == Unlines(InnfeedLines(s))
  {
    hide Defaulted, D.Format, Opening, Setting;
    UnlinesFour(Opening(s.name), Setting("ip-name", PAD8, s.outgoingHost), Setting("port-number", PAD4, D.Format(s.port)), "}");
  }

  lemma FeedUnlines(s: Spec)
    requires Defaulted(s) == s
    ensures FormatNewsfeeds(s) == Unlines([FeedText(s)])
  {
    hide Defaulted;
    assert Unlines([FeedText(s)]) == FeedText(s) + "\n" + "";
    var dist := if s.distributions != "" then "/" + s.distributions else "";
    assert PatternField(s) == s.patterns + dist;
    FeedAssoc(SiteField(s), s.patterns, dist, s.flags);
  }

  lemma FeedAssoc(site: string, patterns: string, dist: string, flags: string)
    ensures site + ":" + patterns + dist + ":" + flags + ":innfeed!" + "\n"
         == site + ":" + (patterns + dist) + ":" + flags + ":innfeed!" + "\n"
  {
    assert site + ":" + (patterns + dist) == site + ":" + patterns + dist;
  }

  // ----- Reading the fragments -----

  lemma QuotedNot(w: string, cut: set<char>)
    requires w != "" && w[0] !in cut && w[|w| - 1] !in cut
    ensures Quoted(w, cut) == w
  {
  }

  lemma PasteOpening(p: Paste, name: string)
    requires PlainName(name)
    ensures PasteLine(p, Opening(name)) ==
              p.(inPeer := name, spec := p.spec.(name := Or(p.spec.name, name)), found := p.found || p.spec.name == "")
  {
    TokenTrim(name);
    OpeningTrimmed(name);
    QuotedNot(name, {'"'});
    OpeningBlock(name);
    hide *;
    PasteBlock(p, Opening(name), name);
  }

  lemma PasteBlock(p: Paste, line: string, name: string)
    requires TrimSpace(line) == line && line != "" && line[0] == 'p' && PeerBlock(line) == Some(name) && Quoted(name, {'"'}) == name
    ensures PasteLine(p, line) ==
              p.(inPeer := name, spec := p.spec.(name := Or(p.spec.name, name)), found := p.found || p.spec.name == "")
  {
    hide TrimSpace, PeerBlock, Quoted, PeerLine, OuterLine;
  }

  lemma OpeningTrimmed(name: string)
    ensures TrimSpace(Opening(name)) == Opening(name)
    ensures Opening(name) != "" && Opening(name)[0] == 'p'
  {
    LettersNoSpace();
    hide IsSpace;
    TrimSpaceId(Opening(name));
  }

  lemma LettersNoSpace()
    ensures !IsSpace('p') && !IsSpace('{') && !IsSpace('}') && !IsSpace('!')
  {
  }

  lemma OpeningBlock(name: string)
    requires name != "" && forall c | c in name :: !Blank(c)
    ensures PeerBlock(Opening(name)) == Some(name)
  {
    Keywords();
    var rest := " " + name + " {";
    assert Opening(name) == "peer" + rest;
    AfterKeyAt("peer", rest);
    assert name[0] in name;
    assert rest == " " + (name + " {");
    SkipPad(" ", name + " {");
    RunAll(name, " {", NotBlank());
  }

  lemma SettingTrim(key: string, pad: string, w: string)
    requires Keyword(key) && Token(w)
    ensures TrimSpace(Setting(key, pad, w)) == key + ":" + pad + w
  {
    var line := key + ":" + pad + w;
    KeyStart(key, ":" + pad + w);
    assert line == key + (":" + pad + w);
    assert w[|w| - 1] in w && line[|line| - 1] == w[|w| - 1];
    KeyTrimmed(key, line);
    hide IsSpace, Keyword, Token, TrimSpace;
    assert Setting(key, pad, w) == "    " + line;
    TrimIndent("    ", line);
  }

  lemma SettingNoBlock(key: string, rest: string, i: nat)
    requires Keyword(key) && i < 4 && i < |key| && key[i] != "peer"[i]
    ensures PeerBlock(key + rest) == None
  {
    KeyStart(key, rest);
    KeyFold(key, key + rest, i);
    hide FoldChar, AfterKey, Keyword;
    KeyMiss(key + rest, "peer", i);
  }

  /** A line that opens no block and is no comment. */
  lemma PastePlain(p: Paste, line0: string, line: string)
    requires TrimSpace(line0) == line && line != "" && line[0] !in {'#', '/'} && PeerBlock(line) == None
    ensures PasteLine(p, line0) == if p.inPeer != "" then PeerLine(p, line) else OuterLine(p, line)
  {
    hide TrimSpace, PeerBlock, PeerLine, OuterLine;
  }

  /** A setting inside a block, without its indentation. */
  lemma PasteSetting(p: Paste, key: string, pad: string, w: string, i: nat)
    requires p.inPeer != "" && Keyword(key) && Token(w) && i < 4 && i < |key| && key[i] != "peer"[i]
    ensures PasteLine(p, Setting(key, pad, w)) == PeerLine(p, key + ":" + pad + w)
  {
    var rest := ":" + pad + w;
    KeyStart(key, rest);
    SettingTrim(key, pad, w);
    SettingNoBlock(key, rest, i);
    hide *;
    ColonFirst(key, pad, w);
    PastePlain(p, Setting(key, pad, w), key + rest);
  }

  lemma ColonFirst(key: string, pad: string, w: string)
    ensures key + ":" + pad + w == key + (":" + pad + w)
  {
  }

  lemma KeyStart(key: string, rest: string)
    requires Keyword(key)
    ensures (key + rest)[0] == key[0] && !Blank(key[0]) && key[0] !in {'#', '/', '}', ' '}
  {
    assert key[0] in key;
  }

  lemma KeyTrimmed(key: string, line: string)
    requires Keyword(key) && line != "" && line[0] == key[0] && !IsSpace(line[|line| - 1])
    ensures Trimmed(line)
  {
    assert key[0] in key;
  }

  lemma KeyFold(key: string, line: string, i: nat)
    requires Keyword(key) && i < |key| && key <= line
    ensures FoldChar(line[i]) == key[i]
  {
    assert key[i] in key && line[i] == key[i];
  }

  lemma BlankPads()
    ensures forall c | c in PAD7 + PAD8 + PAD4 :: Blank(c)
  {
  }

  /** The settings of the fragments, each recognised by its own keyword. */
  lemma KeysApart(key: string, rest: string)
    requires key in {"hostname", "ip-name", "port-number", "password"}
    ensures Keyword(key) && var line := key + ":" + rest;
            && !HasPrefix(line, "}")
            && (key != "ip-name" ==> KeyRest(line, "ip-name") == None)
            && (key in {"port-number", "password"} ==> KeyRest(line, "hostname") == None)
            && (key == "password" ==> KeyRest(line, "port-number") == None)
  {
    Keywords();
    var line := key + ":" + rest;
    KeyStart(key, ":" + rest);
    assert line == key + (":" + rest);
    KeyFold(key, line, 0);
    KeyFold(key, line, 1);
    hide FoldChar, KeyRest, Keyword;
    if key != "ip-name" {
      KeyMiss(line, "ip-name", 0);
    }
    if key in {"port-number", "password"} {
      KeyMiss(line, "hostname", 0);
    }
    if key == "password" {
      KeyMiss(line, "port-number", 1);
    }
  }

  lemma ValueRun(key: string, pad: string, w: string)
    requires Keyword(key) && (forall c | c in pad :: Blank(c)) && Value(w)
    ensures KeyWord(key + ":" + pad + w, key) == Some(w) && Quoted(w, QUOTES) == w
  {
    TokenTrim(w);
    assert w[0] in w;
    KeyRunAt(key, pad, w, NotBlank());
    QuotedNot(w, QUOTES);
  }

  lemma ReadHostname(p: Paste, w: string)
    requires p.inPeer != "" && Value(w)
    ensures PasteLine(p, Setting("hostname", PAD7, w)) == p.(spec := p.spec.(incomingHost := w), found := true)
  {
    BlankPads();
    KeysApart("hostname", PAD7 + w);
    ColonPad("hostname", PAD7, w);
    ValueRun("hostname", PAD7, w);
    hide KeyRest, Quoted, Keyword;
    PasteSetting(p, "hostname", PAD7, w, 0);
  }

  lemma ColonPad(key: string, pad: string, w: string)
    ensures key + ":" + pad + w == key + ":" + (pad + w)
  {
  }

  lemma ReadIPName(p: Paste, w: string)
    requires p.inPeer != "" && Value(w)
    ensures PasteLine(p, Setting("ip-name", PAD8, w)) == p.(spec := p.spec.(outgoingHost := w), found := true)
  {
    BlankPads();
    KeysApart("ip-name", PAD8 + w);
    ColonPad("ip-name", PAD8, w);
    ValueRun("ip-name", PAD8, w);
    hide KeyRest, Quoted, Keyword;
    PasteSetting(p, "ip-name", PAD8, w, 0);
  }

  lemma ReadPassword(p: Paste, w: string)
    requires p.inPeer != "" && Value(w)
    ensures PasteLine(p, Setting("password", PAD7, w)) == p.(spec := p.spec.(password := w), found := true)
  {
    BlankPads();
    KeysApart("password", PAD7 + w);
    ColonPad("password", PAD7, w);
    ValueRun("password", PAD7, w);
    hide KeyRest, Quoted, Keyword;
    PasteSetting(p, "password", PAD7, w, 1);
  }

  lemma ReadPort(p: Paste, n: int)
    requires p.inPeer != "" && n > 0
    ensures PasteLine(p, Setting("port-number", PAD4, D.Format(n))) == p.(spec := p.spec.(port := n), found := true)
  {
    var w := D.Format(n);
    NumberEnds(n);
    D.ParseFormat(n);
    PortRun(w);
    KeysApart("port-number", PAD4 + w);
    hide *;
    ColonPad("port-number", PAD4, w);
    PasteSetting(p, "port-number", PAD4, w, 1);
    PortLine(p, "port-number" + ":" + PAD4 + w, w, n);
  }

  lemma PortRun(w: string)
    requires Token(w) && forall c | c in w :: IsDigit(c)
    ensures KeyRun("port-number" + ":" + PAD4 + w, "port-number", IsDigit) == Some(w)
  {
    BlankPads();
    Keywords();
    TokenTrim(w);
    assert w[0] in w;
    hide KeyRun, Keyword, Token, Blank;
    KeyRunAt("port-number", PAD4, w, IsDigit);
  }

  lemma PortLine(p: Paste, line: string, w: string, n: int)
    requires KeyRun(line, "port-number", IsDigit) == Some(w) && D.Parse(w) == Some(n)
    requires !HasPrefix(line, "}") && KeyRest(line, "ip-name") == None && KeyRest(line, "hostname") == None
    ensures PeerLine(p, line) == p.(spec := p.spec.(port := n), found := true)
  {
    hide KeyRest, D.Parse, HasPrefix, Quoted, Run;
  }

  lemma ReadBrace(p: Paste, brace: string)
    requires p.inPeer != "" && HasPrefix(brace, "}") && TrimSpace(brace) == brace && PeerBlock(brace) == None
    ensures PasteLine(p, brace) == p.(inPeer := "")
  {
    hide TrimSpace, PeerBlock, OuterLine;
    assert brace[0] == brace[..1][0];
    PastePlain(p, brace, brace);
  }

  lemma BraceLine()
    ensures HasPrefix("}", "}") && PeerBlock("}") == None && TrimSpace("}") == "}"
  {
    LettersNoSpace();
    assert SkipBlank("}") == "}";
    hide IsSpace, TrimSpace;
    TrimSpaceId("}");
  }

  lemma CutAt(a: string, c: char, b: string)
    requires c !in a
    ensures var s := a + [c] + b; IndexOf(s, c) == |a| && s[..|a|] == a && s[|a| + 1..] == b
  {
    IndexOfAt(a, c, b);
  }

  lemma ColonJoin(a: string, b: string)
    ensures a + ":" + b == a + [':'] + b
  {
  }

  lemma SplitFour(a: string, b: string, c: string, d: string)
    requires ':' !in a && ':' !in b && ':' !in c && TrimSpace(a) == a != ""
    ensures SplitNewsfeeds(a + ":" + (b + ":" + (c + ":" + d))) == Some(FeedLine(a, b, c, d))
  {
    hide TrimSpace, IndexOf;
    var r2 := c + ":" + d;
    var r1 := b + ":" + r2;
    ColonJoin(c, d);
    CutAt(c, ':', d);
    ColonJoin(b, r2);
    CutAt(b, ':', r2);
    ColonJoin(a, r1);
    CutAt(a, ':', r1);
  }

  /** A site field is a name, a separator follows it. */
  lemma FeedShape(s: Spec) returns (sep: char, rest: string)
    ensures sep in {':', '/'} && FeedText(s) == s.name + [sep] + rest
  {
    hide PatternField;
    var tail := PatternField(s) + ":" + s.flags + ":innfeed!";
    if s.pathToken != "" {
      sep, rest := '/', s.pathToken + ":" + tail;
    } else {
      sep, rest := ':', tail;
    }
    FeedTail(SiteField(s), PatternField(s), s.flags, ":innfeed!");
    if s.pathToken != "" {
      assert s.name + "/" + s.pathToken + ":" + tail == s.name + ['/'] + (s.pathToken + ":" + tail);
    } else {
      assert s.name + ":" + tail == s.name + [':'] + tail;
    }
  }

  lemma FeedTail(site: string, patterns: string, flags: string, end: string)
    ensures site + ":" + patterns + ":" + flags + end == site + ":" + (patterns + ":" + flags + end)
  {
  }

  lemma NotReserved(name: string)
    requires PlainName(name)
    ensures Fold(name) != "pattern" && Fold(name) != "ipv4" && Fold(name) != "ipv6" && !EqualFold(name, "ME")
    ensures forall c | c in name :: !Blank(c) && c != ':'
  {
    TokenTrim(name);
    assert Fold("ME") == "me";
  }

  /** A newsfeeds line is none of the other lines of a paste. */
  lemma FeedPlain(s: Spec)
    requires PlainName(s.name)
    ensures var line := FeedText(s);
            && line != "" && line[0] !in {'#', '/'} && PeerBlock(line) == None
            && PatternLine(line) == None && IPv4Line(line) == None && IPv6Line(line) == None
  {
    var sep, rest := FeedShape(s);
    NotReserved(s.name);
    Keywords();
    assert s.name[0] in s.name;
    hide Keyword, Fold, KeyRest, PeerBlock, FeedText;
    NamePeer(s.name, sep, rest);
    NameMiss(s.name, sep, rest, "pattern");
    NameMiss(s.name, sep, rest, "ipv4");
    NameMiss(s.name, sep, rest, "ipv6");
  }

  lemma FeedTrim(s: Spec)
    requires PlainName(s.name)
    ensures TrimSpace(FeedText(s)) == FeedText(s)
  {
    LettersNoSpace();
    var sep, rest := FeedShape(s);
    assert s.name[0] in s.name && FeedText(s)[0] == s.name[0];
    var line := FeedText(s);
    assert line[|line| - 1] == '!';
    hide IsSpace, TrimSpace;
    TrimSpaceId(line);
  }

  lemma SiteTrim(s: Spec)
    requires PlainName(s.name) && Field(s.pathToken)
    ensures TrimSpace(SiteField(s)) == SiteField(s) != "" && ':' !in SiteField(s)
    ensures var i := IndexOf(SiteField(s), '/');
            SiteField(s)[..i] == s.name && (if i < |SiteField(s)| then SiteField(s)[i + 1..] else "") == s.pathToken
  {
    var name, site := s.name, SiteField(s);
    assert name[0] in name && name[|name| - 1] in name;
    if s.pathToken != "" {
      assert site == name + ['/'] + s.pathToken;
      IndexOfAt(name, '/', s.pathToken);
    } else {
      assert site[..|site|] == site;
    }
    hide IsSpace, TrimSpace, IndexOf;
    TrimSpaceId(site);
  }

  lemma PatternsRead(t: Spec, s: Spec)
    requires s.patterns != "" && '/' !in s.patterns && Field(PatternField(s)) && PatternField(s)[|PatternField(s)| - 1] != '\\'
    ensures ApplyPatternField(t, PatternField(s)) ==
              t.(patterns := s.patterns, distributions := Or(s.distributions, t.distributions))
  {
    var field := PatternField(s);
    FieldIntact(field);
    if s.distributions != "" {
      assert field == s.patterns + ['/'] + s.distributions;
      CutAt(s.patterns, '/', s.distributions);
    } else {
      assert field == s.patterns && field[..|field|] == field;
    }
    hide TrimSpace, TrimEnd, IndexOf, IsSpace, TrimPrefix;
  }

  lemma FieldIntact(field: string)
    requires field != "" && Field(field) && field[|field| - 1] != '\\'
    ensures TrimEnd(TrimPrefix(TrimSpace(field), ":"), {'\\'}) == field
  {
    TrimSpaceId(field);
    NoColon(field);
    hide TrimSpace, IsSpace, HasPrefix;
  }

  lemma NoColon(w: string)
    requires ':' !in w
    ensures !HasPrefix(w, ":")
  {
    if w != "" {
      assert w[..1][0] == w[0] && w[0] in w;
    }
  }

  lemma ParamFeeds()
    ensures Contains(ToLower("innfeed!"), "innfeed")
  {
    var t := ToLower("innfeed!");
    assert t[..7] == "innfeed";
  }

  lemma FeedFields(s: Spec)
    requires WellFormed(s)
    ensures SplitNewsfeeds(FeedText(s)) == Some(FeedLine(SiteField(s), PatternField(s), s.flags, "innfeed!"))
    ensures TrimSpace(s.flags) == s.flags
  {
    SiteTrim(s);
    TrimSpaceId(s.flags);
    hide TrimSpace, SiteField, PatternField, IsSpace, IndexOf;
    SplitFour(SiteField(s), PatternField(s), s.flags, "innfeed!");
    FeedEnd(SiteField(s), PatternField(s), s.flags);
  }

  lemma FeedEnd(site: string, patterns: string, flags: string)
    ensures site + ":" + (patterns + ":" + (flags + ":" + "innfeed!")) == site + ":" + patterns + ":" + flags + ":innfeed!"
  {
    assert ":" + "innfeed!" == ":innfeed!";
    FeedNest(site, patterns, flags, ":", "innfeed!");
  }

  lemma FeedNest(a: string, b: string, c: string, colon: string, d: string)
    ensures a + colon + (b + colon + (c + colon + d)) == a + colon + b + colon + c + (colon + d)
  {
  }

  /** A split newsfeeds line of a peer, its site cut in two. */
  lemma FeedOf(t: Spec, line: string, f: FeedLine, name: string, path: string)
    requires SplitNewsfeeds(line) == Some(f) && f.param == "innfeed!" && name != "" && !EqualFold(name, "ME")
    requires var i := IndexOf(f.site, '/'); f.site[..i] == name && (if i < |f.site| then f.site[i + 1..] else "") == path
    ensures ApplyNewsfeeds(t, line) == Some(ApplyFields(t, name, path, f))
  {
    ParamFeeds();
    hide SplitNewsfeeds, EqualFold, Contains, ToLower, IndexOf, HasSuffix, ApplyFields;
  }

  /** The peer's newsfeeds line sets what it names. */
  lemma FeedApplies(t: Spec, s: Spec)
    requires WellFormed(s)
    ensures ApplyNewsfeeds(t, FeedText(s)) ==
              Some(t.(name := s.name, pathToken := Or(s.pathToken, t.pathToken), patterns := s.patterns,
                      distributions := Or(s.distributions, t.distributions), flags := s.flags))
  {
    FeedFields(s);
    SiteTrim(s);
    NotReserved(s.name);
    PatternsRead(t, s);
    assert s.name != "" && s.flags != "";
    hide *;
    FeedOf(t, FeedText(s), FeedLine(SiteField(s), PatternField(s), s.flags, "innfeed!"), s.name, s.pathToken);
    FieldsApplied(t, s, SiteField(s));
  }

  lemma FieldsApplied(t: Spec, s: Spec, site: string)
    requires TrimSpace(s.flags) == s.flags != ""
    requires ApplyPatternField(t, PatternField(s)) ==
               t.(patterns := s.patterns, distributions := Or(s.distributions, t.distributions))
    ensures ApplyFields(t, s.name, s.pathToken, FeedLine(site, PatternField(s), s.flags, "innfeed!")) ==
              t.(name := s.name, pathToken := Or(s.pathToken, t.pathToken), patterns := s.patterns,
                 distributions := Or(s.distributions, t.distributions), flags := s.flags)
  {
    hide TrimSpace, ApplyPatternField, PatternField;
  }

  lemma ReadFeed(p: Paste, s: Spec)
    requires WellFormed(s) && p.inPeer == ""
    ensures PasteLine(p, FeedText(s)) ==
              p.(spec := p.spec.(name := s.name, pathToken := Or(s.pathToken, p.spec.pathToken), patterns := s.patterns,
                                 distributions := Or(s.distributions, p.spec.distributions), flags := s.flags), found := true)
  {
    FeedPlain(s);
    FeedTrim(s);
    FeedApplies(p.spec, s);
    hide TrimSpace, PeerBlock, PatternLine, IPv4Line, IPv6Line, ApplyNewsfeeds, FeedText, WellFormed, BareHost, BareLine, PasteLine;
    PastePlain(p, FeedText(s), FeedText(s));
  }

  // ----- The round trip -----

  /** What a paste says after it contained a fragment of the peer. */
  function Said(t: Spec, s: Spec, f: Fragment): Spec {
    match f
    case Incoming => t.(name := Or(t.name, s.name), incomingHost := s.incomingHost, password := Or(s.password, t.password))
    case Innfeed => t.(name := Or(t.name, s.name), outgoingHost := s.outgoingHost, port := s.port)
    case Newsfeeds =>
      t.(name := s.name, pathToken := Or(s.pathToken, t.pathToken), patterns := s.patterns,
         distributions := Or(s.distributions, t.distributions), flags := s.flags)
  }

  lemma PasteTwo(p: Paste, a: string, b: string)
    ensures PasteLines(p, [a, b]) == PasteLine(PasteLine(p, a), b)
  {
    hide PasteLine;
    assert [a, b][1..] == [b] && [b][1..] == [];
    var q := PasteLine(PasteLine(p, a), b);
    assert PasteLines(q, []) == q;
  }

  lemma PasteOne(p: Paste, a: string)
    ensures PasteLines(p, [a]) == PasteLine(p, a)
  {
    hide PasteLine;
    assert [a][1..] == [];
  }

  lemma PasteFour(p: Paste, a: string, b: string, c: string, d: string)
    ensures PasteLines(p, [a, b, c, d]) == PasteLine(PasteLine(PasteLine(PasteLine(p, a), b), c), d)
  {
    hide PasteLine, PasteLines;
    PasteAppend(p, [a, b], [c, d]);
    assert [a, b] + [c, d] == [a, b, c, d];
    PasteTwo(p, a, b);
    PasteTwo(PasteLine(PasteLine(p, a), b), c, d);
  }

  lemma PasteThree(p: Paste, a: string, b: string, d: string)
    ensures PasteLines(p, [a, b, d]) == PasteLine(PasteLine(PasteLine(p, a), b), d)
  {
    hide PasteLine, PasteLines;
    PasteAppend(p, [a, b], [d]);
    assert [a, b] + [d] == [a, b, d];
    PasteTwo(p, a, b);
    PasteOne(PasteLine(PasteLine(p, a), b), d);
  }

  lemma ReadIncoming(p: Paste, s: Spec)
    requires WellFormed(s) && p.inPeer == ""
    ensures PasteLines(p, IncomingLines(s)) == p.(spec := Said(p.spec, s, Incoming), found := true)
  {
    hide PasteLine, PasteLines, Opening, Setting, PlainName, Value, PatternField, Field, HasPrefix, PeerBlock, TrimSpace;
    NameNotEmpty(s);
    BraceLine();
    PasteOpening(p, s.name);
    var p1 := PasteLine(p, Opening(s.name));
    ReadHostname(p1, s.incomingHost);
    var p2 := PasteLine(p1, Setting("hostname", PAD7, s.incomingHost));
    if s.password == "" {
      assert IncomingLines(s) == [Opening(s.name), Setting("hostname", PAD7, s.incomingHost), "}"];
      PasteThree(p, Opening(s.name), Setting("hostname", PAD7, s.incomingHost), "}");
      ReadBrace(p2, "}");
    } else {
      assert IncomingLines(s) == [Opening(s.name), Setting("hostname", PAD7, s.incomingHost), Setting("password", PAD7, s.password), "}"];
      PasteFour(p, Opening(s.name), Setting("hostname", PAD7, s.incomingHost), Setting("password", PAD7, s.password), "}");
      ReadPassword(p2, s.password);
      ReadBrace(PasteLine(p2, Setting("password", PAD7, s.password)), "}");
    }
  }

  lemma NameNotEmpty(s: Spec)
    requires WellFormed(s)
    ensures s.name != ""
  {
  }

  lemma ReadInnfeed(p: Paste, s: Spec)
    requires WellFormed(s) && p.inPeer == ""
    ensures PasteLines(p, InnfeedLines(s)) == p.(spec := Said(p.spec, s, Innfeed), found := true)
  {
    hide PasteLine, PasteLines, Opening, Setting, PlainName, Value, PatternField, Field, HasPrefix, PeerBlock, TrimSpace, D.Format;
    NameNotEmpty(s);
    BraceLine();
    PasteOpening(p, s.name);
    var p1 := PasteLine(p, Opening(s.name));
    ReadIPName(p1, s.outgoingHost);
    var p2 := PasteLine(p1, Setting("ip-name", PAD8, s.outgoingHost));
    ReadPort(p2, s.port);
    var p3 := PasteLine(p2, Setting("port-number", PAD4, D.Format(s.port)));
    ReadBrace(p3, "}");
    PasteFour(p, Opening(s.name), Setting("ip-name", PAD8, s.outgoingHost), Setting("port-number", PAD4, D.Format(s.port)), "}");
  }

  lemma ReadFragment(p: Paste, s: Spec, f: Fragment)
    requires WellFormed(s) && p.inPeer == ""
    ensures PasteLines(p, LinesOf(s, f)) == p.(spec := Said(p.spec, s, f), found := true)
  {
    hide WellFormed, PasteLines, IncomingLines, InnfeedLines, FeedText, PasteLine;
    match f
    case Incoming => ReadIncoming(p, s);
    case Innfeed => ReadInnfeed(p, s);
    case Newsfeeds =>
      PasteOne(p, FeedText(s));
      ReadFeed(p, s);
  }

  function AllLines(s: Spec, order: seq<Fragment>): seq<string> {
    if order == [] then [] else LinesOf(s, order[0]) + AllLines(s, order[1..])
  }

  function SaidAll(t: Spec, s: Spec, order: seq<Fragment>): Spec
    decreases |order|
  {
    if order == [] then t else SaidAll(Said(t, s, order[0]), s, order[1..])
  }

  lemma {:induction false} ReadAll(p: Paste, s: Spec, order: seq<Fragment>)
    requires WellFormed(s) && p.inPeer == ""
    ensures PasteLines(p, AllLines(s, order)) == p.(spec := SaidAll(p.spec, s, order), found := p.found || order != [])
    decreases |order|
  {
    hide WellFormed, LinesOf, Said, PasteLine;
    if order != [] {
      var q := PasteLines(p, LinesOf(s, order[0]));
      ReadFragment(p, s, order[0]);
      PasteAppend(p, LinesOf(s, order[0]), AllLines(s, order[1..]));
      ReadAll(q, s, order[1..]);
    }
  }

  lemma {:induction false} AllPlain(s: Spec, order: seq<Fragment>)
    requires WellFormed(s) && ShortLines(s)
    ensures forall line | line in AllLines(s, order) :: Plain(line)
  {
    hide WellFormed, ShortLines, Plain, LinesOf;
    if order != [] {
      LinesPlain(s, order[0]);
      AllPlain(s, order[1..]);
    }
  }

  /** Filling in defaults changes nothing in a well-formed peer. */
  lemma DefaultsStay(s: Spec)
    requires WellFormed(s)
    ensures Defaulted(s) == s && (s.password == "" || TrimSpace(s.password) != "")
  {
    TokenTrim(s.name);
    TokenTrim(s.incomingHost);
    TokenTrim(s.outgoingHost);
    TrimSpaceId(s.pathToken);
    if s.password != "" {
      TokenTrim(s.password);
    }
    hide TrimSpace, SlugName, PatternField;
  }

  /** All three fragments, in any order, say everything. */
  lemma SaidEverything(s: Spec, order: seq<Fragment>)
    requires WellFormed(s) && multiset(order) == multiset{Incoming, Innfeed, Newsfeeds}
    ensures SaidAll(NO_SPEC, s, order) == s
  {
    OrderOf(order);
    NameNotEmpty(s);
    var a, b, c := order[0], order[1], order[2];
    assert order[1..] == [b, c] && order[1..][1..] == [c] && order[1..][1..][1..] == [];
    var t := Said(Said(Said(NO_SPEC, s, a), s, b), s, c);
    hide WellFormed, Said;
    assert SaidAll(NO_SPEC, s, order) == t by { SaidThree(s, order); }
  }

  lemma SaidStep(t: Spec, s: Spec, order: seq<Fragment>)
    requires order != []
    ensures SaidAll(t, s, order) == SaidAll(Said(t, s, order[0]), s, order[1..])
  {
  }

  lemma SaidThree(s: Spec, order: seq<Fragment>)
    requires |order| == 3
    ensures SaidAll(NO_SPEC, s, order) == Said(Said(Said(NO_SPEC, s, order[0]), s, order[1]), s, order[2])
  {
    var t1 := Said(NO_SPEC, s, order[0]);
    var t2 := Said(t1, s, order[1]);
    hide Said;
    SaidStep(NO_SPEC, s, order);
    assert order[1..] == [order[1], order[2]] && order[1..][1..] == [order[2]];
    SaidStep(t1, s, [order[1], order[2]]);
    SaidStep(t2, s, [order[2]]);
    assert [order[1], order[2]][1..] == [order[2]] && [order[2]][1..] == [];
  }

  lemma OrderOf(order: seq<Fragment>)
    requires multiset(order) == multiset{Incoming, Innfeed, Newsfeeds}
    ensures |order| == 3 && order[0] != order[1] && order[0] != order[2] && order[1] != order[2]
  {
    assert |order| == |multiset(order)| == 3;
    assert order == [order[0], order[1], order[2]];
    assert multiset(order)[Incoming] == 1 && multiset(order)[Innfeed] == 1 && multiset(order)[Newsfeeds] == 1;
  }

  lemma SnippetsNone(s: Spec, none: seq<Fragment>)
    requires none == []
    ensures Snippets(s, none) == Unlines(AllLines(s, none))
  {
  }

  lemma SnippetsFirst(s: Spec, order: seq<Fragment>)
    requires order != []
    ensures Snippets(s, order) == FormatOf(s, order[0]) + Snippets(s, order[1..])
    ensures AllLines(s, order) == LinesOf(s, order[0]) + AllLines(s, order[1..])
  {
  }

  /** A paste of the three fragments of a well-formed peer, in any order, gives back every field, and lists it as
      mentioned. */
  lemma PasteRoundTrip(s: Spec, order: seq<Fragment>)
    requires WellFormed(Defaulted(s)) && ShortLines(Defaulted(s))
    requires multiset(order) == multiset{Incoming, Innfeed, Newsfeeds}
    ensures ParsePaste(Snippets(s, order)) == Some(Defaulted(s))
    ensures Mentions(PasteNotes(Snippets(s, order)).present, Defaulted(s))
  {
    hide WellFormed, Mentions, NoteLines, ShortLines, Defaulted, UnfoldContinued, ScanLines, PasteLines, AllLines, Snippets, SaidAll, TrimSpace, Unlines,
         FormatOf, LinesOf;
    var d := Defaulted(s);
    DefaultsStay(d);
    SnippetsDefault(s, order);
    ghost var i := |order|;
    SnippetsNone(d, order[i..]);
    while i > 0
      invariant i <= |order| && Snippets(d, order[i..]) == Unlines(AllLines(d, order[i..]))
    {
      i := i - 1;
      assert order[i..][0] == order[i] && order[i..][1..] == order[i + 1..];
      SnippetsFirst(d, order[i..]);
      FormatLines(d, order[i]);
      UnlinesAppend(LinesOf(d, order[i]), AllLines(d, order[i + 1..]));
    }
    assert order[0..] == order;
    AllPlain(d, order);
    PlainText(AllLines(d, order));
    ReadAll(EMPTY_PASTE, d, order);
    SaidEverything(d, order);
    StartMentions();
    LinesMention(NO_NOTES, EMPTY_PASTE, AllLines(d, order));
  }

  lemma StartMentions()
    ensures Mentions(NO_NOTES.present, NO_SPEC)
  {
  }

  lemma FormatDefault(s: Spec, f: Fragment)
    requires Defaulted(Defaulted(s)) == Defaulted(s)
    ensures FormatOf(s, f) == FormatOf(Defaulted(s), f)
  {
    hide Defaulted, Setting, Opening, D.Format, TrimSpace;
  }

  lemma {:induction false} SnippetsDefault(s: Spec, order: seq<Fragment>)
    requires Defaulted(Defaulted(s)) == Defaulted(s)
    ensures Snippets(s, order) == Snippets(Defaulted(s), order)
  {
    hide Defaulted, FormatOf;
    if order != [] {
      FormatDefault(s, order[0]);
      SnippetsDefault(s, order[1..]);
    }
  }

  // ----- The program's peer -----

  class Peer {
    var name: string
    var pathToken: string
    var incomingHost: string
    var outgoingHost: string
    var port: int
    var patterns: string
    var distributions: string
    var flags: string
    var password: string

    constructor ()
      ensures View() == NO_SPEC
    {
      name, pathToken, incomingHost, outgoingHost, port := "", "", "", "", 0;
      patterns, distributions, flags, password := "", "", "", "";
    }

    ghost function View(): Spec
      reads this
    {
      Spec(name, pathToken, incomingHost, outgoingHost, port, patterns, distributions, flags, password)
    }

    /** Fills in what is missing. */
    method Defaults()
      modifies this
      ensures View() == Defaulted(old(View()))
    {
      hide TrimSpace, SlugName;
      name := TrimSpace(name);
      pathToken := TrimSpace(pathToken);
      incomingHost := TrimSpace(incomingHost);
      outgoingHost := TrimSpace(outgoingHost);
      if outgoingHost == "" {
        outgoingHost := incomingHost;
      }
      if incomingHost == "" {
        incomingHost := outgoingHost;
      }
      if port <= 0 {
        port := 119;
      }
      if name == "" {
        name := SlugName(outgoingHost);
      }
      if patterns == "" {
        patterns := "*";
      }
      if flags == "" {
        flags := "Tm";
      }
    }

    method ApplyPatterns(field0: string)
      modifies this`patterns, this`distributions
      ensures View() == ApplyPatternField(old(View()), field0)
    {
      hide TrimSpace, TrimEnd, IndexOf;
      var field := TrimEnd(TrimPrefix(TrimSpace(field0), ":"), {'\\'});
      var i := IndexOf(field, '/');
      var pats, distribs := field[..i], "";
      if i < |field| {
        distribs := field[i + 1..];
      }
      if pats != "" {
        patterns := pats;
      }
      if distribs != "" {
        distributions := distribs;
      }
    }

    /** Takes over a newsfeeds line, if it is one for a peer or for the server itself. */
    method ApplyLine(line: string) returns (ok: bool)
      modifies this
      ensures ok == ApplyNewsfeeds(old(View()), line).Some?
      ensures View() == if ok then ApplyNewsfeeds(old(View()), line).value else old(View())
    {
      hide TrimSpace, SplitNewsfeeds, IndexOf, Contains, ToLower, EqualFold, HasSuffix, ApplyPatternField;
      var fields := SplitNewsfeeds(line);
      if fields == None {
        return false;
      }
      var f := fields.value;
      var who, path := f.site, "";
      var i := IndexOf(f.site, '/');
      who := f.site[..i];
      if i < |f.site| {
        path := f.site[i + 1..];
      }
      if !EqualFold(who, "ME") {
        if HasSuffix(who, "!") && !Contains(ToLower(f.param), "innfeed") {
          return false;
        }
        if '!' !in f.param && !Contains(ToLower(f.param), "innfeed") {
          return false;
        }
        if who != "" {
          name := who;
        }
      }
      PatternsOnly(View(), f.patterns);
      PatternsApart(View(), f.patterns, name);
      PatternsApart(old(View()), f.patterns, name);
      ApplyPatterns(f.patterns);
      if path != "" {
        pathToken := path;
      }
      if TrimSpace(f.flags) != "" {
        flags := TrimSpace(f.flags);
      }
      return true;
    }

    /** Looks at one line of a paste, inside or outside a peer block. */
    method ReadLine(line0: string, inPeer0: string, found0: bool)
        returns (inPeer: string, found: bool, marks: seq<FieldName>, warning: string)
      modifies this
      ensures Paste(View(), inPeer, found) == PasteLine(Paste(old(View()), inPeer0, found0), line0)
      ensures (marks, warning) == LineNotes(Paste(old(View()), inPeer0, found0), line0)
    {
      hide TrimSpace, PeerBlock, Quoted, PeerLine, OuterLine, PeerMarks, OuterMarks, OuterWarning;
      inPeer, found, marks, warning := inPeer0, found0, [], "";
      var line := TrimSpace(line0);
      if line == "" || HasPrefix(line, "#") || HasPrefix(line, "//") {
        return;
      }
      var block := PeerBlock(line);
      if block.Some? {
        inPeer := Quoted(block.value, {'"'});
        if name == "" {
          name := inPeer;
          found, marks := true, [NameField];
        }
        return;
      }
      if inPeer != "" {
        inPeer, found, marks := ReadPeerLine(line, inPeer, found);
      } else {
        found, marks, warning := ReadOuterLine(line, found);
      }
    }

    method ReadPeerLine(line: string, inPeer0: string, found0: bool) returns (inPeer: string, found: bool, marks: seq<FieldName>)
      modifies this
      ensures Paste(View(), inPeer, found) == PeerLine(Paste(old(View()), inPeer0, found0), line)
      ensures marks == PeerMarks(line)
    {
      hide KeyWord, KeyRun, Quoted, D.Parse;
      inPeer, found, marks := inPeer0, found0, [];
      if HasPrefix(line, "}") {
        return "", found, [];
      }
      var m := KeyWord(line, "ip-name");
      if m.Some? {
        outgoingHost := Quoted(m.value, QUOTES);
        return inPeer, true, [HostField];
      }
      m := KeyWord(line, "hostname");
      if m.Some? {
        incomingHost := Quoted(m.value, QUOTES);
        return inPeer, true, [IncomingHostField];
      }
      m := KeyRun(line, "port-number", IsDigit);
      if m.Some? {
        var n := D.Parse(m.value);
        port := if n == None then 0 else n.value;
        return inPeer, true, [PortField];
      }
      m := KeyWord(line, "password");
      if m.Some? {
        password := Quoted(m.value, QUOTES);
        return inPeer, true, [PasswordField];
      }
    }

    method ReadOuterLine(line: string, found0: bool) returns (found: bool, marks: seq<FieldName>, warning: string)
      modifies this
      ensures forall inPeer :: Paste(View(), inPeer, found) == OuterLine(Paste(old(View()), inPeer, found0), line)
      ensures marks == OuterMarks(old(View()), line) && warning == OuterWarning(old(View()), line)
    {
      hide PatternLine, IPv4Line, IPv6Line, ApplyNewsfeeds, BareHost, IsIPLiteral, ApplyPatternField;
      found, marks, warning := found0, [], "";
      var m := PatternLine(line);
      if m.Some? {
        ApplyPatterns(m.value);
        marks := [PatternsField];
        if distributions != "" {
          marks := marks + [DistributionsField];
        }
        return true, marks, OFFERED;
      }
      m := IPv4Line(line);
      if m.Some? {
        if outgoingHost == "" && incomingHost == "" {
          outgoingHost := m.value;
          found, marks := true, [HostField];
        }
        warning := "IPV4 " + m.value;
        return;
      }
      m := IPv6Line(line);
      if m.Some? {
        warning := "IPV6 " + m.value;
        return;
      }
      var nameBefore, pathBefore := name, pathToken;
      var ok := ApplyLine(line);
      if ok {
        marks := FeedLineMarks(nameBefore, pathBefore);
        return true, marks, OFFERED;
      }
      if BareHost(line) {
        found, marks := ReadBareHost(line, found);
      }
    }

    /** What a newsfeeds line that was taken over marks. */
    method FeedLineMarks(nameBefore: string, pathBefore: string) returns (marks: seq<FieldName>)
      ensures forall s: Spec | s.name == nameBefore && s.pathToken == pathBefore :: marks == FeedMarks(s, View())
    {
      marks := [];
      if name != "" && name != nameBefore {
        marks := marks + [NameField];
      }
      if pathToken != "" && pathToken != pathBefore {
        marks := marks + [PathTokenField];
      }
      marks := marks + [PatternsField];
      if distributions != "" {
        marks := marks + [DistributionsField];
      }
      if flags != "" {
        marks := marks + [FlagsField];
      }
    }

    method ReadBareHost(line: string, found0: bool) returns (found: bool, marks: seq<FieldName>)
      modifies this
      ensures forall inPeer :: Paste(View(), inPeer, found) == BareLine(Paste(old(View()), inPeer, found0), line)
      ensures marks == BareMarks(old(View()))
    {
      hide IsIPLiteral;
      found, marks := found0, [];
      if name == "" {
        name := line;
        found, marks := true, marks + [NameField];
      }
      if incomingHost == "" || IsIPLiteral(incomingHost) {
        incomingHost := line;
        found, marks := true, marks + [IncomingHostField];
      }
      if outgoingHost == "" || IsIPLiteral(outgoingHost) {
        outgoingHost := line;
        found, marks := true, marks + [HostField];
      }
    }
  }

  lemma PatternsOnly(s: Spec, field: string)
    ensures var t := ApplyPatternField(s, field); t == s.(patterns := t.patterns, distributions := t.distributions)
  {
    hide TrimSpace, TrimEnd, IndexOf;
  }

  lemma PatternsApart(s: Spec, field: string, name: string)
    ensures ApplyPatternField(s.(name := name), field) == ApplyPatternField(s, field).(name := name)
  {
    hide TrimSpace, TrimEnd, IndexOf;
  }

  /** Puts lines that end in a backslash together with those that follow. */
  method Unfold(text: string) returns (out: string)
    ensures out == UnfoldContinued(text)
  {
    hide TrimEnd, TrimSpace, ScanLines, HasSuffix;
    var lines := ScanLines(text);
    var pending := "";
    out := "";
    assert lines[0..] == lines;
    for i := 0 to |lines|
      invariant out + Unfolded(lines[i..], pending) == Unfolded(lines, "")
    {
      assert lines[i..][1..] == lines[i + 1..] && lines[i..][0] == lines[i];
      var line := TrimEnd(lines[i], BLANKS);
      if pending != "" {
        line := pending + TrimSpace(line);
        pending := "";
      }
      if HasSuffix(line, "\\") {
        SuffixNotEmpty(line);
        pending := TrimEnd(line[..|line| - 1], BLANKS);
        continue;
      }
      out := out + (line + "\n");
    }
    if pending != "" {
      out := out + (pending + "\n");
    }
  }

  lemma SuffixNotEmpty(line: string)
    requires HasSuffix(line, "\\")
    ensures line != ""
  {
  }

  /** Reads a paste: the peer that it describes, or none, with the warnings and the fields that it mentions. */
  method ReadPaste(text0: string) returns (peer: Peer?, warns: seq<string>, present: seq<FieldName>)
    ensures peer == null || fresh(peer)
    ensures ParsePaste(text0) == if peer == null then None else Some(peer.View())
    ensures Notes(present, warns) == PasteNotes(text0)
  {
    hide UnfoldContinued, ScanLines, PasteLine, Defaulted, LineNotes, Mark, AppendUnique;
    PasteMentions(text0);
    var text := Unfold(text0);
    var s := new Peer();
    var lines := ScanLines(text);
    var inPeer, found := "", false;
    warns, present := [], [];
    assert lines[0..] == lines;
    for i := 0 to |lines|
      invariant fresh(s)
      invariant PasteLines(Paste(s.View(), inPeer, found), lines[i..]) == PasteLines(EMPTY_PASTE, lines)
      invariant NoteLines(Notes(present, warns), Paste(s.View(), inPeer, found), lines[i..])
             == NoteLines(NO_NOTES, EMPTY_PASTE, lines)
    {
      assert lines[i..][1..] == lines[i + 1..] && lines[i..][0] == lines[i];
      var marks, warning;
      inPeer, found, marks, warning := s.ReadLine(lines[i], inPeer, found);
      present := Mark(present, marks);
      warns := AppendUnique(warns, warning);
    }
    assert lines[|lines|..] == [];
    if !found {
      return null, ["no peer found in paste"], [];
    }
    s.Defaults();
    peer := s;
  }
}
