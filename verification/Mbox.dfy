/** The mbox spool: appending articles, reading a file back, and rewriting it without removed articles. */
module Mbox {
  import opened Text
  import opened ArticleText

  // ----- Lines with their ends -----

  /** The lines of a text, each with its line feed; only the last may lack it. */
  function RawLines(s: string): seq<string>
    decreases |s|
  {
    if s == "" then []
    else
      var i := IndexOf(s, '\n');
      if i == |s| then [s] else [s[..i + 1]] + RawLines(s[i + 1..])
  }

  predicate Ended(s: string) {
    s == "" || s[|s| - 1] == '\n'
  }

  lemma RawLinesOne(line: string, rest: string)
    requires '\n' !in line
    ensures RawLines(line + "\n" + rest) == [line + "\n"] + RawLines(rest)
  {
    var s := line + "\n" + rest;
    assert s == line + ['\n'] + rest;
    IndexOfAt(line, '\n', rest);
    assert s[..|line| + 1] == line + "\n" && s[|line| + 1..] == rest;
  }

  lemma RawLinesLast(line: string)
    requires '\n' !in line && line != ""
    ensures RawLines(line) == [line]
  {
  }

  lemma {:induction false} RawLinesAppend(a: string, b: string)
    requires Ended(a)
    ensures RawLines(a + b) == RawLines(a) + RawLines(b)
    decreases |a|
  {
    hide RawLines, IndexOf;
    RawLinesEmpty();
    if a == "" {
      assert a + b == b;
    } else {
      var i := IndexOf(a, '\n');
      var line, rest := a[..i], a[i + 1..];
      assert a == line + "\n" + rest;
      assert a + b == line + "\n" + (rest + b);
      RawLinesOne(line, rest);
      RawLinesOne(line, rest + b);
      RawLinesAppend(rest, b);
    }
  }

  lemma RawLinesEmpty()
    ensures RawLines("") == []
  {
  }

  function Flatten<T>(parts: seq<seq<T>>): seq<T> {
    if parts == [] then [] else parts[0] + Flatten(parts[1..])
  }

  lemma {:induction false} FlattenAppend<T>(a: seq<seq<T>>, b: seq<seq<T>>)
    ensures Flatten(a + b) == Flatten(a) + Flatten(b)
  {
    if a == [] {
      assert a + b == b;
    } else {
      FlattenAppend(a[1..], b);
      assert (a + b)[1..] == a[1..] + b && (a + b)[0] == a[0];
      assert a[0] + (Flatten(a[1..]) + Flatten(b)) == (a[0] + Flatten(a[1..])) + Flatten(b);
    }
  }

  /** Each line is one piece: at most its last character is a line feed. */
  predicate IsLine(l: string) {
    l != "" && '\n' !in l[..|l| - 1]
  }

  lemma {:induction false} RawLinesPieces(s: string)
    ensures Flatten(RawLines(s)) == s
    ensures forall i | 0 <= i < |RawLines(s)| :: IsLine(RawLines(s)[i]) && (i < |RawLines(s)| - 1 ==> Ended(RawLines(s)[i]))
    ensures s != "" ==> RawLines(s) != [] && Ended(s) == Ended(RawLines(s)[|RawLines(s)| - 1])
    decreases |s|
  {
    hide RawLines, IndexOf, Flatten;
    RawLinesEmpty();
    FlattenCons<char>([], []);
    if s != "" {
      var i := IndexOf(s, '\n');
      if i == |s| {
        RawLinesLast(s);
        FlattenCons(s, []);
        assert [s] + [] == [s];
      } else {
        var line, rest := s[..i], s[i + 1..];
        assert s == line + "\n" + rest;
        RawLinesOne(line, rest);
        RawLinesPieces(rest);
        FlattenCons(line + "\n", RawLines(rest));
      }
    }
  }

  lemma FlattenOne<T>(a: seq<T>)
    ensures Flatten([a]) == a
  {
    assert [a][1..] == [];
    assert a + Flatten<T>([]) == a;
  }

  lemma FlattenCons<T>(a: seq<T>, b: seq<seq<T>>)
    ensures Flatten([a] + b) == a + Flatten(b) && Flatten<T>([]) == []
  {
    assert ([a] + b)[1..] == b;
  }

  // ----- Reading -----

  predicate IsFrom(line: string) {
    HasPrefix(line, "From ")
  }

  predicate IsQuoted(line: string) {
    HasPrefix(line, ">From ")
  }

  /** A line with CRLF becomes one with a line feed. */
  function StripCR(line: string): string {
    if HasSuffix(line, "\r\n") then line[..|line| - 2] + "\n" else line
  }

  function Unquote(line: string): string {
    if IsQuoted(line) then line[1..] else line
  }

  function TrimNewlines(s: string): (t: string)
    ensures |t| <= |s| && s[..|t|] == t
  {
    if s != "" && s[|s| - 1] == '\n' then TrimNewlines(s[..|s| - 1]) else s
  }

  predicate Blank(s: string) {
    forall c | c in s :: IsSpace(c)
  }

  /** The message collected so far, if it is not blank. */
  function Flushed(have: bool, cur: string): seq<string> {
    if have && !Blank(TrimNewlines(cur)) then [TrimNewlines(cur)] else []
  }

  /** Reading lines, with `cur` collected since the last separator if `have`. */
  function ReadLines(lines: seq<string>, have: bool, cur: string): seq<string> {
    if lines == [] then Flushed(have, cur)
    else
      var line := StripCR(lines[0]);
      if IsFrom(line) then Flushed(have, cur) + ReadLines(lines[1..], true, "")
      else if !have then ReadLines(lines[1..], false, cur)
      else ReadLines(lines[1..], true, cur + Unquote(line))
  }

  function Read(file: string): seq<string> {
    ReadLines(RawLines(file), false, "")
  }

  /** A separator line starts afresh: what is read before it and from it on are independent. */
  lemma {:induction false} ReadCut(a: seq<string>, b: seq<string>, have: bool, cur: string)
    requires b == [] || IsFrom(StripCR(b[0]))
    ensures ReadLines(a + b, have, cur) == ReadLines(a, have, cur) + ReadLines(b, false, "")
    decreases |a|
  {
    hide StripCR, Unquote, IsFrom, TrimNewlines, Blank;
    if a == [] {
      assert a + b == b;
    } else {
      assert (a + b)[1..] == a[1..] + b;
      var line := StripCR(a[0]);
      if IsFrom(line) {
        ReadCut(a[1..], b, true, "");
      } else if !have {
        ReadCut(a[1..], b, false, cur);
      } else {
        ReadCut(a[1..], b, true, cur + Unquote(line));
      }
    }
  }

  lemma FromChars(s: string)
    ensures IsFrom(s) <==> |s| >= 5 && s[0] == 'F' && s[1] == 'r' && s[2] == 'o' && s[3] == 'm' && s[4] == ' '
  {
    if IsFrom(s) {
      assert s[0] == s[..5][0] && s[1] == s[..5][1] && s[2] == s[..5][2] && s[3] == s[..5][3] && s[4] == s[..5][4];
    }
  }

  /** A line end has no part in the separator mark. */
  lemma FromIgnoresEnd(line: string, end: string)
    requires end == "" || end[0] == '\r' || end[0] == '\n'
    ensures IsFrom(line + end) <==> IsFrom(line)
  {
    hide IsFrom;
    FromChars(line);
    FromChars(line + end);
  }

  lemma StripCRFrom(line: string)
    ensures IsFrom(StripCR(line)) <==> IsFrom(line)
  {
    hide IsFrom;
    if HasSuffix(line, "\r\n") {
      var x := line[..|line| - 2];
      assert line == x + "\r\n";
      FromIgnoresEnd(x, "\r\n");
      FromIgnoresEnd(x, "\n");
    }
  }

  lemma ReadAppend(a: string, b: string)
    requires Ended(a)
    requires b == "" || IsFrom(b)
    ensures Read(a + b) == Read(a) + Read(b)
  {
    hide StripCR, IsFrom, ReadLines;
    RawLinesAppend(a, b);
    if b != "" {
      FirstLine(b);
      StripCRFrom(RawLines(b)[0]);
    } else {
      RawLinesEmpty();
    }
    ReadCut(RawLines(a), RawLines(b), false, "");
  }

  lemma RawLinesStep(s: string)
    requires s != ""
    ensures var i := IndexOf(s, '\n');
            if i < |s| then RawLines(s) == [s[..i + 1]] + RawLines(s[i + 1..])
            else RawLines(s) == [s] && RawLines("") == []
  {
    hide RawLines, IndexOf;
    var i := IndexOf(s, '\n');
    RawLinesEmpty();
    if i < |s| {
      RawLinesOne(s[..i], s[i + 1..]);
      assert s == s[..i] + "\n" + s[i + 1..] && s[..i + 1] == s[..i] + "\n";
    } else {
      RawLinesLast(s);
    }
  }

  lemma FirstLine(s: string)
    requires s != ""
    ensures RawLines(s) != [] && (IsFrom(RawLines(s)[0]) <==> IsFrom(s))
  {
    hide IsFrom, RawLines, IndexOf;
    RawLinesStep(s);
    var i := IndexOf(s, '\n');
    if i < |s| {
      assert s == s[..i] + s[i..] && s[..i + 1] == s[..i] + "\n";
      FromIgnoresEnd(s[..i], s[i..]);
      FromIgnoresEnd(s[..i], "\n");
    }
  }

  // ----- Appending -----

  function Quote(line: string): string {
    if IsFrom(line) then ">" + line else line
  }

  /** The lines of an article as they are put in the file. */
  function QuotedText(parts: seq<string>): string {
    if parts == [] then "" else Quote(parts[0]) + "\n" + QuotedText(parts[1..])
  }

  function LfText(wire: string): string {
    ReplaceAll(wire, "\r\n", "\n")
  }

  /** What appending an article writes behind the file. */
  function Appended(env: string, wire: string): string {
    var t := env + "\n" + QuotedText(Split(LfText(wire), '\n'));
    if HasSuffix(t, "\n\n") then t else t + "\n"
  }

  const NOBODY := "MAILER-DAEMON"

  /** The address in a From field: what stands in angle brackets, or the first word. */
  function AddressOf(from: string): string {
    var i := IndexOf(from, '<');
    if i < |from| then
      var j := IndexOf(from[i..], '>');
      if j < |from| - i then from[i + 1..][..j - 1] else NOBODY
    else if from != "" then FirstField(from)
    else NOBODY
  }

  /** The separator line of an article: the address in the From field and a time stamp. */
  function Envelope(from: string, stamp: string): string {
    "From " + OrNobody(Without(AddressOf(from), ' ')) + " " + stamp
  }

  function OrNobody(addr: string): string {
    if addr == "" then NOBODY else addr
  }

  function FirstField(s: string): string {
    TakeNonSpace(TrimLeft(s))
  }

  function TakeNonSpace(s: string): string {
    if s == "" || IsSpace(s[0]) then "" else [s[0]] + TakeNonSpace(s[1..])
  }

  function Without(s: string, c: char): (t: string)
    ensures forall d | d in t :: d in s
  {
    if s == "" then "" else if s[0] == c then Without(s[1..], c) else [s[0]] + Without(s[1..], c)
  }

  lemma {:induction false} TakeNonSpaceIn(s: string)
    ensures forall c | c in TakeNonSpace(s) :: c in s
  {
    if s != "" && !IsSpace(s[0]) {
      TakeNonSpaceIn(s[1..]);
    }
  }

  /** A separator is one line that starts with "From ", for any From field of a parsed article. */
  lemma EnvelopeIsSeparator(from: string, stamp: string)
    requires '\n' !in from && '\n' !in stamp
    ensures IsFrom(Envelope(from, stamp)) && '\n' !in Envelope(from, stamp)
  {
    AddressIn(from);
    NobodyPlain(Without(AddressOf(from), ' '));
    hide AddressOf, Without, OrNobody, IsFrom;
    FromMore("From ", OrNobody(Without(AddressOf(from), ' ')) + (" " + stamp));
    FromItself();
    assert "From " + OrNobody(Without(AddressOf(from), ' ')) + " " + stamp ==
           "From " + (OrNobody(Without(AddressOf(from), ' ')) + (" " + stamp));
  }

  lemma FromItself()
    ensures IsFrom("From ")
  {
  }

  lemma NobodyPlain(addr: string)
    requires '\n' !in addr
    ensures '\n' !in OrNobody(addr)
  {
  }

  /** No line end comes into the address. */
  lemma AddressIn(from: string)
    requires '\n' !in from
    ensures '\n' !in AddressOf(from)
  {
    hide IndexOf, TakeNonSpace, TrimLeft;
    TakeNonSpaceIn(TrimLeft(from));
  }

  /** What comes back of one line: its `>` before "From " is dropped if it had one, and a final CR. */
  function Returned(line: string): string {
    Unquote(StripCR(Quote(line) + "\n"))
  }

  function ReturnedText(parts: seq<string>): string {
    if parts == [] then "" else Returned(parts[0]) + ReturnedText(parts[1..])
  }

  /** The message that reading an appended article yields. */
  function Message(wire: string): string {
    TrimNewlines(ReturnedText(Split(LfText(wire), '\n')))
  }

  lemma QuotedIsNoFrom(line: string)
    ensures !IsFrom(StripCR(Quote(line) + "\n"))
  {
    StripCRFrom(Quote(line) + "\n");
    FromIgnoresEnd(Quote(line), "\n");
    FromChars(Quote(line));
  }

  lemma QuoteLine(line: string)
    requires '\n' !in line
    ensures '\n' !in Quote(line)
  {
  }

  /** Lines written from `parts`, read back in the middle of a message. */
  lemma {:induction false} ReadQuoted(parts: seq<string>, cur: string)
    requires forall p | p in parts :: '\n' !in p
    ensures ReadLines(RawLines(QuotedText(parts)), true, cur) == Flushed(true, cur + ReturnedText(parts))
    ensures Ended(QuotedText(parts))
  {
    hide RawLines, StripCR, IsFrom, Unquote, Quote, TrimNewlines, Blank;
    RawLinesEmpty();
    if parts == [] {
      assert cur + ReturnedText(parts) == cur;
    } else {
      var p, rest := parts[0], parts[1..];
      QuoteLine(p);
      RawLinesOne(Quote(p), QuotedText(rest));
      var lines := RawLines(QuotedText(parts));
      assert lines[1..] == RawLines(QuotedText(rest));
      QuotedIsNoFrom(p);
      ReadQuoted(rest, cur + Returned(p));
      assert cur + ReturnedText(parts) == cur + Returned(p) + ReturnedText(rest);
    }
  }

  lemma ReadQuotedPadded(parts: seq<string>, pad: string)
    requires forall p | p in parts :: '\n' !in p
    requires pad == "" || pad == "\n"
    ensures ReadLines(RawLines(QuotedText(parts) + pad), true, "") == Flushed(true, ReturnedText(parts))
  {
    ReadQuoted(parts, "");
    assert "" + ReturnedText(parts) == ReturnedText(parts);
    if pad == "" {
      assert QuotedText(parts) + pad == QuotedText(parts);
    } else {
      QuotedTextSnoc(parts);
      ReadQuoted(parts + [""], "");
      ReturnedTextSnoc(parts);
      assert "" + ReturnedText(parts + [""]) == ReturnedText(parts) + "\n";
      TrimNewlinesMore(ReturnedText(parts));
    }
  }

  lemma {:induction false} QuotedTextSnoc(parts: seq<string>)
    ensures QuotedText(parts + [""]) == QuotedText(parts) + "\n"
  {
    hide Quote;
    assert Quote("") == "" by { QuoteEmpty(); }
    if parts == [] {
      assert parts + [""] == [""];
      assert [""][1..] == [];
    } else {
      QuotedTextSnoc(parts[1..]);
      assert (parts + [""])[1..] == parts[1..] + [""];
    }
  }

  lemma QuoteEmpty()
    ensures Quote("") == "" && Returned("") == "\n"
  {
  }

  lemma {:induction false} ReturnedTextSnoc(parts: seq<string>)
    ensures ReturnedText(parts + [""]) == ReturnedText(parts) + "\n"
  {
    hide Returned;
    QuoteEmpty();
    if parts == [] {
      assert parts + [""] == [""];
      assert [""][1..] == [];
    } else {
      ReturnedTextSnoc(parts[1..]);
      assert (parts + [""])[1..] == parts[1..] + [""];
    }
  }

  lemma TrimNewlinesMore(s: string)
    ensures TrimNewlines(s + "\n") == TrimNewlines(s)
  {
    assert (s + "\n")[..|s|] == s;
  }

  /** Reading one appended article yields its message, unless that is blank. */
  lemma ReadAppended(env: string, wire: string)
    requires IsFrom(env) && '\n' !in env
    ensures Read(Appended(env, wire)) == if Blank(Message(wire)) then [] else [Message(wire)]
    ensures Ended(Appended(env, wire)) && IsFrom(Appended(env, wire))
  {
    hide RawLines, IsFrom, StripCR, TrimNewlines, Blank, QuotedText, ReturnedText, LfText, Appended;
    var parts := Split(LfText(wire), '\n');
    var q := QuotedText(parts);
    var pad := AppendedPad(env, wire);
    RawLinesOne(env, q + pad);
    assert RawLines(Appended(env, wire))[1..] == RawLines(q + pad);
    FromMore(env, "\n" + (q + pad));
    assert env + "\n" + (q + pad) == env + ("\n" + (q + pad));
    FromMore(env, "\n");
    StripCRFrom(env + "\n");
    ReadQuotedPadded(parts, pad);
    ReadQuoted(parts, "");
    assert Ended(q) && Ended(q + pad);
  }

  lemma AppendedPad(env: string, wire: string) returns (pad: string)
    ensures pad == "" || pad == "\n"
    ensures Appended(env, wire) == env + "\n" + (QuotedText(Split(LfText(wire), '\n')) + pad)
  {
    hide QuotedText, LfText;
    var q := QuotedText(Split(LfText(wire), '\n'));
    var t := env + "\n" + q;
    pad := if HasSuffix(t, "\n\n") then "" else "\n";
    assert t + pad == env + "\n" + (q + pad);
    assert t + "" == t;
  }

  lemma FromMore(env: string, more: string)
    requires IsFrom(env)
    ensures IsFrom(env + more)
  {
    assert (env + more)[..5] == env[..5];
  }

  datatype Post = Post(env: string, wire: string)

  function AppendAll(posts: seq<Post>): string {
    if posts == [] then "" else Appended(posts[0].env, posts[0].wire) + AppendAll(posts[1..])
  }

  function Messages(posts: seq<Post>): seq<string> {
    if posts == [] then [] else [Message(posts[0].wire)] + Messages(posts[1..])
  }

  function NonBlank(messages: seq<string>): seq<string> {
    if messages == [] then []
    else (if Blank(messages[0]) then [] else [messages[0]]) + NonBlank(messages[1..])
  }

  /** Reading a spool gives the messages of the articles appended, in order and without the blank ones. */
  lemma {:induction false} ReadAppendAll(posts: seq<Post>)
    requires forall p | p in posts :: IsFrom(p.env) && '\n' !in p.env
    ensures Read(AppendAll(posts)) == NonBlank(Messages(posts))
    ensures AppendAll(posts) == "" || IsFrom(AppendAll(posts))
  {
    hide IsFrom, Blank, Message, Appended, Ended, Read;
    if posts == [] {
      ReadEmpty();
    } else {
      var p := posts[0];
      ReadAppended(p.env, p.wire);
      ReadAppendAll(posts[1..]);
      ReadAppend(Appended(p.env, p.wire), AppendAll(posts[1..]));
      FromMore(Appended(p.env, p.wire), AppendAll(posts[1..]));
      assert Messages(posts)[1..] == Messages(posts[1..]);
    }
  }

  /** There is one message for each article, in order, exactly when no article is written as white space only. */
  lemma ReadOneEachIff(posts: seq<Post>)
    requires forall p | p in posts :: IsFrom(p.env) && '\n' !in p.env
    ensures Read(AppendAll(posts)) == Messages(posts) <==> forall p | p in posts :: !Blank(p.wire)
  {
    ReadAppendAll(posts);
    AllNonBlank(posts);
  }

  lemma {:induction false} AllNonBlank(posts: seq<Post>)
    ensures |NonBlank(Messages(posts))| <= |posts| == |Messages(posts)|
    ensures NonBlank(Messages(posts)) == Messages(posts) <==> forall p | p in posts :: !Blank(p.wire)
  {
    hide Blank, Message;
    if posts != [] {
      var ms, rest := Messages(posts), posts[1..];
      AllNonBlank(rest);
      BlankMessageIff(posts[0].wire);
      assert ms[1..] == Messages(rest);
      assert forall p :: p in posts <==> p == posts[0] || p in rest;
      if !Blank(ms[0]) {
        assert NonBlank(ms)[1..] == NonBlank(Messages(rest));
      }
    }
  }

  // ----- When a message is blank -----

  lemma BlankAppend(a: string, b: string)
    ensures Blank(a + b) <==> Blank(a) && Blank(b)
  {
    assert forall c :: c in a + b <==> c in a || c in b;
  }

  lemma {:induction false} BlankTrim(s: string)
    ensures Blank(TrimNewlines(s)) <==> Blank(s)
  {
    if s != "" && s[|s| - 1] == '\n' {
      BlankTrim(s[..|s| - 1]);
      BlankAppend(s[..|s| - 1], "\n");
      assert s == s[..|s| - 1] + "\n";
    }
  }

  lemma {:induction false} BlankReplaced(s: string)
    ensures Blank(LfText(s)) <==> Blank(s)
    decreases |s|
  {
    if |s| < 2 {
    } else if HasPrefix(s, "\r\n") {
      BlankReplaced(s[2..]);
      BlankAppend("\n", LfText(s[2..]));
      BlankAppend("\r\n", s[2..]);
      assert s == "\r\n" + s[2..];
    } else {
      BlankReplaced(s[1..]);
      BlankAppend([s[0]], LfText(s[1..]));
      BlankAppend([s[0]], s[1..]);
      assert s == [s[0]] + s[1..];
    }
  }

  /** Neither the quotes nor the carriage returns make a difference. */
  lemma BlankReturned(line: string)
    ensures Blank(Returned(line)) <==> Blank(line)
  {
    hide Blank, IsSpace;
    var q := Quote(line) + "\n";
    BlankQuote(line);
    BlankEnds();
    BlankAppend(Quote(line), "\n");
    if HasSuffix(q, "\r\n") {
      assert q == q[..|q| - 2] + "\r\n";
      BlankAppend(q[..|q| - 2], "\r\n");
      BlankAppend(q[..|q| - 2], "\n");
    }
    BlankUnquote(StripCR(q));
  }

  lemma BlankEnds()
    ensures Blank("\n") && Blank("\r\n")
  {
  }

  lemma BlankQuote(line: string)
    ensures Blank(Quote(line)) <==> Blank(line)
  {
    if IsFrom(line) {
      FromChars(line);
      assert line[0] in line && (">" + line)[0] in ">" + line;
    }
  }

  lemma BlankUnquote(line: string)
    ensures Blank(Unquote(line)) <==> Blank(line)
  {
    if IsQuoted(line) {
      assert line[1] == line[..6][1] && line[1] in line && line[1..][0] in line[1..];
    }
  }

  lemma {:induction false} BlankParts(parts: seq<string>)
    ensures Blank(ReturnedText(parts)) <==> forall p | p in parts :: Blank(p)
  {
    hide Blank, Returned;
    if parts == [] {
      BlankNothing();
    } else {
      BlankParts(parts[1..]);
      BlankReturned(parts[0]);
      BlankAppend(Returned(parts[0]), ReturnedText(parts[1..]));
      assert parts == [parts[0]] + parts[1..];
    }
  }

  lemma BlankNothing()
    ensures Blank("")
  {
  }

  lemma {:induction false} BlankSplit(s: string)
    ensures Blank(s) <==> forall p | p in Split(s, '\n') :: Blank(p)
  {
    hide Blank;
    BlankNothing();
    BlankEnds();
    if s != "" {
      var rest := Split(s[1..], '\n');
      BlankSplit(s[1..]);
      assert s == [s[0]] + s[1..];
      BlankAppend([s[0]], s[1..]);
      BlankAppend([s[0]], rest[0]);
      assert rest == [rest[0]] + rest[1..];
      if s[0] == '\n' {
        assert [s[0]] == "\n";
        assert forall p :: p in Split(s, '\n') <==> p == "" || p in rest;
      } else {
        assert forall p :: p in Split(s, '\n') <==> p == [s[0]] + rest[0] || p in rest[1..];
        assert forall p :: p in rest <==> p == rest[0] || p in rest[1..];
      }
    }
  }

  /** A message is blank exactly when the article is. */
  lemma BlankMessageIff(wire: string)
    ensures Blank(Message(wire)) <==> Blank(wire)
  {
    hide Blank, TrimNewlines, ReturnedText, LfText;
    var parts := Split(LfText(wire), '\n');
    BlankTrim(ReturnedText(parts));
    BlankParts(parts);
    BlankSplit(LfText(wire));
    BlankReplaced(wire);
  }

  /** What is written of an article is blank exactly when it has no header and its body is blank. */
  lemma BlankArticleIff(h: Headers, ks: seq<string>, body: string)
    requires WellFormed(h) && Enumerates(ks, h)
    ensures Blank(Serialize(h, ks, body)) <==> h == map[] && Blank(body)
  {
    hide Blank;
    SomeKey(h, ks);
    BlankEnds();
    BlankAppend(HeaderText(h, ks), CRLF + EndedBody(body));
    BlankAppend(CRLF, EndedBody(body));
    BlankAppend(body, CRLF);
    assert Serialize(h, ks, body) == HeaderText(h, ks) + (CRLF + EndedBody(body));
    if ks == [] {
      BlankNothing();
    } else {
      BlankAppend(KeyText(ks[0], h[ks[0]]), HeaderText(h, ks[1..]));
      KeyNotBlank(ks[0], h[ks[0]]);
    }
  }

  lemma KeyNotBlank(k: string, vs: seq<string>)
    requires vs != []
    ensures !Blank(KeyText(k, vs))
  {
    assert ':' in HeaderLine(k, vs[0]);
    assert ':' in KeyText(k, vs);
  }

  /** The entry of an article with headers, whatever its From field. */
  ghost predicate OfArticle(p: Post, h: Headers, ks: seq<string>, body: string, from: string, stamp: string) {
    && WellFormed(h) && Enumerates(ks, h) && h != map[] && '\n' !in from && '\n' !in stamp
    && p == Post(Envelope(from, stamp), Serialize(h, ks, body))
  }

  /** Of parsed articles with headers, reading a spool gives exactly one message for each, in order. */
  lemma ReadArticles(posts: seq<Post>)
    requires forall p | p in posts :: exists h, ks, body, from, stamp :: OfArticle(p, h, ks, body, from, stamp)
    ensures Read(AppendAll(posts)) == Messages(posts)
  {
    hide Blank, IsFrom, Envelope, Serialize, Read;
    forall p | p in posts
      ensures IsFrom(p.env) && '\n' !in p.env && !Blank(p.wire)
    {
      var h, ks, body, from, stamp :| OfArticle(p, h, ks, body, from, stamp);
      EnvelopeIsSeparator(from, stamp);
      BlankArticleIff(h, ks, body);
    }
    ReadOneEachIff(posts);
  }

  lemma ReadEmpty()
    ensures Read("") == []
  {
  }

  // ----- When a message comes back unchanged -----

  function Count(s: string, c: char): nat {
    if s == "" then 0 else (if s[0] == c then 1 else 0) + Count(s[1..], c)
  }

  lemma {:induction false} CountAppend(a: string, b: string, c: char)
    ensures Count(a + b, c) == Count(a, c) + Count(b, c)
  {
    if a == "" {
      assert a + b == b;
    } else {
      CountAppend(a[1..], b, c);
      assert (a + b)[1..] == a[1..] + b;
    }
  }

  lemma {:induction false} CountTrim(s: string)
    ensures Count(TrimNewlines(s), '>') == Count(s, '>')
  {
    if s != "" && s[|s| - 1] == '\n' {
      CountTrim(s[..|s| - 1]);
      assert s == s[..|s| - 1] + "\n";
      CountAppend(s[..|s| - 1], "\n", '>');
      assert Count("\n", '>') == 0 + Count("", '>');
    }
  }

  function EndedLines(parts: seq<string>): string {
    if parts == [] then "" else parts[0] + "\n" + EndedLines(parts[1..])
  }

  lemma {:induction false} EndedLinesJoin(parts: seq<string>)
    requires parts != []
    ensures EndedLines(parts) == Join(parts, '\n') + "\n"
  {
    if |parts| == 1 {
      assert EndedLines(parts[1..]) == "";
    } else {
      EndedLinesJoin(parts[1..]);
    }
  }

  lemma ReturnedLine(line: string)
    requires '\r' !in line && '\n' !in line
    ensures Returned(line) == if IsQuoted(line) then line[1..] + "\n" else line + "\n"
  {
    var q := Quote(line) + "\n";
    NoCRStays(Quote(line));
    if IsFrom(line) {
      assert q[..6] == ">" + line[..5];
      assert q[1..] == line + "\n";
      FromChars(line);
    } else if IsQuoted(line) {
      assert q[..6] == line[..6];
      assert q[1..] == line[1..] + "\n";
    } else {
      assert |line| < 6 ==> (|q| < 6 || q[5] == '\n');
      assert |line| >= 6 ==> q[..6] == line[..6];
      assert |q| >= 6 ==> q[5] == q[..6][5];
    }
  }

  lemma NoCRStays(line: string)
    requires '\r' !in line
    ensures StripCR(line + "\n") == line + "\n"
  {
    var q := line + "\n";
    assert |q| >= 2 ==> q[|q| - 2] in line && q[|q| - 2..][0] == q[|q| - 2];
  }

  lemma {:induction false} ReturnedCount(parts: seq<string>)
    requires forall p | p in parts :: '\r' !in p && '\n' !in p
    ensures (forall p | p in parts :: !IsQuoted(p)) ==> ReturnedText(parts) == EndedLines(parts)
    ensures Count(ReturnedText(parts), '>') <= Count(EndedLines(parts), '>')
    ensures (exists p | p in parts :: IsQuoted(p)) ==>
              Count(ReturnedText(parts), '>') < Count(EndedLines(parts), '>')
  {
    hide IsQuoted, Returned;
    if parts != [] {
      var p, rest := parts[0], parts[1..];
      assert forall x :: x in parts <==> x == p || x in rest;
      ReturnedCount(rest);
      ReturnedLine(p);
      CountAppend(p + "\n", EndedLines(rest), '>');
      CountAppend(Returned(p), ReturnedText(rest), '>');
      QuotedCount(p);
    }
  }

  lemma QuotedCount(p: string)
    ensures IsQuoted(p) ==> p != "" && Count(p[1..] + "\n", '>') < Count(p + "\n", '>')
  {
    if IsQuoted(p) {
      assert p[0] == p[..6][0];
      assert (p + "\n")[1..] == p[1..] + "\n";
    }
  }

  /** For an article with CRLF line ends, the message is its text with trailing newlines trimmed
      exactly when no line starts with ">From ": such lines are not quoted but are unquoted. */
  lemma MessageUnchangedIff(wire: string)
    requires CrlfOnly(wire)
    ensures Message(wire) == TrimNewlines(LfText(wire))
       <==> forall p | p in Split(LfText(wire), '\n') :: !IsQuoted(p)
  {
    hide IsQuoted, CrlfOnly, TrimNewlines, Count, ReturnedText, EndedLines;
    var lf := LfText(wire);
    var parts := Split(lf, '\n');
    CrlfOnlyRestored(wire);
    PartsOf(lf);
    ReturnedCount(parts);
    EndedLinesJoin(parts);
    JoinSplit(lf, '\n');
    TrimNewlinesMore(lf);
    CountTrim(ReturnedText(parts));
    CountTrim(EndedLines(parts));
  }

  lemma {:induction false} PartsOf(s: string)
    requires '\r' !in s
    ensures forall p | p in Split(s, '\n') :: '\r' !in p && '\n' !in p
  {
    if s != "" {
      PartsOf(s[1..]);
      var rest := Split(s[1..], '\n');
      assert rest[0] in rest;
      assert forall p | p in rest[1..] :: p in rest;
      assert s[0] in s;
    }
  }

  // ----- The lines of written text -----

  lemma {:induction false} LfLines(s: string)
    requires CrlfOnly(s)
    ensures Split(LfText(s), '\n') == SplitLines(s)
    decreases |s|
  {
    if s == "" {
    } else if HasPrefix(s, CRLF) {
      LfLines(s[2..]);
      assert LfText(s) == "\n" + LfText(s[2..]);
      assert ("\n" + LfText(s[2..]))[1..] == LfText(s[2..]);
    } else {
      LfLines(s[1..]);
      assert LfText(s) == [s[0]] + LfText(s[1..]) by { LfPlain(s); }
      assert ([s[0]] + LfText(s[1..]))[1..] == LfText(s[1..]);
    }
  }

  lemma LfPlain(s: string)
    requires s != "" && !HasPrefix(s, CRLF)
    ensures LfText(s) == [s[0]] + LfText(s[1..])
  {
    if |s| == 1 {
      assert s == [s[0]] && s[1..] == "";
    }
  }

  lemma {:induction false} SplitLinesJoin(a: string, b: string)
    requires CrlfOnly(a)
    ensures SplitLines(a + CRLF + b) == SplitLines(a) + SplitLines(b)
    decreases |a|
  {
    hide SplitLines;
    var s := a + CRLF + b;
    if a == "" {
      SplitLinesAt("", b);
      SplitLinesOne("");
    } else if HasPrefix(a, CRLF) {
      SplitLinesJoin(a[2..], b);
      assert s[2..] == a[2..] + CRLF + b && s[..2] == a[..2];
      SplitLinesStep(a);
      SplitLinesStep(s);
    } else {
      SplitLinesJoin(a[1..], b);
      assert s[1..] == a[1..] + CRLF + b;
      assert s == a + (CRLF + b);
      NoCrlf(a, CRLF + b, s);
      SplitLinesStep(a);
      SplitLinesStep(s);
    }
  }

  lemma SplitLinesStep(s: string)
    requires s != ""
    ensures HasPrefix(s, CRLF) ==> SplitLines(s) == [""] + SplitLines(s[2..])
    ensures !HasPrefix(s, CRLF) ==>
              SplitLines(s[1..]) != [] && SplitLines(s) == [[s[0]] + SplitLines(s[1..])[0]] + SplitLines(s[1..])[1..]
  {
  }

  lemma NoCrlf(a: string, b: string, s: string)
    requires CrlfOnly(a) && a != "" && !HasPrefix(a, CRLF) && s == a + b
    ensures !HasPrefix(s, CRLF)
  {
    if |s| >= 2 {
      assert s[..2][0] == a[0];
    }
  }

  /** An article with this line in its body, whatever its headers, comes back with another line: the writer leaves
      the line alone and the reader takes its quote off. */
  lemma QuotedLineIsChanged(h: Headers, ks: seq<string>)
    requires WellFormed(h) && Enumerates(ks, h)
    ensures var wire := Serialize(h, ks, ">From x\r\n");
            CrlfOnly(wire) && Message(wire) != TrimNewlines(LfText(wire))
  {
    hide SplitLines, CrlfOnly, HeaderText, Message, TrimNewlines, LfText, Split, FindBlank;
    var line := ">From x";
    QuotedPlain(line);
    var body := line + CRLF;
    assert body == ">From x\r\n";
    var wire, head := Serialize(h, ks, body), HeaderText(h, ks);
    BodyCrlf(line);
    SerializedCrlf(h, ks, body);
    HeadCrlf(h, ks);
    assert wire == head + CRLF + body;
    SplitLinesJoin(head, body);
    assert body == line + CRLF + "";
    SplitLinesAt(line, "");
    LfLines(wire);
    MessageUnchangedIff(wire);
    assert line in [line] + SplitLines("");
  }

  lemma QuotedPlain(line: string)
    requires line == ">From x"
    ensures ArticleText.Plain(line) && IsQuoted(line)
  {
    assert line[..6] == ">From ";
  }

  lemma BodyCrlf(line: string)
    requires ArticleText.Plain(line)
    ensures CrlfOnly(line + CRLF) && EndedBody(line + CRLF) == line + CRLF
  {
    PlainIsCrlfOnly(line);
    CrlfIsCrlfOnly();
    CrlfOnlyAppend(line, CRLF);
    assert (line + CRLF)[|line|..] == CRLF;
  }

  lemma HeadCrlf(h: Headers, ks: seq<string>)
    requires WellFormed(h) && forall k | k in ks :: k in h
    ensures CrlfOnly(HeaderText(h, ks))
  {
    EntriesGood(h, ks);
    HeaderTextEntries(h, ks);
    EntryTextCrlf(Entries(h, ks));
  }

  // ----- The text of a spool, line by line -----

  /** Lines, each with the same line end. */
  function WithEnds(ls: seq<string>, end: string): string {
    if ls == [] then "" else ls[0] + end + WithEnds(ls[1..], end)
  }

  predicate StartsFrom(l: string) {
    |l| >= 5 && l[0] == 'F' && l[1] == 'r' && l[2] == 'o' && l[3] == 'm' && l[4] == ' '
  }

  /** Lines that start with "From " get a mark in front. */
  function Marked(ls: seq<string>): seq<string> {
    seq(|ls|, i requires 0 <= i < |ls| => if StartsFrom(ls[i]) then ">" + ls[i] else ls[i])
  }

  /** Lines lose the mark in front of "From ". */
  function Unmarked(ls: seq<string>): seq<string> {
    seq(|ls|, i requires 0 <= i < |ls| => if ls[i] != "" && ls[i][0] == '>' && StartsFrom(ls[i][1..]) then ls[i][1..] else ls[i])
  }

  lemma {:induction false} LfOfLines(ls: seq<string>)
    requires forall l | l in ls :: Plain(l)
    ensures Split(LfText(WithEnds(ls, "\r\n")), '\n') == ls + [""]
  {
    hide Split, Plain, LfText;
    LfEmpty();
    if ls != [] {
      var rest := WithEnds(ls[1..], "\r\n");
      LfOfLines(ls[1..]);
      LfCons(ls[0], rest);
      assert '\n' !in ls[0] by { PlainHasNone(ls[0]); }
      SplitAt(ls[0], '\n', LfText(rest));
      assert ls[0] + "\n" + LfText(rest) == ls[0] + ['\n'] + LfText(rest);
      assert [ls[0]] + (ls[1..] + [""]) == ls + [""];
    }
  }

  lemma PlainHasNone(l: string)
    requires Plain(l)
    ensures '\n' !in l && '\r' !in l
  {
  }

  lemma LfEmpty()
    ensures Split(LfText(""), '\n') == [""]
  {
  }

  lemma {:induction false} LfCons(l: string, rest: string)
    requires Plain(l)
    ensures LfText(l + "\r\n" + rest) == l + "\n" + LfText(rest)
  {
    var s := l + "\r\n" + rest;
    if l == "" {
      assert s[2..] == rest && s[..2] == "\r\n";
    } else {
      assert l[0] in l && s[0] == l[0];
      assert s[1..] == l[1..] + "\r\n" + rest;
      LfCons(l[1..], rest);
      assert s[..2][0] == l[0];
      assert [l[0]] + (l[1..] + "\n" + LfText(rest)) == l + "\n" + LfText(rest);
    }
  }

  lemma StartsFromIs(l: string)
    ensures IsFrom(l) <==> StartsFrom(l)
    ensures IsQuoted(l) <==> l != "" && l[0] == '>' && StartsFrom(l[1..])
  {
    FromChars(l);
    if IsQuoted(l) {
      assert l[..6] == ">From ";
      assert l[0] == l[..6][0] && l[1] == l[..6][1] && l[2] == l[..6][2] && l[3] == l[..6][3];
      assert l[4] == l[..6][4] && l[5] == l[..6][5];
    }
    if l != "" && l[0] == '>' && StartsFrom(l[1..]) {
      assert l[..6] == ">From ";
    }
  }

  lemma {:induction false} MarkedText(ls: seq<string>)
    ensures QuotedText(ls) == WithEnds(Marked(ls), "\n")
  {
    hide IsFrom, StartsFrom;
    if ls != [] {
      MarkedText(ls[1..]);
      StartsFromIs(ls[0]);
      assert Marked(ls)[1..] == Marked(ls[1..]);
    }
  }

  /** What is appended of an article: the separator, its lines with a mark in front of "From ", and an empty line. */
  lemma AppendedIs(env: string, ls: seq<string>)
    requires forall l | l in ls :: Plain(l)
    ensures Appended(env, WithEnds(ls, "\r\n")) == env + "\n" + WithEnds(Marked(ls), "\n") + "\n"
  {
    hide Marked, Quote, LfText, Split, Plain;
    LfOfLines(ls);
    QuotedTextSnoc(ls);
    MarkedText(ls);
    var m := WithEnds(Marked(ls), "\n");
    EndsWith(Marked(ls));
    var t := env + "\n" + (m + "\n");
    assert t == env + "\n" + m + "\n";
    assert t[|t| - 2..] == "\n\n";
  }

  lemma {:induction false} EndsWith(ls: seq<string>)
    ensures WithEnds(ls, "\n") == "" || WithEnds(ls, "\n")[|WithEnds(ls, "\n")| - 1] == '\n'
  {
    if ls != [] {
      EndsWith(ls[1..]);
    }
  }

  /** What is read of one message, whichever line ends the file has: its lines without the mark in front of "From "
      and without line feeds at the end, if there is more than white space. */
  lemma ReadIs(env: string, ls: seq<string>, end: string)
    requires StartsFrom(env) && Plain(env) && (end == "\n" || end == "\r\n")
    requires forall i | 0 <= i < |ls| :: Plain(ls[i]) && !StartsFrom(ls[i])
    ensures var m := TrimNewlines(WithEnds(Unmarked(ls), "\n"));
            Read(env + end + WithEnds(ls, end)) == if forall c | c in m :: IsSpace(c) then [] else [m]
  {
    hide RawLines, TrimNewlines, StartsFrom, IsFrom, StripCR, Plain, IsSpace;
    var rest := WithEnds(ls, end);
    EndedLine(env, end, rest);
    StartsFromIs(env);
    assert RawLines(env + end + rest)[1..] == RawLines(rest);
    ReadBody(ls, end, true, "");
    assert "" + WithEnds(Unmarked(ls), "\n") == WithEnds(Unmarked(ls), "\n");
  }

  /** Trimming takes exactly the line feeds at the end off. */
  lemma {:induction false} TrimNewlinesIs(s: string)
    ensures var t := TrimNewlines(s);
            t <= s && (t == "" || t[|t| - 1] != '\n') && forall i | |t| <= i < |s| :: s[i] == '\n'
  {
    if s != "" && s[|s| - 1] == '\n' {
      TrimNewlinesIs(s[..|s| - 1]);
    }
  }

  /** What stands in a file before its first separator is not read. */
  lemma ReadJunk(ls: seq<string>, end: string, rest: string)
    requires (end == "\n" || end == "\r\n") && (rest == "" || StartsFrom(rest))
    requires forall i | 0 <= i < |ls| :: Plain(ls[i]) && !StartsFrom(ls[i])
    ensures Read(WithEnds(ls, end) + rest) == Read(rest)
  {
    hide RawLines, TrimNewlines, StartsFrom, IsFrom, StripCR, Plain, IsSpace;
    StartsFromIs(rest);
    ReadBody(ls, end, false, "");
    WithEndsEnded(ls, end);
    ReadAppend(WithEnds(ls, end), rest);
  }

  lemma {:induction false} WithEndsEnded(ls: seq<string>, end: string)
    requires end == "\n" || end == "\r\n"
    ensures Ended(WithEnds(ls, end))
  {
    if ls != [] {
      WithEndsEnded(ls[1..], end);
    }
  }

  lemma EndedLine(l: string, end: string, rest: string)
    requires Plain(l) && (end == "\n" || end == "\r\n")
    ensures RawLines(l + end + rest) == [l + end] + RawLines(rest) && StripCR(l + end) == l + "\n"
    ensures IsFrom(l + "\n") <==> IsFrom(l)
    ensures Unquote(l + "\n") == (if l != "" && l[0] == '>' && StartsFrom(l[1..]) then l[1..] else l) + "\n"
  {
    hide RawLines, IsFrom, StartsFrom, StripCR, Unquote;
    EndStripped(l, end);
    var cut := if end == "\n" then l else l + "\r";
    assert l + end + rest == cut + "\n" + rest;
    assert l + end == cut + "\n";
    RawLinesOne(cut, rest);
    FromIgnoresEnd(l, "\n");
    LineUnquoted(l);
  }

  lemma EndStripped(l: string, end: string)
    requires Plain(l) && (end == "\n" || end == "\r\n")
    ensures StripCR(l + end) == l + "\n"
  {
    var s := l + end;
    assert HasSuffix(s, "\r\n") <==> |s| >= 2 && s[|s| - 2] == '\r' && s[|s| - 1] == '\n' by {
      if |s| >= 2 {
        assert s[|s| - 2..] == [s[|s| - 2], s[|s| - 1]];
      }
    }
  }

  lemma LineUnquoted(l: string)
    ensures Unquote(l + "\n") == (if l != "" && l[0] == '>' && StartsFrom(l[1..]) then l[1..] else l) + "\n"
  {
    hide IsFrom, StartsFrom, IsQuoted;
    StartsFromIs(l + "\n");
    if l != "" {
      assert (l + "\n")[1..] == l[1..] + "\n";
      FromIgnoresEnd(l[1..], "\n");
      StartsFromIs(l[1..]);
      StartsFromIs(l[1..] + "\n");
    } else {
      NoFromInEmpty();
    }
  }

  lemma NoFromInEmpty()
    ensures !IsQuoted("\n")
  {
  }

  lemma {:induction false} ReadBody(ls: seq<string>, end: string, have: bool, cur: string)
    requires end == "\n" || end == "\r\n"
    requires forall i | 0 <= i < |ls| :: Plain(ls[i]) && !StartsFrom(ls[i])
    ensures ReadLines(RawLines(WithEnds(ls, end)), have, cur) ==
            Flushed(have, if have then cur + WithEnds(Unmarked(ls), "\n") else cur)
    decreases |ls|
  {
    if ls == [] {
      assert Unmarked(ls) == [] && cur + "" == cur;
      NothingLeft(have, cur);
    } else {
      hide ReadLines, RawLines, Flushed, StartsFrom, Plain, Unquote, Unmarked;
      assert forall i | 0 <= i < |ls| - 1 :: ls[1..][i] == ls[i + 1];
      BodyStep(ls[0], end, WithEnds(ls[1..], end), have, cur);
      UnmarkedCons(ls, cur);
      ReadBody(ls[1..], end, have, if have then cur + Unquote(ls[0] + "\n") else cur);
    }
  }

  lemma NothingLeft(have: bool, cur: string)
    ensures ReadLines(RawLines(""), have, cur) == Flushed(have, cur)
  {
    RawLinesEmpty();
    hide Flushed;
  }

  lemma BodyStep(l: string, end: string, rest: string, have: bool, cur: string)
    requires Plain(l) && !StartsFrom(l) && (end == "\n" || end == "\r\n")
    ensures ReadLines(RawLines(l + end + rest), have, cur) ==
            ReadLines(RawLines(rest), have, if have then cur + Unquote(l + "\n") else cur)
  {
    hide RawLines, Flushed, StartsFrom, IsFrom, StripCR, Plain, Unquote;
    EndedLine(l, end, rest);
    StartsFromIs(l);
    assert ([l + end] + RawLines(rest))[1..] == RawLines(rest);
  }

  lemma UnmarkedCons(ls: seq<string>, cur: string)
    requires ls != []
    ensures cur + WithEnds(Unmarked(ls), "\n") == cur + Unquote(ls[0] + "\n") + WithEnds(Unmarked(ls[1..]), "\n")
  {
    hide StartsFrom, Unquote;
    LineUnquoted(ls[0]);
    assert Unmarked(ls)[1..] == Unmarked(ls[1..]);
  }

  // ----- The address of a separator -----

  /** The separator names what stands in angle brackets, if there is something. */
  lemma EnvelopeBrackets(name: string, addr: string, rest: string, stamp: string)
    requires '<' !in name && '>' !in addr && ' ' !in addr
    ensures Envelope(name + "<" + addr + ">" + rest, stamp) ==
            "From " + (if addr == "" then "MAILER-DAEMON" else addr) + " " + stamp
  {
    var from := name + "<" + addr + ">" + rest;
    assert from == name + ['<'] + (addr + ">" + rest);
    IndexOfAt(name, '<', addr + ">" + rest);
    assert from[|name|..] == ("<" + addr) + ['>'] + rest;
    IndexOfAt("<" + addr, '>', rest);
    assert from[|name| + 1..][..|addr|] == addr;
    WithoutNone(addr, ' ');
    hide IndexOf, Without, Envelope;
    EnvelopeOf(from, stamp, addr);
  }

  /** A bracket that is not closed names nobody. */
  lemma EnvelopeUnclosed(name: string, addr: string, stamp: string)
    requires '<' !in name && '>' !in addr
    ensures Envelope(name + "<" + addr, stamp) == "From " + "MAILER-DAEMON" + " " + stamp
  {
    var from := name + "<" + addr;
    assert from == name + ['<'] + addr;
    IndexOfAt(name, '<', addr);
    assert from[|name|..] == "<" + addr;
    assert '>' !in from[|name|..];
    NobodyStays();
    hide IndexOf, Without, Envelope;
    EnvelopeOf(from, stamp, NOBODY);
  }

  lemma NobodyStays()
    ensures Without(NOBODY, ' ') == "MAILER-DAEMON" && NOBODY == "MAILER-DAEMON"
  {
    WithoutNone(NOBODY, ' ');
  }

  lemma EnvelopeOf(from: string, stamp: string, addr: string)
    requires AddressOf(from) == addr && Without(addr, ' ') == addr
    ensures Envelope(from, stamp) == "From " + OrNobody(addr) + " " + stamp
  {
    hide AddressOf, Without, OrNobody;
  }

  lemma {:induction false} WithoutNone(s: string, c: char)
    requires c !in s
    ensures Without(s, c) == s
  {
    if s != "" {
      WithoutNone(s[1..], c);
    }
  }

  /** Without brackets it names the first word of the From field. */
  lemma EnvelopeWord(pad: string, word: string, rest: string, stamp: string)
    requires (forall c | c in pad :: IsSpace(c)) && word != "" && '<' !in word && '<' !in rest
    requires (forall c | c in word :: !IsSpace(c)) && (rest != "" ==> IsSpace(rest[0]))
    ensures Envelope(pad + word + rest, stamp) == "From " + word + " " + stamp
  {
    FirstWord(pad, word, rest);
    hide FirstField, Without, IndexOf, IsSpace, Envelope;
    EnvelopeOf(pad + word + rest, stamp, word);
  }

  lemma FirstWord(pad: string, word: string, rest: string)
    requires (forall c | c in pad :: IsSpace(c)) && word != "" && '<' !in word && '<' !in rest
    requires (forall c | c in word :: !IsSpace(c)) && (rest != "" ==> IsSpace(rest[0]))
    ensures var from := pad + word + rest;
            FirstField(from) == word && Without(word, ' ') == word && IndexOf(from, '<') == |from| && from != ""
  {
    SpaceAndBracket();
    FieldOf(pad, word, rest);
    WithoutNone(word, ' ');
    hide IsSpace, IndexOf, Without, FirstField;
    assert '<' !in pad + word + rest;
  }

  lemma FieldOf(pad: string, word: string, rest: string)
    requires (forall c | c in pad :: IsSpace(c)) && word != ""
    requires (forall c | c in word :: !IsSpace(c)) && (rest != "" ==> IsSpace(rest[0]))
    ensures FirstField(pad + word + rest) == word
  {
    WordTaken(word, rest);
    hide IsSpace, TakeNonSpace;
    TrimLeftPadded(pad, word + rest);
    assert pad + word + rest == pad + (word + rest);
    assert (word + rest)[0] == word[0] && word[0] in word;
    assert TrimLeft(word + rest) == word + rest;
  }

  lemma SpaceAndBracket()
    ensures IsSpace(' ') && !IsSpace('<')
  {
  }

  lemma {:induction false} WordTaken(word: string, rest: string)
    requires (forall c | c in word :: !IsSpace(c)) && (rest != "" ==> IsSpace(rest[0]))
    ensures TakeNonSpace(word + rest) == word
  {
    if word == "" {
      assert word + rest == rest;
    } else {
      assert word[0] in word;
      assert (word + rest)[1..] == word[1..] + rest;
      WordTaken(word[1..], rest);
    }
  }
}
