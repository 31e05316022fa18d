/** The lines of a received header block: which of them are understood, and what continuation lines mean. */
module HeaderLines {
  import opened Text
  import opened ArticleText

  // ----- Texts by lines -----

  function Unlines(lines: seq<string>): string {
    if lines == [] then "" else lines[0] + CRLF + Unlines(lines[1..])
  }

  /** The text with this header block and body. */
  function Received(lines: seq<string>, body: string): string {
    Unlines(lines) + CRLF + body
  }

  /** Lines that can stand in a header block: only the first may be empty. */
  ghost predicate Block(lines: seq<string>) {
    lines != [] && (forall i | 0 <= i < |lines| :: Plain(lines[i])) && forall i | 1 <= i < |lines| :: lines[i] != ""
  }

  lemma {:induction false} UnlinesCrlf(lines: seq<string>)
    requires forall i | 0 <= i < |lines| :: Plain(lines[i])
    ensures CrlfOnly(Unlines(lines)) && (lines != [] ==> |Unlines(lines)| >= 2)
  {
    hide CrlfOnly, Plain;
    CrlfOnlyEmpty();
    if lines != [] {
      PlainIsCrlfOnly(lines[0]);
      UnlinesCrlf(lines[1..]);
      CrlfIsCrlfOnly();
      CrlfOnlyAppend(CRLF, Unlines(lines[1..]));
      CrlfOnlyAppend(lines[0], CRLF + Unlines(lines[1..]));
      assert Unlines(lines) == lines[0] + (CRLF + Unlines(lines[1..]));
    }
  }

  lemma {:induction false} BlankAfter(lines: seq<string>, rest: string)
    requires Block(lines)
    ensures |Unlines(lines)| >= 2 && FindBlank(Unlines(lines) + CRLF + rest) == |Unlines(lines)| - 2
    decreases |lines|
  {
    hide FindBlank;
    var line, more := lines[0], lines[1..];
    var tail := Unlines(more) + CRLF + rest;
    assert Plain(line);
    assert Unlines(lines) + CRLF + rest == line + CRLF + tail;
    FindBlankSkip(line, tail);
    if more == [] {
      assert tail == CRLF + rest;
    } else {
      assert more[0] == lines[1] && Plain(lines[1]);
      assert Block(more) by {
        assert forall i | 0 <= i < |more| :: more[i] == lines[i + 1];
      }
      BlankAfter(more, rest);
      assert tail[0] == lines[1][0];
      PlainFirst(lines[1]);
    }
  }

  lemma {:induction false} SplitUnlines(lines: seq<string>)
    requires lines != [] && forall i | 0 <= i < |lines| :: Plain(lines[i])
    ensures |Unlines(lines)| >= 2 && SplitLines(Unlines(lines)[..|Unlines(lines)| - 2]) == lines
  {
    hide SplitLines;
    var line, more := lines[0], lines[1..];
    assert Plain(line);
    var head := Unlines(lines)[..|Unlines(lines)| - 2];
    if more == [] {
      assert Unlines(more) == "";
      assert head == line;
      SplitLinesOne(line);
    } else {
      SplitUnlines(more);
      var tail := Unlines(more)[..|Unlines(more)| - 2];
      assert head == line + CRLF + tail;
      SplitLinesAt(line, tail);
    }
  }

  /** A text is parsed by the lines of its header block. */
  lemma ParseReceived(lines: seq<string>, body: string)
    requires Block(lines) && CrlfOnly(body)
    ensures match ParseLines(lines, "", "", map[])
            case Ok(h) =>
              var r := ParseSpec(Received(lines, body)); r.Ok? && r.value.headers == h && r.value.body == body
            case Err(e) => ParseSpec(Received(lines, body)) == Err(e)
  {
    hide CrlfOnly, FindBlank, SplitLines, ParseLines, NormalizeNewlines, Unlines;
    var text, head := Received(lines, body), Unlines(lines);
    UnlinesCrlf(lines);
    CrlfIsCrlfOnly();
    CrlfOnlyAppend(CRLF, body);
    CrlfOnlyAppend(head, CRLF + body);
    assert text == head + (CRLF + body);
    NormalizeCanonical(text);
    BlankAfter(lines, body);
    SplitUnlines(lines);
    var i := |head| - 2;
    assert text[i + 4..] == body && text[..i] == head[..i];
  }

  // ----- Continuation lines -----

  predicate Continues(line: string) {
    line != "" && (line[0] == ' ' || line[0] == '\t')
  }

  /** What follows a part of the lines decides the result alone, where it decides alike in every situation. */
  lemma {:induction false} ParseAlike(before: seq<string>, x: seq<string>, y: seq<string>, name: string, val: string, h: Headers)
    requires forall n, v, g :: ParseLines(x, n, v, g) == ParseLines(y, n, v, g)
    ensures ParseLines(before + x, name, val, h) == ParseLines(before + y, name, val, h)
    decreases |before|
  {
    hide TrimSpace, TrimPrefix, IndexOf, Flush;
    if before == [] {
      assert before + x == x && before + y == y;
    } else {
      var line, rest := before[0], before[1..];
      assert (before + x)[1..] == rest + x && (before + y)[1..] == rest + y;
      assert (before + x)[0] == line && (before + y)[0] == line;
      if line == "" {
        ParseAlike(rest, x, y, name, val, h);
      } else if line[0] == ' ' || line[0] == '\t' {
        ParseAlike(rest, x, y, name, val + " " + TrimSpace(line), h);
      } else {
        var i := IndexOf(line, ':');
        var kept := if name == "" then val else "";
        if i < |line| {
          ParseAlike(rest, x, y, line[..i], kept + TrimPrefix(line[i + 1..], " "), Flush(h, name, val));
        }
      }
    }
  }

  /** A header line sets a name and a value in progress. */
  lemma ParseHeaderLine(name: string, v: string, rest: seq<string>, n: string, u: string, h: Headers)
    requires GoodName(name)
    ensures ParseLines([name + ":" + v] + rest, n, u, h)
         == ParseLines(rest, name, (if n == "" then u else "") + TrimPrefix(v, " "), Flush(h, n, u))
  {
    hide TrimSpace, TrimPrefix, IndexOf, Flush;
    var line := name + ":" + v;
    var lines := [line] + rest;
    assert line == name + [':'] + v;
    IndexOfAt(name, ':', v);
    assert lines[0] == line && lines[1..] == rest;
    assert line[..|name|] == name && line[|name| + 1..] == v && line[0] == name[0];
  }

  lemma ParseContinued(name: string, u: string, c: string, rest: seq<string>, h: Headers)
    requires name != "" && Continues(c)
    ensures ParseLines([c] + rest, name, u, h) == ParseLines(rest, name, u + " " + TrimSpace(c), h)
  {
    hide TrimSpace, TrimPrefix, IndexOf, Flush;
    assert ([c] + rest)[0] == c && ([c] + rest)[1..] == rest;
  }

  lemma FoldTail(name: string, v: string, v': string, c: string, after: seq<string>, n: string, u: string, h: Headers)
    requires GoodName(name) && Continues(c) && TrimPrefix(v', " ") == TrimPrefix(v, " ") + " " + TrimSpace(c)
    ensures ParseLines([name + ":" + v, c] + after, n, u, h) == ParseLines([name + ":" + v'] + after, n, u, h)
  {
    assert name != "";
    hide ParseLines, TrimSpace, TrimPrefix, Flush, GoodName, Continues;
    var kept, g := if n == "" then u else "", Flush(h, n, u);
    ParseHeaderLine(name, v, [c] + after, n, u, h);
    ListTwo(name + ":" + v, c, after);
    ParseHeaderLine(name, v', after, n, u, h);
    ParseContinued(name, kept + TrimPrefix(v, " "), c, after, g);
    Assoc(kept, TrimPrefix(v, " "), " ", TrimSpace(c));
  }

  lemma ListTwo(a: string, b: string, rest: seq<string>)
    ensures [a, b] + rest == [a] + ([b] + rest)
  {
  }

  lemma Assoc(a: string, b: string, c: string, d: string)
    ensures a + b + c + d == a + (b + c + d)
  {
  }

  /** The same headers and body, or the same error. */
  predicate SameArticle(a: Result<Parts>, b: Result<Parts>) {
    match (a, b)
    case (Ok(x), Ok(y)) => x.headers == y.headers && x.body == y.body
    case (Err(e), Err(f)) => e == f
    case _ => false
  }

  lemma FoldBlocks(before: seq<string>, l: string, c: string, l': string, after: seq<string>)
    requires Block(before + [l, c] + after) && Plain(l') && l' != ""
    ensures Block(before + [l'] + after)
  {
    var x, y := before + [l, c] + after, before + [l'] + after;
    forall i | 0 <= i < |y|
      ensures Plain(y[i]) && (i > 0 ==> y[i] != "")
    {
      if i < |before| {
        assert y[i] == x[i];
      } else if i > |before| {
        assert y[i] == x[i + 1];
      }
    }
  }

  lemma FoldedSame(before: seq<string>, name: string, v: string, v': string, c: string, after: seq<string>, body: string)
    requires Block(before + [name + ":" + v, c] + after) && CrlfOnly(body) && GoodName(name) && Continues(c) && Plain(v')
    requires TrimPrefix(v', " ") == TrimPrefix(v, " ") + " " + TrimSpace(c)
    ensures SameArticle(ParseSpec(Received(before + [name + ":" + v, c] + after, body)),
                        ParseSpec(Received(before + [name + ":" + v'] + after, body)))
  {
    hide ParseLines, ParseSpec, CrlfOnly, Received, TrimPrefix, TrimSpace, Block;
    var x, y := [name + ":" + v, c] + after, [name + ":" + v'] + after;
    forall n, u, h
      ensures ParseLines(x, n, u, h) == ParseLines(y, n, u, h)
    {
      FoldTail(name, v, v', c, after, n, u, h);
    }
    ParseAlike(before, x, y, "", "", map[]);
    assert before + [name + ":" + v, c] + after == before + x && before + [name + ":" + v'] + after == before + y;
    JoinedPlain(name, v');
    FoldBlocks(before, name + ":" + v, c, name + ":" + v', after);
    ParseReceived(before + x, body);
    ParseReceived(before + y, body);
  }

  lemma JoinedPlain(name: string, v: string)
    requires GoodName(name) && Plain(v)
    ensures Plain(name + ":" + v) && name + ":" + v != ""
  {
  }

  /** A header with a continuation line means the same as with both on one line, joined by one blank, whatever lines come
      before and after. */
  lemma UnfoldingIs(before: seq<string>, name: string, v: string, c: string, after: seq<string>, body: string)
    requires Block(before + [name + ":" + v, c] + after) && CrlfOnly(body) && GoodName(name) && Continues(c) && v != ""
    ensures SameArticle(ParseSpec(Received(before + [name + ":" + v, c] + after, body)),
                        ParseSpec(Received(before + [name + ":" + v + " " + TrimSpace(c)] + after, body)))
  {
    hide ParseSpec, CrlfOnly, Received, TrimSpace, SameArticle;
    PlainParts(before, name, v, c, after);
    var v' := v + " " + TrimSpace(c);
    PrefixBefore(v, " " + TrimSpace(c));
    assert v' == v + (" " + TrimSpace(c));
    assert TrimPrefix(v, " ") + (" " + TrimSpace(c)) == TrimPrefix(v, " ") + " " + TrimSpace(c);
    FoldedSame(before, name, v, v', c, after, body);
    assert name + ":" + v' == name + ":" + v + " " + TrimSpace(c);
  }

  /** The same for a header whose first line has nothing but the name; the reader takes one blank off. */
  lemma UnfoldingEmpty(before: seq<string>, name: string, c: string, after: seq<string>, body: string)
    requires Block(before + [name + ":", c] + after) && CrlfOnly(body) && GoodName(name) && Continues(c)
    ensures SameArticle(ParseSpec(Received(before + [name + ":", c] + after, body)),
                        ParseSpec(Received(before + [name + ":  " + TrimSpace(c)] + after, body)))
  {
    hide ParseSpec, CrlfOnly, Received, TrimSpace, SameArticle;
    assert name + ":" + "" == name + ":";
    PlainParts(before, name, "", c, after);
    var v' := "  " + TrimSpace(c);
    assert v'[1..] == " " + TrimSpace(c);
    FoldedSame(before, name, "", v', c, after, body);
    assert name + ":" + v' == name + ":  " + TrimSpace(c);
  }

  lemma PrefixBefore(v: string, more: string)
    requires v != ""
    ensures TrimPrefix(v + more, " ") == TrimPrefix(v, " ") + more
  {
    assert (v + more)[..1] == v[..1];
    assert (v + more)[1..] == v[1..] + more;
  }

  lemma PlainParts(before: seq<string>, name: string, v: string, c: string, after: seq<string>)
    requires Block(before + [name + ":" + v, c] + after)
    ensures Plain(v + " " + TrimSpace(c)) && Plain("  " + TrimSpace(c))
  {
    hide TrimSpace;
    var x := before + [name + ":" + v, c] + after;
    assert x[|before|] == name + ":" + v && x[|before| + 1] == c;
    assert Plain(name + ":" + v) && Plain(c);
    assert forall d | d in v :: d in name + ":" + v;
  }

  // ----- Which blocks are understood -----

  /** Whether a line can be read, behind a header with a name or not. */
  predicate Readable(line: string, named: bool) {
    line == "" || (if Continues(line) then named else ':' in line)
  }

  /** Whether a header with a name is in progress after the line. */
  predicate NamedAfter(line: string, named: bool) {
    if line == "" || Continues(line) then named else line[0] != ':'
  }

  /** Whether a header with a name is in progress behind the first `i` lines. */
  predicate NamedAt(lines: seq<string>, i: nat, named: bool)
    requires i <= |lines|
  {
    if i == 0 then named else NamedAt(lines[1..], i - 1, NamedAfter(lines[0], named))
  }

  ghost predicate UnreadableAt(lines: seq<string>, i: nat, named: bool) {
    && i < |lines| && !Readable(lines[i], NamedAt(lines, i, named))
    && forall j: nat | j < i :: Readable(lines[j], NamedAt(lines, j, named))
  }

  /** The lines parse exactly when each can be read; otherwise the first that cannot decides the error: a continuation
      of nothing, or a line without a colon. */
  lemma {:induction false} ParsesIff(lines: seq<string>, name: string, val: string, h: Headers)
    ensures ParseLines(lines, name, val, h).Ok? <==>
              forall i: nat | i < |lines| :: Readable(lines[i], NamedAt(lines, i, name != ""))
    ensures forall i: nat | UnreadableAt(lines, i, name != "") ::
              ParseLines(lines, name, val, h) == Err(if Continues(lines[i]) then FoldedWithoutName else MalformedLine)
    decreases |lines|
  {
    hide TrimSpace, TrimPrefix, Flush, Readable, NamedAfter;
    if lines != [] {
      var line, rest, named := lines[0], lines[1..], name != "";
      ReadableIs(line, named);
      if Readable(line, named) {
        var i := IndexOf(line, ':');
        var (n, v, g) :=
          if line == "" then (name, val, h)
          else if Continues(line) then (name, val + " " + TrimSpace(line), h)
          else (line[..i], (if named then "" else val) + TrimPrefix(line[i + 1..], " "), Flush(h, name, val));
        assert (n != "") == NamedAfter(line, named) by { NamedIs(line, named, name, n); }
        ParsesIff(rest, n, v, g);
        assert ParseLines(lines, name, val, h) == ParseLines(rest, n, v, g);
        LinesShift(lines, named);
      }
    }
  }

  lemma ReadableIs(line: string, named: bool)
    ensures Readable(line, named) <==> line == "" || (if Continues(line) then named else IndexOf(line, ':') < |line|)
  {
    hide IndexOf;
  }

  lemma NamedIs(line: string, named: bool, name: string, n: string)
    requires named == (name != "") && Readable(line, named)
    requires n == if line == "" || Continues(line) then name else line[..IndexOf(line, ':')]
    ensures (n != "") == NamedAfter(line, named)
  {
    hide IndexOf;
  }

  lemma LinesShift(lines: seq<string>, named: bool)
    requires lines != []
    ensures var rest, after := lines[1..], NamedAfter(lines[0], named);
            && (forall i: nat | i < |rest| :: NamedAt(lines, i + 1, named) == NamedAt(rest, i, after) && lines[i + 1] == rest[i])
            && NamedAt(lines, 0, named) == named
  {
    hide NamedAfter;
  }

  /** A block that begins with a continuation line is refused. */
  lemma LeadingContinuation(c: string, after: seq<string>, body: string)
    requires Block([c] + after) && CrlfOnly(body) && Continues(c)
    ensures ParseSpec(Received([c] + after, body)) == Err(FoldedWithoutName)
  {
    hide ParseSpec, CrlfOnly, Received, ParseLines;
    var lines := [c] + after;
    ParseReceived(lines, body);
    ParsesIff(lines, "", "", map[]);
    assert lines[0] == c;
    assert UnreadableAt(lines, 0, false);
  }

  /** One header on one line has the text behind its colon as its value, trimmed. */
  lemma OneHeader(name: string, v: string, body: string)
    requires GoodName(name) && Plain(v) && CrlfOnly(body)
    ensures var r := ParseSpec(Received([name + ":" + v], body));
            r.Ok? && r.value.headers == map[name := [TrimSpace(v)]] && r.value.body == body
  {
    hide ParseSpec, CrlfOnly, Received, TrimSpace, TrimPrefix;
    JoinedPlain(name, v);
    ParseReceived([name + ":" + v], body);
    ParseHeaderLine(name, v, [], "", "", map[]);
    assert [name + ":" + v] + [] == [name + ":" + v];
    assert "" + TrimPrefix(v, " ") == TrimPrefix(v, " ");
    PrefixTrimmed(v);
    assert [] + [TrimSpace(v)] == [TrimSpace(v)];
  }

  /** The value of a header line without a name goes in front of the value of the next header. */
  lemma NamelessStays(v: string, name: string, w: string, body: string)
    requires GoodName(name) && Plain(v) && Plain(w) && CrlfOnly(body)
    ensures var r := ParseSpec(Received([":" + v, name + ":" + w], body));
            r.Ok? && r.value.headers == map[name := [TrimSpace(TrimPrefix(v, " ") + TrimPrefix(w, " "))]] && r.value.body == body
  {
    var lines := [":" + v, name + ":" + w];
    JoinedPlain(name, w);
    NamelessPlain(v);
    hide ParseSpec, CrlfOnly, Received, TrimSpace, TrimPrefix, Plain;
    assert Block(lines);
    ParseReceived(lines, body);
    NamelessRead(v, [name + ":" + w]);
    assert lines == [":" + v] + [name + ":" + w];
    ParseHeaderLine(name, w, [], "", TrimPrefix(v, " "), map[]);
    assert [name + ":" + w] + [] == [name + ":" + w];
    assert [] + [TrimSpace(TrimPrefix(v, " ") + TrimPrefix(w, " "))] == [TrimSpace(TrimPrefix(v, " ") + TrimPrefix(w, " "))];
  }

  lemma NamelessPlain(v: string)
    requires Plain(v)
    ensures Plain(":" + v)
  {
  }

  lemma NamelessRead(v: string, rest: seq<string>)
    ensures ParseLines([":" + v] + rest, "", "", map[]) == ParseLines(rest, "", TrimPrefix(v, " "), map[])
  {
    var line := ":" + v;
    assert ([line] + rest)[1..] == rest;
    assert line[0] == ':' && IndexOf(line, ':') == 0 && line[1..] == v && line[..0] == "";
    hide TrimPrefix;
    assert "" + TrimPrefix(v, " ") == TrimPrefix(v, " ");
  }

  lemma PrefixTrimmed(v: string)
    ensures TrimSpace(TrimPrefix(v, " ")) == TrimSpace(v)
  {
    if HasPrefix(v, " ") {
      assert v == " " + v[1..];
      TrimLeftPadded(" ", v[1..]);
    }
  }

  // ----- Line ends and missing blank lines -----

  lemma {:induction false} ReplaceSkip(line: string, t: string, what: string, with: string)
    requires what != "" && what[0] !in line
    ensures ReplaceAll(line + t, what, with) == line + ReplaceAll(t, what, with)
  {
    if line == "" {
      assert line + t == t;
    } else {
      assert (line + t)[1..] == line[1..] + t;
      assert (line + t)[0] == line[0];
      ReplaceSkip(line[1..], t, what, with);
      assert line == [line[0]] + line[1..];
    }
  }

  lemma ReplaceHere(what: string, rest: string, with: string)
    requires what != ""
    ensures ReplaceAll(what + rest, what, with) == with + ReplaceAll(rest, what, with)
  {
    assert (what + rest)[|what|..] == rest;
  }

  lemma LoneCR(rest: string)
    requires rest == "" || rest[0] != '\n'
    ensures ReplaceAll("\r" + rest, "\r\n", "\n") == "\r" + ReplaceAll(rest, "\r\n", "\n")
  {
    var s := "\r" + rest;
    assert s[1..] == rest;
    assert |s| >= 2 ==> s[..2][1] == rest[0];
  }

  /** CRLF, a line feed alone and a carriage return alone all end a line, and come out as CRLF. */
  lemma NormalizeLine(line: string, end: string, rest: string)
    requires Plain(line) && (end == "\r\n" || end == "\n" || (end == "\r" && (rest == "" || rest[0] != '\n')))
    ensures NormalizeNewlines(line + end + rest) == line + "\r\n" + NormalizeNewlines(rest)
    ensures NormalizeNewlines(line) == line
  {
    hide ReplaceAll;
    ReplaceNone(line, "\r\n", "\n");
    ReplaceNone(line, "\r", "\n");
    ReplaceNone(line, "\n", "\r\n");
    assert line + end + rest == line + (end + rest);
    ReplaceSkip(line, end + rest, "\r\n", "\n");
    var a := ReplaceAll(rest, "\r\n", "\n");
    ReplaceHere("\r\n", rest, "\n");
    if end == "\n" {
      ReplaceSkip("\n", rest, "\r\n", "\n");
    }
    if end == "\r" {
      LoneCR(rest);
    }
    var e := if end == "\r" then "\r" else "\n";
    assert ReplaceAll(line + end + rest, "\r\n", "\n") == line + (e + a);
    ReplaceSkip(line, e + a, "\r", "\n");
    ReplaceHere("\r", a, "\n");
    ReplaceSkip("\n", a, "\r", "\n");
    var b := ReplaceAll(a, "\r", "\n");
    assert ReplaceAll(line + (e + a), "\r", "\n") == line + ("\n" + b);
    ReplaceSkip(line, "\n" + b, "\n", "\r\n");
    ReplaceHere("\n", b, "\r\n");
  }

  lemma {:induction false} NoBlank(lines: seq<string>, last: string)
    requires Plain(last) && (forall i | 0 <= i < |lines| :: Plain(lines[i])) && forall i | 1 <= i < |lines| :: lines[i] != ""
    ensures FindBlank(Unlines(lines) + last) == |Unlines(lines) + last|
  {
    hide FindBlank;
    if lines == [] {
      assert Unlines(lines) + last == last;
      PlainNoBlank(last);
    } else {
      var tail := Unlines(lines[1..]) + last;
      assert Unlines(lines) + last == lines[0] + CRLF + tail;
      assert forall i | 0 <= i < |lines| - 1 :: lines[1..][i] == lines[i + 1];
      assert Plain(lines[0]);
      FindBlankSkip(lines[0], tail);
      NoBlank(lines[1..], last);
      if tail != "" {
        PlainFirst(if |lines| > 1 then lines[1] else last);
        assert tail[0] == if |lines| > 1 then lines[1][0] else last[0];
      }
    }
  }

  lemma {:induction false} PlainNoBlank(s: string)
    requires Plain(s)
    ensures FindBlank(s) == |s|
  {
    hide FindBlank;
    if s == "" {
      NothingBlank();
    } else {
      assert s[0] in s;
      FindBlankOther(s);
      PlainNoBlank(s[1..]);
    }
  }

  lemma NothingBlank()
    ensures FindBlank("") == 0
  {
  }

  /** A text without an empty line is a header block if its last line is ended, and is not understood otherwise. */
  lemma WithoutBlank(lines: seq<string>, last: string)
    requires Block(lines) && Plain(last) && last != ""
    ensures SameArticle(ParseSpec(Unlines(lines)), ParseSpec(Received(lines, "")))
    ensures ParseSpec(Unlines(lines) + last) == Err(NoSeparator) && ParseSpec(last) == Err(NoSeparator)
  {
    hide CrlfOnly, FindBlank, SplitLines, ParseLines, NormalizeNewlines, Unlines, Plain;
    HeadersOnly(lines);
    NotEnded(lines, last);
    NotEnded([], last);
    assert Unlines([]) + last == last by { UnlinesEmpty(); }
  }

  lemma UnlinesEmpty()
    ensures Unlines([]) == ""
  {
  }

  lemma HeadersOnly(lines: seq<string>)
    requires Block(lines)
    ensures SameArticle(ParseSpec(Unlines(lines)), ParseSpec(Received(lines, "")))
  {
    hide CrlfOnly, FindBlank, SplitLines, ParseLines, NormalizeNewlines, Unlines, Plain;
    var text := Unlines(lines);
    UnlinesCrlf(lines);
    NormalizeCanonical(text);
    EmptyPlain();
    NoBlank(lines, "");
    assert text + "" == text;
    UnlinesEnd(lines);
    SplitUnlines(lines);
    CrlfOnlyEmpty();
    ParseReceived(lines, "");
  }

  lemma EmptyPlain()
    ensures Plain("")
  {
  }

  lemma {:induction false} UnlinesEnd(lines: seq<string>)
    requires lines != []
    ensures HasSuffix(Unlines(lines), CRLF)
  {
    var rest := Unlines(lines[1..]);
    assert Unlines(lines) == lines[0] + CRLF + rest;
    if |lines| > 1 {
      UnlinesEnd(lines[1..]);
      assert Unlines(lines)[|Unlines(lines)| - 2..] == rest[|rest| - 2..];
    } else {
      assert rest == "";
      assert Unlines(lines)[|Unlines(lines)| - 2..] == CRLF;
    }
  }

  lemma NotEnded(lines: seq<string>, last: string)
    requires lines == [] || Block(lines)
    requires Plain(last) && last != ""
    ensures ParseSpec(Unlines(lines) + last) == Err(NoSeparator)
  {
    hide CrlfOnly, FindBlank, SplitLines, ParseLines, NormalizeNewlines, Unlines;
    var text := Unlines(lines) + last;
    UnlinesCrlf(lines);
    PlainIsCrlfOnly(last);
    CrlfOnlyAppend(Unlines(lines), last);
    NormalizeCanonical(text);
    NoBlank(lines, last);
    assert last[|last| - 1] in last && text[|text| - 1] == last[|last| - 1];
    EndsCrlf(text);
  }

  lemma EndsCrlf(s: string)
    ensures HasSuffix(s, CRLF) <==> |s| >= 2 && s[|s| - 2] == '\r' && s[|s| - 1] == '\n'
  {
    if |s| >= 2 {
      assert s[|s| - 2..] == [s[|s| - 2], s[|s| - 1]];
    }
  }

  // ----- What is written -----

  /** A header is written as one line for each of its values, its name and ": " in front. */
  lemma WrittenIs(h: Headers, k: string, ks: seq<string>, body: string)
    requires k in h && k !in ks && forall j | j in ks :: j in h
    ensures (h[k] == [] ==> Serialize(h, [k] + ks, body) == Serialize(h, ks, body))
    ensures h[k] != [] ==>
              Serialize(h, [k] + ks, body) == k + ": " + h[k][0] + "\r\n" + Serialize(h[k := h[k][1..]], [k] + ks, body)
  {
    var all := [k] + ks;
    assert all[1..] == ks;
    if h[k] != [] {
      OtherText(h, k, h[k][1..], ks);
    }
  }

  lemma {:induction false} OtherText(h: Headers, k: string, vs: seq<string>, ks: seq<string>)
    requires k in h && k !in ks && forall j | j in ks :: j in h
    ensures HeaderText(h[k := vs], ks) == HeaderText(h, ks)
  {
    hide KeyText;
    if ks != [] {
      OtherText(h, k, vs, ks[1..]);
    }
  }

  /** Behind the headers stand an empty line and the body, with a line end added where it has none. */
  lemma WrittenBody(h: Headers, body: string)
    ensures Serialize(h, [], body) ==
            "\r\n" + body + if body == "" || (|body| >= 2 && body[|body| - 2] == '\r' && body[|body| - 1] == '\n') then "" else "\r\n"
  {
    EndsCrlf(body);
  }
}
