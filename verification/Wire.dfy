/** Multi-line data blocks of NNTP (section 3.1.1 of RFC 3977): reading lines with a length limit,
    dot-stuffing on output, and the proof that a block written by one side is framed exactly by the other. */
module Wire {
  import opened Octets

  /** Octets allowed in an article line, its line end included. */
  const MAX_LINE: nat := 0x10_0000

  // ----- Lines of a text -----

  /** Position of the first line feed, or the length. */
  function FirstLF(t: seq<Octet>): (k: nat)
    ensures k <= |t|
    ensures LF !in t[..(k)]
    ensures k < |t| ==> t[k] == LF
  {
    if t == [] || t[0] == LF then 0
    else
      var j := FirstLF(t[1..]);
      assert t[..1 + j] == [t[0]] + t[1..][..j];
      1 + j
  }

  lemma {:induction false} FirstLFAt(a: seq<Octet>, b: seq<Octet>)
    requires LF !in a
    ensures FirstLF(a + [LF] + b) == |a|
  {
    if a != [] {
      assert (a + [LF] + b)[1..] == a[1..] + [LF] + b;
      FirstLFAt(a[1..], b);
    }
  }

  lemma {:induction false} FirstLFNone(a: seq<Octet>)
    requires LF !in a
    ensures FirstLF(a) == |a|
  {
    if a != [] {
      FirstLFNone(a[1..]);
    }
  }

  function StripCR(line: seq<Octet>): seq<Octet> {
    if line != [] && line[|line| - 1] == CR then line[..|line| - 1] else line
  }

  /** The lines of a text without their line ends; the last line end is optional. */
  function Lines(b: seq<Octet>): (ls: seq<seq<Octet>>)
    ensures forall l | l in ls :: LF !in l
    decreases |b|
  {
    if b == [] then []
    else
      var k := FirstLF(b);
      [StripCR(b[..k])] + (if k < |b| then Lines(b[k + 1..]) else [])
  }

  /** The lines, each ended by CRLF. */
  function Rejoined(ls: seq<seq<Octet>>): seq<Octet> {
    if ls == [] then [] else ls[0] + CRLF + Rejoined(ls[1..])
  }

  /** A text in canonical form: every line feed follows a carriage return, and the last line is ended. */
  predicate Canonical(b: seq<Octet>) {
    && (forall i | 0 <= i < |b| && b[i] == LF :: i > 0 && b[i - 1] == CR)
    && (b != [] ==> b[|b| - 1] == LF)
  }

  lemma LinesCut(a: seq<Octet>, b: seq<Octet>)
    requires LF !in a
    ensures Lines(a + [LF] + b) == [StripCR(a)] + Lines(b)
  {
    var t := a + [LF] + b;
    FirstLFAt(a, b);
    assert t[..|a|] == a && t[|a| + 1..] == b;
  }

  lemma LinesLast(a: seq<Octet>)
    requires LF !in a && a != []
    ensures Lines(a) == [StripCR(a)]
  {
    FirstLFNone(a);
    assert a[..|a|] == a;
  }

  /** Rejoining a text's lines gives the text back exactly when it was canonical. */
  lemma {:induction false} RejoinedIffCanonical(b: seq<Octet>)
    ensures Rejoined(Lines(b)) == b <==> Canonical(b)
    decreases |b|
  {
    hide Lines, StripCR;
    if b == [] {
      assert Lines(b) == [] by { LinesEmpty(); }
    } else {
      var k := FirstLF(b);
      var line := b[..k];
      if k < |b| {
        var rest := b[k + 1..];
        assert b == line + [LF] + rest;
        LinesCut(line, rest);
        RejoinedIffCanonical(rest);
        CanonicalTail(line, rest);
        RejoinedTail(line, rest, Lines(rest));
      } else {
        assert line == b;
        LinesLast(b);
        RejoinedUnended(b);
        assert b[|b| - 1] in b;
      }
    }
  }

  lemma StuffedLinesEmpty()
    ensures StuffedLines([]) == [] && Lines([]) == []
  {
  }

  lemma LinesEmpty()
    ensures Lines([]) == []
  {
  }

  lemma RejoinedTail(line: seq<Octet>, rest: seq<Octet>, ls: seq<seq<Octet>>)
    requires LF !in line
    ensures Rejoined([StripCR(line)] + ls) == line + [LF] + rest
       <==> line != [] && line[|line| - 1] == CR && Rejoined(ls) == rest
  {
    var a, b := Rejoined([StripCR(line)] + ls), line + [LF] + rest;
    assert ([StripCR(line)] + ls)[1..] == ls;
    assert a == StripCR(line) + CRLF + Rejoined(ls);
    if line != [] && line[|line| - 1] == CR {
      assert StripCR(line) + CRLF == line + [LF];
      assert a[|line| + 1..] == Rejoined(ls) && b[|line| + 1..] == rest;
    } else {
      assert a[|line|] == CR && b[|line|] == LF;
    }
  }

  lemma RejoinedUnended(line: seq<Octet>)
    requires LF !in line
    ensures Rejoined([StripCR(line)]) != line
  {
    var one := [StripCR(line)];
    var a := Rejoined(one);
    assert one[1..] == [];
    assert a == one[0] + CRLF + Rejoined(one[1..]);
    assert a[|StripCR(line)| + 1] == LF;
  }

  lemma CanonicalTail(line: seq<Octet>, rest: seq<Octet>)
    requires LF !in line
    ensures Canonical(line + [LF] + rest) <==> line != [] && line[|line| - 1] == CR && Canonical(rest)
  {
    var b := line + [LF] + rest;
    var k := |line|;
    assert b[k] == LF;
    if Canonical(b) {
      assert b[k - 1] == CR;
      forall i | 0 <= i < |rest| && rest[i] == LF
        ensures i > 0 && rest[i - 1] == CR
      {
        assert b[k + 1 + i] == LF;
        assert b[k + i] == CR;
      }
      assert rest != [] ==> b[|b| - 1] == rest[|rest| - 1];
    }
    if line != [] && line[|line| - 1] == CR && Canonical(rest) {
      forall i | 0 <= i < k
        ensures b[i] != LF
      {
        assert line[i] in line;
      }
      forall i | 0 <= i < |b| && b[i] == LF
        ensures i > 0 && b[i - 1] == CR
      {
        if i > k {
          assert b[i] == rest[i - k - 1];
          assert b[i - 1] == rest[i - k - 2];
        }
      }
    }
  }

  // ----- Dot-stuffing -----

  function StuffedLine(line: seq<Octet>): seq<Octet> {
    (if line != [] && line[0] == DOT then [DOT] else []) + line + CRLF
  }

  function StuffedLines(ls: seq<seq<Octet>>): seq<Octet> {
    if ls == [] then [] else StuffedLine(ls[0]) + StuffedLines(ls[1..])
  }

  /** The block sent for a text: its stuffed lines and the terminating dot. */
  function Block(b: seq<Octet>): seq<Octet> {
    StuffedLines(Lines(b)) + [DOT, CR, LF]
  }

  function TrimDot(line: seq<Octet>): seq<Octet> {
    if line != [] && line[0] == DOT then line[1..] else line
  }

  // ----- Reading -----

  datatype LineResult = Line(text: seq<Octet>, used: nat) | TooLong(used: nat) | Eof(used: nat)

  function Min(a: nat, b: nat): nat { if a < b then a else b }

  /** What reading one line takes from the input, with at most `maxLine` octets allowed. */
  function ReadLineSpec(t: seq<Octet>, maxLine: nat): (r: LineResult)
    ensures r.used <= |t|
    ensures r.Line? ==> r.used > 0
  {
    var k := FirstLF(t);
    if k < |t| && k < maxLine then Line(StripCR(t[..k]), k + 1)
    else if |t| <= maxLine then Eof(|t|)
    else if k == maxLine then TooLong(k + 1)
    else
      // The rest of the line is skipped, but never beyond MAX_LINE + 1 octets in all.
      var limit := if maxLine + 2 > MAX_LINE + 1 then maxLine + 2 else MAX_LINE + 1;
      TooLong(Min(limit, Min(k + 1, |t|)))
  }

  datatype BlockResult = Article(text: seq<Octet>, used: nat) | BlockTooLong(used: nat) | BlockEof(used: nat)
  {
    function After(n: nat): BlockResult {
      match this
      case Article(text, used) => Article(text, used + n)
      case BlockTooLong(used) => BlockTooLong(used + n)
      case BlockEof(used) => BlockEof(used + n)
    }
  }

  /** Skipping an article that is too large, up to the terminator. */
  function DrainSpec(t: seq<Octet>): BlockResult
    decreases |t|
  {
    match ReadLineSpec(t, MAX_LINE)
    case Line(text, used) =>
      if text == [DOT] then BlockTooLong(used) else DrainSpec(t[used..]).After(used)
    case TooLong(used) => BlockTooLong(used)
    case Eof(used) => BlockEof(used)
  }

  /** Reading a block, with `out` read already. */
  function ReadBlockSpec(t: seq<Octet>, out: seq<Octet>, maxBytes: int): BlockResult
    decreases |t|
  {
    match ReadLineSpec(t, MAX_LINE)
    case Line(text, used) =>
      if text == [DOT] then Article(out, used)
      else
        var out' := out + TrimDot(text) + CRLF;
        if maxBytes > 0 && |out'| > maxBytes then DrainSpec(t[used..]).After(used)
        else ReadBlockSpec(t[used..], out', maxBytes).After(used)
    case TooLong(used) => BlockTooLong(used)
    case Eof(used) => BlockEof(used)
  }

  // ----- A written block is framed exactly -----

  predicate Fits(line: seq<Octet>) {
    |StuffedLine(line)| <= MAX_LINE
  }

  predicate AllFit(ls: seq<seq<Octet>>) {
    forall l | l in ls :: Fits(l)
  }

  lemma ReadStuffedLine(line: seq<Octet>, rest: seq<Octet>)
    requires LF !in line
    ensures var r := ReadLineSpec(StuffedLine(line) + rest, MAX_LINE);
            var n := |StuffedLine(line)|;
            if Fits(line) then r.Line? && r.used == n && r.text != [DOT] && TrimDot(r.text) == line
            else r.TooLong? && r.used <= n
  {
    var dot: seq<Octet> := if line != [] && line[0] == DOT then [DOT] else [];
    var text := dot + line;
    var a := text + [CR];
    assert StuffedLine(line) + rest == a + [LF] + rest;
    FirstLFAt(a, rest);
    assert (a + [LF] + rest)[..|a|] == a;
    assert StripCR(a) == text;
  }

  lemma ReadTerminator(rest: seq<Octet>)
    ensures ReadLineSpec([DOT, CR, LF] + rest, MAX_LINE) == Line([DOT], 3)
  {
    assert [DOT, CR, LF] + rest == [DOT, CR] + [LF] + rest;
    FirstLFAt([DOT, CR], rest);
    assert ([DOT, CR] + [LF] + rest)[..2] == [DOT, CR];
  }

  lemma {:induction false} DrainWritten(ls: seq<seq<Octet>>, rest: seq<Octet>)
    requires forall l | l in ls :: LF !in l
    ensures var r := DrainSpec(StuffedLines(ls) + [DOT, CR, LF] + rest);
            r.BlockTooLong? && r.used <= |StuffedLines(ls)| + 3 && (r.used == |StuffedLines(ls)| + 3 <==> AllFit(ls))
  {
    hide StuffedLine, ReadLineSpec;
    var t := StuffedLines(ls) + [DOT, CR, LF] + rest;
    if ls == [] {
      assert t == [DOT, CR, LF] + rest;
      ReadTerminator(rest);
    } else {
      var line, tail := ls[0], StuffedLines(ls[1..]) + [DOT, CR, LF] + rest;
      assert t == StuffedLine(line) + tail;
      ReadStuffedLine(line, tail);
      DrainWritten(ls[1..], rest);
      assert t[|StuffedLine(line)|..] == tail;
      assert ls == [line] + ls[1..];
    }
  }

  lemma {:induction false} ReadWritten(ls: seq<seq<Octet>>, out: seq<Octet>, rest: seq<Octet>, maxBytes: int)
    requires forall l | l in ls :: LF !in l
    requires maxBytes > 0 ==> |out| <= maxBytes
    ensures var r := ReadBlockSpec(StuffedLines(ls) + [DOT, CR, LF] + rest, out, maxBytes);
            var n := |StuffedLines(ls)| + 3;
            var text := out + Rejoined(ls);
            if AllFit(ls) then r == if maxBytes > 0 && |text| > maxBytes then BlockTooLong(n) else Article(text, n)
            else r.BlockTooLong? && r.used < n
  {
    hide StuffedLine, ReadLineSpec, DrainSpec;
    var t := StuffedLines(ls) + [DOT, CR, LF] + rest;
    if ls == [] {
      assert t == [DOT, CR, LF] + rest;
      ReadTerminator(rest);
      assert out + Rejoined(ls) == out;
    } else {
      var line, tail := ls[0], StuffedLines(ls[1..]) + [DOT, CR, LF] + rest;
      assert t == StuffedLine(line) + tail;
      ReadStuffedLine(line, tail);
      var out' := out + line + CRLF;
      assert out + Rejoined(ls) == out' + Rejoined(ls[1..]);
      assert t[|StuffedLine(line)|..] == tail;
      assert ls == [line] + ls[1..];
      DrainWritten(ls[1..], rest);
      if !(maxBytes > 0 && |out'| > maxBytes) {
        ReadWritten(ls[1..], out', rest, maxBytes);
      }
    }
  }

  /** Reading a written block gives the text's lines joined by CRLF, or the too-large answer by `maxBytes`,
      and in both cases stops exactly behind the terminator: if and only if every stuffed line fits. */
  lemma ReadArticleOfBlock(body: seq<Octet>, rest: seq<Octet>, maxBytes: int)
    ensures var r := ReadBlockSpec(Block(body) + rest, [], maxBytes);
            && (r.used == |Block(body)| <==> AllFit(Lines(body)))
            && (AllFit(Lines(body)) ==>
                  var text := Rejoined(Lines(body));
                  r == if maxBytes > 0 && |text| > maxBytes then BlockTooLong(|Block(body)|)
                       else Article(text, |Block(body)|))
            && (!AllFit(Lines(body)) ==> r.BlockTooLong?)
  {
    ReadWritten(Lines(body), [], rest, maxBytes);
    assert [] + Rejoined(Lines(body)) == Rejoined(Lines(body));
    assert Block(body) + rest == StuffedLines(Lines(body)) + [DOT, CR, LF] + rest;
  }

  /** A canonical text of short lines travels unchanged. */
  lemma CanonicalTravels(body: seq<Octet>, rest: seq<Octet>)
    requires Canonical(body) && AllFit(Lines(body))
    ensures ReadBlockSpec(Block(body) + rest, [], 0) == Article(body, |Block(body)|)
  {
    RejoinedIffCanonical(body);
    ReadArticleOfBlock(body, rest, 0);
  }

  // ----- What goes over the wire, octet by octet -----

  /** A line without its last carriage return, if it ends in one. */
  function Bare(line: seq<Octet>): seq<Octet> {
    if line != [] && line[|line| - 1] == 13 then line[..|line| - 1] else line
  }

  /** A line up to its line feed is read if it has at most as many octets as are allowed, and loses one carriage return
      at its end. One that is too long is skipped to its end, but never more than 1048577 octets of it, or 1048578 where
      1048576 are allowed. */
  lemma LineIs(line: seq<Octet>, rest: seq<Octet>, maxLine: nat)
    requires 10 !in line && maxLine <= 1048576
    ensures var r := ReadLineSpec(line + [10] + rest, maxLine);
            r == if |line| < maxLine then Line(Bare(line), |line| + 1)
                 else if |line| <= 1048576 then TooLong(|line| + 1)
                 else TooLong(if maxLine == 1048576 then 1048578 else 1048577)
  {
    FirstLFAt(line, rest);
    assert (line + [10] + rest)[..|line|] == line;
  }

  /** Input that ends before its line does. */
  lemma UnendedIs(line: seq<Octet>, maxLine: nat)
    requires 10 !in line && maxLine <= 1048576
    ensures ReadLineSpec(line, maxLine) ==
            if |line| <= maxLine then Eof(|line|)
            else if |line| <= 1048577 then TooLong(|line|)
            else TooLong(if maxLine == 1048576 then 1048578 else 1048577)
  {
    FirstLFNone(line);
  }

  /** A line of a block: a lone dot ends the block, a dot in front of another line is taken off, and the line is added
      with CRLF. If there is too much then, what follows is skipped up to the terminator. */
  lemma BlockLineIs(line: seq<Octet>, rest: seq<Octet>, out: seq<Octet>, maxBytes: int)
    requires 10 !in line && |line| < 1048576
    ensures var n := |line| + 1;
            var out' := out + (if Bare(line) != [] && Bare(line)[0] == 46 then Bare(line)[1..] else Bare(line)) + [13, 10];
            ReadBlockSpec(line + [10] + rest, out, maxBytes) ==
            if Bare(line) == [46] then Article(out, n)
            else if maxBytes > 0 && |out'| > maxBytes then DrainSpec(rest).After(n)
            else ReadBlockSpec(rest, out', maxBytes).After(n)
    ensures DrainSpec(line + [10] + rest) == if Bare(line) == [46] then BlockTooLong(|line| + 1) else DrainSpec(rest).After(|line| + 1)
  {
    var t := line + [10] + rest;
    LineIs(line, rest, MAX_LINE);
    assert t[|line| + 1..] == rest;
    hide ReadLineSpec;
  }

  /** What is sent of a text: each line with CRLF, behind one more dot if it starts with a dot, and the terminator. */
  lemma SentIs(line: seq<Octet>, rest: seq<Octet>)
    requires 10 !in line
    ensures var stuffed := (if Bare(line) != [] && Bare(line)[0] == 46 then [46] else []) + Bare(line) + [13, 10];
            && Block(line + [10] + rest) == stuffed + Block(rest)
            && (line != [] ==> Block(line) == stuffed + Block([]))
    ensures Block([]) == [46, 13, 10]
  {
    var stuffed: seq<Octet> := (if Bare(line) != [] && Bare(line)[0] == 46 then [46] else []) + Bare(line) + [13, 10];
    StuffedLinesEmpty();
    LinesCut(line, rest);
    SentCons(line, Lines(rest));
    if line != [] {
      LinesLast(line);
      SentCons(line, []);
    }
  }

  lemma SentCons(line: seq<Octet>, ls: seq<seq<Octet>>)
    ensures var stuffed := (if Bare(line) != [] && Bare(line)[0] == 46 then [46] else []) + Bare(line) + [13, 10];
            StuffedLines([StripCR(line)] + ls) + [DOT, CR, LF] == stuffed + (StuffedLines(ls) + [DOT, CR, LF])
  {
    assert ([StripCR(line)] + ls)[1..] == ls;
    assert StuffedLines([StripCR(line)] + ls) == StuffedLine(StripCR(line)) + StuffedLines(ls);
  }

  /** Any number of blocks sent one after the other is read as the same number of texts. */
  function Blocks(bodies: seq<seq<Octet>>): seq<Octet> {
    if bodies == [] then [] else Block(bodies[0]) + Blocks(bodies[1..])
  }

  /** Reading `n` blocks from one stream; stops at the first failure. */
  function ReadBlocks(t: seq<Octet>, n: nat): (seq<seq<Octet>>, seq<Octet>)
    decreases n
  {
    if n == 0 then ([], t)
    else
      match ReadBlockSpec(t, [], 0)
      case Article(text, used) =>
        if used <= |t| then
          var (more, rest) := ReadBlocks(t[used..], n - 1);
          ([text] + more, rest)
        else ([], t)
      case BlockTooLong(_) => ([], t)
      case BlockEof(_) => ([], t)
  }

  lemma {:induction false} BlocksStayAligned(bodies: seq<seq<Octet>>, rest: seq<Octet>)
    requires forall b | b in bodies :: Canonical(b) && AllFit(Lines(b))
    ensures ReadBlocks(Blocks(bodies) + rest, |bodies|) == (bodies, rest)
  {
    hide Block, ReadBlockSpec, Canonical, AllFit, Lines;
    if bodies == [] {
      assert Blocks(bodies) + rest == rest;
    } else {
      var b, tail := bodies[0], Blocks(bodies[1..]) + rest;
      assert Blocks(bodies) + rest == Block(b) + tail;
      CanonicalTravels(b, tail);
      assert (Block(b) + tail)[|Block(b)|..] == tail;
      BlocksStayAligned(bodies[1..], rest);
      assert bodies == [b] + bodies[1..];
    }
  }

  // ----- The connection -----

  /** An NNTP connection: the octets still to come, those sent, and the current line limit. */
  class Conn {
    var input: seq<Octet>
    var output: seq<Octet>
    var maxLine: nat

    constructor (input: seq<Octet>)
      ensures this.input == input && output == []
    {
      this.input := input;
      output := [];
      maxLine := 512;
    }

    /** The next octet, if any. */
    method ReadByte() returns (ok: bool, b: Octet)
      modifies this`input
      ensures ok == (old(input) != [])
      ensures if ok then b == old(input)[0] && input == old(input)[1..] else input == old(input)
    {
      ok := input != [];
      b := 0;
      if ok {
        b := input[0];
        input := input[1..];
      }
    }

    method ReadLine() returns (r: LineResult)
      modifies this`input
      ensures r == ReadLineSpec(old(input), maxLine)
      ensures input == old(input)[r.used..]
    {
      ghost var t := input;
      var buf: seq<Octet> := [];
      while true
        invariant |buf| <= |t| && buf == t[..|buf|] && input == t[|buf|..]
        invariant LF !in buf && |buf| <= maxLine
        decreases |input|
      {
        ghost var n := |buf|;
        var ok, b := ReadByte();
        if !ok {
          FirstLFNone(t);
          assert t == buf;
          return Eof(|buf|);
        }
        assert t == buf + [b] + input;
        ghost var before := buf;
        buf := buf + [b];
        if b == LF {
          FirstLFAt(before, input);
        } else {
          assert FirstLF(t) >= |buf| by { NotYet(t, |buf|); }
        }
        if |buf| > maxLine {
          r := SkipLine(t, buf, b);
          return;
        }
        if b == LF {
          var end := |buf| - 1;
          if end > 0 && buf[end - 1] == CR {
            end := end - 1;
          }
          assert before == t[..n];
          assert buf[..end] == StripCR(before);
          return Line(buf[..end], |buf|);
        }
      }
    }

    /** Skips the rest of a line that is too long, so that the next command is aligned. */
    method SkipLine(ghost t: seq<Octet>, buf0: seq<Octet>, last: Octet) returns (r: LineResult)
      requires |buf0| == maxLine + 1 <= |t| && buf0 == t[..|buf0|] && input == t[|buf0|..]
      requires last == buf0[|buf0| - 1]
      requires if last == LF then FirstLF(t) == maxLine else FirstLF(t) >= |buf0|
      modifies this`input
      ensures r == ReadLineSpec(t, maxLine) && r.TooLong?
      ensures input == t[r.used..]
    {
      var buf, b := buf0, last;
      while b != LF
        invariant |buf0| <= |buf| <= |t| && buf == t[..|buf|] && input == t[|buf|..]
        invariant b == buf[|buf| - 1]
        invariant if b == LF then FirstLF(t) == |buf| - 1 else FirstLF(t) >= |buf|
        invariant |buf| > |buf0| ==> |buf| <= MAX_LINE
        decreases |input|
      {
        ghost var n := |buf|;
        var ok;
        ok, b := ReadByte();
        if !ok {
          return TooLong(|buf|);
        }
        assert t == buf + [b] + input;
        buf := buf + [b];
        if b != LF {
          NotYet(t, |buf|);
        }
        if |buf| > MAX_LINE {
          return TooLong(|buf|);
        }
      }
      return TooLong(|buf|);
    }

    /** The inner loop that discards an article that is too large. */
    method Drain() returns (r: BlockResult)
      requires maxLine == MAX_LINE
      modifies this`input
      ensures r == DrainSpec(old(input)) && r.used <= |old(input)|
      ensures input == old(input)[r.used..]
    {
      hide ReadLineSpec;
      ghost var t := input;
      var n: nat := 0;
      while true
        invariant n <= |t| && input == t[n..]
        invariant DrainSpec(t) == DrainSpec(input).After(n)
        decreases |input|
      {
        ghost var at := input;
        var line := ReadLine();
        if line.TooLong? {
          return BlockTooLong(n + line.used);
        }
        if line.Eof? {
          return BlockEof(n + line.used);
        }
        if line.text == [DOT] {
          return BlockTooLong(n + line.used);
        }
        assert at[line.used..] == t[n + line.used..];
        n := n + line.used;
      }
    }

    /** Reads a dot-stuffed block. */
    method ReadArticle(maxBytes: int) returns (r: BlockResult)
      modifies this`input, this`maxLine
      ensures r == ReadBlockSpec(old(input), [], maxBytes) && r.used <= |old(input)|
      ensures input == old(input)[r.used..]
    {
      hide ReadLineSpec, DrainSpec;
      ghost var t := input;
      var n: nat := 0;
      var out: seq<Octet> := [];
      while true
        invariant n <= |t| && input == t[n..]
        invariant ReadBlockSpec(t, [], maxBytes) == ReadBlockSpec(input, out, maxBytes).After(n)
        decreases |input|
      {
        ghost var at := input;
        maxLine := MAX_LINE;
        var line := ReadLine();
        if line.TooLong? {
          return BlockTooLong(n + line.used);
        }
        if line.Eof? {
          return BlockEof(n + line.used);
        }
        if line.text == [DOT] {
          return Article(out, n + line.used);
        }
        out := out + TrimDot(line.text);
        out := out + CRLF;
        assert at[line.used..] == t[n + line.used..];
        n := n + line.used;
        if maxBytes > 0 && |out| > maxBytes {
          ghost var more := input;
          var d := Drain();
          assert more[d.used..] == t[n + d.used..];
          return d.After(n);
        }
      }
    }

    /** Writes a text as a dot-stuffed block. */
    method WriteDot(body: seq<Octet>)
      modifies this`output
      ensures output == old(output) + Block(body)
    {
      hide Lines, StuffedLines;
      StuffedLinesEmpty();
      ghost var start := output;
      if |body| > 0 {
        var lines := SplitCRLF(body);
        assert lines[..0] == [];
        for i := 0 to |lines|
          invariant output == start + StuffedLines(lines[..i])
        {
          var line := lines[i];
          StuffedLinesSnoc(lines[..i], line);
          assert lines[..i + 1] == lines[..i] + [line];
          if |line| > 0 && line[0] == DOT {
            output := output + [DOT];
          }
          output := output + line;
          output := output + CRLF;
        }
        assert lines[..|lines|] == lines;
      }
      output := output + [DOT, CR, LF];
    }
  }

  lemma {:induction false} NotYet(t: seq<Octet>, n: nat)
    requires n <= |t| && (n > 0 ==> t[n - 1] != LF && FirstLF(t) >= n - 1)
    ensures FirstLF(t) >= n
  {
  }

  lemma {:induction false} StuffedLinesSnoc(ls: seq<seq<Octet>>, line: seq<Octet>)
    ensures StuffedLines(ls + [line]) == StuffedLines(ls) + StuffedLine(line)
  {
    if ls == [] {
      assert ls + [line] == [line];
      assert StuffedLines([line]) == StuffedLine(line) + StuffedLines([]);
    } else {
      StuffedLinesSnoc(ls[1..], line);
      assert (ls + [line])[1..] == ls[1..] + [line];
    }
  }

  lemma StripCRCut(b: seq<Octet>, start: nat, i: nat)
    requires start <= i <= |b|
    ensures StripCR(b[start..i]) == b[start..if i > start && b[i - 1] == CR then i - 1 else i]
  {
    var line := b[start..i];
    assert i > start ==> line[|line| - 1] == b[i - 1];
  }

  /** The program's line splitter. */
  method SplitCRLF(b: seq<Octet>) returns (lines: seq<seq<Octet>>)
    ensures lines == Lines(b)
  {
    hide Lines;
    lines := [];
    var start := 0;
    assert b[0..] == b;
    for i := 0 to |b|
      invariant start <= i
      invariant LF !in b[start..i]
      invariant Lines(b) == lines + Lines(b[start..])
    {
      if b[i] == LF {
        var end := i;
        if end > start && b[end - 1] == CR {
          end := end - 1;
        }
        assert b[start..] == b[start..i] + [LF] + b[i + 1..];
        LinesCut(b[start..i], b[i + 1..]);
        StripCRCut(b, start, i);
        lines := lines + [b[start..end]];
        start := i + 1;
      } else {
        assert b[start..i + 1] == b[start..i] + [b[i]];
      }
    }
    if start < |b| {
      var end := |b|;
      if end > start && b[end - 1] == CR {
        end := end - 1;
      }
      LinesLast(b[start..]);
      StripCRCut(b, start, |b|);
      assert b[start..|b|] == b[start..];
      lines := lines + [b[start..end]];
    } else {
      LinesEmpty();
      assert b[start..] == [];
    }
  }
}
