/** The mbox spool of a server: files are appended to, read, and rewritten without removed articles. */
module Spool {
  import opened Text
  import opened Mbox

  // ----- Entries of a file -----

  /** Entries as the rewriter cuts them: each "From " line starts a new one. */
  function ChunkLines(lines: seq<string>, cur: string): seq<string> {
    if lines == [] then (if cur == "" then [] else [cur])
    else if IsFrom(lines[0]) && cur != "" then [cur] + ChunkLines(lines[1..], lines[0])
    else ChunkLines(lines[1..], cur + lines[0])
  }

  function Chunks(file: string): seq<string> {
    ChunkLines(RawLines(file), "")
  }

  ghost predicate LineSeq(ls: seq<string>) {
    forall i | 0 <= i < |ls| :: IsLine(ls[i]) && (i < |ls| - 1 ==> Ended(ls[i]))
  }

  ghost predicate NoFrom(ls: seq<string>) {
    forall i | 0 <= i < |ls| :: !IsFrom(ls[i])
  }

  /** The lines of one entry: only the first may be a separator. */
  ghost predicate EntryLines(ls: seq<string>) {
    ls != [] && LineSeq(ls) && NoFrom(ls[1..])
  }

  ghost predicate OneEntry(c: string) {
    exists ls :: EntryLines(ls) && Flatten(ls) == c
  }

  lemma {:induction false} RawLinesOf(ls: seq<string>)
    requires LineSeq(ls)
    ensures RawLines(Flatten(ls)) == ls
  {
    hide RawLines, IsLine;
    RawLinesEmpty();
    if ls != [] {
      var l, rest := ls[0], ls[1..];
      assert IsLine(l);
      assert LineSeq(rest) by {
        assert forall i | 0 <= i < |rest| :: rest[i] == ls[i + 1];
      }
      RawLinesOf(rest);
      if Ended(l) {
        LineOf(l);
        RawLinesOne(l[..|l| - 1], Flatten(rest));
      } else {
        assert rest == [];
        UnendedLine(l);
        RawLinesLast(l);
        assert ls == [l];
        FlattenOne(l);
      }
    }
  }

  lemma LineOf(l: string)
    requires IsLine(l) && Ended(l)
    ensures '\n' !in l[..|l| - 1] && l == l[..|l| - 1] + "\n"
  {
  }

  lemma UnendedLine(l: string)
    requires IsLine(l) && !Ended(l)
    ensures '\n' !in l && l != ""
  {
    assert l == l[..|l| - 1] + [l[|l| - 1]];
  }

  lemma EntryLinesOf(c: string) returns (ls: seq<string>)
    requires OneEntry(c)
    ensures EntryLines(ls) && Flatten(ls) == c && RawLines(c) == ls && c != "" && (IsFrom(c) <==> IsFrom(ls[0]))
  {
    ls :| EntryLines(ls) && Flatten(ls) == c;
    RawLinesOf(ls);
    assert IsLine(ls[0]);
    FirstLine(c);
  }

  lemma LineSeqParts(a: seq<string>, b: seq<string>)
    requires LineSeq(a + b)
    ensures LineSeq(a) && LineSeq(b)
    ensures b != [] ==> forall i | 0 <= i < |a| :: Ended(a[i])
  {
    hide IsLine, Ended;
    var s := a + b;
    assert forall i | 0 <= i < |a| :: s[i] == a[i];
    assert forall i | 0 <= i < |b| :: s[|a| + i] == b[i];
  }

  lemma {:induction false} FlattenEnded(a: seq<string>)
    requires forall i | 0 <= i < |a| :: Ended(a[i])
    ensures Ended(Flatten(a))
  {
    if a != [] {
      FlattenEnded(a[1..]);
    }
  }

  /** The shape of a list of entries: they follow each other, and only the first may lack its separator. */
  ghost predicate Shape(cs: seq<string>) {
    && (forall i | 0 <= i < |cs| :: OneEntry(cs[i]))
    && (forall i | 1 <= i < |cs| :: IsFrom(cs[i]))
    && (forall i | 0 <= i < |cs| - 1 :: Ended(cs[i]))
  }

  lemma ShapeCons(c: string, cs: seq<string>)
    requires OneEntry(c) && Shape(cs)
    requires cs != [] ==> Ended(c) && IsFrom(cs[0])
    ensures Shape([c] + cs)
  {
    hide OneEntry, IsFrom, Ended;
    var s := [c] + cs;
    assert forall i | 0 <= i < |cs| :: s[i + 1] == cs[i];
  }

  lemma ShapeTail(cs: seq<string>)
    requires Shape(cs) && cs != []
    ensures OneEntry(cs[0]) && Shape(cs[1..])
    ensures |cs| > 1 ==> Ended(cs[0]) && IsFrom(cs[1])
  {
    hide OneEntry, IsFrom, Ended;
    assert forall i | 0 <= i < |cs| - 1 :: cs[1..][i] == cs[i + 1];
  }

  /** The cutter's entries have this shape and make up the file. `done` are the lines of the entry in progress. */
  lemma {:induction false} ChunkLinesShape(lines: seq<string>, done: seq<string>)
    requires LineSeq(done + lines) && NoFrom(if done == [] then [] else done[1..])
    ensures var cs := ChunkLines(lines, Flatten(done));
            && Shape(cs) && Flatten(cs) == Flatten(done + lines)
            && (done != [] ==> cs != [] && Flatten(done) <= cs[0])
    decreases |lines|
  {
    hide IsLine, IsFrom, Ended, Flatten;
    var cur := Flatten(done);
    FlattenCons<char>([], []);
    NonEmptyLines(done, lines);
    if lines == [] {
      assert done + lines == done;
      if done != [] {
        assert EntryLines(done);
        FlattenOne(cur);
      }
    } else {
      var l, rest := lines[0], lines[1..];
      LineSeqParts(done, lines);
      if IsFrom(l) && cur != "" {
        var cs := ChunkLines(rest, l);
        assert [l] + rest == lines;
        FlattenOne(l);
        ChunkLinesShape(rest, [l]);
        assert EntryLines(done);
        FlattenEnded(done);
        FromPrefix(l, cs[0]);
        ShapeCons(cur, cs);
        FlattenCons(cur, cs);
        FlattenAppend(done, lines);
      } else {
        var done' := done + [l];
        assert done' + rest == done + lines;
        assert done != [] ==> done'[1..] == done[1..] + [l];
        FlattenAppend(done, [l]);
        FlattenOne(l);
        ChunkLinesShape(rest, done');
        if done != [] {
          assert cur + l <= ChunkLines(rest, cur + l)[0];
        }
      }
    }
  }

  lemma NonEmptyLines(done: seq<string>, lines: seq<string>)
    requires LineSeq(done + lines)
    ensures Flatten(done) == "" <==> done == []
  {
    if done != [] {
      assert IsLine((done + lines)[0]);
    }
  }

  lemma FromPrefix(l: string, s: string)
    requires IsFrom(l) && l <= s
    ensures IsFrom(s)
  {
    assert s[..5] == l[..5];
  }

  lemma ChunksShape(file: string)
    ensures Shape(Chunks(file)) && Flatten(Chunks(file)) == file
  {
    hide RawLines, IsLine, Ended, IsFrom, ChunkLines, Flatten;
    RawLinesPieces(file);
    assert [] + RawLines(file) == RawLines(file);
    FlattenCons<char>([], []);
    ChunkLinesShape(RawLines(file), []);
  }

  /** Cutting entries that were put together gives them back. */
  lemma {:induction false} ChunksOfEntries(cs: seq<string>)
    requires Shape(cs)
    ensures Chunks(Flatten(cs)) == cs
    ensures cs != [] && IsFrom(cs[0]) ==> IsFrom(Flatten(cs))
  {
    hide RawLines, IsFrom, Ended, ChunkLines, OneEntry;
    RawLinesEmpty();
    ChunkLinesNone("");
    if cs != [] {
      ShapeTail(cs);
      var c, rest := cs[0], cs[1..];
      ChunksOfEntries(rest);
      var ls := EntryLinesOf(c);
      if rest == [] {
        assert Flatten(rest) == "";
        assert c + Flatten(rest) == c;
        assert ls + [] == ls;
        ChunkLinesEntry(ls, []);
        ChunkLinesNone(c);
      } else {
        RawLinesAppend(c, Flatten(rest));
        var lb := RawLines(Flatten(rest));
        FlattenNotEmpty(rest);
        FirstLine(Flatten(rest));
        ChunkLinesEntry(ls, lb);
        ChunkLinesCut(c, lb);
      }
      assert cs == [c] + rest;
      if IsFrom(c) {
        FromMore(c, Flatten(rest));
      }
    }
  }

  lemma FlattenNotEmpty(cs: seq<string>)
    requires Shape(cs) && cs != []
    ensures Flatten(cs) != ""
  {
    var ls := EntryLinesOf(cs[0]);
  }

  lemma ChunkLinesNone(cur: string)
    ensures ChunkLines([], cur) == if cur == "" then [] else [cur]
  {
  }

  /** The lines of one entry are collected before anything else. */
  lemma ChunkLinesEntry(ls: seq<string>, more: seq<string>)
    requires EntryLines(ls)
    ensures ChunkLines(ls + more, "") == ChunkLines(more, Flatten(ls))
  {
    var rest := ls[1..];
    assert (ls + more)[1..] == rest + more;
    assert "" + ls[0] == ls[0];
    assert (ls + more)[0] == ls[0];
    ChunkLinesNoFrom(rest, more, ls[0]);
  }

  lemma {:induction false} ChunkLinesNoFrom(ls: seq<string>, more: seq<string>, cur: string)
    requires NoFrom(ls)
    ensures ChunkLines(ls + more, cur) == ChunkLines(more, cur + Flatten(ls))
    decreases |ls|
  {
    hide IsFrom;
    if ls == [] {
      assert ls + more == more;
      assert cur + Flatten(ls) == cur;
    } else {
      assert (ls + more)[1..] == ls[1..] + more;
      assert !IsFrom(ls[0]);
      assert forall i | 0 <= i < |ls| - 1 :: ls[1..][i] == ls[i + 1];
      ChunkLinesNoFrom(ls[1..], more, cur + ls[0]);
      assert cur + ls[0] + Flatten(ls[1..]) == cur + Flatten(ls);
    }
  }

  lemma ChunkLinesCut(c: string, lb: seq<string>)
    requires c != "" && lb != [] && IsFrom(lb[0])
    ensures ChunkLines(lb, c) == [c] + ChunkLines(lb, "")
  {
    assert "" + lb[0] == lb[0];
  }

  // ----- Messages of entries -----

  function ReadEach(cs: seq<string>): seq<string> {
    if cs == [] then [] else Read(cs[0]) + ReadEach(cs[1..])
  }

  /** Reading a file is reading its entries. */
  lemma {:induction false} ReadFlatten(cs: seq<string>)
    requires Shape(cs)
    ensures Read(Flatten(cs)) == ReadEach(cs)
  {
    hide Read, Shape, IsFrom, Ended;
    if cs == [] {
      ReadEmpty();
    } else {
      ShapeTail(cs);
      ReadFlatten(cs[1..]);
      if |cs| == 1 {
        assert Flatten(cs[1..]) == "";
        assert cs[0] + "" == cs[0];
      } else {
        ChunksOfEntries(cs[1..]);
        ReadAppend(cs[0], Flatten(cs[1..]));
      }
    }
  }

  lemma ReadByEntries(file: string)
    ensures Read(file) == ReadEach(Chunks(file))
  {
    hide Read, Shape, Flatten, ReadEach, Chunks;
    ChunksShape(file);
    ReadFlatten(Chunks(file));
  }

  /** The text that the reader collects from lines inside a message. */
  function BodyText(ls: seq<string>): string {
    if ls == [] then "" else Unquote(StripCR(ls[0])) + BodyText(ls[1..])
  }

  lemma {:induction false} BodyTextSnoc(ls: seq<string>, l: string)
    ensures BodyText(ls + [l]) == BodyText(ls) + Unquote(StripCR(l))
  {
    hide Unquote, StripCR;
    if ls == [] {
      assert ls + [l] == [l];
      assert [l][1..] == [];
    } else {
      BodyTextSnoc(ls[1..], l);
      assert (ls + [l])[1..] == ls[1..] + [l];
    }
  }

  lemma {:induction false} ReadNoFrom(ls: seq<string>, have: bool, cur: string)
    requires NoFrom(ls)
    ensures ReadLines(ls, have, cur) == if have then Flushed(true, cur + BodyText(ls)) else []
    decreases |ls|
  {
    hide StripCR, Unquote, IsFrom, Blank, TrimNewlines;
    if ls == [] {
      assert cur + BodyText(ls) == cur;
    } else {
      StripCRFrom(ls[0]);
      assert forall i | 0 <= i < |ls| - 1 :: ls[1..][i] == ls[i + 1];
      var cur' := cur + Unquote(StripCR(ls[0]));
      ReadNoFrom(ls[1..], have, if have then cur' else cur);
      assert cur' + BodyText(ls[1..]) == cur + BodyText(ls);
    }
  }

  /** An entry yields at most one message, and none without its separator. */
  lemma ReadEntry(ls: seq<string>)
    requires EntryLines(ls)
    ensures Read(Flatten(ls)) == if IsFrom(ls[0]) then Flushed(true, BodyText(ls[1..])) else []
  {
    hide StripCR, IsFrom, Blank, TrimNewlines, BodyText, RawLines, Flatten;
    RawLinesOf(ls);
    StripCRFrom(ls[0]);
    if IsFrom(ls[0]) {
      ReadNoFrom(ls[1..], true, "");
      assert "" + BodyText(ls[1..]) == BodyText(ls[1..]);
    } else {
      ReadNoFrom(ls[1..], false, "");
    }
    FlushedNothing();
  }

  lemma FlushedNothing()
    ensures Flushed(true, "") == [] && forall cur :: Flushed(false, cur) == []
  {
  }

  // ----- Rewriting -----

  predicate HasFoldedPrefix(line: string, p: string) {
    |p| <= |line| && forall i | 0 <= i < |p| :: LowerChar(line[i]) == p[i]
  }

  const ID_FIELD := "message-id:"

  /** Whether a line of the entry, in the header or not, gives a removed Message-ID. */
  predicate Dropped(msg: string, drop: set<string>) {
    exists line | line in Split(msg, '\n') :: HasFoldedPrefix(line, ID_FIELD) && TrimSpace(line[|ID_FIELD|..]) in drop
  }

  /** The line is "message-id:" in any case and a removed identifier, with any space around it. */
  predicate GivesRemoved(line: string, drop: set<string>) {
    |line| >= 11 && ToLower(line[..11]) == "message-id:" && TrimSpace(line[11..]) in drop
  }

  /** An entry is removed exactly when a line of it, in the header or not, gives a removed identifier. */
  lemma DroppedIff(msg: string, drop: set<string>)
    ensures Dropped(msg, drop) <==> exists i, j :: PartOf(msg, '\n', i, j) && GivesRemoved(msg[i..j], drop)
  {
    forall line
      ensures GivesRemoved(line, drop) <==> HasFoldedPrefix(line, ID_FIELD) && TrimSpace(line[|ID_FIELD|..]) in drop
    {
      FoldedIs(line);
    }
    hide TrimSpace, PartOf, Split, HasFoldedPrefix, GivesRemoved;
    if Dropped(msg, drop) {
      var line :| line in Split(msg, '\n') && GivesRemoved(line, drop);
      SplitIff(msg, '\n', line);
    }
    if i, j :| PartOf(msg, '\n', i, j) && GivesRemoved(msg[i..j], drop) {
      SplitIff(msg, '\n', msg[i..j]);
    }
  }

  lemma FoldedIs(line: string)
    ensures HasFoldedPrefix(line, ID_FIELD) <==> |line| >= 11 && ToLower(line[..11]) == "message-id:"
  {
    if |line| >= 11 {
      assert forall i | 0 <= i < 11 :: ToLower(line[..11])[i] == LowerChar(line[i]);
    }
  }

  function Kept(cs: seq<string>, drop: set<string>): seq<string> {
    if cs == [] then []
    else (if Dropped(cs[0], drop) then [] else [cs[0]]) + Kept(cs[1..], drop)
  }

  function EndEntry(c: string): string {
    if HasSuffix(c, "\n") then c else c + "\n"
  }

  function EndEach(cs: seq<string>): seq<string> {
    if cs == [] then [] else [EndEntry(cs[0])] + EndEach(cs[1..])
  }

  function Rewritten(file: string, drop: set<string>): string {
    Flatten(EndEach(Kept(Chunks(file), drop)))
  }

  lemma EndedSuffix(c: string)
    requires c != ""
    ensures HasSuffix(c, "\n") <==> Ended(c)
  {
    assert c[|c| - 1..][0] == c[|c| - 1];
  }

  lemma EndEntryOne(c: string)
    requires OneEntry(c)
    ensures OneEntry(EndEntry(c)) && Ended(EndEntry(c)) && (IsFrom(c) ==> IsFrom(EndEntry(c)))
  {
    hide IsFrom, EntryLines, Flatten, RawLines;
    var ls := EntryLinesOf(c);
    EndedSuffix(c);
    if !Ended(c) {
      EndedLines(ls, c);
      FromIgnoresEnd(c, "\n");
    }
  }

  lemma EndLine(l: string)
    requires IsLine(l) && !Ended(l)
    ensures IsLine(l + "\n") && Ended(l + "\n")
  {
    UnendedLine(l);
    assert (l + "\n")[..|l|] == l;
  }

  /** Where an entry lacks its line feed, it is its last line that lacks it. */
  lemma UnendedLast(ls: seq<string>, c: string)
    requires EntryLines(ls) && Flatten(ls) == c && !Ended(c)
    ensures !Ended(ls[|ls| - 1]) && c[|c| - 1] == ls[|ls| - 1][|ls[|ls| - 1]| - 1]
  {
    var k := |ls| - 1;
    assert ls == ls[..k] + [ls[k]];
    FlattenAppend(ls[..k], [ls[k]]);
    FlattenOne(ls[k]);
    assert IsLine(ls[k]);
    assert c == Flatten(ls[..k]) + ls[k];
  }

  lemma {:induction false} KeptShape(cs: seq<string>, drop: set<string>)
    requires Shape(cs)
    ensures Shape(EndEach(Kept(cs, drop))) && Shape(Kept(cs, drop))
    ensures cs != [] && IsFrom(cs[0]) && Kept(cs, drop) != [] ==>
              IsFrom(Kept(cs, drop)[0]) && IsFrom(EndEach(Kept(cs, drop))[0])
    ensures |EndEach(Kept(cs, drop))| == |Kept(cs, drop)|
  {
    hide OneEntry, IsFrom, Dropped, EndEntry, Ended;
    if cs != [] {
      ShapeTail(cs);
      var rest := Kept(cs[1..], drop);
      KeptShape(cs[1..], drop);
      KeptFrom(cs, drop);
      if !Dropped(cs[0], drop) {
        EndEntryOne(cs[0]);
        var kept := [cs[0]] + rest;
        assert kept[1..] == rest;
        assert Kept(cs, drop) == kept;
        ShapeCons(EndEntry(cs[0]), EndEach(rest));
        ShapeCons(cs[0], rest);
      } else {
        assert Kept(cs, drop) == rest;
      }
    }
  }

  lemma KeptFrom(cs: seq<string>, drop: set<string>)
    requires Shape(cs) && cs != []
    ensures Kept(cs[1..], drop) != [] ==> |cs| > 1 && IsFrom(cs[1..][0])
  {
    hide OneEntry, IsFrom, Ended;
  }

  lemma DroppedEnded(c: string, drop: set<string>)
    ensures Dropped(EndEntry(c), drop) <==> Dropped(c, drop)
  {
    hide HasFoldedPrefix, TrimSpace, Split;
    if !HasSuffix(c, "\n") {
      assert c + "\n" == c + ['\n'] + "";
      SplitSnoc(c, '\n', "");
      assert !HasFoldedPrefix("", ID_FIELD) by { NoPrefixOfEmpty(); }
    }
  }

  lemma NoPrefixOfEmpty()
    ensures !HasFoldedPrefix("", ID_FIELD)
  {
  }

  lemma {:induction false} KeptNotDropped(cs: seq<string>, drop: set<string>)
    ensures forall c | c in EndEach(Kept(cs, drop)) :: !Dropped(c, drop)
    ensures EndEach(EndEach(Kept(cs, drop))) == EndEach(Kept(cs, drop))
    ensures Kept(EndEach(Kept(cs, drop)), drop) == EndEach(Kept(cs, drop))
  {
    hide Dropped;
    if cs != [] {
      var rest := Kept(cs[1..], drop);
      KeptNotDropped(cs[1..], drop);
      if !Dropped(cs[0], drop) {
        DroppedEnded(cs[0], drop);
        assert Kept(cs, drop) == [cs[0]] + rest;
        var e := EndEntry(cs[0]);
        assert EndEntry(e) == e;
        assert EndEach(Kept(cs, drop)) == [e] + EndEach(rest);
        assert ([e] + EndEach(rest))[1..] == EndEach(rest);
      } else {
        assert Kept(cs, drop) == rest;
      }
    }
  }

  /** After a rewrite the file holds exactly the kept entries: no entry naming a removed article is left
      on disk, and rewriting again changes nothing. */
  lemma RewrittenEntries(file: string, drop: set<string>)
    ensures Chunks(Rewritten(file, drop)) == EndEach(Kept(Chunks(file), drop))
    ensures forall c | c in Chunks(Rewritten(file, drop)) :: !Dropped(c, drop)
    ensures Rewritten(Rewritten(file, drop), drop) == Rewritten(file, drop)
  {
    hide Chunks, Flatten, Dropped, Shape, Kept, EndEach;
    var cs := Chunks(file);
    ChunksShape(file);
    KeptShape(cs, drop);
    ChunksOfEntries(EndEach(Kept(cs, drop)));
    KeptNotDropped(cs, drop);
  }

  // ----- Reading what was rewritten -----

  /** Ending an entry changes its message exactly when it has one that ends in a bare carriage return. */
  lemma ReadEndEntry(c: string)
    requires OneEntry(c)
    ensures Read(EndEntry(c)) == Read(c) <==> !(c[|c| - 1] == '\r' && Read(c) != [])
    ensures Read(EndEntry(c)) != Read(c) ==> |Read(c)| == 1 && |Read(EndEntry(c))| <= 1
  {
    hide IsFrom, RawLines, IsLine, Read, BodyText, Flushed, Unquote, StripCR, Flatten, Ended;
    var ls := EntryLinesOf(c);
    EndedSuffix(c);
    EndedIs(c);
    ReadEntry(ls);
    if !Ended(c) {
      EndEntryOne(c);
      UnendedLast(ls, c);
      var k := |ls| - 1;
      var l := ls[k];
      ReadEntryEnded(ls, c);
      if IsFrom(ls[0]) {
        if k == 0 {
          assert ls[1..] == [];
          BodyTextEmpty();
          FlushedNothing();
        } else {
          assert ls[1..] == ls[1..k] + [l];
          BodyTextSnoc(ls[1..k], l);
          assert IsLine(l);
          UnendedLine(l);
          FlushEnded(BodyText(ls[1..k]), l);
        }
      }
    }
  }

  lemma EndedIs(c: string)
    ensures Ended(c) <==> c == "" || c[|c| - 1] == '\n'
  {
  }

  lemma BodyTextEmpty()
    ensures BodyText([]) == ""
  {
  }

  lemma ReadEntryEnded(ls: seq<string>, c: string)
    requires EntryLines(ls) && Flatten(ls) == c && !Ended(c)
    ensures var k := |ls| - 1;
            Read(EndEntry(c)) == if !IsFrom(ls[0]) then []
                                 else if k == 0 then []
                                 else Flushed(true, BodyText(ls[1..k]) + Unquote(StripCR(ls[k] + "\n")))
  {
    hide IsFrom, RawLines, IsLine, Read, BodyText, Flushed, Unquote, StripCR;
    var k := |ls| - 1;
    EndedSuffix(c);
    EndedLines(ls, c);
    var ls' := ls[..k] + [ls[k] + "\n"];
    ReadEntry(ls');
    FromIgnoresEnd(ls[k], "\n");
    if k == 0 {
      assert ls'[1..] == [];
      BodyTextEmpty();
      FlushedNothing();
    } else {
      assert ls'[1..] == ls[1..k] + [ls[k] + "\n"];
      BodyTextSnoc(ls[1..k], ls[k] + "\n");
    }
  }

  lemma EndedLines(ls: seq<string>, c: string)
    requires EntryLines(ls) && Flatten(ls) == c && !Ended(c)
    ensures var k := |ls| - 1;
            EntryLines(ls[..k] + [ls[k] + "\n"]) && Flatten(ls[..k] + [ls[k] + "\n"]) == c + "\n"
  {
    hide IsFrom, RawLines, IsLine, Flatten;
    var k := |ls| - 1;
    var l := ls[k] + "\n";
    var ls' := ls[..k] + [l];
    UnendedLast(ls, c);
    EndLine(ls[k]);
    FromIgnoresEnd(ls[k], "\n");
    assert forall i | 0 <= i < k :: ls'[i] == ls[i];
    forall i | 0 <= i < |ls'[1..]|
      ensures !IsFrom(ls'[1..][i])
    {
      assert !IsFrom(ls[1..][i]);
    }
    FlattenAppend(ls[..k], [ls[k]]);
    FlattenAppend(ls[..k], [l]);
    assert ls == ls[..k] + [ls[k]];
    FlattenOne(ls[k]);
    FlattenOne(l);
  }

  /** The last line of a message with and without its line feed. */
  lemma FlushEnded(before: string, l: string)
    requires l != "" && '\n' !in l
    ensures var a, b := Flushed(true, before + Unquote(StripCR(l))), Flushed(true, before + Unquote(StripCR(l + "\n")));
            && (a == b <==> !(l[|l| - 1] == '\r' && a != []))
            && (a != b ==> |a| == 1 && |b| <= 1)
  {
    hide Blank, StripCR, Unquote, Flushed;
    NoLFKept(l);
    if l[|l| - 1] == '\r' {
      StripsCR(l);
      var x := l[..|l| - 1];
      assert l == x + "\r";
      UnquoteEnd(x, "\r");
      UnquoteEnd(x, "\n");
      var m := before + Unquote(x);
      assert before + (Unquote(x) + "\r") == m + "\r";
      assert before + (Unquote(x) + "\n") == m + "\n";
      FlushBare(m);
    } else {
      KeepsCR(l);
      UnquoteEnd(l, "\n");
      assert before + (Unquote(l) + "\n") == before + Unquote(l) + "\n";
      FlushLF(before + Unquote(l));
    }
  }

  lemma NoLFKept(l: string)
    requires '\n' !in l
    ensures StripCR(l) == l
  {
    var n := |l|;
    if n >= 2 {
      assert l[n - 2..][1] == l[n - 1];
      assert l[n - 1] in l;
    }
  }

  lemma FlushLF(m: string)
    ensures Flushed(true, m + "\n") == Flushed(true, m) && |Flushed(true, m)| <= 1
  {
    TrimNewlinesMore(m);
  }

  lemma FlushBare(m: string)
    ensures var a, b := Flushed(true, m + "\r"), Flushed(true, m + "\n");
            (a == b <==> a == []) && |a| <= 1 && |b| <= 1
  {
    hide Blank;
    TrimNewlinesMore(m);
    BlankPrefix(m);
    assert TrimNewlines(m + "\r") == m + "\r";
  }

  lemma BlankPrefix(m: string)
    ensures Blank(m + "\r") ==> Blank(TrimNewlines(m))
    ensures TrimNewlines(m) != m + "\r"
  {
  }

  lemma StripsCR(l: string)
    requires l != "" && l[|l| - 1] == '\r'
    ensures StripCR(l + "\n") == l[..|l| - 1] + "\n"
  {
    var q := l + "\n";
    assert q[|q| - 2..] == "\r\n";
    assert q[..|q| - 2] == l[..|l| - 1];
  }

  lemma KeepsCR(l: string)
    requires l != "" && l[|l| - 1] != '\r'
    ensures StripCR(l + "\n") == l + "\n"
  {
    var q := l + "\n";
    assert q[|q| - 2..][0] == l[|l| - 1];
  }

  lemma UnquoteEnd(x: string, end: string)
    requires |end| == 1 && end[0] != ' '
    ensures Unquote(x + end) == Unquote(x) + end
  {
    var q := x + end;
    if |x| >= 6 {
      assert q[..6] == x[..6];
      assert x != "" && q[1..] == x[1..] + end;
    } else {
      assert |q| >= 6 ==> q[..6][5] == end[0];
    }
  }

  /** Rewriting keeps the messages of the kept entries, except that a last message whose file ends in a
      bare carriage return loses it: exactly then reading differs. */
  ghost predicate BareEnd(file: string, drop: set<string>) {
    var cs := Chunks(file);
    && file != "" && file[|file| - 1] == '\r'
    && cs != [] && !Dropped(cs[|cs| - 1], drop) && Read(cs[|cs| - 1]) != []
  }

  lemma {:induction false} ReadKept(cs: seq<string>, drop: set<string>)
    requires Shape(cs)
    ensures ReadEach(EndEach(Kept(cs, drop))) == ReadEach(Kept(cs, drop))
       <==> !(cs != [] && !Dropped(cs[|cs| - 1], drop) && Read(EndEntry(cs[|cs| - 1])) != Read(cs[|cs| - 1]))
  {
    hide OneEntry, IsFrom, Dropped, EndEntry, Read;
    if cs != [] {
      ShapeTail(cs);
      var c, rest := cs[0], cs[1..];
      ReadKept(rest, drop);
      var kept := Kept(rest, drop);
      if |cs| > 1 {
        assert rest[|rest| - 1] == cs[|cs| - 1];
      }
      if Dropped(c, drop) {
        assert Kept(cs, drop) == kept;
      } else {
        assert Kept(cs, drop) == [c] + kept;
        assert ([c] + kept)[1..] == kept;
        assert EndEach(Kept(cs, drop)) == [EndEntry(c)] + EndEach(kept);
        assert ([EndEntry(c)] + EndEach(kept))[1..] == EndEach(kept);
        if |cs| > 1 {
          EndedKeeps(c);
          ConcatCancel(Read(c), ReadEach(EndEach(kept)), ReadEach(kept));
        } else {
          assert kept == [];
          assert Read(c) + [] == Read(c) && Read(EndEntry(c)) + [] == Read(EndEntry(c));
        }
      }
    }
  }

  lemma EndedKeeps(c: string)
    requires OneEntry(c) && Ended(c)
    ensures EndEntry(c) == c
  {
    var ls := EntryLinesOf(c);
    EndedSuffix(c);
  }

  lemma ConcatCancel(a: seq<string>, b: seq<string>, c: seq<string>)
    ensures a + b == a + c <==> b == c
  {
    if a + b == a + c {
      assert (a + b)[|a|..] == b && (a + c)[|a|..] == c;
    }
  }

  lemma {:induction false} LastChar(cs: seq<string>)
    requires Shape(cs) && cs != []
    ensures var f, c := Flatten(cs), cs[|cs| - 1]; f != "" && c != "" && f[|f| - 1] == c[|c| - 1]
  {
    hide OneEntry, IsFrom;
    ShapeTail(cs);
    var ls := EntryLinesOf(cs[0]);
    if |cs| == 1 {
      assert Flatten(cs[1..]) == "";
    } else {
      LastChar(cs[1..]);
    }
  }

  /** Reading a rewritten file gives the messages of the kept entries, in their order, for every file but
      one whose last message is kept and ends in a bare carriage return. */
  lemma ReadRewrittenIff(file: string, drop: set<string>)
    ensures Read(Rewritten(file, drop)) == ReadEach(Kept(Chunks(file), drop)) <==> !BareEnd(file, drop)
  {
    hide Read, Chunks, Flatten, ReadEach, Kept, EndEach, Dropped, OneEntry, IsFrom, EndEntry;
    var cs := Chunks(file);
    ChunksShape(file);
    KeptShape(cs, drop);
    ReadFlatten(EndEach(Kept(cs, drop)));
    ReadKept(cs, drop);
    if cs != [] {
      LastChar(cs);
      assert OneEntry(cs[|cs| - 1]);
      ReadEndEntry(cs[|cs| - 1]);
    }
  }

  /** One such file: its message ends in a carriage return, and does not any more after a rewrite. */
  lemma BareEndExample(drop: set<string>)
    ensures var file := "From x\nab\r";
            BareEnd(file, drop) && Read(file) == ["ab\r"] && Read(Rewritten(file, drop)) == ["ab"]
  {
    hide Read, RawLines, IsFrom, Flatten, EntryLines, Chunks, Dropped, BodyText, Blank, TrimNewlines, Split, Kept, EndEach, ChunkLines;
    var file, ended := "From x\nab\r", "From x\nab\r\n";
    ExampleLines("ab\r", file);
    ExampleLines("ab\r\n", ended);
    ReadEntry(["From x\n", "ab\r"]);
    ReadEntry(["From x\n", "ab\r\n"]);
    assert ["From x\n", "ab\r"][1..] == ["ab\r"] && ["From x\n", "ab\r\n"][1..] == ["ab\r\n"];
    ExampleBodies();
    ExampleKept(file, drop);
    assert EndEntry(file) == ended;
    ExampleChunks(file, drop);
  }

  lemma ExampleLines(l: string, file: string)
    requires l == "ab\r" || l == "ab\r\n"
    requires file == "From x\n" + l
    ensures EntryLines(["From x\n", l]) && Flatten(["From x\n", l]) == file && IsFrom(["From x\n", l][0])
  {
    FlattenOne(l);
    FlattenCons("From x\n", [l]);
    assert ["From x\n"] + [l] == ["From x\n", l];
    FromChars("From x\n");
    FromChars(l);
    assert ["From x\n", l][1..] == [l];
  }

  lemma ExampleBodies()
    ensures Flushed(true, BodyText(["ab\r"])) == ["ab\r"] && Flushed(true, BodyText(["ab\r\n"])) == ["ab"]
  {
    hide Blank, Unquote, StripCR;
    assert ["ab\r"][1..] == [] && ["ab\r\n"][1..] == [];
    NoLFKept("ab\r");
    StripsCR("ab\r");
    assert "ab\r" + "\n" == "ab\r\n" && "ab\r"[..2] + "\n" == "ab\n";
    UnquotedShort("ab\r");
    UnquotedShort("ab\n");
    assert BodyText(["ab\r"]) == "ab\r" && BodyText(["ab\r\n"]) == "ab\n";
    assert "ab" + "\n" == "ab\n";
    TrimNewlinesMore("ab");
    ExampleNotBlank();
  }

  lemma UnquotedShort(l: string)
    requires |l| < 6
    ensures Unquote(l) == l
  {
  }

  lemma ExampleNotBlank()
    ensures !Blank("ab") && !Blank("ab\r")
  {
    assert 'a' in "ab" && 'a' in "ab\r";
  }

  lemma ExampleKept(file: string, drop: set<string>)
    requires file == "From x\nab\r"
    ensures !Dropped(file, drop) && Chunks(file) == [file]
  {
    hide Dropped, RawLines, EntryLines, ChunkLines, Flatten, IsFrom;
    assert file == "From x" + ['\n'] + "ab\r";
    TwoShortLines("From x", "ab\r", drop);
    ExampleLines("ab\r", file);
    var ls := ["From x\n", "ab\r"];
    EntryLineSeq(ls);
    RawLinesOf(ls);
    ChunkLinesEntry(ls, []);
    assert ls + [] == ls;
    ChunkLinesNone(file);
  }

  /** Lines that are shorter than the field's name give no Message-ID. */
  lemma TwoShortLines(a: string, b: string, drop: set<string>)
    requires '\n' !in a && '\n' !in b && |a| < |ID_FIELD| && |b| < |ID_FIELD|
    ensures !Dropped(a + ['\n'] + b, drop)
  {
    hide TrimSpace, Split;
    SplitAt(a, '\n', b);
    SplitFree(b, '\n');
  }

  lemma EntryLineSeq(ls: seq<string>)
    requires EntryLines(ls)
    ensures LineSeq(ls)
  {
  }

  lemma ExampleChunks(file: string, drop: set<string>)
    requires Chunks(file) == [file] && !Dropped(file, drop)
    ensures Rewritten(file, drop) == EndEntry(file)
  {
    hide Chunks, Dropped, EndEntry, Flatten;
    KeptCons(file, [], drop);
    assert [file] + [] == [file];
    assert [file][1..] == [];
    assert EndEach([file][1..]) == [];
    assert [EndEntry(file)] + [] == [EndEntry(file)];
    FlattenOne(EndEntry(file));
  }

  /** No file of the server's own ends so: appending and rewriting leave a line feed at the end. Such a file comes
      from elsewhere. */
  lemma OwnFilesEnded(file: string, env: string, wire: string, drop: set<string>)
    ensures Ended(file) ==> !BareEnd(file, drop)
    ensures Ended(file + Appended(env, wire)) && Ended(Rewritten(file, drop))
  {
    hide Chunks, Dropped, Read, QuotedText, LfText, Shape, Kept;
    AppendedEnded(file, env, wire);
    EndEachEnded(Kept(Chunks(file), drop));
    FlattenEnded(EndEach(Kept(Chunks(file), drop)));
  }

  lemma AppendedEnded(file: string, env: string, wire: string)
    ensures Ended(file + Appended(env, wire))
  {
    hide QuotedText, LfText, Split;
    var a := Appended(env, wire);
    if HasSuffix(a, "\n\n") {
      assert a[|a| - 2..][1] == a[|a| - 1];
    }
    assert a[|a| - 1] == '\n' && (file + a)[|file + a| - 1] == a[|a| - 1];
  }

  lemma {:induction false} EndEachEnded(cs: seq<string>)
    ensures forall i | 0 <= i < |EndEach(cs)| :: Ended(EndEach(cs)[i])
  {
    if cs != [] {
      EndEachEnded(cs[1..]);
      if HasSuffix(cs[0], "\n") {
        assert cs[0][|cs[0]| - 1..][0] == cs[0][|cs[0]| - 1];
      }
    }
  }

  // ----- The spool -----

  /** The reader's loop. */
  method ReadMBoxMessages(file: string) returns (messages: seq<string>)
    ensures messages == Read(file)
  {
    hide StripCR, Unquote, IsFrom, Blank, TrimNewlines, RawLines, ReadLines, IndexOf, Read;
    ReadStart(file);
    messages := [];
    ghost var all := Read(file);
    assert messages + all == all;
    var rest, cur, have := file, "", false;
    while rest != ""
      invariant messages + ReadLines(RawLines(rest), have, cur) == all
      decreases |rest|
    {
      var i := IndexOf(rest, '\n');
      ReadStep(rest, have, cur);
      var line := if i < |rest| then rest[..i + 1] else rest;
      var next := if i < |rest| then rest[i + 1..] else "";
      rest := next;
      line := StripCR(line);
      if IsFrom(line) {
        if have && !Blank(TrimNewlines(cur)) {
          messages := messages + [TrimNewlines(cur)];
        }
        cur, have := "", true;
        continue;
      }
      if !have {
        continue;
      }
      cur := cur + Unquote(line);
    }
    ReadEnd(have, cur);
    if have && !Blank(TrimNewlines(cur)) {
      messages := messages + [TrimNewlines(cur)];
    }
  }

  lemma ReadStart(file: string)
    ensures Read(file) == ReadLines(RawLines(file), false, "")
  {
  }

  lemma ReadEnd(have: bool, cur: string)
    ensures ReadLines(RawLines(""), have, cur) == Flushed(have, cur)
  {
  }

  /** One line of the reader's loop. */
  lemma ReadStep(s: string, have: bool, cur: string)
    requires s != ""
    ensures var i := IndexOf(s, '\n');
            var line := StripCR(if i < |s| then s[..i + 1] else s);
            var next := RawLines(if i < |s| then s[i + 1..] else "");
            ReadLines(RawLines(s), have, cur) ==
              if IsFrom(line) then Flushed(have, cur) + ReadLines(next, true, "")
              else if !have then ReadLines(next, false, cur)
              else ReadLines(next, true, cur + Unquote(line))
  {
    hide StripCR, Unquote, IsFrom, RawLines, Flushed;
    RawLinesStep(s);
    var i := IndexOf(s, '\n');
    assert RawLines(s)[1..] == RawLines(if i < |s| then s[i + 1..] else "");
  }

  /** The rewriter's loops: entries are cut and filtered, then written back. */
  method RewriteMbox(file: string, drop: set<string>) returns (text: string)
    ensures text == Rewritten(file, drop)
  {
    hide IsFrom, RawLines, Dropped, EndEntry, Kept, ChunkLines;
    var cur, kept := "", [];
    var lines := RawLines(file);
    assert lines[0..] == lines;
    for i := 0 to |lines|
      invariant kept + Kept(ChunkLines(lines[i..], cur), drop) == Kept(Chunks(file), drop)
    {
      ChunkStep(lines[i..], cur);
      assert lines[i..][1..] == lines[i + 1..];
      if IsFrom(lines[i]) && |cur| > 0 {
        KeptCons(cur, ChunkLines(lines[i + 1..], lines[i]), drop);
        if !Dropped(cur, drop) {
          kept := kept + [cur];
        }
        cur := "";
      }
      assert "" + lines[i] == lines[i];
      cur := cur + lines[i];
    }
    assert lines[|lines|..] == [];
    ChunkLinesNone(cur);
    KeptCons(cur, [], drop);
    assert [cur] + [] == [cur];
    if cur != "" && !Dropped(cur, drop) {
      kept := kept + [cur];
    }
    assert kept == Kept(Chunks(file), drop);
    text := "";
    FlattenCons<char>([], []);
    for i := 0 to |kept|
      invariant text == Flatten(EndEach(kept[..i]))
    {
      EndEachSnoc(kept[..i], kept[i]);
      assert kept[..i + 1] == kept[..i] + [kept[i]];
      text := text + EndEntry(kept[i]);
    }
    assert kept[..|kept|] == kept;
  }

  lemma ChunkStep(lines: seq<string>, cur: string)
    requires lines != []
    ensures ChunkLines(lines, cur) ==
              if IsFrom(lines[0]) && cur != "" then [cur] + ChunkLines(lines[1..], lines[0])
              else ChunkLines(lines[1..], cur + lines[0])
  {
  }

  lemma KeptCons(c: string, cs: seq<string>, drop: set<string>)
    ensures Kept([c] + cs, drop) == (if Dropped(c, drop) then [] else [c]) + Kept(cs, drop)
    ensures Kept([], drop) == []
  {
    assert ([c] + cs)[1..] == cs;
  }

  lemma {:induction false} EndEachSnoc(cs: seq<string>, c: string)
    ensures Flatten(EndEach(cs + [c])) == Flatten(EndEach(cs)) + EndEntry(c)
  {
    hide EndEntry;
    if cs == [] {
      assert cs + [c] == [c];
      assert [c][1..] == [];
      FlattenOne(EndEntry(c));
      assert EndEach([c]) == [EndEntry(c)];
    } else {
      EndEachSnoc(cs[1..], c);
      assert (cs + [c])[1..] == cs[1..] + [c];
      FlattenCons(EndEntry(cs[0]), EndEach(cs[1..] + [c]));
      FlattenCons(EndEntry(cs[0]), EndEach(cs[1..]));
    }
  }

  /** One file per group. */
  class MBox {
    var files: map<string, string>

    constructor ()
      ensures files == map[]
    {
      files := map[];
    }

    /** Appends an article to a group's file; the result says where it stands. */
    method Append(group: string, from: string, wire: string, stamp: string) returns (offset: nat, length: nat)
      modifies this`files
      ensures files == old(files)[group := FileOf(old(files), group) + Appended(Envelope(from, stamp), wire)]
      ensures offset == |FileOf(old(files), group)|
      ensures offset + length == |files[group]|
      ensures files[group][offset..offset + length] == Appended(Envelope(from, stamp), wire)
    {
      var file := if group in files then files[group] else "";
      offset := |file|;
      var b := Compose(Envelope(from, stamp), wire);
      length := |b|;
      files := files[group := file + b];
      assert files[group][offset..offset + length] == b;
    }

    /** The text of an appended article, built line by line. */
    static method Compose(env: string, wire: string) returns (b: string)
      ensures b == Appended(env, wire)
    {
      hide LfText, Quote, QuotedText, IsFrom;
      b := env + "\n";
      var parts := Split(LfText(wire), '\n');
      QuotedTextEmpty();
      assert parts[..0] == [];
      for i := 0 to |parts|
        invariant b == env + "\n" + QuotedText(parts[..i])
      {
        QuotedTextAppend(parts[..i], parts[i]);
        assert parts[..i + 1] == parts[..i] + [parts[i]];
        if IsFrom(parts[i]) {
          b := b + ">";
        }
        b := b + parts[i];
        b := b + "\n";
        assert b == env + "\n" + (QuotedText(parts[..i]) + (Quote(parts[i]) + "\n")) by { QuoteIs(parts[i]); }
      }
      assert parts[..|parts|] == parts;
      if !HasSuffix(b, "\n\n") {
        b := b + "\n";
      }

    }

    /** Drops the files of some groups and removes articles from those of others. */
    method Scrub(dropGroups: seq<string>, rewriteGroups: seq<string>, ids: set<string>)
      modifies this`files
      ensures files == Scrubbed(old(files), dropGroups, rewriteGroups, ids)
    {
      hide Rewritten;
      if |dropGroups| == 0 && |ids| == 0 {
        return;
      }
      for i := 0 to |dropGroups|
        invariant files == map g | g in old(files) && g !in dropGroups[..i] :: old(files)[g]
      {
        assert dropGroups[..i + 1] == dropGroups[..i] + [dropGroups[i]];
        files := files - {dropGroups[i]};
      }
      assert dropGroups[..|dropGroups|] == dropGroups;
      if |ids| == 0 {
        return;
      }
      ghost var left := files;
      for i := 0 to |rewriteGroups|
        invariant files.Keys == left.Keys
        invariant forall g | g in left ::
                    files[g] == if g in rewriteGroups[..i] then Rewritten(left[g], ids) else left[g]
      {
        assert rewriteGroups[..i + 1] == rewriteGroups[..i] + [rewriteGroups[i]];
        var g := rewriteGroups[i];
        if g in files {
          RewrittenTwice(left[g], ids);
          var text := RewriteMbox(files[g], ids);
          files := files[g := text];
        }
      }
      assert rewriteGroups[..|rewriteGroups|] == rewriteGroups;
    }
  }

  lemma RewrittenTwice(file: string, drop: set<string>)
    ensures Rewritten(Rewritten(file, drop), drop) == Rewritten(file, drop)
  {
    RewrittenEntries(file, drop);
  }

  lemma QuoteIs(line: string)
    ensures Quote(line) == if IsFrom(line) then ">" + line else line
  {
  }

  lemma QuotedTextEmpty()
    ensures QuotedText([]) == ""
  {
  }

  lemma {:induction false} QuotedTextAppend(parts: seq<string>, p: string)
    ensures QuotedText(parts + [p]) == QuotedText(parts) + (Quote(p) + "\n")
  {
    hide Quote;
    if parts == [] {
      assert parts + [p] == [p];
      assert [p][1..] == [];
    } else {
      QuotedTextAppend(parts[1..], p);
      assert (parts + [p])[1..] == parts[1..] + [p];
    }
  }

  function FileOf(files: map<string, string>, group: string): string {
    if group in files then files[group] else ""
  }

  /** The files after a scrub; without removed articles only the dropped groups go. */
  function Scrubbed(files: map<string, string>, dropGroups: seq<string>, rewriteGroups: seq<string>, ids: set<string>):
    map<string, string>
  {
    map g | g in files && g !in dropGroups ::
      if g in rewriteGroups && ids != {} then Rewritten(files[g], ids) else files[g]
  }

  /** After a scrub no dropped group has a file, a rewritten one has exactly its entries that name no removed
      article, and all other files are as they were. */
  lemma ScrubLeaves(files: map<string, string>, dropGroups: seq<string>, rewriteGroups: seq<string>, ids: set<string>)
    ensures var after := Scrubbed(files, dropGroups, rewriteGroups, ids);
            && (forall g | g in dropGroups :: g !in after)
            && (ids == {} ==> forall g | g in files && g !in dropGroups :: g in after && after[g] == files[g])
            && (forall g | ids != {} && g in files && g !in dropGroups && g in rewriteGroups ::
                  g in after && Chunks(after[g]) == EndEach(Kept(Chunks(files[g]), ids))
                  && forall c | c in Chunks(after[g]) :: !Dropped(c, ids))
            && (forall g | g in files && g !in dropGroups && g !in rewriteGroups :: g in after && after[g] == files[g])
  {
    hide Chunks, Rewritten, Kept, EndEach, Dropped;
    forall g | ids != {} && g in files && g !in dropGroups && g in rewriteGroups
      ensures Chunks(Rewritten(files[g], ids)) == EndEach(Kept(Chunks(files[g]), ids))
      ensures forall c | c in Chunks(Rewritten(files[g], ids)) :: !Dropped(c, ids)
    {
      RewrittenEntries(files[g], ids);
    }
  }
}
