/** Which entries of a spool a rewrite drops, in terms of the articles that were appended. */
module SpoolArticles {
  import opened Text
  import opened Mbox
  import opened Spool
  import A = ArticleText
  import I = Article

  // ----- The lines of an entry -----

  /** A line that gives a removed Message-ID. */
  predicate NamesRemoved(line: string, drop: set<string>) {
    HasFoldedPrefix(line, ID_FIELD) && TrimSpace(line[|ID_FIELD|..]) in drop
  }

  ghost predicate SomeNames(lines: seq<string>, drop: set<string>) {
    exists line :: line in lines && NamesRemoved(line, drop)
  }

  lemma DroppedIs(msg: string, drop: set<string>)
    ensures Dropped(msg, drop) <==> SomeNames(Split(msg, '\n'), drop)
  {
    hide HasFoldedPrefix, TrimSpace, Split;
  }

  lemma SomeNamesAppend(a: seq<string>, b: seq<string>, drop: set<string>)
    ensures SomeNames(a + b, drop) <==> SomeNames(a, drop) || SomeNames(b, drop)
  {
    hide NamesRemoved;
    assert forall line :: line in a + b <==> line in a || line in b;
  }

  lemma SomeNamesOne(line: string, drop: set<string>)
    ensures SomeNames([line], drop) <==> NamesRemoved(line, drop)
  {
    hide NamesRemoved;
  }

  lemma FirstMiss(line: string, drop: set<string>)
    requires line == "" || LowerChar(line[0]) != 'm'
    ensures !NamesRemoved(line, drop)
  {
  }

  /** The quotes of the writer make no difference. */
  lemma QuotedNames(line: string, drop: set<string>)
    ensures NamesRemoved(Quote(line), drop) <==> NamesRemoved(line, drop)
  {
    if IsFrom(line) {
      FromChars(line);
      FirstMiss(line, drop);
      FirstMiss(">" + line, drop);
    }
  }

  /** The lines of written text, and an empty one. */
  lemma {:induction false} QuotedNamed(parts: seq<string>, drop: set<string>)
    requires forall p | p in parts :: '\n' !in p
    ensures SomeNames(Split(QuotedText(parts), '\n'), drop) <==> SomeNames(parts, drop)
  {
    hide NamesRemoved, Split, Quote;
    FirstMiss("", drop);
    SomeNamesOne("", drop);
    if parts == [] {
      SplitFree("", '\n');
    } else {
      var p, rest := parts[0], parts[1..];
      QuoteLine(p);
      assert QuotedText(parts) == Quote(p) + ['\n'] + QuotedText(rest);
      SplitAt(Quote(p), '\n', QuotedText(rest));
      SomeNamesAppend([Quote(p)], Split(QuotedText(rest), '\n'), drop);
      SomeNamesOne(Quote(p), drop);
      QuotedNames(p, drop);
      QuotedNamed(rest, drop);
      SomeNamesOne(p, drop);
      SomeNamesAppend([p], rest, drop);
      assert parts == [p] + rest;
    }
  }

  /** An entry is dropped exactly when a line of its article names a removed ID. */
  lemma AppendedDropped(env: string, wire: string, drop: set<string>)
    requires IsFrom(env) && '\n' !in env
    ensures Dropped(Appended(env, wire), drop) <==> SomeNames(Split(LfText(wire), '\n'), drop)
  {
    var parts := Split(LfText(wire), '\n');
    var q := QuotedText(parts);
    FromChars(env);
    FirstMiss(env, drop);
    hide NamesRemoved, Split, QuotedText, LfText, Dropped, HasSuffix, SomeNames;
    var t := env + ['\n'] + q;
    assert t == env + "\n" + q;
    SplitAt(env, '\n', q);
    SomeNamesAppend([env], Split(q, '\n'), drop);
    SomeNamesOne(env, drop);
    QuotedNamed(parts, drop);
    DroppedIs(t, drop);
    if Appended(env, wire) != t {
      assert Appended(env, wire) == t + ['\n'] + "";
      SplitSnoc(t, '\n', "");
      SomeNamesAppend(Split(t, '\n'), [""], drop);
      SomeNamesOne("", drop);
      FirstMiss("", drop);
      DroppedIs(Appended(env, wire), drop);
    }
  }

  // ----- The lines of an article -----

  /** A header line gives the Message-ID under its name in any case. */
  lemma HeaderNames(k: string, v: string, drop: set<string>)
    requires A.GoodName(k) && A.GoodValue(v)
    ensures NamesRemoved(A.HeaderLine(k, v), drop) <==> IDName(k) && v in drop
  {
    hide TrimSpace, Trimmed, A.Plain;
    var line := A.HeaderLine(k, v);
    assert |ID_FIELD| == 11 && ID_FIELD[10] == ':';
    PrefixIsName(k, v);
    if IDName(k) {
      assert line[11..] == " " + v;
      SpaceTrimmed(v);
    }
  }

  predicate IDName(k: string) {
    |k| == 10 && forall i | 0 <= i < 10 :: LowerChar(k[i]) == ID_FIELD[i]
  }

  lemma PrefixIsName(k: string, v: string)
    requires ':' !in k
    ensures HasFoldedPrefix(A.HeaderLine(k, v), ID_FIELD) <==> IDName(k)
  {
    var line := A.HeaderLine(k, v);
    assert ID_FIELD[10] == ':' && forall i | 0 <= i < 10 :: ID_FIELD[i] != ':';
    assert forall i | 0 <= i < |k| :: line[i] == k[i] && k[i] in k;
    assert line[|k|] == ':';
    if |k| < 10 {
      assert LowerChar(line[|k|]) != ID_FIELD[|k|];
    } else if |k| > 10 {
      assert LowerChar(line[10]) != ID_FIELD[10];
    }
  }

  lemma SpaceTrimmed(v: string)
    requires Trimmed(v)
    ensures TrimSpace(" " + v) == v
  {
    TrimLeftPadded(" ", v);
    TrimSpaceId(v);
  }

  /** Some header in any spelling of Message-ID has a removed value. */
  ghost predicate IDRemoved(h: A.Headers, drop: set<string>) {
    exists k, v :: k in h && IDName(k) && v in h[k] && v in drop
  }

  ghost predicate KeyRemoved(k: string, vs: seq<string>, drop: set<string>) {
    IDName(k) && exists v :: v in vs && v in drop
  }

  /** The lines of one header, with what follows. */
  lemma {:induction false} KeyLines(k: string, vs: seq<string>, rest: string, drop: set<string>)
    requires A.GoodName(k) && forall v | v in vs :: A.GoodValue(v)
    ensures SomeNames(A.SplitLines(A.KeyText(k, vs) + rest), drop) <==> KeyRemoved(k, vs, drop) || SomeNames(A.SplitLines(rest), drop)
  {
    hide NamesRemoved, A.SplitLines, A.GoodName, A.GoodValue, IDName, A.HeaderLine, SomeNames;
    if vs == [] {
      assert A.KeyText(k, vs) + rest == rest;
    } else {
      var line, more := A.HeaderLine(k, vs[0]), A.KeyText(k, vs[1..]) + rest;
      assert A.KeyText(k, vs) + rest == line + A.CRLF + more;
      assert vs == [vs[0]] + vs[1..];
      LinePlain(k, vs[0]);
      A.SplitLinesAt(line, more);
      KeyLines(k, vs[1..], rest, drop);
      SomeNamesAppend([line], A.SplitLines(more), drop);
      SomeNamesOne(line, drop);
      HeaderNames(k, vs[0], drop);
    }
  }

  lemma LinePlain(k: string, v: string)
    requires A.GoodName(k) && A.GoodValue(v)
    ensures A.Plain(A.HeaderLine(k, v))
  {
  }

  ghost predicate SomeKeyRemoved(h: A.Headers, ks: seq<string>, drop: set<string>)
    requires forall k | k in ks :: k in h
  {
    exists k :: k in ks && KeyRemoved(k, h[k], drop)
  }

  lemma {:induction false} HeaderLines(h: A.Headers, ks: seq<string>, rest: string, drop: set<string>)
    requires A.WellFormed(h) && forall k | k in ks :: k in h
    ensures SomeNames(A.SplitLines(A.HeaderText(h, ks) + rest), drop) <==>
              SomeKeyRemoved(h, ks, drop) || SomeNames(A.SplitLines(rest), drop)
  {
    hide A.SplitLines, SomeNames, KeyRemoved, A.KeyText, A.GoodName, A.GoodValue;
    if ks == [] {
      assert A.HeaderText(h, ks) + rest == rest;
    } else {
      var k, tail := ks[0], A.HeaderText(h, ks[1..]) + rest;
      assert A.HeaderText(h, ks) + rest == A.KeyText(k, h[k]) + tail;
      assert forall x :: x in ks <==> x == k || x in ks[1..];
      HeaderLines(h, ks[1..], rest, drop);
      KeyLines(k, h[k], tail, drop);
    }
  }

  /** Some line of the body, as it is written, gives a removed Message-ID. */
  ghost predicate Quotes(body: string, drop: set<string>) {
    SomeNames(A.SplitLines(body), drop)
  }

  lemma BodyLines(body: string, drop: set<string>)
    requires A.CrlfOnly(body)
    ensures SomeNames(A.SplitLines(A.CRLF + A.EndedBody(body)), drop) <==> Quotes(body, drop)
  {
    FirstMiss("", drop);
    hide NamesRemoved, A.SplitLines, A.CrlfOnly, SomeNames;
    var rest := A.EndedBody(body);
    assert A.CRLF + rest == "" + A.CRLF + rest;
    A.SplitLinesAt("", rest);
    SomeNamesAppend([""], A.SplitLines(rest), drop);
    SomeNamesOne("", drop);
    assert body + A.CRLF == body + A.CRLF + "";
    SplitLinesJoin(body, "");
    A.SplitLinesOne("");
    SomeNamesAppend(A.SplitLines(body), [""], drop);
  }

  /** The entry of an article is dropped exactly when a header in some spelling of Message-ID has a removed value, or a
      line of its body reads like such a header. */
  lemma ArticleDroppedIff(env: string, h: A.Headers, ks: seq<string>, body: string, drop: set<string>)
    requires IsFrom(env) && '\n' !in env
    requires A.WellFormed(h) && A.Enumerates(ks, h) && A.CrlfOnly(body)
    ensures Dropped(Appended(env, A.Serialize(h, ks, body)), drop) <==> IDRemoved(h, drop) || Quotes(body, drop)
  {
    hide A.SplitLines, SomeNames, A.CrlfOnly, Dropped, IsFrom, A.HeaderText, A.EndedBody, LfText, Appended, Quotes, IDName;
    var wire := A.Serialize(h, ks, body);
    AppendedDropped(env, wire, drop);
    A.SerializedCrlf(h, ks, body);
    LfLines(wire);
    assert wire == A.HeaderText(h, ks) + (A.CRLF + A.EndedBody(body));
    HeaderLines(h, ks, A.CRLF + A.EndedBody(body), drop);
    BodyLines(body, drop);
  }

  /** Of an article as servers store it, that is its Message-ID. */
  lemma StoredID(h: A.Headers, drop: set<string>)
    requires I.Numbered(h)
    ensures IDRemoved(h, drop) <==> h["Message-ID"][0] in drop
  {
    hide I.ValidMessageID, TrimSpace;
    var id := h["Message-ID"][0];
    forall k | k in h && IDName(k)
      ensures k == "Message-ID"
    {
      IDNameFolds(k);
      I.EqualFoldSame("Message-ID");
    }
    assert h["Message-ID"] == [id];
    assert IDName("Message-ID") by { StandardName(); }
  }

  lemma StandardName()
    ensures IDName("Message-ID")
  {
  }

  lemma IDNameFolds(k: string)
    requires IDName(k)
    ensures EqualFold(k, "Message-ID")
  {
    StandardName();
    forall i | 0 <= i < 10
      ensures FoldChar(k[i]) == FoldChar("Message-ID"[i])
    {
      assert LowerChar(k[i]) == LowerChar("Message-ID"[i]);
    }
    assert Fold(k) == Fold("Message-ID");
  }

  // ----- The file of a group -----

  /** An article as it was appended, with its envelope. */
  datatype Filed = Filed(env: string, headers: A.Headers, order: seq<string>, body: string)

  ghost predicate FiledOk(f: Filed) {
    && IsFrom(f.env) && '\n' !in f.env
    && A.WellFormed(f.headers) && A.Enumerates(f.order, f.headers) && A.CrlfOnly(f.body)
  }

  ghost function EntryOf(f: Filed): string
    requires FiledOk(f)
  {
    Appended(f.env, A.Serialize(f.headers, f.order, f.body))
  }

  ghost function FileOfAll(fs: seq<Filed>): string
    requires forall f | f in fs :: FiledOk(f)
  {
    if fs == [] then "" else EntryOf(fs[0]) + FileOfAll(fs[1..])
  }

  ghost function EntriesOf(fs: seq<Filed>): seq<string>
    requires forall f | f in fs :: FiledOk(f)
  {
    if fs == [] then [] else [EntryOf(fs[0])] + EntriesOf(fs[1..])
  }

  /** The articles whose Message-ID is not removed. */
  ghost function NotRemoved(fs: seq<Filed>, drop: set<string>): (r: seq<Filed>)
    ensures forall f | f in r :: f in fs
  {
    if fs == [] then []
    else (if IDRemoved(fs[0].headers, drop) then [] else [fs[0]]) + NotRemoved(fs[1..], drop)
  }

  /** No kept article has a line in its body that reads like the Message-ID of a removed one. */
  ghost predicate NoneQuotes(fs: seq<Filed>, drop: set<string>) {
    forall f | f in fs && !IDRemoved(f.headers, drop) :: !Quotes(f.body, drop)
  }

  /** What is appended is one entry. */
  lemma AppendedIsEntry(env: string, wire: string)
    requires IsFrom(env) && '\n' !in env
    ensures OneEntry(Appended(env, wire)) && IsFrom(Appended(env, wire)) && Ended(Appended(env, wire))
  {
    hide IsFrom, RawLines, IsLine, Ended, Split, QuotedText, LfText, Read, Blank, Message, Flatten;
    var c := Appended(env, wire);
    ReadAppended(env, wire);
    RawLinesPieces(c);
    var parts := Split(LfText(wire), '\n');
    var pad := if HasSuffix(env + "\n" + QuotedText(parts), "\n\n") then "" else "\n";
    assert c == env + "\n" + (QuotedText(parts) + pad);
    RawLinesOne(env, QuotedText(parts) + pad);
    QuotedNoFrom(parts, pad);
    assert RawLines(c)[1..] == RawLines(QuotedText(parts) + pad);
    assert EntryLines(RawLines(c));
  }

  lemma {:induction false} QuotedNoFrom(parts: seq<string>, pad: string)
    requires (forall p | p in parts :: '\n' !in p) && (pad == "" || pad == "\n")
    ensures NoFrom(RawLines(QuotedText(parts) + pad))
  {
    hide RawLines, IsFrom, Quote;
    RawLinesEmpty();
    if parts == [] {
      assert QuotedText(parts) + pad == pad;
      if pad == "\n" {
        assert "" + "\n" + "" == pad;
        RawLinesOne("", "");
        NotFrom();
      }
    } else {
      QuoteLine(parts[0]);
      assert QuotedText(parts) + pad == Quote(parts[0]) + "\n" + (QuotedText(parts[1..]) + pad);
      RawLinesOne(Quote(parts[0]), QuotedText(parts[1..]) + pad);
      QuotedIsNoFrom(parts[0]);
      StripCRFrom(Quote(parts[0]) + "\n");
      QuotedNoFrom(parts[1..], pad);
    }
  }

  lemma NotFrom()
    ensures !IsFrom("" + "\n")
  {
  }

  lemma {:induction false} FileEntries(fs: seq<Filed>)
    requires forall f | f in fs :: FiledOk(f)
    ensures Shape(EntriesOf(fs)) && Flatten(EntriesOf(fs)) == FileOfAll(fs)
    ensures fs != [] ==> IsFrom(EntriesOf(fs)[0])
  {
    hide OneEntry, IsFrom, Ended, Appended, A.Serialize;
    if fs != [] {
      assert FiledOk(fs[0]);
      FileEntries(fs[1..]);
      AppendedIsEntry(fs[0].env, A.Serialize(fs[0].headers, fs[0].order, fs[0].body));
      ShapeCons(EntryOf(fs[0]), EntriesOf(fs[1..]));
      FlattenCons(EntryOf(fs[0]), EntriesOf(fs[1..]));
    } else {
      FlattenCons<char>([], []);
    }
  }

  lemma FiledCons(f: Filed, fs: seq<Filed>)
    requires FiledOk(f) && forall g | g in fs :: FiledOk(g)
    ensures EntriesOf([f] + fs) == [EntryOf(f)] + EntriesOf(fs)
    ensures FileOfAll([f] + fs) == EntryOf(f) + FileOfAll(fs)
  {
    hide FiledOk, EntryOf;
    assert ([f] + fs)[1..] == fs;
  }

  /** The entries that a rewrite keeps. */
  ghost function KeptOf(fs: seq<Filed>, drop: set<string>): (r: seq<Filed>)
    requires forall f | f in fs :: FiledOk(f)
    ensures forall f | f in r :: f in fs
  {
    if fs == [] then []
    else (if Dropped(EntryOf(fs[0]), drop) then [] else [fs[0]]) + KeptOf(fs[1..], drop)
  }

  lemma {:induction false} KeptEntries(fs: seq<Filed>, drop: set<string>)
    requires forall f | f in fs :: FiledOk(f)
    ensures EndEach(Kept(EntriesOf(fs), drop)) == EntriesOf(KeptOf(fs, drop))
  {
    hide OneEntry, IsFrom, Dropped, EntryOf, FiledOk, EndEntry, EntriesOf;
    if fs == [] {
      NoEntries();
    } else {
      var f, rest := fs[0], fs[1..];
      var e, kept := EntryOf(f), Kept(EntriesOf(rest), drop);
      KeptEntries(rest, drop);
      FiledCons(f, rest);
      assert fs == [f] + rest;
      KeptCons(e, EntriesOf(rest), drop);
      EntryEnded(f);
      if Dropped(e, drop) {
        assert KeptOf(fs, drop) == KeptOf(rest, drop);
        assert Kept(EntriesOf(fs), drop) == kept;
      } else {
        FiledCons(f, KeptOf(rest, drop));
        assert KeptOf(fs, drop) == [f] + KeptOf(rest, drop);
        assert ([e] + kept)[1..] == kept;
        assert EndEach([e] + kept) == [EndEntry(e)] + EndEach(kept);
      }
    }
  }

  lemma NoEntries()
    ensures EntriesOf([]) == [] && EndEach([]) == [] && forall drop :: Kept([], drop) == []
  {
  }

  lemma EntryEnded(f: Filed)
    requires FiledOk(f)
    ensures EndEntry(EntryOf(f)) == EntryOf(f) && EntryOf(f) != ""
  {
    hide OneEntry, IsFrom, Appended, A.Serialize;
    AppendedIsEntry(f.env, A.Serialize(f.headers, f.order, f.body));
    FromChars(EntryOf(f));
    EndedSuffix(EntryOf(f));
  }

  /** A rewritten file of appended articles is what appending the kept ones gives. */
  lemma RewrittenIs(fs: seq<Filed>, drop: set<string>)
    requires forall f | f in fs :: FiledOk(f)
    ensures Rewritten(FileOfAll(fs), drop) == FileOfAll(KeptOf(fs, drop))
  {
    hide Shape, Flatten, Chunks, EndEach, Kept, FiledOk, FileOfAll, EntriesOf, KeptOf;
    FileEntries(fs);
    ChunksOfEntries(EntriesOf(fs));
    KeptEntries(fs, drop);
    FileEntries(KeptOf(fs, drop));
  }

  /** Every removed article's entry is dropped, and the file is as short as that only if no other one is. */
  lemma {:induction false} KeptIff(fs: seq<Filed>, drop: set<string>)
    requires forall f | f in fs :: FiledOk(f)
    ensures |FileOfAll(KeptOf(fs, drop))| <= |FileOfAll(NotRemoved(fs, drop))|
    ensures if NoneQuotes(fs, drop) then KeptOf(fs, drop) == NotRemoved(fs, drop)
            else |FileOfAll(KeptOf(fs, drop))| < |FileOfAll(NotRemoved(fs, drop))|
  {
    hide FiledOk, IDRemoved, Quotes, Dropped, EntryOf, FileOfAll, KeptOf, NotRemoved, NoneQuotes;
    if fs == [] {
      NothingSifted(drop);
    } else {
      var f, rest := fs[0], fs[1..];
      KeptIff(rest, drop);
      FiledDropped(f, drop);
      EntryEnded(f);
      Sifted(f, rest, drop);
      FiledCons(f, KeptOf(rest, drop));
      FiledCons(f, NotRemoved(rest, drop));
      assert fs == [f] + rest;
    }
  }

  lemma NothingSifted(drop: set<string>)
    ensures KeptOf([], drop) == NotRemoved([], drop) == [] && NoneQuotes([], drop)
  {
  }

  lemma Sifted(f: Filed, fs: seq<Filed>, drop: set<string>)
    requires FiledOk(f) && forall g | g in fs :: FiledOk(g)
    ensures KeptOf([f] + fs, drop) == if Dropped(EntryOf(f), drop) then KeptOf(fs, drop) else [f] + KeptOf(fs, drop)
    ensures NotRemoved([f] + fs, drop) == if IDRemoved(f.headers, drop) then NotRemoved(fs, drop) else [f] + NotRemoved(fs, drop)
    ensures NoneQuotes([f] + fs, drop) <==> (IDRemoved(f.headers, drop) || !Quotes(f.body, drop)) && NoneQuotes(fs, drop)
  {
    hide FiledOk, IDRemoved, Quotes, Dropped, EntryOf;
    assert ([f] + fs)[1..] == fs;
    assert forall x :: x in [f] + fs <==> x == f || x in fs;
  }

  lemma FiledDropped(f: Filed, drop: set<string>)
    requires FiledOk(f)
    ensures Dropped(EntryOf(f), drop) <==> IDRemoved(f.headers, drop) || Quotes(f.body, drop)
  {
    hide IDRemoved, Quotes, Dropped, Appended, A.Serialize, IsFrom;
    ArticleDroppedIff(f.env, f.headers, f.order, f.body, drop);
  }

  /** A rewrite leaves the file that appending the other articles gives, exactly when no article that is not removed
      has a line in its body that reads like the Message-ID of a removed one. */
  lemma RewriteExactIff(fs: seq<Filed>, drop: set<string>)
    requires forall f | f in fs :: FiledOk(f)
    ensures Rewritten(FileOfAll(fs), drop) == FileOfAll(NotRemoved(fs, drop)) <==> NoneQuotes(fs, drop)
  {
    hide FiledOk, Rewritten, FileOfAll, KeptOf, NotRemoved, NoneQuotes;
    RewrittenIs(fs, drop);
    KeptIff(fs, drop);
  }

  /** An article whose body quotes the Message-ID header of a removed one loses its entry. */
  lemma QuotingLosesEntry(f: Filed)
    requires FiledOk(f) && f.body == "Message-ID: <a@b>\r\n" && !IDRemoved(f.headers, {"<a@b>"})
    ensures NotRemoved([f], {"<a@b>"}) == [f] && Rewritten(FileOfAll([f]), {"<a@b>"}) == ""
  {
    hide IDRemoved, FiledOk, EntryOf, Rewritten, FileOfAll, Quotes, Dropped, KeptOf, NotRemoved;
    var drop := {"<a@b>"};
    ExampleQuotes(f.body, drop);
    FiledDropped(f, drop);
    assert [f] == [f] + [];
    Sifted(f, [], drop);
    NothingSifted(drop);
    RewrittenIs([f], drop);
    EmptyFile();
  }

  lemma EmptyFile()
    ensures FileOfAll([]) == ""
  {
  }

  lemma ExampleQuotes(body: string, drop: set<string>)
    requires body == "Message-ID: <a@b>\r\n" && drop == {"<a@b>"}
    ensures Quotes(body, drop)
  {
    ExampleGood();
    hide NamesRemoved, A.SplitLines, A.GoodName, A.GoodValue, SomeNames;
    var line := A.HeaderLine("Message-ID", "<a@b>");
    LinePlain("Message-ID", "<a@b>");
    StandardName();
    HeaderNames("Message-ID", "<a@b>", drop);
    assert body == line + A.CRLF + "";
    A.SplitLinesAt(line, "");
    SomeNamesAppend([line], A.SplitLines(""), drop);
    SomeNamesOne(line, drop);
  }

  lemma ExampleGood()
    ensures A.GoodName("Message-ID") && A.GoodValue("<a@b>")
  {
  }
}
