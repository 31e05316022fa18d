/** Wildcard matching of group names (section 4 of RFC 3977): the program's matcher decides the
    declarative meaning of `*` and `?`, and a wildmat decides by its rightmost matching element. */
module Wildmat {
  import opened Text

  // ----- Meaning of one pattern -----

  /** The text that the pieces spell. */
  ghost function Concat(pieces: seq<string>): string {
    if pieces == [] then "" else pieces[0] + Concat(pieces[1..])
  }

  /** `*` stands for any piece, `?` for any one character, another character for itself. */
  ghost predicate Stands(p: char, piece: string) {
    p == '*' || (|piece| == 1 && (p == '?' || piece[0] == p))
  }

  ghost predicate Spells(pat: string, pieces: seq<string>, s: string) {
    && |pieces| == |pat|
    && (forall i | 0 <= i < |pat| :: Stands(pat[i], pieces[i]))
    && Concat(pieces) == s
  }

  /** A pattern matches a text when the text can be cut into one piece per pattern character. */
  ghost predicate Denotes(pat: string, s: string) {
    exists pieces: seq<string> :: Spells(pat, pieces, s)
  }

  lemma {:induction false} ConcatAppend(a: seq<string>, b: seq<string>)
    ensures Concat(a + b) == Concat(a) + Concat(b)
  {
    if a == [] {
      assert a + b == b;
    } else {
      ConcatAppend(a[1..], b);
      assert (a + b)[1..] == a[1..] + b;
      assert (a + b)[0] == a[0];
    }
  }

  /** Concatenated patterns match exactly the texts that split into a match of each. */
  lemma DenotesConcat(p: string, q: string, s: string)
    ensures Denotes(p + q, s) <==> exists i :: 0 <= i <= |s| && Denotes(p, s[..i]) && Denotes(q, s[i..])
  {
    if Denotes(p + q, s) {
      var pieces :| Spells(p + q, pieces, s);
      var a, b := pieces[..|p|], pieces[|p|..];
      assert a + b == pieces;
      ConcatAppend(a, b);
      var i := |Concat(a)|;
      assert s[..i] == Concat(a) && s[i..] == Concat(b);
      forall k | 0 <= k < |q|
        ensures Stands(q[k], b[k])
      {
        assert (p + q)[|p| + k] == q[k];
      }
      assert forall k | 0 <= k < |p| :: (p + q)[k] == p[k];
      assert Spells(p, a, s[..i]) && Spells(q, b, s[i..]);
    }
    if i :| 0 <= i <= |s| && Denotes(p, s[..i]) && Denotes(q, s[i..]) {
      var a :| Spells(p, a, s[..i]);
      var b :| Spells(q, b, s[i..]);
      ConcatAppend(a, b);
      assert s == s[..i] + s[i..];
      assert Spells(p + q, a + b, s);
    }
  }

  lemma DenotesEmpty(s: string)
    ensures Denotes("", s) <==> s == ""
  {
    assert Concat([]) == "";
    if s == "" {
      assert Spells("", [], s);
    }
  }

  lemma DenotesChar(p: char, s: string)
    ensures Denotes([p], s) <==> Stands(p, s)
  {
    if Denotes([p], s) {
      var pieces :| Spells([p], pieces, s);
      assert pieces == [pieces[0]];
      assert Concat(pieces) == pieces[0] + Concat([]);
    }
    if Stands(p, s) {
      assert Concat([s]) == s + Concat([]);
      assert Spells([p], [s], s);
    }
  }

  /** One pattern character followed by the rest of the pattern. */
  lemma DenotesCons(pat: string, s: string)
    requires pat != ""
    ensures Denotes(pat, s) <==> exists i :: 0 <= i <= |s| && Stands(pat[0], s[..i]) && Denotes(pat[1..], s[i..])
  {
    assert pat == [pat[0]] + pat[1..];
    DenotesConcat([pat[0]], pat[1..], s);
    forall i | 0 <= i <= |s|
      ensures Denotes([pat[0]], s[..i]) <==> Stands(pat[0], s[..i])
    {
      DenotesChar(pat[0], s[..i]);
    }
  }

  lemma DenotesStep(pat: string, s: string)
    requires pat != "" && pat[0] != '*'
    ensures Denotes(pat, s) <==> s != "" && (pat[0] == '?' || pat[0] == s[0]) && Denotes(pat[1..], s[1..])
  {
    DenotesCons(pat, s);
    if s != "" {
      assert s[..1][0] == s[0];
    }
  }

  /** The program's matcher: walks both strings, recursing at each `*`. */
  method MatchRunes(pattern: string, text: string) returns (b: bool)
    ensures b <==> Denotes(pattern, text)
    decreases |pattern|
  {
    var pat, s := pattern, text;
    while true
      invariant |pat| <= |pattern|
      invariant Denotes(pattern, text) <==> Denotes(pat, s)
      decreases |pat|
    {
      if |pat| == 0 {
        DenotesEmpty(s);
        return |s| == 0;
      }
      if pat[0] == '*' {
        DenotesCons(pat, s);
        for i := 0 to |s| + 1
          invariant forall j | 0 <= j < i :: !Denotes(pat[1..], s[j..])
        {
          var hit := MatchRunes(pat[1..], s[i..]);
          if hit {
            assert Stands(pat[0], s[..i]);
            return true;
          }
        }
        return false;
      } else if pat[0] == '?' {
        DenotesStep(pat, s);
        if |s| == 0 {
          return false;
        }
        pat, s := pat[1..], s[1..];
      } else {
        DenotesStep(pat, s);
        if |s| == 0 || pat[0] != s[0] {
          return false;
        }
        pat, s := pat[1..], s[1..];
      }
    }
  }

  // ----- Wildmats -----

  predicate Negated(element: string) {
    HasPrefix(element, "!") || HasPrefix(element, "@")
  }

  function PatternOf(element: string): string {
    if Negated(element) then element[1..] else element
  }

  /** An element of a wildmat counts for `s` when its pattern is not empty and matches. */
  ghost predicate Hits(element: string, s: string) {
    PatternOf(element) != "" && Denotes(PatternOf(element), s)
  }

  /** Element `k` decides: it is the rightmost one that counts. */
  ghost predicate Decides(elements: seq<string>, s: string, k: int) {
    && 0 <= k < |elements|
    && Hits(elements[k], s)
    && forall j | k < j < |elements| :: !Hits(elements[j], s)
  }

  /** A wildmat matches when its rightmost counting element is not negated. */
  ghost predicate Matches(wildmat: string, s: string) {
    exists k :: Decides(Split(wildmat, ','), s, k) && !Negated(Split(wildmat, ',')[k])
  }

  /** The program's wildmat matcher. */
  method Match(wildmat: string, s: string) returns (b: bool)
    ensures b <==> Matches(wildmat, s)
  {
    ghost var es := Split(wildmat, ',');
    if wildmat == "" {
      assert es == [""];
      return false;
    }
    var matched, found := false, false;
    var elements := Split(wildmat, ',');
    for i := 0 to |elements|
      invariant found <==> exists k :: Decides(elements[..i], s, k)
      invariant forall k | Decides(elements[..i], s, k) :: matched == !Negated(elements[k])
    {
      var p := elements[i];
      var neg := false;
      ghost var before, after := elements[..i], elements[..i + 1];
      assert after == before + [p];
      if HasPrefix(p, "!") || HasPrefix(p, "@") {
        neg := true;
        p := p[1..];
      }
      assert p == PatternOf(elements[i]) && neg == Negated(elements[i]);
      var hit := false;
      if p != "" {
        hit := MatchRunes(p, s);
        if hit {
          found := true;
          matched := !neg;
        }
      }
      DecidesExtend(before, elements[i], s);
      assert hit ==> Decides(after, s, |before|);
      assert !hit ==> forall k :: Decides(after, s, k) <==> Decides(before, s, k);
    }
    assert elements[..|elements|] == elements;
    b := found && matched;
  }

  /** How one more element on the right changes which element decides. */
  lemma DecidesExtend(before: seq<string>, e: string, s: string)
    ensures forall k :: Decides(before + [e], s, k) <==> if Hits(e, s) then k == |before| else Decides(before, s, k)
  {
    var after := before + [e];
    assert after[|before|] == e;
    forall k
      ensures Decides(after, s, k) <==> if Hits(e, s) then k == |before| else Decides(before, s, k)
    {
      if 0 <= k < |before| {
        assert after[k] == before[k];
        assert forall j | k < j < |before| :: after[j] == before[j];
      }
    }
  }

  /** Appending an element: a pattern that matches decides alone, one that does not changes nothing. */
  lemma MatchesAppend(wildmat: string, e: string, s: string)
    requires ',' !in e
    ensures Matches(wildmat + "," + e, s) <==> if Hits(e, s) then !Negated(e) else Matches(wildmat, s)
  {
    var es := Split(wildmat, ',');
    SplitSnoc(wildmat, ',', e);
    assert wildmat + "," + e == wildmat + [','] + e;
    DecidesExtend(es, e, s);
    if Hits(e, s) {
      assert Decides(es + [e], s, |es|);
    } else {
      if k :| Decides(es, s, k) && !Negated(es[k]) {
        assert Decides(es + [e], s, k) && (es + [e])[k] == es[k];
      }
    }
  }

  /** An element is poison for `s` when it is an `@` pattern that matches. */
  ghost predicate PoisonHit(element: string, s: string) {
    HasPrefix(element, "@") && Hits(element, s)
  }

  /** The program's poison test. */
  method Poisoned(wildmat: string, s: string) returns (b: bool)
    ensures b <==> exists e :: e in Split(wildmat, ',') && PoisonHit(e, s)
  {
    if wildmat == "" {
      assert Split(wildmat, ',') == [""];
      return false;
    }
    var elements := Split(wildmat, ',');
    for i := 0 to |elements|
      invariant forall j | 0 <= j < i :: !PoisonHit(elements[j], s)
    {
      var p := elements[i];
      if HasPrefix(p, "@") {
        p := p[1..];
        if p != "" {
          var hit := MatchRunes(p, s);
          if hit {
            assert PoisonHit(elements[i], s);
            return true;
          }
        }
      }
    }
    return false;
  }

  // ----- What a wildmat says -----

  /** One pattern character: `*` matches every text, `?` the texts of one character, another one itself. */
  lemma OneCharacter(c: char, s: string)
    ensures Denotes([c], s) <==> c == '*' || (|s| == 1 && (c == '?' || s == [c]))
    ensures Denotes("", s) <==> s == ""
  {
    DenotesChar(c, s);
    DenotesEmpty(s);
  }

  /** A wildmat of one element: a pattern matches what it denotes, a pattern behind `!` or `@` nothing. */
  lemma OneElement(e: string, s: string)
    requires ',' !in e
    ensures Matches(e, s) <==> e != "" && e[0] != '!' && e[0] != '@' && Denotes(e, s)
  {
    hide Denotes;
    SplitFree(e, ',');
    ElementIs(e, s);
    assert Decides([e], s, 0) <==> Hits(e, s);
  }

  lemma ElementIs(e: string, s: string)
    ensures Negated(e) <==> e != "" && (e[0] == '!' || e[0] == '@')
    ensures Hits(e, s) <==> var p := if e != "" && (e[0] == '!' || e[0] == '@') then e[1..] else e; p != "" && Denotes(p, s)
  {
    hide Denotes;
    assert e != "" ==> e[..1] == [e[0]];
  }

  /** One more element at the end: where its pattern matches, a text is taken or, behind `!` or `@`, left out; where
      it does not match or there is none, the wildmat says what it said before. */
  lemma LastElement(wildmat: string, e: string, s: string)
    requires ',' !in e
    ensures e == "" || e == "!" || e == "@" ==> (Matches(wildmat + "," + e, s) <==> Matches(wildmat, s))
    ensures |e| > 1 && (e[0] == '!' || e[0] == '@') ==>
              (Matches(wildmat + "," + e, s) <==> !Denotes(e[1..], s) && Matches(wildmat, s))
    ensures e != "" && e[0] != '!' && e[0] != '@' ==>
              (Matches(wildmat + "," + e, s) <==> Denotes(e, s) || Matches(wildmat, s))
  {
    hide Denotes, Matches;
    ElementIs(e, s);
    MatchesAppend(wildmat, e, s);
  }

  /** The poison test asks for an `@` with a pattern that matches. */
  lemma PoisonIs(e: string, s: string)
    ensures PoisonHit(e, s) <==> |e| > 1 && e[0] == '@' && Denotes(e[1..], s)
  {
    hide Denotes;
    ElementIs(e, s);
    assert e != "" ==> e[..1] == [e[0]];
  }
}
