/** What the texts about a peer say: defaults, fragments, continued lines, and lines that name a peer or this server. */
module InnText {
  import opened Text
  import opened InnPeer
  import D = Decimal

  // ----- Defaults -----

  /** Empty fields get values that INN accepts; the two hosts stand in for each other, and the name is the first label
      of the host to connect to. */
  lemma DefaultsAre(s: Spec)
    ensures var d := Defaulted(s);
            && (TrimSpace(s.outgoingHost) != "" ==> d.outgoingHost == TrimSpace(s.outgoingHost))
            && (TrimSpace(s.outgoingHost) == "" ==> d.outgoingHost == TrimSpace(s.incomingHost))
            && (TrimSpace(s.incomingHost) != "" ==> d.incomingHost == TrimSpace(s.incomingHost))
            && (TrimSpace(s.incomingHost) == "" ==> d.incomingHost == d.outgoingHost)
            && d.port == (if s.port <= 0 then 119 else s.port)
            && d.patterns == (if s.patterns == "" then "*" else s.patterns)
            && d.flags == (if s.flags == "" then "Tm" else s.flags)
            && d.pathToken == TrimSpace(s.pathToken) && d.distributions == s.distributions && d.password == s.password
            && (TrimSpace(s.name) != "" ==> d.name == TrimSpace(s.name))
            && (TrimSpace(s.name) == "" && d.outgoingHost == "" ==> d.name == "peer")
  {
    hide TrimSpace, IndexOf;
    NoHost();
  }

  lemma NoHost()
    ensures TrimSpace("") == ""
  {
    TrimSpaceId("");
  }

  /** A peer without a name is called by its host up to the first dot, or by the whole host if it has no dot. */
  lemma NameIs(s: Spec, front: string, rest: string)
    requires TrimSpace(s.name) == "" && front != "" && '.' !in front
    ensures TrimSpace(s.outgoingHost) == front + "." + rest ==> Defaulted(s).name == front
    ensures TrimSpace(s.outgoingHost) == front ==> Defaulted(s).name == front
  {
    SlugIs(TrimSpace(s.outgoingHost), front, rest);
    hide SlugName, TrimSpace;
  }

  lemma SlugIs(host: string, front: string, rest: string)
    requires Trimmed(host) && front != "" && '.' !in front
    ensures host == front + "." + rest || host == front ==> SlugName(host) == front
  {
    TrimSpaceId(host);
    hide TrimSpace;
    assert front + "." + rest == front + ['.'] + rest;
    IndexOfAt(front, '.', rest);
    hide IndexOf;
    assert (front + "." + rest)[..|front|] == front;
    assert IndexOf(front, '.') == |front|;
  }

  // ----- Fragments -----

  /** The three fragments of a peer whose fields are filled in. */
  lemma FragmentsAre(s: Spec)
    requires Defaulted(s) == s
    ensures FormatIncoming(s) ==
            ("peer " + s.name + " {") + "\n" + ("    " + "hostname" + ":" + "       " + s.incomingHost) + "\n"
            + (if TrimSpace(s.password) != "" then ("    " + "password" + ":" + "       " + s.password) + "\n" else "") + "}" + "\n"
    ensures FormatInnfeed(s) ==
            ("peer " + s.name + " {") + "\n" + ("    " + "ip-name" + ":" + "        " + s.outgoingHost) + "\n"
            + ("    " + "port-number" + ":" + "    " + D.Format(s.port)) + "\n" + "}" + "\n"
    ensures FormatNewsfeeds(s) ==
            (if s.pathToken != "" then s.name + "/" + s.pathToken else s.name) + ":" + s.patterns
            + (if s.distributions != "" then "/" + s.distributions else "") + ":" + s.flags + ":innfeed!" + "\n"
  {
    hide Defaulted, TrimSpace, D.Format;
  }

  // ----- Continued lines -----

  /** A line as the reader of lines takes it. */
  predicate Short(line: string) {
    '\n' !in line && '\r' !in line && OctetLength(line) < 1_048_576
  }

  lemma ScanCons(line: string, rest: string)
    requires Short(line)
    ensures ScanLines(line + "\n" + rest) == [line] + ScanLines(rest)
  {
    var text := line + "\n" + rest;
    assert text == line + ['\n'] + rest;
    IndexOfAt(line, '\n', rest);
    assert text[..|line|] == line && text[|line| + 1..] == rest;
    assert line != "" ==> line[|line| - 1] in line;
  }

  lemma {:induction false} TrimEndPadded(l: string, pad: string, cut: set<char>)
    requires forall c | c in pad :: c in cut
    ensures TrimEnd(l + pad, cut) == TrimEnd(l, cut)
  {
    if pad == "" {
      assert l + pad == l;
    } else {
      var k := |pad| - 1;
      assert pad[k] in pad && (l + pad)[..|l| + k] == l + pad[..k];
      TrimEndPadded(l, pad[..k], cut);
    }
  }

  /** A line that ends in a backslash, before or behind blanks, is continued by the next: what stands in front of the
      backslash, without blanks at its end, and the next line, trimmed, are one line. */
  lemma ContinuedIs(l: string, pad: string, m: string, rest: string)
    requires l != "" && l[|l| - 1] != ' ' && l[|l| - 1] != '\t' && (forall c | c in pad :: c == ' ' || c == '\t')
    requires Short(l + pad + "\\") && Short(m) && Short(l + TrimSpace(m))
    ensures UnfoldContinued(l + pad + "\\" + "\n" + m + "\n" + rest) == UnfoldContinued(l + TrimSpace(m) + "\n" + rest)
  {
    hide *;
    var first, joined := l + pad + "\\", l + TrimSpace(m);
    ScanCons(first, m + "\n" + rest);
    assert first + "\n" + m + "\n" + rest == first + "\n" + (m + "\n" + rest);
    ScanCons(m, rest);
    ScanCons(joined, rest);
    UnfoldTwo(l, pad, m, ScanLines(rest));
    assert [first] + ([m] + ScanLines(rest)) == [first, m] + ScanLines(rest);
    UnfoldIs(first + "\n" + m + "\n" + rest);
    UnfoldIs(joined + "\n" + rest);
  }

  lemma UnfoldIs(text: string)
    ensures UnfoldContinued(text) == Unfolded(ScanLines(text), "")
  {
  }

  lemma UnfoldTwo(l: string, pad: string, m: string, more: seq<string>)
    requires l != "" && l[|l| - 1] != ' ' && l[|l| - 1] != '\t' && (forall c | c in pad :: c == ' ' || c == '\t')
    ensures Unfolded([l + pad + "\\", m] + more, "") == Unfolded([l + TrimSpace(m)] + more, "")
  {
    hide *;
    var first, joined := l + pad + "\\", l + TrimSpace(m);
    FirstPart(l, pad);
    TrimBoth(m);
    JoinedEnd(l, m);
    assert [first, m] + more == [first] + ([m] + more);
    UnfoldStep(first, [m] + more, "");
    UnfoldStep(m, more, l);
    UnfoldStep(joined, more, "");
  }

  lemma FirstPart(l: string, pad: string)
    requires l != "" && l[|l| - 1] != ' ' && l[|l| - 1] != '\t' && (forall c | c in pad :: c == ' ' || c == '\t')
    ensures var first := l + pad + "\\";
            HasSuffix(first, "\\") && TrimEnd(first, BLANKS) == first && TrimEnd(first[..|first| - 1], BLANKS) == l
  {
    var first := l + pad + "\\";
    assert first[..|first| - 1] == l + pad && first[|first| - 1..] == "\\";
    TrimEndPadded(l, pad, BLANKS);
    assert TrimEnd(l, BLANKS) == l;
  }

  lemma UnfoldStep(l: string, more: seq<string>, pending: string)
    ensures var trimmed := TrimEnd(l, BLANKS);
            var line := if pending == "" then trimmed else pending + TrimSpace(trimmed);
            Unfolded([l] + more, pending) ==
            if HasSuffix(line, "\\") && line != "" then Unfolded(more, TrimEnd(line[..|line| - 1], BLANKS))
            else line + "\n" + Unfolded(more, "")
  {
    assert ([l] + more)[1..] == more;
    hide TrimEnd, TrimSpace;
  }

  lemma TrimBoth(m: string)
    ensures TrimSpace(TrimEnd(m, BLANKS)) == TrimSpace(m)
  {
    var t := TrimEnd(m, BLANKS);
    var pad := CutBlanks(m);
    BlanksAreSpace();
    TrimSpaceMore(t, pad);
  }

  lemma BlanksAreSpace()
    ensures IsSpace(' ') && IsSpace('\t')
  {
  }

  lemma {:induction false} CutBlanks(m: string) returns (pad: string)
    ensures m == TrimEnd(m, BLANKS) + pad && forall c | c in pad :: c == ' ' || c == '\t'
  {
    if m != "" && m[|m| - 1] in BLANKS {
      pad := CutBlanks(m[..|m| - 1]);
      assert m == m[..|m| - 1] + [m[|m| - 1]];
      pad := pad + [m[|m| - 1]];
    } else {
      pad := "";
    }
  }

  /** White space at the end does not matter. */
  lemma TrimSpaceMore(v: string, pad: string)
    requires forall c | c in pad :: IsSpace(c)
    ensures TrimSpace(v + pad) == TrimSpace(v)
  {
    hide IsSpace;
    TrimLeftMore(v, pad);
    hide TrimLeft;
    TrimRightPadded(TrimLeft(v), pad);
  }

  lemma {:induction false} TrimLeftMore(v: string, pad: string)
    requires forall c | c in pad :: IsSpace(c)
    ensures TrimLeft(v + pad) == if TrimLeft(v) == "" then "" else TrimLeft(v) + pad
  {
    hide IsSpace;
    if v == "" {
      assert v + pad == pad && pad + "" == pad;
      TrimLeftPadded(pad, "");
    } else if IsSpace(v[0]) {
      assert (v + pad)[1..] == v[1..] + pad;
      TrimLeftMore(v[1..], pad);
    } else {
      assert (v + pad)[0] == v[0];
    }
  }

  lemma JoinedEnd(l: string, m: string)
    requires l != "" && l[|l| - 1] != ' ' && l[|l| - 1] != '\t'
    ensures TrimEnd(l + TrimSpace(m), BLANKS) == l + TrimSpace(m)
  {
    var t := TrimSpace(m);
    BlanksAreSpace();
    hide IsSpace, TrimSpace;
    LastOf(l, t);
    EndStays(l + t);
  }

  lemma LastOf(a: string, b: string)
    requires a != ""
    ensures (a + b)[|a + b| - 1] == if b == "" then a[|a| - 1] else b[|b| - 1]
  {
  }

  lemma EndStays(s: string)
    requires s != "" && s[|s| - 1] != ' ' && s[|s| - 1] != '\t'
    ensures TrimEnd(s, BLANKS) == s
  {
  }

  /** A line that is not continued stands for itself, without blanks at its end. */
  lemma UncontinuedIs(l: string, pad: string, rest: string)
    requires (l == "" || l[|l| - 1] !in {' ', '\t', '\\'}) && (forall c | c in pad :: c == ' ' || c == '\t') && Short(l + pad)
    ensures UnfoldContinued(l + pad + "\n" + rest) == l + "\n" + UnfoldContinued(rest)
  {
    ScanCons(l + pad, rest);
    TrimEndPadded(l, pad, BLANKS);
    NoMark(l);
    UnfoldIs(l + pad + "\n" + rest);
    UnfoldIs(rest);
    UnfoldStep(l + pad, ScanLines(rest), "");
    hide *;
  }

  lemma NoMark(l: string)
    requires l == "" || l[|l| - 1] !in {' ', '\t', '\\'}
    ensures !HasSuffix(l, "\\") && TrimEnd(l, BLANKS) == l
  {
    if l != "" {
      EndStays(l);
      LastSlash(l);
    } else {
      EmptyLine();
    }
    hide *;
  }

  lemma LastSlash(l: string)
    requires l != ""
    ensures HasSuffix(l, "\\") <==> l[|l| - 1] == '\\'
  {
    assert l[|l| - 1..] == [l[|l| - 1]];
  }

  lemma EmptyLine()
    ensures !HasSuffix("", "\\") && TrimEnd("", BLANKS) == ""
  {
  }

  // ----- Newsfeeds lines -----

  /** A pattern field is cut at its first slash; an empty part changes nothing. */
  lemma PatternFieldIs(s: Spec, patterns: string, distribs: string)
    requires '/' !in patterns && Trimmed(patterns + "/" + distribs) && (patterns != "" ==> patterns[0] != ':')
    requires distribs != "" ==> distribs[|distribs| - 1] != '\\'
    ensures ApplyPatternField(s, patterns + "/" + distribs) ==
            s.(patterns := if patterns == "" then s.patterns else patterns,
               distributions := if distribs == "" then s.distributions else distribs)
  {
    hide *;
    var field := patterns + "/" + distribs;
    FieldTrimmed(patterns, distribs);
    assert field == patterns + ['/'] + distribs;
    IndexOfAt(patterns, '/', distribs);
    assert field[..|patterns|] == patterns && field[|patterns| + 1..] == distribs;
    PatternCut(s, field, field);
  }

  lemma PatternCut(s: Spec, field0: string, field: string)
    requires TrimEnd(TrimPrefix(TrimSpace(field0), ":"), {'\\'}) == field
    ensures var i := IndexOf(field, '/');
            var distribs := if i < |field| then field[i + 1..] else "";
            ApplyPatternField(s, field0) ==
            s.(patterns := if field[..i] == "" then s.patterns else field[..i],
               distributions := if distribs == "" then s.distributions else distribs)
  {
    hide TrimSpace, IndexOf, TrimEnd;
  }

  lemma FieldEnds(field: string)
    requires field != "" && field[0] != ':' && field[|field| - 1] != '\\'
    ensures TrimEnd(TrimPrefix(field, ":"), {'\\'}) == field
  {
    assert field[..1] == [field[0]];
  }

  lemma FieldTrimmed(patterns: string, distribs: string)
    requires Trimmed(patterns + "/" + distribs) && (patterns != "" ==> patterns[0] != ':')
    requires distribs != "" ==> distribs[|distribs| - 1] != '\\'
    ensures var field := patterns + "/" + distribs; TrimEnd(TrimPrefix(TrimSpace(field), ":"), {'\\'}) == field
  {
    var field := patterns + "/" + distribs;
    TrimSpaceId(field);
    hide *;
    LastOf(patterns + "/", distribs);
    FieldEnds(field);
  }

  /** The four fields of a line, the last of which may have colons. */
  lemma FieldsAre(site: string, patterns: string, flags: string, param: string)
    requires ':' !in site && ':' !in patterns && ':' !in flags
    ensures SplitNewsfeeds(site + ":" + (patterns + ":" + (flags + ":" + param))) ==
            if TrimSpace(site) == "" then None else Some(FeedLine(TrimSpace(site), patterns, flags, param))
    ensures SplitNewsfeeds(site) == None && SplitNewsfeeds(site + ":" + patterns) == None
    ensures SplitNewsfeeds(site + ":" + (patterns + ":" + flags)) == None
  {
    CutColon(site, patterns + ":" + (flags + ":" + param));
    CutColon(patterns, flags + ":" + param);
    CutColon(flags, param);
    CutColon(site, patterns);
    CutColon(site, patterns + ":" + flags);
    CutColon(patterns, flags);
    hide IndexOf, TrimSpace;
    assert IndexOf(site, ':') == |site| && IndexOf(patterns, ':') == |patterns| && IndexOf(flags, ':') == |flags|;
  }

  lemma CutColon(a: string, b: string)
    requires ':' !in a
    ensures var s := a + ":" + b; IndexOf(s, ':') == |a| && s[..|a|] == a && s[|a| + 1..] == b
  {
    assert a + ":" + b == a + [':'] + b;
    IndexOfAt(a, ':', b);
  }

  /** Whether a line is about a feed to another server: it names innfeed in any case, or else a program behind `!` that
      is not the site itself. */
  lemma LineAppliesIff(s: Spec, site: string, patterns: string, flags: string, param: string)
    requires ':' !in site && ':' !in patterns && ':' !in flags && Trimmed(site) && site != "" && '/' !in site
    ensures var r := ApplyNewsfeeds(s, site + ":" + (patterns + ":" + (flags + ":" + param)));
            var feeds := exists i :: IsAt(ToLower(param), "innfeed", i);
            && (r.Some? <==> EqualFold(site, "ME") || feeds || ('!' in param && site[|site| - 1] != '!'))
            && (r.Some? ==> (r.value.name == (if EqualFold(site, "ME") then s.name else site)
                             && r.value.pathToken == s.pathToken
                             && r.value.flags == (if TrimSpace(flags) == "" then s.flags else TrimSpace(flags))
                             && r.value == ApplyPatternField(s, patterns).(name := r.value.name, flags := r.value.flags)))
  {
    FieldsAre(site, patterns, flags, param);
    TrimSpaceId(site);
    ContainsIff(ToLower(param), "innfeed");
    LastMark(site);
    assert site[..|site|] == site && IndexOf(site, '/') == |site|;
    PatternLeaves(s, patterns);
    hide TrimSpace, IndexOf, Contains, EqualFold, ToLower, SplitNewsfeeds, ApplyPatternField;
  }

  lemma PatternLeaves(s: Spec, patterns: string)
    ensures ApplyPatternField(s, patterns).flags == s.flags && ApplyPatternField(s, patterns).pathToken == s.pathToken
  {
    hide TrimSpace, IndexOf;
  }

  lemma LastMark(site: string)
    requires site != ""
    ensures HasSuffix(site, "!") <==> site[|site| - 1] == '!'
  {
    assert site[|site| - 1..] == [site[|site| - 1]];
  }

  /** The second text stands at a place of the first. */
  predicate IsAt(s: string, p: string, i: int) {
    0 <= i && i + |p| <= |s| && s[i..i + |p|] == p
  }

  lemma {:induction false} ContainsIff(s: string, p: string)
    requires p != ""
    ensures Contains(s, p) <==> exists i :: IsAt(s, p, i)
  {
    if s != "" {
      var rest := s[1..];
      ContainsIff(rest, p);
      if HasPrefix(s, p) {
        assert IsAt(s, p, 0);
      }
      if i :| IsAt(rest, p, i) {
        assert s[i + 1..i + 1 + |p|] == rest[i..i + |p|];
        assert IsAt(s, p, i + 1);
      }
      if i :| IsAt(s, p, i) && i > 0 {
        assert rest[i - 1..i - 1 + |p|] == s[i..i + |p|];
        assert IsAt(rest, p, i - 1);
      }
    }
  }
}
