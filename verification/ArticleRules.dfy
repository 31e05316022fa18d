/** What the checks of an article and its injection come to, in terms of the text of its headers. */
module ArticleRules {
  import opened Text
  import opened ArticleText
  import opened Article

  // ----- Names, identifiers, Paths -----

  /** A Message-ID stands in angle brackets, has an @, and nothing but visible ASCII without angle brackets. */
  lemma MessageIDIs(id: string)
    ensures ValidMessageID(id) <==>
            exists inner: string :: id == "<" + inner + ">" && |inner| <= 248 && '@' in inner
                                 && forall c | c in inner :: 33 <= c as int <= 126 && c != '<' && c != '>'
  {
    if |id| >= 2 {
      var inner := id[1..|id| - 1];
      assert id == [id[0]] + inner + [id[|id| - 1]];
      assert '@' in id <==> id[0] == '@' || '@' in inner || id[|id| - 1] == '@';
      assert forall i | 1 <= i < |id| - 1 :: id[i] == inner[i - 1];
      if ValidMessageID(id) {
        assert id == "<" + inner + ">";
      }
    }
    if inner: string :| id == "<" + inner + ">" && |inner| <= 248 && '@' in inner
                        && forall c | c in inner :: 33 <= c as int <= 126 && c != '<' && c != '>' {
      assert id[1..|id| - 1] == inner;
      assert '@' in id;
      forall i | 1 <= i < |id| - 1
        ensures '!' <= id[i] <= '~' && id[i] != '<' && id[i] != '>'
      {
        assert id[i] in inner;
      }
    }
  }

  predicate NameChar(c: char) {
    'a' <= c <= 'z' || 'A' <= c <= 'Z' || '0' <= c <= '9' || c == '+' || c == '-' || c == '_'
  }

  /** A group name is made of components between dots, none of them empty, of letters, digits, `+`, `-` and `_`. */
  lemma GroupNameIs(g: string)
    ensures ValidGroupName(g) <==>
            |g| <= 255 && forall i, j | PartOf(g, '.', i, j) :: i < j && forall c | c in g[i..j] :: NameChar(c)
  {
    if ValidGroupName(g) {
      forall i, j | PartOf(g, '.', i, j)
        ensures i < j && forall c | c in g[i..j] :: NameChar(c)
      {
        forall c | c in g[i..j]
          ensures NameChar(c)
        {
          assert c in g && GroupChar(c);
        }
      }
    }
    if |g| <= 255 && forall i, j | PartOf(g, '.', i, j) :: i < j && forall c | c in g[i..j] :: NameChar(c) {
      var i, j := PartAround(g, '.', 0);
      var i', j' := PartAround(g, '.', |g|);
      forall k | 0 <= k < |g|
        ensures GroupChar(g[k]) && (g[k] == '.' ==> 0 < k < |g| - 1 && g[k + 1] != '.')
      {
        GroupCharAt(g, k);
      }
    }
  }

  /** Around every place there is a part that reaches it. */
  lemma PartAround(s: string, sep: char, k: int) returns (i: int, j: int)
    requires 0 <= k <= |s|
    ensures i <= k <= j && PartOf(s, sep, i, j)
  {
    i := k;
    while i > 0 && s[i - 1] != sep
      invariant 0 <= i <= k && sep !in s[i..k]
    {
      assert s[i - 1..k] == [s[i - 1]] + s[i..k];
      i := i - 1;
    }
    j := k;
    while j < |s| && s[j] != sep
      invariant k <= j <= |s| && sep !in s[i..j]
    {
      assert s[i..j + 1] == s[i..j] + [s[j]];
      j := j + 1;
    }
  }

  lemma GroupCharAt(g: string, k: int)
    requires 0 <= k < |g|
    requires forall i, j | PartOf(g, '.', i, j) :: i < j && forall c | c in g[i..j] :: NameChar(c)
    ensures GroupChar(g[k]) && (g[k] == '.' ==> 0 < k < |g| - 1 && g[k + 1] != '.')
  {
    if g[k] == '.' {
      var i, j := PartAround(g, '.', k);
      NoneInside(g, '.', i, j);
      var i', j' := PartAround(g, '.', k + 1);
      NoneInside(g, '.', i', j');
    } else {
      var i, j := PartAround(g, '.', k);
      if j == k {
        assert false;
      }
      assert g[k] == g[i..j][k - i] && g[k] in g[i..j];
    }
  }

  /** A Path contains a name when one of its hops is the name, trimmed, in any case. */
  lemma PathContainsIff(path: string, token: string)
    ensures PathContains(path, token) <==>
            TrimSpace(token) != "" && exists i, j :: PartOf(path, '!', i, j) && EqualFold(path[i..j], TrimSpace(token))
  {
    hide TrimSpace, Split, EqualFold;
    var t := TrimSpace(token);
    if PathContains(path, token) {
      var hop :| hop in Split(path, '!') && EqualFold(hop, t);
      SplitIff(path, '!', hop);
    }
    if i, j :| PartOf(path, '!', i, j) && t != "" && EqualFold(path[i..j], t) {
      SplitIff(path, '!', path[i..j]);
      NotEmptyHop(path, i, j, t);
    }
  }

  lemma NotEmptyHop(path: string, i: int, j: int, t: string)
    requires PartOf(path, '!', i, j) && t != "" && EqualFold(path[i..j], t)
    ensures path != ""
  {
    AlikeIff(path[i..j], t);
  }

  /** The Newsgroups field names a group when one of its elements, trimmed, is the name. */
  lemma GroupListIff(raw: string, g: string)
    ensures g in GroupList(raw) <==> g != "" && exists i, j :: PartOf(raw, ',', i, j) && TrimSpace(raw[i..j]) == g
  {
    hide TrimSpace, Split;
    NamesIff(Split(raw, ','), g);
    if p :| p in Split(raw, ',') && TrimSpace(p) == g {
      SplitIff(raw, ',', p);
    }
    if i, j :| PartOf(raw, ',', i, j) && TrimSpace(raw[i..j]) == g {
      SplitIff(raw, ',', raw[i..j]);
    }
  }

  lemma {:induction false} NamesIff(parts: seq<string>, g: string)
    ensures g in Names(parts) <==> g != "" && exists p :: p in parts && TrimSpace(p) == g
  {
    hide TrimSpace;
    if parts != [] {
      NamesIff(parts[1..], g);
      assert forall p :: p in parts <==> p == parts[0] || p in parts[1..];
    }
  }

  /** One more element adds its name at the end, if it is not blank. */
  lemma GroupListNext(raw: string, e: string)
    requires ',' !in e
    ensures GroupList(raw + "," + e) == GroupList(raw) + if TrimSpace(e) == "" then [] else [TrimSpace(e)]
    ensures GroupList(e) == if TrimSpace(e) == "" then [] else [TrimSpace(e)]
  {
    SplitSnoc(raw, ',', e);
    SplitFree(e, ',');
    hide TrimSpace, Split;
    assert raw + "," + e == raw + [','] + e;
    NamesSnoc(Split(raw, ','), e);
    NamesSnoc([], e);
    assert [] + [e] == [e];
  }

  // ----- Looking at a header -----

  /** A look finds the first value of the header, in whatever case its name is written; nothing if it is not there. */
  lemma ValueIs(h: Headers, name: string, k: string, v: string)
    ensures k in h && EqualFold(k, name) && h[k] != [] ==> IsValue(h, name, h[k][0])
    ensures k in h && EqualFold(k, name) && h[k] != [] && Single(h, name) ==> (IsValue(h, name, v) <==> v == h[k][0])
    ensures (forall j | j in h && EqualFold(j, name) :: h[j] == []) ==> (IsValue(h, name, v) <==> v == "")
  {
    if k in h && EqualFold(k, name) && h[k] != [] {
      ValueOf(h, name, k);
    }
  }

  // ----- Offered articles -----

  /** Some element is not blank. */
  ghost predicate NamesSome(raw: string) {
    exists i, j :: PartOf(raw, ',', i, j) && TrimSpace(raw[i..j]) != ""
  }

  ghost predicate NamesGood(raw: string) {
    forall i, j | PartOf(raw, ',', i, j) :: TrimSpace(raw[i..j]) != "" ==> ValidGroupName(TrimSpace(raw[i..j]))
  }

  lemma NamesSomeIs(raw: string)
    ensures GroupList(raw) != [] <==> NamesSome(raw)
    ensures ValidGroups(GroupList(raw)) <==> NamesGood(raw)
  {
    hide TrimSpace, ValidGroupName, GroupList;
    forall g
      ensures g in GroupList(raw) <==> g != "" && exists i, j :: PartOf(raw, ',', i, j) && TrimSpace(raw[i..j]) == g
    {
      GroupListIff(raw, g);
    }
    if GroupList(raw) != [] {
      assert GroupList(raw)[0] in GroupList(raw);
    }
    if i, j :| PartOf(raw, ',', i, j) && TrimSpace(raw[i..j]) != "" {
      assert TrimSpace(raw[i..j]) in GroupList(raw);
    }
    if ValidGroups(GroupList(raw)) {
      forall i, j | PartOf(raw, ',', i, j) && TrimSpace(raw[i..j]) != ""
        ensures ValidGroupName(TrimSpace(raw[i..j]))
      {
        assert TrimSpace(raw[i..j]) in GroupList(raw);
      }
    }
  }

  /** The checks of an offered article, one after another. A refusal leaves the headers as they are, but for the
      Message-ID, which is trimmed before the date and the Path are looked at. */
  lemma OfferedIs(h: Headers, pathhost: string, l: Looks)
    ensures var (r, h') := Outcome(h, pathhost, l);
            && r == (if TrimSpace(l.from) == "" then Some(MissingFrom)
                     else if !NamesSome(l.groups) then Some(MissingNewsgroups)
                     else if TrimSpace(l.subject) == "" then Some(MissingSubject)
                     else if !NamesGood(l.names) then Some(BadGroupName)
                     else if TrimSpace(l.id) == "" then Some(MissingMessageID)
                     else if !ValidMessageID(TrimSpace(l.id)) then Some(BadMessageID)
                     else if TrimSpace(l.date) == "" then Some(MissingDate)
                     else if PathContains(l.checked, pathhost) then Some(PathLoop)
                     else None)
            && (r in {Some(MissingDate), Some(PathLoop)} ==>
                  h' == (map k | k in h && !EqualFold(k, "Message-ID") :: h[k])["Message-ID" := [TrimSpace(l.id)]])
            && (r != None && r !in {Some(MissingDate), Some(PathLoop)} ==> h' == h)
  {
    NamesSomeIs(l.groups);
    NamesSomeIs(l.names);
    hide TrimSpace, NamesSome, NamesGood, ValidMessageID, PathContains, GroupList, ValidGroups, EqualFold;
  }

  // ----- Posted articles -----

  const STAGES: seq<Field> := [MessageID, Date, Path, Organization, InjectionDate, InjectionInfo, Xref]

  /** The headers after each stage of the injection of a posted article. */
  ghost predicate Stages(hs: seq<Headers>) {
    |hs| == 8 && forall i | 0 <= i < 7 :: Touches(hs[i], NameOf(STAGES[i]), hs[i + 1])
  }

  ghost predicate OnlyStage(k: nat, f: Field) {
    k < 7 && STAGES[k] == f && forall j | 0 <= j < 7 && j != k :: STAGES[j] != f
  }

  lemma StagesAre()
    ensures OnlyStage(0, MessageID) && OnlyStage(1, Date) && OnlyStage(2, Path) && OnlyStage(3, Organization)
    ensures OnlyStage(4, InjectionDate) && OnlyStage(5, InjectionInfo)
  {
  }

  ghost predicate SameHeader(h: Headers, h': Headers, name: string) {
    (forall v :: IsValue(h', name, v) <==> IsValue(h, name, v)) && (Single(h', name) <==> Single(h, name))
  }

  /** A header is only changed at its own stage. */
  lemma {:induction false} Unmoved(hs: seq<Headers>, i: nat, j: nat, f: Field)
    requires Stages(hs) && i <= j <= 7 && forall k | i <= k < j :: STAGES[k] != f
    ensures SameHeader(hs[i], hs[j], NameOf(f))
    decreases j
  {
    if i < j {
      hide Touches, IsValue, EqualFold, Single, NameOf;
      Unmoved(hs, i, j - 1, f);
      FieldsDiffer(STAGES[j - 1], f);
      assert Touches(hs[j - 1], NameOf(STAGES[j - 1]), hs[j - 1 + 1]);
      TouchesOther(hs[j - 1], NameOf(STAGES[j - 1]), hs[j], NameOf(f));
    }
  }

  /** The value that a header has afterwards, and that every look then finds. */
  ghost predicate Becomes(h: Headers, h': Headers, name: string, was: string, becomes: string) {
    IsValue(h, name, was) && OnlyValue(h', name, becomes)
  }

  ghost predicate OnlyValue(h: Headers, name: string, value: string) {
    forall v :: IsValue(h, name, v) <==> v == value
  }

  lemma CompletedTo(h: Headers, name: string, value: string, h': Headers, was: string)
    requires Completed(h, name, value, h') && Single(h, name) && IsValue(h, name, was)
    ensures Touches(h, name, h') && OnlyValue(h', name, if was == "" then value else was)
  {
    var present :| IsValue(h, name, present) && h' == if present == "" then SetHeader(h, name, value) else h;
    SingleValue(h, name, present, was);
    SetTouches(h, name, value);
    SetHeaderValue(h, name, value);
    forall v
      ensures was != "" ==> (IsValue(h', name, v) <==> v == was)
    {
      if was != "" && IsValue(h', name, v) {
        SingleValue(h, name, v, was);
      }
    }
  }

  lemma PathGivenTo(h: Headers, pathhost: string, h': Headers, was: string)
    requires PathGiven(h, pathhost, h') && Single(h, "Path") && IsValue(h, "Path", was)
    ensures OnlyValue(h', "Path", if was == "" then pathhost + "!not-for-mail"
                                  else if HasPrefix(was, pathhost + "!") then was else pathhost + "!" + was)
  {
    var present, tested, value :| PathGivenAs(h, pathhost, present, tested, value, h');
    var p := if present == "" then pathhost + "!not-for-mail" else pathhost + "!" + value;
    SetHeaderValue(h, "Path", p);
    hide HasPrefix, SetHeader, Single;
    SingleValue(h, "Path", present, was);
    if present != "" {
      SingleValue(h, "Path", tested, was);
      if !HasPrefix(tested, pathhost + "!") {
        SingleValue(h, "Path", value, was);
      } else {
        forall v | IsValue(h, "Path", v)
          ensures v == was
        {
          SingleValue(h, "Path", v, was);
        }
      }
    }
  }

  /** The stages of an injection. */
  lemma StagesOf(hs: seq<Headers>, opt: PostOptions)
    requires |hs| == 8 && PostInjectedBy(hs[0], hs[1], hs[2], hs[3], hs[4], hs[5], hs[6], hs[7], opt)
    ensures Stages(hs)
  {
    hide Identified, Completed, PathGiven, Organized, Without, Touches;
    IdentifiedTouches(hs[0], opt, hs[1]);
    CompletedTouches(hs[1], "Date", opt.date, hs[2]);
    PathGivenIs(hs[2], opt.pathhost, hs[3]);
    OrganizedTouches(hs[3], opt, hs[4]);
    CompletedTouches(hs[4], "Injection-Date", opt.date, hs[5]);
    CompletedTouches(hs[5], "Injection-Info", opt.info, hs[6]);
    SetTouches(hs[6], "Xref", "");
  }

  lemma IdentifiedTouches(h: Headers, opt: PostOptions, h': Headers)
    requires Identified(h, opt, h')
    ensures Touches(h, "Message-ID", h')
  {
    hide ValidMessageID, TrimSpace;
    var id :| IsValue(h, "Message-ID", id)
              && h' == SetHeader(h, "Message-ID", if TrimSpace(id) != "" then TrimSpace(id) else opt.generatedID);
    SetTouches(h, "Message-ID", if TrimSpace(id) != "" then TrimSpace(id) else opt.generatedID);
  }

  lemma CompletedTouches(h: Headers, name: string, value: string, h': Headers)
    requires Completed(h, name, value, h')
    ensures Touches(h, name, h')
  {
    SetTouches(h, name, value);
  }

  lemma OrganizedTouches(h: Headers, opt: PostOptions, h': Headers)
    requires Organized(h, opt, h')
    ensures Touches(h, "Organization", h')
  {
    if opt.organization == "" {
      SetTouches(h, "Organization", "");
    } else {
      CompletedTouches(h, "Organization", opt.organization, h');
    }
  }

  /** What a posted article is given, where its headers came in one spelling each: an identifier, dates, the
      organization and the injection line where they are missing, and the server in front of its Path, unless it is
      there already. */
  lemma PostFills(h: Headers, opt: PostOptions, h': Headers, id: string, date: string, path: string, org: string,
                  injected: string, info: string)
    requires PostInjected(h, opt, h') && forall f | f in PROVIDED :: Single(h, NameOf(f))
    requires IsValue(h, "Message-ID", id) && IsValue(h, "Date", date) && IsValue(h, "Path", path)
    requires IsValue(h, "Organization", org) && IsValue(h, "Injection-Date", injected) && IsValue(h, "Injection-Info", info)
    ensures Becomes(h, h', "Message-ID", id, if TrimSpace(id) == "" then opt.generatedID else TrimSpace(id))
    ensures Becomes(h, h', "Date", date, if date == "" then opt.date else date)
    ensures Becomes(h, h', "Path", path, if path == "" then opt.pathhost + "!not-for-mail"
                                         else if HasPrefix(path, opt.pathhost + "!") then path else opt.pathhost + "!" + path)
    ensures Becomes(h, h', "Organization", org, if org == "" then opt.organization else org)
    ensures Becomes(h, h', "Injection-Date", injected, if injected == "" then opt.date else injected)
    ensures Becomes(h, h', "Injection-Info", info, if info == "" then opt.info else info)
  {
    var h1, h2, h3, h4, h5, h6 :| PostInjectedBy(h, h1, h2, h3, h4, h5, h6, h', opt);
    var hs := [h, h1, h2, h3, h4, h5, h6, h'];
    FieldNames();
    hide *;
    StagesOf(hs, opt);
    FillID(hs, opt, id);
    FillDates(hs, opt, date, injected);
    FillPath(hs, opt, path);
    FillOrganization(hs, opt, org);
    FillInfo(hs, opt, info);
  }

  /** A header has the same value up to its stage, and keeps what it has then. */
  lemma Filled(hs: seq<Headers>, k: nat, f: Field, was: string, becomes: string)
    requires Stages(hs) && OnlyStage(k, f)
    requires IsValue(hs[0], NameOf(f), was) && OnlyValue(hs[k + 1], NameOf(f), becomes)
    ensures Becomes(hs[0], hs[7], NameOf(f), was, becomes)
  {
    hide Touches, IsValue, Single, NameOf;
    Unmoved(hs, k + 1, 7, f);
  }

  lemma FillID(hs: seq<Headers>, opt: PostOptions, id: string)
    requires |hs| == 8 && PostInjectedBy(hs[0], hs[1], hs[2], hs[3], hs[4], hs[5], hs[6], hs[7], opt) && Stages(hs)
    requires Single(hs[0], "Message-ID") && IsValue(hs[0], "Message-ID", id)
    ensures Becomes(hs[0], hs[7], "Message-ID", id, if TrimSpace(id) == "" then opt.generatedID else TrimSpace(id))
  {
    hide ValidMessageID, TrimSpace, Stages, Single, IsValue, SetHeader, Becomes, Completed, PathGiven, Organized, Without;
    var v :| IsValue(hs[0], "Message-ID", v)
             && hs[1] == SetHeader(hs[0], "Message-ID", if TrimSpace(v) != "" then TrimSpace(v) else opt.generatedID);
    SingleValue(hs[0], "Message-ID", v, id);
    var value := if TrimSpace(id) != "" then TrimSpace(id) else opt.generatedID;
    SetHeaderValue(hs[0], "Message-ID", value);
    StagesAre();
    Filled(hs, 0, MessageID, id, value);
  }

  /** A header that is filled in where it is missing. */
  lemma FillMissing(hs: seq<Headers>, k: nat, f: Field, value: string, was: string)
    requires Stages(hs) && OnlyStage(k, f)
    requires Completed(hs[k], NameOf(f), value, hs[k + 1]) && Single(hs[0], NameOf(f)) && IsValue(hs[0], NameOf(f), was)
    ensures Becomes(hs[0], hs[7], NameOf(f), was, if was == "" then value else was)
  {
    Unmoved(hs, 0, k, f);
    hide Stages, Completed, IsValue, Single, NameOf, Becomes;
    CompletedTo(hs[k], NameOf(f), value, hs[k + 1], was);
    Filled(hs, k, f, was, if was == "" then value else was);
  }

  lemma FillDates(hs: seq<Headers>, opt: PostOptions, date: string, injected: string)
    requires |hs| == 8 && PostInjectedBy(hs[0], hs[1], hs[2], hs[3], hs[4], hs[5], hs[6], hs[7], opt) && Stages(hs)
    requires Single(hs[0], "Date") && IsValue(hs[0], "Date", date)
    requires Single(hs[0], "Injection-Date") && IsValue(hs[0], "Injection-Date", injected)
    ensures Becomes(hs[0], hs[7], "Date", date, if date == "" then opt.date else date)
    ensures Becomes(hs[0], hs[7], "Injection-Date", injected, if injected == "" then opt.date else injected)
  {
    hide Stages, Single, IsValue, Becomes, Completed, Identified, PathGiven, Organized, Without;
    StagesAre();
    FillMissing(hs, 1, Date, opt.date, date);
    FillMissing(hs, 4, InjectionDate, opt.date, injected);
  }

  lemma FillInfo(hs: seq<Headers>, opt: PostOptions, info: string)
    requires |hs| == 8 && PostInjectedBy(hs[0], hs[1], hs[2], hs[3], hs[4], hs[5], hs[6], hs[7], opt) && Stages(hs)
    requires Single(hs[0], "Injection-Info") && IsValue(hs[0], "Injection-Info", info)
    ensures Becomes(hs[0], hs[7], "Injection-Info", info, if info == "" then opt.info else info)
  {
    hide Stages, Single, IsValue, Becomes, Completed, Identified, PathGiven, Organized, Without;
    StagesAre();
    FillMissing(hs, 5, InjectionInfo, opt.info, info);
  }

  lemma GivenSteps(hs: seq<Headers>, opt: PostOptions)
    requires |hs| == 8 && PostInjectedBy(hs[0], hs[1], hs[2], hs[3], hs[4], hs[5], hs[6], hs[7], opt)
    ensures PathGiven(hs[2], opt.pathhost, hs[3]) && Organized(hs[3], opt, hs[4])
  {
    hide Completed, Identified, PathGiven, Organized, Without;
  }

  lemma FillOrganization(hs: seq<Headers>, opt: PostOptions, org: string)
    requires |hs| == 8 && PostInjectedBy(hs[0], hs[1], hs[2], hs[3], hs[4], hs[5], hs[6], hs[7], opt) && Stages(hs)
    requires Single(hs[0], "Organization") && IsValue(hs[0], "Organization", org)
    ensures Becomes(hs[0], hs[7], "Organization", org, if org == "" then opt.organization else org)
  {
    FieldNames();
    hide *;
    GivenSteps(hs, opt);
    OrganizedTo(hs, opt, org);
    StagesAre();
    Filled(hs, 3, Organization, org, if org == "" then opt.organization else org);
  }

  lemma OrganizedTo(hs: seq<Headers>, opt: PostOptions, org: string)
    requires Stages(hs) && Organized(hs[3], opt, hs[4])
    requires Single(hs[0], "Organization") && IsValue(hs[0], "Organization", org)
    ensures OnlyValue(hs[4], "Organization", if org == "" then opt.organization else org)
  {
    Unmoved(hs, 0, 3, Organization);
    hide Stages, Single, IsValue, Completed;
    if opt.organization == "" {
      forall v | IsValue(hs[4], "Organization", v)
        ensures v == org
      {
        SingleValue(hs[3], "Organization", v, org);
      }
    } else {
      CompletedTo(hs[3], "Organization", opt.organization, hs[4], org);
    }
  }

  lemma FillPath(hs: seq<Headers>, opt: PostOptions, path: string)
    requires |hs| == 8 && PostInjectedBy(hs[0], hs[1], hs[2], hs[3], hs[4], hs[5], hs[6], hs[7], opt) && Stages(hs)
    requires Single(hs[0], "Path") && IsValue(hs[0], "Path", path)
    ensures Becomes(hs[0], hs[7], "Path", path, if path == "" then opt.pathhost + "!not-for-mail"
                                               else if HasPrefix(path, opt.pathhost + "!") then path else opt.pathhost + "!" + path)
  {
    FieldNames();
    hide *;
    GivenSteps(hs, opt);
    PathTo(hs, opt, path);
    StagesAre();
    Filled(hs, 2, Path, path, if path == "" then opt.pathhost + "!not-for-mail"
                              else if HasPrefix(path, opt.pathhost + "!") then path else opt.pathhost + "!" + path);
  }

  lemma PathTo(hs: seq<Headers>, opt: PostOptions, path: string)
    requires Stages(hs) && PathGiven(hs[2], opt.pathhost, hs[3])
    requires Single(hs[0], "Path") && IsValue(hs[0], "Path", path)
    ensures OnlyValue(hs[3], "Path", if path == "" then opt.pathhost + "!not-for-mail"
                                     else if HasPrefix(path, opt.pathhost + "!") then path else opt.pathhost + "!" + path)
  {
    Unmoved(hs, 0, 2, Path);
    hide Stages, Single, IsValue, PathGiven, HasPrefix, OnlyValue;
    PathGivenTo(hs[2], opt.pathhost, hs[3], path);
  }

  lemma FieldNames()
    ensures NameOf(MessageID) == "Message-ID" && NameOf(Date) == "Date" && NameOf(Path) == "Path"
    ensures NameOf(Organization) == "Organization" && NameOf(InjectionDate) == "Injection-Date"
    ensures NameOf(InjectionInfo) == "Injection-Info"
  {
  }

  /** A name that posting does not deal with. */
  ghost predicate OtherName(k: string) {
    && !EqualFold(k, "Message-ID") && !EqualFold(k, "Date") && !EqualFold(k, "Path") && !EqualFold(k, "Organization")
    && !EqualFold(k, "Injection-Date") && !EqualFold(k, "Injection-Info") && !EqualFold(k, "Xref")
  }

  /** Every header but the six and Xref is as it was, and Xref is gone. */
  lemma PostLeaves(h: Headers, opt: PostOptions, h': Headers, k: string)
    requires PostInjected(h, opt, h') && OtherName(k)
    ensures (k in h' <==> k in h) && (k in h ==> h'[k] == h[k])
    ensures forall j | j in h' :: !EqualFold(j, "Xref")
  {
    hide OtherName, PostInjectedBy;
    var h1, h2, h3, h4, h5, h6 :| PostInjectedBy(h, h1, h2, h3, h4, h5, h6, h', opt);
    var hs := [h, h1, h2, h3, h4, h5, h6, h'];
    hide *;
    StagesOf(hs, opt);
    LeftAlone(hs, k, 7);
    XrefDropped(hs, opt);
  }

  lemma XrefDropped(hs: seq<Headers>, opt: PostOptions)
    requires |hs| == 8 && PostInjectedBy(hs[0], hs[1], hs[2], hs[3], hs[4], hs[5], hs[6], hs[7], opt)
    ensures forall j | j in hs[7] :: !EqualFold(j, "Xref")
  {
    hide Completed, Identified, PathGiven, Organized, EqualFold;
  }

  lemma OtherField(k: string, f: Field)
    requires OtherName(k)
    ensures !EqualFold(k, NameOf(f))
  {
    hide EqualFold;
  }

  lemma {:induction false} LeftAlone(hs: seq<Headers>, k: string, j: nat)
    requires Stages(hs) && j <= 7 && OtherName(k)
    ensures (k in hs[j] <==> k in hs[0]) && (k in hs[0] ==> hs[j][k] == hs[0][k])
  {
    OtherField(k, STAGES[if j > 0 then j - 1 else 0]);
    hide EqualFold, NameOf, OtherName;
    if j > 0 {
      LeftAlone(hs, k, j - 1);
      assert Touches(hs[j - 1], NameOf(STAGES[j - 1]), hs[j - 1 + 1]);
    }
  }
}
