/** The article object: its header map is changed in place when an article is parsed, injected or relayed. */
module Article {
  import opened Text
  import opened Seqs
  import opened ArticleText

  // ----- Header access -----

  /** A value that Get may return: the first value of some header of that name, in any case. */
  ghost predicate IsValue(h: Headers, name: string, v: string) {
    if exists k :: Carries(h, name, k) then exists k :: Carries(h, name, k) && v == h[k][0] else v == ""
  }

  ghost predicate Carries(h: Headers, name: string, k: string) {
    k in h && EqualFold(k, name) && h[k] != []
  }

  /** At most one spelling of the name is present. */
  ghost predicate Single(h: Headers, name: string) {
    forall j, k | j in h && k in h && EqualFold(j, name) && EqualFold(k, name) :: j == k
  }

  lemma SingleValue(h: Headers, name: string, v: string, w: string)
    requires Single(h, name) && IsValue(h, name, v) && IsValue(h, name, w)
    ensures v == w
  {
  }

  function Without(h: Headers, name: string): Headers {
    map k | k in h && !EqualFold(k, name) :: h[k]
  }

  function SetHeader(h: Headers, name: string, value: string): Headers {
    Without(h, name)[name := [value]]
  }

  lemma SetHeaderValue(h: Headers, name: string, value: string)
    ensures Single(SetHeader(h, name, value), name)
    ensures forall v :: IsValue(SetHeader(h, name, value), name, v) <==> v == value
  {
    assert Carries(SetHeader(h, name, value), name, name);
  }

  /** Setting one header leaves every header of another name alone. */
  lemma SetHeaderOther(h: Headers, name: string, value: string, other: string)
    requires !EqualFold(name, other)
    ensures forall v :: IsValue(SetHeader(h, name, value), other, v) <==> IsValue(h, other, v)
    ensures Single(h, other) ==> Single(SetHeader(h, name, value), other)
  {
    var h' := SetHeader(h, name, value);
    forall k
      ensures Carries(h', other, k) <==> Carries(h, other, k)
      ensures Carries(h, other, k) ==> h'[k] == h[k]
    {
      if k in h && EqualFold(k, other) {
        assert !EqualFold(k, name);
      }
    }
  }

  lemma WithoutOther(h: Headers, name: string, other: string)
    requires !EqualFold(name, other)
    ensures forall v :: IsValue(Without(h, name), other, v) <==> IsValue(h, other, v)
    ensures Single(h, other) ==> Single(Without(h, name), other)
  {
    var h' := Without(h, name);
    forall k
      ensures Carries(h', other, k) <==> Carries(h, other, k)
      ensures Carries(h, other, k) ==> h'[k] == h[k]
    {
      if k in h && EqualFold(k, other) {
        assert !EqualFold(k, name);
      }
    }
  }

  // ----- Names and identifiers -----

  predicate GroupChar(c: char) {
    'a' <= c <= 'z' || 'A' <= c <= 'Z' || '0' <= c <= '9' || c in {'.', '+', '-', '_'}
  }

  predicate ValidGroupName(g: string) {
    && 1 <= |g| <= 255
    && (forall c | c in g :: GroupChar(c))
    && g[0] != '.' && g[|g| - 1] != '.'
    && forall i | 0 <= i < |g| - 1 :: !(g[i] == '.' && g[i + 1] == '.')
  }

  const MAX_MESSAGE_ID := 250

  predicate ValidMessageID(id: string) {
    && 3 <= |id| <= MAX_MESSAGE_ID
    && id[0] == '<' && id[|id| - 1] == '>'
    && (forall i | 1 <= i < |id| - 1 :: '!' <= id[i] <= '~' && id[i] != '<' && id[i] != '>')
    && '@' in id
  }

  // ----- The Path -----

  /** Whether `token` is one of the hops of a Path, ignoring case. */
  predicate PathContains(path: string, token: string) {
    var t := TrimSpace(token);
    t != "" && path != "" && exists hop | hop in Split(path, '!') :: EqualFold(hop, t)
  }

  /** The Path of a copy that a server of that name has taken. */
  function Prepended(path: string, pathhost: string): string {
    pathhost + "!" + (if path == "" then "not-for-mail" else path)
  }

  datatype Refusal = MissingFrom | MissingNewsgroups | MissingSubject | BadGroupName | MissingMessageID
                   | BadMessageID | MissingDate | PathLoop

  /** The header has no value, or a blank one. */
  ghost predicate BlankHeader(h: Headers, name: string) {
    exists v :: IsValue(h, name, v) && TrimSpace(v) == ""
  }

  ghost predicate FilledHeader(h: Headers, name: string) {
    exists v :: IsValue(h, name, v) && TrimSpace(v) != ""
  }

  ghost predicate NoGroups(h: Headers) {
    exists raw :: IsValue(h, "Newsgroups", raw) && GroupList(raw) == []
  }

  ghost predicate SomeGroups(h: Headers) {
    exists raw :: IsValue(h, "Newsgroups", raw) && GroupList(raw) != []
  }

  ghost predicate BadGroups(h: Headers) {
    exists raw :: IsValue(h, "Newsgroups", raw) && exists g :: g in GroupList(raw) && !ValidGroupName(g)
  }

  ghost predicate GoodGroups(h: Headers) {
    exists raw :: IsValue(h, "Newsgroups", raw) && forall g | g in GroupList(raw) :: ValidGroupName(g)
  }

  ghost predicate BadID(h: Headers) {
    exists id :: IsValue(h, "Message-ID", id) && TrimSpace(id) != "" && !ValidMessageID(TrimSpace(id))
  }

  /** Why an article is refused. */
  ghost predicate Refuses(h: Headers, pathhost: string, r: Refusal) {
    match r
    case MissingFrom => BlankHeader(h, "From")
    case MissingNewsgroups => NoGroups(h)
    case MissingSubject => BlankHeader(h, "Subject")
    case BadGroupName => BadGroups(h)
    case MissingMessageID => BlankHeader(h, "Message-ID")
    case BadMessageID => BadID(h)
    case MissingDate => BlankHeader(h, "Date")
    case PathLoop => exists path :: IsValue(h, "Path", path) && PathContains(path, pathhost)
  }

  /** What every article must have. */
  ghost predicate Addressed(h: Headers) {
    FilledHeader(h, "From") && SomeGroups(h) && FilledHeader(h, "Subject") && GoodGroups(h)
  }

  /** The header that a refusal is about. */
  function HeaderOf(r: Refusal): string {
    match r
    case MissingFrom => "From"
    case MissingNewsgroups => "Newsgroups"
    case BadGroupName => "Newsgroups"
    case MissingSubject => "Subject"
    case MissingMessageID => "Message-ID"
    case BadMessageID => "Message-ID"
    case MissingDate => "Date"
    case PathLoop => "Path"
  }

  /** Spellings of the name carry different first values, so two looks may differ. */
  ghost predicate Ambiguous(h: Headers, name: string) {
    exists v, w :: IsValue(h, name, v) && IsValue(h, name, w) && v != w
  }

  /** A header in one spelling is not ambiguous. */
  lemma SingleClear(h: Headers, name: string)
    requires Single(h, name)
    ensures !Ambiguous(h, name)
  {
    forall v, w | IsValue(h, name, v) && IsValue(h, name, w)
      ensures v == w
    {
      SingleValue(h, name, v, w);
    }
  }

  lemma NotEmptyID()
    ensures !ValidMessageID("")
  {
  }

  /** The effect of taking an article offered by a peer. The Path header is looked up three times,
      and each look may find another spelling of it. */
  ghost predicate Injected(h: Headers, pathhost: string, h': Headers) {
    exists id, checked, present, value :: InjectedAs(h, pathhost, h', id, checked, present, value)
  }

  ghost predicate InjectedAs(h: Headers, pathhost: string, h': Headers,
                             id: string, checked: string, present: string, value: string)
  {
    && IsValue(h, "Message-ID", id) && ValidMessageID(TrimSpace(id))
    && var h1 := SetHeader(h, "Message-ID", TrimSpace(id));
    && IsValue(h1, "Path", checked) && IsValue(h1, "Path", present) && IsValue(h1, "Path", value)
    && !PathContains(checked, pathhost)
    && var path := if present == "" then Prepended("", pathhost) else pathhost + "!" + value;
    h' == Without(SetHeader(h1, "Path", path), "Xref")
  }

  lemma NamesDiffer()
    ensures !EqualFold("Message-ID", "Path") && !EqualFold("Path", "Message-ID") && !EqualFold("Xref", "Path")
    ensures !EqualFold("Xref", "Message-ID")
  {
    assert |Fold("Message-ID")| == 10 && |Fold("Path")| == 4;
    assert Fold("Xref")[0] == 'x' && Fold("Path")[0] == 'p';
    assert |Fold("Xref")| == 4;
  }

  /** The taking server in front of a value of the Path, or of the mark of a Path without one. */
  ghost predicate Grown(h: Headers, pathhost: string, path': string) {
    exists present, value :: IsValue(h, "Path", present) && IsValue(h, "Path", value)
                          && path' == pathhost + "!" + if present == "" then "not-for-mail" else value
  }

  /** The three looks at the Path, and the new Path. */
  lemma InjectedLooks(h: Headers, pathhost: string, h': Headers)
      returns (checked: string, present: string, value: string, path': string)
    requires Injected(h, pathhost, h')
    ensures IsValue(h, "Path", checked) && IsValue(h, "Path", present) && IsValue(h, "Path", value)
    ensures !PathContains(checked, pathhost)
    ensures path' == if present == "" then Prepended("", pathhost) else pathhost + "!" + value
    ensures Single(h', "Path") && forall v :: IsValue(h', "Path", v) <==> v == path'
  {
    hide PathContains, ValidMessageID, TrimSpace, IsValue, Single;
    var id;
    id, checked, present, value :| InjectedAs(h, pathhost, h', id, checked, present, value);
    var h1 := SetHeader(h, "Message-ID", TrimSpace(id));
    NamesDiffer();
    SetHeaderOther(h, "Message-ID", TrimSpace(id), "Path");
    path' := if present == "" then Prepended("", pathhost) else pathhost + "!" + value;
    SetHeaderValue(h1, "Path", path');
    WithoutOther(SetHeader(h1, "Path", path'), "Xref", "Path");
  }

  /** A copy is taken only when some value of its Path does not name the server, and its Path, in one spelling from
      then on, is a value of the Path grown by the taking server. Where the Path had one spelling, that value is the
      one that does not name the server. */
  lemma InjectedPath(h: Headers, pathhost: string, h': Headers)
    requires Injected(h, pathhost, h')
    ensures Single(h', "Path")
    ensures exists checked :: IsValue(h, "Path", checked) && !PathContains(checked, pathhost)
    ensures exists path' :: Grown(h, pathhost, path') && forall v :: IsValue(h', "Path", v) <==> v == path'
    ensures Single(h, "Path") ==>
              forall path | IsValue(h, "Path", path) ::
                !PathContains(path, pathhost) && IsValue(h', "Path", Prepended(path, pathhost))
  {
    hide Injected, IsValue, Single, PathContains;
    var checked, present, value, p := InjectedLooks(h, pathhost, h');
    assert p == pathhost + "!" + if present == "" then "not-for-mail" else value;
    assert Grown(h, pathhost, p);
    if Single(h, "Path") {
      forall path | IsValue(h, "Path", path)
        ensures !PathContains(path, pathhost) && p == Prepended(path, pathhost)
      {
        SingleValue(h, "Path", checked, path);
        SingleValue(h, "Path", present, path);
        SingleValue(h, "Path", value, path);
      }
    }
  }

  /** Relaying keeps the Message-ID, trimmed, in one spelling. */
  lemma InjectedMessageID(h: Headers, pathhost: string, h': Headers)
    requires Injected(h, pathhost, h')
    ensures exists id :: IsValue(h, "Message-ID", id) && ValidMessageID(TrimSpace(id))
                      && forall v :: IsValue(h', "Message-ID", v) <==> v == TrimSpace(id)
  {
    hide EqualFold, TrimSpace, ValidMessageID, PathContains, IsValue, SetHeader, Without;
    var id, checked, present, value :| InjectedAs(h, pathhost, h', id, checked, present, value);
    var h1 := SetHeader(h, "Message-ID", TrimSpace(id));
    var p := if present == "" then Prepended("", pathhost) else pathhost + "!" + value;
    NamesDiffer();
    SetHeaderValue(h, "Message-ID", TrimSpace(id));
    SetHeaderOther(h1, "Path", p, "Message-ID");
    WithoutOther(SetHeader(h1, "Path", p), "Xref", "Message-ID");
    assert forall v :: IsValue(h', "Message-ID", v) <==> v == TrimSpace(id);
  }

  /** Relaying drops Xref and leaves every header but Path and Message-ID as it was. */
  lemma InjectedKeeps(h: Headers, pathhost: string, h': Headers)
    requires Injected(h, pathhost, h')
    ensures forall k | k in h' :: !EqualFold(k, "Xref")
    ensures forall k | !EqualFold(k, "Xref") && !EqualFold(k, "Path") && !EqualFold(k, "Message-ID")
              :: (k in h' <==> k in h) && (k in h ==> h'[k] == h[k])
  {
    hide EqualFold, TrimSpace, ValidMessageID, PathContains, IsValue;
    var id, checked, present, value :| InjectedAs(h, pathhost, h', id, checked, present, value);
    EqualFoldSame("Path");
    EqualFoldSame("Message-ID");
    NamesDiffer();
  }

  lemma EqualFoldSame(s: string)
    ensures EqualFold(s, s)
  {
  }

  /** A relayed article is well-formed if the article was and the server's name is. */
  lemma InjectedWellFormed(h: Headers, pathhost: string, h': Headers)
    requires Injected(h, pathhost, h') && WellFormed(h) && GoodValue(pathhost) && pathhost != ""
    ensures WellFormed(h')
  {
    hide EqualFold, TrimSpace, ValidMessageID, PathContains, Plain;
    var id, checked, present, value :| InjectedAs(h, pathhost, h', id, checked, present, value);
    ValueGood(h, "Message-ID", id);
    TrimSpacePlain(id);
    var h1 := SetHeader(h, "Message-ID", TrimSpace(id));
    KnownNamesGood();
    SetWellFormed(h, "Message-ID", TrimSpace(id));
    ValueGood(h1, "Path", value);
    var p := if present == "" then Prepended("", pathhost) else pathhost + "!" + value;
    PrependedGood(pathhost, if present == "" then "not-for-mail" else value);
    SetWellFormed(h1, "Path", p);
  }

  lemma KnownNamesGood()
    ensures GoodName("Path") && GoodName("Message-ID") && GoodValue("not-for-mail") && GoodValue("")
  {
  }

  lemma ValueGood(h: Headers, name: string, v: string)
    requires WellFormed(h) && IsValue(h, name, v)
    ensures GoodValue(v) && Plain(v)
  {
  }

  lemma SetWellFormed(h: Headers, name: string, v: string)
    requires WellFormed(h) && GoodName(name) && GoodValue(v)
    ensures WellFormed(SetHeader(h, name, v))
  {
    hide EqualFold, GoodName, GoodValue;
  }

  lemma PrependedGood(pathhost: string, rest: string)
    requires GoodValue(pathhost) && pathhost != "" && GoodValue(rest)
    ensures GoodValue(pathhost + "!" + rest)
  {
    var p := pathhost + "!" + rest;
    assert p[0] == pathhost[0];
    assert rest != "" ==> p[|p| - 1] == rest[|rest| - 1];
    assert !IsSpace('!');
  }

  // ----- What becomes of an offered article -----

  /** The values that the looks at the headers find, in the order of the looks. Each walks the header map anew, so
      where a header has several spellings two looks may differ. */
  datatype Looks = Looks(
    from: string, groups: string, subject: string, names: string, id: string, date: string,
    checked: string, present: string, value: string)

  ghost predicate LooksAt(h: Headers, l: Looks) {
    && IsValue(h, "From", l.from) && IsValue(h, "Newsgroups", l.groups) && IsValue(h, "Subject", l.subject)
    && IsValue(h, "Newsgroups", l.names) && IsValue(h, "Message-ID", l.id) && IsValue(h, "Date", l.date)
    && IsValue(h, "Path", l.checked) && IsValue(h, "Path", l.present) && IsValue(h, "Path", l.value)
  }

  predicate ValidGroups(groups: seq<string>) {
    forall g | g in groups :: ValidGroupName(g)
  }

  function AddressRefusal(l: Looks): Option<Refusal> {
    if TrimSpace(l.from) == "" then Some(MissingFrom)
    else if GroupList(l.groups) == [] then Some(MissingNewsgroups)
    else if TrimSpace(l.subject) == "" then Some(MissingSubject)
    else if !ValidGroups(GroupList(l.names)) then Some(BadGroupName)
    else None
  }

  /** The refusal, if any, and the headers afterwards. */
  function Outcome(h: Headers, pathhost: string, l: Looks): (Option<Refusal>, Headers) {
    var id := TrimSpace(l.id);
    var h1 := SetHeader(h, "Message-ID", id);
    if AddressRefusal(l).Some? then (AddressRefusal(l), h)
    else if id == "" then (Some(MissingMessageID), h)
    else if !ValidMessageID(id) then (Some(BadMessageID), h)
    else if TrimSpace(l.date) == "" then (Some(MissingDate), h1)
    else if PathContains(l.checked, pathhost) then (Some(PathLoop), h1)
    else
      var path := if l.present == "" then Prepended("", pathhost) else pathhost + "!" + l.value;
      (None, Without(SetHeader(h1, "Path", path), "Xref"))
  }

  /** Under some order of the header map the article is taken. */
  ghost predicate MayTake(h: Headers, pathhost: string) {
    exists l :: LooksAt(h, l) && Outcome(h, pathhost, l).0 == None
  }

  /** Under some order it is refused for this reason. */
  ghost predicate MayRefuse(h: Headers, pathhost: string, r: Refusal) {
    exists l :: LooksAt(h, l) && Outcome(h, pathhost, l).0 == Some(r)
  }

  /** The header that a refusal is about has a value that gives no ground for it. */
  ghost predicate Passes(h: Headers, pathhost: string, r: Refusal) {
    match r
    case MissingFrom => FilledHeader(h, "From")
    case MissingNewsgroups => SomeGroups(h)
    case MissingSubject => FilledHeader(h, "Subject")
    case BadGroupName => GoodGroups(h)
    case MissingMessageID => GoodID(h)
    case BadMessageID => GoodID(h)
    case MissingDate => FilledHeader(h, "Date")
    case PathLoop => ClearPath(h, pathhost)
  }

  ghost predicate GoodID(h: Headers) {
    exists id :: IsValue(h, "Message-ID", id) && ValidMessageID(TrimSpace(id))
  }

  ghost predicate ClearPath(h: Headers, pathhost: string) {
    exists path :: IsValue(h, "Path", path) && !PathContains(path, pathhost)
  }

  /** Every header that is looked at has an acceptable value. */
  ghost predicate Acceptable(h: Headers, pathhost: string) {
    Addressed(h) && GoodID(h) && FilledHeader(h, "Date") && ClearPath(h, pathhost)
  }

  /** The order in which the grounds are looked for; the two about the Message-ID share a look. */
  function StageOf(r: Refusal): nat {
    match r
    case MissingFrom => 0
    case MissingNewsgroups => 1
    case MissingSubject => 2
    case BadGroupName => 3
    case MissingMessageID => 4
    case BadMessageID => 4
    case MissingDate => 5
    case PathLoop => 6
  }

  ghost predicate PassesBefore(h: Headers, pathhost: string, r: Refusal) {
    forall q | StageOf(q) < StageOf(r) :: Passes(h, pathhost, q)
  }

  /** Some value of a header, if there is one. */
  lemma SomeValue(h: Headers, name: string) returns (v: string)
    ensures IsValue(h, name, v)
  {
    if k :| Carries(h, name, k) {
      v := h[k][0];
    } else {
      v := "";
    }
  }

  lemma SomeLooks(h: Headers) returns (l: Looks)
    ensures LooksAt(h, l)
  {
    hide IsValue;
    var from := SomeValue(h, "From");
    var groups := SomeValue(h, "Newsgroups");
    var subject := SomeValue(h, "Subject");
    var id := SomeValue(h, "Message-ID");
    var date := SomeValue(h, "Date");
    var path := SomeValue(h, "Path");
    l := Looks(from, groups, subject, groups, id, date, path, path, path);
  }

  /** Looks that find an acceptable value wherever there is one. */
  lemma BestLooks(h: Headers, pathhost: string) returns (l: Looks)
    ensures LooksAt(h, l)
    ensures FilledHeader(h, "From") ==> TrimSpace(l.from) != ""
    ensures SomeGroups(h) ==> GroupList(l.groups) != []
    ensures FilledHeader(h, "Subject") ==> TrimSpace(l.subject) != ""
    ensures GoodGroups(h) ==> ValidGroups(GroupList(l.names))
    ensures GoodID(h) ==> ValidMessageID(TrimSpace(l.id))
    ensures FilledHeader(h, "Date") ==> TrimSpace(l.date) != ""
    ensures ClearPath(h, pathhost) ==> !PathContains(l.checked, pathhost)
  {
    hide IsValue, TrimSpace, GroupList, ValidGroupName, ValidMessageID, PathContains;
    l := SomeLooks(h);
    if v :| IsValue(h, "From", v) && TrimSpace(v) != "" {
      l := l.(from := v);
    }
    if v :| IsValue(h, "Newsgroups", v) && GroupList(v) != [] {
      l := l.(groups := v);
    }
    if v :| IsValue(h, "Subject", v) && TrimSpace(v) != "" {
      l := l.(subject := v);
    }
    if v :| IsValue(h, "Newsgroups", v) && ValidGroups(GroupList(v)) {
      l := l.(names := v);
    }
    if v :| IsValue(h, "Message-ID", v) && ValidMessageID(TrimSpace(v)) {
      l := l.(id := v);
    }
    if v :| IsValue(h, "Date", v) && TrimSpace(v) != "" {
      l := l.(date := v);
    }
    if v :| IsValue(h, "Path", v) && !PathContains(v, pathhost) {
      l := l.(checked := v);
    }
  }

  /** What the outcome says about the headers. */
  lemma OutcomeFacts(h: Headers, pathhost: string, l: Looks)
    requires LooksAt(h, l)
    ensures match Outcome(h, pathhost, l).0
            case None => Acceptable(h, pathhost)
            case Some(r) => Refuses(h, pathhost, r) && PassesBefore(h, pathhost, r)
  {
    hide IsValue, TrimSpace, GroupList, ValidGroupName, ValidMessageID, PathContains, SetHeader, Without;
    NotEmptyID();
  }

  /** An offered article can be taken exactly when each header that is looked at has an acceptable value. */
  lemma TakenIff(h: Headers, pathhost: string)
    ensures MayTake(h, pathhost) <==> Acceptable(h, pathhost)
  {
    hide LooksAt, TrimSpace, GroupList, ValidGroupName, ValidMessageID, PathContains, SetHeader, Without, Acceptable;
    if MayTake(h, pathhost) {
      var l :| LooksAt(h, l) && Outcome(h, pathhost, l).0 == None;
      OutcomeFacts(h, pathhost, l);
    }
    if Acceptable(h, pathhost) {
      BestTaken(h, pathhost);
    }
  }

  lemma BestTaken(h: Headers, pathhost: string)
    requires Acceptable(h, pathhost)
    ensures MayTake(h, pathhost)
  {
    NotEmptyID();
    hide LooksAt, TrimSpace, GroupList, ValidGroupName, ValidMessageID, PathContains, SetHeader, Without, IsValue;
    var l := BestLooks(h, pathhost);
    assert Outcome(h, pathhost, l).0 == None;
  }

  /** Looks that find an unacceptable value of one header, and otherwise acceptable ones where there are any. */
  lemma WorstLook(h: Headers, pathhost: string, r: Refusal)
    requires Refuses(h, pathhost, r) && PassesBefore(h, pathhost, r)
    ensures MayRefuse(h, pathhost, r)
  {
    NotEmptyID();
    hide IsValue, TrimSpace, GroupList, ValidGroupName, ValidMessageID, PathContains, SetHeader, Without;
    var l := BestLooks(h, pathhost);
    EarlierPass(h, pathhost, r);
    match r
    case MissingFrom =>
      var v :| IsValue(h, "From", v) && TrimSpace(v) == "";
      RefusedBy(h, pathhost, l.(from := v), r);
    case MissingNewsgroups =>
      var v :| IsValue(h, "Newsgroups", v) && GroupList(v) == [];
      RefusedBy(h, pathhost, l.(groups := v), r);
    case MissingSubject =>
      var v :| IsValue(h, "Subject", v) && TrimSpace(v) == "";
      RefusedBy(h, pathhost, l.(subject := v), r);
    case BadGroupName =>
      var v :| IsValue(h, "Newsgroups", v) && exists g :: g in GroupList(v) && !ValidGroupName(g);
      RefusedBy(h, pathhost, l.(names := v), r);
    case MissingMessageID =>
      var v :| IsValue(h, "Message-ID", v) && TrimSpace(v) == "";
      RefusedBy(h, pathhost, l.(id := v), r);
    case BadMessageID =>
      var v :| IsValue(h, "Message-ID", v) && TrimSpace(v) != "" && !ValidMessageID(TrimSpace(v));
      RefusedBy(h, pathhost, l.(id := v), r);
    case MissingDate =>
      var v :| IsValue(h, "Date", v) && TrimSpace(v) == "";
      RefusedBy(h, pathhost, l.(date := v), r);
    case PathLoop =>
      var v :| IsValue(h, "Path", v) && PathContains(v, pathhost);
      RefusedBy(h, pathhost, l.(checked := v), r);
  }

  lemma RefusedBy(h: Headers, pathhost: string, l: Looks, r: Refusal)
    requires LooksAt(h, l) && Outcome(h, pathhost, l).0 == Some(r)
    ensures MayRefuse(h, pathhost, r)
  {
  }

  lemma EarlierPass(h: Headers, pathhost: string, r: Refusal)
    requires PassesBefore(h, pathhost, r)
    ensures StageOf(r) > 0 ==> FilledHeader(h, "From")
    ensures StageOf(r) > 1 ==> SomeGroups(h)
    ensures StageOf(r) > 2 ==> FilledHeader(h, "Subject")
    ensures StageOf(r) > 3 ==> GoodGroups(h)
    ensures StageOf(r) > 4 ==> GoodID(h)
    ensures StageOf(r) > 5 ==> FilledHeader(h, "Date")
  {
    hide FilledHeader, SomeGroups, GoodGroups, GoodID, ClearPath;
    assert StageOf(r) > 0 ==> Passes(h, pathhost, MissingFrom);
    assert StageOf(r) > 1 ==> Passes(h, pathhost, MissingNewsgroups);
    assert StageOf(r) > 2 ==> Passes(h, pathhost, MissingSubject);
    assert StageOf(r) > 3 ==> Passes(h, pathhost, BadGroupName);
    assert StageOf(r) > 4 ==> Passes(h, pathhost, BadMessageID);
    assert StageOf(r) > 5 ==> Passes(h, pathhost, MissingDate);
  }

  /** It can be refused for a reason exactly when there is ground for it and every header looked at before has an
      acceptable value. */
  lemma RefusedIff(h: Headers, pathhost: string, r: Refusal)
    ensures MayRefuse(h, pathhost, r) <==> Refuses(h, pathhost, r) && PassesBefore(h, pathhost, r)
  {
    hide LooksAt, Outcome, Refuses, PassesBefore;
    if MayRefuse(h, pathhost, r) {
      var l :| LooksAt(h, l) && Outcome(h, pathhost, l).0 == Some(r);
      OutcomeFacts(h, pathhost, l);
    }
    if Refuses(h, pathhost, r) && PassesBefore(h, pathhost, r) {
      WorstLook(h, pathhost, r);
    }
  }

  /** Where there is ground for a refusal, there is one that is reached. */
  lemma FirstGround(h: Headers, pathhost: string, r: Refusal) returns (q: Refusal)
    requires Refuses(h, pathhost, r)
    ensures Refuses(h, pathhost, q) && PassesBefore(h, pathhost, q)
    decreases StageOf(r)
  {
    hide Refuses, Passes;
    if PassesBefore(h, pathhost, r) {
      q := r;
    } else {
      var p :| StageOf(p) < StageOf(r) && !Passes(h, pathhost, p);
      var p' := PassesOrRefuses(h, pathhost, p);
      q := FirstGround(h, pathhost, p');
    }
  }

  /** A header without an acceptable value gives ground for a refusal at the same stage. */
  lemma PassesOrRefuses(h: Headers, pathhost: string, r: Refusal) returns (q: Refusal)
    requires !Passes(h, pathhost, r)
    ensures Refuses(h, pathhost, q) && StageOf(q) == StageOf(r)
  {
    hide IsValue, TrimSpace, GroupList, ValidGroupName, ValidMessageID, PathContains;
    var l := SomeLooks(h);
    q := r;
    if r in {MissingMessageID, BadMessageID} {
      q := if TrimSpace(l.id) == "" then MissingMessageID else BadMessageID;
    }
  }

  /** It can be refused at all exactly when some header that is looked at has an unacceptable value. */
  lemma AnyRefusalIff(h: Headers, pathhost: string)
    ensures (exists r :: MayRefuse(h, pathhost, r)) <==> exists r :: Refuses(h, pathhost, r)
  {
    hide MayRefuse, Refuses, PassesBefore;
    if r :| MayRefuse(h, pathhost, r) {
      RefusedIff(h, pathhost, r);
    }
    if r :| Refuses(h, pathhost, r) {
      var q := FirstGround(h, pathhost, r);
      RefusedIff(h, pathhost, q);
    }
  }

  /** Whether it is taken is the same under every order of the header map exactly when not both an acceptable value
      of every header and an unacceptable one of some header are there. */
  lemma SameOutcomeIff(h: Headers, pathhost: string)
    ensures (forall l, m | LooksAt(h, l) && LooksAt(h, m) :: Outcome(h, pathhost, l).0.None? == Outcome(h, pathhost, m).0.None?)
       <==> !(Acceptable(h, pathhost) && exists r :: Refuses(h, pathhost, r))
  {
    hide LooksAt, Outcome, Refuses, Acceptable;
    TakenIff(h, pathhost);
    AnyRefusalIff(h, pathhost);
    if MayTake(h, pathhost) && exists r :: MayRefuse(h, pathhost, r) {
      var r :| MayRefuse(h, pathhost, r);
      var l :| LooksAt(h, l) && Outcome(h, pathhost, l).0 == None;
      var m :| LooksAt(h, m) && Outcome(h, pathhost, m).0 == Some(r);
      assert Outcome(h, pathhost, l).0.None? != Outcome(h, pathhost, m).0.None?;
    }
    if l, m :| LooksAt(h, l) && LooksAt(h, m) && Outcome(h, pathhost, l).0.None? && !Outcome(h, pathhost, m).0.None? {
      assert MayRefuse(h, pathhost, Outcome(h, pathhost, m).0.value);
    }
  }

  /** It can both be taken and be refused for a reason exactly when every header has an acceptable value and there is
      ground for that reason: the header that it is about then has spellings with different values, one acceptable
      and one not. */
  lemma TakenAndRefusedIff(h: Headers, pathhost: string, r: Refusal)
    ensures MayTake(h, pathhost) && MayRefuse(h, pathhost, r) <==> Acceptable(h, pathhost) && Refuses(h, pathhost, r)
    ensures Acceptable(h, pathhost) && Refuses(h, pathhost, r) ==> Ambiguous(h, HeaderOf(r)) && !Single(h, HeaderOf(r))
  {
    TakenIff(h, pathhost);
    RefusedIff(h, pathhost, r);
    if Acceptable(h, pathhost) && Refuses(h, pathhost, r) {
      AcceptablePasses(h, pathhost, r);
      PassesAndRefuses(h, pathhost, r);
      if Single(h, HeaderOf(r)) {
        SingleClear(h, HeaderOf(r));
      }
    }
  }

  lemma AcceptablePasses(h: Headers, pathhost: string, r: Refusal)
    requires Acceptable(h, pathhost)
    ensures Passes(h, pathhost, r) && PassesBefore(h, pathhost, r)
  {
    hide FilledHeader, SomeGroups, GoodGroups, GoodID, ClearPath;
  }

  lemma PassesAndRefuses(h: Headers, pathhost: string, r: Refusal)
    requires Passes(h, pathhost, r) && Refuses(h, pathhost, r)
    ensures Ambiguous(h, HeaderOf(r))
  {
    hide IsValue, TrimSpace, GroupList, ValidGroupName, ValidMessageID, PathContains;
    NotEmptyID();
  }

  /** An article with two spellings of its Path, one of which names the server. */
  lemma TwoPathsExample() returns (h: Headers)
    ensures h == map["From" := ["a"], "Newsgroups" := ["g"], "Subject" := ["s"], "Message-ID" := ["<a@b>"], "Date" := ["d"],
                     "Path" := ["a"], "PATH" := ["b"]]
    ensures MayTake(h, "b") && MayRefuse(h, "b", PathLoop)
  {
    h := map["From" := ["a"], "Newsgroups" := ["g"], "Subject" := ["s"], "Message-ID" := ["<a@b>"], "Date" := ["d"],
             "Path" := ["a"], "PATH" := ["b"]];
    ExampleValues(h);
    ExampleTexts();
    hide *;
    ExampleAcceptable(h);
    TakenAndRefusedIff(h, "b", PathLoop);
  }

  lemma ValueOf(h: Headers, name: string, k: string)
    requires k in h && h[k] != [] && EqualFold(k, name)
    ensures IsValue(h, name, h[k][0])
  {
    assert Carries(h, name, k);
  }

  lemma ExampleValues(h: Headers)
    requires h == map["From" := ["a"], "Newsgroups" := ["g"], "Subject" := ["s"], "Message-ID" := ["<a@b>"], "Date" := ["d"],
                      "Path" := ["a"], "PATH" := ["b"]]
    ensures IsValue(h, "From", "a") && IsValue(h, "Newsgroups", "g") && IsValue(h, "Subject", "s")
    ensures IsValue(h, "Message-ID", "<a@b>") && IsValue(h, "Date", "d")
    ensures IsValue(h, "Path", "a") && IsValue(h, "Path", "b")
  {
    SamePath();
    EqualFoldSame("From");
    EqualFoldSame("Newsgroups");
    EqualFoldSame("Subject");
    EqualFoldSame("Message-ID");
    EqualFoldSame("Date");
    EqualFoldSame("Path");
    hide IsValue, EqualFold;
    ValueOf(h, "From", "From");
    ValueOf(h, "Newsgroups", "Newsgroups");
    ValueOf(h, "Subject", "Subject");
    ValueOf(h, "Message-ID", "Message-ID");
    ValueOf(h, "Date", "Date");
    ValueOf(h, "Path", "Path");
    ValueOf(h, "Path", "PATH");
  }

  lemma SamePath()
    ensures EqualFold("PATH", "Path")
  {
    assert Fold("PATH") == "path" && Fold("Path") == "path";
  }

  lemma ExampleTexts()
    ensures TrimSpace("a") == "a" && TrimSpace("s") == "s" && TrimSpace("d") == "d" && TrimSpace("<a@b>") == "<a@b>"
    ensures GroupList("g") == ["g"] && ValidGroupName("g") && ValidMessageID("<a@b>")
    ensures PathContains("b", "b") && !PathContains("a", "b")
  {
    hide *;
    ExampleGroup();
    ExampleID();
    ExamplePath("a");
    ExamplePath("b");
    ExampleLetters();
  }

  lemma ExampleLetters()
    ensures TrimSpace("s") == "s" && TrimSpace("d") == "d"
  {
    TrimSpaceId("s");
    TrimSpaceId("d");
  }

  lemma ExampleGroup()
    ensures GroupList("g") == ["g"] && ValidGroupName("g")
  {
    SplitFree("g", ',');
    TrimSpaceId("g");
    hide TrimSpace, Split;
    assert ["g"][1..] == [];
    assert Names([]) == [];
  }

  lemma ExampleID()
    ensures ValidMessageID("<a@b>") && TrimSpace("<a@b>") == "<a@b>"
  {
    assert "<a@b>"[2] == '@';
    IDTrimmed("<a@b>");
  }

  lemma ExamplePath(path: string)
    requires path == "a" || path == "b"
    ensures TrimSpace(path) == path && (PathContains(path, "b") <==> path == "b")
  {
    LettersDiffer();
    SplitFree(path, '!');
    TrimSpaceId(path);
    TrimSpaceId("b");
    hide TrimSpace, Split, EqualFold;
    assert path in [path];
  }

  lemma LettersDiffer()
    ensures !EqualFold("a", "b") && EqualFold("b", "b")
  {
    assert Fold("a")[0] == 'a' && Fold("b")[0] == 'b';
  }

  lemma ExampleAcceptable(h: Headers)
    requires IsValue(h, "From", "a") && IsValue(h, "Newsgroups", "g") && IsValue(h, "Subject", "s")
    requires IsValue(h, "Message-ID", "<a@b>") && IsValue(h, "Date", "d") && IsValue(h, "Path", "a") && IsValue(h, "Path", "b")
    requires TrimSpace("a") == "a" && TrimSpace("s") == "s" && TrimSpace("d") == "d" && TrimSpace("<a@b>") == "<a@b>"
    requires GroupList("g") == ["g"] && ValidGroupName("g") && ValidMessageID("<a@b>")
    requires PathContains("b", "b") && !PathContains("a", "b")
    ensures Acceptable(h, "b") && Refuses(h, "b", PathLoop)
  {
    hide IsValue, TrimSpace, GroupList, ValidGroupName, ValidMessageID, PathContains;
  }

  // ----- Posting -----

  /** What a server adds to a posted article. */
  datatype PostOptions = PostOptions(
    pathhost: string, generatedID: string, date: string, organization: string, info: string)

  ghost predicate Completed(h: Headers, name: string, value: string, h': Headers) {
    exists present :: IsValue(h, name, present) && h' == if present == "" then SetHeader(h, name, value) else h
  }

  /** The Message-ID is trimmed, or a new one is given. */
  ghost predicate Identified(h: Headers, opt: PostOptions, h': Headers) {
    exists id :: IsValue(h, "Message-ID", id) && (TrimSpace(id) != "" ==> ValidMessageID(TrimSpace(id)))
              && h' == SetHeader(h, "Message-ID", if TrimSpace(id) != "" then TrimSpace(id) else opt.generatedID)
  }

  /** The server stands first on the Path. */
  ghost predicate PathGiven(h: Headers, pathhost: string, h': Headers) {
    exists present, tested, value :: PathGivenAs(h, pathhost, present, tested, value, h')
  }

  ghost predicate PathGivenAs(h: Headers, pathhost: string, present: string, tested: string, value: string, h': Headers) {
    IsValue(h, "Path", present)
    && (if present == "" then h' == SetHeader(h, "Path", pathhost + "!not-for-mail")
        else IsValue(h, "Path", tested) &&
             if HasPrefix(tested, pathhost + "!") then h' == h
             else IsValue(h, "Path", value) && h' == SetHeader(h, "Path", pathhost + "!" + value))
  }

  ghost predicate Organized(h: Headers, opt: PostOptions, h': Headers) {
    if opt.organization == "" then h' == h else Completed(h, "Organization", opt.organization, h')
  }

  ghost predicate PostInjectedBy(h0: Headers, h1: Headers, h2: Headers, h3: Headers, h4: Headers, h5: Headers, h6: Headers,
                                 h': Headers, opt: PostOptions)
  {
    && Identified(h0, opt, h1) && Completed(h1, "Date", opt.date, h2) && PathGiven(h2, opt.pathhost, h3)
    && Organized(h3, opt, h4) && Completed(h4, "Injection-Date", opt.date, h5) && Completed(h5, "Injection-Info", opt.info, h6)
    && h' == Without(h6, "Xref")
  }

  /** The effect of injecting a posted article. */
  ghost predicate PostInjected(h: Headers, opt: PostOptions, h': Headers) {
    exists h1, h2, h3, h4, h5, h6 :: PostInjectedBy(h, h1, h2, h3, h4, h5, h6, h', opt)
  }

  lemma BadIDRefused(h: Headers, pathhost: string, id: string)
    requires IsValue(h, "Message-ID", id) && TrimSpace(id) != "" && !ValidMessageID(TrimSpace(id))
    ensures Refuses(h, pathhost, BadMessageID)
  {
  }

  // ----- Looks one after another -----

  lemma AddressOutcome(h: Headers, pathhost: string, l: Looks)
    requires AddressRefusal(l).Some?
    ensures Outcome(h, pathhost, l) == (AddressRefusal(l), h)
  {
  }

  lemma LookedID(h: Headers, l: Looks, id: string) returns (l': Looks)
    requires LooksAt(h, l) && IsValue(h, "Message-ID", id)
    ensures l' == l.(id := id) && LooksAt(h, l') && AddressRefusal(l') == AddressRefusal(l)
  {
    hide IsValue, TrimSpace, GroupList, ValidGroups;
    l' := l.(id := id);
  }

  lemma OutcomeID(h: Headers, pathhost: string, l: Looks)
    requires AddressRefusal(l) == None
    ensures TrimSpace(l.id) == "" ==> Outcome(h, pathhost, l) == (Some(MissingMessageID), h)
    ensures TrimSpace(l.id) != "" && !ValidMessageID(TrimSpace(l.id)) ==> Outcome(h, pathhost, l) == (Some(BadMessageID), h)
  {
    hide AddressRefusal, TrimSpace, ValidMessageID;
  }

  /** Trimming the Message-ID changes no other header. */
  lemma SameLooks(h: Headers, id: string)
    ensures var h1 := SetHeader(h, "Message-ID", TrimSpace(id));
            && (forall v :: IsValue(h1, "Date", v) <==> IsValue(h, "Date", v))
            && (forall v :: IsValue(h1, "Path", v) <==> IsValue(h, "Path", v))
  {
    FieldsDiffer(MessageID, Date);
    FieldsDiffer(MessageID, Path);
    SetHeaderOther(h, "Message-ID", TrimSpace(id), "Date");
    SetHeaderOther(h, "Message-ID", TrimSpace(id), "Path");
    hide IsValue, EqualFold, SetHeader;
  }

  lemma LookedDate(h: Headers, l: Looks, date: string) returns (l': Looks)
    requires LooksAt(h, l) && IsValue(h, "Date", date)
    ensures l' == l.(date := date) && LooksAt(h, l') && AddressRefusal(l') == AddressRefusal(l)
  {
    hide IsValue, TrimSpace, GroupList, ValidGroups;
    l' := l.(date := date);
  }

  lemma OutcomeDate(h: Headers, pathhost: string, l: Looks)
    requires AddressRefusal(l) == None && TrimSpace(l.id) != "" && ValidMessageID(TrimSpace(l.id))
    ensures TrimSpace(l.date) == "" ==>
              Outcome(h, pathhost, l) == (Some(MissingDate), SetHeader(h, "Message-ID", TrimSpace(l.id)))
  {
    hide AddressRefusal, TrimSpace, ValidMessageID, SetHeader;
  }

  lemma LookedPath(h: Headers, l: Looks, checked: string, present: string, value: string) returns (l': Looks)
    requires LooksAt(h, l) && IsValue(h, "Path", checked) && IsValue(h, "Path", present) && IsValue(h, "Path", value)
    ensures l' == l.(checked := checked, present := present, value := value)
    ensures LooksAt(h, l') && AddressRefusal(l') == AddressRefusal(l)
  {
    hide IsValue, TrimSpace, GroupList, ValidGroups;
    l' := l.(checked := checked, present := present, value := value);
  }

  lemma OutcomePath(h: Headers, pathhost: string, l: Looks)
    requires AddressRefusal(l) == None && TrimSpace(l.id) != "" && ValidMessageID(TrimSpace(l.id)) && TrimSpace(l.date) != ""
    ensures var h1 := SetHeader(h, "Message-ID", TrimSpace(l.id));
            Outcome(h, pathhost, l) ==
              if PathContains(l.checked, pathhost) then (Some(PathLoop), h1)
              else
                (None, Without(SetHeader(h1, "Path", if l.present == "" then pathhost + "!not-for-mail" else pathhost + "!" + l.value),
                               "Xref"))
  {
    hide AddressRefusal, TrimSpace, ValidMessageID, SetHeader, PathContains, Without;
    assert pathhost + "!not-for-mail" == Prepended("", pathhost);
  }

  /** What is taken is an injection. */
  lemma TakenInjected(h: Headers, pathhost: string, l: Looks)
    requires LooksAt(h, l) && Outcome(h, pathhost, l).0 == None
    ensures Injected(h, pathhost, Outcome(h, pathhost, l).1)
  {
    SameLooks(h, l.id);
    hide AddressRefusal, TrimSpace, ValidMessageID, SetHeader, PathContains, Without, IsValue;
    assert InjectedAs(h, pathhost, Outcome(h, pathhost, l).1, l.id, l.checked, l.present, l.value);
  }

  lemma IdentifiedBy(h: Headers, opt: PostOptions, id: string, h': Headers)
    requires IsValue(h, "Message-ID", id) && (TrimSpace(id) != "" ==> ValidMessageID(TrimSpace(id)))
    requires h' == SetHeader(h, "Message-ID", if TrimSpace(id) != "" then TrimSpace(id) else opt.generatedID)
    ensures Identified(h, opt, h')
  {
  }

  lemma PathGivenBy(h: Headers, pathhost: string, present: string, tested: string, value: string, h': Headers)
    requires PathGivenAs(h, pathhost, present, tested, value, h')
    ensures PathGiven(h, pathhost, h')
  {
  }

  /** Only the header of this name changed, and it has one spelling if it had. */
  ghost predicate Touches(h: Headers, name: string, h': Headers) {
    && (forall k | !EqualFold(k, name) :: (k in h' <==> k in h) && (k in h ==> h'[k] == h[k]))
    && (Single(h, name) ==> Single(h', name))
  }

  lemma TouchesOther(h: Headers, name: string, h': Headers, other: string)
    requires Touches(h, name, h') && !EqualFold(name, other)
    ensures forall v :: IsValue(h', other, v) <==> IsValue(h, other, v)
    ensures Single(h', other) <==> Single(h, other)
  {
    forall k | EqualFold(k, other)
      ensures (k in h' <==> k in h) && (k in h ==> h'[k] == h[k])
    {
    }
    forall k
      ensures Carries(h', other, k) <==> Carries(h, other, k)
    {
    }
  }

  lemma SetTouches(h: Headers, name: string, value: string)
    ensures Touches(h, name, SetHeader(h, name, value)) && Touches(h, name, h) && Touches(h, name, Without(h, name))
  {
  }

  /** The header is there in one spelling with a value. */
  ghost predicate Present(h: Headers, name: string) {
    Single(h, name) && forall v :: IsValue(h, name, v) ==> v != ""
  }

  ghost predicate HasValue(h: Headers, name: string) {
    exists v :: IsValue(h, name, v) && v != ""
  }

  lemma CompletedIs(h: Headers, name: string, value: string, h': Headers)
    requires Completed(h, name, value, h') && value != ""
    ensures Touches(h, name, h') && HasValue(h', name)
    ensures Single(h, name) ==> Present(h', name)
  {
    var present :| IsValue(h, name, present) && h' == if present == "" then SetHeader(h, name, value) else h;
    SetTouches(h, name, value);
    SetHeaderValue(h, name, value);
    hide Touches, SetHeader;
    if present != "" {
      assert HasValue(h', name);
      forall v | Single(h, name) && IsValue(h, name, v)
        ensures v != ""
      {
        SingleValue(h, name, v, present);
      }
    } else {
      assert IsValue(h', name, value);
    }
  }

  lemma CompletedStays(h: Headers, name: string, value: string, h': Headers)
    requires Completed(h, name, value, h') && Present(h, name)
    ensures h' == h
  {
  }

  /** The Path begins with the server. */
  ghost predicate Begins(h: Headers, pathhost: string) {
    Single(h, "Path") && forall v :: IsValue(h, "Path", v) ==> v != "" && HasPrefix(v, pathhost + "!")
  }

  ghost predicate MayBegin(h: Headers, pathhost: string) {
    exists v :: IsValue(h, "Path", v) && HasPrefix(v, pathhost + "!")
  }

  lemma PathGivenIs(h: Headers, pathhost: string, h': Headers)
    requires PathGiven(h, pathhost, h')
    ensures Touches(h, "Path", h') && MayBegin(h', pathhost)
    ensures Single(h, "Path") ==> Begins(h', pathhost)
  {
    var present, tested, value :| PathGivenAs(h, pathhost, present, tested, value, h');
    var p := if present == "" then pathhost + "!not-for-mail" else pathhost + "!" + value;
    SetTouches(h, "Path", p);
    SetHeaderValue(h, "Path", p);
    PrefixOf(pathhost + "!", "not-for-mail");
    PrefixOf(pathhost + "!", value);
    assert pathhost + "!not-for-mail" == pathhost + "!" + "not-for-mail";
    hide Touches, SetHeader, HasPrefix;
    if present != "" && HasPrefix(tested, pathhost + "!") {
      assert IsValue(h', "Path", tested);
      forall v | Single(h, "Path") && IsValue(h, "Path", v)
        ensures v == present && v == tested
      {
        SingleValue(h, "Path", v, present);
        SingleValue(h, "Path", v, tested);
      }
    } else {
      assert IsValue(h', "Path", p);
    }
  }

  lemma PrefixOf(a: string, b: string)
    ensures HasPrefix(a + b, a)
  {
  }

  lemma PathGivenStays(h: Headers, pathhost: string, h': Headers)
    requires PathGiven(h, pathhost, h') && Begins(h, pathhost)
    ensures h' == h
  {
    hide HasPrefix, SetHeader;
  }

  /** The Message-ID is there under its own spelling, valid and trimmed. */
  ghost predicate Numbered(h: Headers) {
    Single(h, "Message-ID") && "Message-ID" in h && |h["Message-ID"]| == 1
    && ValidMessageID(h["Message-ID"][0]) && TrimSpace(h["Message-ID"][0]) == h["Message-ID"][0]
  }

  lemma IdentifiedIs(h: Headers, opt: PostOptions, h': Headers)
    requires Identified(h, opt, h') && ValidMessageID(opt.generatedID)
    ensures Touches(h, "Message-ID", h') && Numbered(h')
  {
    hide ValidMessageID, TrimSpace;
    var id :| IsValue(h, "Message-ID", id) && (TrimSpace(id) != "" ==> ValidMessageID(TrimSpace(id)))
              && h' == SetHeader(h, "Message-ID", if TrimSpace(id) != "" then TrimSpace(id) else opt.generatedID);
    var v := if TrimSpace(id) != "" then TrimSpace(id) else opt.generatedID;
    SetTouches(h, "Message-ID", v);
    SetHeaderValue(h, "Message-ID", v);
    EqualFoldSame("Message-ID");
    IDTrimmed(v);
  }

  /** A valid Message-ID is trimmed. */
  lemma IDTrimmed(id: string)
    requires ValidMessageID(id)
    ensures TrimSpace(id) == id
  {
    assert !IsSpace('<') && !IsSpace('>');
    TrimSpaceId(id);
  }

  lemma SetAgain(h: Headers, name: string, v: string)
    requires Single(h, name) && name in h && h[name] == [v]
    ensures SetHeader(h, name, v) == h && IsValue(h, name, v)
  {
    EqualFoldSame(name);
    var again := SetHeader(h, name, v);
    forall k
      ensures (k in again <==> k in h) && (k in h ==> again[k] == h[k])
    {
    }
    assert Carries(h, name, name);
    assert again == h;
  }

  lemma NumberedTouched(h: Headers, name: string, h': Headers)
    requires Numbered(h) && Touches(h, name, h') && !EqualFold(name, "Message-ID") && !EqualFold("Message-ID", name)
    ensures Numbered(h')
  {
    hide ValidMessageID, TrimSpace;
    TouchesOther(h, name, h', "Message-ID");
  }

  lemma PresentTouched(h: Headers, name: string, h': Headers, other: string)
    requires Present(h, other) && Touches(h, name, h') && !EqualFold(name, other)
    ensures Present(h', other)
  {
    TouchesOther(h, name, h', other);
  }

  lemma BeginsTouched(h: Headers, name: string, h': Headers, pathhost: string)
    requires Begins(h, pathhost) && Touches(h, name, h') && !EqualFold(name, "Path")
    ensures Begins(h', pathhost)
  {
    TouchesOther(h, name, h', "Path");
  }

  /** The headers that posting deals with. */
  datatype Field = MessageID | Date | Path | Organization | InjectionDate | InjectionInfo | Xref

  function NameOf(f: Field): string {
    match f
    case MessageID => "Message-ID"
    case Date => "Date"
    case Path => "Path"
    case Organization => "Organization"
    case InjectionDate => "Injection-Date"
    case InjectionInfo => "Injection-Info"
    case Xref => "Xref"
  }

  lemma FieldsDiffer(f: Field, g: Field)
    requires f != g
    ensures !EqualFold(NameOf(f), NameOf(g))
  {
    assert |Fold("Message-ID")| == 10 && |Fold("Date")| == |Fold("Path")| == |Fold("Xref")| == 4;
    assert |Fold("Organization")| == 12 && |Fold("Injection-Date")| == |Fold("Injection-Info")| == 14;
    assert Fold("Date")[0] == 'd' && Fold("Path")[0] == 'p' && Fold("Xref")[0] == 'x';
    assert Fold("Injection-Date")[10] == 'd' && Fold("Injection-Info")[10] == 'i';
  }

  const PROVIDED := {MessageID, Date, Path, Organization, InjectionDate, InjectionInfo}

  /** What an injection provides under a name. */
  ghost predicate Fact(h: Headers, opt: PostOptions, f: Field) {
    match f
    case MessageID => Numbered(h)
    case Path => Begins(h, opt.pathhost)
    case Organization => opt.organization != "" ==> Present(h, "Organization")
    case _ => Present(h, NameOf(f))
  }

  /** What it provides whatever spellings there were: a look may find the value. */
  ghost predicate Held(h: Headers, opt: PostOptions, f: Field) {
    match f
    case MessageID => Numbered(h)
    case Path => MayBegin(h, opt.pathhost)
    case Organization => opt.organization != "" ==> HasValue(h, "Organization")
    case _ => HasValue(h, NameOf(f))
  }

  /** The names that were dealt with are held, and of those with one spelling every look finds the value; the
      others keep their one spelling. */
  ghost predicate Ready(h: Headers, opt: PostOptions, one: set<Field>, done: set<Field>) {
    && (forall f | f in PROVIDED && f in done :: Held(h, opt, f))
    && forall f | f in one && f in PROVIDED :: if f in done then Fact(h, opt, f) else f != MessageID ==> Single(h, NameOf(f))
  }

  /** The headers that come in one spelling; the Message-ID is given one in any case. */
  ghost function InOneSpelling(h: Headers): set<Field> {
    set f | f in PROVIDED && (f == MessageID || Single(h, NameOf(f)))
  }

  lemma FactTouched(h: Headers, opt: PostOptions, g: Field, h': Headers, f: Field)
    requires Fact(h, opt, f) && Touches(h, NameOf(g), h') && g != f && f in PROVIDED
    ensures Fact(h', opt, f)
  {
    FieldsDiffer(g, f);
    FieldsDiffer(f, g);
    hide Numbered, Begins, Present, Touches, EqualFold;
    match f
    case MessageID => NumberedTouched(h, NameOf(g), h');
    case Path => BeginsTouched(h, NameOf(g), h', opt.pathhost);
    case Organization =>
      if opt.organization != "" {
        PresentTouched(h, NameOf(g), h', "Organization");
      }
    case _ => PresentTouched(h, NameOf(g), h', NameOf(f));
  }

  lemma HeldTouched(h: Headers, opt: PostOptions, g: Field, h': Headers, f: Field)
    requires Held(h, opt, f) && Touches(h, NameOf(g), h') && g != f && f in PROVIDED
    ensures Held(h', opt, f)
  {
    FieldsDiffer(g, f);
    FieldsDiffer(f, g);
    TouchesOther(h, NameOf(g), h', NameOf(f));
    hide Numbered, Touches, EqualFold, IsValue, HasPrefix;
    if f == MessageID {
      NumberedTouched(h, NameOf(g), h');
    }
  }

  lemma ReadyStep(h: Headers, opt: PostOptions, one: set<Field>, done: set<Field>, g: Field, h': Headers)
    requires Ready(h, opt, one, done) && Touches(h, NameOf(g), h')
    requires g in PROVIDED ==> Held(h', opt, g) && (g in one ==> Fact(h', opt, g))
    ensures Ready(h', opt, one, done + {g})
  {
    hide Fact, Held, Touches, EqualFold, Single, NameOf;
    forall f | f in PROVIDED && f in done && f != g
      ensures Held(h', opt, f)
    {
      HeldTouched(h, opt, g, h', f);
    }
    forall f | f in one && f in PROVIDED && f != g
      ensures if f in done then Fact(h', opt, f) else f != MessageID ==> Single(h', NameOf(f))
    {
      if f in done {
        FactTouched(h, opt, g, h', f);
      } else {
        FieldsDiffer(g, f);
        TouchesOther(h, NameOf(g), h', NameOf(f));
      }
    }
  }

  /** A posted article has everything: a valid Message-ID, a Date, the server first on its Path, and no Xref. Of a
      header that came in one spelling every look finds this, of others some look. */
  ghost predicate Provided(h: Headers, opt: PostOptions, one: set<Field>) {
    Ready(h, opt, one, PROVIDED) && forall k | k in h :: !EqualFold(k, "Xref")
  }

  lemma CompletesStep(h: Headers, opt: PostOptions, one: set<Field>, done: set<Field>, f: Field, value: string, h': Headers)
    requires Ready(h, opt, one, done) && f !in done && f in {Date, Organization, InjectionDate, InjectionInfo}
    requires Completed(h, NameOf(f), value, h') && value != ""
    ensures Ready(h', opt, one, done + {f})
  {
    hide Single, NameOf;
    assert f in one ==> Single(h, NameOf(f));
    CompletedIs(h, NameOf(f), value, h');
    hide Completed, Touches, Present, HasValue;
    FactPresent(h', opt, f);
    ReadyStep(h, opt, one, done, f, h');
  }

  lemma FactPresent(h: Headers, opt: PostOptions, f: Field)
    requires f in {Date, Organization, InjectionDate, InjectionInfo}
    ensures HasValue(h, NameOf(f)) ==> Held(h, opt, f)
    ensures Present(h, NameOf(f)) ==> Fact(h, opt, f)
  {
  }

  lemma IdentifiedStep(h: Headers, opt: PostOptions, h': Headers)
    requires Identified(h, opt, h') && ValidMessageID(opt.generatedID)
    ensures Ready(h', opt, InOneSpelling(h), {MessageID})
  {
    hide Identified, Touches, Numbered, Single, ValidMessageID;
    assert Ready(h, opt, InOneSpelling(h), {});
    IdentifiedIs(h, opt, h');
    ReadyStep(h, opt, InOneSpelling(h), {}, MessageID, h');
    assert {} + {MessageID} == {MessageID};
  }

  lemma PathStep(h: Headers, opt: PostOptions, one: set<Field>, done: set<Field>, h': Headers)
    requires Ready(h, opt, one, done) && Path !in done && PathGiven(h, opt.pathhost, h')
    ensures Ready(h', opt, one, done + {Path})
  {
    hide PathGiven, Touches, Begins, MayBegin, Single;
    assert Path in one ==> Single(h, NameOf(Path));
    PathGivenIs(h, opt.pathhost, h');
    ReadyStep(h, opt, one, done, Path, h');
  }

  lemma OrganizedStep(h: Headers, opt: PostOptions, one: set<Field>, done: set<Field>, h': Headers)
    requires Ready(h, opt, one, done) && Organization !in done && Organized(h, opt, h')
    ensures Ready(h', opt, one, done + {Organization})
  {
    hide Single, Touches, Completed;
    if opt.organization == "" {
      SetTouches(h, "Organization", "");
      ReadyStep(h, opt, one, done, Organization, h);
    } else {
      CompletesStep(h, opt, one, done, Organization, opt.organization, h');
    }
  }

  lemma XrefGone(h: Headers, opt: PostOptions, one: set<Field>)
    requires Ready(h, opt, one, PROVIDED)
    ensures Provided(Without(h, "Xref"), opt, one)
  {
    SetTouches(h, "Xref", "");
    hide Fact, Held, Touches, Single;
    ReadyStep(h, opt, one, PROVIDED, Xref, Without(h, "Xref"));
  }

  /** Posting provides everything. */
  lemma PostProvides(h: Headers, opt: PostOptions, h1: Headers, h2: Headers, h3: Headers, h4: Headers, h5: Headers, h6: Headers, h': Headers)
    requires PostInjectedBy(h, h1, h2, h3, h4, h5, h6, h', opt)
    requires ValidMessageID(opt.generatedID) && opt.date != "" && opt.info != ""
    ensures Provided(h', opt, InOneSpelling(h))
  {
    hide Identified, Completed, PathGiven, Organized, ValidMessageID, Fact, Without, Provided, Ready, InOneSpelling;
    var one := InOneSpelling(h);
    IdentifiedStep(h, opt, h1);
    CompletesStep(h1, opt, one, {MessageID}, Date, opt.date, h2);
    PathStep(h2, opt, one, {MessageID} + {Date}, h3);
    OrganizedStep(h3, opt, one, {MessageID} + {Date} + {Path}, h4);
    var d := {MessageID} + {Date} + {Path} + {Organization};
    CompletesStep(h4, opt, one, d, InjectionDate, opt.date, h5);
    CompletesStep(h5, opt, one, d + {InjectionDate}, InjectionInfo, opt.info, h6);
    assert d + {InjectionDate} + {InjectionInfo} == PROVIDED;
    XrefGone(h6, opt, one);
  }

  lemma InjectedBy(h0: Headers, h1: Headers, h2: Headers, h3: Headers, h4: Headers, h5: Headers, h6: Headers, h': Headers, opt: PostOptions)
    requires PostInjectedBy(h0, h1, h2, h3, h4, h5, h6, h', opt)
    ensures PostInjected(h0, opt, h')
    ensures ValidMessageID(opt.generatedID) && opt.date != "" && opt.info != "" ==> Provided(h', opt, InOneSpelling(h0))
  {
    hide PostInjectedBy, InOneSpelling, ValidMessageID, Provided;
    if ValidMessageID(opt.generatedID) && opt.date != "" && opt.info != "" {
      PostProvides(h0, opt, h1, h2, h3, h4, h5, h6, h');
    }
  }

  /** Where the headers came in one spelling each, injecting once more at the same server changes nothing, whatever the time and the new identifier would be. */
  lemma PostedTwice(h: Headers, opt: PostOptions, opt': PostOptions, h': Headers)
    requires Provided(h, opt, PROVIDED) && PostInjected(h, opt', h')
    requires opt'.pathhost == opt.pathhost && (opt'.organization == "" || opt'.organization == opt.organization)
    ensures h' == h
  {
    var h1, h2, h3, h4, h5, h6 :| PostInjectedBy(h, h1, h2, h3, h4, h5, h6, h', opt');
    ProvidedFacts(h, opt);
    hide *;
    StaysThrough(h, opt', h1, h2, h3, h4, h5, h6, h');
  }

  lemma StaysThrough(h: Headers, opt: PostOptions, h1: Headers, h2: Headers, h3: Headers, h4: Headers, h5: Headers, h6: Headers, h': Headers)
    requires PostInjectedBy(h, h1, h2, h3, h4, h5, h6, h', opt)
    requires Numbered(h) && Present(h, "Date") && Begins(h, opt.pathhost) && Present(h, "Injection-Date") && Present(h, "Injection-Info")
    requires opt.organization != "" ==> Present(h, "Organization")
    requires Without(h, "Xref") == h
    ensures h' == h
  {
    hide Completed, PathGiven, Begins, Present, Without, IsValue, SetHeader, Single, TrimSpace, ValidMessageID;
    NotEmptyID();
    var v := h["Message-ID"][0];
    SetAgain(h, "Message-ID", v);
    var id :| IsValue(h, "Message-ID", id) && (TrimSpace(id) != "" ==> ValidMessageID(TrimSpace(id)))
              && h1 == SetHeader(h, "Message-ID", if TrimSpace(id) != "" then TrimSpace(id) else opt.generatedID);
    SingleValue(h, "Message-ID", id, v);
    CompletedStays(h, "Date", opt.date, h2);
    PathGivenStays(h, opt.pathhost, h3);
    if opt.organization != "" {
      CompletedStays(h, "Organization", opt.organization, h4);
    }
    CompletedStays(h, "Injection-Date", opt.date, h5);
    CompletedStays(h, "Injection-Info", opt.info, h6);
  }

  lemma ProvidedFacts(h: Headers, opt: PostOptions)
    requires Provided(h, opt, PROVIDED)
    ensures Numbered(h) && Present(h, "Date") && Begins(h, opt.pathhost) && Present(h, "Injection-Date") && Present(h, "Injection-Info")
    ensures opt.organization != "" ==> Present(h, "Organization")
    ensures Without(h, "Xref") == h
  {
    hide Numbered, Present, Begins, EqualFold;
    assert Fact(h, opt, MessageID) && Fact(h, opt, Date) && Fact(h, opt, Path) && Fact(h, opt, Organization);
    assert Fact(h, opt, InjectionDate) && Fact(h, opt, InjectionInfo);
  }

  // ----- The object -----

  class Article {
    var rawHeaders: string
    var headers: Headers
    var body: string

    constructor (rawHeaders: string, body: string)
      ensures this.rawHeaders == rawHeaders && this.body == body && headers == map[]
    {
      this.rawHeaders := rawHeaders;
      this.body := body;
      headers := map[];
    }

    /** Parses received text. */
    static method Parse(raw: string) returns (err: Option<Error>, a: Article?)
      ensures a != null ==> fresh(a)
      ensures match ParseSpec(raw)
              case Ok(parts) => err == None && a != null && Parts(a.rawHeaders, a.headers, a.body) == parts
              case Err(e) => err == Some(e)
    {
      hide NormalizeNewlines, FindBlank, SplitLines, ParseLines;
      var text := NormalizeNewlines(raw);
      var head, body := "", "";
      var i := FindBlank(text);
      if i < |text| {
        head, body := text[..i], text[i + 4..];
      } else if HasSuffix(text, CRLF) {
        head, body := text[..|text| - 2], "";
      } else {
        return Some(NoSeparator), null;
      }
      a := new Article(head, body);
      err := a.ParseHeaders(head);
    }

    method ParseHeaders(head: string) returns (err: Option<Error>)
      requires headers == map[]
      modifies this`headers
      ensures match ParseLines(SplitLines(head), "", "", map[])
              case Ok(h) => err == None && headers == h
              case Err(e) => err == Some(e)
    {
      hide IndexOf, TrimSpace, TrimPrefix, SplitLines;
      var curName, curVal := "", "";
      var lines := SplitLines(head);
      assert lines[0..] == lines;
      for i := 0 to |lines|
        invariant ParseLines(lines, "", "", map[]) == ParseLines(lines[i..], curName, curVal, headers)
      {
        var line := lines[i];
        assert lines[i..][1..] == lines[i + 1..];
        if line == "" {
          continue;
        }
        if line[0] == ' ' || line[0] == '\t' {
          if curName == "" {
            return Some(FoldedWithoutName);
          }
          curVal := curVal + " " + TrimSpace(line);
          continue;
        }
        if curName != "" {
          headers := Add(headers, curName, TrimSpace(curVal));
          curName, curVal := "", "";
        }
        var j := IndexOf(line, ':');
        if j == |line| {
          return Some(MalformedLine);
        }
        curName := line[..j];
        curVal := curVal + TrimPrefix(line[j + 1..], " ");
      }
      if curName != "" {
        headers := Add(headers, curName, TrimSpace(curVal));
      }
      err := None;
    }

    method Get(name: string) returns (v: string)
      ensures IsValue(headers, name, v)
    {
      var todo := headers.Keys;
      while todo != {}
        invariant todo <= headers.Keys
        invariant forall k | k in headers && k !in todo :: !Carries(headers, name, k)
        decreases todo
      {
        var k :| k in todo;
        todo := todo - {k};
        if EqualFold(k, name) && |headers[k]| > 0 {
          assert Carries(headers, name, k);
          return headers[k][0];
        }
      }
      return "";
    }

    method Set(name: string, value: string)
      modifies this`headers
      ensures headers == SetHeader(old(headers), name, value)
    {
      Delete(name);
      headers := headers[name := [value]];
    }

    /** Deletes every spelling of a header while walking the map. */
    method Delete(name: string)
      modifies this`headers
      ensures headers == Without(old(headers), name)
    {
      var todo := headers.Keys;
      while todo != {}
        invariant todo <= old(headers).Keys
        invariant headers == map k | k in old(headers) && (k in todo || !EqualFold(k, name)) :: old(headers)[k]
        decreases todo
      {
        var k :| k in todo;
        if EqualFold(k, name) {
          headers := headers - {k};
        }
        todo := todo - {k};
      }
    }

    method Newsgroups() returns (groups: seq<string>, ghost raw: string)
      ensures IsValue(headers, "Newsgroups", raw) && groups == GroupList(raw)
    {
      hide TrimSpace, Split, IsValue;
      var value := Get("Newsgroups");
      raw := value;
      if value == "" {
        NoNames();
        return [], raw;
      }
      groups := [];
      var parts := Split(value, ',');
      for i := 0 to |parts|
        invariant groups == Names(parts[..i])
      {
        var g := TrimSpace(parts[i]);
        NamesSnoc(parts[..i], parts[i]);
        assert parts[..i + 1] == parts[..i] + [parts[i]];
        if g != "" {
          groups := groups + [g];
        }
      }
      assert parts[..|parts|] == parts;
    }

    /** Writes the article: well-known headers first, the rest in the map's order. */
    method Wire() returns (wire: string)
      ensures exists ks :: Enumerates(ks, headers) && RankSorted(ks) && wire == Serialize(headers, ks, body)
    {
      hide HeaderText, KeyText, Rank, EqualFold;
      var b := "";
      var seen: set<string> := {};
      ghost var ks: seq<string> := [];
      HeaderTextEmpty(headers);
      for i := 0 to |WELL_KNOWN|
        invariant Written(headers, ks, seen, i) && b == HeaderText(headers, ks)
      {
        var todo := headers.Keys;
        while todo != {}
          invariant todo <= headers.Keys
          invariant Listed(headers, ks, seen) && b == HeaderText(headers, ks)
          invariant forall k | k in headers :: k in seen <==> Rank(k) < i || (Rank(k) == i && k !in todo)
          decreases todo
        {
          var k :| k in todo;
          todo := todo - {k};
          RankIs(k, i);
          if EqualFold(k, WELL_KNOWN[i]) {
            ListedSnoc(headers, ks, seen, k);
            HeaderTextSnoc(headers, ks, k);
            seen := seen + {k};
            b := b + KeyText(k, headers[k]);
            ks := ks + [k];
          }
        }
      }
      var todo := headers.Keys;
      while todo != {}
        invariant todo <= headers.Keys
        invariant ListedLast(headers, ks, seen, todo) && b == HeaderText(headers, ks)
        decreases todo
      {
        var k :| k in todo;
        todo := todo - {k};
        if k in seen {
          continue;
        }
        HeaderTextSnoc(headers, ks, k);
        b := b + KeyText(k, headers[k]);
        ks := ks + [k];
      }
      b := b + CRLF;
      b := b + body;
      if body != "" && !HasSuffix(body, CRLF) {
        b := b + CRLF;
      }
      wire := b;
      assert Enumerates(ks, headers) && RankSorted(ks);
      assert wire == Serialize(headers, ks, body);
    }

    /** The checks that every article must pass. */
    method CheckAddressed() returns (refused: Option<Refusal>, ghost l: Looks)
      ensures LooksAt(headers, l) && refused == AddressRefusal(l)
      ensures refused == None ==> Addressed(headers)
      ensures refused.Some? ==> forall pathhost :: Refuses(headers, pathhost, refused.value)
    {
      hide TrimSpace, ValidGroupName, IsValue, GroupList;
      l := SomeLooks(headers);
      var from := Get("From");
      l := l.(from := from);
      if TrimSpace(from) == "" {
        return Some(MissingFrom), l;
      }
      var groups, raw := Newsgroups();
      l := l.(groups := raw);
      if |groups| == 0 {
        return Some(MissingNewsgroups), l;
      }
      var subject := Get("Subject");
      l := l.(subject := subject);
      if TrimSpace(subject) == "" {
        return Some(MissingSubject), l;
      }
      groups, raw := Newsgroups();
      l := l.(names := raw);
      for i := 0 to |groups|
        invariant forall j | 0 <= j < i :: ValidGroupName(groups[j])
      {
        if !ValidGroupName(groups[i]) {
          return Some(BadGroupName), l;
        }
      }
      return None, l;
    }

    /** Takes an article offered by a peer, or refuses it, as the looks at its headers decide. */
    method InjectForIHave(pathhost: string) returns (refused: Option<Refusal>, ghost l: Looks)
      modifies this`headers
      ensures LooksAt(old(headers), l) && (refused, headers) == Outcome(old(headers), pathhost, l)
      ensures refused == None ==> Injected(old(headers), pathhost, headers)
    {
      hide *;
      refused, l := CheckAddressed();
      ghost var h := headers;
      if refused.Some? {
        AddressOutcome(h, pathhost, l);
        return;
      }
      var id := Get("Message-ID");
      l := LookedID(h, l, id);
      OutcomeID(h, pathhost, l);
      var msgid := TrimSpace(id);
      if msgid == "" {
        return Some(MissingMessageID), l;
      }
      if !ValidMessageID(msgid) {
        return Some(BadMessageID), l;
      }
      Set("Message-ID", msgid);
      ghost var h1 := headers;
      SameLooks(h, id);
      var date := Get("Date");
      l := LookedDate(h, l, date);
      OutcomeDate(h, pathhost, l);
      if TrimSpace(date) == "" {
        return Some(MissingDate), l;
      }
      var checked := Get("Path");
      l := LookedPath(h, l, checked, checked, checked);
      OutcomePath(h, pathhost, l);
      if PathContains(checked, pathhost) {
        return Some(PathLoop), l;
      }
      var present := Get("Path");
      var value := present;
      if present == "" {
        Set("Path", pathhost + "!not-for-mail");
      } else {
        value := Get("Path");
        Set("Path", pathhost + "!" + value);
      }
      Delete("Xref");
      l := LookedPath(h, l, checked, present, value);
      OutcomePath(h, pathhost, l);
      TakenInjected(h, pathhost, l);
      return None, l;
    }

    /** Sets a header that is missing. */
    method SetMissing(name: string, value: string)
      modifies this`headers
      ensures Completed(old(headers), name, value, headers)
    {
      hide IsValue, SetHeader;
      var present := Get(name);
      if present == "" {
        Set(name, value);
      }
    }

    /** Fills in the headers of an article that a user posts, or refuses it. */
    method InjectForPost(opt: PostOptions) returns (refused: Option<Refusal>, ghost l: Looks)
      modifies this`headers
      ensures LooksAt(old(headers), l)
      ensures refused == if AddressRefusal(l).Some? then AddressRefusal(l)
                         else if TrimSpace(l.id) != "" && !ValidMessageID(TrimSpace(l.id)) then Some(BadMessageID) else None
      ensures refused == None ==> PostInjected(old(headers), opt, headers) && Addressed(old(headers))
      ensures refused == None && ValidMessageID(opt.generatedID) && opt.date != "" && opt.info != "" ==>
                Provided(headers, opt, InOneSpelling(old(headers)))
      ensures refused.Some? ==> headers == old(headers) && Refuses(old(headers), opt.pathhost, refused.value)
    {
      hide TrimSpace, ValidMessageID, IsValue, SetHeader, Without, HasPrefix, Addressed, Refuses, Completed, Identified, PathGiven,
           Provided, InOneSpelling, PostInjected, PathGivenAs, AddressRefusal, LooksAt;
      refused, l := CheckAddressed();
      if refused.Some? {
        return;
      }
      ghost var h0 := headers;
      var id := Get("Message-ID");
      l := LookedID(h0, l, id);
      var msgid := TrimSpace(id);
      if msgid != "" {
        if !ValidMessageID(msgid) {
          BadIDRefused(headers, opt.pathhost, id);
          return Some(BadMessageID), l;
        }
        Set("Message-ID", msgid);
      } else {
        Set("Message-ID", opt.generatedID);
      }
      IdentifiedBy(h0, opt, id, headers);
      ghost var h1 := headers;
      SetMissing("Date", opt.date);
      ghost var h2 := headers;
      var present := Get("Path");
      var tested := "";
      var value := "";
      if present == "" {
        Set("Path", opt.pathhost + "!not-for-mail");
      } else {
        tested := Get("Path");
        if !HasPrefix(tested, opt.pathhost + "!") {
          value := Get("Path");
          Set("Path", opt.pathhost + "!" + value);
        }
      }
      PathGivenBy(h2, opt.pathhost, present, tested, value, headers);
      ghost var h3 := headers;
      if opt.organization != "" {
        SetMissing("Organization", opt.organization);
      }
      ghost var h4 := headers;
      SetMissing("Injection-Date", opt.date);
      ghost var h5 := headers;
      SetMissing("Injection-Info", opt.info);
      ghost var h6 := headers;
      Delete("Xref");
      InjectedBy(h0, h1, h2, h3, h4, h5, h6, headers, opt);
      return None, l;
    }
  }

  /** The nonblank elements of a list, trimmed. */
  function Names(parts: seq<string>): seq<string> {
    if parts == [] then []
    else (if TrimSpace(parts[0]) == "" then [] else [TrimSpace(parts[0])]) + Names(parts[1..])
  }

  function GroupList(raw: string): seq<string> {
    Names(Split(raw, ','))
  }

  lemma NoNames()
    ensures GroupList("") == []
  {
    assert Split("", ',') == [""];
    assert [""][1..] == [];
    TrimSpaceId("");
  }

  lemma {:induction false} NamesSnoc(parts: seq<string>, p: string)
    ensures Names(parts + [p]) == Names(parts) + if TrimSpace(p) == "" then [] else [TrimSpace(p)]
  {
    hide TrimSpace;
    if parts == [] {
      assert parts + [p] == [p];
      assert [p][1..] == [];
    } else {
      NamesSnoc(parts[1..], p);
      assert (parts + [p])[1..] == parts[1..] + [p];
    }
  }

  // ----- The writer's bookkeeping -----

  /** `ks` lists the names written so far, once each, by rank. */
  ghost predicate Listed(h: Headers, ks: seq<string>, seen: set<string>) {
    Distinct(ks) && RankSorted(ks) && (forall k :: k in ks <==> k in seen) && forall k | k in ks :: k in h
  }

  ghost predicate Written(h: Headers, ks: seq<string>, seen: set<string>, i: nat) {
    Listed(h, ks, seen) && forall k | k in h :: k in seen <==> Rank(k) < i
  }

  ghost predicate ListedLast(h: Headers, ks: seq<string>, seen: set<string>, todo: set<string>) {
    && Distinct(ks) && RankSorted(ks)
    && (forall k | k in h :: k in seen <==> Rank(k) < |WELL_KNOWN|)
    && forall k :: k in ks <==> k in h && (k in seen || k !in todo)
  }

  lemma ListedSnoc(h: Headers, ks: seq<string>, seen: set<string>, k: string)
    requires Listed(h, ks, seen) && k in h && k !in seen
    requires forall j | j in seen :: Rank(j) <= Rank(k)
    ensures Listed(h, ks + [k], seen + {k})
  {
    hide Rank;
    assert forall j | j in ks :: j in seen;
  }

  lemma HeaderTextEmpty(h: Headers)
    ensures HeaderText(h, []) == ""
  {
  }

  lemma {:induction false} HeaderTextSnoc(h: Headers, ks: seq<string>, k: string)
    requires k in h && forall j | j in ks :: j in h
    ensures (forall j | j in ks + [k] :: j in h) && HeaderText(h, ks + [k]) == HeaderText(h, ks) + KeyText(k, h[k])
  {
    hide KeyText;
    if ks == [] {
      assert ks + [k] == [k];
      assert [k][1..] == [];
    } else {
      HeaderTextSnoc(h, ks[1..], k);
      assert (ks + [k])[1..] == ks[1..] + [k];
    }
  }

  /** The place of a name among the well-known ones, read off its length and its outer letters. */
  function Slot(k: string): int {
    if k == "" then -1
    else
      var a, z := FoldChar(k[0]), FoldChar(k[|k| - 1]);
      match |k|
      case 4 => if a == 'p' then 0 else if a == 'f' then 1 else if a == 'd' then 4 else 23
      case 6 => 12
      case 7 => if a == 'e' then 13 else if a == 'c' then 18 else if z == 't' then 3 else 16
      case 8 => if a == 'r' then 11 else if a == 'k' then 15 else 17
      case 10 => if a == 'n' then 2 else if a == 'm' then 5 else if a == 'r' then 9 else 22
      case 11 => 10
      case 12 => if a == 'o' then 6 else if a == 'd' then 14 else if a == 'm' then 19 else 20
      case 14 => if z == 'e' then 7 else 8
      case _ => 21
  }

  lemma SlotFold(j: string, k: string)
    requires EqualFold(j, k)
    ensures Slot(j) == Slot(k)
  {
    assert |j| == |Fold(j)| == |Fold(k)| == |k|;
    if k != "" {
      assert Fold(j)[0] == Fold(k)[0] && Fold(j)[|j| - 1] == Fold(k)[|k| - 1];
    }
  }

  lemma SlotIs(i: nat)
    requires i < |WELL_KNOWN|
    ensures Slot(WELL_KNOWN[i]) == i
  {
  }

  /** The well-known names differ from each other in any case, so a header is written once. */
  lemma RankIs(k: string, i: nat)
    requires i < |WELL_KNOWN|
    ensures EqualFold(k, WELL_KNOWN[i]) <==> Rank(k) == i
  {
    hide Slot, Fold;
    if EqualFold(k, WELL_KNOWN[i]) {
      SlotFold(k, WELL_KNOWN[i]);
      SlotIs(i);
      var r := Rank(k);
      assert r <= i;
      SlotFold(k, WELL_KNOWN[r]);
      SlotIs(r);
    }
  }
}
