/** What a Post does, in terms of the groups that the article names. */
module StorePosts {
  import opened Text
  import opened StoreState
  import opened StoreInvariant
  import Decimal

  // ----- Which groups take the article -----

  /** The groups that take an article are those of its names that exist and are not closed, as often as they are named. */
  lemma {:induction false} UsedIs(groups: map<string, Group>, names: seq<string>, g: string)
    ensures g in Used(groups, names) <==> g in names && g in groups && groups[g].status != "n"
    ensures Occurrences(Used(groups, names), g) == if g in groups && groups[g].status != "n" then multiset(names)[g] else 0
  {
    if names != [] {
      var rest := names[1..];
      UsedIs(groups, rest, g);
      assert names == [names[0]] + rest;
      assert multiset(names)[g] == (if names[0] == g then 1 else 0) + multiset(rest)[g];
      var used := Used(groups, rest);
      assert ([names[0]] + used)[1..] == used;
    }
  }

  /** They come in the order of the names. */
  lemma {:induction false} UsedInOrder(groups: map<string, Group>, a: seq<string>, b: seq<string>)
    ensures Used(groups, a + b) == Used(groups, a) + Used(groups, b)
  {
    if a == [] {
      assert a + b == b;
    } else {
      UsedInOrder(groups, a[1..], b);
      assert (a + b)[1..] == a[1..] + b && (a + b)[0] == a[0];
    }
  }

  lemma UsedEmpty(groups: map<string, Group>, names: seq<string>)
    ensures Used(groups, names) != [] <==> exists g :: g in names && g in groups && groups[g].status != "n"
  {
    if g :| g in names && g in groups && groups[g].status != "n" {
      UsedIs(groups, names, g);
    }
    if Used(groups, names) != [] {
      UsedIs(groups, names, Used(groups, names)[0]);
    }
  }

  // ----- What is filed -----

  /** A Post succeeds exactly when the ID is unknown and one of the named groups exists and is not closed; otherwise
      it says which of the two failed, and changes nothing. */
  lemma PostedIff(s: State, id: string, info: Info, prefix: string, names: seq<string>, now: Time)
    ensures var (s', r) := Post(s, id, info, prefix, names, now);
            && (r.Posted? <==> id !in s.history && exists g :: g in names && g in s.groups && s.groups[g].status != "n")
            && (r.Refused? ==> s' == s && r.error == if id in s.history then Duplicate else NoGroup)
  {
    UsedEmpty(s.groups, names);
    hide Used, FileAll, XrefOf;
  }

  /** A successful Post files the article in exactly the named groups that exist and are not closed. */
  lemma PostFiles(s: State, id: string, info: Info, prefix: string, names: seq<string>, now: Time, g: string)
    requires Inv(s) && Post(s, id, info, prefix, names, now).1.Posted?
    ensures var (s', r) := Post(s, id, info, prefix, names, now);
            && (g in r.numbers <==> g in names && g in s.groups && s.groups[g].status != "n")
            && (g in r.numbers ==> r.numbers[g] == s.groups[g].high + multiset(names)[g])
            && s'.arts == s.arts[id := Art(info.(storedAt := now), r.xref, r.numbers)]
            && s'.history == s.history[id := now]
            && s' == s.(groups := s'.groups, byNum := s'.byNum, arts := s'.arts, history := s'.history)
  {
    hide FileAll, XrefOf, Occurrences, Used;
    var used := Used(s.groups, names);
    UsedIs(s.groups, names, g);
    FileAllKeys(FilingOf(s), used, id);
    if g in s.groups {
      GroupPositive(s, g);
      FileAllAt(FilingOf(s), used, id, g);
      OccurrencesIn(used, g);
    }
  }

  /** A group that takes the article gets as many numbers above its High as it is named, all of which the index gives
      to the article; every other group and its index are as they were. */
  lemma PostNumbers(s: State, id: string, info: Info, prefix: string, names: seq<string>, now: Time, g: string)
    requires Inv(s) && Post(s, id, info, prefix, names, now).1.Posted? && g in s.groups
    ensures var s' := Post(s, id, info, prefix, names, now).0;
            var k := if s.groups[g].status != "n" then multiset(names)[g] else 0;
            && g in s'.groups
            && s'.groups[g] == s.groups[g].(high := s'.groups[g].high, low := s'.groups[g].low, count := s'.groups[g].count,
                                           nums := s'.groups[g].nums)
            && s'.groups[g].high == s.groups[g].high + k && s'.groups[g].count == s.groups[g].count + k
            && (s'.groups[g].low == if s.groups[g].low == 0 && k > 0 then s.groups[g].high + 1 else s.groups[g].low)
            && s.groups[g].nums <= s'.groups[g].nums
            && (forall n :: n in s'.groups[g].nums <==> n in s.groups[g].nums || s.groups[g].high < n <= s.groups[g].high + k)
            && (forall n :: n in Row(s'.byNum, g) <==> n in Row(s.byNum, g) || s.groups[g].high < n <= s.groups[g].high + k)
            && (forall n | n in Row(s'.byNum, g) ::
                  Row(s'.byNum, g)[n] == if n > s.groups[g].high then id else Row(s.byNum, g)[n])
  {
    hide FileAll, XrefOf, Occurrences, Used, QueueOk, ArtsOk, FiledOk, Increasing;
    var used := Used(s.groups, names);
    UsedIs(s.groups, names, g);
    GroupPositive(s, g);
    RowBelow(s, g);
    FileAllAt(FilingOf(s), used, id, g);
    hide GroupOk, RowOk, Post;
    PostTables(s, id, info, prefix, names, now);
  }

  lemma PostTables(s: State, id: string, info: Info, prefix: string, names: seq<string>, now: Time)
    requires Post(s, id, info, prefix, names, now).1.Posted?
    ensures var s', f := Post(s, id, info, prefix, names, now).0, FileAll(FilingOf(s), Used(s.groups, names), id);
            s'.groups == f.groups && s'.byNum == f.byNum
  {
    hide FileAll, XrefOf, Used;
  }

  lemma RowBelow(s: State, g: string)
    requires Inv(s) && g in s.groups
    ensures forall n | n in Row(s.byNum, g) :: n <= s.groups[g].high
  {
  }

  // ----- What it tells -----

  /** The number that place `i` of the list gets. */
  function NumberAt(groups: map<string, Group>, used: seq<string>, i: nat): int
    requires i < |used| && used[i] in groups
  {
    groups[used[i]].high + multiset(used[..i + 1])[used[i]]
  }

  /** The parts of the Xref that filing in these groups adds. */
  ghost predicate PartsOf(groups: map<string, Group>, used: seq<string>, parts: seq<string>)
    requires forall g | g in used :: g in groups
  {
    |parts| == |used| && forall i | 0 <= i < |used| ::
      parts[i] == used[i] + ":" + Decimal.Format(NumberAt(groups, used, i))
  }

  lemma {:induction false} FileParts(f: Filing, used: seq<string>, id: string)
    requires forall g | g in used :: g in f.groups
    ensures var f' := FileAll(f, used, id);
            f.parts <= f'.parts && PartsOf(f.groups, used, f'.parts[|f.parts|..])
    decreases |used|
  {
    hide Decimal.Format, PartsOf;
    if used == [] {
      NoParts(f);
    } else {
      var g, rest := used[0], used[1..];
      var f1 := FileOne(f, g, id);
      assert f1.groups == f.groups[g := Bump(f.groups[g])];
      assert f1.parts == f.parts + [g + ":" + Decimal.Format(f.groups[g].high + 1)];
      hide FileOne;
      FileParts(f1, rest, id);
      var f' := FileAll(f, used, id);
      var more := f'.parts[|f1.parts|..];
      assert f'.parts[|f.parts|..] == [g + ":" + Decimal.Format(f.groups[g].high + 1)] + more;
      PartsCons(f.groups, g, rest, more);
      assert used == [g] + rest;
    }
  }

  lemma NoParts(f: Filing)
    ensures PartsOf(f.groups, [], f.parts[|f.parts|..])
  {
  }

  lemma NumberNext(groups: map<string, Group>, g: string, rest: seq<string>, i: nat)
    requires g in groups && i < |rest| && rest[i] in groups
    ensures NumberAt(groups[g := Bump(groups[g])], rest, i) == NumberAt(groups, [g] + rest, i + 1)
  {
    assert ([g] + rest)[..i + 2] == [g] + rest[..i + 1];
    var x := rest[i];
    assert multiset([g] + rest[..i + 1])[x] == (if x == g then 1 else 0) + multiset(rest[..i + 1])[x];
  }

  lemma PartsCons(groups: map<string, Group>, g: string, rest: seq<string>, more: seq<string>)
    requires g in groups && (forall h | h in rest :: h in groups) && PartsOf(groups[g := Bump(groups[g])], rest, more)
    ensures PartsOf(groups, [g] + rest, [g + ":" + Decimal.Format(groups[g].high + 1)] + more)
  {
    hide Decimal.Format, NumberAt, Bump;
    var used, parts := [g] + rest, [g + ":" + Decimal.Format(groups[g].high + 1)] + more;
    assert NumberAt(groups, used, 0) == groups[g].high + 1 by { FirstNumber(groups, g, rest); }
    forall i | 0 <= i < |used|
      ensures parts[i] == used[i] + ":" + Decimal.Format(NumberAt(groups, used, i))
    {
      if i > 0 {
        assert parts[i] == more[i - 1] && used[i] == rest[i - 1];
        NumberNext(groups, g, rest, i - 1);
      }
    }
  }

  lemma FirstNumber(groups: map<string, Group>, g: string, rest: seq<string>)
    requires g in groups
    ensures NumberAt(groups, [g] + rest, 0) == groups[g].high + 1
  {
    assert ([g] + rest)[..1] == [g];
  }

  /** The Xref names the server, if it has a name, and then every group that took the article in the order of the names,
      each with its number. */
  lemma XrefIs(s: State, id: string, info: Info, prefix: string, names: seq<string>, now: Time)
    requires Post(s, id, info, prefix, names, now).1.Posted?
    ensures exists parts ::
              && PartsOf(s.groups, Used(s.groups, names), parts)
              && Post(s, id, info, prefix, names, now).1.xref ==
                   (if TrimSpace(prefix) == "" then "" else TrimSpace(prefix) + " ") + Join(parts, ' ')
  {
    hide FileAll, Used, Join, TrimSpace, PartsOf;
    var used := Used(s.groups, names);
    var f := FileAll(FilingOf(s), used, id);
    FileParts(FilingOf(s), used, id);
    assert f.parts[|FilingOf(s).parts|..] == f.parts;
    assert "" + Join(f.parts, ' ') == Join(f.parts, ' ');
    assert PartsOf(s.groups, used, f.parts);
  }
}
