/** Where groups come from: the ISC list, the configuration or an administrator, and control messages. */
module StoreGroups {
  import opened Text
  import opened StoreState
  import opened StoreInvariant
  import StorePosts

  datatype Source = Listed | Configured | Controlled

  /** The group is created or updated by a source. */
  function Applied(s: State, source: Source, name: string, desc: string, status: string, now: Time): State {
    match source
    case Listed => EnsureGroupISC(s, name, desc, status, now)
    case Configured => EnsureGroup(s, name, desc, status, now)
    case Controlled => ApplyControlGroup(s, name, desc, status, now)
  }

  /** Nothing but this group differs. */
  ghost predicate OnlyGroup(s: State, s': State, name: string) {
    && s'.groups.Keys == s.groups.Keys + {name} && (forall h | h in s.groups && h != name :: s'.groups[h] == s.groups[h])
    && (forall h | h != name :: (h in s'.byNum <==> h in s.byNum) && (h in s.byNum ==> s'.byNum[h] == s.byNum[h]))
    && s' == s.(groups := s'.groups, byNum := s'.byNum)
  }

  /** A group that was not there starts without articles, under its source, and takes articles if nothing else is
      said. */
  lemma CreatedIs(s: State, source: Source, name: string, desc: string, status: string, now: Time)
    requires name !in s.groups
    ensures var s' := Applied(s, source, name, desc, status, now);
            && OnlyGroup(s, s', name) && s'.byNum[name] == map[]
            && var g := s'.groups[name];
            && g.description == desc && g.createdAt == now && g.retentionDays == None && g.retentionMode == ""
            && g.low == 0 && g.high == 0 && g.count == 0 && g.nums == []
            && g.status == (if status == "" then "y" else status)
            && (source == Listed ==> g.origin == "isc") && (source == Configured ==> g.origin == "local")
            && (source == Controlled ==> g.origin == "control")
  {
  }

  /** An update keeps a group's articles and retention, and its description if none is given. The ISC list says
      nothing about a group that another source has named, and what a control message has named stays under it. */
  lemma UpdatedIs(s: State, source: Source, name: string, desc: string, status: string, now: Time)
    requires name in s.groups
    ensures var s' := Applied(s, source, name, desc, status, now);
            var g, g' := s.groups[name], s'.groups[name];
            && OnlyGroup(s, s', name) && s'.byNum == s.byNum
            && (if source == Listed && g.origin != "isc" && g.origin != "" then g' == g
                else
                  && g' == g.(description := g'.description, status := g'.status, origin := g'.origin)
                  && g'.description == (if desc == "" then g.description else desc)
                  && g'.status == (if status == "" then "y" else status)
                  && (source == Listed ==> g'.origin == "isc") && (source == Controlled ==> g'.origin == "control")
                  && (source == Configured ==> g'.origin == if g.origin == "" || g.origin == "isc" then "local" else g.origin))
  {
  }

  /** Closing a group by a control message. */
  lemma ClosedIs(s: State, name: string, now: Time)
    ensures var s' := DisableControlGroup(s, name, now);
            && OnlyGroup(s, s', name) && s'.groups[name].status == "n" && s'.groups[name].origin == "control"
            && (name in s.groups ==> s'.byNum == s.byNum && s'.groups[name] == s.groups[name].(status := "n", origin := "control"))
            && (name !in s.groups ==> s'.byNum[name] == map[] && s'.groups[name].nums == [] && s'.groups[name].high == 0)
  {
  }

  /** A closed group takes no article, an open one does. */
  lemma ClosedTakesNothing(s: State, name: string, id: string, info: Info, prefix: string, now: Time, later: Time)
    requires id !in s.history
    ensures Post(DisableControlGroup(s, name, now), id, info, prefix, [name], later) ==
            (DisableControlGroup(s, name, now), Refused(NoGroup))
    ensures Post(Applied(s, Controlled, name, "", "", now), id, info, prefix, [name], later).1.Posted?
  {
    var closed, open := DisableControlGroup(s, name, now), Applied(s, Controlled, name, "", "", now);
    hide Post;
    StorePosts.PostedIff(closed, id, info, prefix, [name], later);
    StorePosts.PostedIff(open, id, info, prefix, [name], later);
    assert name in [name];
  }

  /** The ISC list and unknown sources rank lowest, control messages highest. */
  function Standing(origin: string): int {
    if origin == "control" then 2 else if origin == "" || origin == "isc" then 0 else 1
  }

  /** However groups are named and closed, a group's source never falls back to one of lower standing. */
  lemma StandingNeverFalls(s: State, source: Source, name: string, desc: string, status: string, now: Time, g: string)
    requires g in s.groups
    ensures var s' := Applied(s, source, name, desc, status, now);
            g in s'.groups && Standing(s'.groups[g].origin) >= Standing(s.groups[g].origin)
    ensures var s' := DisableControlGroup(s, name, now);
            g in s'.groups && Standing(s'.groups[g].origin) >= Standing(s.groups[g].origin)
  {
    hide Applied, DisableControlGroup, Standing;
    ClosedIs(s, name, now);
    if name in s.groups {
      UpdatedIs(s, source, name, desc, status, now);
      StandingUpdated(s.groups[name].origin, source, Applied(s, source, name, desc, status, now).groups[name].origin);
    } else {
      CreatedIs(s, source, name, desc, status, now);
    }
    StandingUpdated(s.groups[g].origin, Controlled, "control");
  }

  lemma StandingUpdated(was: string, source: Source, origin: string)
    requires origin == was || source != Listed || was == "isc" || was == ""
    requires source == Controlled ==> origin == "control"
    requires source == Configured ==> origin == if was == "" || was == "isc" then "local" else was
    ensures Standing(origin) >= Standing(was)
  {
  }
}
