/** Flooding between servers: the Path bounds every relay chain, message-ID history bounds the number of
    transfers, and the offer filter keeps back what would be refused (section 3.6 of RFC 5537). */
module Relay {
  import opened Text
  import opened Seqs
  import opened ArticleText
  import opened Article

  // ----- Paths as lists of hops -----

  /** A server name that can stand as a hop. */
  ghost predicate HopName(name: string) {
    name != "" && Trimmed(name) && '!' !in name
  }

  function Hops(path: string): seq<string> {
    Split(if path == "" then "not-for-mail" else path, '!')
  }

  ghost predicate OnHops(hops: seq<string>, name: string) {
    exists i :: 0 <= i < |hops| && EqualFold(hops[i], name)
  }

  lemma PrependedHops(path: string, name: string)
    requires HopName(name)
    ensures Hops(Prepended(path, name)) == [name] + Hops(path)
  {
    var rest := if path == "" then "not-for-mail" else path;
    assert Prepended(path, name) == name + ['!'] + rest;
    SplitAt(name, '!', rest);
  }

  /** The server names of a network, no two alike in any case. */
  ghost predicate Network(names: seq<string>) {
    && (forall i | 0 <= i < |names| :: HopName(names[i]) && !EqualFold(names[i], "not-for-mail"))
    && forall i, j | 0 <= i < |names| && 0 <= j < |names| && i != j :: !EqualFold(names[i], names[j])
  }

  /** A list of servers of the network. */
  ghost predicate OnNet(names: seq<string>, route: seq<nat>) {
    forall i | 0 <= i < |route| :: route[i] < |names|
  }

  /** The hops that servers of a route leave on the Path, last server first. */
  ghost function RouteHops(names: seq<string>, route: seq<nat>): seq<string>
    requires OnNet(names, route)
  {
    if route == [] then []
    else [names[route[|route| - 1]]] + RouteHops(names, route[..|route| - 1])
  }

  lemma {:induction false} RouteHopsAt(names: seq<string>, route: seq<nat>, i: nat)
    requires OnNet(names, route) && i < |route|
    ensures |RouteHops(names, route)| == |route|
    ensures RouteHops(names, route)[|route| - 1 - i] == names[route[i]]
  {
    var last := |route| - 1;
    var init := route[..last];
    if i < last {
      RouteHopsAt(names, init, i);
    } else if last > 0 {
      RouteHopsAt(names, init, last - 1);
    }
  }

  lemma RouteHopsLength(names: seq<string>, route: seq<nat>)
    requires OnNet(names, route)
    ensures |RouteHops(names, route)| == |route|
  {
    if route != [] {
      RouteHopsAt(names, route, 0);
    }
  }

  /** A server is on a route's hops exactly when the route went through it. */
  lemma OnRouteHops(names: seq<string>, route: seq<nat>, t: nat)
    requires Network(names) && OnNet(names, route) && t < |names|
    ensures OnHops(RouteHops(names, route), names[t]) <==> t in route
  {
    hide EqualFold, RouteHops, Fold;
    var hops := RouteHops(names, route);
    RouteHopsLength(names, route);
    EqualFoldSame(names[t]);
    if t in route {
      var i :| 0 <= i < |route| && route[i] == t;
      RouteHopsAt(names, route, i);
      var j := |route| - 1 - i;
      assert EqualFold(hops[j], names[t]);
    }
    if OnHops(hops, names[t]) {
      var j :| 0 <= j < |hops| && EqualFold(hops[j], names[t]);
      var i := |route| - 1 - j;
      RouteHopsAt(names, route, i);
      var s := route[i];
      assert EqualFold(names[s], names[t]);
      NetworkUnique(names, s, t);
      assert s in route;
    }
  }

  lemma NetworkUnique(names: seq<string>, s: nat, t: nat)
    requires Network(names) && s < |names| && t < |names| && EqualFold(names[s], names[t])
    ensures s == t
  {
    hide Fold;
  }

  lemma EqualFoldCommutes(s: string, t: string)
    ensures EqualFold(s, t) == EqualFold(t, s)
  {
  }

  // ----- Relay chains -----

  /** Taking a copy with this Path at a server of this name: refused when the name is on the Path. */
  function Accept(path: string, name: string): Option<string> {
    if PathContains(path, name) then None else Some(Prepended(path, name))
  }

  lemma PathContainsHops(path: string, name: string)
    requires HopName(name)
    ensures path != "" ==> (PathContains(path, name) <==> OnHops(Hops(path), name))
    ensures path == "" ==> !PathContains(path, name)
  {
    TrimSpaceId(name);
    if path != "" {
      var hops := Split(path, '!');
      if PathContains(path, name) {
        var hop :| hop in hops && EqualFold(hop, name);
        var i :| 0 <= i < |hops| && hops[i] == hop;
        assert EqualFold(hops[i], name);
      }
      if OnHops(hops, name) {
        var i :| 0 <= i < |hops| && EqualFold(hops[i], name);
        assert hops[i] in hops;
      }
    }
  }

  lemma AcceptIffNotOn(path: string, names: seq<string>, t: nat)
    requires Network(names) && t < |names|
    ensures Accept(path, names[t]).Some? <==> !OnHops(Hops(path), names[t])
    ensures Accept(path, names[t]).Some? ==>
              Hops(Accept(path, names[t]).value) == [names[t]] + Hops(path) && Accept(path, names[t]).value != ""
  {
    hide EqualFold, Fold, Split, PathContains, Prepended;
    var name := names[t];
    PathContainsHops(path, name);
    PrependedHops(path, name);
    PrependedNotEmpty(path, name);
    if path == "" {
      BlankPathHops();
      EqualFoldCommutes("not-for-mail", name);
    }
  }

  lemma PrependedNotEmpty(path: string, name: string)
    ensures Prepended(path, name) != ""
  {
  }

  lemma BlankPathHops()
    ensures Hops("") == ["not-for-mail"]
  {
    NoBang();
    hide Split;
    SplitFree("not-for-mail", '!');
  }

  lemma NoBang()
    ensures '!' !in "not-for-mail"
  {
  }

  /** The Path after the servers of a route took the copy one after the other, or None at a refusal. */
  ghost function Relayed(path: string, names: seq<string>, route: seq<nat>): Option<string>
    requires OnNet(names, route)
  {
    if route == [] then Some(path)
    else
      match Relayed(path, names, route[..|route| - 1])
      case None => None
      case Some(p) => Accept(p, names[route[|route| - 1]])
  }

  /** A route is accepted exactly when it visits no server twice and none that the Path named to begin with;
      the Path then lists the route in reverse in front of what it was. */
  lemma {:induction false} RelayedIff(path: string, names: seq<string>, route: seq<nat>)
    requires Network(names) && OnNet(names, route)
    ensures Relayed(path, names, route).Some?
       <==> Distinct(route) && forall s | s in route :: !OnHops(Hops(path), names[s])
    ensures Relayed(path, names, route).Some? ==>
              Hops(Relayed(path, names, route).value) == RouteHops(names, route) + Hops(path)
  {
    hide Hops, Accept, EqualFold;
    if route != [] {
      var last := |route| - 1;
      var init, t := route[..last], route[last];
      RelayedIff(path, names, init);
      assert route == init + [t];
      assert Distinct(route) <==> Distinct(init) && t !in init;
      if Relayed(path, names, init).Some? {
        var p := Relayed(path, names, init).value;
        AcceptIffNotOn(p, names, t);
        OnRouteHops(names, init, t);
        OnHopsAppend(RouteHops(names, init), Hops(path), names[t]);
        assert [names[t]] + (RouteHops(names, init) + Hops(path)) == RouteHops(names, route) + Hops(path);
      }
    }
  }

  lemma OnHopsAppend(a: seq<string>, b: seq<string>, name: string)
    ensures OnHops(a + b, name) <==> OnHops(a, name) || OnHops(b, name)
  {
    if OnHops(a, name) {
      var i :| 0 <= i < |a| && EqualFold(a[i], name);
      assert (a + b)[i] == a[i];
    }
    if OnHops(b, name) {
      var i :| 0 <= i < |b| && EqualFold(b[i], name);
      assert (a + b)[|a| + i] == b[i];
    }
  }

  /** No relay chain is longer than the network has servers. */
  lemma RelayBound(path: string, names: seq<string>, route: seq<nat>)
    requires Network(names) && OnNet(names, route)
    requires Relayed(path, names, route).Some?
    ensures |route| <= |names|
  {
    RelayedIff(path, names, route);
    DistinctSize(route, Servers(|names|));
  }

  /** The first `n` servers. */
  ghost function Servers(n: nat): (all: set<nat>)
    ensures |all| == n
    ensures forall s: nat :: s in all <==> s < n
  {
    if n == 0 then {} else Servers(n - 1) + {n - 1}
  }

  // ----- Chains of stored articles -----

  /** An article as a server stores it. */
  datatype Stored = Stored(headers: Headers, body: string)

  ghost predicate Sendable(a: Stored) {
    WellFormed(a.headers) && a.headers != map[] && CrlfOnly(a.body)
  }

  /** One transfer, as text: the stored article is written out in some order, parsed by the receiver and taken
      under its name. */
  ghost predicate Transfers(a: Stored, name: string, b: Stored) {
    exists ks :: Enumerates(ks, a.headers) && TakenFrom(ParseSpec(Serialize(a.headers, ks, a.body)), name, b)
  }

  ghost predicate TakenFrom(received: Result<Parts>, name: string, b: Stored) {
    received.Ok? && Injected(received.value.headers, name, b.headers) && b.body == received.value.body
  }

  /** A transfer is an injection of the stored header map, whatever order the text had. */
  lemma TransfersIff(a: Stored, name: string, b: Stored)
    requires Sendable(a)
    ensures Transfers(a, name, b) <==> Injected(a.headers, name, b.headers) && b.body == EndedBody(a.body)
  {
    hide Injected, ParseSpec, Serialize, CrlfOnly, WellFormed, HeaderText, EndedBody;
    if Transfers(a, name, b) {
      var ks :| Enumerates(ks, a.headers) && TakenFrom(ParseSpec(Serialize(a.headers, ks, a.body)), name, b);
      RoundTrip(a.headers, ks, a.body);
    }
    if Injected(a.headers, name, b.headers) && b.body == EndedBody(a.body) {
      var ks := Listing(a.headers.Keys);
      RoundTrip(a.headers, ks, a.body);
      assert TakenFrom(ParseSpec(Serialize(a.headers, ks, a.body)), name, b);
    }
  }

  /** Some order of the names. */
  ghost function Listing(names: set<string>): (ks: seq<string>)
    ensures Distinct(ks) && forall k :: k in ks <==> k in names
    decreases |names|
  {
    if names == {} then [] else
      var k :| k in names;
      [k] + Listing(names - {k})
  }

  ghost predicate ServerNames(names: seq<string>) {
    Network(names) && forall i | 0 <= i < |names| :: GoodValue(names[i])
  }

  /** The article after every transfer along a route. */
  ghost predicate Chain(arts: seq<Stored>, names: seq<string>, route: seq<nat>) {
    && OnNet(names, route) && |arts| == |route| + 1
    && forall i | 0 <= i < |route| :: Transfers(arts[i], names[route[i]], arts[i + 1])
  }

  /** What is taken can be sent on, with one spelling of a Path that begins with the taking server. */
  lemma TransferSendable(a: Stored, name: string, b: Stored)
    requires Sendable(a) && Transfers(a, name, b) && GoodValue(name) && HopName(name)
    ensures Sendable(b) && Single(b.headers, "Path")
    ensures exists path :: IsValue(b.headers, "Path", path) && |Hops(path)| >= 1 && Hops(path)[0] == name
    ensures Single(a.headers, "Path") ==>
              forall path | IsValue(a.headers, "Path", path) ::
                Accept(path, name).Some? && IsValue(b.headers, "Path", Accept(path, name).value)
  {
    hide Injected, ParseSpec, Serialize, CrlfOnly, WellFormed, EndedBody, IsValue, Single, PathContains, Hops, Prepended;
    TransfersIff(a, name, b);
    InjectedPath(a.headers, name, b.headers);
    InjectedWellFormed(a.headers, name, b.headers);
    EndedCrlf(a.body);
    var path' :| Grown(a.headers, name, path') && forall v :: IsValue(b.headers, "Path", v) <==> v == path';
    GrownFirst(a.headers, name, path');
    if b.headers == map[] {
      NoValue(path');
    }
  }

  lemma NoValue(v: string)
    requires v != ""
    ensures !IsValue(map[], "Path", v)
  {
  }

  lemma EndedCrlf(body: string)
    requires CrlfOnly(body)
    ensures CrlfOnly(EndedBody(body))
  {
    hide CrlfOnly;
    CrlfIsCrlfOnly();
    CrlfOnlyAppend(body, CRLF);
  }

  lemma GrownFirst(h: Headers, name: string, path': string)
    requires Grown(h, name, path') && HopName(name)
    ensures path' != "" && |Hops(path')| >= 1 && Hops(path')[0] == name
  {
    hide IsValue, Split;
    var present, value :| IsValue(h, "Path", present) && IsValue(h, "Path", value)
                          && path' == name + "!" + if present == "" then "not-for-mail" else value;
    var rest := if present == "" then "not-for-mail" else value;
    assert path' == name + ['!'] + rest;
    SplitAt(name, '!', rest);
  }

  /** Along a chain of stored articles the Paths are those of the route, from an article whose Path has one spelling. */
  lemma {:induction false} ChainRelayed(arts: seq<Stored>, names: seq<string>, route: seq<nat>, path: string)
    requires ServerNames(names) && Chain(arts, names, route) && Sendable(arts[0])
    requires Single(arts[0].headers, "Path") && IsValue(arts[0].headers, "Path", path)
    ensures Relayed(path, names, route).Some?
    ensures var last := arts[|route|];
            Sendable(last) && Single(last.headers, "Path") && IsValue(last.headers, "Path", Relayed(path, names, route).value)
    decreases |route|
  {
    hide Transfers, IsValue, Single, Sendable, Accept, GoodValue, HopName;
    if route != [] {
      var k := |route| - 1;
      ChainRelayed(arts[..k + 1], names, route[..k], path);
      assert Transfers(arts[k], names[route[k]], arts[k + 1]);
      TransferSendable(arts[k], names[route[k]], arts[k + 1]);
    }
  }

  /** Whatever the first article is like, a chain of transfers visits distinct servers, so it is no longer than the
      network has servers. */
  lemma ChainDistinct(arts: seq<Stored>, names: seq<string>, route: seq<nat>)
    requires ServerNames(names) && Chain(arts, names, route) && Sendable(arts[0])
    ensures Distinct(route) && |route| <= |names|
  {
    hide Transfers, IsValue, Single, Sendable, Accept, GoodValue, Hops, Relayed, EqualFold;
    if route != [] {
      var first, rest := names[route[0]], route[1..];
      assert Transfers(arts[0], first, arts[1]);
      TransferSendable(arts[0], first, arts[1]);
      var path :| IsValue(arts[1].headers, "Path", path) && |Hops(path)| >= 1 && Hops(path)[0] == first;
      ChainTail(arts, names, route);
      ChainRelayed(arts[1..], names, rest, path);
      RelayedIff(path, names, rest);
      EqualFoldSame(first);
      assert OnHops(Hops(path), first);
      assert route == [route[0]] + rest;
    }
    DistinctSize(route, Servers(|names|));
  }

  /** A server whose name is not on the Path can take the article, and what it takes has a Message-ID again. */
  lemma TransferExists(a: Stored, name: string, path: string) returns (b: Stored)
    requires Sendable(a) && GoodID(a.headers)
    requires IsValue(a.headers, "Path", path) && Accept(path, name).Some?
    ensures Transfers(a, name, b) && GoodID(b.headers)
  {
    hide IsValue, ValidMessageID, PathContains, TrimSpace, Prepended, EqualFold, WellFormed, CrlfOnly, SetHeader;
    var id :| IsValue(a.headers, "Message-ID", id) && ValidMessageID(TrimSpace(id));
    var h1 := SetHeader(a.headers, "Message-ID", TrimSpace(id));
    NamesDiffer();
    SetHeaderOther(a.headers, "Message-ID", TrimSpace(id), "Path");
    var path' := if path == "" then Prepended("", name) else name + "!" + path;
    b := Stored(Without(SetHeader(h1, "Path", path'), "Xref"), EndedBody(a.body));
    assert InjectedAs(a.headers, name, b.headers, id, path, path, path);
    TransfersIff(a, name, b);
    InjectedMessageID(a.headers, name, b.headers);
    IDTrimmed(TrimSpace(id));
    hide *;
    StillGoodID(a.headers, name, b.headers);
  }

  lemma StillGoodID(h: Headers, name: string, h': Headers)
    requires Injected(h, name, h')
    ensures GoodID(h')
  {
    hide IsValue, ValidMessageID, Injected;
    InjectedMessageID(h, name, h');
    var id :| IsValue(h, "Message-ID", id) && ValidMessageID(TrimSpace(id))
              && forall v :: IsValue(h', "Message-ID", v) <==> v == TrimSpace(id);
    IDTrimmed(TrimSpace(id));
  }

  lemma {:induction false} ChainExists(a: Stored, names: seq<string>, route: seq<nat>, path: string) returns (arts: seq<Stored>)
    requires ServerNames(names) && OnNet(names, route) && Sendable(a) && GoodID(a.headers)
    requires Single(a.headers, "Path") && IsValue(a.headers, "Path", path)
    requires Relayed(path, names, route).Some?
    ensures Chain(arts, names, route) && arts[0] == a && GoodID(arts[|route|].headers)
    decreases |route|
  {
    hide Transfers, IsValue, Single, Sendable, Accept, GoodValue, HopName, GoodID, EqualFold;
    if route == [] {
      arts := [a];
    } else {
      var k := |route| - 1;
      var init := ChainExists(a, names, route[..k], path);
      ChainRelayed(init, names, route[..k], path);
      var b := TransferExists(init[k], names[route[k]], Relayed(path, names, route[..k]).value);
      arts := init + [b];
      ChainSnoc(init, names, route[..k], route[k], b);
      assert route[..k] + [route[k]] == route;
    }
  }

  lemma ChainSnoc(arts: seq<Stored>, names: seq<string>, route: seq<nat>, t: nat, b: Stored)
    requires Chain(arts, names, route) && t < |names| && Transfers(arts[|route|], names[t], b)
    ensures Chain(arts + [b], names, route + [t])
  {
    hide Transfers;
    forall i | 0 <= i <= |route|
      ensures Transfers((arts + [b])[i], names[(route + [t])[i]], (arts + [b])[i + 1])
    {
      if i < |route| {
        assert Transfers(arts[i], names[route[i]], arts[i + 1]);
      }
    }
  }

  /** Of an article with a Message-ID and one spelling of its Path, there is a chain of transfers along a route
      exactly when the route visits no server twice and none that the Path named to begin with. */
  lemma ChainIff(a: Stored, names: seq<string>, route: seq<nat>, path: string)
    requires ServerNames(names) && OnNet(names, route) && Sendable(a) && GoodID(a.headers)
    requires Single(a.headers, "Path") && IsValue(a.headers, "Path", path)
    ensures (exists arts :: Chain(arts, names, route) && arts[0] == a)
       <==> Distinct(route) && forall s | s in route :: !OnHops(Hops(path), names[s])
  {
    hide IsValue, Single, Sendable, Relayed, Hops, OnHops, Transfers, GoodID, Network;
    RelayedIff(path, names, route);
    if arts :| Chain(arts, names, route) && arts[0] == a {
      ChainRelayed(arts, names, route, path);
    }
    if Relayed(path, names, route).Some? {
      var arts := ChainExists(a, names, route, path);
    }
  }

  lemma ChainTail(arts: seq<Stored>, names: seq<string>, route: seq<nat>)
    requires Chain(arts, names, route) && route != []
    ensures Chain(arts[1..], names, route[1..])
  {
    hide Transfers;
    forall i | 0 <= i < |route| - 1
      ensures Transfers(arts[1..][i], names[route[1..][i]], arts[1..][i + 1])
    {
      assert Transfers(arts[i + 1], names[route[i + 1]], arts[i + 2]);
    }
  }

  // ----- The network as a step system -----

  /** A stored copy of one article: where it is, its Path, and the servers that took it in turn. */
  datatype Copy = Copy(at: nat, path: string, route: seq<nat>)

  /** The copies stored, the servers that remember the Message-ID, and every acceptance so far in order. */
  datatype Net = Net(copies: set<Copy>, history: set<nat>, accepted: seq<nat>)

  datatype Step =
    | Offer(copy: Copy, to: nat, remembers: bool)  // a stored copy is sent to another server, which takes or refuses it
    | Refuse(to: nat)                              // a server refuses the article for another reason and remembers it
    | Remove(copy: Copy)                           // cancel, purge or expiry of a copy
    | Forget(server: nat)                          // history pruning

  /** The receiving server: known IDs and loops are refused, and a refused loop is remembered if the server is set to
      remember what it refuses. */
  function Receive(net: Net, names: seq<string>, copy: Copy, to: nat, remembers: bool): Net
    requires to < |names|
  {
    if to in net.history then net
    else
      match Accept(copy.path, names[to])
      case None => if remembers then net.(history := net.history + {to}) else net
      case Some(path) =>
        Net(net.copies + {Copy(to, path, copy.route + [to])}, net.history + {to}, net.accepted + [to])
  }

  ghost predicate Next(names: seq<string>, net: Net, step: Step, net': Net) {
    match step
    case Offer(copy, to, remembers) => copy in net.copies && to < |names| && net' == Receive(net, names, copy, to, remembers)
    case Refuse(to) => to < |names| && net' == net.(history := net.history + {to})
    case Remove(copy) => net' == net.(copies := net.copies - {copy})
    case Forget(server) => net' == net.(history := net.history - {server})
  }

  ghost predicate Run(names: seq<string>, nets: seq<Net>, steps: seq<Step>) {
    && |nets| == |steps| + 1
    && forall i | 0 <= i < |steps| :: Next(names, nets[i], steps[i], nets[i + 1])
  }

  /** An article starts at one server with the Path that its posting gave it. */
  ghost predicate Starts(names: seq<string>, net: Net, origin: nat, path: string) {
    origin < |names| && net == Net({Copy(origin, path, [])}, {origin}, [])
  }

  ghost predicate CopyInv(names: seq<string>, path: string, c: Copy) {
    && OnNet(names, c.route)
    && Relayed(path, names, c.route) == Some(c.path)
  }

  ghost predicate NetInv(names: seq<string>, path: string, net: Net) {
    forall c | c in net.copies :: CopyInv(names, path, c)
  }

  lemma CopyExtends(names: seq<string>, path: string, c: Copy, to: nat)
    requires CopyInv(names, path, c) && to < |names| && Accept(c.path, names[to]).Some?
    ensures CopyInv(names, path, Copy(to, Accept(c.path, names[to]).value, c.route + [to]))
  {
    hide Accept;
    assert (c.route + [to])[..|c.route|] == c.route;
  }

  lemma NextKeepsInv(names: seq<string>, path: string, net: Net, step: Step, net': Net)
    requires NetInv(names, path, net) && Next(names, net, step, net')
    ensures NetInv(names, path, net')
  {
    hide Accept, CopyInv;
    if step.Offer? && step.to !in net.history && Accept(step.copy.path, names[step.to]).Some? {
      CopyExtends(names, path, step.copy, step.to);
    }
  }

  lemma {:induction false} RunKeepsInv(names: seq<string>, path: string, nets: seq<Net>, steps: seq<Step>, i: nat)
    requires Run(names, nets, steps) && i < |nets| && NetInv(names, path, nets[0])
    ensures NetInv(names, path, nets[i])
  {
    hide NetInv, Next;
    if i > 0 {
      RunKeepsInv(names, path, nets, steps, i - 1);
      assert Next(names, nets[i - 1], steps[i - 1], nets[i - 1 + 1]);
      NextKeepsInv(names, path, nets[i - 1], steps[i - 1], nets[i]);
    }
  }

  /** In every run, whatever servers forget, a copy was taken by distinct servers only, its Path names exactly
      these in front of the first Path, and its chain is no longer than the network. */
  lemma EveryCopyBounded(names: seq<string>, nets: seq<Net>, steps: seq<Step>, origin: nat, path: string, i: nat, c: Copy)
    requires Network(names) && Run(names, nets, steps) && Starts(names, nets[0], origin, path)
    requires i < |nets| && c in nets[i].copies
    ensures OnNet(names, c.route) && Distinct(c.route) && |c.route| <= |names|
    ensures Hops(c.path) == RouteHops(names, c.route) + Hops(path)
  {
    hide Hops, Accept, Network;
    assert NetInv(names, path, nets[0]);
    RunKeepsInv(names, path, nets, steps, i);
    assert CopyInv(names, path, c);
    RelayedIff(path, names, c.route);
    RelayBound(path, names, c.route);
  }

  /** With history kept, every server takes the article at most once. */
  ghost predicate HistoryInv(names: seq<string>, net: Net) {
    && Distinct(net.accepted)
    && (forall s | s in net.accepted :: s in net.history)
    && (forall s | s in net.history :: s < |names|)
    && exists o :: o in net.history && o !in net.accepted
  }

  lemma {:induction false} RunKeepsHistory(names: seq<string>, nets: seq<Net>, steps: seq<Step>, i: nat)
    requires Run(names, nets, steps) && i < |nets| && HistoryInv(names, nets[0])
    requires forall k | 0 <= k < |steps| :: !steps[k].Forget?
    ensures HistoryInv(names, nets[i])
  {
    hide Accept;
    if i > 0 {
      RunKeepsHistory(names, nets, steps, i - 1);
      var net, step := nets[i - 1], steps[i - 1];
      assert Next(names, net, step, nets[i - 1 + 1]);
      var o :| o in net.history && o !in net.accepted;
      assert o in nets[i].history && o !in nets[i].accepted;
    }
  }

  /** While no server forgets the Message-ID, all transfers together are fewer than the servers, whichever servers
      remember what they refuse. */
  lemma TransfersBounded(names: seq<string>, nets: seq<Net>, steps: seq<Step>, origin: nat, path: string, i: nat)
    requires Run(names, nets, steps) && Starts(names, nets[0], origin, path) && i < |nets|
    requires forall k | 0 <= k < |steps| :: !steps[k].Forget?
    ensures |nets[i].accepted| < |names|
  {
    assert origin in nets[0].history;
    RunKeepsHistory(names, nets, steps, i);
    var o :| o in nets[i].history && o !in nets[i].accepted;
    var others := Servers(|names|) - {o};
    DistinctSize(nets[i].accepted, others);
  }

  /** What an offer does: a server that remembers the Message-ID takes nothing; one whose name is on the Path takes
      nothing either, and may remember that; any other takes a copy with its name in front of the Path, which counts as
      one more acceptance and is remembered. */
  lemma OfferMeans(names: seq<string>, net: Net, copy: Copy, to: nat, remembers: bool)
    requires Network(names) && to < |names|
    ensures var net' := Receive(net, names, copy, to, remembers);
            if to in net.history then net' == net
            else if OnHops(Hops(copy.path), names[to]) then net' == net.(history := if remembers then net.history + {to} else net.history)
            else
              && net'.copies == net.copies + {Copy(to, names[to] + "!" + (if copy.path == "" then "not-for-mail" else copy.path), copy.route + [to])}
              && net'.history == net.history + {to} && net'.accepted == net.accepted + [to]
  {
    hide Hops, OnHops, PathContains;
    AcceptIffNotOn(copy.path, names, to);
  }

  /** Every route that visits no server twice, not the origin, and none that the Path names, is taken by a copy in some
      run. */
  lemma {:induction false} RouteRun(names: seq<string>, origin: nat, path: string, route: seq<nat>)
      returns (nets: seq<Net>, steps: seq<Step>, last: Copy)
    requires Network(names) && origin < |names| && OnNet(names, route) && Distinct(route) && origin !in route
    requires forall s | s in route :: !OnHops(Hops(path), names[s])
    ensures Run(names, nets, steps) && Starts(names, nets[0], origin, path)
    ensures last in nets[|steps|].copies && last.route == route
    ensures forall s | s in nets[|steps|].history :: s == origin || s in route
    decreases |route|
  {
    hide Hops, OnHops, Accept, EqualFold;
    if route == [] {
      last := Copy(origin, path, []);
      nets, steps := [Net({last}, {origin}, [])], [];
    } else {
      var k := |route| - 1;
      var init, to := route[..k], route[k];
      assert route == init + [to] && Distinct(init) && to !in init;
      var nets0, steps0, copy := RouteRun(names, origin, path, init);
      var net := nets0[|steps0|];
      OnlyCopyPath(names, origin, path, nets0, steps0, copy);
      NotYetOn(names, path, init, copy, to);
      AcceptIffNotOn(copy.path, names, to);
      var net' := Receive(net, names, copy, to, false);
      last := Copy(to, Accept(copy.path, names[to]).value, copy.route + [to]);
      nets, steps := nets0 + [net'], steps0 + [Offer(copy, to, false)];
      RunSnoc(names, nets0, steps0, Offer(copy, to, false), net');
    }
  }

  lemma OnlyCopyPath(names: seq<string>, origin: nat, path: string, nets: seq<Net>, steps: seq<Step>, copy: Copy)
    requires Run(names, nets, steps) && Starts(names, nets[0], origin, path) && copy in nets[|steps|].copies
    ensures CopyInv(names, path, copy)
  {
    assert NetInv(names, path, nets[0]);
    RunKeepsInv(names, path, nets, steps, |steps|);
  }

  lemma NotYetOn(names: seq<string>, path: string, route: seq<nat>, copy: Copy, to: nat)
    requires Network(names) && CopyInv(names, path, copy) && copy.route == route && to < |names| && to !in route
    requires !OnHops(Hops(path), names[to])
    ensures !OnHops(Hops(copy.path), names[to])
  {
    hide Hops, Accept, EqualFold;
    RelayedIff(path, names, route);
    OnRouteHops(names, route, to);
    OnHopsAppend(RouteHops(names, route), Hops(path), names[to]);
  }

  lemma RunSnoc(names: seq<string>, nets: seq<Net>, steps: seq<Step>, step: Step, net: Net)
    requires Run(names, nets, steps) && Next(names, nets[|steps|], step, net)
    ensures Run(names, nets + [net], steps + [step])
  {
    hide Next;
    var ns, ss := nets + [net], steps + [step];
    forall i | 0 <= i < |ss|
      ensures Next(names, ns[i], ss[i], ns[i + 1])
    {
      if i < |steps| {
        assert Next(names, nets[i], steps[i], nets[i + 1]);
      }
    }
  }

  // ----- The offer filter -----

  datatype Peer = Peer(host: string, pathToken: string, name: string, pathOnly: bool)

  datatype Config = Config(hostname: string, pathhost: string)

  function PathTokenOf(p: Peer): string {
    var token := TrimSpace(p.pathToken);
    if token == "" then TrimSpace(p.host) else token
  }

  /** Whether a peer is left out when an article is offered. */
  predicate SkipPeer(cfg: Config, p: Peer, path: string) {
    var host := TrimSpace(p.host);
    if host == "" then true
    else
      var token := PathTokenOf(p);
      if EqualFold(host, cfg.hostname) || EqualFold(host, cfg.pathhost) then true
      else if exists t | t in Split(token, ',') :: PathContains(path, t) then true
      else if !p.pathOnly && PathContains(path, host) then true
      else if !p.pathOnly && TrimSpace(p.name) != "" && PathContains(path, TrimSpace(p.name)) then true
      else if p.pathOnly && PathContains(path, host) && EqualFold(host, token) then true
      else PathContains(path, cfg.pathhost) && EqualFold(host, cfg.pathhost)
  }

  /** The names under which a peer may be on a Path. */
  ghost predicate Identity(p: Peer, name: string) {
    var host := TrimSpace(p.host);
    var token := if TrimSpace(p.pathToken) == "" then host else TrimSpace(p.pathToken);
    || name in Split(token, ',')
    || (!p.pathOnly && (name == host || name == TrimSpace(p.name)))
    || (p.pathOnly && name == host && EqualFold(host, token))
  }

  /** A peer is skipped exactly when it has no host, is this server itself, or has a name that the Path lists. */
  lemma SkipPeerIff(cfg: Config, p: Peer, path: string)
    ensures SkipPeer(cfg, p, path) <==>
              || TrimSpace(p.host) == ""
              || EqualFold(TrimSpace(p.host), cfg.hostname) || EqualFold(TrimSpace(p.host), cfg.pathhost)
              || exists name :: Identity(p, name) && PathContains(path, name)
  {
    hide EqualFold, TrimSpace, PathContains;
    var host, token := TrimSpace(p.host), PathTokenOf(p);
    NoEmptyHop(path);
    if name :| Identity(p, name) && PathContains(path, name) {
      assert SkipPeer(cfg, p, path);
    }
    if SkipPeer(cfg, p, path) && host != "" && !EqualFold(host, cfg.hostname) && !EqualFold(host, cfg.pathhost) {
      if t :| t in Split(token, ',') && PathContains(path, t) {
        assert Identity(p, t);
      } else if PathContains(path, host) && (!p.pathOnly || EqualFold(host, token)) {
        assert Identity(p, host);
      } else {
        assert Identity(p, TrimSpace(p.name));
      }
    }
  }

  lemma NoEmptyHop(path: string)
    ensures !PathContains(path, "")
  {
  }

  /** What is offered is not refused as a loop: if the peer entry names the receiving server, the receiver's
      own Path check passes. */
  lemma OfferedIsNoLoop(cfg: Config, p: Peer, path: string, names: seq<string>, to: nat)
    requires Network(names) && to < |names| && Identity(p, names[to])
    requires !SkipPeer(cfg, p, path)
    ensures Accept(path, names[to]).Some?
  {
    SkipPeerIff(cfg, p, path);
  }

  /** A copy is never offered back to a server that its chain went through. */
  lemma NeverOfferedBack(cfg: Config, p: Peer, path0: string, names: seq<string>, route: seq<nat>, to: nat)
    requires Network(names) && OnNet(names, route)
    requires Relayed(path0, names, route).Some?
    requires to in route && Identity(p, names[to])
    ensures SkipPeer(cfg, p, Relayed(path0, names, route).value)
  {
    hide SkipPeer, Identity, EqualFold, Hops;
    var path := Relayed(path0, names, route).value;
    if !SkipPeer(cfg, p, path) {
      OfferedIsNoLoop(cfg, p, path, names, to);
      AcceptIffNotOn(path, names, to);
      RelayedIff(path0, names, route);
      OnRouteHops(names, route, to);
      OnHopsAppend(RouteHops(names, route), Hops(path0), names[to]);
      assert false;
    }
  }
}
