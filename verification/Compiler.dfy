/** From a deployment as authored to the tables of its hosts, and to the packets that cross it. */
module Compiler {
  import opened Integers
  import opened Protocol
  import opened Graph
  import opened Projection
  import R = Router
  import T = Topology
  import F = Flooding
  import D = Delivery

  datatype HostSpec = HostSpec(id: u8, ports: seq<Port>)

  datatype Policy = AlongPath(path: Name) | Exactly(realization: Name) | OverLinks(links: set<Name>) | Inferred

  datatype WireSpec = WireSpec(hosts: set<Name>, groups: set<Name>, how: Policy)

  /** Wires by their ids. */
  datatype Authored = Authored(
    hosts: map<Name, HostSpec>, groups: map<Name, set<Name>>, paths: map<Name, seq<T.Reference>>,
    realizations: map<Name, seq<T.Reference>>, wires: map<u8, WireSpec>)
  {
    /** The hosts a Wire names, itself or through its groups. */
    function Members(w: WireSpec): (m: set<Name>)
      ensures forall h :: h in m <==> h in w.hosts || exists g | g in w.groups && g in groups :: h in groups[g]
    {
      w.hosts + set g, h | g in w.groups && g in groups && h in groups[g] :: h
    }

    /** What parsing has checked: every host in order, every reference known. */
    ghost predicate Parsed() {
      && (forall h | h in hosts :: Sane(hosts[h].ports))
      && (forall g, h | g in hosts && h in hosts && hosts[g].id == hosts[h].id :: g == h)
      && (forall id | id in wires :: Members(wires[id]) <= hosts.Keys && Settled(wires[id].how))
      && (forall n | n in realizations :: realizations[n] != [])
    }

    ghost predicate Settled(how: Policy) {
      (how.AlongPath? ==> how.path in paths) && (how.Exactly? ==> how.realization in realizations)
    }

    function Asked(how: Policy): T.Selection
      requires (how.AlongPath? ==> how.path in paths) && (how.Exactly? ==> how.realization in realizations)
    {
      match how
      case AlongPath(n) => T.ByPath(paths[n])
      case Exactly(n) => T.ByRealization(realizations[n])
      case OverLinks(links) => T.ByLinks(links)
      case Inferred => T.ByInference
    }

    /** The Wires a host belongs to. */
    function Joined(h: Name): set<u8> { set id | id in wires && h in Members(wires[id]) }
  }

  // The graph.

  ghost predicate Owned(a: Authored, r: T.Reference) {
    r.host in a.hosts && exists i | 0 <= i < |a.hosts[r.host].ports| :: a.hosts[r.host].ports[i].name == r.interface
  }

  /** Every interface of every host, by its reference, as the attachment it is. */
  ghost predicate Maps(a: Authored, g: T.Physical) {
    && g.hosts == a.hosts.Keys
    && (forall r :: r in g.interfaces <==> Owned(a, r))
    && (forall h, i: nat | h in a.hosts && i < |a.hosts[h].ports| ::
          var port := a.hosts[h].ports[i];
          T.Reference(h, port.name) in g.interfaces
          && g.interfaces[T.Reference(h, port.name)] == Attachment(h, port.name, port.link))
  }

  method AddHost(h: Name, ports: seq<Port>, before: map<T.Reference, Attachment>) returns (after: map<T.Reference, Attachment>)
    requires Sane(ports) && forall r | r in before :: r.host != h
    ensures forall r :: r in after <==> r in before || (r.host == h && exists i | 0 <= i < |ports| :: ports[i].name == r.interface)
    ensures forall r | r in before :: after[r] == before[r]
    ensures forall i: nat | i < |ports| ::
      T.Reference(h, ports[i].name) in after && after[T.Reference(h, ports[i].name)] == Attachment(h, ports[i].name, ports[i].link)
  {
    after := before;
    for n := 0 to |ports|
      invariant forall r :: r in after <==> r in before || (r.host == h && exists i | 0 <= i < n :: ports[i].name == r.interface)
      invariant forall r | r in before :: after[r] == before[r]
      invariant forall i: nat | i < n ::
        T.Reference(h, ports[i].name) in after && after[T.Reference(h, ports[i].name)] == Attachment(h, ports[i].name, ports[i].link)
    {
      after := after[T.Reference(h, ports[n].name) := Attachment(h, ports[n].name, ports[n].link)];
    }
  }

  method BuildGraph(a: Authored) returns (g: T.Physical)
    requires a.Parsed()
    ensures Maps(a, g)
  {
    var interfaces: map<T.Reference, Attachment> := map[];
    var left := a.hosts.Keys;
    while left != {}
      invariant left <= a.hosts.Keys
      invariant forall r :: r in interfaces <==> Owned(a, r) && r.host !in left
      invariant forall h, i: nat | h in a.hosts && h !in left && i < |a.hosts[h].ports| ::
        var port := a.hosts[h].ports[i];
        T.Reference(h, port.name) in interfaces
        && interfaces[T.Reference(h, port.name)] == Attachment(h, port.name, port.link)
      decreases left
    {
      var h :| h in left;
      interfaces := AddHost(h, a.hosts[h].ports, interfaces);
      left := left - {h};
    }
    g := T.Physical(a.hosts.Keys, interfaces);
  }

  function PortsOf(a: Authored): map<Name, seq<Port>> { map h | h in a.hosts :: a.hosts[h].ports }

  /** An attachment is the i-th interface of its host. */
  ghost predicate PortAt(a: Authored, e: Attachment, i: nat) {
    && e.host in a.hosts && i < |a.hosts[e.host].ports|
    && e == Attachment(e.host, a.hosts[e.host].ports[i].name, a.hosts[e.host].ports[i].link)
  }

  lemma RefAt(a: Authored, g: T.Physical, r: T.Reference) returns (i: nat)
    requires Maps(a, g) && r in g.interfaces
    ensures PortAt(a, g.interfaces[r], i) && g.interfaces[r].host == r.host && g.interfaces[r].interface == r.interface
  {
    assert Owned(a, r);
    i :| 0 <= i < |a.hosts[r.host].ports| && a.hosts[r.host].ports[i].name == r.interface;
    assert r == T.Reference(r.host, a.hosts[r.host].ports[i].name);
  }

  lemma EdgeAt(a: Authored, g: T.Physical, e: Attachment)
    requires Maps(a, g)
    ensures e in g.Edges() <==> exists i: nat :: PortAt(a, e, i)
  {
    if e in g.Edges() {
      var r :| r in g.interfaces && g.interfaces[r] == e;
      var i := RefAt(a, g, r);
    }
    if exists i: nat :: PortAt(a, e, i) {
      var i: nat :| PortAt(a, e, i);
      var r := T.Reference(e.host, a.hosts[e.host].ports[i].name);
      assert r in g.interfaces && g.interfaces[r] == e;
    }
  }

  lemma GraphValid(a: Authored, g: T.Physical)
    requires a.Parsed() && Maps(a, g)
    ensures g.Valid()
  {
    forall r | r in g.interfaces
      ensures g.interfaces[r].host == r.host && g.interfaces[r].interface == r.interface && r.host in g.hosts
    {
      var i := RefAt(a, g, r);
    }
    forall x, y | x in g.Edges() && y in g.Edges() && x.host == y.host && x.link == y.link ensures x == y {
      OneToALink(a, g, x, y);
    }
  }

  lemma OneToALink(a: Authored, g: T.Physical, x: Attachment, y: Attachment)
    requires a.Parsed() && Maps(a, g) && x in g.Edges() && y in g.Edges() && x.host == y.host && x.link == y.link
    ensures x == y
  {
    EdgeAt(a, g, x);
    EdgeAt(a, g, y);
    var i: nat :| PortAt(a, x, i);
    var j: nat :| PortAt(a, y, j);
    OneLink(a.hosts[x.host].ports, i, j);
  }

  lemma OneLink(ports: seq<Port>, i: nat, j: nat)
    requires Sane(ports) && i < |ports| && j < |ports| && ports[i].link == ports[j].link
    ensures i == j
  {}

  lemma SameEdges(a: Authored, g: T.Physical, d: Deployment)
    requires Maps(a, g) && d.ports == PortsOf(a)
    ensures d.Edges() == g.Edges()
  {
    forall e ensures e in d.Edges() <==> e in g.Edges() {
      EdgeAt(a, g, e);
      if e in d.Edges() {
        var h, i: nat :| h in d.ports && i < |d.ports[h]| && e == Attachment(h, d.ports[h][i].name, d.ports[h][i].link);
        assert PortAt(a, e, i);
      }
      if i: nat :| PortAt(a, e, i) {
        assert d.ports[e.host] == a.hosts[e.host].ports;
      }
    }
  }

  // Members in name order.

  lemma {:induction false} LeastIn(s: set<Name>) returns (m: Name)
    requires s != {}
    ensures m in s && forall n | n in s :: m <= n
    decreases s
  {
    m :| m in s;
    var rest := s - {m};
    assert forall n | n in s :: n == m || n in rest;
    if rest != {} {
      var k := LeastIn(rest);
      m := if k < m then k else m;
    }
  }

  lemma LeastExists(s: set<Name>)
    requires s != {}
    ensures exists m :: m in s && forall n | n in s :: m <= n
  {
    var m := LeastIn(s);
    assert m in s && forall n | n in s :: m <= n;
  }

  function First(s: set<Name>): (m: Name)
    requires s != {}
    ensures m in s && forall n | n in s :: m <= n
  {
    LeastExists(s);
    var m :| m in s && forall n | n in s :: m <= n;
    m
  }

  function InOrder(s: set<Name>): (r: seq<Name>)
    ensures T.SetOf(r) == s && (r == [] <==> s == {})
    ensures Ascending(r)
    decreases s
  {
    if s == {} then []
    else
      var m := First(s);
      var rest := InOrder(s - {m});
      Prepended(s, m, rest);
      [m] + rest
  }

  ghost predicate Ascending(r: seq<Name>) { forall j, k | 0 <= j < k < |r| :: r[j] < r[k] }

  lemma Prepended(s: set<Name>, m: Name, rest: seq<Name>)
    requires T.SetOf(rest) == s - {m} && Ascending(rest) && m in s && forall n | n in s :: m <= n
    ensures T.SetOf([m] + rest) == s && Ascending([m] + rest)
  {
    assert forall n :: n in [m] + rest <==> n == m || n in T.SetOf(rest);
    forall k | 0 <= k < |rest| ensures m < rest[k] { assert rest[k] in T.SetOf(rest); }
  }

  // Resolving and projecting.

  /** What the authored deployment must be for compilation to succeed. */
  ghost predicate Compilable(a: Authored, g: T.Physical)
    requires a.Parsed()
  {
    && (forall n | n in a.paths :: T.GoodChain(g, a.paths[n]))
    && (forall n | n in a.realizations :: Whole(g, a.realizations[n]))
    && (forall id | id in a.wires :: WireFits(a, g, id))
    && (forall h | h in a.hosts :: |a.Joined(h)| <= 6)
  }

  ghost predicate Whole(g: T.Physical, refs: seq<T.Reference>) {
    T.Known(g, refs) && T.Tree(T.Chosen(g, refs), T.HostsOf(T.Chosen(g, refs)))
  }

  ghost predicate WireFits(a: Authored, g: T.Physical, id: u8)
    requires a.Parsed() && id in a.wires
  {
    T.Acceptable(g, InOrder(a.Members(a.wires[id])), a.Asked(a.wires[id].how))
  }

  /** What is selected is what the author asked for: that path, that realization, those Links, or the only paths. */
  ghost predicate AsAsked(a: Authored, g: T.Physical, how: Policy, members: set<Name>, s: set<Attachment>) {
    match how
    case AlongPath(n) => n in a.paths && Interfaces(g, a.paths[n], s)
    case Exactly(n) => n in a.realizations && Interfaces(g, a.realizations[n], s)
    case OverLinks(links) => s == T.OfLinks(g, links) && forall l | l in links :: T.Served(g, l)
    case Inferred =>
      exists first :: first in members && OnlyPaths(g, first, members, s)
  }

  /** The attachments with these references. */
  ghost predicate Interfaces(g: T.Physical, refs: seq<T.Reference>, s: set<Attachment>) {
    T.Known(g, refs) && forall e :: e in s <==> exists r | r in refs :: g.interfaces[r] == e
  }

  /** The attachments used by the paths, the only ones there are, from one member to the others. */
  ghost predicate OnlyPaths(g: T.Physical, first: Name, members: set<Name>, s: set<Attachment>) {
    && (forall m | m in members :: T.HasOnlyPath(g.Edges(), Host(first), Host(m)))
    && (forall e :: e in s <==> e in g.Edges() && exists m, p | m in members && Path(g.Edges(), Host(first), p, Host(m)) :: e in Used(g.Edges(), p))
  }

  /** A resolved Wire is the authored one, selected as it asks, with a tree over its members. */
  ghost predicate Resolves(a: Authored, g: T.Physical, w: Wire) {
    && w.id in a.wires && w.members == a.Members(a.wires[w.id])
    && w.attachments <= g.Edges() && T.Tree(w.attachments, w.members)
    && AsAsked(a, g, a.wires[w.id].how, w.members, w.attachments)
  }

  method CheckPaths(a: Authored, g: T.Physical) returns (ok: bool)
    requires g.Valid()
    ensures ok <==> forall n | n in a.paths :: T.GoodChain(g, a.paths[n])
  {
    var left := a.paths.Keys;
    while left != {}
      invariant left <= a.paths.Keys && forall n | n in a.paths :: n in left || T.GoodChain(g, a.paths[n])
      decreases left
    {
      var n :| n in left;
      var r := T.Chain(g, a.paths[n]);
      if r.Refused? { return false; }
      left := left - {n};
    }
    ok := true;
  }

  method CheckRealizations(a: Authored, g: T.Physical) returns (ok: bool)
    requires g.Valid() && forall n | n in a.realizations :: a.realizations[n] != []
    ensures ok <==> forall n | n in a.realizations :: Whole(g, a.realizations[n])
  {
    var left := a.realizations.Keys;
    while left != {}
      invariant left <= a.realizations.Keys && forall n | n in a.realizations :: n in left || Whole(g, a.realizations[n])
      decreases left
    {
      var n :| n in left;
      var r := T.Realization(g, a.realizations[n]);
      if r.Refused? {
        assert !Whole(g, a.realizations[n]);
        return false;
      }
      left := left - {n};
    }
    ok := true;
  }

  lemma SelectedAsAsked(a: Authored, g: T.Physical, how: Policy, members: seq<Name>, s: set<Attachment>)
    requires a.Settled(how) && T.Acceptable(g, members, a.Asked(how))
    requires how.AlongPath? ==> s == T.Chosen(g, a.paths[how.path])
    requires how.Exactly? ==> s == T.Chosen(g, a.realizations[how.realization])
    requires how.OverLinks? ==> s == T.OfLinks(g, how.links)
    requires how.Inferred? ==> s == T.OnPaths(g.Edges(), Host(members[0]), members)
    ensures AsAsked(a, g, how, T.SetOf(members), s)
  {
    if how.Inferred? {
      InferredAsAsked(g, members, s);
    }
  }

  lemma InferredAsAsked(g: T.Physical, members: seq<Name>, s: set<Attachment>)
    requires members != [] && s == T.OnPaths(g.Edges(), Host(members[0]), members)
    requires forall m | m in members :: T.HasOnlyPath(g.Edges(), Host(members[0]), Host(m))
    ensures members[0] in T.SetOf(members) && OnlyPaths(g, members[0], T.SetOf(members), s)
  {}

  method ResolveOne(a: Authored, g: T.Physical, id: u8) returns (ok: bool, wire: Wire)
    requires a.Parsed() && g.Valid() && id in a.wires
    ensures ok <==> WireFits(a, g, id)
    ensures ok ==> wire.id == id && Resolves(a, g, wire)
  {
    var w := a.wires[id];
    var members, how := InOrder(a.Members(w)), a.Asked(w.how);
    assert how.ByRealization? ==> how.exact != [];
    var r, transit := T.ResolveWire(g, members, how);
    ok := r.Selected?;
    wire := Wire(id, a.Members(w), if r.Selected? then r.attachments else {});
    if ok { SelectedAsAsked(a, g, w.how, members, wire.attachments); }
  }

  /** The Wire with the next id, if there is one. */
  method ResolveNext(a: Authored, g: T.Physical, id: u8, before: seq<Wire>) returns (ok: bool, wires: seq<Wire>)
    requires a.Parsed() && g.Valid() && Covers(a, g, before, id)
    ensures ok <==> (id in a.wires ==> WireFits(a, g, id))
    ensures ok ==> Covers(a, g, wires, id + 1)
  {
    if id !in a.wires {
      CoversPast(a, g, before, id);
      return true, before;
    }
    var wire;
    ok, wire := ResolveOne(a, g, id);
    wires := before + [wire];
    if ok { CoversMore(a, g, before, wire, id); }
  }

  /** The Wires in the order of their ids. */
  method ResolveAll(a: Authored, g: T.Physical) returns (ok: bool, wires: seq<Wire>)
    requires a.Parsed() && g.Valid()
    ensures ok <==> forall id | id in a.wires :: WireFits(a, g, id)
    ensures ok ==> Covers(a, g, wires, 0x100)
  {
    wires := [];
    for id: nat := 0 to 0x100
      invariant forall i | i in a.wires && i < id :: WireFits(a, g, i)
      invariant Covers(a, g, wires, id)
    {
      ok, wires := ResolveNext(a, g, id, wires);
      if !ok { return; }
    }
    ok := true;
  }

  /** The Wires with ids below n, each once, by ascending id. */
  ghost predicate Covers(a: Authored, g: T.Physical, wires: seq<Wire>, n: nat) {
    && (forall k | 0 <= k < |wires| :: wires[k].id < n && Resolves(a, g, wires[k]))
    && (forall j, k | 0 <= j < k < |wires| :: wires[j].id < wires[k].id)
    && (forall id | id in a.wires && id < n :: exists k | 0 <= k < |wires| :: wires[k].id == id)
  }

  lemma CoversPast(a: Authored, g: T.Physical, wires: seq<Wire>, n: nat)
    requires Covers(a, g, wires, n) && n !in a.wires
    ensures Covers(a, g, wires, n + 1)
  {}

  lemma CoversMore(a: Authored, g: T.Physical, wires: seq<Wire>, w: Wire, n: nat)
    requires Covers(a, g, wires, n) && w.id == n && Resolves(a, g, w)
    ensures Covers(a, g, wires + [w], n + 1)
  {
    var more := wires + [w];
    forall id | id in a.wires && id < n + 1 ensures exists k | 0 <= k < |more| :: more[k].id == id {
      if id == n {
        assert more[|wires|].id == id;
      } else {
        var k :| 0 <= k < |wires| && wires[k].id == id;
        assert more[k].id == id;
      }
    }
  }

  ghost function IdsOf(h: Name, wires: seq<Wire>): set<u8> { set w | w in wires && h in w.members :: w.id }

  lemma IdsMore(h: Name, wires: seq<Wire>, w: Wire)
    ensures IdsOf(h, wires + [w]) == IdsOf(h, wires) + (if h in w.members then {w.id} else {})
  {
    assert forall v :: v in wires + [w] <==> v in wires || v == w;
  }

  /** A host's memberships number the Wires it was authored into. */
  lemma {:induction false} MembershipCount(h: Name, wires: seq<Wire>)
    requires DistinctIds(wires)
    ensures |Memberships(h, wires)| == |IdsOf(h, wires)|
    decreases wires
  {
    if wires == [] {
      assert IdsOf(h, []) == {};
    } else {
      var rest, w := wires[..|wires| - 1], wires[|wires| - 1];
      MembershipCount(h, rest);
      IdsMore(h, rest, w);
      assert wires == rest + [w];
      assert w.id !in IdsOf(h, rest);
    }
  }

  lemma JoinedCount(a: Authored, g: T.Physical, wires: seq<Wire>, h: Name)
    requires a.Parsed() && Covers(a, g, wires, 0x100)
    ensures |Memberships(h, wires)| == |a.Joined(h)|
  {
    MembershipCount(h, wires);
    forall id ensures id in IdsOf(h, wires) <==> id in a.Joined(h) {
      if id in IdsOf(h, wires) {
        var w :| w in wires && h in w.members && w.id == id;
        WireResolved(a, g, wires, w);
      }
      if id in a.Joined(h) {
        var k :| 0 <= k < |wires| && wires[k].id == id;
        WireResolved(a, g, wires, wires[k]);
      }
    }
    assert IdsOf(h, wires) == a.Joined(h);
  }

  ghost predicate Projected(a: Authored, wires: seq<Wire>, projections: map<Name, HostProjection>) {
    && projections.Keys == a.hosts.Keys
    && forall h | h in a.hosts ::
         Projects(h, a.hosts[h].ports, wires, projections[h]) && projections[h].info.id == a.hosts[h].id
  }

  method ProjectAll(a: Authored, wires: seq<Wire>) returns (ok: bool, projections: map<Name, HostProjection>)
    requires a.Parsed() && DistinctIds(wires)
    ensures ok <==> forall h | h in a.hosts :: |Memberships(h, wires)| <= 6
    ensures ok ==> Projected(a, wires, projections)
  {
    projections := map[];
    var left := a.hosts.Keys;
    while left != {}
      invariant left <= a.hosts.Keys && projections.Keys == a.hosts.Keys - left
      invariant forall h | h in projections ::
        && Projects(h, a.hosts[h].ports, wires, projections[h]) && projections[h].info.id == a.hosts[h].id
        && |Memberships(h, wires)| <= R.MEMBERSHIPS
      decreases left
    {
      var h :| h in left;
      var p := ProjectHost(h, a.hosts[h].id, a.hosts[h].ports, wires);
      if p.None? { return false, map[]; }
      projections := projections[h := p.value];
      left := left - {h};
    }
    ok := true;
  }

  /** The deployment carries out what was authored: its hosts, and every Wire as it asks, by a tree over its members. */
  ghost predicate Compiles(a: Authored, g: T.Physical, d: Deployment) {
    && a.Parsed() && Maps(a, g) && d.Valid() && d.ports == PortsOf(a)
    && (forall h | h in a.hosts :: d.projections[h].info.id == a.hosts[h].id)
    && (forall w | w in d.wires :: Resolves(a, g, w))
    && (forall id | id in a.wires :: exists k | 0 <= k < |d.wires| :: d.wires[k].id == id)
  }

  /**
   * Compilation succeeds exactly when every declared path and realization is good, every Wire can be laid
   * as it asks, and no host belongs to more than six; what comes out carries out what was authored.
   */
  method Compile(a: Authored) returns (r: Option<Deployment>, ghost g: T.Physical)
    requires a.Parsed()
    ensures Maps(a, g) && (r.Some? <==> Compilable(a, g))
    ensures r.Some? ==> Compiles(a, g, r.value)
  {
    var graph := BuildGraph(a);
    g := graph;
    GraphValid(a, g);
    var paths := CheckPaths(a, graph);
    if !paths { return None, g; }
    var realizations := CheckRealizations(a, graph);
    if !realizations { return None, g; }
    var resolved, wires := ResolveAll(a, graph);
    if !resolved { return None, g; }
    r := Lower(a, g, wires);
  }

  /** Resolved Wires become tables unless some host belongs to too many. */
  method Lower(a: Authored, ghost g: T.Physical, wires: seq<Wire>) returns (r: Option<Deployment>)
    requires a.Parsed() && Maps(a, g) && Covers(a, g, wires, 0x100)
    ensures r.Some? <==> forall h | h in a.hosts :: |a.Joined(h)| <= 6
    ensures r.Some? ==> Compiles(a, g, r.value)
  {
    forall h ensures |Memberships(h, wires)| == |a.Joined(h)| { JoinedCount(a, g, wires, h); }
    var projected, projections := ProjectAll(a, wires);
    if !projected { return None; }
    var d := Deployment(PortsOf(a), wires, projections);
    CompilesAll(a, g, d);
    r := Some(d);
  }

  lemma CompilesAll(a: Authored, g: T.Physical, d: Deployment)
    requires a.Parsed() && Maps(a, g) && Covers(a, g, d.wires, 0x100) && d.ports == PortsOf(a)
    requires Projected(a, d.wires, d.projections)
    ensures Compiles(a, g, d)
  {
    AllResolved(a, g, d);
    assert d.Valid();
  }

  lemma AllResolved(a: Authored, g: T.Physical, d: Deployment)
    requires a.Parsed() && Maps(a, g) && Covers(a, g, d.wires, 0x100) && d.ports == PortsOf(a)
    ensures forall w | w in d.wires :: Resolves(a, g, w) && w.members <= d.ports.Keys && w.attachments <= d.Edges()
  {
    SameEdges(a, g, d);
    forall w | w in d.wires ensures Resolves(a, g, w) && w.members <= d.ports.Keys { WireResolved(a, g, d.wires, w); }
  }

  lemma WireResolved(a: Authored, g: T.Physical, wires: seq<Wire>, w: Wire)
    requires a.Parsed() && Covers(a, g, wires, 0x100) && w in wires
    ensures Resolves(a, g, w) && w.members <= a.hosts.Keys
  {
    var k :| 0 <= k < |wires| && wires[k] == w;
  }

  // What the packets do.

  /**
   * Every packet on every Wire of a compiled deployment, sent by any host on the Wire and in whatever order
   * its arrivals are handled: each Link the author asked for carries it once and no other Link does; a receiver is
   * offered it once if its host is another member that owes it the packet, and never otherwise; and no
   * more arrivals are handled than there are interfaces.
   */
  lemma EveryPacketArrivesOnce(a: Authored, g: T.Physical, d: Deployment, n: F.Network, k: nat, p: R.Packet,
                               receivers: map<Name, seq<R.DispatchEntry>>, origin: Name, arrivals: seq<Attachment>)
    requires Compiles(a, g, d) && k < |d.wires| && d.wires[k].id == p.wire && p.wire in a.wires && n == d.Network()
    requires F.Participates(d.wires[k].attachments, a.Members(a.wires[p.wire]), origin)
    requires D.UnderWay(n, p, origin, arrivals) && receivers.Keys == n.tables.Keys
    ensures LinksAsAsked(a, g, a.wires[p.wire].how, T.LinksOf(d.wires[k].attachments))
    ensures |arrivals| <= |n.edges|
    ensures F.After(n, p.wire, origin, arrivals).pending == multiset{} ==>
      D.ArrivedOnce(n, receivers, p, d.wires[k].attachments, a.Members(a.wires[p.wire]), origin, arrivals)
  {
    assert d.wires[k] in d.wires;
    AuthoredLinksCarry(a, g, d, d.wires[k]);
    ProjectionLowers(d, k);
    D.ArrivesOnce(n, receivers, p, d.wires[k].attachments, d.wires[k].members, origin, arrivals);
  }

  /** The Links that carry a Wire are the ones its author listed, or those of the interfaces its author listed. */
  ghost predicate LinksAsAsked(a: Authored, g: T.Physical, how: Policy, carrying: set<Name>) {
    match how
    case OverLinks(links) => carrying == links
    case AlongPath(n) => n in a.paths && OfInterfaces(g, a.paths[n], carrying)
    case Exactly(n) => n in a.realizations && OfInterfaces(g, a.realizations[n], carrying)
    case Inferred => true
  }

  lemma AuthoredLinksCarry(a: Authored, g: T.Physical, d: Deployment, w: Wire)
    requires Compiles(a, g, d) && w in d.wires && w.id in a.wires
    ensures LinksAsAsked(a, g, a.wires[w.id].how, T.LinksOf(w.attachments))
  {
    LinksOfAsked(a, g, a.wires[w.id].how, w.members, w.attachments);
  }

  lemma LinksOfAsked(a: Authored, g: T.Physical, how: Policy, members: set<Name>, s: set<Attachment>)
    requires AsAsked(a, g, how, members, s)
    ensures LinksAsAsked(a, g, how, T.LinksOf(s))
  {
    match how
    case OverLinks(links) =>
      forall l | l in links ensures l in T.LinksOf(s) {
        assert T.Served(g, l);
        var x :| x in g.interfaces.Values && x.link == l;
        assert x in s;
      }
    case AlongPath(n) => LinksOfInterfaces(g, a.paths[n], s);
    case Exactly(n) => LinksOfInterfaces(g, a.realizations[n], s);
    case Inferred =>
  }

  ghost predicate OfInterfaces(g: T.Physical, refs: seq<T.Reference>, links: set<Name>) {
    T.Known(g, refs) && forall l :: l in links <==> exists r | r in refs :: g.interfaces[r].link == l
  }

  lemma LinksOfInterfaces(g: T.Physical, refs: seq<T.Reference>, s: set<Attachment>)
    requires Interfaces(g, refs, s)
    ensures OfInterfaces(g, refs, T.LinksOf(s))
  {
    forall l ensures l in T.LinksOf(s) <==> exists r | r in refs :: g.interfaces[r].link == l {
      if r :| r in refs && g.interfaces[r].link == l {
        assert g.interfaces[r] in s;
      }
    }
  }

  /** A packet to one host is owed to one receiver at most, of all the receivers there are. */
  lemma OneAddressee(a: Authored, graph: T.Physical, d: Deployment, n: F.Network, p: R.Packet, receivers: map<Name, seq<R.DispatchEntry>>,
                     g: Name, i: nat, h: Name, j: nat)
    requires Compiles(a, graph, d) && F.Wired(n) && n == d.Network() && receivers.Keys == n.tables.Keys && p.destination != R.BROADCAST
    requires g in n.tables && i in R.Listeners(receivers[g], p, n.infos[g])
    requires h in n.tables && j in R.Listeners(receivers[h], p, n.infos[h])
    ensures g == h && i == j
  {
    assert a.hosts[g].id == n.infos[g].id == p.destination == n.infos[h].id == a.hosts[h].id;
    R.FirstOnly(receivers[g], p, n.infos[g], i, j);
  }
}
