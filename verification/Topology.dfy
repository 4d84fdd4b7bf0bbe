/**
 * Which attachments carry a Wire: inferred where there is only one way to join its members, or
 * chosen by the author as a chain, an exact tree or whole Links.
 */
module Topology {
  import opened Graph
  import opened GraphSearch

  datatype Reference = Reference(host: Name, interface: Name)

  /** Hosts, and the interfaces by which they attach to Links. */
  datatype Physical = Physical(hosts: set<Name>, interfaces: map<Reference, Attachment>)
  {
    ghost function Edges(): set<Attachment> { interfaces.Values }

    /** Each reference names its own attachment, and a host attaches to a Link only once. */
    ghost predicate Valid() {
      && (forall r | r in interfaces ::
            interfaces[r].host == r.host && interfaces[r].interface == r.interface && r.host in hosts)
      && Single(Edges())
    }
  }

  datatype Problem =
    | DisconnectedMembers | AmbiguousConnectivity
    | IncompleteHops | UnknownInterface | InvalidHop | BrokenChain | ReusedInterface | RepeatedHostOrLink
    | DanglingLink | DisconnectedAttachments | PropagationCycle | MissingMembers | NoMembers

  datatype Choice = Selected(attachments: set<Attachment>, visited: set<Name>) | Refused(why: Problem)

  ghost function HostsOf(s: set<Attachment>): set<Name> { set a | a in s :: a.host }

  ghost function LinksOf(s: set<Attachment>): set<Name> { set a | a in s :: a.link }

  /** A node of a Wire: a member, or an end of a selected attachment. */
  ghost predicate OnWire(s: set<Attachment>, members: set<Name>, n: Node) {
    match n
    case Host(name) => name in members || name in HostsOf(s)
    case Link(name) => name in LinksOf(s)
  }

  ghost predicate AllJoined(s: set<Attachment>, members: set<Name>) {
    forall u, v | OnWire(s, members, u) && OnWire(s, members, v) :: Connected(s, u, v)
  }

  predicate Passable(s: set<Attachment>, a: Attachment) { exists b | b in s :: b.link == a.link && b.host != a.host }

  /** Every selected Link has a second attachment to go on to. */
  predicate NoDangling(s: set<Attachment>) {
    forall a {:trigger Passable(s, a)} | a in s :: Passable(s, a)
  }

  /** What every resolved Wire is: one piece without cycles, holding every member, with no dead Links. */
  ghost predicate Tree(s: set<Attachment>, members: set<Name>) {
    Acyclic(s) && AllJoined(s, members) && NoDangling(s)
  }

  /** Nothing is selected only when there is nobody to reach; otherwise every member is attached. */
  lemma TreeReachesMembers(s: set<Attachment>, members: set<Name>)
    requires Tree(s, members)
    ensures s == {} ==> forall m, n | m in members && n in members :: m == n
    ensures s != {} ==> members <= HostsOf(s)
  {
    if s == {} {
      forall m, n | m in members && n in members ensures m == n { AloneTogether(members, m, n); }
    } else {
      var a :| a in s;
      forall m | m in members ensures m in HostsOf(s) { MemberAttached(s, members, m, a); }
    }
  }

  lemma AloneTogether(members: set<Name>, m: Name, n: Name)
    requires AllJoined({}, members) && m in members && n in members
    ensures m == n
  {
    assert OnWire({}, members, Host(m)) && OnWire({}, members, Host(n));
    Stuck({}, Host(m), Host(n));
  }

  lemma MemberAttached(s: set<Attachment>, members: set<Name>, m: Name, a: Attachment)
    requires AllJoined(s, members) && m in members && a in s
    ensures m in HostsOf(s)
  {
    assert a.link in LinksOf(s);
    assert OnWire(s, members, Host(m)) && OnWire(s, members, Link(a.link));
    Stuck(s, Host(m), Link(a.link));
    var b, w :| b in s && Joins(b, Host(m), w);
    assert b.host == m;
  }

  // Inference.

  /** The path from the root that the search found. */
  ghost function Found(edges: set<Attachment>, root: Node, parents: map<Node, Node>, rank: map<Node, nat>, n: Node): (p: seq<Node>)
    requires Search(edges, root, parents, rank) && (n == root || n in parents)
    ensures p != [] && p[|p| - 1] == n
    decreases if n == root then 0 else rank[n] + 1
  {
    if n == root then [n] else Found(edges, root, parents, rank, parents[n]) + [n]
  }

  lemma {:induction false} FoundIsPath(edges: set<Attachment>, root: Node, parents: map<Node, Node>, rank: map<Node, nat>, n: Node)
    requires Search(edges, root, parents, rank) && (n == root || n in parents)
    ensures Path(edges, root, Found(edges, root, parents, rank, n), n)
    ensures n != root ==> forall m | m in Found(edges, root, parents, rank, n) :: m in rank && rank[m] <= rank[n]
    decreases if n == root then 0 else rank[n] + 1
  {
    if n != root {
      var m := parents[n];
      FoundIsPath(edges, root, parents, rank, m);
      var p := Found(edges, root, parents, rank, m);
      var q := p + [n];
      assert n !in p by { assert m == root ==> p == [root]; }
      assert Adjacent(edges, q[|q| - 2], q[|q| - 1]);
    }
  }

  /** One more step uses one more attachment. */
  lemma UsedMore(edges: set<Attachment>, p: seq<Node>, n: Node, a: Attachment)
    requires Single(edges) && p != [] && a in edges && Joins(a, n, p[|p| - 1])
    ensures Used(edges, p + [n]) == Used(edges, p) + {a}
  {
    var q := p + [n];
    forall b | b in Used(edges, q) ensures b in Used(edges, p) + {a} {
      var i :| 0 <= i < |q| - 1 && Joins(b, q[i], q[i + 1]);
      if i < |p| - 1 { UsedAt(edges, p, i, b); }
    }
    forall b | b in Used(edges, p) ensures b in Used(edges, q) {
      var i :| 0 <= i < |p| - 1 && Joins(b, p[i], p[i + 1]);
      UsedAt(edges, q, i, b);
    }
    UsedAt(edges, q, |p| - 1, a);
  }

  ghost predicate OnlyPath(edges: set<Attachment>, u: Node, p: seq<Node>, v: Node) {
    Path(edges, u, p, v) && forall q | Path(edges, u, q, v) :: q == p
  }

  ghost predicate HasOnlyPath(edges: set<Attachment>, u: Node, v: Node) { exists p :: OnlyPath(edges, u, p, v) }

  /** The attachments of every path from the root to a member. */
  ghost function OnPaths(edges: set<Attachment>, root: Node, members: seq<Name>): set<Attachment> {
    set a | a in edges && exists p, m | m in members :: Path(edges, root, p, Host(m)) && a in Used(edges, p)
  }

  ghost predicate AllBridges(edges: set<Attachment>, used: set<Attachment>) { forall a | a in used :: Bridge(edges, a) }

  /** The path found is the only one exactly when it runs over bridges. */
  lemma OnlyIffBridges(edges: set<Attachment>, root: Node, p: seq<Node>, v: Node)
    requires Single(edges) && Path(edges, root, p, v)
    ensures AllBridges(edges, Used(edges, p)) <==> HasOnlyPath(edges, root, v)
    ensures HasOnlyPath(edges, root, v) ==> OnlyPath(edges, root, p, v)
  {
    if AllBridges(edges, Used(edges, p)) {
      forall q | Path(edges, root, q, v) ensures q == p {
        forall i, a | 0 <= i < |p| - 1 && a in edges && Joins(a, p[i], p[i + 1]) ensures Bridge(edges, a) {
          assert a in Used(edges, p);
        }
        BridgesAreTheOnlyWay(edges, root, p, q, v);
      }
      assert OnlyPath(edges, root, p, v);
    } else {
      var a :| a in Used(edges, p) && !Bridge(edges, a);
      var i :| 0 <= i < |p| - 1 && Joins(a, p[i], p[i + 1]);
      var q := GoneRound(edges, root, p, v, i, a);
      assert forall r :: OnlyPath(edges, root, r, v) ==> r == p && r == q;
    }
  }

  /** Climb from a member to the root, as far as the way is over bridges. */
  method Climb(edges: set<Attachment>, bridges: set<Attachment>, root: Node, parents: map<Node, Node>,
               ghost rank: map<Node, nat>, member: Node)
    returns (ok: bool, taken: set<Attachment>)
    requires Single(edges) && Search(edges, root, parents, rank) && (member == root || member in parents)
    requires bridges == set a | a in edges && Bridge(edges, a)
    ensures ok <==> AllBridges(edges, Used(edges, Found(edges, root, parents, rank, member)))
    ensures ok ==> taken == Used(edges, Found(edges, root, parents, rank, member))
  {
    var node := member;
    taken := {};
    ghost var all := Used(edges, Found(edges, root, parents, rank, member));
    while node != root
      invariant node == root || node in parents
      invariant all == taken + Used(edges, Found(edges, root, parents, rank, node))
      invariant taken <= bridges
      decreases if node == root then 0 else rank[node] + 1
    {
      var parent := parents[node];
      assert Adjacent(edges, parent, node);
      var attachment :| attachment in edges && Joins(attachment, parent, node);
      UsedMore(edges, Found(edges, root, parents, rank, parent), node, attachment);
      if attachment !in bridges {
        return false, {};
      }
      taken := taken + {attachment};
      node := parent;
    }
    ok := true;
  }

  /**
   * Inference succeeds exactly when each member is joined to the first by one path and no other, and
   * then selects what those paths use, whichever of the shortest paths the search had found.
   */
  method Infer(g: Physical, members: seq<Name>, bridges: set<Attachment>, parents: map<Node, Node>, ghost rank: map<Node, nat>)
    returns (r: Choice)
    requires g.Valid() && members != []
    requires bridges == set a | a in g.Edges() && Bridge(g.Edges(), a)
    requires Search(g.Edges(), Host(members[0]), parents, rank)
    ensures r.Selected? <==> forall m | m in members :: HasOnlyPath(g.Edges(), Host(members[0]), Host(m))
    ensures r.Selected? ==> r.attachments == OnPaths(g.Edges(), Host(members[0]), members)
    ensures r == Refused(DisconnectedMembers) ==> exists m | m in members :: !Connected(g.Edges(), Host(members[0]), Host(m))
    ensures r == Refused(AmbiguousConnectivity) ==>
      exists m | m in members :: Connected(g.Edges(), Host(members[0]), Host(m)) && !HasOnlyPath(g.Edges(), Host(members[0]), Host(m))
  {
    var edges := g.interfaces.Values;
    var root := Host(members[0]);
    var selected: set<Attachment> := {};
    FirstOnlyPath(edges, root, parents, rank);
    assert OnPaths(edges, root, members[..1]) == {} by { RootNeedsNothing(edges, root, members[..1]); }
    for i := 1 to |members|
      invariant selected == OnPaths(edges, root, members[..i])
      invariant forall m | m in members[..i] :: HasOnlyPath(edges, root, Host(m))
    {
      var node := Host(members[i]);
      if node != root && node !in parents {
        assert !Connected(edges, root, node);
        NoPathAtAll(edges, root, node);
        return Refused(DisconnectedMembers);
      }
      var ok, taken := Climb(edges, bridges, root, parents, rank, node);
      ghost var p := Found(edges, root, parents, rank, node);
      FoundIsPath(edges, root, parents, rank, node);
      OnlyIffBridges(edges, root, p, node);
      if !ok {
        assert Leads(edges, root, p, node);
        return Refused(AmbiguousConnectivity);
      }
      MoreMembers(edges, root, members, i, p);
      selected := selected + taken;
    }
    assert members[..|members|] == members;
    r := Selected(selected, {});
  }

  lemma NoPathAtAll(edges: set<Attachment>, u: Node, v: Node)
    requires !Connected(edges, u, v)
    ensures !HasOnlyPath(edges, u, v)
  {}

  lemma FirstOnlyPath(edges: set<Attachment>, root: Node, parents: map<Node, Node>, rank: map<Node, nat>)
    requires Single(edges) && Search(edges, root, parents, rank)
    ensures HasOnlyPath(edges, root, root)
  {
    FoundIsPath(edges, root, parents, rank, root);
    var p := Found(edges, root, parents, rank, root);
    assert Used(edges, p) == {};
    OnlyIffBridges(edges, root, p, root);
  }

  /** The only simple path from a node to itself is the node. */
  lemma RootNeedsNothing(edges: set<Attachment>, root: Node, members: seq<Name>)
    requires |members| == 1 && root == Host(members[0])
    ensures OnPaths(edges, root, members) == {}
  {
    forall p, m | m in members && Path(edges, root, p, Host(m)) ensures Used(edges, p) == {} {
      assert m == members[0];
      ClosedPathIsShort(edges, root, p);
    }
  }

  lemma ClosedPathIsShort(edges: set<Attachment>, u: Node, p: seq<Node>)
    requires Path(edges, u, p, u)
    ensures |p| == 1 && Used(edges, p) == {}
  {}

  lemma MoreMembers(edges: set<Attachment>, root: Node, members: seq<Name>, i: nat, p: seq<Node>)
    requires i < |members| && OnlyPath(edges, root, p, Host(members[i]))
    ensures OnPaths(edges, root, members[..i + 1]) == OnPaths(edges, root, members[..i]) + Used(edges, p)
  {
    forall a ensures a in OnPaths(edges, root, members[..i + 1]) <==> a in OnPaths(edges, root, members[..i]) + Used(edges, p) {
      if a in OnPaths(edges, root, members[..i + 1]) {
        var q, m :| m in members[..i + 1] && Path(edges, root, q, Host(m)) && a in Used(edges, q);
        if m !in members[..i] { assert q == p; }
      }
      if a in OnPaths(edges, root, members[..i]) {
        var q, m :| m in members[..i] && Path(edges, root, q, Host(m)) && a in Used(edges, q);
        assert m in members[..i + 1];
      }
      if a in Used(edges, p) { assert members[i] in members[..i + 1]; }
    }
  }

  // The inferred selection is a tree.

  ghost function SetOf(members: seq<Name>): set<Name> { set m | m in members }

  lemma PathStays(edges: set<Attachment>, s: set<Attachment>, p: seq<Node>)
    requires Walk(edges, p) && Used(edges, p) <= s
    ensures Walk(s, p)
  {
    forall i | 0 <= i < |p| - 1 ensures Adjacent(s, p[i], p[i + 1]) {
      assert Adjacent(edges, p[i], p[i + 1]);
      var a :| a in edges && Joins(a, p[i], p[i + 1]);
      assert a in Used(edges, p);
    }
  }

  /** A Link on a path between hosts is entered by one attachment and left by another. */
  lemma LinksArePassed(edges: set<Attachment>, u: Node, p: seq<Node>, v: Node, a: Attachment)
    requires Path(edges, u, p, v) && u.Host? && v.Host? && a in Used(edges, p)
    ensures Passable(Used(edges, p), a)
  {
    var i := UsedWhere(edges, p, a);
    if p[i].Link? {
      var b := StepOf(edges, p, i - 1);
      OtherHost(p, i - 1, b, a);
    } else {
      assert p[i + 1].Link?;
      var b := StepOf(edges, p, i + 1);
      OtherHost(p, i, a, b);
    }
  }

  lemma UsedWhere(edges: set<Attachment>, p: seq<Node>, a: Attachment) returns (i: nat)
    requires a in Used(edges, p)
    ensures i < |p| - 1 && Joins(a, p[i], p[i + 1])
  {
    i :| 0 <= i < |p| - 1 && Joins(a, p[i], p[i + 1]);
  }

  lemma StepOf(edges: set<Attachment>, p: seq<Node>, i: nat) returns (a: Attachment)
    requires Walk(edges, p) && i < |p| - 1
    ensures a in Used(edges, p) && Joins(a, p[i], p[i + 1])
  {
    assert Adjacent(edges, p[i], p[i + 1]);
    a :| a in edges && Joins(a, p[i], p[i + 1]);
    UsedAt(edges, p, i, a);
  }

  /** Before and after a Link, a path is at different hosts. */
  lemma OtherHost(p: seq<Node>, i: nat, a: Attachment, b: Attachment)
    requires i + 2 < |p| && Distinct(p) && p[i + 1].Link? && Joins(a, p[i], p[i + 1]) && Joins(b, p[i + 1], p[i + 2])
    ensures a.link == b.link && a.host != b.host
  {
    assert p[i] != p[i + 2];
  }

  lemma UsedAt(edges: set<Attachment>, p: seq<Node>, i: nat, a: Attachment)
    requires i < |p| - 1 && a in edges && Joins(a, p[i], p[i + 1])
    ensures a in Used(edges, p)
  {}

  /** Both ends of what a path uses are reached from its start within what it uses. */
  lemma EndsReached(edges: set<Attachment>, s: set<Attachment>, u: Node, p: seq<Node>, v: Node, a: Attachment)
    requires Path(edges, u, p, v) && Used(edges, p) <= s && a in Used(edges, p)
    ensures Connected(s, u, Host(a.host)) && Connected(s, u, Link(a.link))
  {
    PathStays(edges, s, p);
    var i := UsedWhere(edges, p, a);
    ReachedAt(s, p, i);
    ReachedAt(s, p, i + 1);
  }

  lemma ReachedAt(s: set<Attachment>, p: seq<Node>, i: nat)
    requires Walk(s, p) && i < |p|
    ensures Connected(s, p[0], p[i])
  {
    Prefix(s, p, i + 1);
  }

  lemma AllFromRoot(s: set<Attachment>, members: set<Name>, root: Node)
    requires forall n | OnWire(s, members, n) :: Connected(s, root, n)
    ensures AllJoined(s, members)
  {
    forall u, v | OnWire(s, members, u) && OnWire(s, members, v) ensures Connected(s, u, v) {
      Back(s, root, u);
      Onward(s, u, root, v);
    }
  }

  /** A successful inference yields a tree over the members. */
  lemma InferredIsTree(edges: set<Attachment>, members: seq<Name>)
    requires Single(edges) && members != []
    requires forall m | m in members :: HasOnlyPath(edges, Host(members[0]), Host(m))
    ensures Tree(OnPaths(edges, Host(members[0]), members), SetOf(members))
  {
    var root := Host(members[0]);
    var s := OnPaths(edges, root, members);
    forall a | a in s ensures Bridge(s, a) && Passable(s, a)
      && Connected(s, root, Host(a.host)) && Connected(s, root, Link(a.link))
    {
      var p, m :| m in members && Path(edges, root, p, Host(m)) && a in Used(edges, p);
      assert HasOnlyPath(edges, root, Host(m));
      OnlyIffBridges(edges, root, p, Host(m));
      BridgeOfFewer(s, edges, a);
      LinksArePassed(edges, root, p, Host(m), a);
      assert Used(edges, p) <= s;
      EndsReached(edges, s, root, p, Host(m), a);
    }
    forall n | OnWire(s, SetOf(members), n) ensures Connected(s, root, n) {
      if n.Host? && n.name in SetOf(members) {
        assert HasOnlyPath(edges, root, n);
        var p :| OnlyPath(edges, root, p, n);
        assert Used(edges, p) <= s;
        PathStays(edges, s, p);
        assert Leads(s, root, p, n);
      }
    }
    AllFromRoot(s, SetOf(members), root);
  }

  // Chains.

  function First(g: Physical, refs: seq<Reference>, k: nat): Attachment
    requires 2 * k < |refs| && (forall r | r in refs :: r in g.interfaces)
  {
    g.interfaces[refs[2 * k]]
  }

  function Second(g: Physical, refs: seq<Reference>, k: nat): Attachment
    requires 2 * k + 1 < |refs| && (forall r | r in refs :: r in g.interfaces)
  {
    g.interfaces[refs[2 * k + 1]]
  }

  predicate Known(g: Physical, refs: seq<Reference>) { forall r | r in refs :: r in g.interfaces }

  /** Over one Link to another host, on from where the last hop ended, to a host and over a Link not met before. */
  predicate GoodHop(g: Physical, refs: seq<Reference>, k: nat)
    requires 2 * k + 1 < |refs| && Known(g, refs)
  {
    var a, b := First(g, refs, k), Second(g, refs, k);
    && a.link == b.link && a.host != b.host
    && (k > 0 ==> a.host == Second(g, refs, k - 1).host)
    && b.host != First(g, refs, 0).host
    && forall j | 0 <= j < k :: b.host != Second(g, refs, j).host && a.link != First(g, refs, j).link
  }

  predicate GoodHops(g: Physical, refs: seq<Reference>, n: nat)
    requires 2 * n <= |refs| && Known(g, refs)
  {
    forall k | 0 <= k < n :: GoodHop(g, refs, k)
  }

  predicate GoodChain(g: Physical, refs: seq<Reference>) {
    |refs| >= 2 && |refs| % 2 == 0 && Known(g, refs) && GoodHops(g, refs, |refs| / 2)
  }

  lemma OneMoreHop(g: Physical, refs: seq<Reference>, k: nat)
    requires 2 * k + 1 < |refs| && Known(g, refs) && GoodHops(g, refs, k)
    ensures GoodHops(g, refs, k + 1) <==> GoodHop(g, refs, k)
    ensures k > 0 ==> GoodHop(g, refs, k - 1)
  {}

  lemma TreeOverOne(h: Name)
    ensures Tree({}, {h})
  {
    forall u, v | OnWire({}, {h}, u) && OnWire({}, {h}, v) ensures Connected({}, u, v) { Here({}, u); }
  }

  /** A hop from the tree over a new Link to a new host makes a larger tree. */
  lemma AddHop(s: set<Attachment>, members: set<Name>, a: Attachment, b: Attachment)
    requires Tree(s, members) && HostsOf(s) <= members
    requires a.host in members && b.host !in members && a.link == b.link && a.link !in LinksOf(s)
    ensures Tree(s + {a, b}, members + {b.host})
  {
    HopAcyclic(s, a, b);
    assert s + {a, b} == s + {a} + {b};
    HopJoined(s, members, a, b);
    HopNoDangling(s, a, b);
  }

  lemma HopJoined(s: set<Attachment>, members: set<Name>, a: Attachment, b: Attachment)
    requires AllJoined(s, members) && HostsOf(s) <= members && a.host in members && a.link == b.link
    ensures AllJoined(s + {a, b}, members + {b.host})
  {
    var more, root := s + {a, b}, Host(a.host);
    Across(more, a, root, Link(a.link));
    Across(more, b, Link(a.link), Host(b.host));
    Onward(more, root, Link(a.link), Host(b.host));
    forall n | OnWire(more, members + {b.host}, n) ensures Connected(more, root, n) {
      if OnWire(s, members, n) {
        assert OnWire(s, members, root);
        StillConnected(s, more, root, n);
      }
    }
    AllFromRoot(more, members + {b.host}, root);
  }

  lemma HopNoDangling(s: set<Attachment>, a: Attachment, b: Attachment)
    requires NoDangling(s) && a.link == b.link && a.host != b.host
    ensures NoDangling(s + {a, b})
  {
    var more := s + {a, b};
    forall c | c in more ensures Passable(more, c) {
      if c in s {
        assert Passable(s, c);
        var d :| d in s && d.link == c.link && d.host != c.host;
        assert d in more;
      } else {
        var d := if c == a then b else a;
        assert d in more && d.link == c.link && d.host != c.host;
      }
    }
  }

  lemma HopAcyclic(s: set<Attachment>, a: Attachment, b: Attachment)
    requires Acyclic(s) && a.link == b.link && a.link !in LinksOf(s) && a.host != b.host && b.host !in HostsOf(s)
    ensures Acyclic(s + {a} + {b})
  {
    assert !IsEnd(s, Link(a.link));
    AddLeaf(s, a, Host(a.host), Link(a.link));
    assert !IsEnd(s + {a}, Host(b.host));
    AddLeaf(s + {a}, b, Link(b.link), Host(b.host));
  }

  function Chosen(g: Physical, refs: seq<Reference>): set<Attachment>
    requires Known(g, refs)
  {
    set x | x in refs :: g.interfaces[x]
  }

  /** The hosts of the first k hops, from the host the chain starts from. */
  function HostsMet(g: Physical, refs: seq<Reference>, k: nat): set<Name>
    requires 2 * k <= |refs| && |refs| >= 2 && Known(g, refs)
  {
    if k == 0 then {First(g, refs, 0).host} else HostsMet(g, refs, k - 1) + {Second(g, refs, k - 1).host}
  }

  function LinksMet(g: Physical, refs: seq<Reference>, k: nat): set<Name>
    requires 2 * k <= |refs| && |refs| >= 2 && Known(g, refs)
  {
    if k == 0 then {} else LinksMet(g, refs, k - 1) + {First(g, refs, k - 1).link}
  }

  lemma {:induction false} MetIs(g: Physical, refs: seq<Reference>, k: nat)
    requires 2 * k <= |refs| && |refs| >= 2 && Known(g, refs)
    ensures forall h :: h in HostsMet(g, refs, k) <==> h == First(g, refs, 0).host || exists j | 0 <= j < k :: h == Second(g, refs, j).host
    ensures forall l :: l in LinksMet(g, refs, k) <==> exists j | 0 <= j < k :: l == First(g, refs, j).link
    decreases k
  {
    if k > 0 { MetIs(g, refs, k - 1); }
  }

  function Taken(g: Physical, refs: seq<Reference>, k: nat): set<Attachment>
    requires 2 * k <= |refs| && |refs| >= 2 && Known(g, refs)
  {
    if k == 0 then {} else Taken(g, refs, k - 1) + {First(g, refs, k - 1), Second(g, refs, k - 1)}
  }

  lemma {:induction false} TakenIs(g: Physical, refs: seq<Reference>, k: nat)
    requires 2 * k <= |refs| && |refs| >= 2 && Known(g, refs)
    ensures Taken(g, refs, k) == Chosen(g, refs[..2 * k])
    decreases k
  {
    if k > 0 {
      TakenIs(g, refs, k - 1);
      assert refs[..2 * k] == refs[..2 * (k - 1)] + [refs[2 * k - 2], refs[2 * k - 1]];
    }
  }

  lemma TakenAll(g: Physical, refs: seq<Reference>)
    requires |refs| >= 2 && |refs| % 2 == 0 && Known(g, refs)
    ensures Taken(g, refs, |refs| / 2) == Chosen(g, refs)
  {
    var n := |refs| / 2;
    TakenIs(g, refs, n);
    assert 2 * n == |refs|;
    assert refs[..|refs|] == refs;
  }

  /** What the first k hops select, over exactly the hosts and Links they met. */
  ghost predicate Laid(s: set<Attachment>, k: nat, hosts: set<Name>, links: set<Name>) {
    links == LinksOf(s) && HostsOf(s) <= hosts && (k > 0 ==> hosts <= HostsOf(s)) && Tree(s, hosts)
  }

  lemma LaidNext(s: set<Attachment>, k: nat, hosts: set<Name>, links: set<Name>, a: Attachment, b: Attachment)
    requires Laid(s, k, hosts, links) && (k == 0 ==> hosts == {a.host})
    requires a.host in hosts && b.host !in hosts && a.link == b.link && a.link !in links
    ensures Laid(s + {a, b}, k + 1, hosts + {b.host}, links + {a.link})
  {
    AddHop(s, hosts, a, b);
    assert LinksOf(s + {a, b}) == links + {a.link};
    assert HostsOf(s + {a, b}) == HostsOf(s) + {a.host, b.host};
  }

  /** The grammar of one hop, against the hosts and Links met so far. */
  method CheckHop(g: Physical, refs: seq<Reference>, k: nat, hosts: set<Name>, links: set<Name>) returns (r: Choice)
    requires 2 * k + 1 < |refs| && Known(g, refs)
    requires hosts == HostsMet(g, refs, k) && links == LinksMet(g, refs, k)
    requires k > 0 ==> First(g, refs, k - 1).link == Second(g, refs, k - 1).link
    ensures r.Selected? <==> GoodHop(g, refs, k)
    ensures r.Refused? ==> r.why != IncompleteHops && r.why != UnknownInterface
    ensures r.Selected? ==> First(g, refs, k).host in hosts && Second(g, refs, k).host !in hosts && First(g, refs, k).link !in links
  {
    MetIs(g, refs, k);
    var a, b := First(g, refs, k), Second(g, refs, k);
    if a.link != b.link || a.host == b.host {
      return Refused(InvalidHop);
    }
    if k > 0 && a.host != Second(g, refs, k - 1).host {
      return Refused(BrokenChain);
    }
    if k > 0 && refs[2 * k] == refs[2 * k - 1] {
      assert a.link == First(g, refs, k - 1).link;
      return Refused(ReusedInterface);
    }
    if b.host in hosts || a.link in links {
      return Refused(RepeatedHostOrLink);
    }
    r := Selected({a, b}, {});
  }

  /** A chain is accepted exactly when every hop is good, and then is a tree over the hosts it visits. */
  method Chain(g: Physical, refs: seq<Reference>) returns (r: Choice)
    requires g.Valid()
    ensures r.Selected? <==> GoodChain(g, refs)
    ensures r.Selected? ==> r.attachments == Chosen(g, refs)
    ensures r.Selected? ==> Tree(r.attachments, r.visited) && r.visited == HostsOf(r.attachments)
    ensures r == Refused(IncompleteHops) <==> |refs| < 2 || |refs| % 2 != 0
    ensures r == Refused(UnknownInterface) <==> |refs| >= 2 && |refs| % 2 == 0 && !Known(g, refs)
  {
    if |refs| < 2 || |refs| % 2 != 0 {
      return Refused(IncompleteHops);
    }
    if !Known(g, refs) {
      return Refused(UnknownInterface);
    }
    TakenAll(g, refs);
    r := LayHops(g, refs);
  }

  method LayHops(g: Physical, refs: seq<Reference>) returns (r: Choice)
    requires |refs| >= 2 && |refs| % 2 == 0 && Known(g, refs)
    ensures r.Selected? <==> GoodHops(g, refs, |refs| / 2)
    ensures r.Refused? ==> r.why != IncompleteHops && r.why != UnknownInterface
    ensures r.Selected? ==> r.attachments == Taken(g, refs, |refs| / 2)
    ensures r.Selected? ==> Tree(r.attachments, r.visited) && r.visited == HostsOf(r.attachments)
  {
    var visitedHosts, visitedLinks, selected := {First(g, refs, 0).host}, {}, {};
    TreeOverOne(First(g, refs, 0).host);
    for k := 0 to |refs| / 2
      invariant GoodHops(g, refs, k)
      invariant visitedHosts == HostsMet(g, refs, k) && visitedLinks == LinksMet(g, refs, k)
      invariant selected == Taken(g, refs, k)
      invariant k == 0 ==> visitedHosts == {First(g, refs, 0).host}
      invariant Laid(selected, k, visitedHosts, visitedLinks)
    {
      OneMoreHop(g, refs, k);
      var a, b := First(g, refs, k), Second(g, refs, k);
      r := CheckHop(g, refs, k, visitedHosts, visitedLinks);
      if r.Refused? {
        assert !GoodHop(g, refs, k);
        return;
      }
      LaidNext(selected, k, visitedHosts, visitedLinks, a, b);
      selected := selected + {a, b};
      visitedHosts := visitedHosts + {b.host};
      visitedLinks := visitedLinks + {a.link};
    }
    r := Selected(selected, visitedHosts);
  }

  // Exact trees and whole Links.

  /** The members of a Wire are among those it was laid over. */
  lemma FewerMembers(s: set<Attachment>, members: set<Name>, more: set<Name>)
    requires Tree(s, more) && members <= more
    ensures Tree(s, members)
  {
    assert forall n | OnWire(s, members, n) :: OnWire(s, more, n);
  }

  lemma OwnHosts(s: set<Attachment>)
    ensures AllJoined(s, {}) <==> AllJoined(s, HostsOf(s))
  {
    assert forall n :: OnWire(s, {}, n) <==> OnWire(s, HostsOf(s), n);
  }

  /** A search from a node of the Wire sees every node of it exactly when they are all joined. */
  lemma SeesAll(s: set<Attachment>, members: set<Name>, root: Node, parents: map<Node, Node>, rank: map<Node, nat>)
    requires Search(s, root, parents, rank) && OnWire(s, members, root)
    ensures AllJoined(s, members) <==> forall n | OnWire(s, members, n) :: Seen(root, parents, n)
  {
    if forall n | OnWire(s, members, n) :: Seen(root, parents, n) { AllFromRoot(s, members, root); }
  }

  /** The library's connectivity test: a search from one node sees the rest. */
  method IsConnected(s: set<Attachment>, members: set<Name>, root: Node, parents: map<Node, Node>, ghost rank: map<Node, nat>)
    returns (connected: bool)
    requires Search(s, root, parents, rank) && OnWire(s, members, root)
    ensures connected <==> AllJoined(s, members)
  {
    SeesAll(s, members, root, parents, rank);
    connected := (forall h | h in members :: Seen(root, parents, Host(h)))
      && forall a | a in s :: Seen(root, parents, Host(a.host)) && Seen(root, parents, Link(a.link));
    if connected {
      forall n | OnWire(s, members, n) ensures Seen(root, parents, n) {
        if n.Host? && n.name !in members {
          var a :| a in s && a.host == n.name;
        } else if n.Link? {
          var a :| a in s && a.link == n.name;
        }
      }
    } else {
      assert (exists h | h in members :: OnWire(s, members, Host(h)) && !Seen(root, parents, Host(h)))
        || (exists a | a in s :: !Seen(root, parents, Host(a.host)) && OnWire(s, members, Host(a.host)))
        || (exists a | a in s :: !Seen(root, parents, Link(a.link)) && OnWire(s, members, Link(a.link)));
    }
  }

  lemma WholePiece(s: set<Attachment>, members: set<Name>, root: Node)
    requires AllJoined(s, members) && OnWire(s, members, root)
    ensures PieceOf(s, root) == s
  {
    forall a | a in s ensures a in PieceOf(s, root) { assert OnWire(s, members, Host(a.host)); }
  }

  /**
   * An exact realization is accepted exactly when its interfaces are known and what they form is one
   * piece without cycles in which no Link dangles.
   */
  method Realization(g: Physical, refs: seq<Reference>) returns (r: Choice)
    requires g.Valid() && refs != []
    ensures r.Selected? <==> Known(g, refs) && Tree(Chosen(g, refs), HostsOf(Chosen(g, refs)))
    ensures r.Selected? ==> r.attachments == Chosen(g, refs) && r.visited == HostsOf(r.attachments)
    ensures r == Refused(UnknownInterface) <==> !Known(g, refs)
    ensures r == Refused(DanglingLink) <==> Known(g, refs) && !NoDangling(Chosen(g, refs))
    ensures r == Refused(DisconnectedAttachments) <==>
      Known(g, refs) && NoDangling(Chosen(g, refs)) && !AllJoined(Chosen(g, refs), {})
    ensures r == Refused(PropagationCycle) <==>
      Known(g, refs) && NoDangling(Chosen(g, refs)) && AllJoined(Chosen(g, refs), {}) && !Acyclic(Chosen(g, refs))
  {
    if !Known(g, refs) {
      return Refused(UnknownInterface);
    }
    var selected := Chosen(g, refs);
    OwnHosts(selected);
    if !NoDangling(selected) {
      return Refused(DanglingLink);
    }
    assert refs[0] in refs && g.interfaces[refs[0]] in selected;
    var root := Host(g.interfaces[refs[0]].host);
    var parents, rank := Explore(selected, root);
    var connected := IsConnected(selected, {}, root, parents, rank);
    if !connected {
      return Refused(DisconnectedAttachments);
    }
    WholePiece(selected, {}, root);
    var tree := PieceIsTree(selected, root, parents, rank);
    if !tree {
      return Refused(PropagationCycle);
    }
    r := Selected(selected, set a | a in selected :: a.host);
  }

  /** All attachments of the chosen Links. */
  function OfLinks(g: Physical, links: set<Name>): set<Attachment> {
    set a | a in g.interfaces.Values && a.link in links
  }

  predicate Served(g: Physical, link: Name) {
    exists a, b | a in g.interfaces.Values && b in g.interfaces.Values :: a.link == link && b.link == link && a.host != b.host
  }

  method LeastOf(names: set<Name>) returns (least: Name)
    requires names != {}
    ensures least in names && forall n | n in names :: least <= n
  {
    least :| least in names;
    var left := names - {least};
    while left != {}
      invariant left <= names && least in names
      invariant forall n | n in names :: n in left || least <= n
      decreases left
    {
      var n :| n in left;
      if n < least { least := n; }
      left := left - {n};
    }
  }

  /**
   * Whole Links are accepted exactly when each serves two hosts and everything, with the members, is one
   * piece without cycles. Only the piece that holds the first host is checked for cycles, before the gap.
   */
  method Legacy(g: Physical, links: set<Name>, members: seq<Name>) returns (r: Choice)
    requires g.Valid() && members != []
    ensures r.Selected? <==> (forall l | l in links :: Served(g, l)) && Tree(OfLinks(g, links), SetOf(members))
    ensures r.Selected? ==> r.attachments == OfLinks(g, links)
    ensures r == Refused(DanglingLink) <==> exists l | l in links :: !Served(g, l)
    ensures r == Refused(PropagationCycle) ==> !Acyclic(OfLinks(g, links))
    ensures r == Refused(DisconnectedMembers) ==> !AllJoined(OfLinks(g, links), SetOf(members))
  {
    var selected := OfLinks(g, links);
    if !forall l | l in links :: Served(g, l) {
      return Refused(DanglingLink);
    }
    var people := set m | m in members;
    assert members[0] in people;
    var least := LeastOf(people + set a | a in selected :: a.host);
    var root := Host(least);
    var parents, rank := Explore(selected, root);
    var tree := PieceIsTree(selected, root, parents, rank);
    if !tree {
      PieceIsFewer(selected, root);
      return Refused(PropagationCycle);
    }
    var connected := IsConnected(selected, people, root, parents, rank);
    if !connected {
      return Refused(DisconnectedMembers);
    }
    WholePiece(selected, people, root);
    ServedNoDangling(g, links);
    r := Selected(selected, {});
  }

  lemma PieceIsFewer(s: set<Attachment>, root: Node)
    ensures Acyclic(s) ==> Acyclic(PieceOf(s, root))
  {
    if Acyclic(s) {
      forall a | a in PieceOf(s, root) ensures Bridge(PieceOf(s, root), a) { BridgeOfFewer(PieceOf(s, root), s, a); }
    }
  }

  lemma ServedNoDangling(g: Physical, links: set<Name>)
    requires forall l | l in links :: Served(g, l)
    ensures NoDangling(OfLinks(g, links))
  {
    var s := OfLinks(g, links);
    forall a | a in s ensures Passable(s, a) {
      assert Served(g, a.link);
      var x, y :| x in g.interfaces.Values && y in g.interfaces.Values && x.link == a.link && y.link == a.link && x.host != y.host;
      assert x in s && y in s;
    }
  }

  // Every Wire.

  datatype Selection = ByPath(path: seq<Reference>) | ByRealization(exact: seq<Reference>) | ByLinks(links: set<Name>) | ByInference

  /** There are members, and what the author asked for holds of the graph. */
  ghost predicate Acceptable(g: Physical, members: seq<Name>, how: Selection) {
    members != [] &&
    match how
    case ByPath(path) => GoodChain(g, path) && SetOf(members) <= HostsOf(Chosen(g, path))
    case ByRealization(exact) =>
      && Known(g, exact) && Tree(Chosen(g, exact), HostsOf(Chosen(g, exact)))
      && SetOf(members) <= HostsOf(Chosen(g, exact))
    case ByLinks(links) => (forall l | l in links :: Served(g, l)) && Tree(OfLinks(g, links), SetOf(members))
    case ByInference => forall m | m in members :: HasOnlyPath(g.Edges(), Host(members[0]), Host(m))
  }

  method Lay(g: Physical, members: seq<Name>, how: Selection) returns (r: Choice)
    requires g.Valid() && members != [] && (how.ByPath? || how.ByRealization?) && (how.ByRealization? ==> how.exact != [])
    ensures r.Selected? <==> Acceptable(g, members, how)
    ensures r.Selected? ==> Tree(r.attachments, SetOf(members)) && r.attachments <= g.Edges()
    ensures r.Selected? && how.ByPath? ==> Known(g, how.path) && r.attachments == Chosen(g, how.path)
    ensures r.Selected? && how.ByRealization? ==> Known(g, how.exact) && r.attachments == Chosen(g, how.exact)
  {
    if how.ByPath? {
      r := Chain(g, how.path);
    } else {
      r := Realization(g, how.exact);
    }
    r := Covering(r, members);
  }

  /** Inference over the whole graph, with its bridges and a search from the first member. */
  method InferOver(g: Physical, members: seq<Name>) returns (r: Choice)
    requires g.Valid() && members != []
    ensures r.Selected? <==> forall m | m in members :: HasOnlyPath(g.Edges(), Host(members[0]), Host(m))
    ensures r.Selected? ==> r.attachments == OnPaths(g.Edges(), Host(members[0]), members)
    ensures r.Selected? ==> Tree(r.attachments, SetOf(members)) && r.attachments <= g.Edges()
  {
    var bridges := Bridges(g.interfaces.Values);
    var parents, rank := Explore(g.interfaces.Values, Host(members[0]));
    r := Infer(g, members, bridges, parents, rank);
    if r.Selected? { InferredIsTree(g.Edges(), members); }
  }

  /**
   * However a Wire is selected: it is resolved exactly when that is acceptable, and what is selected is a tree,
   * made of the listed interfaces, of all interfaces of the listed Links, or of the only paths between members.
   */
  method ResolveWire(g: Physical, members: seq<Name>, how: Selection) returns (r: Choice, transit: set<Name>)
    requires g.Valid() && (how.ByRealization? ==> how.exact != [])
    ensures r.Selected? <==> Acceptable(g, members, how)
    ensures r.Selected? ==> Tree(r.attachments, SetOf(members)) && r.attachments <= g.Edges()
    ensures r.Selected? && how.ByPath? ==> Known(g, how.path) && r.attachments == Chosen(g, how.path)
    ensures r.Selected? && how.ByRealization? ==> Known(g, how.exact) && r.attachments == Chosen(g, how.exact)
    ensures r.Selected? && how.ByLinks? ==> r.attachments == OfLinks(g, how.links)
    ensures r.Selected? && how.ByInference? ==>
      members != [] && r.attachments == OnPaths(g.Edges(), Host(members[0]), members)
    ensures r.Selected? ==> transit == HostsOf(r.attachments) - SetOf(members)
  {
    transit := {};
    if members == [] {
      return Refused(NoMembers), {};
    }
    if how.ByPath? || how.ByRealization? {
      r := Lay(g, members, how);
    } else if how.ByLinks? {
      r := Legacy(g, how.links, members);
    } else {
      r := InferOver(g, members);
    }
    if r.Selected? {
      transit := (set a | a in r.attachments :: a.host) - (set m | m in members);
    }
  }

  /** A tree laid over hosts serves a Wire whose members are among them. */
  method Covering(laid: Choice, members: seq<Name>) returns (r: Choice)
    requires laid.Selected? ==> Tree(laid.attachments, laid.visited) && laid.visited == HostsOf(laid.attachments)
    ensures r.Selected? <==> laid.Selected? && SetOf(members) <= HostsOf(laid.attachments)
    ensures r.Selected? ==> r == laid && Tree(r.attachments, SetOf(members))
    ensures r.Refused? ==> r == if laid.Refused? then laid else Refused(MissingMembers)
  {
    if laid.Refused? {
      return laid;
    }
    if exists m | m in members :: m !in laid.visited {
      return Refused(MissingMembers);
    }
    FewerMembers(laid.attachments, SetOf(members), laid.visited);
    r := laid;
  }
}
