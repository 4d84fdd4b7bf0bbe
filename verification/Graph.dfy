/**
 * Hosts and shared Links as the nodes of one graph, joined by attachments: walks, connection,
 * bridges, and the one way through a graph in which every attachment is a bridge.
 */
module Graph {
  /** Names, in their sort order. */
  type Name = nat

  datatype Attachment = Attachment(host: Name, interface: Name, link: Name)

  datatype Node = Host(name: Name) | Link(name: Name)

  predicate Joins(a: Attachment, u: Node, v: Node) {
    || (u == Host(a.host) && v == Link(a.link))
    || (u == Link(a.link) && v == Host(a.host))
  }

  ghost predicate Adjacent(edges: set<Attachment>, u: Node, v: Node) { exists a | a in edges :: Joins(a, u, v) }

  ghost predicate Walk(edges: set<Attachment>, p: seq<Node>) {
    p != [] && forall i | 0 <= i < |p| - 1 :: Adjacent(edges, p[i], p[i + 1])
  }

  ghost predicate Leads(edges: set<Attachment>, u: Node, p: seq<Node>, v: Node) {
    Walk(edges, p) && p[0] == u && p[|p| - 1] == v
  }

  ghost predicate Connected(edges: set<Attachment>, u: Node, v: Node) { exists p :: Leads(edges, u, p, v) }

  /** Taking the attachment away parts its two ends. */
  ghost predicate Bridge(edges: set<Attachment>, a: Attachment) {
    a in edges && !Connected(edges - {a}, Host(a.host), Link(a.link))
  }

  ghost predicate Acyclic(edges: set<Attachment>) { forall a | a in edges :: Bridge(edges, a) }

  lemma Here(edges: set<Attachment>, u: Node)
    ensures Connected(edges, u, u)
  {
    assert Leads(edges, u, [u], u);
  }

  lemma Across(edges: set<Attachment>, a: Attachment, u: Node, v: Node)
    requires a in edges && Joins(a, u, v)
    ensures Connected(edges, u, v) && Connected(edges, v, u)
  {
    assert Adjacent(edges, u, v);
    assert Leads(edges, u, [u, v], v);
    Back(edges, u, v);
  }

  lemma Back(edges: set<Attachment>, u: Node, v: Node)
    requires Connected(edges, u, v)
    ensures Connected(edges, v, u)
  {
    var p :| Leads(edges, u, p, v);
    var n := |p|;
    var q := seq(n, i requires 0 <= i < n => p[n - 1 - i]);
    forall i | 0 <= i < n - 1 ensures Adjacent(edges, q[i], q[i + 1]) {
      var j := n - 2 - i;
      assert q[i] == p[j + 1] && q[i + 1] == p[j];
      assert Adjacent(edges, p[j], p[j + 1]);
      var a :| a in edges && Joins(a, p[j], p[j + 1]);
      assert Joins(a, q[i], q[i + 1]);
    }
    assert Leads(edges, v, q, u);
  }

  lemma Onward(edges: set<Attachment>, u: Node, v: Node, w: Node)
    requires Connected(edges, u, v) && Connected(edges, v, w)
    ensures Connected(edges, u, w)
  {
    var p :| Leads(edges, u, p, v);
    var q :| Leads(edges, v, q, w);
    var r := p + q[1..];
    forall i | 0 <= i < |r| - 1 ensures Adjacent(edges, r[i], r[i + 1]) {
      if i < |p| - 1 {
        assert Adjacent(edges, p[i], p[i + 1]);
      } else {
        var j := i - (|p| - 1);
        assert r[i] == q[j] && r[i + 1] == q[j + 1];
        assert Adjacent(edges, q[j], q[j + 1]);
      }
    }
    assert Leads(edges, u, r, w);
  }

  lemma Wider(edges: set<Attachment>, more: set<Attachment>, p: seq<Node>)
    requires Walk(edges, p) && edges <= more
    ensures Walk(more, p)
  {
    forall i | 0 <= i < |p| - 1 ensures Adjacent(more, p[i], p[i + 1]) {
      assert Adjacent(edges, p[i], p[i + 1]);
    }
  }

  lemma StillConnected(edges: set<Attachment>, more: set<Attachment>, u: Node, v: Node)
    requires Connected(edges, u, v) && edges <= more
    ensures Connected(more, u, v)
  {
    var p :| Leads(edges, u, p, v);
    Wider(edges, more, p);
    assert Leads(more, u, p, v);
  }

  /** A bridge stays one when other attachments are taken away. */
  lemma BridgeOfFewer(edges: set<Attachment>, more: set<Attachment>, a: Attachment)
    requires Bridge(more, a) && a in edges && edges <= more
    ensures Bridge(edges, a)
  {
    if Connected(edges - {a}, Host(a.host), Link(a.link)) {
      StillConnected(edges - {a}, more - {a}, Host(a.host), Link(a.link));
    }
  }

  /** A walk that misses an end of an attachment does not use it. */
  lemma Avoids(edges: set<Attachment>, a: Attachment, p: seq<Node>)
    requires Walk(edges, p) && (Host(a.host) !in p || Link(a.link) !in p)
    ensures Walk(edges - {a}, p)
  {
    forall i | 0 <= i < |p| - 1 ensures Adjacent(edges - {a}, p[i], p[i + 1]) {
      assert Adjacent(edges, p[i], p[i + 1]);
      var b :| b in edges && Joins(b, p[i], p[i + 1]);
      assert b != a by { assert p[i] in p && p[i + 1] in p; }
    }
  }

  lemma Prefix(edges: set<Attachment>, p: seq<Node>, n: nat)
    requires Walk(edges, p) && 0 < n <= |p|
    ensures Leads(edges, p[0], p[..n], p[n - 1])
  {}

  lemma Suffix(edges: set<Attachment>, p: seq<Node>, n: nat)
    requires Walk(edges, p) && n < |p|
    ensures Leads(edges, p[n], p[n..], p[|p| - 1])
  {
    forall i | 0 <= i < |p[n..]| - 1 ensures Adjacent(edges, p[n..][i], p[n..][i + 1]) {
      assert Adjacent(edges, p[n + i], p[n + i + 1]);
    }
  }

  /** The first of the two ends of an attachment that a walk comes to. */
  lemma {:induction false} FirstEnd(edges: set<Attachment>, a: Attachment, u: Node, v: Node, p: seq<Node>)
    requires Walk(edges, p) && Joins(a, u, v) && (u in p || v in p)
    ensures Connected(edges - {a}, p[0], u) || Connected(edges - {a}, p[0], v)
    decreases |p|
  {
    var last := p[|p| - 1];
    var rest := p[..|p| - 1];
    if u in rest || v in rest {
      Prefix(edges, p, |p| - 1);
      FirstEnd(edges, a, u, v, rest);
    } else {
      assert p == rest + [last];
      Avoids(edges, a, p);
      assert Leads(edges - {a}, p[0], p, last);
    }
  }

  // One way in: in a graph of bridges, exactly one attachment leads to each node from another.

  /** x is on the near side of the attachment, seen from o, and n on the far side. */
  ghost predicate Inward(edges: set<Attachment>, o: Node, a: Attachment, x: Node, n: Node) {
    a in edges && Joins(a, x, n) && Connected(edges - {a}, o, x)
  }

  /** An attachment within reach has a near and a far side, and only one of each. */
  lemma OneDirection(edges: set<Attachment>, o: Node, a: Attachment, u: Node, v: Node)
    requires Bridge(edges, a) && Joins(a, u, v) && Connected(edges, o, u)
    ensures Inward(edges, o, a, u, v) != Inward(edges, o, a, v, u)
  {
    var p :| Leads(edges, o, p, u);
    assert p[|p| - 1] in p;
    FirstEnd(edges, a, u, v, p);
    NotBoth(edges, o, a, u, v);
  }

  lemma NotBoth(edges: set<Attachment>, o: Node, a: Attachment, u: Node, v: Node)
    requires Bridge(edges, a) && Joins(a, u, v)
    ensures !(Connected(edges - {a}, o, u) && Connected(edges - {a}, o, v))
  {
    if Connected(edges - {a}, o, u) && Connected(edges - {a}, o, v) {
      Back(edges - {a}, o, u);
      Onward(edges - {a}, u, o, v);
      Back(edges - {a}, u, v);
    }
  }

  lemma WayIn(edges: set<Attachment>, o: Node, n: Node, p: seq<Node>) returns (a: Attachment, x: Node)
    requires Leads(edges, o, p, n) && o != n
    ensures Inward(edges, o, a, x, n)
    decreases |p|
  {
    var rest := p[..|p| - 1];
    x := rest[|rest| - 1];
    Prefix(edges, p, |p| - 1);
    if n in rest {
      var i :| 0 <= i < |rest| && rest[i] == n;
      Prefix(edges, p, i + 1);
      a, x := WayIn(edges, o, n, p[..i + 1]);
    } else {
      assert Adjacent(edges, p[|p| - 2], p[|p| - 1]);
      a :| a in edges && Joins(a, x, n);
      Avoids(edges, a, rest);
      assert Leads(edges - {a}, o, rest, x);
    }
  }

  lemma OneWayIn(edges: set<Attachment>, o: Node, n: Node, a: Attachment, x: Node, b: Attachment, y: Node)
    requires Bridge(edges, a) && Bridge(edges, b)
    requires Inward(edges, o, a, x, n) && Inward(edges, o, b, y, n)
    ensures a == b
  {
    if a != b {
      var q :| Leads(edges - {b}, o, q, y);
      if n in q {
        var i :| 0 <= i < |q| && q[i] == n;
        Prefix(edges - {b}, q, i + 1);
        assert Connected(edges - {b}, o, n);
        NotBoth(edges, o, b, y, n);
      } else {
        Wider(edges - {b}, edges, q);
        Avoids(edges, a, q);
        assert Leads(edges - {a}, o, q, y);
        Across(edges - {a}, b, y, n);
        Onward(edges - {a}, o, y, n);
        NotBoth(edges, o, a, x, n);
      }
    }
  }

  /** Nothing leads back to where one starts. */
  lemma NoWayBack(edges: set<Attachment>, o: Node, a: Attachment, x: Node)
    requires Bridge(edges, a)
    ensures !Inward(edges, o, a, x, o)
  {
    Here(edges - {a}, o);
    if Joins(a, x, o) { NotBoth(edges, o, a, x, o); }
  }

  // Simple paths.

  /** A host attaches to a Link only once. */
  ghost predicate Single(edges: set<Attachment>) {
    forall a, b | a in edges && b in edges && a.host == b.host && a.link == b.link :: a == b
  }

  ghost predicate Distinct(p: seq<Node>) { forall i, j | 0 <= i < j < |p| :: p[i] != p[j] }

  /** A path between two nodes that meets no node twice. */
  ghost predicate Path(edges: set<Attachment>, u: Node, p: seq<Node>, v: Node) { Leads(edges, u, p, v) && Distinct(p) }

  /** The attachments a path uses. */
  ghost function Used(edges: set<Attachment>, p: seq<Node>): set<Attachment> {
    set a | a in edges && exists i {:trigger p[i]} | 0 <= i < |p| - 1 :: Joins(a, p[i], p[i + 1])
  }

  lemma Shorten(edges: set<Attachment>, u: Node, p: seq<Node>, v: Node) returns (q: seq<Node>)
    requires Leads(edges, u, p, v)
    ensures Path(edges, u, q, v)
    decreases |p|
  {
    if Distinct(p) {
      q := p;
    } else {
      var i, j :| 0 <= i < j < |p| && p[i] == p[j];
      var r := p[..i] + p[j..];
      Suffix(edges, p, j);
      forall k | 0 <= k < |r| - 1 ensures Adjacent(edges, r[k], r[k + 1]) {
        if k < i {
          assert Adjacent(edges, p[k], p[k + 1]);
        } else {
          assert Adjacent(edges, p[k - i + j], p[k - i + j + 1]);
        }
      }
      q := Shorten(edges, u, r, v);
    }
  }

  /** A path of bridges is the only path between its ends. */
  lemma {:induction false} BridgesAreTheOnlyWay(edges: set<Attachment>, u: Node, p: seq<Node>, q: seq<Node>, v: Node)
    requires Path(edges, u, p, v) && Path(edges, u, q, v)
    requires forall i, a | 0 <= i < |p| - 1 && a in edges && Joins(a, p[i], p[i + 1]) :: Bridge(edges, a)
    ensures p == q
    decreases |p|
  {
    if |p| == 1 {
      assert |q| == 1;
    } else if |q| > 1 && q[1] == p[1] {
      Suffix(edges, p, 1);
      Suffix(edges, q, 1);
      forall i, a | 0 <= i < |p[1..]| - 1 && a in edges && Joins(a, p[1..][i], p[1..][i + 1]) ensures Bridge(edges, a) {
        assert Joins(a, p[i + 1], p[i + 2]);
      }
      BridgesAreTheOnlyWay(edges, p[1], p[1..], q[1..], v);
      assert p == [u] + p[1..] && q == [u] + q[1..];
    } else {
      assert Adjacent(edges, p[0], p[1]);
      var a :| a in edges && Joins(a, p[0], p[1]);
      WithoutFirst(edges, p, a);
      OtherFirst(edges, q, a, p[1]);
      NotBoth(edges, v, a, u, p[1]);
    }
  }

  /** The rest of a path does not use its first attachment again. */
  lemma WithoutFirst(edges: set<Attachment>, p: seq<Node>, a: Attachment)
    requires |p| > 1 && Path(edges, p[0], p, p[|p| - 1]) && Joins(a, p[0], p[1])
    ensures Connected(edges - {a}, p[|p| - 1], p[1])
  {
    Suffix(edges, p, 1);
    assert p[0] !in p[1..];
    Avoids(edges, a, p[1..]);
    assert Leads(edges - {a}, p[1], p[1..], p[|p| - 1]);
    Back(edges - {a}, p[1], p[|p| - 1]);
  }

  /** A path that starts another way does not use the attachment at all. */
  lemma OtherFirst(edges: set<Attachment>, q: seq<Node>, a: Attachment, w: Node)
    requires q != [] && Path(edges, q[0], q, q[|q| - 1]) && Joins(a, q[0], w) && (|q| > 1 ==> q[1] != w)
    ensures Connected(edges - {a}, q[|q| - 1], q[0])
  {
    forall i | 0 <= i < |q| - 1 ensures Adjacent(edges - {a}, q[i], q[i + 1]) {
      assert Adjacent(edges, q[i], q[i + 1]);
      var b :| b in edges && Joins(b, q[i], q[i + 1]);
      assert b != a;
    }
    assert Leads(edges - {a}, q[0], q, q[|q| - 1]);
    Back(edges - {a}, q[0], q[|q| - 1]);
  }

  /** An attachment on a path that is not a bridge can be gone round. */
  lemma GoneRound(edges: set<Attachment>, u: Node, p: seq<Node>, v: Node, i: nat, a: Attachment) returns (q: seq<Node>)
    requires Single(edges)
    requires Path(edges, u, p, v) && i < |p| - 1 && a in edges && Joins(a, p[i], p[i + 1]) && !Bridge(edges, a)
    ensures Path(edges, u, q, v) && q != p
  {
    var less := edges - {a};
    if p[i] == Host(a.host) {
    } else {
      Back(less, Host(a.host), Link(a.link));
    }
    assert Connected(less, p[i], p[i + 1]);
    Prefix(edges, p, i + 1);
    assert p[i + 1] !in p[..i + 1];
    Avoids(edges, a, p[..i + 1]);
    assert Leads(less, u, p[..i + 1], p[i]);
    Suffix(edges, p, i + 1);
    assert p[i] !in p[i + 1..];
    Avoids(edges, a, p[i + 1..]);
    assert Leads(less, p[i + 1], p[i + 1..], v);
    Onward(less, u, p[i], p[i + 1]);
    Onward(less, u, p[i + 1], v);
    var r :| Leads(less, u, r, v);
    q := Shorten(less, u, r, v);
    Wider(less, edges, q);
    if q == p { UsesIt(less, p, i, a); }
  }

  /** With one attachment for each host and Link, an attachment left out is not used. */
  lemma UsesIt(less: set<Attachment>, p: seq<Node>, i: nat, a: Attachment)
    requires Walk(less, p) && i < |p| - 1 && Joins(a, p[i], p[i + 1])
    ensures exists b | b in less :: b.host == a.host && b.link == a.link
  {
    assert Adjacent(less, p[i], p[i + 1]);
    var b :| b in less && Joins(b, p[i], p[i + 1]);
  }

  // Growing a graph without cycles.

  ghost predicate IsEnd(edges: set<Attachment>, n: Node) { exists a, w | a in edges :: Joins(a, n, w) }

  /** From a node without attachments one gets nowhere. */
  lemma Stuck(edges: set<Attachment>, u: Node, v: Node)
    requires Connected(edges, u, v)
    ensures u == v || IsEnd(edges, u)
  {
    var p :| Leads(edges, u, p, v);
    if |p| > 1 {
      assert Adjacent(edges, p[0], p[1]);
      var a :| a in edges && Joins(a, p[0], p[1]);
    }
  }

  /** A walk through a node with only one neighbour comes back the way it went. */
  lemma Bounces(edges: set<Attachment>, x: Node, n: Node, u: Node, q: seq<Node>, v: Node)
    requires Leads(edges, u, q, v) && u != n && v != n && n in q
    requires forall b, w | b in edges && Joins(b, n, w) :: w == x
    ensures !Distinct(q)
  {
    var i :| 0 <= i < |q| && q[i] == n;
    assert Adjacent(edges, q[i - 1], q[i]) && Adjacent(edges, q[i], q[i + 1]);
    var b :| b in edges && Joins(b, q[i - 1], q[i]);
    var c :| c in edges && Joins(c, q[i], q[i + 1]);
    assert Joins(b, n, q[i - 1]) && Joins(c, n, q[i + 1]);
    assert q[i - 1] == q[i + 1];
  }

  /** Hanging a new node on by one attachment makes no cycle. */
  lemma AddLeaf(edges: set<Attachment>, a: Attachment, x: Node, n: Node)
    requires Acyclic(edges) && Joins(a, x, n) && !IsEnd(edges, n)
    ensures Acyclic(edges + {a})
  {
    var more := edges + {a};
    assert Joins(a, n, x);
    assert a !in edges;
    forall e | e in more ensures Bridge(more, e) {
      if e == a {
        assert more - {a} == edges;
        LeafIsBridge(edges, a, x, n);
      } else if Connected(more - {e}, Host(e.host), Link(e.link)) {
        assert Joins(e, Host(e.host), Link(e.link)) && Joins(e, Link(e.link), Host(e.host));
        assert Host(e.host) != n && Link(e.link) != n;
        OldEdgeStays(edges, a, x, n, e);
      }
    }
  }

  lemma LeafIsBridge(edges: set<Attachment>, a: Attachment, x: Node, n: Node)
    requires Joins(a, x, n) && !IsEnd(edges, n)
    ensures !Connected(edges, Host(a.host), Link(a.link))
  {
    if Connected(edges, Host(a.host), Link(a.link)) {
      if x == Host(a.host) { Back(edges, x, n); }
      Stuck(edges, n, x);
    }
  }

  lemma OldEdgeStays(edges: set<Attachment>, a: Attachment, x: Node, n: Node, e: Attachment)
    requires Bridge(edges, e) && e != a && a !in edges && Joins(a, x, n) && !IsEnd(edges, n)
    requires Host(e.host) != n && Link(e.link) != n
    ensures !Connected(edges + {a} - {e}, Host(e.host), Link(e.link))
  {
    var more := edges + {a} - {e};
    if Connected(more, Host(e.host), Link(e.link)) {
      var p :| Leads(more, Host(e.host), p, Link(e.link));
      var q := Shorten(more, Host(e.host), p, Link(e.link));
      forall b, w | b in more && Joins(b, n, w) ensures w == x {
        assert b == a || b in edges;
      }
      if n in q { Bounces(more, x, n, Host(e.host), q, Link(e.link)); }
      Avoids(more, a, q);
      assert more - {a} == edges - {e};
      assert Leads(edges - {e}, Host(e.host), q, Link(e.link));
    }
  }
}
