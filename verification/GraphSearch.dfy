/**
 * What the topology code asks its graph library: which nodes are in reach and by what way, which
 * attachments are bridges, and, by counting, whether what is in reach is a tree.
 */
module GraphSearch {
  import opened Graph

  function NodesOf(edges: set<Attachment>): set<Node> {
    (set a | a in edges :: Host(a.host)) + (set a | a in edges :: Link(a.link))
  }

  lemma EndsAreNodes(edges: set<Attachment>, a: Attachment, u: Node, v: Node)
    requires a in edges && Joins(a, u, v)
    ensures u in NodesOf(edges) && v in NodesOf(edges)
  {}

  // Reachability.

  /** What breadth-first search leaves behind: for each node reached, a neighbour nearer the root. */
  ghost predicate Search(edges: set<Attachment>, root: Node, parents: map<Node, Node>, rank: map<Node, nat>) {
    Grown(edges, root, parents, rank) && forall n :: Connected(edges, root, n) <==> n == root || n in parents
  }

  /** A tree of parents, all in reach of the root. */
  ghost predicate Grown(edges: set<Attachment>, root: Node, parents: map<Node, Node>, rank: map<Node, nat>) {
    && root !in parents
    && (forall n | n in parents ::
          && Adjacent(edges, parents[n], n)
          && (parents[n] == root || parents[n] in parents)
          && n in rank && parents[n] in rank && rank[parents[n]] < rank[n])
  }

  predicate Seen(root: Node, parents: map<Node, Node>, n: Node) { n == root || n in parents }

  /** An attachment that leads out of what has been seen. */
  predicate Leaving(root: Node, parents: map<Node, Node>, a: Attachment) {
    Seen(root, parents, Host(a.host)) != Seen(root, parents, Link(a.link))
  }

  lemma GrowOne(edges: set<Attachment>, root: Node, parents: map<Node, Node>, rank: map<Node, nat>, a: Attachment, u: Node, v: Node)
    requires Grown(edges, root, parents, rank) && root in rank && (forall n | n in parents :: Connected(edges, root, n))
    requires a in edges && Joins(a, u, v) && Seen(root, parents, u) && !Seen(root, parents, v)
    ensures u in rank && Connected(edges, root, v)
    ensures Grown(edges, root, parents[v := u], rank[v := rank[u] + 1])
  {
    Here(edges, root);
    Across(edges, a, u, v);
    Onward(edges, root, u, v);
    assert Adjacent(edges, u, v);
    var more, ranks := parents[v := u], rank[v := rank[u] + 1];
    forall n | n in more ensures Adjacent(edges, more[n], n) && (more[n] == root || more[n] in more)
      && n in ranks && more[n] in ranks && ranks[more[n]] < ranks[n]
    {
      if n != v { assert more[n] == parents[n]; }
    }
  }

  /** When no attachment leads out, nothing else is in reach. */
  lemma {:induction false} NothingBeyond(edges: set<Attachment>, root: Node, parents: map<Node, Node>, p: seq<Node>)
    requires (forall a | a in edges :: !Leaving(root, parents, a)) && Walk(edges, p) && p[0] == root
    ensures Seen(root, parents, p[|p| - 1])
    decreases p
  {
    if |p| > 1 {
      Prefix(edges, p, |p| - 1);
      NothingBeyond(edges, root, parents, p[..|p| - 1]);
      assert Adjacent(edges, p[|p| - 2], p[|p| - 1]);
      var a :| a in edges && Joins(a, p[|p| - 2], p[|p| - 1]);
      assert !Leaving(root, parents, a);
    }
  }

  /** Everything in reach of a node, with a way back to it. */
  method Explore(edges: set<Attachment>, root: Node) returns (parents: map<Node, Node>, ghost rank: map<Node, nat>)
    ensures forall n :: Connected(edges, root, n) <==> Seen(root, parents, n)
    ensures Search(edges, root, parents, rank)
  {
    parents, rank := map[], map[root := 0];
    Here(edges, root);
    while exists a | a in edges :: Leaving(root, parents, a)
      invariant Grown(edges, root, parents, rank) && root in rank
      invariant forall n | n in parents :: Connected(edges, root, n)
      decreases NodesOf(edges) - parents.Keys - {root}
    {
      var a :| a in edges && Leaving(root, parents, a);
      var u, v := Host(a.host), Link(a.link);
      if !Seen(root, parents, u) { u, v := v, u; }
      GrowOne(edges, root, parents, rank, a, u, v);
      EndsAreNodes(edges, a, u, v);
      ghost var unseen := NodesOf(edges) - parents.Keys - {root};
      parents, rank := parents[v := u], rank[v := rank[u] + 1];
      assert v in unseen && NodesOf(edges) - parents.Keys - {root} <= unseen - {v};
    }
    forall n | Connected(edges, root, n) ensures Seen(root, parents, n) {
      var p :| Leads(edges, root, p, n);
      NothingBeyond(edges, root, parents, p);
    }
  }

  /** The attachments whose ends are in reach of each other only through them. */
  method Bridges(edges: set<Attachment>) returns (bridges: set<Attachment>)
    ensures bridges == set a | a in edges && Bridge(edges, a)
  {
    bridges := {};
    var left := edges;
    while left != {}
      invariant left <= edges && bridges == set a | a in edges - left && Bridge(edges, a)
      decreases left
    {
      var a :| a in left;
      var parents, rank := Explore(edges - {a}, Host(a.host));
      if Link(a.link) !in parents {
        bridges := bridges + {a};
      }
      left := left - {a};
    }
  }

  // Trees, by counting.

  ghost predicate Spanned(edges: set<Attachment>, root: Node) {
    forall n | n in NodesOf(edges) :: Connected(edges, root, n)
  }

  /** Which end of a bridge is the far one from the root. */
  ghost predicate FarEnd(edges: set<Attachment>, root: Node, a: Attachment, n: Node) {
    exists x {:trigger Inward(edges, root, a, x, n)} :: Inward(edges, root, a, x, n)
  }

  lemma OneFarEnd(edges: set<Attachment>, root: Node, a: Attachment) returns (n: Node)
    requires Acyclic(edges) && Spanned(edges, root) && a in edges
    ensures FarEnd(edges, root, a, n) && n in NodesOf(edges) - {root}
    ensures forall m | FarEnd(edges, root, a, m) :: m == n
  {
    var u, v := Host(a.host), Link(a.link);
    EndsAreNodes(edges, a, u, v);
    OneDirection(edges, root, a, u, v);
    n := if Inward(edges, root, a, u, v) then v else u;
    var x := if n == v then u else v;
    assert Inward(edges, root, a, x, n);
    if n == root { NoWayBack(edges, root, a, x); }
    forall m | FarEnd(edges, root, a, m) ensures m == n {
      var y :| Inward(edges, root, a, y, m);
    }
  }

  /** Some of the attachments of a tree, paired off with their far ends. */
  lemma {:induction false} PairOff(edges: set<Attachment>, root: Node, some: set<Attachment>) returns (ends: set<Node>)
    requires Acyclic(edges) && Spanned(edges, root) && some <= edges
    ensures |ends| == |some| && ends <= NodesOf(edges) - {root}
    ensures forall n :: n in ends <==> exists a | a in some :: FarEnd(edges, root, a, n)
    decreases some
  {
    if some == {} {
      ends := {};
    } else {
      var a :| a in some;
      var rest := PairOff(edges, root, some - {a});
      var n := OneFarEnd(edges, root, a);
      ends := rest + {n};
      if n in rest {
        var b :| b in some - {a} && FarEnd(edges, root, b, n);
        SameWayIn(edges, root, n, a, b);
      }
      forall m ensures m in ends <==> exists b | b in some :: FarEnd(edges, root, b, m) {
        if m in rest {
          var b :| b in some - {a} && FarEnd(edges, root, b, m);
          assert b in some;
        }
        if exists b | b in some :: FarEnd(edges, root, b, m) {
          var b :| b in some && FarEnd(edges, root, b, m);
          if b != a { assert b in some - {a}; }
        }
      }
    }
  }

  lemma SameWayIn(edges: set<Attachment>, root: Node, n: Node, a: Attachment, b: Attachment)
    requires Acyclic(edges) && FarEnd(edges, root, a, n) && FarEnd(edges, root, b, n)
    ensures a == b
  {
    var x :| Inward(edges, root, a, x, n);
    var y :| Inward(edges, root, b, y, n);
    OneWayIn(edges, root, n, a, x, b, y);
  }

  /** A tree has one attachment for each node but one. */
  lemma TreeCount(edges: set<Attachment>, root: Node)
    requires Acyclic(edges) && Spanned(edges, root)
    ensures |edges| == |NodesOf(edges) - {root}|
  {
    var ends := PairOff(edges, root, edges);
    forall n | n in NodesOf(edges) - {root} ensures n in ends {
      var p :| Leads(edges, root, p, n);
      var a, x := WayIn(edges, root, n, p);
      assert FarEnd(edges, root, a, n);
    }
    assert ends == NodesOf(edges) - {root};
  }

  /** Without an attachment that is not a bridge, everything stays in reach. */
  lemma StaysInReach(edges: set<Attachment>, a: Attachment, u: Node, p: seq<Node>)
    requires a in edges && !Bridge(edges, a) && Walk(edges, p) && p[0] == u
    ensures Connected(edges - {a}, u, p[|p| - 1])
    decreases |p|
  {
    var less := edges - {a};
    if |p| == 1 {
      Here(less, u);
    } else {
      var v, w := p[|p| - 2], p[|p| - 1];
      Prefix(edges, p, |p| - 1);
      StaysInReach(edges, a, u, p[..|p| - 1]);
      assert Adjacent(edges, v, w);
      var b :| b in edges && Joins(b, v, w);
      if b != a {
        Across(less, b, v, w);
      } else {
        Back(less, Host(a.host), Link(a.link));
      }
      Onward(less, u, v, w);
    }
  }

  lemma SameNodes(edges: set<Attachment>, a: Attachment)
    requires a in edges && !Bridge(edges, a)
    ensures NodesOf(edges - {a}) == NodesOf(edges)
  {
    var less, u, v := edges - {a}, Host(a.host), Link(a.link);
    Back(less, u, v);
    Stuck(less, u, v);
    Stuck(less, v, u);
    var b, x :| b in less && Joins(b, u, x);
    var c, y :| c in less && Joins(c, v, y);
    EndsAreNodes(less, b, u, x);
    EndsAreNodes(less, c, v, y);
  }

  lemma StillSpanned(edges: set<Attachment>, root: Node, a: Attachment)
    requires Spanned(edges, root) && a in edges && !Bridge(edges, a)
    ensures Spanned(edges - {a}, root) && NodesOf(edges - {a}) == NodesOf(edges)
  {
    SameNodes(edges, a);
    forall n | n in NodesOf(edges) ensures Connected(edges - {a}, root, n) {
      var p :| Leads(edges, root, p, n);
      StaysInReach(edges, a, root, p);
    }
  }

  lemma {:induction false} NoFewer(edges: set<Attachment>, root: Node)
    requires Spanned(edges, root)
    ensures |edges| >= |NodesOf(edges) - {root}|
    decreases edges
  {
    if Acyclic(edges) {
      TreeCount(edges, root);
    } else {
      var a :| a in edges && !Bridge(edges, a);
      StillSpanned(edges, root, a);
      NoFewer(edges - {a}, root);
    }
  }

  /** Where everything is in reach of the root, there are no cycles exactly when there is one attachment for each other node. */
  lemma TreeByCount(edges: set<Attachment>, root: Node)
    requires Spanned(edges, root)
    ensures Acyclic(edges) <==> |edges| == |NodesOf(edges) - {root}|
  {
    if Acyclic(edges) {
      TreeCount(edges, root);
    } else {
      var a :| a in edges && !Bridge(edges, a);
      StillSpanned(edges, root, a);
      NoFewer(edges - {a}, root);
    }
  }

  /** The attachments in one piece with a node. */
  ghost function PieceOf(edges: set<Attachment>, root: Node): set<Attachment> {
    set a | a in edges && Connected(edges, root, Host(a.host))
  }

  lemma WithinPiece(edges: set<Attachment>, root: Node, p: seq<Node>)
    requires Walk(edges, p) && p[0] == root
    ensures Walk(PieceOf(edges, root), p)
  {
    var piece := PieceOf(edges, root);
    forall i | 0 <= i < |p| - 1 ensures Adjacent(piece, p[i], p[i + 1]) {
      assert Adjacent(edges, p[i], p[i + 1]);
      var a :| a in edges && Joins(a, p[i], p[i + 1]);
      Prefix(edges, p, i + 1);
      Prefix(edges, p, i + 2);
      assert Leads(edges, root, p[..i + 1], p[i]) && Leads(edges, root, p[..i + 2], p[i + 1]);
      assert a in piece;
    }
  }

  lemma PieceSpanned(edges: set<Attachment>, root: Node)
    ensures Spanned(PieceOf(edges, root), root)
    ensures forall n | n in NodesOf(PieceOf(edges, root)) :: Connected(edges, root, n)
  {
    var piece := PieceOf(edges, root);
    forall n | n in NodesOf(piece) ensures Connected(edges, root, n) && Connected(piece, root, n) {
      var a :| a in piece && (n == Host(a.host) || n == Link(a.link));
      Across(edges, a, Host(a.host), Link(a.link));
      if n != Host(a.host) { Onward(edges, root, Host(a.host), n); }
      var p :| Leads(edges, root, p, n);
      WithinPiece(edges, root, p);
      assert Leads(piece, root, p, n);
    }
  }

  /** Whether the piece a node is in is a tree: the attachments in it, counted against the nodes in it. */
  method PieceIsTree(edges: set<Attachment>, root: Node, parents: map<Node, Node>, ghost rank: map<Node, nat>) returns (tree: bool)
    requires Search(edges, root, parents, rank)
    ensures tree <==> Acyclic(PieceOf(edges, root))
  {
    var piece := set a | a in edges && Seen(root, parents, Host(a.host));
    var nodes := {root} + parents.Keys;
    tree := |piece| == |nodes| - 1;
    assert piece == PieceOf(edges, root);
    PieceSpanned(edges, root);
    TreeByCount(piece, root);
    PieceNodes(edges, root, parents, rank);
    assert nodes - {root} == parents.Keys;
  }

  lemma PieceNodes(edges: set<Attachment>, root: Node, parents: map<Node, Node>, rank: map<Node, nat>)
    requires Search(edges, root, parents, rank)
    ensures NodesOf(PieceOf(edges, root)) - {root} == parents.Keys
  {
    var piece := PieceOf(edges, root);
    PieceSpanned(edges, root);
    forall n | n in parents ensures n in NodesOf(piece) {
      var p :| Leads(edges, root, p, n);
      WithinPiece(edges, root, p);
      assert Adjacent(piece, p[|p| - 2], p[|p| - 1]);
      var a :| a in piece && Joins(a, p[|p| - 2], p[|p| - 1]);
      EndsAreNodes(piece, a, p[|p| - 2], p[|p| - 1]);
    }
  }
}
