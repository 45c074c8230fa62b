/** Finite directed graphs and the closure that SQLite computes for
    WITH RECURSIVE related(id) AS (start UNION step). */
module Graph {
  import opened Order

  type Node = Id

  /** An edge (a, b) is followed from a to b. */
  type Edges = set<(Node, Node)>

  function Image(g: Edges, s: set<Node>): set<Node> {
    set e | e in g && e.0 in s :: e.1
  }

  ghost predicate Closed(g: Edges, s: set<Node>) {
    forall e :: e in g && e.0 in s ==> e.1 in s
  }

  function Targets(g: Edges): set<Node> {
    set e | e in g :: e.1
  }

  /** Adds one round of rows until a round adds nothing. */
  function Closure(g: Edges, s: set<Node>): (r: set<Node>)
    ensures s <= r && Closed(g, r) && r <= s + Targets(g)
    decreases Targets(g) - s
  {
    var next := s + Image(g, s);
    if next == s then
      ImageInsideIsClosed(g, s);
      s
    else
      assert Image(g, s) <= Targets(g);
      assert exists x :: x in Targets(g) - s && x !in Targets(g) - next;
      Closure(g, next)
  }

  lemma ImageInsideIsClosed(g: Edges, s: set<Node>)
    requires s + Image(g, s) == s
    ensures Closed(g, s)
  {
    forall e | e in g && e.0 in s
      ensures e.1 in s
    {
      assert e.1 in Image(g, s);
    }
  }

  /** The closure is inside every closed set that contains the start. */
  lemma {:induction false} ClosureLeast(g: Edges, s: set<Node>, t: set<Node>)
    requires s <= t && Closed(g, t)
    ensures Closure(g, s) <= t
    decreases Targets(g) - s
  {
    var next := s + Image(g, s);
    if next != s {
      assert Image(g, s) <= Targets(g);
      assert exists x :: x in Targets(g) - s && x !in Targets(g) - next;
      ClosureLeast(g, next, t);
    }
  }

  lemma ClosureMonotone(g: Edges, h: Edges, s: set<Node>, t: set<Node>)
    requires g <= h && s <= t
    ensures Closure(g, s) <= Closure(h, t)
  {
    ClosureLeast(g, s, Closure(h, t));
  }

  lemma ImagesAgree(g: Edges, h: Edges, s: set<Node>, u: set<Node>)
    requires s <= u && forall e: (Node, Node) :: e.0 in u ==> (e in g <==> e in h)
    requires Closed(g, u)
    ensures Image(g, s) == Image(h, s) <= u
  {
  }

  /** Two graphs that agree on the edges leaving a set they cannot leave have the same closures in it. */
  lemma ClosuresAgree(g: Edges, h: Edges, s: set<Node>, u: set<Node>)
    requires s <= u && forall e: (Node, Node) :: e.0 in u ==> (e in g <==> e in h)
    requires Closed(g, u)
    ensures Closure(g, s) == Closure(h, s) <= u
  {
    assert Closed(h, Closure(g, s) * u);
    ClosureLeast(h, s, Closure(g, s) * u);
    assert Closed(g, Closure(h, s) * u);
    ClosureLeast(g, s, Closure(h, s) * u);
  }

  /** The closure of one node is the node and everything beyond it. */
  lemma ClosureOfOne(g: Edges, a: Node)
    ensures Closure(g, {a}) == {a} + StrictReach(g, a)
  {
    forall e | e in g && e.0 in {a} + StrictReach(g, a)
      ensures e.1 in StrictReach(g, a)
    {
      assert e.0 == a ==> e.1 in Image(g, {a});
    }
    ClosureLeast(g, {a}, {a} + StrictReach(g, a));
    ClosureLeast(g, Image(g, {a}), Closure(g, {a}));
  }

  /** Everything one or more edges away. */
  function StrictReach(g: Edges, a: Node): set<Node> {
    Closure(g, Image(g, {a}))
  }

  ghost predicate IsPath(g: Edges, p: seq<Node>) {
    p != [] && forall i :: 0 <= i < |p| - 1 ==> (p[i], p[i + 1]) in g
  }

  lemma {:induction false} PathStaysInClosed(g: Edges, p: seq<Node>, s: set<Node>, i: nat)
    requires IsPath(g, p) && Closed(g, s) && p[0] in s && i < |p|
    ensures p[i] in s
  {
    if i > 0 {
      PathStaysInClosed(g, p, s, i - 1);
      assert (p[i - 1], p[i - 1 + 1]) in g;
    }
  }

  lemma {:induction false} ClosureHasPath(g: Edges, s: set<Node>, x: Node) returns (p: seq<Node>)
    requires x in Closure(g, s)
    ensures IsPath(g, p) && p[0] in s && p[|p| - 1] == x
    decreases Targets(g) - s
  {
    if x in s {
      p := [x];
    } else {
      var next := s + Image(g, s);
      assert next != s;
      assert Image(g, s) <= Targets(g);
      assert exists x :: x in Targets(g) - s && x !in Targets(g) - next;
      p := ClosureHasPath(g, next, x);
      if p[0] !in s {
        var e :| e in g && e.0 in s && e.1 == p[0];
        p := [e.0] + p;
      }
    }
  }

  /** The recursive query returns exactly the nodes at the end of a path of at least one edge. */
  lemma StrictReachIsPaths(g: Edges, a: Node, b: Node)
    ensures b in StrictReach(g, a) <==> exists p :: IsPath(g, p) && |p| >= 2 && p[0] == a && p[|p| - 1] == b
  {
    if b in StrictReach(g, a) {
      var q := ClosureHasPath(g, Image(g, {a}), b);
      var p := [a] + q;
      assert (a, q[0]) in g;
      assert IsPath(g, p) && |p| >= 2 && p[0] == a && p[|p| - 1] == b;
    }
    if p :| IsPath(g, p) && |p| >= 2 && p[0] == a && p[|p| - 1] == b {
      assert (p[0], p[0 + 1]) in g;
      assert p[1] in Image(g, {a});
      assert IsPath(g, p[1..]);
      PathStaysInClosed(g, p[1..], StrictReach(g, a), |p| - 2);
    }
  }

  lemma StrictReachStep(g: Edges, a: Node, b: Node)
    requires (a, b) in g
    ensures b in StrictReach(g, a) && StrictReach(g, b) <= StrictReach(g, a)
  {
    assert b in Image(g, {a});
    forall x | x in Image(g, {b})
      ensures x in StrictReach(g, a)
    {
      assert (b, x) in g;
    }
    ClosureLeast(g, Image(g, {b}), StrictReach(g, a));
  }

  function Inverse(g: Edges): Edges {
    set e | e in g :: (e.1, e.0)
  }

  /** Ancestors and descendants are converse relations. */
  lemma StrictReachInverse(g: Edges, a: Node, b: Node)
    ensures b in StrictReach(g, a) <==> a in StrictReach(Inverse(g), b)
  {
    if b in StrictReach(g, a) {
      StrictReachReversed(g, a, b);
    }
    if a in StrictReach(Inverse(g), b) {
      StrictReachReversed(Inverse(g), b, a);
      assert Inverse(Inverse(g)) == g by {
        forall e | e in g
          ensures e in Inverse(Inverse(g))
        {
          assert (e.1, e.0) in Inverse(g);
        }
      }
    }
  }

  lemma StrictReachReversed(g: Edges, a: Node, b: Node)
    requires b in StrictReach(g, a)
    ensures a in StrictReach(Inverse(g), b)
  {
    hide StrictReach;
    StrictReachIsPaths(g, a, b);
    var p :| IsPath(g, p) && |p| >= 2 && p[0] == a && p[|p| - 1] == b;
    var q := Reversed(p);
    ReversedIsPath(g, p);
    StrictReachIsPaths(Inverse(g), b, a);
    assert IsPath(Inverse(g), q) && |q| >= 2 && q[0] == b && q[|q| - 1] == a;
  }

  function Reversed(p: seq<Node>): (q: seq<Node>)
    ensures |q| == |p|
  {
    seq(|p|, i requires 0 <= i < |p| => p[|p| - 1 - i])
  }

  lemma ReversedIsPath(g: Edges, p: seq<Node>)
    requires IsPath(g, p)
    ensures IsPath(Inverse(g), Reversed(p))
  {
    var q := Reversed(p);
    forall i | 0 <= i < |q| - 1
      ensures (q[i], q[i + 1]) in Inverse(g)
    {
      var j := |p| - 2 - i;
      assert (p[j], p[j + 1]) in g;
    }
  }
}
