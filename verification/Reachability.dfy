/** Edges of a Mermaid diagram and what it means to walk along them. */
module Reachability {

  datatype Option<+T> = None | Some(value: T)

  type NodeId(==,!new)

  datatype Arrow = Solid | Dashed | Both

  /** One line of the edge table (`-->`, `-.->` or `<-->`). */
  datatype EdgeRecord = EdgeRecord(from: NodeId, to: NodeId, arrow: Arrow, caption: Option<string>, line: nat)

  /** `!e.caption`: an absent label and an empty one are the same to the checker. */
  predicate Unlabelled(e: EdgeRecord) {
    e.caption == None || e.caption == Some("")
  }

  ghost predicate HasEdge(g: seq<EdgeRecord>, a: NodeId, b: NodeId) {
    exists e :: e in g && e.from == a && e.to == b
  }

  ghost predicate IsWalk(g: seq<EdgeRecord>, p: seq<NodeId>) {
    |p| > 0 && forall i :: 0 < i < |p| ==> HasEdge(g, p[i - 1], p[i])
  }

  ghost predicate Reaches(g: seq<EdgeRecord>, a: NodeId, b: NodeId) {
    exists p :: IsWalk(g, p) && p[0] == a && p[|p| - 1] == b
  }

  ghost predicate Mutual(g: seq<EdgeRecord>, a: NodeId, b: NodeId) {
    Reaches(g, a, b) && Reaches(g, b, a)
  }

  lemma ReachesSelf(g: seq<EdgeRecord>, a: NodeId)
    ensures Reaches(g, a, a)
  {
    assert IsWalk(g, [a]);
  }

  lemma ReachesStep(g: seq<EdgeRecord>, e: EdgeRecord)
    requires e in g
    ensures Reaches(g, e.from, e.to)
  {
    assert HasEdge(g, e.from, e.to);
    assert IsWalk(g, [e.from, e.to]);
  }

  lemma ReachesTrans(g: seq<EdgeRecord>, a: NodeId, b: NodeId, c: NodeId)
    requires Reaches(g, a, b) && Reaches(g, b, c)
    ensures Reaches(g, a, c)
  {
    var p :| IsWalk(g, p) && p[0] == a && p[|p| - 1] == b;
    var q :| IsWalk(g, q) && q[0] == b && q[|q| - 1] == c;
    var r := p + q[1..];
    forall i | 0 < i < |r|
      ensures HasEdge(g, r[i - 1], r[i])
    {
      if i >= |p| {
        assert r[i] == q[i - |p| + 1] && r[i - 1] == q[i - |p|];
      }
    }
    assert IsWalk(g, r);
  }

  ghost predicate ClosedUnder(g: seq<EdgeRecord>, s: set<NodeId>) {
    forall e :: e in g && e.from in s ==> e.to in s
  }

  /** Nothing walks out of a closed set. */
  lemma ClosedKeeps(g: seq<EdgeRecord>, s: set<NodeId>, a: NodeId, b: NodeId)
    requires ClosedUnder(g, s) && a in s && Reaches(g, a, b)
    ensures b in s
  {
    var p :| IsWalk(g, p) && p[0] == a && p[|p| - 1] == b;
    var i := 0;
    while i < |p| - 1
      invariant 0 <= i < |p| && p[i] in s
    {
      assert HasEdge(g, p[i + 1 - 1], p[i + 1]);
      i := i + 1;
    }
  }
}
