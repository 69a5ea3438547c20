/** `checkCycleLabels`: Tarjan's strongly-connected-components pass, and the rule that every edge
    lying on a cycle carries a label. */
module CycleLabels {
  import opened Reachability

  /** What the pass has built so far, as one value. `sccOf.Keys` are the nodes already popped. */
  datatype State = State(
    index: nat,
    indices: map<NodeId, nat>,
    stack: seq<NodeId>,
    onStack: set<NodeId>,
    sccOf: map<NodeId, nat>,
    sccs: seq<seq<NodeId>>)

  // ----- the invariant of the depth-first pass -----

  /** Every visited node is either on the stack or in a component, never both. */
  ghost predicate Shape(s: State) {
    && (forall x :: x in s.indices ==> s.indices[x] < s.index)
    && s.indices.Keys == s.onStack + s.sccOf.Keys
    && s.onStack !! s.sccOf.Keys
  }

  /** The stack array lists `onStack` in visit order. */
  ghost predicate StackOrder(s: State)
    requires Shape(s)
  {
    && (forall x :: x in s.stack <==> x in s.onStack)
    && (forall i :: 0 <= i < |s.stack| ==> s.stack[i] in s.onStack)
    && (forall i, j :: 0 <= i < j < |s.stack| ==> s.indices[s.stack[i]] < s.indices[s.stack[j]])
  }

  /** `gray` are the nodes whose call has not returned; a finished node has no unvisited successor,
      and nothing leaves the popped components. */
  ghost predicate Colours(g: seq<EdgeRecord>, s: State, gray: set<NodeId>) {
    && gray <= s.onStack
    && (forall e :: e in g && e.from in s.indices && e.from !in gray ==> e.to in s.indices)
    && ClosedUnder(g, s.sccOf.Keys)
  }

  ghost predicate Walks(g: seq<EdgeRecord>, s: State, gray: set<NodeId>)
    requires Shape(s)
  {
    Upward(g, s) && Homes(g, s, gray)
  }

  /** A node on the stack walks to everything above it. */
  ghost predicate Upward(g: seq<EdgeRecord>, s: State)
    requires Shape(s)
  {
    forall x, y {:trigger Reaches(g, x, y)} :: x in s.onStack && y in s.onStack && s.indices[x] <= s.indices[y] ==>
      Reaches(g, x, y)
  }

  /** A node on the stack walks to an unfinished node at or below it. */
  ghost predicate Homes(g: seq<EdgeRecord>, s: State, gray: set<NodeId>)
    requires Shape(s)
  {
    forall y {:trigger HasHome(g, s, gray, y)} :: y in s.onStack ==> HasHome(g, s, gray, y)
  }

  ghost predicate HasHome(g: seq<EdgeRecord>, s: State, gray: set<NodeId>, y: NodeId)
    requires y in s.indices
  {
    exists z :: z in gray && z in s.indices && s.indices[z] <= s.indices[y] && Reaches(g, y, z)
  }

  /** The component table holds exactly the classes of mutual reachability of the popped nodes. */
  ghost predicate Table(g: seq<EdgeRecord>, s: State) {
    Classes(g, s.sccOf) && Listed(s.sccOf, s.sccs)
  }

  ghost predicate Classes(g: seq<EdgeRecord>, sccOf: map<NodeId, nat>) {
    forall a, b {:trigger Mutual(g, a, b)} :: a in sccOf && b in sccOf ==> (sccOf[a] == sccOf[b] <==> Mutual(g, a, b))
  }

  /** `sccs[c]` lists, once each, the nodes numbered `c`. */
  ghost predicate Listed(sccOf: map<NodeId, nat>, sccs: seq<seq<NodeId>>) {
    && (forall a :: a in sccOf ==> sccOf[a] < |sccs|)
    && (forall c :: 0 <= c < |sccs| ==> NoDup(sccs[c]) && Lists(sccOf, c, sccs[c]))
  }

  ghost predicate Lists(sccOf: map<NodeId, nat>, c: nat, comp: seq<NodeId>) {
    forall x :: x in comp <==> x in sccOf && sccOf[x] == c
  }

  ghost predicate NoDup(q: seq<NodeId>) {
    forall i, j :: 0 <= i < j < |q| ==> q[i] != q[j]
  }

  ghost predicate Inv(g: seq<EdgeRecord>, s: State, gray: set<NodeId>) {
    Shape(s) && StackOrder(s) && Colours(g, s, gray) && Walks(g, s, gray) && Table(g, s)
  }

  /** What a call leaves alone: the stack below it, old indices, and components already popped. */
  ghost predicate Extends(s: State, t: State) {
    && s.stack <= t.stack && s.onStack <= t.onStack
    && s.index <= t.index
    && s.sccOf.Keys <= t.sccOf.Keys
    && (forall x :: x in s.indices ==> x in t.indices && t.indices[x] == s.indices[x])
    && (forall x :: x in t.indices && x !in s.indices ==> s.index <= t.indices[x])
  }

  /** `low` is the index of a stack node that `v` walks to. */
  ghost predicate LowWitness(g: seq<EdgeRecord>, s: State, v: NodeId, low: nat) {
    exists y :: y in s.onStack && y in s.indices && s.indices[y] == low && Reaches(g, v, y)
  }

  /** No edge from the part of the stack at or above index `floor` to the part below `ceil` lands
      lower than `low`. */
  ghost predicate LowBounds(g: seq<EdgeRecord>, s: State, floor: nat, ceil: nat, low: nat)
    requires Shape(s)
  {
    forall e :: e in g && e.from in s.onStack && e.to in s.onStack && floor <= s.indices[e.from]
      && s.indices[e.to] < ceil
      ==> low <= s.indices[e.to]
  }

  /** What a call on `v`, started in `s`, has achieved on returning in `t` with lowlink `low`. */
  ghost predicate Visited(g: seq<EdgeRecord>, s: State, t: State, gray: set<NodeId>, v: NodeId, low: nat) {
    && Inv(g, t, gray) && Extends(s, t)
    && v in t.indices && t.indices[v] == s.index
    && low <= s.index
    && (if v in t.onStack then LowWitness(g, t, v, low) else low == s.index)
    && LowBounds(g, t, s.index, s.index, low)
  }

  /** The same halfway: `v` is still open and only the edges `out` have been followed. */
  ghost predicate Visiting(g: seq<EdgeRecord>, s: State, t: State, gray: set<NodeId>, v: NodeId, low: nat,
        out: seq<EdgeRecord>)
  {
    && Inv(g, t, gray + {v}) && Extends(Push(s, v), t)
    && low <= s.index && LowWitness(g, t, v, low)
    && LowBounds(g, t, s.index + 1, s.index, low)
    && Followed(t, s.index, low, out)
  }

  ghost predicate Followed(t: State, ceil: nat, low: nat, out: seq<EdgeRecord>) {
    forall e :: e in out ==>
      e.to in t.indices && (e.to in t.onStack && t.indices[e.to] < ceil ==> low <= t.indices[e.to])
  }

  // ----- entering a node -----

  ghost function Push(s: State, v: NodeId): State {
    s.(index := s.index + 1, indices := s.indices[v := s.index], stack := s.stack + [v], onStack := s.onStack + {v})
  }

  lemma PushOrder(s: State, v: NodeId)
    requires Shape(s) && StackOrder(s) && v !in s.indices
    ensures Shape(Push(s, v)) && StackOrder(Push(s, v))
  {
    var t := Push(s, v);
    forall x
      ensures x in t.stack <==> x in t.onStack
    {
      assert x in t.stack <==> x in s.stack || x == v;
    }
  }

  lemma HomeReaches(g: seq<EdgeRecord>, s: State, gray: set<NodeId>, v: NodeId, x: NodeId)
    requires x in s.indices && HasHome(g, s, gray, x) && forall z :: z in gray ==> Reaches(g, z, v)
    ensures Reaches(g, x, v)
  {
    hide Reaches;
    var z :| z in gray && z in s.indices && s.indices[z] <= s.indices[x] && Reaches(g, x, z);
    ReachesTrans(g, x, z, v);
  }

  lemma HomeKept(g: seq<EdgeRecord>, s: State, gray: set<NodeId>, v: NodeId, y: NodeId)
    requires v !in s.indices && y in s.indices && HasHome(g, s, gray, y)
    ensures HasHome(g, Push(s, v), gray + {v}, y)
  {
    hide Reaches;
    var z :| z in gray && z in s.indices && s.indices[z] <= s.indices[y] && Reaches(g, y, z);
    assert z in gray + {v};
  }

  lemma OwnHome(g: seq<EdgeRecord>, s: State, gray: set<NodeId>, v: NodeId)
    ensures HasHome(g, Push(s, v), gray + {v}, v)
  {
    ReachesSelf(g, v);
    hide Reaches;
    assert v in gray + {v};
  }

  lemma PushWalks(g: seq<EdgeRecord>, s: State, gray: set<NodeId>, v: NodeId)
    requires Shape(s) && Shape(Push(s, v)) && Walks(g, s, gray) && v !in s.indices
    requires forall z :: z in gray ==> Reaches(g, z, v)
    ensures Walks(g, Push(s, v), gray + {v})
  {
    hide Reaches, HasHome;
    var t := Push(s, v);
    OwnHome(g, s, gray, v);
    forall x | x in s.onStack
      ensures Reaches(g, x, v) && HasHome(g, t, gray + {v}, x)
    {
      HomeReaches(g, s, gray, v, x);
      HomeKept(g, s, gray, v, x);
    }
    ReachesSelf(g, v);
  }

  lemma PushTable(g: seq<EdgeRecord>, s: State, v: NodeId)
    requires Table(g, s)
    ensures Table(g, Push(s, v))
  {
    hide Mutual;
  }

  lemma PushColours(g: seq<EdgeRecord>, s: State, gray: set<NodeId>, v: NodeId)
    requires Shape(s) && Colours(g, s, gray) && v !in s.indices
    ensures Colours(g, Push(s, v), gray + {v})
  {
  }

  lemma StartVisiting(g: seq<EdgeRecord>, s: State, gray: set<NodeId>, v: NodeId)
    requires Inv(g, s, gray) && v !in s.indices
    requires forall z :: z in gray ==> Reaches(g, z, v)
    ensures Visiting(g, s, Push(s, v), gray, v, s.index, [])
  {
    hide Reaches, StackOrder, Walks, Table, Colours;
    PushOrder(s, v);
    PushWalks(g, s, gray, v);
    PushTable(g, s, v);
    PushColours(g, s, gray, v);
    ReachesSelf(g, v);
    assert v in Push(s, v).onStack;
  }

  // ----- following one edge -----

  function Min(a: nat, b: nat): nat { if a <= b then a else b }

  lemma ExtendsTrans(s: State, t: State, u: State)
    requires Extends(s, t) && Extends(t, u)
    ensures Extends(s, u)
  {
  }

  /** Bounds that hold for the stack before and after a nested visit combine to one for all of it. */
  lemma TreeBounds(g: seq<EdgeRecord>, index: nat, t: State, u: State, low: nat, wlow: nat)
    requires Shape(t) && Shape(u) && Extends(t, u) && index < t.index
    requires LowBounds(g, t, index + 1, index, low) && LowBounds(g, u, t.index, t.index, wlow)
    ensures LowBounds(g, u, index + 1, index, Min(low, wlow))
  {
  }

  /** The first branch of the loop: the target was unvisited and has just been visited. */
  lemma AfterTreeEdge(g: seq<EdgeRecord>, s: State, t: State, u: State, gray: set<NodeId>, v: NodeId, low: nat,
                      out: seq<EdgeRecord>, e: EdgeRecord, wlow: nat)
    requires e in g && e.from == v
    requires Visiting(g, s, t, gray, v, low, out)
    requires Visited(g, t, u, gray + {v}, e.to, wlow)
    ensures Visiting(g, s, u, gray, v, Min(low, wlow), out + [e])
  {
    hide Reaches, StackOrder, Walks, Table, Colours, LowBounds;
    ReachesStep(g, e);
    assert LowWitness(g, u, v, Min(low, wlow)) by {
      if wlow < low {
        var y :| y in u.onStack && y in u.indices && u.indices[y] == wlow && Reaches(g, e.to, y);
        ReachesTrans(g, v, e.to, y);
      }
    }
    ExtendsTrans(Push(s, v), t, u);
    TreeBounds(g, s.index, t, u, low, wlow);
    assert Followed(u, s.index, Min(low, wlow), out + [e]);
  }

  /** The second branch (the target is on the stack) and the one that does nothing (it was popped). */
  lemma AfterOldEdge(g: seq<EdgeRecord>, s: State, t: State, gray: set<NodeId>, v: NodeId, low: nat,
                     out: seq<EdgeRecord>, e: EdgeRecord)
    requires e in g && e.from == v && e.to in t.indices
    requires Visiting(g, s, t, gray, v, low, out)
    ensures Visiting(g, s, t, gray, v, if e.to in t.onStack then Min(low, t.indices[e.to]) else low, out + [e])
  {
    hide Reaches, StackOrder, Walks, Table, Colours;
    ReachesStep(g, e);
  }

  // ----- leaving a node -----

  /** Every edge leaving `v` has been followed. */
  ghost predicate Covers(g: seq<EdgeRecord>, v: NodeId, out: seq<EdgeRecord>) {
    forall e :: e in g && e.from == v ==> e in out
  }

  /** Where `v` itself was the home of `y`, the low stack node that `v` walks to has a home below. */
  lemma LowerHome(g: seq<EdgeRecord>, t: State, gray: set<NodeId>, v: NodeId, low: nat, y: NodeId)
    requires Shape(t) && Homes(g, t, gray + {v}) && y in t.onStack && v in t.indices
    requires LowWitness(g, t, v, low) && low < t.indices[v]
    ensures HasHome(g, t, gray, y)
  {
    hide Reaches;
    assert HasHome(g, t, gray + {v}, y);
    var z :| z in gray + {v} && z in t.indices && t.indices[z] <= t.indices[y] && Reaches(g, y, z);
    if z == v {
      var w :| w in t.onStack && t.indices[w] == low && Reaches(g, v, w);
      assert HasHome(g, t, gray + {v}, w);
      var z' :| z' in gray + {v} && z' in t.indices && t.indices[z'] <= t.indices[w] && Reaches(g, w, z');
      ReachesTrans(g, y, v, w);
      ReachesTrans(g, y, w, z');
    }
  }

  /** `lowlink` fell below the node's own index: it stays on the stack, finished. */
  lemma LeaveOpen(g: seq<EdgeRecord>, s: State, t: State, gray: set<NodeId>, v: NodeId, low: nat, out: seq<EdgeRecord>)
    requires Inv(g, s, gray) && v !in s.indices
    requires Visiting(g, s, t, gray, v, low, out) && Covers(g, v, out) && low < s.index
    ensures Visited(g, s, t, gray, v, low)
  {
    hide Reaches, Table, StackOrder, HasHome, Upward;
    assert t.indices[v] == s.index by {
      assert v in Push(s, v).indices;
    }
    forall y | y in t.onStack
      ensures HasHome(g, t, gray, y)
    {
      LowerHome(g, t, gray, v, low, y);
    }
    assert Extends(s, t) by {
      hide Colours, Walks, LowBounds, Followed, LowWitness;
      ExtendsPush(s, t, v);
    }
  }

  lemma ExtendsPush(s: State, t: State, v: NodeId)
    requires v !in s.indices && Extends(Push(s, v), t)
    ensures Extends(s, t)
  {
    assert s.stack <= Push(s, v).stack;
  }

  function Backwards(s: seq<NodeId>): (r: seq<NodeId>)
    ensures |r| == |s|
    ensures forall i :: 0 <= i < |s| ==> r[i] == s[|s| - 1 - i]
  {
    if s == [] then [] else Backwards(s[1..]) + [s[0]]
  }

  function Members(comp: seq<NodeId>): set<NodeId> {
    set x | x in comp
  }

  lemma NoMembers()
    ensures Members([]) == {} && Backwards([]) == []
  {
  }

  lemma MembersMore(comp: seq<NodeId>, w: NodeId)
    ensures Members(comp + [w]) == Members(comp) + {w}
  {
  }

  function NumberedAll(comp: seq<NodeId>, id: nat): map<NodeId, nat> {
    map x | x in comp :: id
  }

  /** `lowlink` equals the node's own index: everything above `base` on the stack is its component. */
  ghost function Pop(s: State, base: nat): State
    requires base <= |s.stack|
  {
    var comp := Backwards(s.stack[base..]);
    s.(stack := s.stack[..base],
       onStack := s.onStack - Members(comp),
       sccOf := s.sccOf + NumberedAll(comp, |s.sccs|),
       sccs := s.sccs + [comp])
  }

  /** The nodes above `base` are those visited since `v` was entered. */
  lemma Positions(s: State, t: State, v: NodeId, i: nat)
    requires Shape(s) && StackOrder(s) && v !in s.indices
    requires Shape(t) && StackOrder(t) && Extends(Push(s, v), t)
    requires i < |t.stack|
    ensures t.stack[i] in t.onStack
    ensures i < |s.stack| <==> t.indices[t.stack[i]] < s.index
    ensures i < |s.stack| ==> t.stack[i] in s.onStack
  {
    var n := |s.stack|;
    assert Push(s, v).stack[n] == v;
    assert t.stack[n] == v;
    if i < n {
      assert Push(s, v).stack[i] == s.stack[i] == t.stack[i];
      assert s.stack[i] in s.onStack;
    }
  }

  lemma BackwardsMembers(q: seq<NodeId>, x: NodeId)
    ensures x in Backwards(q) <==> x in q
  {
    if x in q {
      var i :| 0 <= i < |q| && q[i] == x;
      assert Backwards(q)[|q| - 1 - i] == x;
    }
  }

  lemma PopMembers(s: State, t: State, v: NodeId, x: NodeId)
    requires Shape(s) && StackOrder(s) && v !in s.indices
    requires Shape(t) && StackOrder(t) && Extends(Push(s, v), t)
    requires x in t.onStack
    ensures |s.stack| <= |t.stack|
    ensures x in Backwards(t.stack[|s.stack|..]) <==> s.index <= t.indices[x]
    ensures x in s.onStack <==> t.indices[x] < s.index
  {
    var i :| 0 <= i < |t.stack| && t.stack[i] == x;
    hide StackOrder;
    Positions(s, t, v, i);
    var above := t.stack[|s.stack|..];
    BackwardsMembers(above, x);
    if i >= |s.stack| {
      assert above[i - |s.stack|] == x;
    }
    if x in above {
      var j :| 0 <= j < |above| && above[j] == x;
      Positions(s, t, v, j + |s.stack|);
    }
  }

  /** The component popped when `v` closes. */
  ghost predicate InComponent(s: State, t: State, x: NodeId) {
    x in t.onStack && x in t.indices && s.index <= t.indices[x]
  }

  lemma ComponentMembers(s: State, t: State, v: NodeId)
    requires Shape(s) && StackOrder(s) && v !in s.indices
    requires Shape(t) && StackOrder(t) && Extends(Push(s, v), t)
    ensures |s.stack| <= |t.stack|
    ensures forall x :: x in Backwards(t.stack[|s.stack|..]) <==> InComponent(s, t, x)
    ensures forall x :: x in s.onStack <==> x in t.onStack && !InComponent(s, t, x)
  {
    hide StackOrder;
    var n := |s.stack|;
    assert |Push(s, v).stack| == n + 1;
    forall x | x in t.onStack {
      PopMembers(s, t, v, x);
    }
    forall x | x in Backwards(t.stack[n..])
      ensures x in t.onStack
    {
      BackwardsMembers(t.stack[n..], x);
      var j :| 0 <= j < |t.stack[n..]| && t.stack[n..][j] == x;
      Positions(s, t, v, j + n);
    }
  }

  lemma PopStackSets(s: State, t: State, v: NodeId)
    requires Shape(s) && StackOrder(s) && v !in s.indices
    requires Shape(t) && StackOrder(t) && Extends(Push(s, v), t)
    ensures |s.stack| <= |t.stack|
    ensures Pop(t, |s.stack|).stack == s.stack && Pop(t, |s.stack|).onStack == s.onStack
  {
    hide StackOrder, NumberedAll;
    ComponentMembers(s, t, v);
    var n := |s.stack|;
    assert t.stack[..n] == s.stack by {
      assert Push(s, v).stack[..n] == s.stack;
    }
    assert Pop(t, n).onStack == s.onStack;
  }

  lemma PopShape(s: State, t: State, v: NodeId)
    requires Shape(s) && StackOrder(s) && v !in s.indices
    requires Shape(t) && StackOrder(t) && Extends(Push(s, v), t)
    ensures |s.stack| <= |t.stack|
    ensures var u := Pop(t, |s.stack|);
            u.stack == s.stack && u.onStack == s.onStack && u.index == t.index && u.indices == t.indices && Shape(u)
    ensures forall x :: x in Pop(t, |s.stack|).sccOf <==> x in t.sccOf || InComponent(s, t, x)
  {
    hide StackOrder, Push, Backwards, Members;
    ComponentMembers(s, t, v);
    PopStackSets(s, t, v);
  }

  lemma ComponentClosed(g: seq<EdgeRecord>, s: State, t: State, gray: set<NodeId>, v: NodeId,
        out: seq<EdgeRecord>, e: EdgeRecord)
    requires Inv(g, s, gray) && v !in s.indices
    requires Visiting(g, s, t, gray, v, s.index, out) && Covers(g, v, out)
    requires e in g && (e.from in t.sccOf || InComponent(s, t, e.from))
    ensures e.to in t.sccOf || InComponent(s, t, e.to)
  {
    hide Reaches, Table, StackOrder, Walks, LowWitness;
    assert Push(s, v).indices[v] == s.index;
    assert v in Push(s, v).indices;
  }

  /** Every member of the component is mutually reachable with `v`. */
  lemma ComponentMutual(g: seq<EdgeRecord>, s: State, t: State, gray: set<NodeId>, v: NodeId, x: NodeId)
    requires Inv(g, s, gray) && v !in s.indices
    requires Inv(g, t, gray + {v}) && Extends(Push(s, v), t) && InComponent(s, t, x)
    ensures Mutual(g, x, v)
  {
    hide Reaches, Table, StackOrder;
    assert v in Push(s, v).indices && v in Push(s, v).onStack;
    assert HasHome(g, t, gray + {v}, x);
    var z :| z in gray + {v} && z in t.indices && t.indices[z] <= t.indices[x] && Reaches(g, x, z);
    if z != v {
      assert t.indices[z] == Push(s, v).indices[z] == s.indices[z];
      assert Reaches(g, z, v);
      ReachesTrans(g, x, z, v);
    }
  }

  lemma BackwardsPush(q: seq<NodeId>, i: nat)
    requires i < |q|
    ensures Backwards(q[i..]) == Backwards(q[i + 1..]) + [q[i]]
  {
    assert q[i..][1..] == q[i + 1..];
  }

  /** One more node popped, of those above `n`. */
  lemma PopMore(q: seq<NodeId>, base: nat, n: nat, on: set<NodeId>)
    requires base < n <= |q| && NoDup(q)
    ensures q[n - 1] == q[base] <==> n - 1 == base
    ensures q[..n][n - 1] == q[n - 1] && q[..n][..n - 1] == q[..n - 1]
    ensures Backwards(q[n - 1..]) == Backwards(q[n..]) + [q[n - 1]]
    ensures on - Members(Backwards(q[n - 1..])) == on - Members(Backwards(q[n..])) - {q[n - 1]}
  {
    BackwardsPush(q, n - 1);
    MembersMore(Backwards(q[n..]), q[n - 1]);
    hide Backwards, Members;
  }

  lemma BackwardsNoDup(q: seq<NodeId>, base: nat)
    requires NoDup(q) && base <= |q|
    ensures NoDup(Backwards(q[base..]))
  {
    var r := Backwards(q[base..]);
    forall i, j | 0 <= i < j < |r|
      ensures r[i] != r[j]
    {
      assert r[i] == q[|q| - 1 - i] && r[j] == q[|q| - 1 - j];
    }
  }

  lemma StackNoDup(t: State)
    requires Shape(t) && StackOrder(t)
    ensures NoDup(t.stack)
  {
    forall i, j | 0 <= i < j < |t.stack|
      ensures t.stack[i] != t.stack[j]
    {
      assert t.indices[t.stack[i]] < t.indices[t.stack[j]];
    }
  }

  /** Two popped nodes share a component number exactly when they are mutually reachable. */
  lemma PopClasses(g: seq<EdgeRecord>, s: State, t: State, gray: set<NodeId>, v: NodeId, a: NodeId, b: NodeId)
    requires Inv(g, s, gray) && v !in s.indices
    requires Inv(g, t, gray + {v}) && Extends(Push(s, v), t)
    requires (a in t.sccOf || InComponent(s, t, a)) && (b in t.sccOf || InComponent(s, t, b))
    requires !(a in t.sccOf && b in t.sccOf)
    ensures Mutual(g, a, b) <==> (a !in t.sccOf && b !in t.sccOf)
  {
    hide Reaches, Table, StackOrder, Walks;
    if a !in t.sccOf && b !in t.sccOf {
      ComponentMutual(g, s, t, gray, v, a);
      ComponentMutual(g, s, t, gray, v, b);
      ReachesTrans(g, a, v, b);
      ReachesTrans(g, b, v, a);
    } else if Mutual(g, a, b) {
      if a in t.sccOf {
        ClosedKeeps(g, t.sccOf.Keys, a, b);
      } else {
        ClosedKeeps(g, t.sccOf.Keys, b, a);
      }
    }
  }

  lemma PopListed(sccOf: map<NodeId, nat>, sccs: seq<seq<NodeId>>, comp: seq<NodeId>)
    requires Listed(sccOf, sccs) && NoDup(comp)
    requires forall x :: x in comp ==> x !in sccOf
    ensures Listed(sccOf + NumberedAll(comp, |sccs|), sccs + [comp])
  {
    var sccOf', sccs' := sccOf + NumberedAll(comp, |sccs|), sccs + [comp];
    forall c | 0 <= c < |sccs'|
      ensures NoDup(sccs'[c]) && Lists(sccOf', c, sccs'[c])
    {
      if c < |sccs| {
        assert sccs'[c] == sccs[c] && Lists(sccOf, c, sccs[c]);
      } else {
        assert sccs'[c] == comp;
      }
    }
  }

  lemma PopTable(g: seq<EdgeRecord>, s: State, t: State, gray: set<NodeId>, v: NodeId)
    requires Inv(g, s, gray) && v !in s.indices
    requires Inv(g, t, gray + {v}) && Extends(Push(s, v), t)
    ensures |s.stack| <= |t.stack| && Table(g, Pop(t, |s.stack|))
  {
    hide Reaches, Mutual, StackOrder, Walks, Colours, NoDup, Lists;
    ComponentMembers(s, t, v);
    StackNoDup(t);
    BackwardsNoDup(t.stack, |s.stack|);
    var u := Pop(t, |s.stack|);
    PopListed(t.sccOf, t.sccs, Backwards(t.stack[|s.stack|..]));
    forall a, b | a in u.sccOf && b in u.sccOf
      ensures u.sccOf[a] == u.sccOf[b] <==> Mutual(g, a, b)
    {
      if !(a in t.sccOf && b in t.sccOf) {
        PopClasses(g, s, t, gray, v, a, b);
      }
    }
  }

  lemma PopWalks(g: seq<EdgeRecord>, s: State, t: State, u: State, gray: set<NodeId>, v: NodeId)
    requires Shape(t) && Shape(u) && Walks(g, t, gray + {v})
    requires u.onStack <= t.onStack && u.indices == t.indices
    requires v in t.indices && forall x :: x in u.onStack ==> t.indices[x] < t.indices[v]
    ensures Walks(g, u, gray)
  {
    hide Reaches;
    forall y | y in u.onStack
      ensures HasHome(g, u, gray, y)
    {
      assert HasHome(g, t, gray + {v}, y);
    }
  }

  lemma PopOrder(s: State, u: State)
    requires Shape(s) && StackOrder(s) && Shape(u)
    requires u.stack == s.stack && u.onStack == s.onStack
    requires forall x :: x in s.indices ==> x in u.indices && u.indices[x] == s.indices[x]
    ensures StackOrder(u)
  {
  }

  lemma PopColours(g: seq<EdgeRecord>, s: State, t: State, gray: set<NodeId>, v: NodeId, out: seq<EdgeRecord>)
    requires Inv(g, s, gray) && v !in s.indices
    requires Visiting(g, s, t, gray, v, s.index, out) && Covers(g, v, out)
    ensures |s.stack| <= |t.stack| && Colours(g, Pop(t, |s.stack|), gray)
  {
    hide Reaches, Table, StackOrder, Walks, LowWitness;
    PopShape(s, t, v);
    var u := Pop(t, |s.stack|);
    forall e | e in g && e.from in u.sccOf
      ensures e.to in u.sccOf
    {
      ComponentClosed(g, s, t, gray, v, out, e);
    }
  }

  lemma LeavePopped(g: seq<EdgeRecord>, s: State, t: State, gray: set<NodeId>, v: NodeId, out: seq<EdgeRecord>)
    requires Inv(g, s, gray) && v !in s.indices
    requires Visiting(g, s, t, gray, v, s.index, out) && Covers(g, v, out)
    ensures |s.stack| <= |t.stack| && Visited(g, s, Pop(t, |s.stack|), gray, v, s.index)
  {
    hide Reaches, Table, HasHome, InComponent, Walks, StackOrder, LowWitness, Pop, Colours, Followed;
    PopShape(s, t, v);
    PopTable(g, s, t, gray, v);
    PopColours(g, s, t, gray, v, out);
    ExtendsPush(s, t, v);
    var u := Pop(t, |s.stack|);
    assert v in Push(s, v).indices;
    PopWalks(g, s, t, u, gray, v);
    PopOrder(s, u);
  }

  // ----- the pass itself -----

  /** The edges leaving `v`, in source order. */
  function Out(edges: seq<EdgeRecord>, v: NodeId): (out: seq<EdgeRecord>)
    ensures forall e :: e in out <==> e in edges && e.from == v
  {
    if edges == [] then []
    else
      var last := edges[|edges| - 1];
      Out(edges[..|edges| - 1], v) + (if last.from == v then [last] else [])
  }

  function AdjOf(adj: map<NodeId, seq<EdgeRecord>>, v: NodeId): seq<EdgeRecord> {
    if v in adj then adj[v] else []
  }

  ghost predicate AdjLists(edges: seq<EdgeRecord>, adj: map<NodeId, seq<EdgeRecord>>) {
    forall v :: AdjOf(adj, v) == Out(edges, v)
  }

  lemma AdjCovers(edges: seq<EdgeRecord>, adj: map<NodeId, seq<EdgeRecord>>, v: NodeId)
    requires AdjLists(edges, adj)
    ensures Covers(edges, v, AdjOf(adj, v))
    ensures forall e :: e in AdjOf(adj, v) ==> e in edges && e.from == v
  {
  }

  method BuildAdj(edges: seq<EdgeRecord>) returns (adj: map<NodeId, seq<EdgeRecord>>)
    ensures AdjLists(edges, adj)
  {
    adj := map[];
    for i := 0 to |edges|
      invariant AdjLists(edges[..i], adj)
    {
      var e := edges[i];
      assert edges[..i + 1][..i] == edges[..i];
      if e.from !in adj {
        adj := adj[e.from := []];
      }
      adj := adj[e.from := adj[e.from] + [e]];
    }
    assert edges[..|edges|] == edges;
  }

  class Tarjan {
    const edges: seq<EdgeRecord>
    const adj: map<NodeId, seq<EdgeRecord>>
    var index: nat
    var indices: map<NodeId, nat>
    var lowlink: map<NodeId, nat>
    var onStack: set<NodeId>
    var stack: seq<NodeId>
    var sccOf: map<NodeId, nat>
    var sccs: seq<seq<NodeId>>

    ghost function Now(): State
      reads this
    {
      State(index, indices, stack, onStack, sccOf, sccs)
    }

    ghost predicate Ready()
      reads this
    {
      lowlink.Keys == indices.Keys && AdjLists(edges, adj)
    }

    constructor (edges: seq<EdgeRecord>, adj: map<NodeId, seq<EdgeRecord>>)
      requires AdjLists(edges, adj)
      ensures this.edges == edges && Ready() && Now() == State(0, map[], [], {}, map[], [])
    {
      this.edges, this.adj := edges, adj;
      index, indices, lowlink, onStack, stack, sccOf, sccs := 0, map[], map[], {}, [], map[], [];
    }

    method Strongconnect(v: NodeId, ghost gray: set<NodeId>, ghost nodes: set<NodeId>)
      requires Ready() && Inv(edges, Now(), gray) && v !in indices
      requires forall z :: z in gray ==> Reaches(edges, z, v)
      requires v in nodes && indices.Keys <= nodes && forall e :: e in edges ==> e.to in nodes
      modifies this
      ensures Ready() && v in lowlink && Visited(edges, old(Now()), Now(), gray, v, lowlink[v])
      ensures indices.Keys <= nodes
      ensures forall x :: x in old(lowlink) ==> x in lowlink && lowlink[x] == old(lowlink[x])
      decreases nodes - indices.Keys
    {
      hide Reaches, Visiting, Visited, Inv, Extends, Pop, AdjLists, AdjOf, Covers;
      ghost var s := Now();
      StartVisiting(edges, s, gray, v);
      Enter(v);
      var out := AdjOf(adj, v);
      AdjCovers(edges, adj, v);
      var i := 0;
      while i < |out|
        invariant i <= |out| && Ready() && v in lowlink && indices.Keys <= nodes && s.indices.Keys < indices.Keys
        invariant Visiting(edges, s, Now(), gray, v, lowlink[v], out[..i])
        invariant forall x :: x in old(lowlink) ==> x in lowlink && lowlink[x] == old(lowlink[x])
      {
        var e := out[i];
        var w := e.to;
        ghost var t, low := Now(), lowlink[v];
        assert out[..i + 1] == out[..i] + [e];
        if w !in indices {
          OpenReaches(edges, s, t, gray, v, low, out[..i], e);
          Strongconnect(w, gray + {v}, nodes);
          AfterTreeEdge(edges, s, t, Now(), gray, v, low, out[..i], e, lowlink[w]);
          lowlink := lowlink[v := Min(lowlink[v], lowlink[w])];
        } else {
          AfterOldEdge(edges, s, t, gray, v, low, out[..i], e);
          if w in onStack {
            lowlink := lowlink[v := Min(lowlink[v], indices[w])];
          }
        }
        i := i + 1;
      }
      assert out[..i] == out;
      Leave(v, s, gray, out);
    }

    /** Gives the node its index and pushes it. */
    method Enter(v: NodeId)
      requires Ready()
      modifies this
      ensures Ready() && Now() == Push(old(Now()), v) && lowlink == old(lowlink)[v := old(index)]
    {
      indices := indices[v := index];
      lowlink := lowlink[v := index];
      index := index + 1;
      stack := stack + [v];
      onStack := onStack + {v};
    }

    /** With every edge followed, pops the node's component or leaves the node on the stack. */
    method Leave(v: NodeId, ghost s: State, ghost gray: set<NodeId>, ghost out: seq<EdgeRecord>)
      requires Ready() && Inv(edges, s, gray) && v !in s.indices && v in lowlink && Covers(edges, v, out)
      requires Visiting(edges, s, Now(), gray, v, lowlink[v], out)
      modifies this
      ensures Ready() && lowlink == old(lowlink) && indices == old(indices)
      ensures v in lowlink && Visited(edges, s, Now(), gray, v, lowlink[v])
    {
      hide Reaches, Visiting, Visited, Inv, Extends, Pop, AdjLists, AdjOf, Covers;
      VisitingShape(edges, s, Now(), gray, v, lowlink[v], out);
      if lowlink[v] == indices[v] {
        LeavePopped(edges, s, Now(), gray, v, out);
        PopComponent(v, |s.stack|);
      } else {
        LeaveOpen(edges, s, Now(), gray, v, lowlink[v], out);
      }
    }

    /** Pops the stack down to and including `v`. */
    method PopStack(v: NodeId, ghost base: nat) returns (comp: seq<NodeId>)
      requires base < |stack| && stack[base] == v && NoDup(stack)
      modifies this`stack, this`onStack
      ensures comp == Backwards(old(stack)[base..])
      ensures stack == old(stack)[..base] && onStack == old(onStack) - Members(comp)
    {
      ghost var q, on := stack, onStack;
      hide NoDup, Backwards, Members;
      comp := [];
      NoMembers();
      assert q[|q|..] == [] && q[..|q|] == q;
      var popping := true;
      while popping
        invariant base <= |stack| <= |q| && (popping <==> base < |stack|)
        invariant stack == q[..|stack|]
        invariant comp == Backwards(q[|stack|..])
        invariant onStack == on - Members(comp)
        decreases |stack|
      {
        PopMore(q, base, |stack|, on);
        var w := stack[|stack| - 1];
        stack := stack[..|stack| - 1];
        onStack := onStack - {w};
        comp := comp + [w];
        popping := w != v;
      }
    }

    /** Gives every popped node its component number. */
    method Number(comp: seq<NodeId>, sccId: nat)
      modifies this`sccOf
      ensures sccOf == old(sccOf) + NumberedAll(comp, sccId)
    {
      for i := 0 to |comp|
        invariant sccOf == old(sccOf) + NumberedAll(comp[..i], sccId)
      {
        sccOf := sccOf[comp[i] := sccId];
        assert comp[..i + 1] == comp[..i] + [comp[i]];
      }
      assert comp[..|comp|] == comp;
    }

    method PopComponent(v: NodeId, ghost base: nat)
      requires base < |stack| && stack[base] == v && NoDup(stack)
      modifies this`stack, this`onStack, this`sccOf, this`sccs
      ensures Now() == Pop(old(Now()), base)
    {
      var comp := PopStack(v, base);
      sccs := sccs + [comp];
      Number(comp, |sccs| - 1);
    }
  }

  /** Everything still open walks to the target of the edge about to be followed. */
  lemma OpenReaches(g: seq<EdgeRecord>, s: State, t: State, gray: set<NodeId>, v: NodeId, low: nat,
        out: seq<EdgeRecord>, e: EdgeRecord)
    requires Visiting(g, s, t, gray, v, low, out) && e in g && e.from == v
    requires forall z :: z in gray ==> Reaches(g, z, v)
    ensures Inv(g, t, gray + {v})
    ensures forall z :: z in gray + {v} ==> Reaches(g, z, e.to)
  {
    hide Reaches, Table, Walks, StackOrder, Colours, Followed, LowWitness;
    ReachesStep(g, e);
    forall z | z in gray {
      ReachesTrans(g, z, v, e.to);
    }
  }

  lemma VisitingShape(g: seq<EdgeRecord>, s: State, t: State, gray: set<NodeId>, v: NodeId, low: nat,
        out: seq<EdgeRecord>)
    requires Visiting(g, s, t, gray, v, low, out)
    ensures v in t.indices && t.indices[v] == s.index && low <= s.index
    ensures |s.stack| < |t.stack| && t.stack[|s.stack|] == v && NoDup(t.stack)
  {
    hide Reaches, Table, Walks, Colours, Followed, LowWitness;
    assert v in Push(s, v).indices && Push(s, v).stack[|s.stack|] == v;
    StackNoDup(t);
  }

  // ----- the whole check -----

  /** An edge lies on a cycle when its target walks back to its source (a self-loop always does). */
  ghost predicate OnCycle(g: seq<EdgeRecord>, e: EdgeRecord) {
    Reaches(g, e.to, e.from)
  }

  ghost predicate Offends(g: seq<EdgeRecord>, e: EdgeRecord) {
    OnCycle(g, e) && Unlabelled(e)
  }

  /** Once every endpoint has been visited and no call is open, the table covers the whole graph. */
  lemma Complete(g: seq<EdgeRecord>, s: State)
    requires Inv(g, s, {})
    ensures s.indices.Keys == s.sccOf.Keys && Table(g, s)
  {
    hide Table, Reaches, StackOrder, Colours;
    assert forall y :: y in s.onStack ==> HasHome(g, s, {}, y);
    assert s.onStack == {};
  }

  /** The test the final loop applies to one edge decides whether the edge lies on a cycle. */
  lemma NonTrivialIffOnCycle(g: seq<EdgeRecord>, sccOf: map<NodeId, nat>, sccs: seq<seq<NodeId>>, e: EdgeRecord)
    requires Classes(g, sccOf) && Listed(sccOf, sccs)
    requires e in g && e.from in sccOf && e.to in sccOf
    ensures sccOf[e.from] < |sccs|
    ensures OnCycle(g, e) <==>
            (e.from == e.to || (sccOf[e.from] == sccOf[e.to] && |sccs[sccOf[e.from]]| > 1))
  {
    hide Reaches;
    ReachesStep(g, e);
    ReachesSelf(g, e.from);
    var comp := sccs[sccOf[e.from]];
    assert NoDup(comp) && Lists(sccOf, sccOf[e.from], comp);
    assert e.from in comp;
    assert Mutual(g, e.from, e.to) <==> OnCycle(g, e);
    if OnCycle(g, e) && e.from != e.to {
      assert e.to in comp;
    }
  }

  /** `strongconnect` from every node not yet visited. */
  method Components(edges: seq<EdgeRecord>) returns (sccOf: map<NodeId, nat>, sccs: seq<seq<NodeId>>)
    ensures forall e :: e in edges ==> e.from in sccOf && e.to in sccOf
    ensures forall a, b :: a in sccOf && b in sccOf ==> (sccOf[a] == sccOf[b] <==> Mutual(edges, a, b))
    ensures Listed(sccOf, sccs)
  {
    hide Inv, Listed, Visited, Reaches, Extends;
    var adj := BuildAdj(edges);
    var nodeIds: seq<NodeId> := [];
    for i := 0 to |edges|
      invariant forall e :: e in edges[..i] ==> e.from in nodeIds && e.to in nodeIds
    {
      if edges[i].from !in nodeIds { nodeIds := nodeIds + [edges[i].from]; }
      if edges[i].to !in nodeIds { nodeIds := nodeIds + [edges[i].to]; }
    }
    assert edges[..|edges|] == edges;
    var t := new Tarjan(edges, adj);
    ghost var nodes := set x | x in nodeIds;
    EmptyInv(edges);
    for i := 0 to |nodeIds|
      invariant t.edges == edges && t.Ready() && Inv(edges, t.Now(), {}) && t.indices.Keys <= nodes
      invariant forall x :: x in nodeIds[..i] ==> x in t.indices
    {
      ghost var before := t.Now();
      if nodeIds[i] !in t.indices {
        t.Strongconnect(nodeIds[i], {}, nodes);
        VisitedKeeps(edges, before, t.Now(), nodeIds[i], t.lowlink[nodeIds[i]]);
      }
      assert nodeIds[..i + 1] == nodeIds[..i] + [nodeIds[i]];
    }
    assert nodeIds[..|nodeIds|] == nodeIds;
    Complete(edges, t.Now());
    return t.sccOf, t.sccs;
  }

  lemma EmptyInv(g: seq<EdgeRecord>)
    ensures Inv(g, State(0, map[], [], {}, map[], []), {})
  {
  }

  lemma VisitedKeeps(g: seq<EdgeRecord>, s: State, t: State, v: NodeId, low: nat)
    requires Visited(g, s, t, {}, v, low)
    ensures Inv(g, t, {}) && v in t.indices && s.indices.Keys <= t.indices.Keys
  {
    hide Inv;
  }

  /** The verdict is exact: the first edge in source order that lies on a cycle without a label, and
      none exactly when every edge on a cycle is labelled. */
  method CheckCycleLabels(edges: seq<EdgeRecord>) returns (r: Option<nat>)
    ensures r == None <==> forall e :: e in edges ==> !Offends(edges, e)
    ensures r != None ==>
              exists i :: 0 <= i < |edges| && Offends(edges, edges[i]) && r == Some(edges[i].line) &&
                          forall j :: 0 <= j < i ==> !Offends(edges, edges[j])
  {
    hide Listed, OnCycle;
    var sccOf, sccs := Components(edges);
    for i := 0 to |edges|
      invariant forall j :: 0 <= j < i ==> !Offends(edges, edges[j])
    {
      var e := edges[i];
      NonTrivialIffOnCycle(edges, sccOf, sccs, e);
      var sameScc := sccOf[e.from] == sccOf[e.to];
      var selfLoop := e.from == e.to;
      var nonTrivial := selfLoop || (sameScc && |sccs[sccOf[e.from]]| > 1);
      if nonTrivial && Unlabelled(e) {
        return Some(e.line);
      }
    }
    return None;
  }
}
