/** `checkMermaid` from its classified lines to the verdict: edge table, label diff, cycle labels,
    direction, lanes and edges, each proved exact against what it is meant to enforce. */
module DiagramCheck {
  import opened Reachability
  import opened DiagramLines
  import opened EdgeRealisation
  import CycleLabels

  datatype Lane = Lane(index: nat, title: Option<string>, dynamicLabels: seq<string>)

  datatype SlotKind = Single | Parallel | Alt

  datatype Slot = Slot(index: int, lane: nat, labels: seq<string>, kind: SlotKind, altGroup: Option<int>)

  /** What the script is expected to draw. */
  datatype ExpectedGraph = ExpectedGraph(lanes: seq<Lane>, slots: seq<Slot>, edges: seq<(int, int)>)

  datatype Diagram = Diagram(nodes: seq<NodeRecord>, edges: seq<EdgeRecord>, blocks: seq<SubgraphBlock>)

  datatype Verdict =
    | Accept
    | Refuse(rule: Rule, line: nat)
    | Mismatch(onlyInScript: set<string>, onlyInDiagram: set<string>)

  // ----- lookups -----

  /** The first agent node carrying `agentLabel` among `ids`. */
  function FindNode(nodes: seq<NodeRecord>, agentLabel: string, ids: set<NodeId>): (r: Option<NodeRecord>)
    ensures r.Some? ==>
      r.value in nodes && r.value.shape.Stadium? && r.value.agentLabel == agentLabel && r.value.id in ids
    ensures r.None? ==> forall n :: n in nodes ==> !(n.shape.Stadium? && n.agentLabel == agentLabel && n.id in ids)
  {
    if nodes == [] then None
    else if nodes[0].shape.Stadium? && nodes[0].agentLabel == agentLabel && nodes[0].id in ids then Some(nodes[0])
    else FindNode(nodes[1..], agentLabel, ids)
  }

  function NodeInLane(d: Diagram, agentLabel: string, lane: nat): Option<NodeRecord> {
    if lane < |d.blocks| then FindNode(d.nodes, agentLabel, d.blocks[lane].nodeIds) else None
  }

  /** The nodes standing for a slot: for each of its labels, the one in the slot's own lane. */
  function IdsForLabels(d: Diagram, labels: seq<string>, lane: nat): seq<NodeId> {
    if labels == [] then []
    else
      (match NodeInLane(d, labels[0], lane) case Some(n) => [n.id] case None => []) + IdsForLabels(d, labels[1..], lane)
  }

  function IdsForSlot(d: Diagram, slot: Slot): seq<NodeId> {
    IdsForLabels(d, slot.labels, slot.lane)
  }

  function SetOf(ids: seq<NodeId>): set<NodeId> {
    set id | id in ids
  }

  /** Later slots with the same index replace earlier ones. */
  function SlotById(slots: seq<Slot>, index: int): Option<Slot> {
    if slots == [] then None
    else
      var last := slots[|slots| - 1];
      if last.index == index then Some(last) else SlotById(slots[..|slots| - 1], index)
  }

  /** The slot a node was last entered under. */
  function SlotOf(d: Diagram, slots: seq<Slot>, id: NodeId): Option<int> {
    if slots == [] then None
    else
      var last := slots[|slots| - 1];
      if id in IdsForSlot(d, last) then Some(last.index) else SlotOf(d, slots[..|slots| - 1], id)
  }

  function NodeMap(nodes: seq<NodeRecord>): map<NodeId, NodeRecord> {
    if nodes == [] then map[]
    else NodeMap(nodes[..|nodes| - 1])[nodes[|nodes| - 1].id := nodes[|nodes| - 1]]
  }

  predicate IsStadium(d: Diagram, id: NodeId) {
    id in NodeMap(d.nodes) && NodeMap(d.nodes)[id].shape.Stadium?
  }

  /** The slots of one alt group, in order, and the first of them a node belongs to. */
  function Arms(slots: seq<Slot>, group: int): (r: seq<Slot>)
    ensures forall s :: s in r <==> s in slots && s.altGroup == Some(group)
  {
    if slots == [] then []
    else (if slots[0].altGroup == Some(group) then [slots[0]] else []) + Arms(slots[1..], group)
  }

  function FirstArm(d: Diagram, arms: seq<Slot>, id: NodeId): (r: Option<Slot>)
    ensures r.Some? ==> r.value in arms && id in IdsForSlot(d, r.value)
    ensures r.None? ==> forall s :: s in arms ==> id !in IdsForSlot(d, s)
  {
    if arms == [] then None
    else if id in IdsForSlot(d, arms[0]) then Some(arms[0])
    else FirstArm(d, arms[1..], id)
  }

  // ----- (13) edges -----

  ghost predicate Realised(x: ExpectedGraph, d: Diagram, primitives: set<NodeId>, ee: (int, int)) {
    match (SlotById(x.slots, ee.0), SlotById(x.slots, ee.1))
    case (Some(f), Some(t)) =>
      exists s :: s in IdsForSlot(d, f) && Routed(d.edges, NodeMap(d.nodes), primitives, s, SetOf(IdsForSlot(d, t)))
    case _ => true
  }

  predicate Stray(x: ExpectedGraph, d: Diagram, e: EdgeRecord) {
    IsStadium(d, e.from) && IsStadium(d, e.to) && Unlabelled(e) &&
    match (SlotOf(d, x.slots, e.from), SlotOf(d, x.slots, e.to))
    case (Some(f), Some(t)) => (f, t) !in x.edges && (t, f) !in x.edges
    case _ => false
  }

  predicate InsideSlot(d: Diagram, s: Slot, e: EdgeRecord) {
    !s.kind.Single? && |s.labels| >= 2 && e.from in IdsForSlot(d, s) && e.to in IdsForSlot(d, s)
  }

  predicate JoinsArms(d: Diagram, arms: seq<Slot>, e: EdgeRecord) {
    match (FirstArm(d, arms, e.from), FirstArm(d, arms, e.to))
    case (Some(a), Some(b)) => a.index != b.index
    case _ => false
  }

  /** The slot belongs to an alt group, two arms of which the edge joins. */
  predicate AcrossArms(x: ExpectedGraph, d: Diagram, s: Slot, e: EdgeRecord) {
    s.altGroup.Some? && JoinsArms(d, Arms(x.slots, s.altGroup.value), e)
  }

  /** The four edge rules together. */
  ghost predicate EdgesRight(x: ExpectedGraph, d: Diagram, primitives: set<NodeId>) {
    && AllRealised(x, d, primitives) && NoneStray(x, d) && NoneInside(x, d)
    && (forall s, e :: s in x.slots && e in d.edges ==> !AcrossArms(x, d, s, e))
  }

  ghost predicate AllRealised(x: ExpectedGraph, d: Diagram, primitives: set<NodeId>) {
    forall ee :: ee in x.edges ==> Realised(x, d, primitives, ee)
  }

  ghost predicate NoneStray(x: ExpectedGraph, d: Diagram) {
    forall e :: e in d.edges ==> !Stray(x, d, e)
  }

  ghost predicate NoneInside(x: ExpectedGraph, d: Diagram) {
    forall s, e :: s in x.slots && e in d.edges ==> !InsideSlot(d, s, e)
  }

  /** `d.edges[k]` is the first edge, for the first slot, that lies inside a slot. */
  ghost predicate FirstInside(x: ExpectedGraph, d: Diagram, i: nat, k: nat) {
    && i < |x.slots| && k < |d.edges| && InsideSlot(d, x.slots[i], d.edges[k])
    && (forall l :: 0 <= l < k ==> !InsideSlot(d, x.slots[i], d.edges[l]))
    && (forall j, e :: 0 <= j < i && e in d.edges ==> !InsideSlot(d, x.slots[j], e))
  }

  /** `d.edges[k]` is the first edge, for the first alt group, that joins two arms. */
  ghost predicate FirstAcross(x: ExpectedGraph, d: Diagram, i: nat, k: nat) {
    && i < |x.slots| && k < |d.edges| && AcrossArms(x, d, x.slots[i], d.edges[k])
    && (forall l :: 0 <= l < k ==> !AcrossArms(x, d, x.slots[i], d.edges[l]))
    && (forall j, e :: 0 <= j < i && e in d.edges ==> !AcrossArms(x, d, x.slots[j], e))
  }

  /** The line an edge refusal names: 1 for an expected edge that nothing realises, else that of the first edge that
      breaks the first rule broken. */
  ghost predicate EdgeFault(x: ExpectedGraph, d: Diagram, primitives: set<NodeId>, line: nat) {
    if !AllRealised(x, d, primitives) then line == 1
    else if !NoneStray(x, d) then
      exists i :: 0 <= i < |d.edges| && Stray(x, d, d.edges[i]) && line == d.edges[i].line
        && forall j :: 0 <= j < i ==> !Stray(x, d, d.edges[j])
    else if !NoneInside(x, d) then exists i: nat, k: nat :: FirstInside(x, d, i, k) && line == d.edges[k].line
    else exists i: nat, k: nat :: FirstAcross(x, d, i, k) && line == d.edges[k].line
  }

  method SomeRouted(d: Diagram, adj: map<NodeId, seq<NodeId>>, primitives: set<NodeId>, starts: seq<NodeId>,
        targets: set<NodeId>)
    returns (reached: bool)
    requires EdgeRealisation.Lists(d.edges, adj)
    ensures reached <==> exists s :: s in starts && Routed(d.edges, NodeMap(d.nodes), primitives, s, targets)
  {
    hide Routed, EdgeRealisation.Lists, NodeMap;
    for i := 0 to |starts|
      invariant forall j :: 0 <= j < i ==> !Routed(d.edges, NodeMap(d.nodes), primitives, starts[j], targets)
    {
      var here := PathThroughNonAgents(d.edges, adj, NodeMap(d.nodes), primitives, starts[i], targets);
      if here {
        assert starts[i] in starts;
        return true;
      }
    }
    return false;
  }

  /** Returns the line of the first offending edge (1 for an expected edge that nothing realises). */
  method CheckEdges(x: ExpectedGraph, d: Diagram, primitives: set<NodeId>) returns (r: Option<nat>)
    ensures r == None <==> EdgesRight(x, d, primitives)
    ensures r.Some? ==> EdgeFault(x, d, primitives, r.value)
  {
    hide Routed, EdgeRealisation.Lists, NodeMap, IdsForSlot, SlotById, Stray, InsideSlot, AcrossArms, FirstInside,
      FirstAcross;
    var adj := BuildAdjacency(d.edges);
    for i := 0 to |x.edges|
      invariant forall j :: 0 <= j < i ==> Realised(x, d, primitives, x.edges[j])
    {
      var fromSlot, toSlot := SlotById(x.slots, x.edges[i].0), SlotById(x.slots, x.edges[i].1);
      if fromSlot.Some? && toSlot.Some? {
        var targets := SetOf(IdsForSlot(d, toSlot.value));
        var reached := SomeRouted(d, adj, primitives, IdsForSlot(d, fromSlot.value), targets);
        if !reached {
          assert x.edges[i] in x.edges && !Realised(x, d, primitives, x.edges[i]);
          return Some(1);
        }
      }
    }
    assert AllRealised(x, d, primitives);
    for i := 0 to |d.edges|
      invariant forall j :: 0 <= j < i ==> !Stray(x, d, d.edges[j])
    {
      if Stray(x, d, d.edges[i]) {
        assert d.edges[i] in d.edges;
        return Some(d.edges[i].line);
      }
    }
    assert NoneStray(x, d);
    var inside := FindInside(x, d);
    if inside.Some? {
      return inside;
    }
    r := FindAcross(x, d);
  }

  /** No edges among members of one parallel or alt slot. */
  method FindInside(x: ExpectedGraph, d: Diagram) returns (r: Option<nat>)
    ensures r == None <==> NoneInside(x, d)
    ensures r.Some? ==> exists i: nat, k: nat :: FirstInside(x, d, i, k) && r.value == d.edges[k].line
  {
    hide InsideSlot;
    for i := 0 to |x.slots|
      invariant forall j, e :: 0 <= j < i && e in d.edges ==> !InsideSlot(d, x.slots[j], e)
    {
      for k := 0 to |d.edges|
        invariant forall l :: 0 <= l < k ==> !InsideSlot(d, x.slots[i], d.edges[l])
      {
        if InsideSlot(d, x.slots[i], d.edges[k]) {
          assert x.slots[i] in x.slots && d.edges[k] in d.edges && FirstInside(x, d, i, k);
          return Some(d.edges[k].line);
        }
      }
    }
    return None;
  }

  /** No edges between two arms of one alt group. */
  method FindAcross(x: ExpectedGraph, d: Diagram) returns (r: Option<nat>)
    ensures r == None <==> forall s, e :: s in x.slots && e in d.edges ==> !AcrossArms(x, d, s, e)
    ensures r.Some? ==> exists i: nat, k: nat :: FirstAcross(x, d, i, k) && r.value == d.edges[k].line
  {
    hide JoinsArms, Arms;
    for i := 0 to |x.slots|
      invariant forall j, e :: 0 <= j < i && e in d.edges ==> !AcrossArms(x, d, x.slots[j], e)
    {
      if x.slots[i].altGroup.Some? {
        var arms := Arms(x.slots, x.slots[i].altGroup.value);
        for k := 0 to |d.edges|
          invariant forall l :: 0 <= l < k ==> !AcrossArms(x, d, x.slots[i], d.edges[l])
        {
          if JoinsArms(d, arms, d.edges[k]) {
            assert x.slots[i] in x.slots && d.edges[k] in d.edges && FirstAcross(x, d, i, k);
            return Some(d.edges[k].line);
          }
        }
      }
    }
    return None;
  }

  // ----- (11) lanes -----

  ghost predicate Placed(x: ExpectedGraph, d: Diagram, lane: nat, agentLabel: string) {
    NodeInLane(d, agentLabel, lane).Some?
  }

  /** One block per lane with the lane's title (if it has one), and every expected label in its lane. */
  ghost predicate LanesRight(x: ExpectedGraph, d: Diagram) {
    && |d.blocks| == |x.lanes|
    && (forall l :: l in x.lanes && l.title.Some? ==> l.index < |d.blocks| && d.blocks[l.index].title == l.title.value)
    && (forall s, t :: s in x.slots && t in s.labels ==> Placed(x, d, s.lane, t))
    && (forall l, t :: l in x.lanes && t in l.dynamicLabels ==> Placed(x, d, l.index, t))
  }

  function LineOf(nodes: seq<NodeRecord>, agentLabel: string): nat {
    if nodes == [] then 1
    else if nodes[0].shape.Stadium? && nodes[0].agentLabel == agentLabel then nodes[0].line
    else LineOf(nodes[1..], agentLabel)
  }

  ghost predicate WrongTitle(d: Diagram, l: Lane) {
    l.title.Some? && l.index < |d.blocks| && d.blocks[l.index].title != l.title.value
  }

  /** The first of `labels` that its lane misses. */
  ghost predicate Misses(d: Diagram, labels: seq<string>, lane: nat, agentLabel: string) {
    exists j :: 0 <= j < |labels| && labels[j] == agentLabel && NodeInLane(d, agentLabel, lane).None?
      && forall l :: 0 <= l < j ==> NodeInLane(d, labels[l], lane).Some?
  }

  ghost predicate AllPlaced(d: Diagram, labels: seq<string>, lane: nat) {
    forall t :: t in labels ==> NodeInLane(d, t, lane).Some?
  }

  /** The line a lane refusal names: 1 for a wrong number of blocks, else that of the first block with a wrong title,
      else that of the first node carrying the first label that its lane misses, slots before dynamic calls. */
  ghost predicate LaneFault(x: ExpectedGraph, d: Diagram, line: nat) {
    if |d.blocks| != |x.lanes| then line == 1
    else if exists l :: l in x.lanes && WrongTitle(d, l) then
      exists i :: 0 <= i < |x.lanes| && WrongTitle(d, x.lanes[i]) && line == d.blocks[x.lanes[i].index].line
        && forall j :: 0 <= j < i ==> !WrongTitle(d, x.lanes[j])
    else if exists s :: s in x.slots && !AllPlaced(d, s.labels, s.lane) then
      exists i, t :: 0 <= i < |x.slots| && Misses(d, x.slots[i].labels, x.slots[i].lane, t)
        && line == LineOf(d.nodes, t)
        && forall j :: 0 <= j < i ==> AllPlaced(d, x.slots[j].labels, x.slots[j].lane)
    else
      exists i, t :: 0 <= i < |x.lanes| && Misses(d, x.lanes[i].dynamicLabels, x.lanes[i].index, t)
        && line == LineOf(d.nodes, t)
        && forall j :: 0 <= j < i ==> AllPlaced(d, x.lanes[j].dynamicLabels, x.lanes[j].index)
  }

  method CheckLanes(x: ExpectedGraph, d: Diagram) returns (r: Option<nat>)
    requires forall l :: l in x.lanes && l.title.Some? ==> l.index < |x.lanes|
    ensures r == None <==> LanesRight(x, d)
    ensures r.Some? ==> LaneFault(x, d, r.value)
  {
    hide LineOf, NodeInLane, Misses, AllPlaced;
    if |d.blocks| != |x.lanes| {
      return Some(1);
    }
    for i := 0 to |x.lanes|
      invariant forall j :: 0 <= j < i ==> !WrongTitle(d, x.lanes[j])
    {
      var lane := x.lanes[i];
      if lane.title.Some? && d.blocks[lane.index].title != lane.title.value {
        assert lane in x.lanes && WrongTitle(d, lane);
        return Some(d.blocks[lane.index].line);
      }
    }
    for i := 0 to |x.slots|
      invariant forall j :: 0 <= j < i ==> AllPlaced(d, x.slots[j].labels, x.slots[j].lane)
    {
      var missing := FirstUnplaced(d, x.slots[i].labels, x.slots[i].lane);
      if missing.Some? {
        assert x.slots[i] in x.slots;
        SlotMisplaced(x, d, x.slots[i]);
        return Some(LineOf(d.nodes, missing.value));
      }
    }
    for i := 0 to |x.lanes|
      invariant forall j :: 0 <= j < i ==> AllPlaced(d, x.lanes[j].dynamicLabels, x.lanes[j].index)
    {
      var missing := FirstUnplaced(d, x.lanes[i].dynamicLabels, x.lanes[i].index);
      if missing.Some? {
        assert x.lanes[i] in x.lanes;
        DynamicMisplaced(x, d, x.lanes[i]);
        return Some(LineOf(d.nodes, missing.value));
      }
    }
    LanesAllRight(x, d);
    return None;
  }

  lemma SlotMisplaced(x: ExpectedGraph, d: Diagram, s: Slot)
    requires s in x.slots && !AllPlaced(d, s.labels, s.lane)
    ensures !LanesRight(x, d)
  {
    var t :| t in s.labels && NodeInLane(d, t, s.lane).None?;
    assert !Placed(x, d, s.lane, t);
  }

  lemma DynamicMisplaced(x: ExpectedGraph, d: Diagram, l: Lane)
    requires l in x.lanes && !AllPlaced(d, l.dynamicLabels, l.index)
    ensures !LanesRight(x, d)
  {
    var t :| t in l.dynamicLabels && NodeInLane(d, t, l.index).None?;
    assert !Placed(x, d, l.index, t);
  }

  lemma LanesAllRight(x: ExpectedGraph, d: Diagram)
    requires |d.blocks| == |x.lanes| && forall l :: l in x.lanes ==>
      (l.title.Some? ==> l.index < |x.lanes|) && !WrongTitle(d, l)
    requires forall s :: s in x.slots ==> AllPlaced(d, s.labels, s.lane)
    requires forall l :: l in x.lanes ==> AllPlaced(d, l.dynamicLabels, l.index)
    ensures LanesRight(x, d)
  {
    hide NodeInLane;
  }

  method FirstUnplaced(d: Diagram, labels: seq<string>, lane: nat) returns (r: Option<string>)
    ensures r.Some? ==> Misses(d, labels, lane, r.value) && !AllPlaced(d, labels, lane)
    ensures r.None? ==> AllPlaced(d, labels, lane)
  {
    for i := 0 to |labels|
      invariant forall j :: 0 <= j < i ==> NodeInLane(d, labels[j], lane).Some?
    {
      if NodeInLane(d, labels[i], lane).None? {
        assert labels[i] in labels;
        return Some(labels[i]);
      }
    }
    return None;
  }

  // ----- (4)-(6) edge table and label diff -----

  ghost predicate HasId(nodes: seq<NodeRecord>, id: NodeId) {
    exists n :: n in nodes && n.id == id
  }

  ghost predicate EdgeLineRight(nodes: seq<NodeRecord>, l: EdgeLine) {
    l.edge.EdgeText? && HasId(nodes, l.edge.from) && HasId(nodes, l.edge.to)
  }

  /** The edge records of the lines that EDGE_RE matched. */
  function EdgeRecords(lines: seq<EdgeLine>): seq<EdgeRecord> {
    if lines == [] then []
    else
      var last := lines[|lines| - 1];
      EdgeRecords(lines[..|lines| - 1]) +
      (match last.edge
       case EdgeText(from, to, arrow, caption) => [EdgeRecord(from, to, arrow, caption, last.line)]
       case _ => [])
  }

  /** The rule a bad edge line breaks. */
  function EdgeLineRule(l: EdgeLine): Rule {
    match l.edge
    case NoMatch => MermaidInvalid
    case Collapsed => CollapsedEdge
    case EdgeText(_, _, _, _) => UndeclaredNode
  }

  /** The refusal names the first bad edge line. */
  ghost predicate TableFault(nodes: seq<NodeRecord>, lines: seq<EdgeLine>, rule: Rule, line: nat) {
    exists i :: 0 <= i < |lines| && !EdgeLineRight(nodes, lines[i]) && rule == EdgeLineRule(lines[i])
      && line == lines[i].line
      && forall j :: 0 <= j < i ==> EdgeLineRight(nodes, lines[j])
  }

  method BuildEdges(nodes: seq<NodeRecord>, lines: seq<EdgeLine>) returns (r: Option<Verdict>, edges: seq<EdgeRecord>)
    ensures r == None <==> forall l :: l in lines ==> EdgeLineRight(nodes, l)
    ensures r == None ==> edges == EdgeRecords(lines)
    ensures r.Some? ==> r.value.Refuse? && TableFault(nodes, lines, r.value.rule, r.value.line)
    ensures r.Some? ==> r.value.rule.MermaidInvalid? || r.value.rule.CollapsedEdge? || r.value.rule.UndeclaredNode?
  {
    var ids := set n | n in nodes :: n.id;
    edges := [];
    for i := 0 to |lines|
      invariant forall j :: 0 <= j < i ==> EdgeLineRight(nodes, lines[j])
      invariant edges == EdgeRecords(lines[..i])
    {
      assert lines[..i + 1][..i] == lines[..i];
      match lines[i].edge
      case NoMatch =>
        assert !EdgeLineRight(nodes, lines[i]);
        return Some(Refuse(MermaidInvalid, lines[i].line)), edges;
      case Collapsed =>
        assert !EdgeLineRight(nodes, lines[i]);
        return Some(Refuse(CollapsedEdge, lines[i].line)), edges;
      case EdgeText(from, to, arrow, caption) =>
        if from !in ids || to !in ids {
          assert !EdgeLineRight(nodes, lines[i]);
          return Some(Refuse(UndeclaredNode, lines[i].line)), edges;
        }
        edges := edges + [EdgeRecord(from, to, arrow, caption, lines[i].line)];
    }
    assert lines[..|lines|] == lines;
    return None, edges;
  }

  /** A label scanned both as an agent and as a primitive counts as an agent. */
  function PrimitiveLabels(script: set<string>, primitives: set<string>): set<string> {
    primitives - script
  }

  function PrimitiveIds(nodes: seq<NodeRecord>, script: set<string>, primitives: set<string>): set<NodeId> {
    set n | n in nodes && n.shape.Stadium? && n.agentLabel in PrimitiveLabels(script, primitives) :: n.id
  }

  /** The agents drawn are exactly the agents the script calls; primitives may be drawn or not. */
  ghost predicate LabelsAgree(nodes: seq<NodeRecord>, script: set<string>, primitives: set<string>) {
    && (forall t :: t in script ==> exists n :: n in nodes && n.shape.Stadium? && n.agentLabel == t)
    && (forall n :: n in nodes && n.shape.Stadium? ==> n.agentLabel in script || n.agentLabel in primitives)
  }

  /** The labels drawn as agents. */
  function Drawn(nodes: seq<NodeRecord>, script: set<string>, primitives: set<string>): set<string> {
    set n | n in nodes && n.shape.Stadium? && n.agentLabel !in PrimitiveLabels(script, primitives) :: n.agentLabel
  }

  ghost predicate LabelsOk(nodes: seq<NodeRecord>) {
    forall n :: n in nodes && n.shape.Stadium? ==> n.labelOk
  }

  /** The refusal names the first node whose label has the wrong form. */
  ghost predicate LabelFault(nodes: seq<NodeRecord>, line: nat) {
    exists i :: 0 <= i < |nodes| && nodes[i].shape.Stadium? && !nodes[i].labelOk && line == nodes[i].line
      && forall j :: 0 <= j < i && nodes[j].shape.Stadium? ==> nodes[j].labelOk
  }

  lemma AgreeIffSame(nodes: seq<NodeRecord>, script: set<string>, primitives: set<string>)
    ensures LabelsAgree(nodes, script, primitives) <==> Drawn(nodes, script, primitives) == script
  {
    var drawn := Drawn(nodes, script, primitives);
    if LabelsAgree(nodes, script, primitives) {
      forall t
        ensures t in drawn <==> t in script
      {
        if t in script {
          var n :| n in nodes && n.shape.Stadium? && n.agentLabel == t;
          assert t !in PrimitiveLabels(script, primitives);
        }
      }
    }
    if drawn == script {
      forall n | n in nodes && n.shape.Stadium?
        ensures n.agentLabel in script || n.agentLabel in primitives
      {
        assert n.agentLabel !in PrimitiveLabels(script, primitives) ==> n.agentLabel in drawn;
      }
      forall t | t in script
        ensures exists n :: n in nodes && n.shape.Stadium? && n.agentLabel == t
      {
        assert t in drawn;
      }
    }
  }

  method CheckLabels(nodes: seq<NodeRecord>, script: set<string>, primitives: set<string>) returns (r: Option<Verdict>)
    ensures r == None <==> LabelsOk(nodes) && LabelsAgree(nodes, script, primitives)
    ensures r.Some? ==>
      match r.value
      case Accept => false
      case Refuse(rule, line) => rule == AgentLabelFormat && LabelFault(nodes, line)
      case Mismatch(s, d) =>
        LabelsOk(nodes) && s == script - Drawn(nodes, script, primitives)
          && d == Drawn(nodes, script, primitives) - script
  {
    for i := 0 to |nodes|
      invariant forall j :: 0 <= j < i && nodes[j].shape.Stadium? ==> nodes[j].labelOk
    {
      if nodes[i].shape.Stadium? && !nodes[i].labelOk {
        return Some(Refuse(AgentLabelFormat, nodes[i].line));
      }
    }
    AgreeIffSame(nodes, script, primitives);
    hide LabelsAgree, PrimitiveLabels;
    var diagramLabels := set n | n in nodes && n.shape.Stadium?
      && n.agentLabel !in PrimitiveLabels(script, primitives) :: n.agentLabel;
    var onlyInScript, onlyInDiagram := script - diagramLabels, diagramLabels - script;
    if onlyInScript != {} || onlyInDiagram != {} {
      return Some(Mismatch(onlyInScript, onlyInDiagram));
    }
    assert diagramLabels == script;
    return None;
  }

  // ----- the whole check -----

  /** `<-->` edges take no part in the cycle rule. */
  function DirectedOnly(edges: seq<EdgeRecord>): seq<EdgeRecord> {
    if edges == [] then []
    else (if edges[0].arrow == Both then [] else [edges[0]]) + DirectedOnly(edges[1..])
  }

  ghost function DiagramOf(lines: seq<Line>, blocks: seq<SubgraphBlock>): Diagram {
    Diagram(NodesOf(lines, |lines|), EdgeRecords(EdgesOf(lines, |lines|)), blocks)
  }

  /** Everything an accepted diagram promises about itself, its script and the expected graph. */
  ghost predicate WellDrawn(lines: seq<Line>, script: set<string>, primitives: set<string>, x: ExpectedGraph,
        blocks: seq<SubgraphBlock>)
  {
    var d := DiagramOf(lines, blocks);
    && (forall l :: l in EdgesOf(lines, |lines|) ==> EdgeLineRight(d.nodes, l))
    && LabelsOk(d.nodes)
    && LabelsAgree(d.nodes, script, primitives)
    && NoLoopUnlabelled(DirectedOnly(d.edges))
    && lines != [] && lines[0] == Header(true)
    && LanesRight(x, d)
    && EdgesRight(x, d, PrimitiveIds(d.nodes, script, primitives))
  }

  ghost predicate NoLoopUnlabelled(edges: seq<EdgeRecord>) {
    forall e :: e in edges ==> !CycleLabels.Offends(edges, e)
  }

  ghost predicate LoopFault(edges: seq<EdgeRecord>, line: nat) {
    exists i :: 0 <= i < |edges| && CycleLabels.Offends(edges, edges[i]) && line == edges[i].line
      && forall j :: 0 <= j < i ==> !CycleLabels.Offends(edges, edges[j])
  }

  /** The first line that breaks a rule of the classifier, and that rule. */
  ghost predicate LineFault(lines: seq<Line>, rule: Rule, line: nat) {
    exists i :: 0 <= i < |lines| && line == i + 1 && OffenceAt(lines, i) == Some(rule)
      && forall k :: 0 <= k < i ==> OffenceAt(lines, k) == None
  }

  /** A refusal names the first rule the diagram breaks, in the order of the check, and where. */
  ghost predicate Explained(r: Verdict, lines: seq<Line>, script: set<string>, primitives: set<string>,
        x: ExpectedGraph, blocks: seq<SubgraphBlock>)
  {
    var d := DiagramOf(lines, blocks);
    var tableOk := forall l :: l in EdgesOf(lines, |lines|) ==> EdgeLineRight(d.nodes, l);
    var labelsOk := tableOk && LabelsOk(d.nodes) && LabelsAgree(d.nodes, script, primitives);
    var loopsOk := labelsOk && NoLoopUnlabelled(DirectedOnly(d.edges));
    var directionOk := loopsOk && lines != [] && lines[0] == Header(true);
    match r
    case Accept => true
    case Mismatch(s, t) =>
      tableOk && LabelsOk(d.nodes) && s == script - Drawn(d.nodes, script, primitives)
        && t == Drawn(d.nodes, script, primitives) - script
    case Refuse(rule, line) =>
      match rule
      case AgentLabelFormat => tableOk && LabelFault(d.nodes, line)
      case LoopLabel => labelsOk && LoopFault(DirectedOnly(d.edges), line)
      case DiagramDirection => loopsOk && !directionOk && line == 1
      case LaneMismatch => directionOk && LaneFault(x, d, line)
      case EdgeMismatch => directionOk && LanesRight(x, d)
        && EdgeFault(x, d, PrimitiveIds(d.nodes, script, primitives), line)
      case _ => TableFault(d.nodes, EdgesOf(lines, |lines|), rule, line)
  }

  method CheckMermaid(lines: seq<Line>, script: set<string>, primitives: set<string>, x: ExpectedGraph)
    returns (r: Verdict, ghost spans: seq<(nat, nat)>, ghost blocks: seq<SubgraphBlock>)
    requires forall l :: l in x.lanes && l.title.Some? ==> l.index < |x.lanes|
    ensures Accepted(lines) ==> Records(lines, |lines|, spans, blocks)
    ensures r.Accept? <==> Accepted(lines) && WellDrawn(lines, script, primitives, x, blocks)
    ensures Accepted(lines) ==> Explained(r, lines, script, primitives, x, blocks)
    ensures !Accepted(lines) ==> r.Refuse? && LineFault(lines, r.rule, r.line)
  {
    hide CycleLabels.Offends, EdgesRight, LanesRight, LabelsAgree, LabelsOk, Records, OffenceAt, EdgeFault, LaneFault,
      LabelFault,
      TableFault, EdgeLineRight, Drawn, PrimitiveIds, DirectedOnly, NodesOf, EdgesOf, EdgeRecords;
    var classified;
    classified, spans := Classify(lines);
    blocks := [];
    match classified {
      case Refused(rule, line) =>
        return Refuse(rule, line), spans, blocks;
      case Tables(nodes, edgeLines, blocks') =>
        blocks := blocks';
        var edgeErr, edges := BuildEdges(nodes, edgeLines);
        if edgeErr.Some? { return edgeErr.value, spans, blocks; }
        var labelErr := CheckLabels(nodes, script, primitives);
        if labelErr.Some? { return labelErr.value, spans, blocks; }
        var cycleErr := CycleLabels.CheckCycleLabels(DirectedOnly(edges));
        assert cycleErr.Some? ==> LoopFault(DirectedOnly(edges), cycleErr.value);
        if cycleErr.Some? { return Refuse(LoopLabel, cycleErr.value), spans, blocks; }
        if lines == [] || lines[0] != Header(true) { return Refuse(DiagramDirection, 1), spans, blocks; }
        var d := Diagram(nodes, edges, blocks');
        var laneErr := CheckLanes(x, d);
        if laneErr.Some? { return Refuse(LaneMismatch, laneErr.value), spans, blocks; }
        var slotErr := CheckEdges(x, d, PrimitiveIds(nodes, script, primitives));
        if slotErr.Some? { return Refuse(EdgeMismatch, slotErr.value), spans, blocks; }
        return Accept, spans, blocks;
    }
  }

  // ----- what acceptance means for the drawing itself -----

  lemma {:induction false} NodeHasLine(lines: seq<Line>, m: nat, n: NodeRecord)
    requires m <= |lines| && n in NodesOf(lines, m)
    ensures 0 < n.line <= m && lines[n.line - 1] == NodeLine(n.id, n.shape, n.agentLabel, n.labelOk)
  {
    if n in NodesOf(lines, m - 1) {
      NodeHasLine(lines, m - 1, n);
    }
  }

  /** In an accepted diagram every label of every expected slot is drawn as an agent node on a line that
      lies inside the slot's own top-level subgraph. */
  lemma SlotDrawnInLane(lines: seq<Line>, script: set<string>, primitives: set<string>, x: ExpectedGraph,
                        spans: seq<(nat, nat)>, blocks: seq<SubgraphBlock>, s: Slot, t: string)
    requires Accepted(lines) && Records(lines, |lines|, spans, blocks)
    requires WellDrawn(lines, script, primitives, x, blocks) && s in x.slots && t in s.labels
    ensures exists k ::
              && 0 <= k < |lines| && lines[k].NodeLine? && lines[k].shape.Stadium? && lines[k].agentLabel == t
              && s.lane < |spans| && spans[s.lane].0 < k < spans[s.lane].1
  {
    hide EdgesRight, LabelsAgree, CycleLabels.Offends;
    var d := DiagramOf(lines, blocks);
    assert Placed(x, d, s.lane, t);
    var n := NodeInLane(d, t, s.lane).value;
    NodeHasLine(lines, |lines|, n);
    LaneOfNode(lines, spans, blocks, s.lane, n.line - 1);
  }

  lemma {:induction false} InIdsForLabels(d: Diagram, labels: seq<string>, lane: nat, id: NodeId)
    requires id in IdsForLabels(d, labels, lane)
    ensures lane < |d.blocks| && id in d.blocks[lane].nodeIds
  {
    var first := NodeInLane(d, labels[0], lane);
    if !(first.Some? && first.value.id == id) {
      InIdsForLabels(d, labels[1..], lane, id);
    }
  }

  /** No node stands for two arms of one alt group. */
  ghost predicate ArmsApart(d: Diagram, arms: seq<Slot>) {
    forall c, c', id :: c in arms && c' in arms && c != c' && id in IdsForSlot(d, c) ==> id !in IdsForSlot(d, c')
  }

  /** No edge of an accepted diagram joins two arms of one alt group, whether they share a lane or not, as long as
      no node stands for both. */
  lemma ArmsNotJoined(lines: seq<Line>, script: set<string>, primitives: set<string>, x: ExpectedGraph,
        blocks: seq<SubgraphBlock>, a: Slot, b: Slot, e: EdgeRecord)
    requires WellDrawn(lines, script, primitives, x, blocks) && e in DiagramOf(lines, blocks).edges
    requires a in x.slots && b in x.slots && a.altGroup.Some? && a.altGroup == b.altGroup && a.index != b.index
    requires ArmsApart(DiagramOf(lines, blocks), Arms(x.slots, a.altGroup.value))
    ensures !(e.from in IdsForSlot(DiagramOf(lines, blocks), a) && e.to in IdsForSlot(DiagramOf(lines, blocks), b))
  {
    hide LabelsAgree, CycleLabels.Offends, LanesRight, AllRealised, NoneStray, NoneInside, ArmsApart, JoinsArms,
      IdsForSlot;
    var d := DiagramOf(lines, blocks);
    assert !AcrossArms(x, d, a, e);
    ApartNotJoined(d, Arms(x.slots, a.altGroup.value), a, b, e);
  }

  lemma ApartNotJoined(d: Diagram, arms: seq<Slot>, a: Slot, b: Slot, e: EdgeRecord)
    requires ArmsApart(d, arms) && a in arms && b in arms && a.index != b.index && !JoinsArms(d, arms, e)
    ensures !(e.from in IdsForSlot(d, a) && e.to in IdsForSlot(d, b))
  {
    hide IdsForSlot, FirstArm;
    var first, second := FirstArm(d, arms, e.from), FirstArm(d, arms, e.to);
    assert e.from in IdsForSlot(d, a) ==> first == Some(a);
    assert e.to in IdsForSlot(d, b) ==> second == Some(b);
  }

  /** Arms drawn in different lanes are apart. */
  lemma LanesKeepArmsApart(lines: seq<Line>, spans: seq<(nat, nat)>, d: Diagram, arms: seq<Slot>)
    requires Accepted(lines) && Records(lines, |lines|, spans, d.blocks)
    requires forall c, c' :: c in arms && c' in arms && c != c' ==> c.lane != c'.lane
    ensures ArmsApart(d, arms)
  {
    forall c, c', id | c in arms && c' in arms && c != c' && id in IdsForSlot(d, c)
      ensures id !in IdsForSlot(d, c')
    {
      LanesShareNoId(lines, spans, d, c, c', id);
    }
  }

  lemma LanesShareNoId(lines: seq<Line>, spans: seq<(nat, nat)>, d: Diagram, a: Slot, b: Slot, id: NodeId)
    requires Accepted(lines) && Records(lines, |lines|, spans, d.blocks)
    requires a.lane != b.lane && id in IdsForSlot(d, a)
    ensures id !in IdsForSlot(d, b)
  {
    InIdsForLabels(d, a.labels, a.lane, id);
    if id in IdsForSlot(d, b) {
      InIdsForLabels(d, b.labels, b.lane, id);
      BlocksDisjoint(lines, spans, d.blocks, if a.lane < b.lane then a.lane else b.lane,
                     if a.lane < b.lane then b.lane else a.lane);
    }
  }
}
