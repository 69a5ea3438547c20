/** What a refusal of a diagram means, said of its lines and records alone: the first rule broken, and where. */
module DiagramRefusals {
  import opened Reachability
  import opened DiagramLines
  import opened DiagramCheck
  import opened DiagramMeaning
  import CycleLabels

  // ----- arrow lines -----

  ghost predicate HasNode(nodes: seq<NodeRecord>, id: NodeId) {
    exists n :: n in nodes && n.id == id
  }

  /** An arrow line that cannot be read or names a node nobody declared. */
  ghost predicate BadArrow(lines: seq<Line>, nodes: seq<NodeRecord>, k: nat) {
    && k < |lines| && lines[k].ArrowLine?
    && !(lines[k].edge.EdgeText? && HasNode(nodes, lines[k].edge.from) && HasNode(nodes, lines[k].edge.to))
  }

  function ArrowRule(edge: EdgeText): Rule {
    match edge
    case NoMatch => MermaidInvalid
    case Collapsed => CollapsedEdge
    case EdgeText(_, _, _, _) => UndeclaredNode
  }

  ghost predicate FirstBadArrow(lines: seq<Line>, nodes: seq<NodeRecord>, rule: Rule, line: nat) {
    exists k: nat :: BadArrow(lines, nodes, k) && line == k + 1 && rule == ArrowRule(lines[k].edge)
      && (forall j: nat :: j < k ==> !BadArrow(lines, nodes, j))
  }

  lemma TableSays(lines: seq<Line>, nodes: seq<NodeRecord>, rule: Rule, line: nat)
    requires TableFault(nodes, EdgesOf(lines, |lines|), rule, line)
    ensures FirstBadArrow(lines, nodes, rule, line)
  {
    hide EdgesOf, EdgeLineRight, BadArrow;
    EdgeLinesAreLines(lines, |lines|);
    var arrows := EdgesOf(lines, |lines|);
    var i: nat :| i < |arrows| && !EdgeLineRight(nodes, arrows[i]) && rule == EdgeLineRule(arrows[i])
                  && line == arrows[i].line && forall j :: 0 <= j < i ==> EdgeLineRight(nodes, arrows[j]);
    var k := arrows[i].line - 1;
    assert arrows[i] in arrows && lines[k] == ArrowLine(arrows[i].edge);
    BadIs(lines, nodes, k);
    forall j: nat | j < k
      ensures !BadArrow(lines, nodes, j)
    {
      BadIs(lines, nodes, j);
      if lines[j].ArrowLine? {
        EarlierArrow(lines, arrows, j, i);
      }
    }
  }

  lemma BadIs(lines: seq<Line>, nodes: seq<NodeRecord>, k: nat)
    requires k < |lines|
    ensures BadArrow(lines, nodes, k) <==> lines[k].ArrowLine? && !EdgeLineRight(nodes, EdgeLine(lines[k].edge, k + 1))
  {
    if lines[k].ArrowLine? && lines[k].edge.EdgeText? {
      assert HasNode(nodes, lines[k].edge.from) <==> HasId(nodes, lines[k].edge.from);
      assert HasNode(nodes, lines[k].edge.to) <==> HasId(nodes, lines[k].edge.to);
    }
  }

  lemma EarlierArrow(lines: seq<Line>, arrows: seq<EdgeLine>, j: nat, i: nat)
    requires arrows == EdgesOf(lines, |lines|) && i < |arrows| && j < |lines| && lines[j].ArrowLine?
    requires j + 1 < arrows[i].line
    ensures exists l :: 0 <= l < i && arrows[l] == EdgeLine(lines[j].edge, j + 1)
  {
    hide EdgesOf;
    EdgeLinesAreLines(lines, |lines|);
    assert EdgeLine(lines[j].edge, j + 1) in arrows;
    var l :| 0 <= l < |arrows| && arrows[l] == EdgeLine(lines[j].edge, j + 1);
    assert l < i;
  }

  // ----- lanes -----

  ghost predicate Missing(d: Diagram, lane: nat, t: string) {
    forall k: nat :: !Candidate(d, lane, t, k)
  }

  ghost predicate Carrying(d: Diagram, t: string, k: nat) {
    k < |d.nodes| && d.nodes[k].shape == Stadium && d.nodes[k].agentLabel == t
  }

  /** The line of the first agent carrying the label anywhere, or 1. */
  ghost predicate LineFor(d: Diagram, t: string, line: nat) {
    if exists k: nat :: Carrying(d, t, k) then
      exists k: nat :: Carrying(d, t, k) && line == d.nodes[k].line && forall j: nat :: j < k ==> !Carrying(d, t, j)
    else line == 1
  }

  lemma LineSays(d: Diagram, t: string)
    ensures LineFor(d, t, LineOf(d.nodes, t))
  {
    var k := 0;
    while k < |d.nodes| && !Carrying(d, t, k)
      invariant k <= |d.nodes| && forall j: nat :: j < k ==> !Carrying(d, t, j)
    {
      k := k + 1;
    }
    forall j | 0 <= j < k
      ensures !(d.nodes[j].shape == Stadium && d.nodes[j].agentLabel == t)
    {
      assert !Carrying(d, t, j);
    }
    LineOfIs(d.nodes, t, k);
  }

  /** The first label of a list that its lane misses, and the line named for it. */
  ghost predicate FirstMissing(d: Diagram, labels: seq<string>, lane: nat, line: nat) {
    exists j: nat :: j < |labels| && Missing(d, lane, labels[j]) && LineFor(d, labels[j], line)
      && forall i: nat :: i < j ==> !Missing(d, lane, labels[i])
  }

  ghost predicate MissesSome(d: Diagram, labels: seq<string>, lane: nat) {
    exists t :: t in labels && Missing(d, lane, t)
  }

  ghost predicate OtherTitle(d: Diagram, l: Lane) {
    l.title.Some? && l.index < |d.blocks| && d.blocks[l.index].title != l.title.value
  }

  /** The wrong number of blocks, the first block with another title, the first slot that misses a label, the first
      lane that misses one. */
  ghost predicate LaneSays(d: Diagram, x: ExpectedGraph, line: nat) {
    if |d.blocks| != |x.lanes| then line == 1
    else if exists l :: l in x.lanes && OtherTitle(d, l) then
      exists i: nat :: i < |x.lanes| && OtherTitle(d, x.lanes[i]) && line == d.blocks[x.lanes[i].index].line
        && forall j: nat :: j < i ==> !OtherTitle(d, x.lanes[j])
    else if exists s :: s in x.slots && MissesSome(d, s.labels, s.lane) then
      exists i: nat :: i < |x.slots| && FirstMissing(d, x.slots[i].labels, x.slots[i].lane, line)
        && forall j: nat :: j < i ==> !MissesSome(d, x.slots[j].labels, x.slots[j].lane)
    else
      exists i: nat :: i < |x.lanes| && FirstMissing(d, x.lanes[i].dynamicLabels, x.lanes[i].index, line)
        && forall j: nat :: j < i ==> !MissesSome(d, x.lanes[j].dynamicLabels, x.lanes[j].index)
  }

  lemma MissingIs(d: Diagram, lane: nat, t: string)
    ensures Missing(d, lane, t) <==> NodeInLane(d, t, lane).None?
  {
    PlacedIs(d, lane, t);
    hide NodeInLane, Candidate;
  }

  lemma PlacedAll(d: Diagram, labels: seq<string>, lane: nat)
    ensures AllPlaced(d, labels, lane) <==> !MissesSome(d, labels, lane)
  {
    forall t | t in labels
      ensures Missing(d, lane, t) <==> NodeInLane(d, t, lane).None?
    {
      MissingIs(d, lane, t);
    }
    hide Missing, NodeInLane;
  }

  lemma MissesFirst(d: Diagram, labels: seq<string>, lane: nat, t: string)
    requires Misses(d, labels, lane, t)
    ensures FirstMissing(d, labels, lane, LineOf(d.nodes, t))
  {
    LineSays(d, t);
    var j: nat :| j < |labels| && labels[j] == t && NodeInLane(d, t, lane).None?
                  && forall l :: 0 <= l < j ==> NodeInLane(d, labels[l], lane).Some?;
    forall i | 0 <= i <= j
      ensures Missing(d, lane, labels[i]) <==> NodeInLane(d, labels[i], lane).None?
    {
      MissingIs(d, lane, labels[i]);
    }
    hide Missing, NodeInLane, LineFor;
  }

  lemma LaneFaultSays(d: Diagram, x: ExpectedGraph, line: nat)
    requires LaneFault(x, d, line)
    ensures LaneSays(d, x, line)
  {
    forall labels, lane: nat
      ensures AllPlaced(d, labels, lane) <==> !MissesSome(d, labels, lane)
    {
      PlacedAll(d, labels, lane);
    }
    forall labels, lane: nat, t | Misses(d, labels, lane, t)
      ensures FirstMissing(d, labels, lane, LineOf(d.nodes, t))
    {
      MissesFirst(d, labels, lane, t);
    }
    hide AllPlaced, MissesSome, Misses, FirstMissing, LineOf;
  }

  // ----- edges -----

  ghost predicate Bare(e: EdgeRecord) {
    e.caption == None || e.caption == Some("")
  }

  /** Both ends stand for one parallel or alt slot of two labels or more. */
  ghost predicate Within(d: Diagram, s: Slot, e: EdgeRecord) {
    s.kind != Single && |s.labels| >= 2 && StandsFor(d, s, e.from) && StandsFor(d, s, e.to)
  }

  ghost predicate AcrossGroup(d: Diagram, x: ExpectedGraph, s: Slot, e: EdgeRecord) {
    s.altGroup.Some? && Across(d, x, s.altGroup.value, e)
  }

  /** Line 1 for an expected edge nobody drew; else the first edge that is not expected; else the first edge inside
      the first slot that has one; else the first edge across the group of the first slot that has one. */
  ghost predicate EdgeSays(d: Diagram, script: set<string>, primitives: set<string>, x: ExpectedGraph, line: nat) {
    if !EdgesDrawn(d, script, primitives, x) then line == 1
    else if !EdgesExpected(d, x) then
      exists i: nat :: i < |d.edges| && Bare(d.edges[i]) && Unexpected(d, x, d.edges[i]) && line == d.edges[i].line
        && forall j: nat :: j < i ==> !(Bare(d.edges[j]) && Unexpected(d, x, d.edges[j]))
    else if !MembersApart(d, x) then
      exists i: nat, k: nat :: i < |x.slots| && k < |d.edges| && Within(d, x.slots[i], d.edges[k])
        && line == d.edges[k].line
        && (forall l: nat :: l < k ==> !Within(d, x.slots[i], d.edges[l]))
        && (forall j: nat, e :: j < i && e in d.edges ==> !Within(d, x.slots[j], e))
    else
      exists i: nat, k: nat :: i < |x.slots| && k < |d.edges| && AcrossGroup(d, x, x.slots[i], d.edges[k])
        && line == d.edges[k].line
        && (forall l: nat :: l < k ==> !AcrossGroup(d, x, x.slots[i], d.edges[l]))
        && (forall j: nat, e :: j < i && e in d.edges ==> !AcrossGroup(d, x, x.slots[j], e))
  }

  lemma StrayIs(d: Diagram, x: ExpectedGraph, e: EdgeRecord)
    requires Once(d.nodes)
    ensures Stray(x, d, e) <==> Bare(e) && Unexpected(d, x, e)
  {
    StrayIff(d, x, e);
    hide Stray, Unexpected;
  }

  lemma InsideIs(d: Diagram, s: Slot, e: EdgeRecord)
    ensures InsideSlot(d, s, e) <==> Within(d, s, e)
  {
    InsideIff(d, s, e);
    hide InsideSlot, StandsFor;
  }

  lemma AcrossIs(d: Diagram, x: ExpectedGraph, s: Slot, e: EdgeRecord)
    ensures AcrossArms(x, d, s, e) <==> AcrossGroup(d, x, s, e)
  {
    hide JoinsArms, Across, Arms;
    if s.altGroup.Some? {
      JoinsIff(d, x, s.altGroup.value, e);
    }
  }

  lemma EdgeFaultSays(d: Diagram, script: set<string>, primitives: set<string>, x: ExpectedGraph, line: nat)
    requires Once(d.nodes) && EdgeFault(x, d, PrimitiveIds(d.nodes, script, primitives), line)
    ensures EdgeSays(d, script, primitives, x, line)
  {
    hide Stray, Unexpected, InsideSlot, Within, AcrossArms, AcrossGroup, AllRealised, EdgesDrawn, NoneStray,
      EdgesExpected, NoneInside, MembersApart, PrimitiveIds, Once, Bare;
    AllRealisedIff(d, script, primitives, x);
    NoneStrayIff(d, x);
    NoneInsideIff(d, x);
    forall e
      ensures Stray(x, d, e) <==> Bare(e) && Unexpected(d, x, e)
    {
      StrayIs(d, x, e);
    }
    forall s, e
      ensures InsideSlot(d, s, e) <==> Within(d, s, e)
      ensures AcrossArms(x, d, s, e) <==> AcrossGroup(d, x, s, e)
    {
      InsideIs(d, s, e);
      AcrossIs(d, x, s, e);
    }
  }

  // ----- the whole refusal -----

  /** What a verdict says about the lines it was given. */
  ghost predicate Says(r: Verdict, lines: seq<Line>, script: set<string>, primitives: set<string>, x: ExpectedGraph,
        blocks: seq<SubgraphBlock>)
  {
    var d := DiagramOf(lines, blocks);
    match r
    case Accept => true
    case Mismatch(onlyInScript, onlyInDiagram) =>
      && ArrowsReadable(lines, d.nodes) && (forall n :: n in d.nodes && n.shape == Stadium ==> n.labelOk)
      && (forall t :: t in onlyInScript <==> t in script && forall k: nat :: !Carrying(d, t, k))
      && (forall t :: t in onlyInDiagram <==> t !in script && t !in primitives && exists k: nat :: Carrying(d, t, k))
    case Refuse(AgentLabelFormat, line) =>
      && ArrowsReadable(lines, d.nodes)
      && exists i: nat :: i < |d.nodes| && d.nodes[i].shape == Stadium && !d.nodes[i].labelOk && line == d.nodes[i].line
           && forall j: nat :: j < i && d.nodes[j].shape == Stadium ==> d.nodes[j].labelOk
    case Refuse(LoopLabel, line) =>
      ArrowsReadable(lines, d.nodes) && AgentsMatch(d.nodes, script, primitives) && FirstLoop(d, line)
    case Refuse(DiagramDirection, line) =>
      && ArrowsReadable(lines, d.nodes) && AgentsMatch(d.nodes, script, primitives) && (forall k: nat :: !LoopAt(d, k))
      && (lines == [] || lines[0] != Header(true)) && line == 1
    case Refuse(LaneMismatch, line) => lines != [] && lines[0] == Header(true) && LaneSays(d, x, line)
    case Refuse(EdgeMismatch, line) => LanesDrawn(d, x) && EdgeSays(d, script, primitives, x, line)
    case Refuse(rule, line) => FirstBadArrow(lines, d.nodes, rule, line)
  }

  lemma MismatchSays(d: Diagram, script: set<string>, primitives: set<string>)
    ensures var drawn := DiagramCheck.Drawn(d.nodes, script, primitives);
      && (forall t :: t in script - drawn <==> t in script && forall k: nat :: !Carrying(d, t, k))
      && (forall t :: t in drawn - script <==> t !in script && t !in primitives && exists k: nat :: Carrying(d, t, k))
  {
    var drawn := DiagramCheck.Drawn(d.nodes, script, primitives);
    forall t
      ensures t in script - drawn <==> t in script && forall k: nat :: !Carrying(d, t, k)
      ensures t in drawn - script <==> t !in script && t !in primitives && exists k: nat :: Carrying(d, t, k)
    {
      MismatchIs(d.nodes, script, primitives, t);
      CarryingIs(d, t);
    }
  }

  lemma CarryingIs(d: Diagram, t: string)
    ensures (exists k: nat :: Carrying(d, t, k))
      <==> exists n :: n in d.nodes && n.shape == Stadium && n.agentLabel == t
  {
    if n :| n in d.nodes && n.shape == Stadium && n.agentLabel == t {
      var k: nat :| k < |d.nodes| && d.nodes[k] == n;
      assert Carrying(d, t, k);
    }
    if k: nat :| Carrying(d, t, k) {
      assert d.nodes[k] in d.nodes;
    }
  }

  /** Every verdict means what it says: the first rule broken in the order of the check, and the first place. */
  lemma RefusalMeans(r: Verdict, lines: seq<Line>, script: set<string>, primitives: set<string>, x: ExpectedGraph,
        blocks: seq<SubgraphBlock>)
    requires Accepted(lines) && Explained(r, lines, script, primitives, x, blocks)
    ensures Says(r, lines, script, primitives, x, blocks)
  {
    hide EdgeLineRight, ArrowsReadable, LoopAt, LanesRight, LanesDrawn, NoLoopUnlabelled, NodesOf, EdgesOf, EdgeRecords,
      DirectedOnly, PrimitiveIds, Once, Carrying, LaneFault, LaneSays, EdgeFault, EdgeSays, TableFault, FirstBadArrow,
      LoopFault, FirstLoop;
    var d := DiagramOf(lines, blocks);
    NodesOnce(lines);
    ReadableIff(lines, d.nodes);
    LoopRule(d, if r.Refuse? then r.line else 0);
    LanesIff(d, x);
    match r
    case Accept =>
    case Mismatch(_, _) => MismatchSays(d, script, primitives);
    case Refuse(rule, line) =>
      if rule == LaneMismatch {
        LaneFaultSays(d, x, line);
      } else if rule == EdgeMismatch {
        EdgeFaultSays(d, script, primitives, x, line);
      } else if TableFault(d.nodes, EdgesOf(lines, |lines|), rule, line) {
        TableSays(lines, d.nodes, rule, line);
      }
  }
}
