/** What acceptance of a diagram means, said of its node, edge and block records alone. */
module DiagramMeaning {
  import opened Reachability
  import opened DiagramLines
  import opened DiagramCheck
  import EdgeRealisation
  import CycleLabels

  // ----- the nodes of a slot -----

  ghost predicate Candidate(d: Diagram, lane: nat, agentLabel: string, k: nat) {
    && k < |d.nodes| && lane < |d.blocks|
    && d.nodes[k].shape == Stadium && d.nodes[k].agentLabel == agentLabel && d.nodes[k].id in d.blocks[lane].nodeIds
  }

  /** Record `k` is the first agent in the slot's lane with one of the slot's labels. */
  ghost predicate Stands(d: Diagram, s: Slot, k: nat) {
    && k < |d.nodes| && d.nodes[k].agentLabel in s.labels && Candidate(d, s.lane, d.nodes[k].agentLabel, k)
    && forall j: nat :: j < k ==> !Candidate(d, s.lane, d.nodes[k].agentLabel, j)
  }

  ghost predicate StandsFor(d: Diagram, s: Slot, id: NodeId) {
    exists k: nat :: Stands(d, s, k) && d.nodes[k].id == id
  }

  lemma {:induction false} FirstFound(nodes: seq<NodeRecord>, agentLabel: string, ids: set<NodeId>, k: nat)
    requires k < |nodes| && nodes[k].shape == Stadium && nodes[k].agentLabel == agentLabel && nodes[k].id in ids
    requires forall j :: 0 <= j < k ==>
      !(nodes[j].shape == Stadium && nodes[j].agentLabel == agentLabel && nodes[j].id in ids)
    ensures FindNode(nodes, agentLabel, ids) == Some(nodes[k])
  {
    if k > 0 {
      FirstFound(nodes[1..], agentLabel, ids, k - 1);
    }
  }

  lemma {:induction false} FoundFirst(nodes: seq<NodeRecord>, agentLabel: string, ids: set<NodeId>) returns (k: nat)
    requires FindNode(nodes, agentLabel, ids).Some?
    ensures k < |nodes| && nodes[k] == FindNode(nodes, agentLabel, ids).value
    ensures nodes[k].shape == Stadium && nodes[k].agentLabel == agentLabel && nodes[k].id in ids
    ensures forall j :: 0 <= j < k ==>
      !(nodes[j].shape == Stadium && nodes[j].agentLabel == agentLabel && nodes[j].id in ids)
  {
    if nodes[0].shape.Stadium? && nodes[0].agentLabel == agentLabel && nodes[0].id in ids {
      k := 0;
    } else {
      k := FoundFirst(nodes[1..], agentLabel, ids);
      k := k + 1;
    }
  }

  lemma {:induction false} LabelsStand(d: Diagram, labels: seq<string>, lane: nat, id: NodeId)
    ensures id in IdsForLabels(d, labels, lane)
      <==> exists t :: t in labels && NodeInLane(d, t, lane).Some? && NodeInLane(d, t, lane).value.id == id
  {
    hide NodeInLane;
    if labels != [] {
      LabelsStand(d, labels[1..], lane, id);
      assert labels == [labels[0]] + labels[1..];
    }
  }

  /** The nodes the check looks up for a slot are the first ones drawn for its labels. */
  lemma SlotNodes(d: Diagram, s: Slot, id: NodeId)
    ensures id in IdsForSlot(d, s) <==> StandsFor(d, s, id)
  {
    LabelsStand(d, s.labels, s.lane, id);
    hide IdsForLabels, FindNode;
    if id in IdsForSlot(d, s) {
      var t :| t in s.labels && NodeInLane(d, t, s.lane).Some? && NodeInLane(d, t, s.lane).value.id == id;
      var k := FoundFirst(d.nodes, t, d.blocks[s.lane].nodeIds);
      assert Stands(d, s, k);
    }
    if StandsFor(d, s, id) {
      var k: nat :| Stands(d, s, k) && d.nodes[k].id == id;
      var t := d.nodes[k].agentLabel;
      forall j: nat | j < k
        ensures !(d.nodes[j].shape == Stadium && d.nodes[j].agentLabel == t
          && d.nodes[j].id in d.blocks[s.lane].nodeIds)
      {
        assert !Candidate(d, s.lane, t, j);
      }
      FirstFound(d.nodes, t, d.blocks[s.lane].nodeIds, k);
      assert NodeInLane(d, t, s.lane).Some?;
    }
  }

  // ----- lookups -----

  /** The declared ids are pairwise distinct, as in every accepted diagram. */
  ghost predicate Once(nodes: seq<NodeRecord>) {
    forall i, j :: 0 <= i < j < |nodes| ==> nodes[i].id != nodes[j].id
  }

  lemma {:induction false} NodeMapHolds(nodes: seq<NodeRecord>, id: NodeId)
    requires Once(nodes)
    ensures id in NodeMap(nodes) ==> NodeMap(nodes)[id] in nodes && NodeMap(nodes)[id].id == id
    ensures forall n :: n in nodes && n.id == id ==> id in NodeMap(nodes) && NodeMap(nodes)[id] == n
  {
    if nodes != [] {
      NodeMapHolds(nodes[..|nodes| - 1], id);
      assert nodes == nodes[..|nodes| - 1] + [nodes[|nodes| - 1]];
    }
  }

  /** The last slot with that index. */
  ghost predicate Numbered(slots: seq<Slot>, index: int, i: nat) {
    i < |slots| && slots[i].index == index && forall j :: i < j < |slots| ==> slots[j].index != index
  }

  lemma {:induction false} SlotByIdFinds(slots: seq<Slot>, index: int, i: nat)
    ensures Numbered(slots, index, i) ==> SlotById(slots, index) == Some(slots[i])
    ensures SlotById(slots, index) == None <==> forall s :: s in slots ==> s.index != index
  {
    if slots != [] {
      SlotByIdFinds(slots[..|slots| - 1], index, i);
      assert slots == slots[..|slots| - 1] + [slots[|slots| - 1]];
    }
  }

  lemma {:induction false} NumberedExists(slots: seq<Slot>, index: int) returns (i: nat)
    requires exists s :: s in slots && s.index == index
    ensures Numbered(slots, index, i)
  {
    var s :| s in slots && s.index == index;
    i := |slots| - 1;
    if slots[i].index != index {
      assert slots == slots[..i] + [slots[i]];
      assert s in slots[..i];
      i := NumberedExists(slots[..i], index);
    }
  }

  /** The last slot the node stands for. */
  ghost predicate Belongs(d: Diagram, slots: seq<Slot>, id: NodeId, i: nat) {
    i < |slots| && StandsFor(d, slots[i], id) && forall j :: i < j < |slots| ==> !StandsFor(d, slots[j], id)
  }

  lemma {:induction false} SlotOfFinds(d: Diagram, slots: seq<Slot>, id: NodeId, i: nat)
    ensures Belongs(d, slots, id, i) ==> SlotOf(d, slots, id) == Some(slots[i].index)
    ensures SlotOf(d, slots, id) == None <==> forall s :: s in slots ==> !StandsFor(d, s, id)
  {
    hide StandsFor, IdsForSlot;
    if slots != [] {
      SlotNodes(d, slots[|slots| - 1], id);
      SlotOfFinds(d, slots[..|slots| - 1], id, i);
      assert slots == slots[..|slots| - 1] + [slots[|slots| - 1]];
    }
  }

  lemma {:induction false} BelongsExists(d: Diagram, slots: seq<Slot>, id: NodeId) returns (i: nat)
    requires exists s :: s in slots && StandsFor(d, s, id)
    ensures Belongs(d, slots, id, i)
  {
    hide StandsFor;
    var s :| s in slots && StandsFor(d, s, id);
    i := |slots| - 1;
    if !StandsFor(d, slots[i], id) {
      assert slots == slots[..i] + [slots[i]];
      assert s in slots[..i];
      i := BelongsExists(d, slots[..i], id);
    }
  }

  // ----- the edge rules -----

  /** A drawn agent; a node with a primitive's label is none. */
  ghost predicate Agent(d: Diagram, script: set<string>, primitives: set<string>, id: NodeId) {
    exists n :: n in d.nodes && n.id == id && n.shape == Stadium
      && (n.agentLabel in primitives ==> n.agentLabel in script)
  }

  ghost predicate Joined(d: Diagram, a: NodeId, b: NodeId) {
    exists e :: e in d.edges && ((e.from == a && e.to == b) || (e.arrow == Both && e.from == b && e.to == a))
  }

  /** A path along the drawn edges, `<-->` in both directions, with no agent strictly between its ends. */
  ghost predicate Path(d: Diagram, script: set<string>, primitives: set<string>, p: seq<NodeId>) {
    && |p| > 0
    && (forall i :: 0 < i < |p| ==> Joined(d, p[i - 1], p[i]))
    && (forall i :: 0 < i < |p| - 1 ==> !Agent(d, script, primitives, p[i]))
  }

  ghost predicate Linked(d: Diagram, script: set<string>, primitives: set<string>, s: Slot, t: Slot) {
    exists p :: Path(d, script, primitives, p) && StandsFor(d, s, p[0]) && StandsFor(d, t, p[|p| - 1])
  }

  /** (a) Each expected edge is drawn as a path from a node of the one slot to a node of the other. */
  ghost predicate EdgesDrawn(d: Diagram, script: set<string>, primitives: set<string>, x: ExpectedGraph) {
    forall ee, i: nat, j: nat :: ee in x.edges && Numbered(x.slots, ee.0, i) && Numbered(x.slots, ee.1, j) ==>
      Linked(d, script, primitives, x.slots[i], x.slots[j])
  }

  /** The edge joins nodes of two slots that are not expected to be joined. */
  ghost predicate Unexpected(d: Diagram, x: ExpectedGraph, e: EdgeRecord) {
    exists i: nat, j: nat ::
      && Belongs(d, x.slots, e.from, i) && Belongs(d, x.slots, e.to, j)
      && (x.slots[i].index, x.slots[j].index) !in x.edges && (x.slots[j].index, x.slots[i].index) !in x.edges
  }

  /** (b) An edge between agents of two slots is expected, in one direction or the other, or has a label. */
  ghost predicate EdgesExpected(d: Diagram, x: ExpectedGraph) {
    forall e :: e in d.edges && Unexpected(d, x, e) ==> e.caption.Some? && e.caption.value != ""
  }

  /** (c) No edge joins two members of one parallel or alt slot. */
  ghost predicate MembersApart(d: Diagram, x: ExpectedGraph) {
    forall s, e :: s in x.slots && s.kind != Single && |s.labels| >= 2 && e in d.edges ==>
      !(StandsFor(d, s, e.from) && StandsFor(d, s, e.to))
  }

  /** The first arm of the group the node stands for. */
  ghost predicate Arm(d: Diagram, slots: seq<Slot>, group: int, id: NodeId, i: nat) {
    && i < |slots| && slots[i].altGroup == Some(group) && StandsFor(d, slots[i], id)
    && forall j :: 0 <= j < i && slots[j].altGroup == Some(group) ==> !StandsFor(d, slots[j], id)
  }

  /** (c2) No edge joins two arms of one alt group. */
  ghost predicate GroupsApart(d: Diagram, x: ExpectedGraph) {
    forall e, group :: e in d.edges ==> !Across(d, x, group, e)
  }

  ghost predicate Across(d: Diagram, x: ExpectedGraph, group: int, e: EdgeRecord) {
    exists i: nat, j: nat ::
      Arm(d, x.slots, group, e.from, i) && Arm(d, x.slots, group, e.to, j) && x.slots[i].index != x.slots[j].index
  }

  lemma BlocksAgents(d: Diagram, script: set<string>, primitives: set<string>, id: NodeId)
    requires Once(d.nodes)
    ensures EdgeRealisation.Blocks(NodeMap(d.nodes), PrimitiveIds(d.nodes, script, primitives), id)
      <==> Agent(d, script, primitives, id)
  {
    NodeMapHolds(d.nodes, id);
    hide NodeMap;
    forall n, m | n in d.nodes && m in d.nodes && n.id == id && m.id == id
      ensures n == m
    {
    }
  }

  lemma PathIsRoute(d: Diagram, script: set<string>, primitives: set<string>, p: seq<NodeId>)
    requires Once(d.nodes)
    ensures Path(d, script, primitives, p)
      <==> EdgeRealisation.IsRoute(d.edges, NodeMap(d.nodes), PrimitiveIds(d.nodes, script, primitives), p)
  {
    hide EdgeRealisation.Blocks, Agent, NodeMap, PrimitiveIds;
    forall i | 0 < i < |p| - 1
      ensures EdgeRealisation.Blocks(NodeMap(d.nodes), PrimitiveIds(d.nodes, script, primitives), p[i])
        <==> Agent(d, script, primitives, p[i])
    {
      BlocksAgents(d, script, primitives, p[i]);
    }
    forall i | 0 < i < |p|
      ensures Joined(d, p[i - 1], p[i]) <==> EdgeRealisation.Hop(d.edges, p[i - 1], p[i])
    {
    }
    hide Joined, EdgeRealisation.Hop;
  }

  lemma RealisedIsDrawn(d: Diagram, script: set<string>, primitives: set<string>, x: ExpectedGraph, ee: (int, int),
        i: nat, j: nat)
    requires Once(d.nodes) && Numbered(x.slots, ee.0, i) && Numbered(x.slots, ee.1, j)
    ensures Realised(x, d, PrimitiveIds(d.nodes, script, primitives), ee)
      <==> Linked(d, script, primitives, x.slots[i], x.slots[j])
  {
    SlotByIdFinds(x.slots, ee.0, i);
    SlotByIdFinds(x.slots, ee.1, j);
    var f, t, ids := x.slots[i], x.slots[j], PrimitiveIds(d.nodes, script, primitives);
    hide StandsFor, IdsForSlot, SlotById, NodeMap, PrimitiveIds, EdgeRealisation.IsRoute, Path, Numbered, Once;
    if Realised(x, d, ids, ee) {
      var s :| s in IdsForSlot(d, f) && EdgeRealisation.Routed(d.edges, NodeMap(d.nodes), ids, s,
        SetOf(IdsForSlot(d, t)));
      var p :| EdgeRealisation.IsRoute(d.edges, NodeMap(d.nodes), ids, p) && p[0] == s
        && p[|p| - 1] in SetOf(IdsForSlot(d, t));
      PathIsRoute(d, script, primitives, p);
      SlotNodes(d, f, s);
      SlotNodes(d, t, p[|p| - 1]);
    }
    if p :| Path(d, script, primitives, p) && StandsFor(d, f, p[0]) && StandsFor(d, t, p[|p| - 1]) {
      PathIsRoute(d, script, primitives, p);
      SlotNodes(d, f, p[0]);
      SlotNodes(d, t, p[|p| - 1]);
      assert EdgeRealisation.Routed(d.edges, NodeMap(d.nodes), ids, p[0], SetOf(IdsForSlot(d, t)));
    }
  }

  lemma AllRealisedIff(d: Diagram, script: set<string>, primitives: set<string>, x: ExpectedGraph)
    requires Once(d.nodes)
    ensures AllRealised(x, d, PrimitiveIds(d.nodes, script, primitives)) <==> EdgesDrawn(d, script, primitives, x)
  {
    var ids := PrimitiveIds(d.nodes, script, primitives);
    hide PrimitiveIds, Linked, Once, SlotById, EdgeRealisation.Routed, IdsForSlot, NodeMap, SetOf;
    forall ee, i: nat, j: nat | ee in x.edges && Numbered(x.slots, ee.0, i) && Numbered(x.slots, ee.1, j)
      ensures Realised(x, d, ids, ee) <==> Linked(d, script, primitives, x.slots[i], x.slots[j])
    {
      RealisedIsDrawn(d, script, primitives, x, ee, i, j);
    }
    forall ee | ee in x.edges && EdgesDrawn(d, script, primitives, x)
      ensures Realised(x, d, ids, ee)
    {
      SlotByIdFinds(x.slots, ee.0, 0);
      SlotByIdFinds(x.slots, ee.1, 0);
      if SlotById(x.slots, ee.0).Some? && SlotById(x.slots, ee.1).Some? {
        var i := NumberedExists(x.slots, ee.0);
        var j := NumberedExists(x.slots, ee.1);
        RealisedIsDrawn(d, script, primitives, x, ee, i, j);
      }
    }
  }

  lemma StandsIsStadium(d: Diagram, s: Slot, id: NodeId)
    requires Once(d.nodes) && StandsFor(d, s, id)
    ensures IsStadium(d, id)
  {
    var k: nat :| Stands(d, s, k) && d.nodes[k].id == id;
    NodeMapHolds(d.nodes, id);
    assert d.nodes[k] in d.nodes;
  }

  /** Edge `e` breaks rule (b). */
  lemma StrayIff(d: Diagram, x: ExpectedGraph, e: EdgeRecord)
    requires Once(d.nodes)
    ensures Stray(x, d, e) <==>
      (e.caption == None || e.caption == Some("")) && Unexpected(d, x, e)
  {
    hide StandsFor, IdsForSlot, NodeMap, IsStadium, Once, SlotOf;
    SlotOfFinds(d, x.slots, e.from, 0);
    SlotOfFinds(d, x.slots, e.to, 0);
    if SlotOf(d, x.slots, e.from).Some? && SlotOf(d, x.slots, e.to).Some? {
      var i := BelongsExists(d, x.slots, e.from);
      var j := BelongsExists(d, x.slots, e.to);
      SlotOfFinds(d, x.slots, e.from, i);
      SlotOfFinds(d, x.slots, e.to, j);
      StandsIsStadium(d, x.slots[i], e.from);
      StandsIsStadium(d, x.slots[j], e.to);
    }
    forall i: nat, j: nat | Belongs(d, x.slots, e.from, i) && Belongs(d, x.slots, e.to, j)
      ensures SlotOf(d, x.slots, e.from) == Some(x.slots[i].index) && SlotOf(d, x.slots, e.to) == Some(x.slots[j].index)
    {
      SlotOfFinds(d, x.slots, e.from, i);
      SlotOfFinds(d, x.slots, e.to, j);
    }
  }

  lemma NoneStrayIff(d: Diagram, x: ExpectedGraph)
    requires Once(d.nodes)
    ensures NoneStray(x, d) <==> EdgesExpected(d, x)
  {
    hide Unexpected, Stray, Once;
    forall e | e in d.edges
      ensures Stray(x, d, e) <==>
        (e.caption == None || e.caption == Some("")) && Unexpected(d, x, e)
    {
      StrayIff(d, x, e);
    }
  }

  lemma InsideIff(d: Diagram, s: Slot, e: EdgeRecord)
    ensures InsideSlot(d, s, e) <==>
      s.kind != Single && |s.labels| >= 2 && StandsFor(d, s, e.from) && StandsFor(d, s, e.to)
  {
    SlotNodes(d, s, e.from);
    SlotNodes(d, s, e.to);
    hide StandsFor, IdsForSlot;
  }

  lemma NoneInsideIff(d: Diagram, x: ExpectedGraph)
    ensures NoneInside(x, d) <==> MembersApart(d, x)
  {
    hide InsideSlot, StandsFor;
    forall s, e | s in x.slots && e in d.edges
      ensures InsideSlot(d, s, e) <==>
        s.kind != Single && |s.labels| >= 2 && StandsFor(d, s, e.from) && StandsFor(d, s, e.to)
    {
      InsideIff(d, s, e);
    }
  }

  lemma NoArms(d: Diagram, group: int, id: NodeId)
    ensures FirstArm(d, Arms([], group), id) == None
  {
  }

  lemma ArmsNext(d: Diagram, slots: seq<Slot>, group: int, id: NodeId)
    requires slots != []
    ensures FirstArm(d, Arms(slots, group), id) ==
      if slots[0].altGroup == Some(group) && id in IdsForSlot(d, slots[0]) then Some(slots[0])
      else FirstArm(d, Arms(slots[1..], group), id)
  {
    hide IdsForSlot;
    var arms := Arms(slots[1..], group);
    assert Arms(slots, group) == if slots[0].altGroup == Some(group) then [slots[0]] + arms else arms;
    assert ([slots[0]] + arms)[1..] == arms;
  }

  lemma {:induction false} FirstArmIs(d: Diagram, slots: seq<Slot>, group: int, id: NodeId, i: nat)
    requires Arm(d, slots, group, id, i)
    ensures FirstArm(d, Arms(slots, group), id) == Some(slots[i])
  {
    hide StandsFor, IdsForSlot, Arms, FirstArm;
    ArmsNext(d, slots, group, id);
    SlotNodes(d, slots[0], id);
    if i > 0 {
      forall j | 0 <= j < i - 1 && slots[1..][j].altGroup == Some(group)
        ensures !StandsFor(d, slots[1..][j], id)
      {
        assert slots[1..][j] == slots[j + 1];
      }
      FirstArmIs(d, slots[1..], group, id, i - 1);
    }
  }

  lemma {:induction false} ArmExists(d: Diagram, slots: seq<Slot>, group: int, id: NodeId) returns (i: nat)
    requires slots != [] && FirstArm(d, Arms(slots, group), id).Some?
    ensures Arm(d, slots, group, id, i)
  {
    hide StandsFor, IdsForSlot, Arms, FirstArm;
    ArmsNext(d, slots, group, id);
    SlotNodes(d, slots[0], id);
    if slots[0].altGroup == Some(group) && StandsFor(d, slots[0], id) {
      i := 0;
    } else {
      NoArms(d, group, id);
      var rest := ArmExists(d, slots[1..], group, id);
      i := rest + 1;
      assert slots[i] == slots[1..][rest];
      forall j | 0 <= j < i && slots[j].altGroup == Some(group)
        ensures !StandsFor(d, slots[j], id)
      {
        assert j > 0 ==> slots[j] == slots[1..][j - 1];
      }
    }
  }

  lemma JoinsIff(d: Diagram, x: ExpectedGraph, group: int, e: EdgeRecord)
    ensures JoinsArms(d, Arms(x.slots, group), e) <==> Across(d, x, group, e)
  {
    hide StandsFor, FirstArm, Arms;
    if JoinsArms(d, Arms(x.slots, group), e) {
      NoArms(d, group, e.from);
      var i := ArmExists(d, x.slots, group, e.from);
      var j := ArmExists(d, x.slots, group, e.to);
      FirstArmIs(d, x.slots, group, e.from, i);
      FirstArmIs(d, x.slots, group, e.to, j);
    }
    if i: nat, j: nat :| Arm(d, x.slots, group, e.from, i) && Arm(d, x.slots, group, e.to, j)
                         && x.slots[i].index != x.slots[j].index {
      FirstArmIs(d, x.slots, group, e.from, i);
      FirstArmIs(d, x.slots, group, e.to, j);
    }
  }

  lemma AcrossHasSlot(d: Diagram, x: ExpectedGraph, group: int, e: EdgeRecord)
    requires Across(d, x, group, e)
    ensures exists s :: s in x.slots && AcrossArms(x, d, s, e)
  {
    JoinsIff(d, x, group, e);
    hide StandsFor, JoinsArms, Arms;
    var i: nat, j: nat :| Arm(d, x.slots, group, e.from, i) && Arm(d, x.slots, group, e.to, j);
    assert x.slots[i] in x.slots && AcrossArms(x, d, x.slots[i], e);
  }

  lemma NoneAcrossIff(d: Diagram, x: ExpectedGraph)
    ensures (forall s, e :: s in x.slots && e in d.edges ==> !AcrossArms(x, d, s, e)) <==> GroupsApart(d, x)
  {
    forall e, group
      ensures JoinsArms(d, Arms(x.slots, group), e) <==> Across(d, x, group, e)
    {
      JoinsIff(d, x, group, e);
    }
    forall e, group | e in d.edges && Across(d, x, group, e)
      ensures exists s :: s in x.slots && AcrossArms(x, d, s, e)
    {
      AcrossHasSlot(d, x, group, e);
    }
    hide Arms, JoinsArms, Across;
  }

  // ----- loops -----

  ghost predicate Arrow(d: Diagram, a: NodeId, b: NodeId) {
    exists e :: e in d.edges && e.arrow != Both && e.from == a && e.to == b
  }

  /** A walk along the drawn arrows. */
  ghost predicate Walk(d: Diagram, p: seq<NodeId>) {
    |p| > 0 && forall i :: 0 < i < |p| ==> Arrow(d, p[i - 1], p[i])
  }

  /** Arrow `k` has no label and its target walks back to its source. */
  ghost predicate LoopAt(d: Diagram, k: nat) {
    && k < |d.edges| && d.edges[k].arrow != Both && (d.edges[k].caption == None || d.edges[k].caption == Some(""))
    && exists p :: Walk(d, p) && p[0] == d.edges[k].to && p[|p| - 1] == d.edges[k].from
  }

  ghost predicate FirstLoop(d: Diagram, line: nat) {
    exists k: nat :: LoopAt(d, k) && line == d.edges[k].line && forall j: nat :: j < k ==> !LoopAt(d, j)
  }

  lemma {:induction false} ArrowsOnly(edges: seq<EdgeRecord>, e: EdgeRecord)
    ensures e in DirectedOnly(edges) <==> e in edges && e.arrow != Both
  {
    if edges != [] {
      ArrowsOnly(edges[1..], e);
      assert edges == [edges[0]] + edges[1..];
    }
  }

  lemma ArrowIsEdge(d: Diagram, a: NodeId, b: NodeId)
    ensures Arrow(d, a, b) <==> HasEdge(DirectedOnly(d.edges), a, b)
  {
    forall e
      ensures e in DirectedOnly(d.edges) <==> e in d.edges && e.arrow != Both
    {
      ArrowsOnly(d.edges, e);
    }
  }

  lemma WalkIs(d: Diagram, p: seq<NodeId>)
    ensures Walk(d, p) <==> IsWalk(DirectedOnly(d.edges), p)
  {
    forall i | 0 < i < |p|
      ensures Arrow(d, p[i - 1], p[i]) <==> HasEdge(DirectedOnly(d.edges), p[i - 1], p[i])
    {
      ArrowIsEdge(d, p[i - 1], p[i]);
    }
    hide Arrow, HasEdge, DirectedOnly;
  }

  lemma LoopIs(d: Diagram, k: nat)
    ensures LoopAt(d, k) <==>
      k < |d.edges| && d.edges[k].arrow != Both && CycleLabels.Offends(DirectedOnly(d.edges), d.edges[k])
  {
    if k < |d.edges| {
      ArrowsOnly(d.edges, d.edges[k]);
    }
    forall p
      ensures Walk(d, p) <==> IsWalk(DirectedOnly(d.edges), p)
    {
      WalkIs(d, p);
    }
    hide Walk, IsWalk, DirectedOnly;
  }

  lemma {:induction false} FirstKept(edges: seq<EdgeRecord>, bad: EdgeRecord -> bool, i: nat) returns (k: nat)
    requires i < |DirectedOnly(edges)| && bad(DirectedOnly(edges)[i])
    requires forall j :: 0 <= j < i ==> !bad(DirectedOnly(edges)[j])
    ensures k < |edges| && edges[k] == DirectedOnly(edges)[i]
    ensures forall j :: 0 <= j < k ==> edges[j].arrow == Both || !bad(edges[j])
  {
    if edges[0].arrow != Both && i == 0 {
      k := 0;
    } else {
      var rest := DirectedOnly(edges[1..]);
      var skip := if edges[0].arrow == Both then 0 else 1;
      assert forall j :: 0 <= j < |rest| ==> rest[j] == DirectedOnly(edges)[j + skip];
      assert skip == 1 ==> DirectedOnly(edges)[0] == edges[0];
      k := FirstKept(edges[1..], bad, i - skip);
      k := k + 1;
    }
  }

  /** The loop rule over all drawn arrows: none breaks it, or the one that does first is named. */
  lemma LoopRule(d: Diagram, line: nat)
    ensures NoLoopUnlabelled(DirectedOnly(d.edges)) <==> forall k: nat :: !LoopAt(d, k)
    ensures LoopFault(DirectedOnly(d.edges), line) ==> FirstLoop(d, line)
  {
    var arrows := DirectedOnly(d.edges);
    forall k: nat
      ensures LoopAt(d, k) <==> k < |d.edges| && d.edges[k].arrow != Both && CycleLabels.Offends(arrows, d.edges[k])
    {
      LoopIs(d, k);
    }
    forall e
      ensures e in arrows <==> e in d.edges && e.arrow != Both
    {
      ArrowsOnly(d.edges, e);
    }
    hide CycleLabels.Offends, LoopAt, DirectedOnly;
    if LoopFault(arrows, line) {
      var i: nat :| i < |arrows| && CycleLabels.Offends(arrows, arrows[i]) && line == arrows[i].line
                    && forall j :: 0 <= j < i ==> !CycleLabels.Offends(arrows, arrows[j]);
      var k := FirstKept(d.edges, e => CycleLabels.Offends(arrows, e), i);
      assert arrows[i] in arrows;
      assert LoopAt(d, k);
    }
    if forall k: nat :: !LoopAt(d, k) {
      forall e | e in arrows
        ensures !CycleLabels.Offends(arrows, e)
      {
        var k: nat :| k < |d.edges| && d.edges[k] == e;
        assert !LoopAt(d, k);
      }
    }
    forall k: nat
      ensures LoopAt(d, k) ==> d.edges[k] in arrows && CycleLabels.Offends(arrows, d.edges[k])
    {
    }
  }

  // ----- the lines -----

  /** A header stands first, a subgraph has a title, an `end` closes one that is open, an id is declared once, and
      nothing else is unknown. */
  ghost predicate LineRight(lines: seq<Line>, k: nat)
    requires k < |lines|
  {
    && (lines[k].Header? ==> k == 0) && (lines[k].Open? ==> lines[k].title != "") && lines[k] != Unrecognised
    && (lines[k].End? ==> Depth(lines, k) > 0)
    && (lines[k].NodeLine? ==> forall j :: 0 <= j < k && lines[j].NodeLine? ==> lines[j].id != lines[k].id)
  }

  lemma {:induction false} DepthIsNot(lines: seq<Line>, k: nat)
    requires k <= |lines| && forall j :: 0 <= j < k ==> OffenceAt(lines, j) == None
    ensures Depth(lines, k) >= 0
  {
    if k > 0 {
      DepthIsNot(lines, k - 1);
      assert OffenceAt(lines, k - 1) == None;
    }
  }

  /** The lines that break no rule, and the rule a line breaks after others that do not. */
  lemma LinesRight(lines: seq<Line>)
    ensures Accepted(lines) <==> forall k: nat :: k < |lines| ==> LineRight(lines, k)
    ensures forall k: nat :: k < |lines| && (forall j :: 0 <= j < k ==> OffenceAt(lines, j) == None) ==>
      OffenceAt(lines, k) ==
        if LineRight(lines, k) then None
        else if lines[k].Open? then Some(SubgraphTitle)
        else if lines[k].NodeLine? then Some(DuplicateNode)
        else Some(MermaidInvalid)
  {
    forall k: nat | k < |lines| && forall j :: 0 <= j < k ==> OffenceAt(lines, j) == None
      ensures OffenceAt(lines, k) ==
        if LineRight(lines, k) then None
        else if lines[k].Open? then Some(SubgraphTitle)
        else if lines[k].NodeLine? then Some(DuplicateNode)
        else Some(MermaidInvalid)
    {
      DepthIsNot(lines, k);
    }
    hide OffenceAt, LineRight, Depth;
    if forall k: nat :: k < |lines| ==> LineRight(lines, k) {
      for k := 0 to |lines|
        invariant forall j :: 0 <= j < k ==> OffenceAt(lines, j) == None
      {
        assert LineRight(lines, k);
      }
    }
  }

  // ----- the records and the lines -----

  /** The node records are the node lines, in their order. */
  lemma {:induction false} NodesAreLines(lines: seq<Line>, m: nat)
    requires m <= |lines|
    ensures forall n :: n in NodesOf(lines, m) <==>
      0 < n.line <= m && lines[n.line - 1] == NodeLine(n.id, n.shape, n.agentLabel, n.labelOk)
    ensures forall i, j :: 0 <= i < j < |NodesOf(lines, m)| ==> NodesOf(lines, m)[i].line < NodesOf(lines, m)[j].line
  {
    if m > 0 {
      NodesAreLines(lines, m - 1);
      var nodes := NodesOf(lines, m - 1);
      assert forall i :: 0 <= i < |nodes| ==> nodes[i] in nodes;
    }
  }

  lemma {:induction false} EdgeLinesAreLines(lines: seq<Line>, m: nat)
    requires m <= |lines|
    ensures forall l :: l in EdgesOf(lines, m) <==> 0 < l.line <= m && lines[l.line - 1] == ArrowLine(l.edge)
    ensures forall i, j :: 0 <= i < j < |EdgesOf(lines, m)| ==> EdgesOf(lines, m)[i].line < EdgesOf(lines, m)[j].line
  {
    if m > 0 {
      EdgeLinesAreLines(lines, m - 1);
      var front := EdgesOf(lines, m - 1);
      assert forall i :: 0 <= i < |front| ==> front[i] in front;
    }
  }

  lemma {:induction false} EdgesAreEdgeLines(edgeLines: seq<EdgeLine>)
    requires forall i, j :: 0 <= i < j < |edgeLines| ==> edgeLines[i].line < edgeLines[j].line
    ensures forall e :: e in EdgeRecords(edgeLines) <==>
      EdgeLine(EdgeText(e.from, e.to, e.arrow, e.caption), e.line) in edgeLines
    ensures forall i, j :: 0 <= i < j < |EdgeRecords(edgeLines)| ==>
      EdgeRecords(edgeLines)[i].line < EdgeRecords(edgeLines)[j].line
  {
    if edgeLines != [] {
      var front, last := edgeLines[..|edgeLines| - 1], edgeLines[|edgeLines| - 1];
      EdgesAreEdgeLines(front);
      assert edgeLines == front + [last];
      var records := EdgeRecords(front);
      forall i | 0 <= i < |records|
        ensures records[i].line < last.line
      {
        assert records[i] in records;
      }
    }
  }

  /** The edge records are the readable arrow lines, in their order. */
  lemma EdgesAreLines(lines: seq<Line>)
    ensures var edges := EdgeRecords(EdgesOf(lines, |lines|));
      && (forall e :: e in edges <==>
            0 < e.line <= |lines| && lines[e.line - 1] == ArrowLine(EdgeText(e.from, e.to, e.arrow, e.caption)))
      && (forall i, j :: 0 <= i < j < |edges| ==> edges[i].line < edges[j].line)
  {
    EdgeLinesAreLines(lines, |lines|);
    EdgesAreEdgeLines(EdgesOf(lines, |lines|));
  }

  lemma NodesOnce(lines: seq<Line>)
    requires Accepted(lines)
    ensures Once(NodesOf(lines, |lines|))
  {
    hide NodesOf, Accepted;
    NodesAreLines(lines, |lines|);
    var nodes := NodesOf(lines, |lines|);
    forall i, j | 0 <= i < j < |nodes|
      ensures nodes[i].id != nodes[j].id
    {
      assert nodes[i] in nodes && nodes[j] in nodes;
      if nodes[i].id == nodes[j].id {
        DeclaredOnce(lines, nodes[i].line - 1, nodes[j].line - 1);
      }
    }
  }

  // ----- the whole rule -----

  /** Every arrow line is readable and joins declared nodes. */
  ghost predicate ArrowsReadable(lines: seq<Line>, nodes: seq<NodeRecord>) {
    forall k :: 0 <= k < |lines| && lines[k].ArrowLine? ==>
      && lines[k].edge.EdgeText?
      && (exists n :: n in nodes && n.id == lines[k].edge.from) && (exists n :: n in nodes && n.id == lines[k].edge.to)
  }

  /** Every agent's label is well formed and known to the script; every agent of the script is drawn. */
  ghost predicate AgentsMatch(nodes: seq<NodeRecord>, script: set<string>, primitives: set<string>) {
    && (forall n :: n in nodes && n.shape == Stadium ==>
          n.labelOk && (n.agentLabel in script || n.agentLabel in primitives))
    && (forall t :: t in script ==> exists n :: n in nodes && n.shape == Stadium && n.agentLabel == t)
  }

  /** One block per lane, with the lane's title, and each expected label drawn in its lane. */
  ghost predicate LanesDrawn(d: Diagram, x: ExpectedGraph) {
    && |d.blocks| == |x.lanes|
    && (forall l :: l in x.lanes && l.title.Some? ==> l.index < |d.blocks| && Some(d.blocks[l.index].title) == l.title)
    && (forall s, t :: s in x.slots && t in s.labels ==> exists k: nat :: Candidate(d, s.lane, t, k))
    && (forall l, t :: l in x.lanes && t in l.dynamicLabels ==> exists k: nat :: Candidate(d, l.index, t, k))
  }

  lemma PlacedIs(d: Diagram, lane: nat, t: string)
    ensures NodeInLane(d, t, lane).Some? <==> exists k: nat :: Candidate(d, lane, t, k)
  {
    if NodeInLane(d, t, lane).Some? {
      var k: nat :| k < |d.nodes| && d.nodes[k] == NodeInLane(d, t, lane).value;
      assert Candidate(d, lane, t, k);
    }
    if k: nat :| Candidate(d, lane, t, k) {
      assert d.nodes[k] in d.nodes;
    }
  }

  /** The line named for a label a lane misses: that of the first agent carrying it anywhere, or 1. */
  lemma {:induction false} LineOfIs(nodes: seq<NodeRecord>, t: string, k: nat)
    requires k <= |nodes| && forall j :: 0 <= j < k ==> !(nodes[j].shape == Stadium && nodes[j].agentLabel == t)
    requires k < |nodes| ==> nodes[k].shape == Stadium && nodes[k].agentLabel == t
    ensures LineOf(nodes, t) == if k < |nodes| then nodes[k].line else 1
  {
    if k > 0 {
      LineOfIs(nodes[1..], t, k - 1);
    }
  }

  /** The two differences a mismatch reports. */
  lemma MismatchIs(nodes: seq<NodeRecord>, script: set<string>, primitives: set<string>, t: string)
    ensures t in script - DiagramCheck.Drawn(nodes, script, primitives)
      <==> t in script && forall n :: n in nodes && n.shape == Stadium ==> n.agentLabel != t
    ensures t in DiagramCheck.Drawn(nodes, script, primitives) - script
      <==> t !in script && t !in primitives && exists n :: n in nodes && n.shape == Stadium && n.agentLabel == t
  {
  }

  lemma LanesIff(d: Diagram, x: ExpectedGraph)
    ensures LanesRight(x, d) <==> LanesDrawn(d, x)
  {
    hide NodeInLane, Candidate;
    forall lane: nat, t
      ensures Placed(x, d, lane, t) <==> exists k: nat :: Candidate(d, lane, t, k)
    {
      PlacedIs(d, lane, t);
    }
    hide Placed;
  }

  lemma ReadableIff(lines: seq<Line>, nodes: seq<NodeRecord>)
    ensures (forall l :: l in EdgesOf(lines, |lines|) ==> EdgeLineRight(nodes, l)) <==> ArrowsReadable(lines, nodes)
  {
    EdgeLinesAreLines(lines, |lines|);
    var arrows := EdgesOf(lines, |lines|);
    hide EdgesOf;
    if forall l :: l in arrows ==> EdgeLineRight(nodes, l) {
      forall k | 0 <= k < |lines| && lines[k].ArrowLine?
        ensures EdgeLineRight(nodes, EdgeLine(lines[k].edge, k + 1))
      {
        assert EdgeLine(lines[k].edge, k + 1) in arrows;
      }
    }
    if ArrowsReadable(lines, nodes) {
      forall l | l in arrows
        ensures EdgeLineRight(nodes, l)
      {
        assert lines[l.line - 1].ArrowLine?;
      }
    }
  }

  /** The diagrams accepted, said of their records: the lines can be read, labels and lanes match the script, no
      loop lacks a label, expected edges are drawn, drawn ones are expected or labelled, and members and arms are
      kept apart. */
  lemma AcceptedIff(lines: seq<Line>, script: set<string>, primitives: set<string>, x: ExpectedGraph,
        blocks: seq<SubgraphBlock>)
    requires Accepted(lines)
    ensures var d := DiagramOf(lines, blocks);
      WellDrawn(lines, script, primitives, x, blocks) <==>
      && ArrowsReadable(lines, d.nodes) && AgentsMatch(d.nodes, script, primitives)
      && (forall k: nat :: !LoopAt(d, k))
      && lines != [] && lines[0] == Header(true)
      && LanesDrawn(d, x)
      && EdgesDrawn(d, script, primitives, x) && EdgesExpected(d, x) && MembersApart(d, x) && GroupsApart(d, x)
  {
    hide EdgeLineRight, ArrowsReadable, LoopAt, LanesRight, LanesDrawn, AllRealised, EdgesDrawn, NoneStray,
      EdgesExpected, NoneInside, MembersApart, AcrossArms, GroupsApart, NoLoopUnlabelled, NodesOf, EdgesOf, EdgeRecords,
      DirectedOnly, PrimitiveIds, Once;
    var d := DiagramOf(lines, blocks);
    NodesOnce(lines);
    ReadableIff(lines, d.nodes);
    LoopRule(d, 0);
    LanesIff(d, x);
    AllRealisedIff(d, script, primitives, x);
    NoneStrayIff(d, x);
    NoneInsideIff(d, x);
    NoneAcrossIff(d, x);
  }
}
