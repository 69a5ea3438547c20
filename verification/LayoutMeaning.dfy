/** Where the cells of the dashboard's layout stand: the column of an agent and the order within a column. */
module LayoutMeaning {
  import opened GraphLayout

  // ----- the column of an agent -----

  /** When the agent began, or at least ended. */
  ghost predicate Known(a: Agent, at: nat) {
    a.startedAt == Some(at) || (a.startedAt == None && a.endedAt == Some(at))
  }

  /** Phase `k` is the last one that had begun by then. */
  ghost predicate PhaseThen(phases: seq<Phase>, at: nat, k: nat) {
    k < |phases| && phases[k].ts <= at && forall i :: k < i < |phases| ==> phases[i].ts > at
  }

  /** The agent belongs to no lane: none is recorded, and no phase had begun, or nobody knows when it ran. */
  ghost predicate Nowhere(a: Agent, phases: seq<Phase>) {
    a.phaseIndex == None && forall at, i :: Known(a, at) && 0 <= i < |phases| ==> phases[i].ts > at
  }

  /** The recorded lane wins over the one inferred from the times. */
  ghost predicate InItsLane(a: Agent, phases: seq<Phase>, k: nat) {
    a.phaseIndex == Some(k) || (a.phaseIndex == None && exists at :: Known(a, at) && PhaseThen(phases, at, k))
  }

  lemma InferIs(a: Agent, phases: seq<Phase>, at: nat)
    requires Known(a, at)
    ensures forall k: nat :: InferPhase(a, phases) == Some(k) <==> PhaseThen(phases, at, k)
    ensures InferPhase(a, phases) == None <==> forall i :: 0 <= i < |phases| ==> phases[i].ts > at
  {
    assert At(a) == Some(at);
  }

  lemma LaneIs(a: Agent, phases: seq<Phase>, k: nat)
    ensures LaneOf(a, phases) == Some(k) <==> InItsLane(a, phases, k)
    ensures LaneOf(a, phases) == None <==> Nowhere(a, phases)
  {
    if At(a).Some? {
      assert Known(a, At(a).value);
      InferIs(a, phases, At(a).value);
    }
  }

  /** An agent's cell is in the column after its lane, or in the first one after the trigger's when it has no lane;
      and with nothing cut every agent has one there. */
  lemma AgentColumn(g: Graph, agents: seq<Agent>, phases: seq<Phase>, max: nat, k: nat, a: Agent)
    requires Dense(g)
    ensures var grid := Play(max, START, Acts(g, agents, phases));
      var there := a in agents && (InItsLane(a, phases, k) || (k == 0 && Nowhere(a, phases)));
      (Shows(grid.cells, k, Live(a)) ==> there) && (!grid.truncated && there ==> Shows(grid.cells, k, Live(a)))
  {
    hide Play, Acts, Shows, InItsLane, Nowhere, LaneOf, Dense;
    LivePlaced(g, agents, phases, k, a);
    LaneIs(a, phases, k);
    ShownIffPlaced(max, Acts(g, agents, phases), k, Live(a));
  }

  // ----- the order within a column -----

  /** A missing start counts as the earliest. */
  function Start(a: Agent): int {
    match a.startedAt case Some(t) => t case None => -1
  }

  /** Of two agents in one column: those of no lane first, and each group by its starts. */
  ghost predicate Before(phases: seq<Phase>, a: Agent, b: Agent) {
    if LaneOf(a, phases) == LaneOf(b, phases) then Start(a) <= Start(b) else LaneOf(a, phases) == None
  }

  /** Wherever two agents are placed in one lane, the one placed first comes before the other. */
  ghost predicate Chronological(phases: seq<Phase>, places: seq<Act>) {
    forall i, j :: 0 <= i < j < |places| ==> Follows(phases, places[i], places[j])
  }

  ghost predicate Follows(phases: seq<Phase>, p: Act, q: Act) {
    p.Place? && q.Place? && p.lane == q.lane && p.content.Live? && q.content.Live? ==>
      Before(phases, p.content.agent, q.content.agent)
  }

  lemma ChronologicalConcat(phases: seq<Phase>, a: seq<Act>, b: seq<Act>)
    requires Chronological(phases, a) && Chronological(phases, b)
    requires forall p, q :: p in a && q in b ==> Follows(phases, p, q)
    ensures Chronological(phases, a + b)
  {
    hide Follows;
  }

  lemma AgentPlacesNext(lane: nat, agents: seq<Agent>, e: Expecting)
    requires agents != []
    ensures Places(AgentActs(lane, agents, e))
      == Places(AgentActs(lane, agents[..|agents| - 1], e)) + [Place(lane, Live(agents[|agents| - 1]))]
  {
    var front, last := agents[..|agents| - 1], agents[|agents| - 1];
    var place := [Place(lane, Live(last))];
    var warn: seq<Act> := if Expects(e, last) then [] else [Warn(Unmatched(last.agentId))];
    assert AgentActs(lane, agents, e) == AgentActs(lane, front, e) + place + warn;
    hide Places, AgentActs, Expects;
    PlacesConcat(AgentActs(lane, front, e) + place, warn);
    PlacesConcat(AgentActs(lane, front, e), place);
    OnePlace(place[0]);
    OnePlace(Warn(Unmatched(last.agentId)));
  }

  lemma {:induction false} AgentPlaces(lane: nat, agents: seq<Agent>, e: Expecting)
    ensures |Places(AgentActs(lane, agents, e))| == |agents|
    ensures forall i :: 0 <= i < |agents| ==> Places(AgentActs(lane, agents, e))[i] == Place(lane, Live(agents[i]))
  {
    if agents != [] {
      AgentPlaces(lane, agents[..|agents| - 1], e);
      AgentPlacesNext(lane, agents, e);
      hide Places, AgentActs;
    }
  }

  lemma OnePlace(act: Act)
    ensures Places([act]) == (if act.Place? then [act] else []) && Places([]) == []
  {
    assert [act][..0] == [];
  }

  lemma LaneChronological(agents: seq<Agent>, phases: seq<Phase>, of: Option<nat>, lane: nat, e: Expecting)
    ensures Chronological(phases, Places(AgentActs(lane, InLane(agents, phases, of), e)))
  {
    var own := InLane(agents, phases, of);
    AgentPlaces(lane, own, e);
    SortAscends(Among(agents, phases, of), StartKey);
    forall a | a in own
      ensures LaneOf(a, phases) == of
    {
      InLaneHas(agents, phases, of, a);
    }
    hide LaneOf, AgentActs, Places, Among, InLane;
    forall i, j | 0 <= i < j < |own|
      ensures Before(phases, own[i], own[j])
    {
      assert own[i] in own && own[j] in own;
      assert StartKey(own[i]) <= StartKey(own[j]);
    }
  }

  /** All is placed in these lanes, and agents in their own. */
  ghost predicate Within(phases: seq<Phase>, places: seq<Act>, from: nat, to: nat) {
    forall p :: p in places ==>
      p.Place? && from <= p.lane < to && (p.content.Live? ==> LaneOf(p.content.agent, phases) == Some(p.lane))
  }

  lemma LaneWithin(g: Graph, agents: seq<Agent>, phases: seq<Phase>, lane: Lane)
    ensures var own, implicit := InLane(agents, phases, Some(lane.index)), InLane(agents, phases, None);
      Within(phases, Places(LaneActs(g, lane, own, implicit)), lane.index, lane.index + 1)
  {
    var own, implicit := InLane(agents, phases, Some(lane.index)), InLane(agents, phases, None);
    hide LaneActs, Places, InLane, LaneOf;
    forall p | p in Places(LaneActs(g, lane, own, implicit))
      ensures p.Place? && p.lane == lane.index && (p.content.Live? ==> LaneOf(p.content.agent, phases) == Some(p.lane))
    {
      PlacesHave(LaneActs(g, lane, own, implicit), p);
      LaneActsHave(g, lane, own, implicit, p);
      if p.content.Live? {
        InLaneHas(agents, phases, Some(lane.index), p.content.agent);
      }
    }
  }

  lemma {:induction false} NoAgents(lane: nat, slots: seq<Slot>, covering: seq<Agent>)
    ensures forall p :: p in Places(SlotActs(lane, slots, covering)) ==> p.Place? && p.content.Skeleton?
  {
    forall p | p in Places(SlotActs(lane, slots, covering))
      ensures p.Place? && p.content.Skeleton?
    {
      PlacesHave(SlotActs(lane, slots, covering), p);
      SlotActsHave(lane, slots, covering, p);
    }
  }

  lemma NoWarningPlaced(w: Warning, rest: seq<Act>)
    ensures Places([Warn(w)] + rest) == Places(rest)
  {
    PlacesConcat([Warn(w)], rest);
    OnePlace(Warn(w));
  }

  /** One predicted lane. */
  lemma DeclaredLaneChronological(g: Graph, agents: seq<Agent>, phases: seq<Phase>, lane: Lane)
    ensures var own, implicit := InLane(agents, phases, Some(lane.index)), InLane(agents, phases, None);
      Chronological(phases, Places(LaneActs(g, lane, own, implicit)))
  {
    hide Before, AgentActs, SlotActs, Places, InLane, Covering, AllNames, LaneSlots;
    var own, implicit := InLane(agents, phases, Some(lane.index)), InLane(agents, phases, None);
    var slots := LaneSlots(g, lane.slots);
    if lane.dynamic {
      LaneChronological(agents, phases, Some(lane.index), lane.index, Nothing);
      NoWarningPlaced(DynamicLane(lane.index), AgentActs(lane.index, own, Nothing));
    } else {
      var e := GraphLayout.Names(AllNames(slots));
      var inert := SlotActs(lane.index, slots, Covering(lane.index, own, implicit));
      LaneChronological(agents, phases, Some(lane.index), lane.index, e);
      NoAgents(lane.index, slots, Covering(lane.index, own, implicit));
      PlacesConcat(AgentActs(lane.index, own, e), inert);
      ChronologicalConcat(phases, Places(AgentActs(lane.index, own, e)), Places(inert));
    }
  }

  lemma Apart(phases: seq<Phase>, a: seq<Act>, b: seq<Act>, n: nat, from: nat, to: nat)
    requires Within(phases, a, 0, n) && Within(phases, b, from, to) && n <= from
    requires Chronological(phases, a) && Chronological(phases, b)
    ensures Chronological(phases, a + b) && Within(phases, a + b, 0, if to > n then to else n)
  {
    hide Before, LaneOf;
    ChronologicalConcat(phases, a, b);
  }

  /** Acts whose places run through the lanes below `n`, in order. */
  ghost predicate Sorted(phases: seq<Phase>, acts: seq<Act>, n: nat) {
    Chronological(phases, Places(acts)) && Within(phases, Places(acts), 0, n)
  }

  lemma SortedOn(phases: seq<Phase>, acts: seq<Act>, more: seq<Act>, n: nat, k: nat)
    requires Sorted(phases, acts, n) && n <= k
    requires Chronological(phases, Places(more)) && Within(phases, Places(more), k, k + 1)
    ensures Sorted(phases, acts + more, k + 1)
  {
    hide Chronological, Within, Places;
    PlacesConcat(acts, more);
    Apart(phases, Places(acts), Places(more), n, k, k + 1);
  }

  lemma NothingSorted(phases: seq<Phase>)
    ensures Sorted(phases, [], 0)
  {
  }

  lemma {:induction false} DeclaredSorted(g: Graph, agents: seq<Agent>, phases: seq<Phase>, n: nat)
    requires Dense(g) && n <= |g.lanes|
    ensures Sorted(phases, DeclaredActs(g, agents, phases, n), n)
  {
    hide Chronological, Within, LaneActs, Places, InLane, Sorted;
    if n == 0 {
      NothingSorted(phases);
    } else {
      var lane := g.lanes[n - 1];
      var own, implicit := InLane(agents, phases, Some(lane.index)), InLane(agents, phases, None);
      DeclaredSorted(g, agents, phases, n - 1);
      DeclaredLaneChronological(g, agents, phases, lane);
      LaneWithin(g, agents, phases, lane);
      SortedOn(phases, DeclaredActs(g, agents, phases, n - 1), LaneActs(g, lane, own, implicit), n - 1, n - 1);
    }
  }

  /** One lane past the predicted ones, after its warning. */
  lemma BeyondLane(agents: seq<Agent>, phases: seq<Phase>, k: nat)
    ensures var acts := [Warn(BeyondPredicted(k))] + AgentActs(k, InLane(agents, phases, Some(k)), Anything);
      Chronological(phases, Places(acts)) && Within(phases, Places(acts), k, k + 1)
  {
    hide Chronological, AgentActs, Places, InLane, LaneOf;
    var own := InLane(agents, phases, Some(k));
    LaneChronological(agents, phases, Some(k), k, Anything);
    NoWarningPlaced(BeyondPredicted(k), AgentActs(k, own, Anything));
    forall p | p in Places(AgentActs(k, own, Anything))
      ensures p.Place? && p.lane == k && (p.content.Live? ==> LaneOf(p.content.agent, phases) == Some(k))
    {
      PlacesHave(AgentActs(k, own, Anything), p);
      AgentActsHave(k, own, Anything, p);
      InLaneHas(agents, phases, Some(k), p.content.agent);
    }
  }

  /** The lanes rise from one to the next and start at or after `n`. */
  ghost predicate Rising(lanes: seq<nat>, n: nat) {
    && (forall i :: 0 <= i < |lanes| ==> lanes[i] >= n)
    && (forall i, j :: 0 <= i < j < |lanes| ==> lanes[i] < lanes[j])
  }

  function After(lanes: seq<nat>, n: nat): nat {
    if lanes == [] then n else lanes[|lanes| - 1] + 1
  }

  lemma {:induction false} BeyondSorted(agents: seq<Agent>, phases: seq<Phase>, lanes: seq<nat>, before: seq<Act>,
        n: nat)
    requires Sorted(phases, before, n) && Rising(lanes, n)
    ensures Sorted(phases, before + BeyondActs(agents, phases, lanes), After(lanes, n))
  {
    hide Chronological, Within, AgentActs, Places, InLane, Sorted;
    if lanes == [] {
      assert before + [] == before;
    } else {
      var front, k := lanes[..|lanes| - 1], lanes[|lanes| - 1];
      var last := [Warn(BeyondPredicted(k))] + AgentActs(k, InLane(agents, phases, Some(k)), Anything);
      BeyondSorted(agents, phases, front, before, n);
      BeyondLane(agents, phases, k);
      SortedOn(phases, before + BeyondActs(agents, phases, front), last, After(front, n), k);
      assert before + BeyondActs(agents, phases, lanes) == before + BeyondActs(agents, phases, front) + last;
    }
  }

  lemma BeyondRises(g: Graph, agents: seq<Agent>, phases: seq<Phase>)
    ensures Rising(Beyond(g, agents, phases), |g.lanes|)
  {
    BeyondOnce(g, agents, phases);
    SortAscends(From(LanesMet(agents, phases), |g.lanes|), k => k);
    var lanes := Beyond(g, agents, phases);
    forall i | 0 <= i < |lanes|
      ensures lanes[i] >= |g.lanes|
    {
      BeyondHas(g, agents, phases, lanes[i]);
    }
    hide LanesMet, From, Met;
  }

  /** Over the whole layout: whoever is placed first in a lane comes before the other. */
  lemma ActsChronological(g: Graph, agents: seq<Agent>, phases: seq<Phase>)
    requires Dense(g)
    ensures Chronological(phases, Places(Acts(g, agents, phases)))
  {
    hide Places, InLane, LaneOf, AgentActs, DeclaredActs, BeyondActs, Chronological, Dense, Beyond, Rising;
    var implicit, lanes := InLane(agents, phases, None), Beyond(g, agents, phases);
    var first, declared := AgentActs(0, implicit, Anything), DeclaredActs(g, agents, phases, |g.lanes|);
    var rest := declared + BeyondActs(agents, phases, lanes);
    LaneChronological(agents, phases, None, 0, Anything);
    DeclaredSorted(g, agents, phases, |g.lanes|);
    BeyondRises(g, agents, phases);
    BeyondSorted(agents, phases, lanes, declared, |g.lanes|);
    forall p, q | p in Places(first) && q in Places(rest)
      ensures Follows(phases, p, q)
    {
      PlacesHave(first, p);
      AgentActsHave(0, implicit, Anything, p);
      InLaneHas(agents, phases, None, p.content.agent);
    }
    PlacesConcat(first, rest);
    ChronologicalConcat(phases, Places(first), Places(rest));
    assert Acts(g, agents, phases) == first + rest;
  }

  /** Cells made later in a column stand lower. */
  lemma {:induction false} RowsRise(max: nat, acts: seq<Act>)
    ensures var cells := Play(max, START, acts).cells;
      forall i, j :: 0 <= i < j < |cells| && cells[i].col == cells[j].col ==> cells[i].row < cells[j].row
  {
    if acts != [] {
      var front := acts[..|acts| - 1];
      RowsRise(max, front);
      PlaySound(max, front);
      hide Play;
      assert Play(max, START, acts) == Do(max, Play(max, START, front), acts[|acts| - 1]);
    }
  }

  /** Of two agents in one column the one that started later stands lower; in the first column this holds of those
      of no lane and of those of lane 0 apart, and the former stand above the latter. */
  lemma LaterIsLower(g: Graph, agents: seq<Agent>, phases: seq<Phase>, max: nat, c: Cell, d: Cell)
    requires Dense(g)
    requires var cells := Play(max, START, Acts(g, agents, phases)).cells;
      c in cells && d in cells && c.content.Live? && d.content.Live? && c.col == d.col
    ensures var a, b := c.content.agent, d.content.agent;
      && (Start(a) < Start(b) && (Nowhere(a, phases) <==> Nowhere(b, phases)) ==> c.row < d.row)
      && (Nowhere(a, phases) && !Nowhere(b, phases) ==> c.row < d.row)
  {
    hide Acts, Play, Places, LaneOf, Dense, Nowhere, Chronological, Sound, SamePlace;
    var acts := Acts(g, agents, phases);
    var grid := Play(max, START, acts);
    ActsChronological(g, agents, phases);
    RowsRise(max, acts);
    CellsArePlaces(max, acts);
    PlaySound(max, acts);
    LivesIn(g, agents, phases, max, c);
    LivesIn(g, agents, phases, max, d);
    var i :| 0 <= i < |grid.cells| && grid.cells[i] == c;
    var j :| 0 <= j < |grid.cells| && grid.cells[j] == d;
    if j < i {
      FirstPlaced(phases, grid, Places(acts), j, i);
    }
  }

  lemma FirstPlaced(phases: seq<Phase>, grid: Grid, places: seq<Act>, i: nat, j: nat)
    requires Sound(grid) && grid.count <= |places| && Chronological(phases, places)
    requires forall k :: 0 <= k < grid.count ==> SamePlace(grid.cells[k + 1], places[k])
    requires i < j < |grid.cells| && grid.cells[i].content.Live? && grid.cells[j].content.Live?
    requires grid.cells[i].col == grid.cells[j].col
    ensures Before(phases, grid.cells[i].content.agent, grid.cells[j].content.agent)
  {
    hide Before;
    assert SamePlace(grid.cells[i - 1 + 1], places[i - 1]) && SamePlace(grid.cells[j - 1 + 1], places[j - 1]);
    assert Follows(phases, places[i - 1], places[j - 1]);
  }

  lemma LivesIn(g: Graph, agents: seq<Agent>, phases: seq<Phase>, max: nat, c: Cell)
    requires Dense(g) && c in Play(max, START, Acts(g, agents, phases)).cells && c.content.Live?
    ensures c.col > 0
    ensures Nowhere(c.content.agent, phases) <==> LaneOf(c.content.agent, phases) == None
    ensures LaneOf(c.content.agent, phases) == Some(c.col - 1)
      || (c.col == 1 && LaneOf(c.content.agent, phases) == None)
  {
    hide Acts, Play, LaneOf, Dense, Nowhere, Shows, Sound, InItsLane;
    var acts := Acts(g, agents, phases);
    LaneIs(c.content.agent, phases, 0);
    LiveShown(Play(max, START, acts), c) by { PlaySound(max, acts); }
    ShownIffPlaced(max, acts, c.col - 1, c.content);
    LivePlaced(g, agents, phases, c.col - 1, c.content.agent);
  }

  lemma LiveShown(grid: Grid, c: Cell)
    requires Sound(grid) && c in grid.cells && c.content.Live?
    ensures c.col > 0 && Shows(grid.cells, c.col - 1, c.content)
  {
    var i :| 0 <= i < |grid.cells| && grid.cells[i] == c;
  }

  // ----- predicted slots -----

  lemma {:induction false} SlotListed(g: Graph, indices: seq<nat>, s: Slot)
    ensures s in LaneSlots(g, indices) <==> exists i :: i in indices && i < |g.slots| && g.slots[i] == s
  {
    if indices != [] {
      SlotListed(g, indices[..|indices| - 1], s);
      assert indices == indices[..|indices| - 1] + [indices[|indices| - 1]];
    }
  }

  /** With nothing cut, a slot the graph lists for a predicted lane shows an inert cell in the lane's column exactly
      when no agent shown in that column carries one of its names; and no other slot ever does. */
  lemma SlotShown(g: Graph, agents: seq<Agent>, phases: seq<Phase>, max: nat, k: nat, s: Slot)
    requires Dense(g) && !Play(max, START, Acts(g, agents, phases)).truncated
    ensures var cells := Play(max, START, Acts(g, agents, phases)).cells;
      Shows(cells, k, Skeleton(s)) <==>
      && k < |g.lanes| && !g.lanes[k].dynamic && (exists i :: i in g.lanes[k].slots && i < |g.slots| && g.slots[i] == s)
      && !exists a :: Shows(cells, k, Live(a)) && a.name.Some? && a.name.value in s.names
  {
    hide Play, Acts, Shows, Dense, LaneSlots;
    if k < |g.lanes| {
      SlotListed(g, g.lanes[k].slots, s);
      if !g.lanes[k].dynamic && s in LaneSlots(g, g.lanes[k].slots) {
        InertIffUncovered(g, agents, phases, max, k, s);
      }
    }
    if Shows(Play(max, START, Acts(g, agents, phases)).cells, k, Skeleton(s)) {
      InertIsUncovered(g, agents, phases, max, k, s);
    }
  }
}
