/** `layoutGraph`: the dashboard's grid of predicted and live agents. What would be placed and warned about is one
    list of acts; the layout plays it until the cell limit is reached. */
module GraphLayout {

  datatype Option<+T> = None | Some(value: T)

  /** Timestamps are instants, in milliseconds. */
  datatype Agent = Agent(agentId: string, name: Option<string>, phaseIndex: Option<nat>, startedAt: Option<nat>,
        endedAt: Option<nat>)

  datatype Phase = Phase(ts: nat)

  datatype Slot = Slot(index: nat, names: seq<string>)
  datatype Lane = Lane(index: nat, dynamic: bool, slots: seq<nat>)
  datatype Graph = Graph(lanes: seq<Lane>, slots: seq<Slot>)

  datatype Content = Trigger | Live(agent: Agent) | Skeleton(slot: Slot)
  datatype Cell = Cell(col: nat, row: nat, content: Content)

  datatype Warning =
    | DynamicLane(lane: nat)
    | Unmatched(agentId: string)
    | BeyondPredicted(lane: nat)
    | TruncatedTo(max: nat)

  // ----- sorting, as `Array.sort` does it -----

  function Insert<T(!new)>(sorted: seq<T>, x: T, key: T -> int): (r: seq<T>)
    ensures multiset(r) == multiset(sorted) + multiset{x}
    ensures forall y :: y in r <==> y in sorted || y == x
  {
    if sorted == [] || key(sorted[|sorted| - 1]) <= key(x) then sorted + [x]
    else
      assert sorted == sorted[..|sorted| - 1] + [sorted[|sorted| - 1]];
      Insert(sorted[..|sorted| - 1], x, key) + [sorted[|sorted| - 1]]
  }

  function Sort<T(!new)>(s: seq<T>, key: T -> int): (r: seq<T>)
    ensures multiset(r) == multiset(s)
    ensures forall y :: y in r <==> y in s
  {
    if s == [] then []
    else
      assert s == s[..|s| - 1] + [s[|s| - 1]];
      Insert(Sort(s[..|s| - 1], key), s[|s| - 1], key)
  }

  ghost predicate Ascending<T>(s: seq<T>, key: T -> int) {
    forall i, j :: 0 <= i < j < |s| ==> key(s[i]) <= key(s[j])
  }

  lemma {:induction false} InsertAscends<T(!new)>(sorted: seq<T>, x: T, key: T -> int)
    requires Ascending(sorted, key)
    ensures Ascending(Insert(sorted, x, key), key)
  {
    if sorted != [] && key(sorted[|sorted| - 1]) > key(x) {
      var front, last := sorted[..|sorted| - 1], sorted[|sorted| - 1];
      InsertAscends(front, x, key);
      var r := Insert(front, x, key);
      forall i | 0 <= i < |r|
        ensures key(r[i]) <= key(last)
      {
        assert r[i] in r;
      }
    }
  }

  lemma {:induction false} SortAscends<T(!new)>(s: seq<T>, key: T -> int)
    ensures Ascending(Sort(s, key), key)
  {
    if s != [] {
      SortAscends(s[..|s| - 1], key);
      InsertAscends(Sort(s[..|s| - 1], key), s[|s| - 1], key);
    }
  }

  function StartKey(a: Agent): int {
    if a.startedAt.Some? then a.startedAt.value else -1
  }

  function ByStart(s: seq<Agent>): seq<Agent> {
    Sort(s, StartKey)
  }

  // ----- lanes -----

  function At(a: Agent): Option<nat> {
    if a.startedAt.Some? then a.startedAt else a.endedAt
  }

  /** The last phase that began no later than the agent did. */
  function InferPhase(a: Agent, phases: seq<Phase>): (r: Option<nat>)
    ensures r.Some? ==> At(a).Some? && r.value < |phases| && phases[r.value].ts <= At(a).value
    ensures r.Some? ==> forall i :: r.value < i < |phases| ==> phases[i].ts > At(a).value
    ensures r.None? && At(a).Some? ==> forall i :: 0 <= i < |phases| ==> phases[i].ts > At(a).value
  {
    if At(a).None? || phases == [] then None
    else if phases[|phases| - 1].ts <= At(a).value then Some(|phases| - 1)
    else InferPhase(a, phases[..|phases| - 1])
  }

  method InferPhaseIndex(a: Agent, phases: seq<Phase>) returns (found: Option<nat>)
    ensures found == InferPhase(a, phases)
  {
    found := None;
    var at := At(a);
    if at.None? || |phases| == 0 {
      return;
    }
    for i := 0 to |phases|
      invariant found == InferPhase(a, phases[..i])
    {
      assert phases[..i + 1][..i] == phases[..i];
      if phases[i].ts <= at.value {
        found := Some(i);
      }
    }
    assert phases[..|phases|] == phases;
  }

  function LaneOf(a: Agent, phases: seq<Phase>): Option<nat> {
    if a.phaseIndex.Some? then a.phaseIndex else InferPhase(a, phases)
  }

  /** The agents of one lane, or of none, in the order given. */
  function Among(agents: seq<Agent>, phases: seq<Phase>, lane: Option<nat>): seq<Agent> {
    if agents == [] then []
    else
      var front, last := agents[..|agents| - 1], agents[|agents| - 1];
      Among(front, phases, lane) + if LaneOf(last, phases) == lane then [last] else []
  }

  lemma {:induction false} AmongHas(agents: seq<Agent>, phases: seq<Phase>, lane: Option<nat>, a: Agent)
    ensures a in Among(agents, phases, lane) <==> a in agents && LaneOf(a, phases) == lane
  {
    hide LaneOf;
    if agents != [] {
      AmongHas(agents[..|agents| - 1], phases, lane, a);
      assert agents == agents[..|agents| - 1] + [agents[|agents| - 1]];
    }
  }

  function InLane(agents: seq<Agent>, phases: seq<Phase>, lane: Option<nat>): (r: seq<Agent>)
    ensures multiset(r) == multiset(Among(agents, phases, lane))
  {
    ByStart(Among(agents, phases, lane))
  }

  lemma InLaneHas(agents: seq<Agent>, phases: seq<Phase>, lane: Option<nat>, a: Agent)
    ensures a in InLane(agents, phases, lane) <==> a in agents && LaneOf(a, phases) == lane
  {
    AmongHas(agents, phases, lane, a);
    hide Among, LaneOf;
  }

  /** The lanes some agent is in, in the order they are first met. */
  function LanesMet(agents: seq<Agent>, phases: seq<Phase>): seq<nat> {
    if agents == [] then []
    else
      var front, last := agents[..|agents| - 1], agents[|agents| - 1];
      var before, lane := LanesMet(front, phases), LaneOf(last, phases);
      if lane.Some? && lane.value !in before then before + [lane.value] else before
  }

  ghost predicate Met(agents: seq<Agent>, phases: seq<Phase>, k: nat) {
    exists a :: a in agents && LaneOf(a, phases) == Some(k)
  }

  lemma {:induction false} LanesMetHas(agents: seq<Agent>, phases: seq<Phase>, k: nat)
    ensures k in LanesMet(agents, phases) <==> Met(agents, phases, k)
  {
    hide LaneOf;
    if agents != [] {
      LanesMetHas(agents[..|agents| - 1], phases, k);
      assert agents == agents[..|agents| - 1] + [agents[|agents| - 1]];
    }
  }

  lemma {:induction false} LanesMetOnce(agents: seq<Agent>, phases: seq<Phase>)
    ensures NoRepeats(LanesMet(agents, phases))
  {
    hide LaneOf;
    if agents != [] {
      LanesMetOnce(agents[..|agents| - 1], phases);
    }
  }

  function From(lanes: seq<nat>, n: nat): seq<nat> {
    if lanes == [] then []
    else
      var front, last := lanes[..|lanes| - 1], lanes[|lanes| - 1];
      From(front, n) + if last >= n then [last] else []
  }

  lemma {:induction false} FromCount(lanes: seq<nat>, n: nat, k: nat)
    ensures multiset(From(lanes, n))[k] == if k >= n then multiset(lanes)[k] else 0
  {
    if lanes != [] {
      FromCount(lanes[..|lanes| - 1], n, k);
      assert lanes == lanes[..|lanes| - 1] + [lanes[|lanes| - 1]];
    }
  }

  /** The lanes past the predicted ones, in ascending order. */
  function Beyond(g: Graph, agents: seq<Agent>, phases: seq<Phase>): seq<nat> {
    Sort(From(LanesMet(agents, phases), |g.lanes|), k => k)
  }

  // ----- what is to be placed -----

  datatype Act = Place(lane: nat, content: Content) | Warn(warning: Warning)

  datatype Expecting = Anything | Nothing | Names(names: set<string>)

  predicate Expects(e: Expecting, a: Agent) {
    match e
    case Anything => true
    case Nothing => false
    case Names(names) => a.name.Some? && a.name.value in names
  }

  function AgentActs(lane: nat, agents: seq<Agent>, e: Expecting): seq<Act> {
    if agents == [] then []
    else
      var last := agents[|agents| - 1];
      AgentActs(lane, agents[..|agents| - 1], e)
        + [Place(lane, Live(last))] + if Expects(e, last) then [] else [Warn(Unmatched(last.agentId))]
  }

  /** A lane's slots; an index past the slots is skipped. */
  function LaneSlots(g: Graph, indices: seq<nat>): seq<Slot> {
    if indices == [] then []
    else
      var last := indices[|indices| - 1];
      LaneSlots(g, indices[..|indices| - 1]) + if last < |g.slots| then [g.slots[last]] else []
  }

  predicate Carries(a: Agent, s: Slot) {
    a.name.Some? && a.name.value in s.names
  }

  predicate Covered(covering: seq<Agent>, s: Slot) {
    exists a :: a in covering && Carries(a, s)
  }

  function SlotActs(lane: nat, slots: seq<Slot>, covering: seq<Agent>): seq<Act> {
    if slots == [] then []
    else
      var last := slots[|slots| - 1];
      SlotActs(lane, slots[..|slots| - 1], covering)
      + if Covered(covering, last) then [] else [Place(lane, Skeleton(last))]
  }

  function AllNames(slots: seq<Slot>): set<string> {
    set i, n | 0 <= i < |slots| && n in slots[i].names :: n
  }

  function Covering(lane: nat, own: seq<Agent>, implicit: seq<Agent>): seq<Agent> {
    if lane == 0 then own + implicit else own
  }

  function LaneActs(g: Graph, lane: Lane, own: seq<Agent>, implicit: seq<Agent>): seq<Act> {
    if lane.dynamic then [Warn(DynamicLane(lane.index))] + AgentActs(lane.index, own, Nothing)
    else
      var slots := LaneSlots(g, lane.slots);
      AgentActs(lane.index, own, Names(AllNames(slots)))
        + SlotActs(lane.index, slots, Covering(lane.index, own, implicit))
  }

  function DeclaredActs(g: Graph, agents: seq<Agent>, phases: seq<Phase>, n: nat): seq<Act>
    requires n <= |g.lanes|
  {
    if n == 0 then []
    else
      var lane := g.lanes[n - 1];
      DeclaredActs(g, agents, phases, n - 1)
        + LaneActs(g, lane, InLane(agents, phases, Some(lane.index)), InLane(agents, phases, None))
  }

  function BeyondActs(agents: seq<Agent>, phases: seq<Phase>, lanes: seq<nat>): seq<Act> {
    if lanes == [] then []
    else
      var k := lanes[|lanes| - 1];
      BeyondActs(agents, phases, lanes[..|lanes| - 1])
        + [Warn(BeyondPredicted(k))] + AgentActs(k, InLane(agents, phases, Some(k)), Anything)
  }

  function Acts(g: Graph, agents: seq<Agent>, phases: seq<Phase>): seq<Act> {
    AgentActs(0, InLane(agents, phases, None), Anything)
      + DeclaredActs(g, agents, phases, |g.lanes|) + BeyondActs(agents, phases, Beyond(g, agents, phases))
  }

  // ----- playing the acts -----

  datatype Grid = Grid(cells: seq<Cell>, rows: map<nat, nat>, count: nat, warnings: seq<Warning>, truncated: bool)

  const START := Grid([Cell(0, 0, Trigger)], map[], 0, [], false)

  function NextRow(rows: map<nat, nat>, lane: nat): nat {
    if lane in rows then rows[lane] else 0
  }

  function Placed(g: Grid, lane: nat, content: Content): Grid {
    var row := NextRow(g.rows, lane);
    g.(cells := g.cells + [Cell(lane + 1, row, content)], rows := g.rows[lane := row + 1], count := g.count + 1)
  }

  /** Once a cell does not fit, nothing more is done. */
  function Do(max: nat, g: Grid, act: Act): Grid {
    if g.truncated then g
    else match act
      case Place(lane, content) => if g.count >= max then g.(truncated := true) else Placed(g, lane, content)
      case Warn(w) => g.(warnings := g.warnings + [w])
  }

  function Play(max: nat, g: Grid, acts: seq<Act>): Grid {
    if acts == [] then g else Do(max, Play(max, g, acts[..|acts| - 1]), acts[|acts| - 1])
  }

  lemma {:induction false} PlayConcat(max: nat, g: Grid, a: seq<Act>, b: seq<Act>)
    ensures Play(max, g, a + b) == Play(max, Play(max, g, a), b)
  {
    if b == [] {
      assert a + b == a;
    } else {
      assert (a + b)[..|a + b| - 1] == a + b[..|b| - 1];
      PlayConcat(max, g, a, b[..|b| - 1]);
    }
  }

  lemma {:induction false} TruncatedStays(max: nat, g: Grid, acts: seq<Act>)
    requires g.truncated
    ensures Play(max, g, acts) == g
  {
    if acts != [] {
      TruncatedStays(max, g, acts[..|acts| - 1]);
    }
  }

  function Places(acts: seq<Act>): seq<Act> {
    if acts == [] then []
    else Places(acts[..|acts| - 1]) + if acts[|acts| - 1].Place? then [acts[|acts| - 1]] else []
  }

  /** Every cell after the trigger is one placement, the trigger stands alone in column 0, and no two cells share
      a column and a row. */
  ghost predicate Sound(g: Grid) {
    && |g.cells| == g.count + 1 && g.cells[0] == Cell(0, 0, Trigger)
    && (forall i :: 0 < i < |g.cells| ==> g.cells[i].col > 0 && g.cells[i].row < NextRow(g.rows, g.cells[i].col - 1))
    && (forall i, j :: 0 <= i < j < |g.cells| ==> (g.cells[i].col, g.cells[i].row) != (g.cells[j].col, g.cells[j].row))
  }

  lemma {:induction false} PlaySound(max: nat, acts: seq<Act>)
    ensures Sound(Play(max, START, acts))
  {
    if acts != [] {
      PlaySound(max, acts[..|acts| - 1]);
      var g := Play(max, START, acts[..|acts| - 1]);
      hide Play;
      DoSound(max, g, acts[|acts| - 1]);
    }
  }

  lemma DoSound(max: nat, g: Grid, act: Act)
    requires Sound(g)
    ensures Sound(Do(max, g, act))
  {
    if act.Place? {
      PlacedSound(g, act.lane, act.content);
      hide Sound, Placed;
    }
  }

  lemma PlacedSound(g: Grid, lane: nat, content: Content)
    requires Sound(g)
    ensures Sound(Placed(g, lane, content))
  {
    var h := Placed(g, lane, content);
    assert forall i :: 0 <= i < |g.cells| ==> h.cells[i] == g.cells[i];
    assert forall k :: NextRow(g.rows, k) <= NextRow(h.rows, k);
  }

  predicate SamePlace(c: Cell, p: Act) {
    p.Place? && c.col == p.lane + 1 && c.content == p.content
  }

  /** The cells are the first placements that fit, in order: all of them when nothing was cut, and exactly `max`
      of them otherwise. */
  lemma {:induction false} CellsArePlaces(max: nat, acts: seq<Act>)
    ensures var g := Play(max, START, acts);
      && |g.cells| == g.count + 1
      && g.count == (if |Places(acts)| <= max then |Places(acts)| else max)
      && (g.truncated <==> |Places(acts)| > max)
      && forall i :: 0 <= i < g.count ==> SamePlace(g.cells[i + 1], Places(acts)[i])
  {
    if acts != [] {
      CellsArePlaces(max, acts[..|acts| - 1]);
    }
  }

  // ----- every live agent has one cell -----

  ghost predicate Dense(g: Graph) {
    forall i :: 0 <= i < |g.lanes| ==> g.lanes[i].index == i
  }

  function LiveAgents(cells: seq<Cell>): seq<Agent> {
    if cells == [] then []
    else
      var last := cells[|cells| - 1];
      LiveAgents(cells[..|cells| - 1]) + if last.content.Live? then [last.content.agent] else []
  }

  function AgentsOf(acts: seq<Act>): seq<Agent> {
    if acts == [] then []
    else
      var last := acts[|acts| - 1];
      AgentsOf(acts[..|acts| - 1]) + if last.Place? && last.content.Live? then [last.content.agent] else []
  }

  lemma LiveSnoc(cells: seq<Cell>, c: Cell)
    ensures LiveAgents(cells + [c]) == LiveAgents(cells) + if c.content.Live? then [c.content.agent] else []
  {
    assert (cells + [c])[..|cells|] == cells;
  }

  lemma {:induction false} PlayedAgents(max: nat, acts: seq<Act>)
    requires !Play(max, START, acts).truncated
    ensures LiveAgents(Play(max, START, acts).cells) == AgentsOf(acts)
  {
    if acts == [] {
      assert START.cells[..0] == [];
    } else {
      var front, last := acts[..|acts| - 1], acts[|acts| - 1];
      var g := Play(max, START, front);
      assert Play(max, START, acts) == Do(max, g, last);
      PlayedAgents(max, front);
      hide Play, LiveAgents;
      if last.Place? {
        LiveSnoc(g.cells, Cell(last.lane + 1, NextRow(g.rows, last.lane), last.content));
      }
    }
  }

  lemma {:induction false} AgentsConcat(a: seq<Act>, b: seq<Act>)
    ensures AgentsOf(a + b) == AgentsOf(a) + AgentsOf(b)
  {
    if b == [] {
      assert a + b == a;
    } else {
      assert (a + b)[..|a + b| - 1] == a + b[..|b| - 1];
      AgentsConcat(a, b[..|b| - 1]);
    }
  }

  lemma AgentsSnoc(acts: seq<Act>, act: Act)
    ensures AgentsOf(acts + [act])
      == AgentsOf(acts) + if act.Place? && act.content.Live? then [act.content.agent] else []
  {
    assert (acts + [act])[..|acts|] == acts;
  }

  lemma {:induction false} AgentsPlaced(lane: nat, agents: seq<Agent>, e: Expecting)
    ensures AgentsOf(AgentActs(lane, agents, e)) == agents
  {
    if agents != [] {
      var front, last := agents[..|agents| - 1], agents[|agents| - 1];
      AgentsPlaced(lane, front, e);
      AgentsPlacedNext(lane, front, last, e);
      assert agents == front + [last];
    }
  }

  lemma AgentsPlacedNext(lane: nat, front: seq<Agent>, last: Agent, e: Expecting)
    ensures AgentsOf(AgentActs(lane, front + [last], e)) == AgentsOf(AgentActs(lane, front, e)) + [last]
  {
    assert (front + [last])[..|front|] == front;
    var acts, place, warn := AgentActs(lane, front, e), Place(lane, Live(last)), Warn(Unmatched(last.agentId));
    assert AgentActs(lane, front + [last], e) == if Expects(e, last) then acts + [place] else acts + [place] + [warn];
    hide AgentsOf, AgentActs, Expects;
    AgentsSnoc(acts, place);
    AgentsSnoc(acts + [place], warn);
  }

  lemma {:induction false} SlotsPlaceNobody(lane: nat, slots: seq<Slot>, covering: seq<Agent>)
    ensures AgentsOf(SlotActs(lane, slots, covering)) == []
  {
    if slots != [] {
      var front, last := slots[..|slots| - 1], slots[|slots| - 1];
      SlotsPlaceNobody(lane, front, covering);
      var more := if Covered(covering, last) then [] else [Place(lane, Skeleton(last))];
      AgentsConcat(SlotActs(lane, front, covering), more);
      assert more != [] ==> more[..0] == [];
    }
  }

  lemma LanePlaces(g: Graph, lane: Lane, own: seq<Agent>, implicit: seq<Agent>)
    ensures AgentsOf(LaneActs(g, lane, own, implicit)) == own
  {
    hide AgentActs, SlotActs, AllNames, Covered;
    var slots := LaneSlots(g, lane.slots);
    if lane.dynamic {
      AgentsConcat([Warn(DynamicLane(lane.index))], AgentActs(lane.index, own, Nothing));
      AgentsPlaced(lane.index, own, Nothing);
      assert [Warn(DynamicLane(lane.index))][..0] == [];
    } else {
      AgentsPlaced(lane.index, own, Names(AllNames(slots)));
      SlotsPlaceNobody(lane.index, slots, Covering(lane.index, own, implicit));
      AgentsConcat(AgentActs(lane.index, own, Names(AllNames(slots))),
                   SlotActs(lane.index, slots, Covering(lane.index, own, implicit)));
    }
  }

  /** The agents of each lane of a list, together. */
  function Spread(agents: seq<Agent>, phases: seq<Phase>, lanes: seq<nat>): multiset<Agent> {
    if lanes == [] then multiset{}
    else Spread(agents, phases, lanes[..|lanes| - 1]) + multiset(Among(agents, phases, Some(lanes[|lanes| - 1])))
  }

  function UpTo(n: nat): (r: seq<nat>)
    ensures |r| == n && forall i :: 0 <= i < n ==> r[i] == i
  {
    if n == 0 then [] else UpTo(n - 1) + [n - 1]
  }

  lemma SpreadNext(agents: seq<Agent>, phases: seq<Phase>, lanes: seq<nat>, k: nat)
    ensures Spread(agents, phases, lanes + [k])
      == Spread(agents, phases, lanes) + multiset(Among(agents, phases, Some(k)))
  {
    hide Among;
    assert (lanes + [k])[..|lanes|] == lanes;
  }

  lemma DeclaredPlacesNext(g: Graph, agents: seq<Agent>, phases: seq<Phase>, k: nat)
    requires k < |g.lanes| && g.lanes[k].index == k
    ensures AgentsOf(DeclaredActs(g, agents, phases, k + 1))
      == AgentsOf(DeclaredActs(g, agents, phases, k)) + InLane(agents, phases, Some(k))
  {
    var own, implicit := InLane(agents, phases, Some(k)), InLane(agents, phases, None);
    assert DeclaredActs(g, agents, phases, k + 1)
      == DeclaredActs(g, agents, phases, k) + LaneActs(g, g.lanes[k], own, implicit);
    hide *;
    LanePlaces(g, g.lanes[k], own, implicit);
    AgentsConcat(DeclaredActs(g, agents, phases, k), LaneActs(g, g.lanes[k], own, implicit));
  }

  lemma NothingPlaced(g: Graph, agents: seq<Agent>, phases: seq<Phase>)
    ensures AgentsOf(DeclaredActs(g, agents, phases, 0)) == [] && Spread(agents, phases, UpTo(0)) == multiset{}
  {
  }

  lemma {:induction false} DeclaredPlaces(g: Graph, agents: seq<Agent>, phases: seq<Phase>, n: nat)
    requires Dense(g) && n <= |g.lanes|
    ensures multiset(AgentsOf(DeclaredActs(g, agents, phases, n))) == Spread(agents, phases, UpTo(n))
  {
    assert n > 0 ==> g.lanes[n - 1].index == n - 1;
    hide AgentsOf, DeclaredActs, Spread, InLane, Among;
    if n == 0 {
      NothingPlaced(g, agents, phases);
    } else {
      DeclaredPlaces(g, agents, phases, n - 1);
      DeclaredPlacesNext(g, agents, phases, n - 1);
      SpreadNext(agents, phases, UpTo(n - 1), n - 1);
      assert UpTo(n) == UpTo(n - 1) + [n - 1];
    }
  }

  lemma {:induction false} BeyondPlaces(agents: seq<Agent>, phases: seq<Phase>, lanes: seq<nat>)
    ensures multiset(AgentsOf(BeyondActs(agents, phases, lanes))) == Spread(agents, phases, lanes)
  {
    hide InLane, Among, AgentActs;
    if lanes != [] {
      var front, k := lanes[..|lanes| - 1], lanes[|lanes| - 1];
      var own, warn := InLane(agents, phases, Some(k)), [Warn(BeyondPredicted(k))];
      BeyondPlaces(agents, phases, front);
      AgentsPlaced(k, own, Anything);
      AgentsConcat(BeyondActs(agents, phases, front) + warn, AgentActs(k, own, Anything));
      AgentsConcat(BeyondActs(agents, phases, front), warn);
      assert warn[..0] == [];
    }
  }

  lemma {:induction false} SpreadConcat(agents: seq<Agent>, phases: seq<Phase>, a: seq<nat>, b: seq<nat>)
    ensures Spread(agents, phases, a + b) == Spread(agents, phases, a) + Spread(agents, phases, b)
  {
    if b == [] {
      assert a + b == a;
    } else {
      assert (a + b)[..|a + b| - 1] == a + b[..|b| - 1];
      SpreadConcat(agents, phases, a, b[..|b| - 1]);
    }
  }

  predicate NoRepeats(lanes: seq<nat>) {
    forall i, j :: 0 <= i < j < |lanes| ==> lanes[i] != lanes[j]
  }

  lemma AmongMore(front: seq<Agent>, last: Agent, phases: seq<Phase>, lane: Option<nat>)
    ensures multiset(Among(front + [last], phases, lane))
      == multiset(Among(front, phases, lane)) + if LaneOf(last, phases) == lane then multiset{last} else multiset{}
  {
    assert (front + [last])[..|front|] == front;
  }

  /** The lane of one agent, if a list has it. */
  function Joining(last: Agent, phases: seq<Phase>, lanes: seq<nat>): multiset<Agent> {
    if LaneOf(last, phases).Some? && LaneOf(last, phases).value in lanes then multiset{last} else multiset{}
  }

  lemma JoiningNext(last: Agent, phases: seq<Phase>, some: seq<nat>, k: nat)
    requires k !in some
    ensures Joining(last, phases, some + [k])
      == Joining(last, phases, some) + if LaneOf(last, phases) == Some(k) then multiset{last} else multiset{}
  {
    hide LaneOf;
  }

  lemma SpreadNobodyMore(front: seq<Agent>, last: Agent, phases: seq<Phase>)
    ensures Spread(front + [last], phases, []) == Spread(front, phases, []) + Joining(last, phases, [])
  {
  }

  lemma Regroup<T>(a: multiset<T>, b: multiset<T>, c: multiset<T>, d: multiset<T>)
    ensures (a + b) + (c + d) == (a + c) + (b + d)
  {
  }

  lemma SpreadMoreNext(front: seq<Agent>, last: Agent, phases: seq<Phase>, some: seq<nat>, k: nat)
    requires k !in some
    requires Spread(front + [last], phases, some) == Spread(front, phases, some) + Joining(last, phases, some)
    ensures Spread(front + [last], phases, some + [k])
      == Spread(front, phases, some + [k]) + Joining(last, phases, some + [k])
  {
    hide *;
    AmongMore(front, last, phases, Some(k));
    SpreadNext(front, phases, some, k);
    SpreadNext(front + [last], phases, some, k);
    JoiningNext(last, phases, some, k);
    Regroup(Spread(front, phases, some), Joining(last, phases, some), multiset(Among(front, phases, Some(k))),
            if LaneOf(last, phases) == Some(k) then multiset{last} else multiset{});
  }

  /** One more agent is in one more lane of a list without repeats, if the list has its lane. */
  lemma {:induction false} SpreadMore(front: seq<Agent>, last: Agent, phases: seq<Phase>, lanes: seq<nat>)
    requires NoRepeats(lanes)
    ensures Spread(front + [last], phases, lanes) == Spread(front, phases, lanes) + Joining(last, phases, lanes)
  {
    hide Spread, Joining;
    if lanes == [] {
      SpreadNobodyMore(front, last, phases);
    } else {
      var some, k := lanes[..|lanes| - 1], lanes[|lanes| - 1];
      assert k !in some && lanes == some + [k];
      SpreadMore(front, last, phases, some);
      SpreadMoreNext(front, last, phases, some, k);
    }
  }

  lemma {:induction false} SpreadIsAll(agents: seq<Agent>, phases: seq<Phase>, lanes: seq<nat>)
    requires NoRepeats(lanes)
    requires forall a :: a in agents && LaneOf(a, phases).Some? ==> LaneOf(a, phases).value in lanes
    ensures multiset(Among(agents, phases, None)) + Spread(agents, phases, lanes) == multiset(agents)
  {
    hide LaneOf, Spread, NoRepeats;
    if agents == [] {
      SpreadNobody(phases, lanes);
    } else {
      var front, last := agents[..|agents| - 1], agents[|agents| - 1];
      assert agents == front + [last] && last in agents;
      SpreadIsAll(front, phases, lanes);
      SpreadMore(front, last, phases, lanes);
      AmongMore(front, last, phases, None);
    }
  }

  lemma {:induction false} SpreadNobody(phases: seq<Phase>, lanes: seq<nat>)
    ensures Spread([], phases, lanes) == multiset{}
  {
    if lanes != [] {
      SpreadNobody(phases, lanes[..|lanes| - 1]);
    }
  }

  lemma NoRepeatsByCount(lanes: seq<nat>)
    requires forall k :: multiset(lanes)[k] <= 1
    ensures NoRepeats(lanes)
  {
    forall i, j | 0 <= i < j < |lanes|
      ensures lanes[i] != lanes[j]
    {
      assert lanes == lanes[..i + 1] + lanes[i + 1..];
      assert lanes[i] in lanes[..i + 1] && lanes[j] in lanes[i + 1..];
      assert multiset(lanes) == multiset(lanes[..i + 1]) + multiset(lanes[i + 1..]);
      assert multiset(lanes)[lanes[i]] <= 1;
    }
  }

  lemma {:induction false} CountNoRepeats(lanes: seq<nat>, k: nat)
    requires NoRepeats(lanes)
    ensures multiset(lanes)[k] <= 1
  {
    if lanes != [] {
      var front, last := lanes[..|lanes| - 1], lanes[|lanes| - 1];
      assert lanes == front + [last] && last !in front;
      CountNoRepeats(front, k);
    }
  }

  lemma InByCount(lanes: seq<nat>, k: nat)
    ensures k in lanes <==> multiset(lanes)[k] > 0
  {
  }

  lemma BeyondHas(g: Graph, agents: seq<Agent>, phases: seq<Phase>, k: nat)
    ensures k in Beyond(g, agents, phases) <==> k >= |g.lanes| && Met(agents, phases, k)
  {
    var met := LanesMet(agents, phases);
    LanesMetHas(agents, phases, k);
    FromCount(met, |g.lanes|, k);
    InByCount(From(met, |g.lanes|), k);
    InByCount(met, k);
    hide LanesMet, From, Met;
  }

  lemma BeyondOnce(g: Graph, agents: seq<Agent>, phases: seq<Phase>)
    ensures NoRepeats(Beyond(g, agents, phases))
  {
    var met := LanesMet(agents, phases);
    LanesMetOnce(agents, phases);
    forall k: nat
      ensures multiset(Beyond(g, agents, phases))[k] <= 1
    {
      CountNoRepeats(met, k);
      FromCount(met, |g.lanes|, k);
    }
    hide LanesMet, From, Beyond;
    NoRepeatsByCount(Beyond(g, agents, phases));
  }

  function AllLanes(g: Graph, agents: seq<Agent>, phases: seq<Phase>): seq<nat> {
    UpTo(|g.lanes|) + Beyond(g, agents, phases)
  }

  lemma AllLanesHold(g: Graph, agents: seq<Agent>, phases: seq<Phase>)
    ensures NoRepeats(AllLanes(g, agents, phases))
    ensures forall a :: a in agents && LaneOf(a, phases).Some? ==>
      LaneOf(a, phases).value in AllLanes(g, agents, phases)
  {
    var n, beyond := |g.lanes|, Beyond(g, agents, phases);
    BeyondOnce(g, agents, phases);
    hide Beyond, LaneOf;
    forall a | a in agents && LaneOf(a, phases).Some?
      ensures LaneOf(a, phases).value in UpTo(n) + beyond
    {
      var k := LaneOf(a, phases).value;
      BeyondHas(g, agents, phases, k);
      if k < n {
        assert UpTo(n)[k] == k;
      } else {
        assert Met(agents, phases, k);
      }
    }
    hide Met;
    forall i: nat | i < |beyond|
      ensures beyond[i] >= n
    {
      BeyondHas(g, agents, phases, beyond[i]);
    }
  }

  lemma ActsSpread(g: Graph, agents: seq<Agent>, phases: seq<Phase>)
    requires Dense(g)
    ensures multiset(AgentsOf(Acts(g, agents, phases)))
      == multiset(Among(agents, phases, None)) + Spread(agents, phases, AllLanes(g, agents, phases))
  {
    var beyond, implicit := Beyond(g, agents, phases), InLane(agents, phases, None);
    var first, declared := AgentActs(0, implicit, Anything), DeclaredActs(g, agents, phases, |g.lanes|);
    hide AgentActs, DeclaredActs, BeyondActs, Beyond, InLane, Among, Spread, AgentsOf, Dense;
    AgentsPlaced(0, implicit, Anything);
    DeclaredPlaces(g, agents, phases, |g.lanes|);
    BeyondPlaces(agents, phases, beyond);
    AgentsConcat(first + declared, BeyondActs(agents, phases, beyond));
    AgentsConcat(first, declared);
    SpreadConcat(agents, phases, UpTo(|g.lanes|), beyond);
  }

  /** Without truncation, and with the predicted lanes numbered in order, every live agent has exactly one
      cell. */
  lemma AgentsConserved(g: Graph, agents: seq<Agent>, phases: seq<Phase>, max: nat)
    requires Dense(g) && !Play(max, START, Acts(g, agents, phases)).truncated
    ensures multiset(LiveAgents(Play(max, START, Acts(g, agents, phases)).cells)) == multiset(agents)
  {
    hide Play, Acts, LiveAgents, AgentsOf, AllLanes, Spread, Among, NoRepeats, LaneOf, Dense;
    PlayedAgents(max, Acts(g, agents, phases));
    ActsSpread(g, agents, phases);
    AllLanesHold(g, agents, phases);
    SpreadIsAll(agents, phases, AllLanes(g, agents, phases));
  }

  // ----- inert cells -----

  lemma {:induction false} AgentActsHave(lane: nat, agents: seq<Agent>, e: Expecting, p: Act)
    requires p.Place?
    ensures p in AgentActs(lane, agents, e) <==> p.lane == lane && p.content.Live? && p.content.agent in agents
  {
    if agents != [] {
      var front, last := agents[..|agents| - 1], agents[|agents| - 1];
      AgentActsHave(lane, front, e, p);
      assert agents == front + [last];
    }
  }

  lemma {:induction false} SlotActsHave(lane: nat, slots: seq<Slot>, covering: seq<Agent>, p: Act)
    ensures p in SlotActs(lane, slots, covering) <==>
      p.Place? && p.lane == lane && p.content.Skeleton? && p.content.slot in slots && !Covered(covering, p.content.slot)
  {
    hide Covered;
    if slots != [] {
      var front, last := slots[..|slots| - 1], slots[|slots| - 1];
      SlotActsHave(lane, front, covering, p);
      assert slots == front + [last];
    }
  }

  /** What a predicted lane's acts place. */
  ghost predicate LaneHas(g: Graph, lane: Lane, own: seq<Agent>, implicit: seq<Agent>, content: Content) {
    match content
    case Trigger => false
    case Live(a) => a in own
    case Skeleton(s) =>
      !lane.dynamic && s in LaneSlots(g, lane.slots) && !Covered(Covering(lane.index, own, implicit), s)
  }

  lemma LaneActsHave(g: Graph, lane: Lane, own: seq<Agent>, implicit: seq<Agent>, p: Act)
    requires p.Place?
    ensures p in LaneActs(g, lane, own, implicit)
      <==> p.lane == lane.index && LaneHas(g, lane, own, implicit, p.content)
  {
    var slots := LaneSlots(g, lane.slots);
    AgentActsHave(lane.index, own, Nothing, p);
    AgentActsHave(lane.index, own, Names(AllNames(slots)), p);
    SlotActsHave(lane.index, slots, Covering(lane.index, own, implicit), p);
    hide AgentActs, SlotActs, AllNames, Covered, LaneSlots, Covering;
  }

  lemma {:induction false} DeclaredHave(g: Graph, agents: seq<Agent>, phases: seq<Phase>, n: nat, p: Act)
    requires Dense(g) && n <= |g.lanes| && p.Place?
    ensures p in DeclaredActs(g, agents, phases, n) <==>
      p.lane < n && LaneHas(g, g.lanes[p.lane], InLane(agents, phases, Some(p.lane)), InLane(agents, phases, None),
        p.content)
  {
    hide LaneActs, LaneHas, InLane;
    if n > 0 {
      var lane := g.lanes[n - 1];
      DeclaredHave(g, agents, phases, n - 1, p);
      LaneActsHave(g, lane, InLane(agents, phases, Some(lane.index)), InLane(agents, phases, None), p);
    }
  }

  lemma {:induction false} BeyondHave(agents: seq<Agent>, phases: seq<Phase>, lanes: seq<nat>, p: Act)
    requires p.Place?
    ensures p in BeyondActs(agents, phases, lanes) <==>
      p.lane in lanes && p.content.Live? && p.content.agent in InLane(agents, phases, Some(p.lane))
  {
    hide InLane, AgentActs;
    if lanes != [] {
      var front, k := lanes[..|lanes| - 1], lanes[|lanes| - 1];
      BeyondHave(agents, phases, front, p);
      AgentActsHave(k, InLane(agents, phases, Some(k)), Anything, p);
      assert lanes == front + [k];
    }
  }

  lemma ActsHave(g: Graph, agents: seq<Agent>, phases: seq<Phase>, p: Act)
    requires Dense(g) && p.Place?
    ensures p in Acts(g, agents, phases) <==>
      || (p.lane == 0 && p.content.Live? && p.content.agent in InLane(agents, phases, None))
      || (p.lane < |g.lanes|
          && LaneHas(g, g.lanes[p.lane], InLane(agents, phases, Some(p.lane)), InLane(agents, phases, None), p.content))
      || (p.lane in Beyond(g, agents, phases) && p.content.Live?
          && p.content.agent in InLane(agents, phases, Some(p.lane)))
  {
    AgentActsHave(0, InLane(agents, phases, None), Anything, p);
    DeclaredHave(g, agents, phases, |g.lanes|, p);
    BeyondHave(agents, phases, Beyond(g, agents, phases), p);
    hide AgentActs, DeclaredActs, BeyondActs, InLane, Beyond, LaneHas, Dense;
  }

  /** A lane's column holds the agents of that lane, and column 1 also those of no lane. */
  lemma LivePlaced(g: Graph, agents: seq<Agent>, phases: seq<Phase>, k: nat, a: Agent)
    requires Dense(g)
    ensures Place(k, Live(a)) in Acts(g, agents, phases) <==>
      a in agents && (LaneOf(a, phases) == Some(k) || (k == 0 && LaneOf(a, phases) == None))
  {
    ActsHave(g, agents, phases, Place(k, Live(a)));
    BeyondHas(g, agents, phases, k);
    InLaneHas(agents, phases, Some(k), a);
    InLaneHas(agents, phases, None, a);
    hide Acts, Beyond, Dense, InLane, LaneOf, LaneSlots, Covered;
  }

  lemma SkeletonPlaced(g: Graph, agents: seq<Agent>, phases: seq<Phase>, k: nat, s: Slot)
    requires Dense(g)
    ensures Place(k, Skeleton(s)) in Acts(g, agents, phases) <==>
      && k < |g.lanes| && !g.lanes[k].dynamic && s in LaneSlots(g, g.lanes[k].slots)
      && !(exists a :: Place(k, Live(a)) in Acts(g, agents, phases) && Carries(a, s))
  {
    ActsHave(g, agents, phases, Place(k, Skeleton(s)));
    var covering := Covering(k, InLane(agents, phases, Some(k)), InLane(agents, phases, None));
    hide Acts, Beyond, Carries, LaneSlots, LaneOf, InLane, Covering, Dense;
    forall a: Agent
      ensures a in covering <==> Place(k, Live(a)) in Acts(g, agents, phases)
    {
      CoveringHas(g, agents, phases, k, a);
    }
  }

  lemma CoveringHas(g: Graph, agents: seq<Agent>, phases: seq<Phase>, k: nat, a: Agent)
    requires Dense(g)
    ensures a in Covering(k, InLane(agents, phases, Some(k)), InLane(agents, phases, None))
      <==> Place(k, Live(a)) in Acts(g, agents, phases)
  {
    LivePlaced(g, agents, phases, k, a);
    InLaneHas(agents, phases, Some(k), a);
    InLaneHas(agents, phases, None, a);
    hide Acts, InLane, LaneOf, Dense;
  }

  lemma {:induction false} PlacesHave(acts: seq<Act>, p: Act)
    ensures p in Places(acts) <==> p in acts && p.Place?
  {
    if acts != [] {
      PlacesHave(acts[..|acts| - 1], p);
      assert acts == acts[..|acts| - 1] + [acts[|acts| - 1]];
    }
  }

  ghost predicate Shows(cells: seq<Cell>, k: nat, content: Content) {
    exists i :: 0 <= i < |cells| && cells[i].col == k + 1 && cells[i].content == content
  }

  lemma ShownIffPlaced(max: nat, acts: seq<Act>, k: nat, content: Content)
    ensures Shows(Play(max, START, acts).cells, k, content) ==> Place(k, content) in acts
    ensures !Play(max, START, acts).truncated ==>
      (Shows(Play(max, START, acts).cells, k, content) <==> Place(k, content) in acts)
  {
    CellsArePlaces(max, acts);
    PlacesHave(acts, Place(k, content));
    PlaySound(max, acts);
    var g, places, p := Play(max, START, acts), Places(acts), Place(k, content);
    hide Play, Places;
    if Shows(g.cells, k, content) {
      var i :| 0 <= i < |g.cells| && g.cells[i].col == k + 1 && g.cells[i].content == content;
      assert SamePlace(g.cells[i - 1 + 1], places[i - 1]);
      assert places[i - 1] == p;
    }
    if p in places && !g.truncated {
      var i :| 0 <= i < |places| && places[i] == p;
      assert SamePlace(g.cells[i + 1], places[i]);
    }
  }

  /** A predicted slot shows an inert cell exactly when no agent in its column carries one of its names. */
  lemma InertIffUncovered(g: Graph, agents: seq<Agent>, phases: seq<Phase>, max: nat, k: nat, s: Slot)
    requires Dense(g) && !Play(max, START, Acts(g, agents, phases)).truncated
    requires k < |g.lanes| && !g.lanes[k].dynamic && s in LaneSlots(g, g.lanes[k].slots)
    ensures var cells := Play(max, START, Acts(g, agents, phases)).cells;
      Shows(cells, k, Skeleton(s)) <==> !(exists a :: Shows(cells, k, Live(a)) && Carries(a, s))
  {
    var acts := Acts(g, agents, phases);
    var cells := Play(max, START, acts).cells;
    SkeletonPlaced(g, agents, phases, k, s);
    ShownIffPlaced(max, acts, k, Skeleton(s));
    forall a: Agent
      ensures Shows(cells, k, Live(a)) <==> Place(k, Live(a)) in acts
    {
      ShownIffPlaced(max, acts, k, Live(a));
    }
    hide Acts, Play, Shows, Carries, LaneSlots;
  }

  /** Cut short or not, an inert cell is only ever shown for a slot that no agent of its lane carries. */
  lemma InertIsUncovered(g: Graph, agents: seq<Agent>, phases: seq<Phase>, max: nat, k: nat, s: Slot)
    requires Dense(g) && Shows(Play(max, START, Acts(g, agents, phases)).cells, k, Skeleton(s))
    ensures k < |g.lanes| && !g.lanes[k].dynamic && s in LaneSlots(g, g.lanes[k].slots)
    ensures forall a :: a in agents && Carries(a, s) ==>
      LaneOf(a, phases) != Some(k) && (k == 0 ==> LaneOf(a, phases) != None)
  {
    ShownIffPlaced(max, Acts(g, agents, phases), k, Skeleton(s));
    SkeletonPlaced(g, agents, phases, k, s);
    forall a | a in agents && Carries(a, s)
      ensures LaneOf(a, phases) != Some(k) && (k == 0 ==> LaneOf(a, phases) != None)
    {
      LivePlaced(g, agents, phases, k, a);
    }
  }

  // ----- slots reached before a cut -----

  lemma {:induction false} PlacesConcat(a: seq<Act>, b: seq<Act>)
    ensures Places(a + b) == Places(a) + Places(b)
  {
    if b == [] {
      assert a + b == a;
    } else {
      assert (a + b)[..|a + b| - 1] == a + b[..|b| - 1];
      PlacesConcat(a, b[..|b| - 1]);
    }
  }

  /** What is placed while there is room is shown, whatever is cut later. */
  lemma FittingShown(max: nat, acts: seq<Act>, done: seq<Act>, p: Act)
    requires done <= acts && |Places(done)| <= max && p in done && p.Place?
    ensures Shows(Play(max, START, acts).cells, p.lane, p.content)
  {
    assert acts == done + acts[|done|..];
    PlacesConcat(done, acts[|done|..]);
    PlacesHave(done, p);
    CellsArePlaces(max, acts);
    var g := Play(max, START, acts);
    hide Play, Places;
    var i :| 0 <= i < |Places(done)| && Places(done)[i] == p;
    assert SamePlace(g.cells[i + 1], Places(acts)[i]);
  }

  /** What has been done when the turn of a lane's `j`-th slot comes. */
  function BeforeSlot(g: Graph, agents: seq<Agent>, phases: seq<Phase>, k: nat, j: nat): seq<Act>
    requires k < |g.lanes| && j <= |LaneSlots(g, g.lanes[k].slots)|
  {
    var own, implicit := InLane(agents, phases, Some(g.lanes[k].index)), InLane(agents, phases, None);
    var slots := LaneSlots(g, g.lanes[k].slots);
    AgentActs(0, implicit, Anything) + DeclaredActs(g, agents, phases, k)
      + (AgentActs(g.lanes[k].index, own, Names(AllNames(slots)))
         + SlotActs(g.lanes[k].index, slots[..j], Covering(g.lanes[k].index, own, implicit)))
  }

  lemma PrefixAfter<T>(a: seq<T>, b: seq<T>, c: seq<T>)
    requires b <= c
    ensures a + b <= a + c
  {
  }

  lemma PrefixBetween<T>(first: seq<T>, a: seq<T>, b: seq<T>, all: seq<T>, rest: seq<T>)
    requires a + b <= all
    ensures first + a + b <= first + all + rest
  {
    assert first + a + b == first + (a + b);
    PrefixAfter(first, a + b, all);
  }

  lemma BeforeSlotPrefix(g: Graph, agents: seq<Agent>, phases: seq<Phase>, k: nat, j: nat)
    requires k < |g.lanes| && !g.lanes[k].dynamic && j <= |LaneSlots(g, g.lanes[k].slots)|
    ensures BeforeSlot(g, agents, phases, k, j) <= Acts(g, agents, phases)
  {
    var own, implicit := InLane(agents, phases, Some(g.lanes[k].index)), InLane(agents, phases, None);
    var lane, slots := g.lanes[k], LaneSlots(g, g.lanes[k].slots);
    var covering, agentActs := Covering(lane.index, own, implicit), AgentActs(lane.index, own, Names(AllNames(slots)));
    var before, laneActs := DeclaredActs(g, agents, phases, k), LaneActs(g, lane, own, implicit);
    var inLane := agentActs + SlotActs(lane.index, slots[..j], covering);
    assert DeclaredActs(g, agents, phases, k + 1) == before + laneActs;
    assert laneActs == agentActs + SlotActs(lane.index, slots, covering);
    hide AgentActs, SlotActs, DeclaredActs, BeyondActs, LaneActs, InLane, AllNames, Covering, LaneSlots;
    SlotActsPrefix(lane.index, slots, covering, j);
    PrefixAfter(agentActs, SlotActs(lane.index, slots[..j], covering), SlotActs(lane.index, slots, covering));
    PrefixAfter(before, inLane, laneActs);
    DeclaredActsPrefix(g, agents, phases, k + 1, |g.lanes|);
    PrefixBetween(AgentActs(0, implicit, Anything), before, inLane, DeclaredActs(g, agents, phases, |g.lanes|),
                  BeyondActs(agents, phases, Beyond(g, agents, phases)));
  }

  lemma BeforeSlotNext(g: Graph, agents: seq<Agent>, phases: seq<Phase>, k: nat, j: nat)
    requires Dense(g) && k < |g.lanes| && j < |LaneSlots(g, g.lanes[k].slots)|
    ensures var s := LaneSlots(g, g.lanes[k].slots)[j];
      BeforeSlot(g, agents, phases, k, j + 1) == BeforeSlot(g, agents, phases, k, j)
        + if Covered(Covering(k, InLane(agents, phases, Some(k)), InLane(agents, phases, None)), s) then []
          else [Place(k, Skeleton(s))]
  {
    hide AgentActs, DeclaredActs, InLane, AllNames, Covering, Covered;
    var slots := LaneSlots(g, g.lanes[k].slots);
    assert slots[..j + 1][..j] == slots[..j];
    hide LaneSlots;
  }

  lemma CoveringPlaced(g: Graph, agents: seq<Agent>, phases: seq<Phase>, k: nat, j: nat, a: Agent)
    requires Dense(g) && k < |g.lanes| && j <= |LaneSlots(g, g.lanes[k].slots)|
    requires a in Covering(k, InLane(agents, phases, Some(k)), InLane(agents, phases, None))
    ensures Place(k, Live(a)) in BeforeSlot(g, agents, phases, k, j)
  {
    var own, implicit := InLane(agents, phases, Some(k)), InLane(agents, phases, None);
    AgentActsHave(0, implicit, Anything, Place(k, Live(a)));
    AgentActsHave(k, own, Names(AllNames(LaneSlots(g, g.lanes[k].slots))), Place(k, Live(a)));
    hide AgentActs, SlotActs, DeclaredActs, InLane, AllNames, LaneSlots;
  }

  /** Cut short or not: a slot whose turn comes while there is room shows an inert cell exactly when no agent in
      its column carries one of its names. */
  lemma ReachedInertIff(g: Graph, agents: seq<Agent>, phases: seq<Phase>, max: nat, k: nat, j: nat)
    requires Dense(g) && k < |g.lanes| && !g.lanes[k].dynamic && j < |LaneSlots(g, g.lanes[k].slots)|
    requires |Places(BeforeSlot(g, agents, phases, k, j))| < max
    ensures var cells, s := Play(max, START, Acts(g, agents, phases)).cells, LaneSlots(g, g.lanes[k].slots)[j];
      Shows(cells, k, Skeleton(s)) <==> !(exists a :: Shows(cells, k, Live(a)) && Carries(a, s))
  {
    var acts, s := Acts(g, agents, phases), LaneSlots(g, g.lanes[k].slots)[j];
    var cells, before := Play(max, START, acts).cells, BeforeSlot(g, agents, phases, k, j);
    var covering := Covering(k, InLane(agents, phases, Some(k)), InLane(agents, phases, None));
    BeforeSlotPrefix(g, agents, phases, k, j);
    BeforeSlotPrefix(g, agents, phases, k, j + 1);
    BeforeSlotNext(g, agents, phases, k, j);
    ShownIffPlaced(max, acts, k, Skeleton(s));
    SkeletonPlaced(g, agents, phases, k, s);
    hide Acts, Play, BeforeSlot, InLane, Covering, LaneSlots, Shows, Carries, Dense;
    forall a: Agent
      ensures Shows(cells, k, Live(a)) ==> Place(k, Live(a)) in acts
      ensures a in covering ==> Shows(cells, k, Live(a))
    {
      ShownIffPlaced(max, acts, k, Live(a));
      if a in covering {
        CoveringPlaced(g, agents, phases, k, j, a);
        FittingShown(max, acts, before, Place(k, Live(a)));
      }
    }
    if !Covered(covering, s) {
      PlacesConcat(before, [Place(k, Skeleton(s))]);
      OnePlace(Place(k, Skeleton(s)));
      FittingShown(max, acts, before + [Place(k, Skeleton(s))], Place(k, Skeleton(s)));
    }
  }

  lemma OnePlace(p: Act)
    requires p.Place?
    ensures Places([p]) == [p]
  {
    assert [p][..0] == [];
  }

  // ----- warnings -----

  lemma {:induction false} AgentActsWarn(lane: nat, agents: seq<Agent>, e: Expecting, id: string)
    ensures Warn(Unmatched(id)) in AgentActs(lane, agents, e)
      <==> exists a :: a in agents && a.agentId == id && !Expects(e, a)
  {
    hide Expects;
    if agents != [] {
      var front, last := agents[..|agents| - 1], agents[|agents| - 1];
      AgentActsWarn(lane, front, e, id);
      assert agents == front + [last];
    }
  }

  lemma {:induction false} SlotActsWarn(lane: nat, slots: seq<Slot>, covering: seq<Agent>, w: Warning)
    ensures Warn(w) !in SlotActs(lane, slots, covering)
  {
    hide Covered;
    if slots != [] {
      SlotActsWarn(lane, slots[..|slots| - 1], covering, w);
    }
  }

  /** An agent of a predicted lane that the lane did not predict. */
  ghost predicate Unpredicted(g: Graph, lane: Lane, a: Agent) {
    lane.dynamic || !(exists s :: s in LaneSlots(g, lane.slots) && Carries(a, s))
  }

  ghost predicate StrangerAmong(g: Graph, lane: Lane, own: seq<Agent>, id: string) {
    exists a :: a in own && a.agentId == id && Unpredicted(g, lane, a)
  }

  lemma ExpectedIffCarried(slots: seq<Slot>, a: Agent)
    ensures Expects(Names(AllNames(slots)), a) <==> exists s :: s in slots && Carries(a, s)
  {
    if a.name.Some? && a.name.value in AllNames(slots) {
      var i :| 0 <= i < |slots| && a.name.value in slots[i].names;
      assert slots[i] in slots && Carries(a, slots[i]);
    }
    if s :| s in slots && Carries(a, s) {
      var i :| 0 <= i < |slots| && slots[i] == s;
      assert a.name.value in slots[i].names;
    }
  }

  lemma LaneActsWarn(g: Graph, lane: Lane, own: seq<Agent>, implicit: seq<Agent>, id: string)
    ensures Warn(Unmatched(id)) in LaneActs(g, lane, own, implicit) <==> StrangerAmong(g, lane, own, id)
  {
    var slots := LaneSlots(g, lane.slots);
    AgentActsWarn(lane.index, own, Nothing, id);
    AgentActsWarn(lane.index, own, Names(AllNames(slots)), id);
    SlotActsWarn(lane.index, slots, Covering(lane.index, own, implicit), Unmatched(id));
    forall a: Agent
      ensures Expects(Names(AllNames(slots)), a) <==> exists s :: s in slots && Carries(a, s)
    {
      ExpectedIffCarried(slots, a);
    }
    assert forall a: Agent :: !Expects(Nothing, a);
    hide AgentActs, SlotActs, AllNames, LaneSlots, Carries, Covering, Expects;
  }

  /** Some agent with this id is in one of the first `n` lanes and was not predicted there. */
  ghost predicate Stranger(g: Graph, agents: seq<Agent>, phases: seq<Phase>, n: nat, id: string)
    requires n <= |g.lanes|
  {
    exists a :: a in agents && a.agentId == id && LaneOf(a, phases).Some? && LaneOf(a, phases).value < n
      && Unpredicted(g, g.lanes[LaneOf(a, phases).value], a)
  }

  lemma StrangerNext(g: Graph, agents: seq<Agent>, phases: seq<Phase>, n: nat, id: string)
    requires n < |g.lanes|
    ensures Stranger(g, agents, phases, n + 1, id) <==>
      || Stranger(g, agents, phases, n, id)
      || StrangerAmong(g, g.lanes[n], InLane(agents, phases, Some(n)), id)
  {
    hide Unpredicted, LaneOf, InLane;
    if a :| a in InLane(agents, phases, Some(n)) && a.agentId == id && Unpredicted(g, g.lanes[n], a) {
      InLaneHas(agents, phases, Some(n), a);
    }
    if a :| a in agents && a.agentId == id && LaneOf(a, phases) == Some(n) && Unpredicted(g, g.lanes[n], a) {
      InLaneHas(agents, phases, Some(n), a);
    }
  }

  lemma DeclaredActsNext(g: Graph, agents: seq<Agent>, phases: seq<Phase>, n: nat, act: Act)
    requires n < |g.lanes|
    ensures act in DeclaredActs(g, agents, phases, n + 1) <==>
      || act in DeclaredActs(g, agents, phases, n)
      || act in LaneActs(g, g.lanes[n], InLane(agents, phases, Some(g.lanes[n].index)), InLane(agents, phases, None))
  {
    hide LaneActs, InLane;
  }

  lemma DeclaredWarnNext(g: Graph, agents: seq<Agent>, phases: seq<Phase>, k: nat, id: string)
    requires k < |g.lanes| && g.lanes[k].index == k
    requires Warn(Unmatched(id)) in DeclaredActs(g, agents, phases, k) <==> Stranger(g, agents, phases, k, id)
    ensures Warn(Unmatched(id)) in DeclaredActs(g, agents, phases, k + 1) <==> Stranger(g, agents, phases, k + 1, id)
  {
    hide *;
    StrangerNext(g, agents, phases, k, id);
    DeclaredActsNext(g, agents, phases, k, Warn(Unmatched(id)));
    LaneActsWarn(g, g.lanes[k], InLane(agents, phases, Some(k)), InLane(agents, phases, None), id);
  }

  lemma {:induction false} DeclaredWarn(g: Graph, agents: seq<Agent>, phases: seq<Phase>, n: nat, id: string)
    requires Dense(g) && n <= |g.lanes|
    ensures Warn(Unmatched(id)) in DeclaredActs(g, agents, phases, n) <==> Stranger(g, agents, phases, n, id)
  {
    hide DeclaredActs, Stranger;
    if n == 0 {
      NoStranger(g, agents, phases, id);
    } else {
      DeclaredWarn(g, agents, phases, n - 1, id);
      DeclaredWarnNext(g, agents, phases, n - 1, id);
    }
  }

  lemma NoStranger(g: Graph, agents: seq<Agent>, phases: seq<Phase>, id: string)
    ensures !Stranger(g, agents, phases, 0, id) && DeclaredActs(g, agents, phases, 0) == []
  {
  }

  lemma {:induction false} BeyondWarn(agents: seq<Agent>, phases: seq<Phase>, lanes: seq<nat>, id: string)
    ensures Warn(Unmatched(id)) !in BeyondActs(agents, phases, lanes)
  {
    hide InLane, AgentActs;
    if lanes != [] {
      BeyondWarn(agents, phases, lanes[..|lanes| - 1], id);
      NoUnmatched(lanes[|lanes| - 1], InLane(agents, phases, Some(lanes[|lanes| - 1])), id);
    }
  }

  lemma NoUnmatched(lane: nat, agents: seq<Agent>, id: string)
    ensures Warn(Unmatched(id)) !in AgentActs(lane, agents, Anything)
  {
    AgentActsWarn(lane, agents, Anything, id);
    hide AgentActs;
  }

  lemma {:induction false} PlayWarns(max: nat, acts: seq<Act>, w: Warning)
    requires !Play(max, START, acts).truncated
    ensures w in Play(max, START, acts).warnings <==> Warn(w) in acts
  {
    if acts != [] {
      PlayWarns(max, acts[..|acts| - 1], w);
      assert acts == acts[..|acts| - 1] + [acts[|acts| - 1]];
    }
  }

  /** Who is warned about, branch by branch: an agent of a dynamic lane, or of a predicted lane none of whose
      slots carries its name; never one of no lane, or of a lane past the predicted ones. */
  lemma UnmatchedWarned(g: Graph, agents: seq<Agent>, phases: seq<Phase>, max: nat, id: string)
    requires Dense(g) && !Play(max, START, Acts(g, agents, phases)).truncated
    ensures Unmatched(id) in Play(max, START, Acts(g, agents, phases)).warnings
      <==> Stranger(g, agents, phases, |g.lanes|, id)
  {
    PlayWarns(max, Acts(g, agents, phases), Unmatched(id));
    NoUnmatched(0, InLane(agents, phases, None), id);
    DeclaredWarn(g, agents, phases, |g.lanes|, id);
    BeyondWarn(agents, phases, Beyond(g, agents, phases), id);
    hide Play, AgentActs, DeclaredActs, BeyondActs, InLane, Beyond, Stranger, Dense;
  }

  // ----- edges -----

  datatype CellId = TriggerId | AgentId(id: string) | SkeletonId(slot: nat)
  datatype Edge = Edge(from: CellId, to: CellId)

  function IdOf(c: Cell): CellId {
    match c.content
    case Trigger => TriggerId
    case Live(a) => AgentId(a.agentId)
    case Skeleton(s) => SkeletonId(s.index)
  }

  function Column(cells: seq<Cell>, col: nat): seq<Cell> {
    if cells == [] then []
    else
      var front, last := cells[..|cells| - 1], cells[|cells| - 1];
      Column(front, col) + if last.col == col then [last] else []
  }

  lemma {:induction false} ColumnHas(cells: seq<Cell>, col: nat, c: Cell)
    ensures c in Column(cells, col) <==> c in cells && c.col == col
  {
    if cells != [] {
      ColumnHas(cells[..|cells| - 1], col, c);
      assert cells == cells[..|cells| - 1] + [cells[|cells| - 1]];
    }
  }

  ghost predicate InUse(cells: seq<Cell>, k: nat) {
    exists c :: c in cells && c.col == k
  }

  lemma {:induction false} ColumnsMetHas(cells: seq<Cell>, k: nat)
    ensures k in ColumnsMet(cells) <==> InUse(cells, k)
  {
    if cells != [] {
      ColumnsMetHas(cells[..|cells| - 1], k);
      assert cells == cells[..|cells| - 1] + [cells[|cells| - 1]];
    }
  }

  lemma {:induction false} ColumnsMetOnce(cells: seq<Cell>)
    ensures NoRepeats(ColumnsMet(cells))
  {
    if cells != [] {
      ColumnsMetOnce(cells[..|cells| - 1]);
    }
  }

  function ColumnsMet(cells: seq<Cell>): seq<nat> {
    if cells == [] then []
    else
      var front, last := cells[..|cells| - 1], cells[|cells| - 1];
      var before := ColumnsMet(front);
      if last.col in before then before else before + [last.col]
  }

  function Columns(cells: seq<Cell>): seq<nat> {
    Sort(ColumnsMet(cells), k => k)
  }

  function FanOne(from: Cell, tos: seq<Cell>): seq<Edge> {
    if tos == [] then [] else FanOne(from, tos[..|tos| - 1]) + [Edge(IdOf(from), IdOf(tos[|tos| - 1]))]
  }

  function Fan(froms: seq<Cell>, tos: seq<Cell>): seq<Edge> {
    if froms == [] then [] else Fan(froms[..|froms| - 1], tos) + FanOne(froms[|froms| - 1], tos)
  }

  lemma {:induction false} FanOneHas(from: Cell, tos: seq<Cell>, e: Edge)
    ensures e in FanOne(from, tos) <==> exists b :: b in tos && e == Edge(IdOf(from), IdOf(b))
  {
    if tos != [] {
      FanOneHas(from, tos[..|tos| - 1], e);
      assert tos == tos[..|tos| - 1] + [tos[|tos| - 1]];
    }
  }

  lemma {:induction false} FanHas(froms: seq<Cell>, tos: seq<Cell>, e: Edge)
    ensures e in Fan(froms, tos) <==> exists a, b :: a in froms && b in tos && e == Edge(IdOf(a), IdOf(b))
  {
    if froms != [] {
      FanHas(froms[..|froms| - 1], tos, e);
      FanOneHas(froms[|froms| - 1], tos, e);
      assert froms == froms[..|froms| - 1] + [froms[|froms| - 1]];
    }
  }

  /** The edges out of the first `n` columns of a list. */
  function Fans(cells: seq<Cell>, cols: seq<nat>, n: nat): (r: seq<Edge>)
    requires n == 0 || n < |cols|
    ensures n == 0 ==> r == []
  {
    if n == 0 then []
    else Fans(cells, cols, n - 1) + Fan(Column(cells, cols[n - 1]), Column(cells, cols[n]))
  }

  function EdgesOf(cells: seq<Cell>): seq<Edge> {
    var cols := Columns(cells);
    Fans(cells, cols, if cols == [] then 0 else |cols| - 1)
  }

  /** `d` is the next column after `c` that holds a cell. */
  ghost predicate NextColumn(cells: seq<Cell>, c: nat, d: nat) {
    c < d && forall x :: x in cells ==> !(c < x.col < d)
  }

  lemma ColumnsAscend(cells: seq<Cell>)
    ensures forall i, j :: 0 <= i < j < |Columns(cells)| ==> Columns(cells)[i] < Columns(cells)[j]
    ensures forall k :: k in Columns(cells) <==> InUse(cells, k)
  {
    var met := ColumnsMet(cells);
    ColumnsMetOnce(cells);
    SortAscends(met, k => k);
    hide ColumnsMet, InUse;
    forall k: nat
      ensures multiset(Columns(cells))[k] <= 1
      ensures k in Columns(cells) <==> InUse(cells, k)
    {
      CountNoRepeats(met, k);
      ColumnsMetHas(cells, k);
    }
    NoRepeatsByCount(Columns(cells));
  }

  /** `e` runs from a cell of one column to a cell of the other. */
  ghost predicate Joins(cells: seq<Cell>, c: nat, d: nat, e: Edge) {
    exists a, b :: a in cells && b in cells && a.col == c && b.col == d && e == Edge(IdOf(a), IdOf(b))
  }

  lemma FanJoins(cells: seq<Cell>, c: nat, d: nat, e: Edge)
    ensures e in Fan(Column(cells, c), Column(cells, d)) <==> Joins(cells, c, d, e)
  {
    var froms, tos := Column(cells, c), Column(cells, d);
    FanHas(froms, tos, e);
    forall x
      ensures x in froms <==> x in cells && x.col == c
      ensures x in tos <==> x in cells && x.col == d
    {
      ColumnHas(cells, c, x);
      ColumnHas(cells, d, x);
    }
    hide Fan, Column, IdOf;
    if Joins(cells, c, d, e) {
      var a, b :| a in cells && b in cells && a.col == c && b.col == d && e == Edge(IdOf(a), IdOf(b));
      assert a in froms && b in tos;
    }
    if e in Fan(froms, tos) {
      var a, b :| a in froms && b in tos && e == Edge(IdOf(a), IdOf(b));
      assert a in cells && b in cells;
    }
  }

  ghost predicate JoinsAt(cells: seq<Cell>, cols: seq<nat>, i: nat, e: Edge) {
    i + 1 < |cols| && Joins(cells, cols[i], cols[i + 1], e)
  }

  lemma FansNext(cells: seq<Cell>, cols: seq<nat>, n: nat, e: Edge)
    requires n + 1 < |cols|
    ensures e in Fans(cells, cols, n + 1) <==> e in Fans(cells, cols, n) || JoinsAt(cells, cols, n, e)
  {
    FanJoins(cells, cols[n], cols[n + 1], e);
    var more := Fan(Column(cells, cols[n]), Column(cells, cols[n + 1]));
    assert Fans(cells, cols, n + 1) == Fans(cells, cols, n) + more;
    hide Joins, Fan, Column, Fans;
  }

  lemma {:induction false} FansHave(cells: seq<Cell>, cols: seq<nat>, n: nat, e: Edge)
    requires n == 0 || n < |cols|
    ensures e in Fans(cells, cols, n) <==> exists i :: 0 <= i < n && JoinsAt(cells, cols, i, e)
  {
    hide JoinsAt, Fans;
    if n > 0 {
      FansHave(cells, cols, n - 1, e);
      FansNext(cells, cols, n - 1, e);
    }
  }

  lemma NextInOrder(cells: seq<Cell>, i: nat, j: nat)
    requires i < |Columns(cells)| && j < |Columns(cells)|
    ensures NextColumn(cells, Columns(cells)[i], Columns(cells)[j]) <==> j == i + 1
  {
    var cols := Columns(cells);
    ColumnsAscend(cells);
    hide Columns;
    if j == i + 1 {
      forall x | x in cells
        ensures !(cols[i] < x.col < cols[j])
      {
        assert x.col in cols;
        var k :| 0 <= k < |cols| && cols[k] == x.col;
        assert k <= i || k >= j;
      }
    } else if cols[i] < cols[j] {
      assert i + 1 < j;
      assert cols[i + 1] in cols;
      var x :| x in cells && x.col == cols[i + 1];
      assert cols[i] < x.col < cols[j];
    }
  }

  lemma NeighboursJoined(cells: seq<Cell>, a: Cell, b: Cell) returns (i: nat)
    requires a in cells && b in cells && NextColumn(cells, a.col, b.col)
    ensures i + 1 < |Columns(cells)| && Columns(cells)[i] == a.col && Columns(cells)[i + 1] == b.col
  {
    var cols := Columns(cells);
    ColumnsAscend(cells);
    hide Columns, NextColumn;
    assert a.col in cols && b.col in cols;
    i :| 0 <= i < |cols| && cols[i] == a.col;
    var j :| 0 <= j < |cols| && cols[j] == b.col;
    NextInOrder(cells, i, j);
  }

  /** The edges join exactly the cells of one occupied column with those of the next. */
  lemma EdgesJoinNeighbours(cells: seq<Cell>, e: Edge)
    ensures e in EdgesOf(cells) <==>
      exists a, b :: a in cells && b in cells && NextColumn(cells, a.col, b.col) && e == Edge(IdOf(a), IdOf(b))
  {
    var cols := Columns(cells);
    FansHave(cells, cols, if cols == [] then 0 else |cols| - 1, e);
    hide Columns, NextColumn, Fans, IdOf;
    if e in EdgesOf(cells) {
      var i: nat :| i < |cols| - 1 && JoinsAt(cells, cols, i, e);
      NextInOrder(cells, i, i + 1);
    }
    if a, b :| a in cells && b in cells && NextColumn(cells, a.col, b.col) && e == Edge(IdOf(a), IdOf(b)) {
      var i := NeighboursJoined(cells, a, b);
      assert JoinsAt(cells, cols, i, e);
    }
  }

  /** Cells with one identity are in one column. */
  ghost predicate IdsAgree(cells: seq<Cell>) {
    forall a, b :: a in cells && b in cells && IdOf(a) == IdOf(b) ==> a.col == b.col
  }

  ghost predicate Path(edges: seq<Edge>, p: seq<CellId>) {
    |p| > 1 && forall i :: 0 <= i < |p| - 1 ==> Edge(p[i], p[i + 1]) in edges
  }

  lemma {:induction false} PathClimbs(cells: seq<Cell>, p: seq<CellId>, a: Cell, b: Cell)
    requires IdsAgree(cells) && Path(EdgesOf(cells), p)
    requires a in cells && b in cells && IdOf(a) == p[0] && IdOf(b) == p[|p| - 1]
    ensures a.col < b.col
    decreases |p|
  {
    hide EdgesOf;
    EdgesJoinNeighbours(cells, Edge(p[0], p[1]));
    var x, y :| x in cells && y in cells && NextColumn(cells, x.col, y.col)
      && Edge(p[0], p[1]) == Edge(IdOf(x), IdOf(y));
    if |p| > 2 {
      forall i | 0 <= i < |p[1..]| - 1
        ensures Edge(p[1..][i], p[1..][i + 1]) in EdgesOf(cells)
      {
        assert Edge(p[i + 1], p[i + 1 + 1]) in EdgesOf(cells);
      }
      PathClimbs(cells, p[1..], y, b);
    }
  }

  /** The graph has no cycle. */
  lemma NoCycle(cells: seq<Cell>, p: seq<CellId>)
    requires IdsAgree(cells) && Path(EdgesOf(cells), p)
    ensures p[0] != p[|p| - 1]
  {
    EdgesJoinNeighbours(cells, Edge(p[0], p[1]));
    EdgesJoinNeighbours(cells, Edge(p[|p| - 2], p[|p| - 2 + 1]));
    hide EdgesOf;
    var a :| a in cells && IdOf(a) == p[0];
    var b :| b in cells && IdOf(b) == p[|p| - 1];
    PathClimbs(cells, p, a, b);
  }

  /** Agents and predicted slots are told apart by their identities. */
  ghost predicate Identified(g: Graph, agents: seq<Agent>) {
    && (forall a, b :: a in agents && b in agents && a.agentId == b.agentId ==> a == b)
    && (forall j, k, s, t :: 0 <= j < |g.lanes| && 0 <= k < |g.lanes| ==>
      s in LaneSlots(g, g.lanes[j].slots) && t in LaneSlots(g, g.lanes[k].slots) && s.index == t.index ==> j == k)
  }

  lemma LayoutIdsAgree(g: Graph, agents: seq<Agent>, phases: seq<Phase>, max: nat)
    requires Dense(g) && Identified(g, agents)
    ensures IdsAgree(Play(max, START, Acts(g, agents, phases)).cells)
  {
    var acts := Acts(g, agents, phases);
    var cells := Play(max, START, acts).cells;
    PlaySound(max, acts);
    CellsArePlaces(max, acts);
    hide Acts, Play;
    forall a, b | a in cells && b in cells && IdOf(a) == IdOf(b)
      ensures a.col == b.col
    {
      TriggerInPlace(g, agents, phases, max, a);
      TriggerInPlace(g, agents, phases, max, b);
      if a.col > 0 && b.col > 0 {
        CellPlaced(max, acts, a);
        CellPlaced(max, acts, b);
        if a.content.Live? {
          LivePlaced(g, agents, phases, a.col - 1, a.content.agent);
          LivePlaced(g, agents, phases, b.col - 1, b.content.agent);
        } else if a.content.Skeleton? {
          SkeletonPlaced(g, agents, phases, a.col - 1, a.content.slot);
          SkeletonPlaced(g, agents, phases, b.col - 1, b.content.slot);
        }
      }
    }
  }

  lemma TriggerInPlace(g: Graph, agents: seq<Agent>, phases: seq<Phase>, max: nat, c: Cell)
    requires Dense(g) && c in Play(max, START, Acts(g, agents, phases)).cells
    ensures c.content == Trigger <==> c.col == 0
  {
    var acts := Acts(g, agents, phases);
    PlaySound(max, acts);
    hide Acts, Play;
    if c.col > 0 {
      CellPlaced(max, acts, c);
      ActsHave(g, agents, phases, Place(c.col - 1, c.content));
    }
  }

  lemma CellPlaced(max: nat, acts: seq<Act>, c: Cell)
    requires c in Play(max, START, acts).cells && c.col > 0
    ensures Place(c.col - 1, c.content) in acts
  {
    ShownIffPlaced(max, acts, c.col - 1, c.content);
  }

  // ----- the layout as it is built -----

  lemma CutHere(max: nat, g: Grid, done: seq<Act>, all: seq<Act>)
    requires done <= all && Play(max, g, done).truncated
    ensures Play(max, g, all) == Play(max, g, done)
  {
    assert all == done + all[|done|..];
    PlayConcat(max, g, done, all[|done|..]);
    TruncatedStays(max, Play(max, g, done), all[|done|..]);
  }

  lemma PlayOne(max: nat, g: Grid, acts: seq<Act>, act: Act)
    ensures Play(max, g, acts + [act]) == Do(max, Play(max, g, acts), act)
  {
    assert (acts + [act])[..|acts|] == acts;
  }

  lemma {:induction false} AgentActsPrefix(lane: nat, agents: seq<Agent>, e: Expecting, i: nat)
    requires i <= |agents|
    ensures AgentActs(lane, agents[..i], e) <= AgentActs(lane, agents, e)
  {
    if i == |agents| {
      assert agents[..i] == agents;
    } else {
      AgentActsPrefix(lane, agents[..|agents| - 1], e, i);
      assert agents[..|agents| - 1][..i] == agents[..i];
    }
  }

  lemma {:induction false} SlotActsPrefix(lane: nat, slots: seq<Slot>, covering: seq<Agent>, i: nat)
    requires i <= |slots|
    ensures SlotActs(lane, slots[..i], covering) <= SlotActs(lane, slots, covering)
  {
    if i == |slots| {
      assert slots[..i] == slots;
    } else {
      SlotActsPrefix(lane, slots[..|slots| - 1], covering, i);
      assert slots[..|slots| - 1][..i] == slots[..i];
    }
  }

  lemma {:induction false} DeclaredActsPrefix(g: Graph, agents: seq<Agent>, phases: seq<Phase>, i: nat, n: nat)
    requires i <= n <= |g.lanes|
    ensures DeclaredActs(g, agents, phases, i) <= DeclaredActs(g, agents, phases, n)
  {
    hide LaneActs, InLane;
    if i < n {
      DeclaredActsPrefix(g, agents, phases, i, n - 1);
    }
  }

  lemma {:induction false} BeyondActsPrefix(agents: seq<Agent>, phases: seq<Phase>, lanes: seq<nat>, i: nat)
    requires i <= |lanes|
    ensures BeyondActs(agents, phases, lanes[..i]) <= BeyondActs(agents, phases, lanes)
  {
    hide InLane, AgentActs;
    if i == |lanes| {
      assert lanes[..i] == lanes;
    } else {
      BeyondActsPrefix(agents, phases, lanes[..|lanes| - 1], i);
      assert lanes[..|lanes| - 1][..i] == lanes[..i];
    }
  }

  /** One agent's acts played after those of the agents before it. */
  lemma AgentActsNext(max: nat, g: Grid, lane: nat, agents: seq<Agent>, e: Expecting, i: nat)
    requires i < |agents|
    ensures var placed := Do(max, Play(max, g, AgentActs(lane, agents[..i], e)), Place(lane, Live(agents[i])));
      Play(max, g, AgentActs(lane, agents[..i + 1], e))
        == if Expects(e, agents[i]) then placed else Do(max, placed, Warn(Unmatched(agents[i].agentId)))
  {
    assert agents[..i + 1][..i] == agents[..i];
    var acts, a := AgentActs(lane, agents[..i], e), agents[i];
    var place, warn := Place(lane, Live(a)), Warn(Unmatched(a.agentId));
    assert AgentActs(lane, agents[..i + 1], e) == if Expects(e, a) then acts + [place] else acts + [place] + [warn];
    hide AgentActs, Play, Do, Expects;
    PlayOne(max, g, acts, place);
    PlayOne(max, g, acts + [place], warn);
  }

  lemma SlotActsNext(max: nat, g: Grid, lane: nat, slots: seq<Slot>, covering: seq<Agent>, i: nat)
    requires i < |slots|
    ensures var before := Play(max, g, SlotActs(lane, slots[..i], covering));
      Play(max, g, SlotActs(lane, slots[..i + 1], covering))
        == if Covered(covering, slots[i]) then before else Do(max, before, Place(lane, Skeleton(slots[i])))
  {
    assert slots[..i + 1][..i] == slots[..i];
    assert SlotActs(lane, slots[..i], covering) + [] == SlotActs(lane, slots[..i], covering);
    PlayOne(max, g, SlotActs(lane, slots[..i], covering), Place(lane, Skeleton(slots[i])));
    hide Play, Do, Covered;
  }

  lemma NoActs(max: nat, g: Grid, lane: nat, e: Expecting, covering: seq<Agent>)
    ensures Play(max, g, AgentActs(lane, [], e)) == g && Play(max, g, SlotActs(lane, [], covering)) == g
  {
  }

  class Builder {
    const maxNodes: nat
    var cells: seq<Cell>
    var rowCounters: map<nat, nat>
    var agentCellCount: nat
    var warnings: seq<Warning>
    var truncated: bool

    ghost function View(): Grid
      reads this
    {
      Grid(cells, rowCounters, agentCellCount, warnings, truncated)
    }

    constructor (maxNodes: nat)
      ensures View() == START && this.maxNodes == maxNodes
    {
      this.maxNodes := maxNodes;
      cells := [Cell(0, 0, Trigger)];
      rowCounters, agentCellCount, warnings, truncated := map[], 0, [], false;
    }

    method TakeRow(lane: nat) returns (row: nat)
      modifies this`rowCounters
      ensures row == NextRow(old(rowCounters), lane) && rowCounters == old(rowCounters)[lane := row + 1]
    {
      row := if lane in rowCounters then rowCounters[lane] else 0;
      rowCounters := rowCounters[lane := row + 1];
    }

    method PlaceCell(lane: nat, content: Content)
      modifies this
      ensures View() == Placed(old(View()), lane, content)
    {
      var row := TakeRow(lane);
      cells := cells + [Cell(lane + 1, row, content)];
      agentCellCount := agentCellCount + 1;
    }

    method PlaceAgents(lane: nat, agents: seq<Agent>, e: Expecting)
      requires !truncated
      modifies this
      ensures View() == Play(maxNodes, old(View()), AgentActs(lane, agents, e))
    {
      ghost var g := View();
      hide AgentActs, Play, Expects;
      NoActs(maxNodes, g, lane, e, []);
      assert agents[..0] == [];
      var i := 0;
      while i < |agents| && !truncated
        invariant i <= |agents| && View() == Play(maxNodes, g, AgentActs(lane, agents[..i], e))
      {
        AgentActsNext(maxNodes, g, lane, agents, e, i);
        if agentCellCount >= maxNodes {
          truncated := true;
        } else {
          PlaceCell(lane, Live(agents[i]));
          if !Expects(e, agents[i]) {
            warnings := warnings + [Unmatched(agents[i].agentId)];
          }
        }
        i := i + 1;
      }
      AgentActsPrefix(lane, agents, e, i);
      if truncated {
        CutHere(maxNodes, g, AgentActs(lane, agents[..i], e), AgentActs(lane, agents, e));
      } else {
        assert agents[..i] == agents;
      }
    }

    /** Inert cells for the predicted slots no covering agent carries. */
    method PlaceSlots(lane: nat, slots: seq<Slot>, covering: seq<Agent>)
      requires !truncated
      modifies this
      ensures View() == Play(maxNodes, old(View()), SlotActs(lane, slots, covering))
    {
      ghost var g := View();
      hide SlotActs, Play, Covered;
      NoActs(maxNodes, g, lane, Anything, covering);
      assert slots[..0] == [];
      var i := 0;
      while i < |slots| && !truncated
        invariant i <= |slots| && View() == Play(maxNodes, g, SlotActs(lane, slots[..i], covering))
      {
        SlotActsNext(maxNodes, g, lane, slots, covering, i);
        if !Covered(covering, slots[i]) {
          if agentCellCount >= maxNodes {
            truncated := true;
          } else {
            PlaceCell(lane, Skeleton(slots[i]));
          }
        }
        i := i + 1;
      }
      SlotActsPrefix(lane, slots, covering, i);
      if truncated {
        CutHere(maxNodes, g, SlotActs(lane, slots[..i], covering), SlotActs(lane, slots, covering));
      } else {
        assert slots[..i] == slots;
      }
    }

    method PlaceBeyondLane(k: nat, own: seq<Agent>)
      requires !truncated
      modifies this
      ensures View() == Play(maxNodes, Do(maxNodes, old(View()), Warn(BeyondPredicted(k))), AgentActs(k, own, Anything))
    {
      hide AgentActs, Play;
      warnings := warnings + [BeyondPredicted(k)];
      PlaceAgents(k, own, Anything);
    }

    method PlaceLane(g: Graph, lane: Lane, own: seq<Agent>, implicit: seq<Agent>)
      requires !truncated
      modifies this
      ensures View() == Play(maxNodes, old(View()), LaneActs(g, lane, own, implicit))
    {
      ghost var start := View();
      hide AgentActs, SlotActs, AllNames;
      if lane.dynamic {
        warnings := warnings + [DynamicLane(lane.index)];
        PlaceAgents(lane.index, own, Nothing);
        PlayConcat(maxNodes, start, [Warn(DynamicLane(lane.index))], AgentActs(lane.index, own, Nothing));
        PlayOne(maxNodes, start, [], Warn(DynamicLane(lane.index)));
        assert [] + [Warn(DynamicLane(lane.index))] == [Warn(DynamicLane(lane.index))];
        return;
      }
      var slots := LaneSlots(g, lane.slots);
      var names := AllNames(slots);
      PlaceAgents(lane.index, own, Names(names));
      var covering := if lane.index == 0 then own + implicit else own;
      PlayConcat(maxNodes, start, AgentActs(lane.index, own, Names(names)), SlotActs(lane.index, slots, covering));
      if truncated {
        TruncatedStays(maxNodes, View(), SlotActs(lane.index, slots, covering));
      } else {
        PlaceSlots(lane.index, slots, covering);
      }
    }
  }

  function Get(byLane: map<nat, seq<Agent>>, k: nat): seq<Agent> {
    if k in byLane then byLane[k] else []
  }

  ghost predicate Grouped(byLane: map<nat, seq<Agent>>, agents: seq<Agent>, phases: seq<Phase>) {
    forall k: nat :: Get(byLane, k) == Among(agents, phases, Some(k))
  }

  ghost predicate Keyed<T>(byKey: map<nat, T>, keys: seq<nat>) {
    forall k :: k in byKey <==> k in keys
  }

  lemma KeyedNext<T>(byKey: map<nat, T>, keys: seq<nat>, k: nat, v: T)
    requires Keyed(byKey, keys)
    ensures Keyed(byKey[k := v], if k in byKey then keys else keys + [k])
    ensures k in byKey <==> k in keys
  {
  }

  lemma NoKeys<T>()
    ensures Keyed<T>(map[], [])
  {
  }

  lemma AmongNext(front: seq<Agent>, a: Agent, phases: seq<Phase>, lane: Option<nat>)
    ensures Among(front + [a], phases, lane)
      == if LaneOf(a, phases) == lane then Among(front, phases, lane) + [a] else Among(front, phases, lane)
  {
    assert (front + [a])[..|front|] == front;
    assert Among(front, phases, lane) + [] == Among(front, phases, lane);
  }

  lemma GroupedNext(byLane: map<nat, seq<Agent>>, front: seq<Agent>, a: Agent, phases: seq<Phase>)
    requires Grouped(byLane, front, phases)
    ensures LaneOf(a, phases).None? ==> Grouped(byLane, front + [a], phases)
    ensures LaneOf(a, phases).Some? ==>
      Grouped(byLane[LaneOf(a, phases).value := Get(byLane, LaneOf(a, phases).value) + [a]], front + [a], phases)
  {
    hide LaneOf, Among;
    forall k: nat
      ensures Among(front + [a], phases, Some(k))
        == if LaneOf(a, phases) == Some(k) then Among(front, phases, Some(k)) + [a] else Among(front, phases, Some(k))
    {
      AmongNext(front, a, phases, Some(k));
    }
  }

  lemma MetNext(front: seq<Agent>, a: Agent, phases: seq<Phase>)
    ensures LanesMet(front + [a], phases) ==
      if LaneOf(a, phases).Some? && LaneOf(a, phases).value !in LanesMet(front, phases)
      then LanesMet(front, phases) + [LaneOf(a, phases).value] else LanesMet(front, phases)
  {
    assert (front + [a])[..|front|] == front;
  }

  lemma NothingGrouped(phases: seq<Phase>)
    ensures Grouped(map[], [], phases) && LanesMet([], phases) == [] && Among([], phases, None) == []
  {
  }

  /** Groups the live agents by lane. */
  method GroupByLane(agents: seq<Agent>, phases: seq<Phase>)
    returns (byLane: map<nat, seq<Agent>>, keys: seq<nat>, implicit: seq<Agent>)
    ensures keys == LanesMet(agents, phases) && Grouped(byLane, agents, phases)
    ensures implicit == Among(agents, phases, None)
  {
    hide Among, LanesMet, LaneOf, Grouped, Keyed;
    byLane, keys, implicit := map[], [], [];
    NothingGrouped(phases);
    NoKeys<seq<Agent>>();
    assert agents[..0] == [];
    for i := 0 to |agents|
      invariant keys == LanesMet(agents[..i], phases) && Keyed(byLane, keys) && Grouped(byLane, agents[..i], phases)
      invariant implicit == Among(agents[..i], phases, None)
    {
      var a := agents[i];
      var lane := LaneFor(a, phases);
      assert agents[..i + 1] == agents[..i] + [a];
      AmongNext(agents[..i], a, phases, None);
      GroupedNext(byLane, agents[..i], a, phases);
      MetNext(agents[..i], a, phases);
      if lane.None? {
        implicit := implicit + [a];
      } else {
        KeyedNext(byLane, keys, lane.value, Get(byLane, lane.value) + [a]);
        if lane.value !in byLane {
          keys := keys + [lane.value];
        }
        byLane := byLane[lane.value := Get(byLane, lane.value) + [a]];
      }
    }
    assert agents[..|agents|] == agents;
  }

  method LaneFor(a: Agent, phases: seq<Phase>) returns (lane: Option<nat>)
    ensures lane == LaneOf(a, phases)
  {
    lane := a.phaseIndex;
    if lane.None? {
      lane := InferPhaseIndex(a, phases);
    }
  }

  /** Cells by column. */
  ghost predicate ByColumn(byCol: map<nat, seq<Cell>>, cells: seq<Cell>) {
    forall k :: k in byCol ==> byCol[k] == Column(cells, k)
  }

  lemma ColumnNext(front: seq<Cell>, c: Cell, k: nat)
    ensures Column(front + [c], k) == if c.col == k then Column(front, k) + [c] else Column(front, k)
    ensures ColumnsMet(front + [c])
      == if c.col in ColumnsMet(front) then ColumnsMet(front) else ColumnsMet(front) + [c.col]
  {
    assert (front + [c])[..|front|] == front;
    assert Column(front, k) + [] == Column(front, k);
  }

  lemma {:induction false} EmptyColumn(cells: seq<Cell>, k: nat)
    requires k !in ColumnsMet(cells)
    ensures Column(cells, k) == []
  {
    if cells != [] {
      EmptyColumn(cells[..|cells| - 1], k);
    }
  }

  lemma ByColumnNext(byCol: map<nat, seq<Cell>>, front: seq<Cell>, c: Cell)
    requires ByColumn(byCol, front) && Keyed(byCol, ColumnsMet(front))
    ensures ByColumn(byCol[c.col := (if c.col in byCol then byCol[c.col] else []) + [c]], front + [c])
  {
    if c.col !in byCol {
      EmptyColumn(front, c.col);
    }
    hide Column, ColumnsMet;
    var more := byCol[c.col := (if c.col in byCol then byCol[c.col] else []) + [c]];
    forall k | k in more
      ensures more[k] == Column(front + [c], k)
    {
      ColumnNext(front, c, k);
    }
  }

  lemma NoCells()
    ensures ColumnsMet([]) == [] && ByColumn(map[], [])
  {
  }

  method GroupByColumn(cells: seq<Cell>) returns (byCol: map<nat, seq<Cell>>, met: seq<nat>)
    ensures ByColumn(byCol, cells) && met == ColumnsMet(cells) && Keyed(byCol, met)
  {
    hide Column, ColumnsMet, ByColumn, Keyed;
    byCol, met := map[], [];
    NoCells();
    NoKeys<seq<Cell>>();
    assert cells[..0] == [];
    for i := 0 to |cells|
      invariant ByColumn(byCol, cells[..i]) && met == ColumnsMet(cells[..i]) && Keyed(byCol, met)
    {
      var c := cells[i];
      assert cells[..i + 1] == cells[..i] + [c];
      ByColumnNext(byCol, cells[..i], c);
      ColumnNext(cells[..i], c, c.col);
      KeyedNext(byCol, met, c.col, (if c.col in byCol then byCol[c.col] else []) + [c]);
      if c.col !in byCol {
        met := met + [c.col];
      }
      byCol := byCol[c.col := (if c.col in byCol then byCol[c.col] else []) + [c]];
    }
    assert cells[..|cells|] == cells;
  }

  lemma ColumnAt(byCol: map<nat, seq<Cell>>, cells: seq<Cell>, i: nat)
    requires ByColumn(byCol, cells) && Keyed(byCol, ColumnsMet(cells)) && i < |Columns(cells)|
    ensures Columns(cells)[i] in byCol && byCol[Columns(cells)[i]] == Column(cells, Columns(cells)[i])
  {
    hide Column, ColumnsMet, Sort;
    assert Columns(cells)[i] in Columns(cells);
  }

  lemma OneMoreFan(cells: seq<Cell>, cols: seq<nat>, n: nat)
    requires n + 1 < |cols|
    ensures Fans(cells, cols, n + 1) == Fans(cells, cols, n) + Fan(Column(cells, cols[n]), Column(cells, cols[n + 1]))
  {
  }

  method BuildEdges(cells: seq<Cell>) returns (edges: seq<Edge>)
    ensures edges == EdgesOf(cells)
  {
    hide Column, ColumnsMet, Sort, Fan, Fans, ByColumn, Keyed;
    var byCol, met := GroupByColumn(cells);
    var cols := Sort(met, k => k);
    assert cols == Columns(cells);
    hide Columns;
    edges := [];
    var i := 0;
    while i < |cols| - 1
      invariant i == 0 || i < |cols|
      invariant edges == Fans(cells, cols, i)
    {
      ColumnAt(byCol, cells, i);
      ColumnAt(byCol, cells, i + 1);
      OneMoreFan(cells, cols, i);
      var fan := BuildFan(byCol[cols[i]], byCol[cols[i + 1]]);
      edges := edges + fan;
      i := i + 1;
    }
  }

  method BuildFan(froms: seq<Cell>, tos: seq<Cell>) returns (edges: seq<Edge>)
    ensures edges == Fan(froms, tos)
  {
    edges := [];
    for i := 0 to |froms|
      invariant edges == Fan(froms[..i], tos)
    {
      ghost var before := edges;
      assert froms[..i + 1][..i] == froms[..i];
      for j := 0 to |tos|
        invariant edges == before + FanOne(froms[i], tos[..j])
      {
        assert tos[..j + 1][..j] == tos[..j];
        edges := edges + [Edge(IdOf(froms[i]), IdOf(tos[j]))];
      }
      assert tos[..|tos|] == tos;
    }
    assert froms[..|froms|] == froms;
  }

  ghost predicate Sorted(byLane: map<nat, seq<Agent>>, agents: seq<Agent>, phases: seq<Phase>) {
    forall k: nat :: Get(byLane, k) == InLane(agents, phases, Some(k))
  }

  lemma GroupSorted(byLane: map<nat, seq<Agent>>, agents: seq<Agent>, phases: seq<Phase>)
    requires Grouped(byLane, agents, phases)
    ensures Sorted(map k | k in byLane :: ByStart(byLane[k]), agents, phases)
  {
    hide Among, Insert;
    forall k: nat
      ensures k !in byLane ==> InLane(agents, phases, Some(k)) == []
      ensures InLane(agents, phases, Some(k)) == ByStart(Get(byLane, k))
    {
      assert Get(byLane, k) == Among(agents, phases, Some(k));
    }
    hide InLane, ByStart;
  }

  lemma SortedAt(byLane: map<nat, seq<Agent>>, agents: seq<Agent>, phases: seq<Phase>, k: nat)
    requires Sorted(byLane, agents, phases)
    ensures Get(byLane, k) == InLane(agents, phases, Some(k))
  {
  }

  lemma DeclaredNone(g: Graph, agents: seq<Agent>, phases: seq<Phase>, max: nat, start: Grid)
    ensures Play(max, start, DeclaredActs(g, agents, phases, 0)) == start
  {
  }

  lemma BeyondNone(agents: seq<Agent>, phases: seq<Phase>, max: nat, start: Grid)
    ensures Play(max, start, BeyondActs(agents, phases, [])) == start
  {
  }

  lemma DeclaredNext(g: Graph, agents: seq<Agent>, phases: seq<Phase>, max: nat, start: Grid, i: nat)
    requires i < |g.lanes|
    ensures Play(max, start, DeclaredActs(g, agents, phases, i + 1))
      == Play(max, Play(max, start, DeclaredActs(g, agents, phases, i)),
              LaneActs(g, g.lanes[i], InLane(agents, phases, Some(g.lanes[i].index)), InLane(agents, phases, None)))
  {
    PlayConcat(max, start, DeclaredActs(g, agents, phases, i),
               LaneActs(g, g.lanes[i], InLane(agents, phases, Some(g.lanes[i].index)), InLane(agents, phases, None)));
  }

  lemma BeyondNext(agents: seq<Agent>, phases: seq<Phase>, max: nat, start: Grid, lanes: seq<nat>, i: nat)
    requires i < |lanes|
    ensures var k := lanes[i];
      Play(max, start, BeyondActs(agents, phases, lanes[..i + 1]))
        == Play(max, Do(max, Play(max, start, BeyondActs(agents, phases, lanes[..i])), Warn(BeyondPredicted(k))),
                AgentActs(k, InLane(agents, phases, Some(k)), Anything))
  {
    var k, acts := lanes[i], BeyondActs(agents, phases, lanes[..i]);
    assert lanes[..i + 1][..i] == lanes[..i];
    PlayConcat(max, start, acts + [Warn(BeyondPredicted(k))], AgentActs(k, InLane(agents, phases, Some(k)), Anything));
    PlayOne(max, start, acts, Warn(BeyondPredicted(k)));
  }

  /** The declared lanes, then those past them, each until the limit is reached. */
  method PlaceDeclared(b: Builder, g: Graph, agents: seq<Agent>, phases: seq<Phase>, byLane: map<nat,
        seq<Agent>>, implicit: seq<Agent>)
    requires Sorted(byLane, agents, phases)
    requires implicit == InLane(agents, phases, None)
    modifies b
    ensures b.View() == Play(b.maxNodes, old(b.View()), DeclaredActs(g, agents, phases, |g.lanes|))
  {
    ghost var start := b.View();
    hide LaneActs, InLane, Play, DeclaredActs, Sorted, Get;
    DeclaredNone(g, agents, phases, b.maxNodes, start);
    var i := 0;
    while i < |g.lanes| && !b.truncated
      invariant i <= |g.lanes| && b.View() == Play(b.maxNodes, start, DeclaredActs(g, agents, phases, i))
    {
      var lane := g.lanes[i];
      var own := Get(byLane, lane.index);
      SortedAt(byLane, agents, phases, lane.index);
      DeclaredNext(g, agents, phases, b.maxNodes, start, i);
      b.PlaceLane(g, lane, own, implicit);
      i := i + 1;
    }
    DeclaredActsPrefix(g, agents, phases, i, |g.lanes|);
    if b.truncated {
      CutHere(b.maxNodes, start, DeclaredActs(g, agents, phases, i), DeclaredActs(g, agents, phases, |g.lanes|));
    }
  }

  method PlaceBeyond(b: Builder, agents: seq<Agent>, phases: seq<Phase>, byLane: map<nat, seq<Agent>>, lanes: seq<nat>)
    requires Sorted(byLane, agents, phases)
    modifies b
    ensures b.View() == Play(b.maxNodes, old(b.View()), BeyondActs(agents, phases, lanes))
  {
    ghost var start := b.View();
    hide AgentActs, InLane, Play, BeyondActs, Sorted, Get;
    BeyondNone(agents, phases, b.maxNodes, start);
    assert lanes[..0] == [];
    var i := 0;
    while i < |lanes| && !b.truncated
      invariant i <= |lanes| && b.View() == Play(b.maxNodes, start, BeyondActs(agents, phases, lanes[..i]))
    {
      var k := lanes[i];
      SortedAt(byLane, agents, phases, k);
      BeyondNext(agents, phases, b.maxNodes, start, lanes, i);
      b.PlaceBeyondLane(k, Get(byLane, k));
      i := i + 1;
    }
    BeyondActsPrefix(agents, phases, lanes, i);
    if b.truncated {
      CutHere(b.maxNodes, start, BeyondActs(agents, phases, lanes[..i]), BeyondActs(agents, phases, lanes));
    } else {
      assert lanes[..i] == lanes;
    }
  }

  /** The lanes' agents in order of start, those of no lane, and the lanes past the predicted ones. */
  method SortLanes(g: Graph, agents: seq<Agent>, phases: seq<Phase>)
    returns (byLane: map<nat, seq<Agent>>, implicit: seq<Agent>, beyond: seq<nat>)
    ensures Sorted(byLane, agents, phases) && implicit == InLane(agents, phases, None)
      && beyond == Beyond(g, agents, phases)
  {
    hide Grouped, Sorted, LanesMet, From, Sort, Among;
    var unsorted, keys, none := GroupByLane(agents, phases);
    byLane := map k | k in unsorted :: ByStart(unsorted[k]);
    implicit := ByStart(none);
    GroupSorted(unsorted, agents, phases);
    beyond := Sort(From(keys, |g.lanes|), k => k);
  }

  lemma FieldsOf(b: Builder)
    ensures b.View().cells == b.cells && b.View().warnings == b.warnings && b.View().truncated == b.truncated
  {
  }

  lemma NotCutYet(b: Builder)
    requires b.View() == START
    ensures !b.truncated
  {
  }

  /** The layout plays the acts, cut at `maxNodes` cells; the edges are those between neighbouring columns. */
  method LayoutGraph(g: Graph, agents: seq<Agent>, phases: seq<Phase>, maxNodes: nat)
    returns (cells: seq<Cell>, edges: seq<Edge>, warnings: seq<Warning>, truncated: bool)
    ensures cells == Play(maxNodes, START, Acts(g, agents, phases)).cells && edges == EdgesOf(cells)
    ensures truncated == Play(maxNodes, START, Acts(g, agents, phases)).truncated
    ensures warnings
      == Play(maxNodes, START, Acts(g, agents, phases)).warnings + if truncated then [TruncatedTo(maxNodes)] else []
  {
    hide *;
    var byLane, implicit, beyond := SortLanes(g, agents, phases);
    var b := new Builder(maxNodes);
    assert !b.truncated by { NotCutYet(b); }
    ThreeParts(maxNodes, g, agents, phases);
    b.PlaceAgents(0, implicit, Anything);
    PlaceDeclared(b, g, agents, phases, byLane, implicit);
    PlaceBeyond(b, agents, phases, byLane, beyond);
    assert b.View() == Play(maxNodes, START, Acts(g, agents, phases));
    FieldsOf(b);
    cells, warnings, truncated := b.cells, b.warnings, b.truncated;
    if truncated {
      warnings := warnings + [TruncatedTo(maxNodes)];
    }
    edges := BuildEdges(cells);
  }

  lemma ThreeParts(max: nat, g: Graph, agents: seq<Agent>, phases: seq<Phase>)
    ensures Play(max, START, Acts(g, agents, phases))
      == Play(max, Play(max, Play(max, START, AgentActs(0, InLane(agents, phases, None), Anything)),
                        DeclaredActs(g, agents, phases, |g.lanes|)),
              BeyondActs(agents, phases, Beyond(g, agents, phases)))
  {
    var first, declared := AgentActs(0, InLane(agents, phases, None), Anything),
      DeclaredActs(g, agents, phases, |g.lanes|);
    PlayConcat(max, START, first + declared, BeyondActs(agents, phases, Beyond(g, agents, phases)));
    PlayConcat(max, START, first, declared);
  }
}
