/** The render cache in front of the Mermaid renderer: one render per key at a time, a cap on renders in
    flight, a bounded cache in insertion order, and a deadline that abandons a render. */
module DiagramRenderer {

  import PathVerdict

  type Mermaid(==, !new)
  type Svg = string

  datatype Reason = RendererMissing | RenderTimeout | RenderFailed | RenderBusy
  datatype Outcome = Ok(svg: Svg) | Fail(reason: Reason)

  /** `inFlight` holds a promise from the call that starts a render until its `finally` runs; `Settled` is the
      time between the outcome and that. */
  datatype Job = Running(mermaid: Mermaid) | Settled(outcome: Outcome)

  /** `order` is the order in which a JavaScript map yields the keys of `cache`. */
  datatype State = State(active: int, cache: map<string, Svg>, order: seq<string>, inFlight: map<string, Job>)

  datatype Limits = Limits(maxConcurrent: nat, maxEntries: nat)

  datatype Answer = Hit(svg: Svg) | Following | Busy | Started

  const EMPTY := State(0, map[], [], map[])

  function Key(name: string, version: string): string {
    name + "\0" + version
  }

  function Without(order: seq<string>, key: string): seq<string> {
    if order == [] then []
    else Without(order[..|order| - 1], key) + if order[|order| - 1] == key then [] else [order[|order| - 1]]
  }

  function Delete(s: State, key: string): State {
    s.(cache := s.cache - {key}, order := Without(s.order, key))
  }

  function Put(s: State, key: string, svg: Svg): State {
    s.(cache := s.cache[key := svg], order := if key in s.cache then s.order else s.order + [key])
  }

  // ----- one synchronous step each -----

  function AnswerTo(l: Limits, s: State, key: string): Answer {
    if key in s.cache then Hit(s.cache[key])
    else if key in s.inFlight then Following
    else if s.active >= l.maxConcurrent then Busy
    else Started
  }

  function Got(l: Limits, s: State, key: string, mermaid: Mermaid): State {
    if AnswerTo(l, s, key) == Started then
      s.(active := s.active + 1, inFlight := s.inFlight[key := Running(mermaid)])
    else s
  }

  /** A full cache drops its oldest entry. */
  function Evicted(l: Limits, s: State): State {
    if |s.cache| >= l.maxEntries && s.order != [] then Delete(s, s.order[0]) else s
  }

  /** The race between the render and its deadline is over; a failure is not cached. */
  function SettledBy(l: Limits, s: State, key: string, out: Outcome): State {
    if !(key in s.inFlight && s.inFlight[key].Running?) then s
    else
      var t := s.(inFlight := s.inFlight[key := Settled(out)]);
      if out.Fail? then t
      else
        Put(Evicted(l, t), key, out.svg)
  }

  function Finalised(s: State, key: string): State {
    if key in s.inFlight && s.inFlight[key].Settled? then
      s.(active := s.active - 1, inFlight := s.inFlight - {key})
    else s
  }

  function DeleteAll(s: State, name: string, keys: seq<string>): State {
    if keys == [] then s
    else
      var t, key := DeleteAll(s, name, keys[..|keys| - 1]), keys[|keys| - 1];
      if name + "\0" <= key then Delete(t, key) else t
  }

  function Invalidated(s: State, name: string): State {
    DeleteAll(s, name, s.order)
  }

  datatype Step =
    | Get(name: string, version: string, mermaid: Mermaid)
    | Settle(key: string, out: Outcome)
    | Finally(key: string)
    | Invalidate(name: string)

  function Next(l: Limits, s: State, step: Step): State {
    match step
    case Get(name, version, mermaid) => Got(l, s, Key(name, version), mermaid)
    case Settle(key, out) => SettledBy(l, s, key, out)
    case Finally(key) => Finalised(s, key)
    case Invalidate(name) => Invalidated(s, name)
  }

  function Run(l: Limits, s: State, steps: seq<Step>): State {
    if steps == [] then s else Next(l, Run(l, s, steps[..|steps| - 1]), steps[|steps| - 1])
  }

  // ----- what every run keeps -----

  ghost predicate Lists(order: seq<string>, keys: set<string>) {
    && (forall i, j :: 0 <= i < j < |order| ==> order[i] != order[j])
    && (forall k :: k in order <==> k in keys)
    && |order| == |keys|
  }

  ghost predicate Ordered(s: State) {
    Lists(s.order, s.cache.Keys)
  }

  ghost predicate Bounded(l: Limits, s: State) {
    && s.active == |s.inFlight| && s.active <= l.maxConcurrent
    && (|s.cache| <= l.maxEntries || |s.cache| <= 1)
  }

  /** A key is not cached while it is being rendered. */
  ghost predicate Missing(s: State) {
    forall k :: k in s.inFlight && s.inFlight[k].Running? ==> k !in s.cache
  }

  ghost predicate Inv(l: Limits, s: State) {
    Ordered(s) && Bounded(l, s) && Missing(s)
  }

  lemma {:induction false} WithoutHolds(order: seq<string>, key: string)
    requires forall i, j :: 0 <= i < j < |order| ==> order[i] != order[j]
    ensures forall k :: k in Without(order, key) <==> k in order && k != key
    ensures forall i, j :: 0 <= i < j < |Without(order, key)| ==> Without(order, key)[i] != Without(order, key)[j]
    ensures |Without(order, key)| == |order| - if key in order then 1 else 0
  {
    if order != [] {
      var front, last := order[..|order| - 1], order[|order| - 1];
      WithoutHolds(front, key);
      assert order == front + [last];
      assert last !in front;
    }
  }

  lemma ListsWithout(order: seq<string>, keys: set<string>, key: string)
    requires Lists(order, keys)
    ensures Lists(Without(order, key), keys - {key})
  {
    WithoutHolds(order, key);
    hide Without;
  }

  lemma ListsWith(order: seq<string>, keys: set<string>, key: string)
    requires Lists(order, keys) && key !in keys
    ensures Lists(order + [key], keys + {key})
  {
  }

  lemma DeleteHolds(s: State, key: string)
    requires Ordered(s)
    ensures Ordered(Delete(s, key))
    ensures |Delete(s, key).cache| == |s.cache| - if key in s.cache then 1 else 0
  {
    ListsWithout(s.order, s.cache.Keys, key);
    hide Without, Lists;
    assert (s.cache - {key}).Keys == s.cache.Keys - {key};
  }

  lemma PutHolds(s: State, key: string, svg: Svg)
    requires Ordered(s)
    ensures Ordered(Put(s, key, svg))
    ensures |Put(s, key, svg).cache| == |s.cache| + if key in s.cache then 0 else 1
  {
    hide Lists;
    if key in s.cache {
      assert s.cache[key := svg].Keys == s.cache.Keys;
    } else {
      ListsWith(s.order, s.cache.Keys, key);
      assert s.cache[key := svg].Keys == s.cache.Keys + {key};
    }
  }

  lemma {:induction false} DeleteAllHolds(s: State, name: string, keys: seq<string>)
    requires Ordered(s)
    ensures Ordered(DeleteAll(s, name, keys))
    ensures DeleteAll(s, name, keys).active == s.active && DeleteAll(s, name, keys).inFlight == s.inFlight
    ensures forall k :: k in DeleteAll(s, name, keys).cache <==> k in s.cache && !(k in keys && name + "\0" <= k)
    ensures forall k :: k in DeleteAll(s, name, keys).cache ==> DeleteAll(s, name, keys).cache[k] == s.cache[k]
    ensures |DeleteAll(s, name, keys).cache| <= |s.cache|
  {
    hide Ordered, Without;
    if keys != [] {
      var front, key := keys[..|keys| - 1], keys[|keys| - 1];
      assert keys == front + [key];
      DeleteAllHolds(s, name, front);
      DeleteHolds(DeleteAll(s, name, front), key);
    }
  }

  /** Invalidating a name drops exactly the cached keys of that name. */
  lemma InvalidatedHolds(s: State, name: string)
    requires Ordered(s)
    ensures Ordered(Invalidated(s, name))
    ensures Invalidated(s, name).active == s.active && Invalidated(s, name).inFlight == s.inFlight
    ensures forall k :: k in Invalidated(s, name).cache <==> k in s.cache && !(name + "\0" <= k)
    ensures forall k :: k in Invalidated(s, name).cache ==> Invalidated(s, name).cache[k] == s.cache[k]
    ensures |Invalidated(s, name).cache| <= |s.cache|
  {
    DeleteAllHolds(s, name, s.order);
  }

  lemma InvalidateHitsOneName(s: State, name: string, other: string, version: string)
    requires Ordered(s) && PathVerdict.IsValidBareName(name) && PathVerdict.IsValidBareName(other)
    ensures Key(other, version) in Invalidated(s, name).cache <==> Key(other, version) in s.cache && other != name
  {
    InvalidatedHolds(s, name);
    PathVerdict.KeyPrefixIsName(name, other, version);
  }

  lemma SettledHolds(l: Limits, s: State, key: string, out: Outcome)
    requires Inv(l, s)
    ensures Inv(l, SettledBy(l, s, key, out))
  {
    if key in s.inFlight && s.inFlight[key].Running? {
      var t := s.(inFlight := s.inFlight[key := Settled(out)]);
      assert t.inFlight.Keys == s.inFlight.Keys;
      hide Lists, Evicted;
      assert Inv(l, t);
      if out.Ok? {
        RoomMade(l, t, key, out.svg);
      }
    }
  }

  lemma FirstListed(s: State)
    requires Ordered(s)
    ensures |s.order| == |s.cache| && (s.order != [] ==> s.order[0] in s.cache)
  {
    assert |s.cache| == |s.cache.Keys|;
    assert s.order != [] ==> s.order[0] in s.order;
  }

  lemma EvictedHolds(l: Limits, s: State)
    requires Ordered(s) && Bounded(l, s)
    ensures Ordered(Evicted(l, s))
    ensures Evicted(l, s).active == s.active && Evicted(l, s).inFlight == s.inFlight
    ensures |Evicted(l, s).cache| < l.maxEntries || |Evicted(l, s).cache| == 0
    ensures forall k :: k in Evicted(l, s).cache ==> k in s.cache && Evicted(l, s).cache[k] == s.cache[k]
  {
    hide Without, Ordered;
    FirstListed(s);
    if s.order != [] {
      DeleteHolds(s, s.order[0]);
    }
  }

  lemma RoomMade(l: Limits, t: State, key: string, svg: Svg)
    requires Inv(l, t) && key !in t.cache && !(key in t.inFlight && t.inFlight[key].Running?)
    ensures Inv(l, Put(Evicted(l, t), key, svg))
  {
    hide Lists, Evicted, Ordered;
    EvictedHolds(l, t);
    PutHolds(Evicted(l, t), key, svg);
  }

  lemma GotHolds(l: Limits, s: State, key: string, mermaid: Mermaid)
    requires Inv(l, s)
    ensures Inv(l, Got(l, s, key, mermaid))
  {
    hide Lists;
    assert key !in s.inFlight ==> s.inFlight[key := Running(mermaid)].Keys == s.inFlight.Keys + {key};
  }

  lemma FinalisedHolds(l: Limits, s: State, key: string)
    requires Inv(l, s)
    ensures Inv(l, Finalised(s, key))
  {
    hide Lists;
    assert (s.inFlight - {key}).Keys == s.inFlight.Keys - {key};
  }

  lemma StepKeeps(l: Limits, s: State, step: Step)
    requires Inv(l, s)
    ensures Inv(l, Next(l, s, step))
  {
    hide Got, SettledBy, Finalised, Invalidated, Lists;
    match step
    case Get(name, version, mermaid) => GotHolds(l, s, Key(name, version), mermaid);
    case Settle(key, out) => SettledHolds(l, s, key, out);
    case Finally(key) => FinalisedHolds(l, s, key);
    case Invalidate(name) => InvalidatedHolds(s, name);
  }

  /** Over every interleaving: as many slots are taken as there are renders in flight, never more than the cap,
      and the cache never outgrows its bound, or one entry if the bound is zero. */
  lemma {:induction false} RunKeeps(l: Limits, steps: seq<Step>)
    ensures Inv(l, Run(l, EMPTY, steps))
  {
    if steps != [] {
      RunKeeps(l, steps[..|steps| - 1]);
      StepKeeps(l, Run(l, EMPTY, steps[..|steps| - 1]), steps[|steps| - 1]);
    }
  }

  lemma {:induction false} NoSlotNoRender(l: Limits, steps: seq<Step>)
    requires l.maxConcurrent == 0
    ensures Run(l, EMPTY, steps) == EMPTY
  {
    if steps != [] {
      NoSlotNoRender(l, steps[..|steps| - 1]);
    }
  }

  /** With a bound of zero the first picture is cached all the same: there is nothing to evict. */
  lemma ZeroKeepsOne(l: Limits, name: string, version: string, mermaid: Mermaid, svg: Svg)
    requires l.maxEntries == 0 && l.maxConcurrent > 0
    ensures Run(l, EMPTY, [Get(name, version, mermaid), Settle(Key(name, version), Ok(svg))]).cache
      == map[Key(name, version) := svg]
  {
    var get, settle := Get(name, version, mermaid), Settle(Key(name, version), Ok(svg));
    assert [get, settle][..1] == [get] && [get][..0] == [];
    assert Run(l, EMPTY, []) == EMPTY && Run(l, EMPTY, [get]) == Next(l, EMPTY, get);
    hide Key;
    assert Next(l, EMPTY, get) == State(1, map[], [], map[Key(name, version) := Running(mermaid)]);
  }

  /** The cache stays within its bound over every run exactly when the bound is at least one, or nothing is ever
      rendered. */
  lemma BoundKeptIff(l: Limits, mermaid: Mermaid)
    ensures (forall steps: seq<Step> :: |Run(l, EMPTY, steps).cache| <= l.maxEntries)
      <==> l.maxEntries >= 1 || l.maxConcurrent == 0
  {
    forall steps: seq<Step> | l.maxEntries >= 1 || l.maxConcurrent == 0
      ensures |Run(l, EMPTY, steps).cache| <= l.maxEntries
    {
      RunKeeps(l, steps);
      if l.maxConcurrent == 0 {
        NoSlotNoRender(l, steps);
      }
    }
    if l.maxEntries == 0 && l.maxConcurrent > 0 {
      ZeroKeepsOne(l, "", "", mermaid, "");
      assert |Run(l, EMPTY, [Get("", "", mermaid), Settle(Key("", ""), Ok(""))]).cache| == 1;
    }
  }

  // ----- what is evicted -----

  /** When the picture cached for a key was stored: the number of steps up to then. */
  ghost function StoredAt(l: Limits, steps: seq<Step>, key: string): nat {
    if steps == [] then 0
    else
      var front, last := steps[..|steps| - 1], steps[|steps| - 1];
      if last.Settle? && last.key == key && last.out.Ok? && Rendering(Run(l, EMPTY, front), key) then |steps|
      else StoredAt(l, front, key)
  }

  ghost predicate InOrder(order: seq<string>, age: string -> nat) {
    forall i, j :: 0 <= i < j < |order| ==> age(order[i]) < age(order[j])
  }

  lemma {:induction false} WithoutInOrder(order: seq<string>, key: string, age: string -> nat)
    requires InOrder(order, age)
    ensures InOrder(Without(order, key), age) && forall k :: k in Without(order, key) ==> k in order
  {
    if order != [] {
      var front, last := order[..|order| - 1], order[|order| - 1];
      WithoutInOrder(front, key, age);
      forall k | k in Without(front, key)
        ensures age(k) < age(last)
      {
        var i :| 0 <= i < |front| && front[i] == k;
        assert order[i] == k;
      }
    }
  }

  lemma {:induction false} DeleteAllInOrder(s: State, name: string, keys: seq<string>, age: string -> nat)
    requires InOrder(s.order, age)
    ensures InOrder(DeleteAll(s, name, keys).order, age)
    ensures forall k :: k in DeleteAll(s, name, keys).order ==> k in s.order
  {
    hide Without, InOrder;
    if keys != [] {
      DeleteAllInOrder(s, name, keys[..|keys| - 1], age);
      WithoutInOrder(DeleteAll(s, name, keys[..|keys| - 1]).order, keys[|keys| - 1], age);
    }
  }

  lemma SameAges(order: seq<string>, age: string -> nat, other: string -> nat)
    requires InOrder(order, age) && forall k :: k in order ==> other(k) == age(k)
    ensures InOrder(order, other)
  {
  }

  lemma AppendInOrder(order: seq<string>, key: string, age: string -> nat)
    requires InOrder(order, age) && forall k :: k in order ==> age(k) < age(key)
    ensures InOrder(order + [key], age)
  {
  }

  ghost predicate Stores(s: State, step: Step) {
    step.Settle? && step.out.Ok? && Rendering(s, step.key)
  }

  lemma EvictedOrder(l: Limits, s: State, age: string -> nat)
    requires Ordered(s) && InOrder(s.order, age)
    ensures InOrder(Evicted(l, s).order, age)
    ensures forall k :: k in Evicted(l, s).order ==> k in s.order
  {
    if s.order != [] {
      WithoutInOrder(s.order, s.order[0], age);
    }
    hide Without, InOrder;
  }

  /** A stored picture's key goes to the end of what eviction leaves. */
  lemma StoredLast(l: Limits, s: State, step: Step)
    requires Inv(l, s) && Stores(s, step)
    ensures Next(l, s, step).order == Evicted(l, s).order + [step.key] && step.key !in s.order
  {
    EvictedHolds(l, s);
    hide Without, Bounded;
    assert step.key !in s.cache;
  }

  /** Any other step only takes keys out. */
  lemma OtherOrder(l: Limits, s: State, step: Step, age: string -> nat)
    requires Inv(l, s) && InOrder(s.order, age) && !Stores(s, step)
    ensures InOrder(Next(l, s, step).order, age)
    ensures forall k :: k in Next(l, s, step).order ==> k in s.order
  {
    hide Without, InOrder, Bounded, Lists, Evicted;
    if step.Invalidate? {
      DeleteAllInOrder(s, step.name, s.order, age);
    }
  }

  lemma Ages(l: Limits, steps: seq<Step>, k: string)
    requires steps != []
    ensures var front, last := steps[..|steps| - 1], steps[|steps| - 1];
      StoredAt(l, steps, k)
        == if Stores(Run(l, EMPTY, front), last) && k == last.key then |steps| else StoredAt(l, front, k)
  {
    hide Run;
  }

  /** In every run the cached keys stand in the order in which their pictures were stored. */
  lemma {:induction false} OrderIsAge(l: Limits, steps: seq<Step>)
    ensures InOrder(Run(l, EMPTY, steps).order, k => StoredAt(l, steps, k))
    ensures forall k :: StoredAt(l, steps, k) <= |steps|
  {
    if steps != [] {
      var front, last := steps[..|steps| - 1], steps[|steps| - 1];
      var s := Run(l, EMPTY, front);
      var was, now := k => StoredAt(l, front, k), k => StoredAt(l, steps, k);
      OrderIsAge(l, front);
      RunKeeps(l, front);
      assert Run(l, EMPTY, steps) == Next(l, s, last);
      forall k
        ensures now(k) == if Stores(s, last) && k == last.key then |steps| else was(k)
      {
        Ages(l, steps, k);
      }
      hide Next, Inv, InOrder, StoredAt, Run, Stores, Evicted, Ordered;
      if Stores(s, last) {
        StoredLast(l, s, last);
        EvictedOrder(l, s, was);
        SameAges(Evicted(l, s).order, was, now);
        AppendInOrder(Evicted(l, s).order, last.key, now);
      } else {
        OtherOrder(l, s, last, was);
        SameAges(Next(l, s, last).order, was, now);
      }
    }
  }

  /** A render that succeeds caches its picture. While there is room nothing else goes; at the bound exactly one key
      does, the one whose picture was stored first. */
  lemma OldestGoes(l: Limits, steps: seq<Step>, key: string, svg: Svg)
    requires Rendering(Run(l, EMPTY, steps), key)
    ensures var s, t := Run(l, EMPTY, steps), Run(l, EMPTY, steps + [Settle(key, Ok(svg))]);
      && key in t.cache && t.cache[key] == svg
      && (|s.cache| < l.maxEntries || s.cache == map[] ==> t.cache == s.cache[key := svg])
      && (|s.cache| >= l.maxEntries && s.cache != map[] ==>
            exists oldest :: oldest in s.cache && t.cache == (s.cache - {oldest})[key := svg]
              && forall k :: k in s.cache && k != oldest ==> StoredAt(l, steps, oldest) < StoredAt(l, steps, k))
  {
    var s := Run(l, EMPTY, steps);
    assert (steps + [Settle(key, Ok(svg))])[..|steps|] == steps;
    RunKeeps(l, steps);
    OrderIsAge(l, steps);
    FirstListed(s);
    hide Run, Without, StoredAt, Bounded;
    if s.order != [] {
      var oldest := s.order[0];
      forall k | k in s.cache && k != oldest
        ensures StoredAt(l, steps, oldest) < StoredAt(l, steps, k)
      {
        assert k in s.order;
        var i :| 0 <= i < |s.order| && s.order[i] == k;
      }
    }
  }

  // ----- single flight -----

  /** How many renders of a key the run started. */
  function Starts(l: Limits, steps: seq<Step>, key: string): nat {
    if steps == [] then 0
    else
      var front, last := steps[..|steps| - 1], steps[|steps| - 1];
      Starts(l, front, key) +
        if last.Get? && Key(last.name, last.version) == key && AnswerTo(l, Run(l, EMPTY, front), key) == Started then 1
        else 0
  }

  /** How many of them have an outcome. */
  function Outcomes(l: Limits, steps: seq<Step>, key: string): nat {
    if steps == [] then 0
    else
      var front, last := steps[..|steps| - 1], steps[|steps| - 1];
      var s := Run(l, EMPTY, front);
      Outcomes(l, front, key) +
        if last.Settle? && last.key == key && key in s.inFlight && s.inFlight[key].Running? then 1 else 0
  }

  /** A key has one render without an outcome exactly while its job runs, and none otherwise: no second render
      of it is ever started beside one that still runs. */
  lemma {:induction false} SingleFlight(l: Limits, steps: seq<Step>, key: string)
    ensures var s := Run(l, EMPTY, steps);
      Starts(l, steps, key) == Outcomes(l, steps, key) + if key in s.inFlight && s.inFlight[key].Running? then 1 else 0
  {
    if steps != [] {
      var front, last := steps[..|steps| - 1], steps[|steps| - 1];
      var s := Run(l, EMPTY, front);
      SingleFlight(l, front, key);
      RunKeeps(l, front);
      JobAfter(l, s, last, key);
      hide Inv, Next;
    }
  }

  ghost predicate Rendering(s: State, key: string) {
    key in s.inFlight && s.inFlight[key].Running?
  }

  /** What a step does to one key's job. */
  lemma JobAfter(l: Limits, s: State, step: Step, key: string)
    requires Inv(l, s)
    ensures Rendering(Next(l, s, step), key) <==>
      || (Rendering(s, key) && !(step.Settle? && step.key == key))
      || (step.Get? && Key(step.name, step.version) == key && AnswerTo(l, s, key) == Started)
  {
    if step.Invalidate? {
      InvalidatedHolds(s, step.name);
    }
    hide Lists, Without, Invalidated, Bounded;
  }

  /** A render that never answers is given up at its deadline: its slot is free again, the cache is as it was,
      and the key can be rendered anew. */
  lemma DeadlineFrees(l: Limits, s: State, key: string)
    requires Inv(l, s) && Rendering(s, key)
    ensures var t := Finalised(SettledBy(l, s, key, Fail(RenderTimeout)), key);
      t.active == s.active - 1 && t.cache == s.cache && t.inFlight == s.inFlight - {key}
        && AnswerTo(l, t, key) == Started
  {
  }

  // ----- what a hit shows -----

  /** The renderer in its world: the diagram each key names now, and every render that ever succeeded. */
  datatype World = World(state: State, diagram: string -> Mermaid, produced: set<(Mermaid, Svg)>)

  datatype Event =
    | Ask(name: string, version: string)
    | Outcome(key: string, out: Outcome)
    | Release(key: string)
    | Redeploy(name: string, diagram: string -> Mermaid)

  /** A redeploy invalidates a name and gives its keys new diagrams. The class allows it; the engine never does it,
      since the catalog gives out no version number twice (DiagramCatalog). */
  function After(l: Limits, w: World, e: Event): World {
    match e
    case Ask(name, version) => w.(state := Got(l, w.state, Key(name, version), w.diagram(Key(name, version))))
    case Outcome(key, out) =>
      World(SettledBy(l, w.state, key, out), w.diagram,
            if key in w.state.inFlight && w.state.inFlight[key].Running? && out.Ok?
            then w.produced + {(w.state.inFlight[key].mermaid, out.svg)} else w.produced)
    case Release(key) => w.(state := Finalised(w.state, key))
    case Redeploy(name, diagram) =>
      World(Invalidated(w.state, name), k => if name + "\0" <= k then diagram(k) else w.diagram(k), w.produced)
  }

  ghost predicate Right(w: World) {
    forall k :: k in w.state.cache ==> (w.diagram(k), w.state.cache[k]) in w.produced
  }

  ghost predicate Current(w: World) {
    forall k :: Rendering(w.state, k) ==> w.state.inFlight[k].mermaid == w.diagram(k)
  }

  /** No render of the name is running, or each one renders what its key names afterwards. */
  ghost predicate Quiet(w: World, e: Event) {
    e.Redeploy? ==> forall k :: Rendering(w.state, k) && e.name + "\0" <= k ==>
      e.diagram(k) == w.state.inFlight[k].mermaid
  }

  /** Renders in flight stay current exactly through quiet redeploys. */
  lemma StaysCurrent(l: Limits, w: World, e: Event)
    requires Inv(l, w.state) && Current(w)
    ensures Current(After(l, w, e)) <==> Quiet(w, e)
  {
    hide Lists, Bounded, Without, Invalidated;
    if e.Redeploy? {
      InvalidatedHolds(w.state, e.name);
      var v := After(l, w, e);
      assert forall k :: Rendering(v.state, k) <==> Rendering(w.state, k);
    }
  }

  lemma StaysRight(l: Limits, w: World, e: Event)
    requires Inv(l, w.state) && Current(w) && Right(w)
    ensures Right(After(l, w, e))
  {
    if e.Redeploy? {
      InvalidatedHolds(w.state, e.name);
    }
    hide Lists, Bounded, Without, Invalidated;
  }

  lemma WorldKeeps(l: Limits, w: World, e: Event)
    requires Inv(l, w.state)
    ensures Inv(l, After(l, w, e).state)
  {
    hide Got, SettledBy, Finalised, Invalidated, Lists, Rendering;
    match e
    case Ask(name, version) => GotHolds(l, w.state, Key(name, version), w.diagram(Key(name, version)));
    case Outcome(key, out) => SettledHolds(l, w.state, key, out);
    case Release(key) => FinalisedHolds(l, w.state, key);
    case Redeploy(name, diagram) => StepKeeps(l, w.state, Invalidate(name));
  }

  function History(l: Limits, w: World, events: seq<Event>): World {
    if events == [] then w else After(l, History(l, w, events[..|events| - 1]), events[|events| - 1])
  }

  ghost predicate AllQuiet(l: Limits, w: World, events: seq<Event>) {
    forall i :: 0 <= i < |events| ==> Quiet(History(l, w, events[..i]), events[i])
  }

  lemma QuietSoFar(l: Limits, w: World, events: seq<Event>)
    requires AllQuiet(l, w, events) && events != []
    ensures AllQuiet(l, w, events[..|events| - 1])
    ensures Quiet(History(l, w, events[..|events| - 1]), events[|events| - 1])
  {
    hide Quiet, History;
    var front := events[..|events| - 1];
    assert forall i :: 0 <= i < |front| ==> front[..i] == events[..i];
  }

  /** Every cached picture, and so every hit, is a successful render of the diagram its key names now. */
  ghost predicate HitsRight(l: Limits, w: World) {
    forall k :: AnswerTo(l, w.state, k).Hit? ==> (w.diagram(k), AnswerTo(l, w.state, k).svg) in w.produced
  }

  lemma RightMeansHits(l: Limits, w: World)
    ensures Right(w) <==> HitsRight(l, w)
  {
    if HitsRight(l, w) {
      forall k | k in w.state.cache
        ensures (w.diagram(k), w.state.cache[k]) in w.produced
      {
        assert AnswerTo(l, w.state, k) == Hit(w.state.cache[k]);
      }
    }
  }

  /** A state of the renderer in which nothing is wrong yet. */
  ghost predicate Sound(l: Limits, w: World) {
    Inv(l, w.state) && Current(w) && Right(w)
  }

  lemma {:induction false} QuietKeepsSound(l: Limits, w0: World, events: seq<Event>)
    requires Sound(l, w0) && AllQuiet(l, w0, events)
    ensures Sound(l, History(l, w0, events))
  {
    hide Quiet, After, AllQuiet, Lists, Rendering, Right;
    if events != [] {
      var front, e := events[..|events| - 1], events[|events| - 1];
      QuietSoFar(l, w0, events);
      QuietKeepsSound(l, w0, front);
      var w := History(l, w0, front);
      WorldKeeps(l, w, e);
      StaysCurrent(l, w, e);
      StaysRight(l, w, e);
    }
  }

  /** When no redeploy overtakes a render of its name, every hit is a successful render of the diagram its key
      names at that moment. */
  lemma HitsAreRenders(l: Limits, diagram: string -> Mermaid, events: seq<Event>)
    requires AllQuiet(l, World(EMPTY, diagram, {}), events)
    ensures var w := History(l, World(EMPTY, diagram, {}), events);
      Sound(l, w) && HitsRight(l, w)
  {
    EmptyIsFine(l, diagram);
    hide Sound, HitsRight, AllQuiet, History, Inv, Current;
    QuietKeepsSound(l, World(EMPTY, diagram, {}), events);
    RightMeansHits(l, History(l, World(EMPTY, diagram, {}), events));
    hide Right;
    SoundIsRight(l, History(l, World(EMPTY, diagram, {}), events));
  }

  lemma SoundIsRight(l: Limits, w: World)
    requires Sound(l, w)
    ensures Right(w)
  {
  }

  lemma EmptyIsFine(l: Limits, diagram: string -> Mermaid)
    ensures Sound(l, World(EMPTY, diagram, {}))
  {
  }

  /** An outcome that arrives for an overtaken render is cached under a key that names another diagram by now. */
  lemma OvertakenIsServed(l: Limits, w: World, e: Event, k: string, svg: Svg)
    requires Inv(l, w.state) && e.Redeploy? && Rendering(w.state, k) && e.name + "\0" <= k
    requires e.diagram(k) != w.state.inFlight[k].mermaid && (e.diagram(k), svg) !in w.produced
    ensures var v := After(l, After(l, w, e), Outcome(k, Ok(svg)));
      AnswerTo(l, v.state, k) == Hit(svg) && (v.diagram(k), svg) !in v.produced
  {
    InvalidatedHolds(w.state, e.name);
    hide Lists, Bounded, Missing, Without, Invalidated, Delete;
  }

  /** There is always a picture that no render has produced yet. */
  lemma {:induction false} Unseen(produced: set<(Mermaid, Svg)>) returns (svg: Svg)
    ensures forall m :: (m, svg) !in produced
  {
    var n := Longest(produced);
    svg := seq(n + 1, _ => ' ');
  }

  lemma {:induction false} Longest(produced: set<(Mermaid, Svg)>) returns (n: nat)
    ensures forall p :: p in produced ==> |p.1| <= n
  {
    n := 0;
    if produced != {} {
      var p :| p in produced;
      n := Longest(produced - {p});
      n := if |p.1| > n then |p.1| else n;
    }
  }

  /** What can follow an event, if every later redeploy is quiet, is right at every moment exactly when the event
      itself is no redeploy that overtakes a render of its name. */
  lemma RightIffQuiet(l: Limits, w: World, e: Event)
    requires Sound(l, w)
    ensures Quiet(w, e) <==> forall later: seq<Event> ::
        AllQuiet(l, After(l, w, e), later) ==> HitsRight(l, History(l, After(l, w, e), later))
  {
    var v := After(l, w, e);
    if Quiet(w, e) {
      WorldKeeps(l, w, e);
      StaysCurrent(l, w, e);
      StaysRight(l, w, e);
      assert Sound(l, v);
      hide *;
      forall later: seq<Event> | AllQuiet(l, v, later)
        ensures HitsRight(l, History(l, v, later))
      {
        QuietKeepsSound(l, v, later);
        SoundIsRight(l, History(l, v, later));
        RightMeansHits(l, History(l, v, later));
      }
    } else {
      var k :| Rendering(w.state, k) && e.name + "\0" <= k && e.diagram(k) != w.state.inFlight[k].mermaid;
      var svg := Unseen(w.produced);
      OvertakenIsServed(l, w, e, k, svg);
      var last := Outcome(k, Ok(svg));
      OneQuietEvent(l, v, last);
      hide After, Inv;
      assert AnswerTo(l, After(l, v, last).state, k).Hit?;
      assert !HitsRight(l, History(l, v, [last]));
    }
  }

  lemma OneQuietEvent(l: Limits, w: World, e: Event)
    requires !e.Redeploy?
    ensures History(l, w, [e]) == After(l, w, e) && AllQuiet(l, w, [e])
  {
    assert [e][..0] == [];
  }

  /** A whole run of that kind, from an empty cache: a key whose diagram changes while the old one is being rendered
      serves the old picture from the cache afterwards. */
  lemma OvertakenRenderIsServed(l: Limits, before: string -> Mermaid, after: string -> Mermaid, name: string,
        version: string, svg: Svg)
    requires l.maxConcurrent > 0 && before(Key(name, version)) != after(Key(name, version))
    ensures var w := History(l, World(EMPTY, before, {}),
                             [Ask(name, version), Redeploy(name, after), Outcome(Key(name, version), Ok(svg))]);
      AnswerTo(l, w.state, Key(name, version)) == Hit(svg) && (w.diagram(Key(name, version)), svg) !in w.produced
  {
    var key, w0 := Key(name, version), World(EMPTY, before, {});
    var e1, e2, e3 := Ask(name, version), Redeploy(name, after), Outcome(key, Ok(svg));
    assert [e1, e2, e3][..2] == [e1, e2] && [e1, e2][..1] == [e1] && [e1][..0] == [];
    var w1 := After(l, w0, e1);
    var w2 := After(l, w1, e2);
    assert w1.state == State(1, map[], [], map[key := Running(before(key))]);
    assert w2.state == w1.state && w2.diagram(key) == after(key);
    assert History(l, w0, [e1]) == w1;
    assert History(l, w0, [e1, e2]) == w2;
    assert History(l, w0, [e1, e2, e3]) == After(l, w2, e3);
  }

  // ----- the class -----

  class Renderer {
    const limits: Limits
    var active: int
    var cache: map<string, Svg>
    var order: seq<string>
    var inFlight: map<string, Job>

    ghost function View(): State
      reads this
    {
      State(active, cache, order, inFlight)
    }

    constructor (limits: Limits)
      ensures View() == EMPTY && this.limits == limits
    {
      this.limits := limits;
      active, cache, order, inFlight := 0, map[], [], map[];
    }

    method DeleteKey(key: string)
      modifies this`cache, this`order
      ensures View() == Delete(old(View()), key)
    {
      var kept: seq<string> := [];
      for i := 0 to |order|
        invariant kept == Without(order[..i], key)
      {
        assert order[..i + 1][..i] == order[..i];
        if order[i] != key {
          kept := kept + [order[i]];
        }
      }
      assert order[..|order|] == order;
      cache, order := cache - {key}, kept;
    }

    /** Walks a copy of the keys, deleting as it goes. */
    method InvalidateName(name: string)
      modifies this`cache, this`order
      ensures View() == Next(limits, old(View()), Invalidate(name))
    {
      var keys := order;
      ghost var s := View();
      for i := 0 to |keys|
        invariant View() == DeleteAll(s, name, keys[..i])
      {
        assert keys[..i + 1][..i] == keys[..i];
        if name + "\0" <= keys[i] {
          DeleteKey(keys[i]);
        }
      }
      assert keys[..|keys|] == keys;
    }

    method Get(name: string, version: string, mermaid: Mermaid) returns (a: Answer)
      modifies this`active, this`inFlight
      ensures a == AnswerTo(limits, old(View()), Key(name, version))
      ensures View() == Next(limits, old(View()), Step.Get(name, version, mermaid))
    {
      var key := name + "\0" + version;
      if key in cache {
        return Hit(cache[key]);
      }
      if key in inFlight {
        return Following;
      }
      if active >= limits.maxConcurrent {
        return Busy;
      }
      active := active + 1;
      inFlight := inFlight[key := Running(mermaid)];
      return Started;
    }

    /** What follows the race in `startRender`. */
    method RenderSettles(key: string, out: Outcome)
      requires key in inFlight && inFlight[key].Running?
      modifies this`cache, this`order, this`inFlight
      ensures View() == Next(limits, old(View()), Settle(key, out))
    {
      inFlight := inFlight[key := Settled(out)];
      if out.Fail? {
        return;
      }
      if |cache| >= limits.maxEntries {
        if order != [] {
          DeleteKey(order[0]);
        }
      }
      if key !in cache {
        order := order + [key];
      }
      cache := cache[key := out.svg];
    }

    method RenderEnds(key: string)
      requires key in inFlight && inFlight[key].Settled?
      modifies this`active, this`inFlight
      ensures View() == Next(limits, old(View()), Finally(key))
    {
      active := active - 1;
      inFlight := inFlight - {key};
    }
  }
}
