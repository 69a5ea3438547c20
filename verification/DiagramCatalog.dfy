/** The render cache behind the workflow catalog: version numbers are never given out twice, so a key of the cache
    stands for one diagram for as long as the engine runs. */
module DiagramCatalog {

  import PathVerdict
  import opened DiagramRenderer

  // ----- version names -----

  function Digit(d: nat): char
    requires d < 10
  {
    ('0' as int + d) as char
  }

  function Decimal(n: nat): string {
    if n < 10 then [Digit(n)] else Decimal(n / 10) + [Digit(n % 10)]
  }

  function VersionName(n: nat): string {
    "v" + Decimal(n)
  }

  lemma {:induction false} DecimalOnce(m: nat, n: nat)
    requires Decimal(m) == Decimal(n)
    ensures m == n
  {
    assert Decimal(m)[|Decimal(m)| - 1] == Digit(m % 10) && Decimal(n)[|Decimal(n)| - 1] == Digit(n % 10);
    if m >= 10 && n >= 10 {
      assert Decimal(m)[..|Decimal(m)| - 1] == Decimal(m / 10) && Decimal(n)[..|Decimal(n)| - 1] == Decimal(n / 10);
      DecimalOnce(m / 10, n / 10);
    } else {
      assert |Decimal(m)| == 1 <==> m < 10;
      assert |Decimal(n)| == 1 <==> n < 10;
    }
  }

  /** A workflow name and a version number have a cache key of their own. */
  lemma KeyOnce(name: string, version: nat, other: string, number: nat)
    requires PathVerdict.IsValidBareName(name) && PathVerdict.IsValidBareName(other)
    requires Key(name, VersionName(version)) == Key(other, VersionName(number))
    ensures name == other && version == number
  {
    hide PathVerdict.IsValidBareName;
    var v, w := VersionName(version), VersionName(number);
    assert name + "\0" <= name + "\0" + v;
    PathVerdict.KeyPrefixIsName(name, other, w);
    assert v == Key(name, v)[|name| + 1..] && w == Key(name, w)[|name| + 1..];
    assert Decimal(version) == v[1..] && Decimal(number) == w[1..];
    DecimalOnce(version, number);
  }

  // ----- the engine -----

  /** The table of version rows, by name and number. */
  type Rows = map<(string, nat), Mermaid>

  /** The rows, the last number given to each name, and the renderer. `drawn` is every row there has been since the
      engine started, `produced` every render that succeeded. */
  datatype Engine = Engine(rows: Rows, marks: map<string, nat>, state: State, drawn: Rows,
        produced: set<(Mermaid, Svg)>)

  datatype Moment =
    | Registered(name: string, mermaid: Mermaid)
    | Deregistered(name: string)
    | VersionRemoved(name: string, version: nat)
    | Cleared(name: string)
    | Asked(name: string, version: nat)
    | Came(key: string, out: DiagramRenderer.Outcome)
    | Ended(key: string)

  ghost function Greatest(numbers: set<nat>): (r: nat)
    ensures forall n :: n in numbers ==> n <= r
    ensures if numbers == {} then r == 0 else r in numbers
  {
    if numbers == {} then 0
    else
      var n :| n in numbers;
      var rest := Greatest(numbers - {n});
      assert forall m :: m in numbers ==> m == n || m in numbers - {n};
      if rest > n then rest else n
  }

  function NumbersOf(rows: Rows, name: string): set<nat> {
    set p | p in rows && p.0 == name :: p.1
  }

  /** The name's mark and, in case it has none, the greatest number among its rows. */
  ghost function LastNumber(rows: Rows, marks: map<string, nat>, name: string): nat {
    var mark, live := if name in marks then marks[name] else 0, Greatest(NumbersOf(rows, name));
    if mark > live then mark else live
  }

  function NamesIn(rows: Rows): set<string> {
    set p | p in rows :: p.0
  }

  /** At boot a name that has rows and no mark gets its greatest number as its mark. */
  ghost function Opened(rows: Rows, marks: map<string, nat>): Engine {
    var seeded := map name | name in NamesIn(rows) + marks.Keys ::
                    if name in marks then marks[name] else Greatest(NumbersOf(rows, name));
    Engine(rows, seeded, EMPTY, rows, {})
  }

  /** A registration adds a row; rows disappear with a version or a whole workflow; clearing the cache, which
      follows, is a step of its own. A lookup carries the diagram of a row read some time before. */
  ghost function Then(l: Limits, e: Engine, m: Moment): Engine {
    match m
    case Registered(name, mermaid) =>
      if !PathVerdict.IsValidBareName(name) then e
      else
        var n := LastNumber(e.rows, e.marks, name) + 1;
        e.(rows := e.rows[(name, n) := mermaid], marks := e.marks[name := n], drawn := e.drawn[(name, n) := mermaid])
    case Deregistered(name) => e.(rows := map p | p in e.rows && p.0 != name :: e.rows[p])
    case VersionRemoved(name, n) => if |NumbersOf(e.rows, name)| > 1 then e.(rows := e.rows - {(name, n)}) else e
    case Cleared(name) => e.(state := Invalidated(e.state, name))
    case Asked(name, n) =>
      if (name, n) in e.drawn then e.(state := Got(l, e.state, Key(name, VersionName(n)), e.drawn[(name, n)])) else e
    case Came(key, out) =>
      e.(state := SettledBy(l, e.state, key, out),
         produced := if Rendering(e.state, key) && out.Ok? then e.produced + {(e.state.inFlight[key].mermaid, out.svg)}
                     else e.produced)
    case Ended(key) => e.(state := Finalised(e.state, key))
  }

  ghost function Life(l: Limits, e: Engine, moments: seq<Moment>): Engine {
    if moments == [] then e else Then(l, Life(l, e, moments[..|moments| - 1]), moments[|moments| - 1])
  }

  /** What an engine may find at boot: valid names, and no mark below the number of a row. */
  ghost predicate Stored(rows: Rows, marks: map<string, nat>) {
    forall p :: p in rows ==> PathVerdict.IsValidBareName(p.0) && (p.0 in marks ==> p.1 <= marks[p.0])
  }

  // ----- what every run keeps -----

  /** The key stands for this diagram. */
  ghost predicate Names(e: Engine, key: string, mermaid: Mermaid) {
    exists p :: p in e.drawn && key == Key(p.0, VersionName(p.1)) && e.drawn[p] == mermaid
  }

  /** Rows are among those drawn, and no number is above its name's mark. */
  ghost predicate Counted(e: Engine) {
    && (forall p :: p in e.drawn ==> PathVerdict.IsValidBareName(p.0) && p.0 in e.marks && p.1 <= e.marks[p.0])
    && (forall p :: p in e.rows ==> p in e.drawn && e.drawn[p] == e.rows[p])
  }

  ghost predicate Pictured(e: Engine, key: string, svg: Svg) {
    exists mermaid :: Names(e, key, mermaid) && (mermaid, svg) in e.produced
  }

  /** What is cached is a picture of what its key stands for, and so is what is being rendered. */
  ghost predicate Faithful(e: Engine) {
    && (forall k :: k in e.state.cache ==> Pictured(e, k, e.state.cache[k]))
    && (forall k :: Rendering(e.state, k) ==> Names(e, k, e.state.inFlight[k].mermaid))
  }

  ghost predicate Fine(l: Limits, e: Engine) {
    Counted(e) && Inv(l, e.state) && Faithful(e)
  }

  /** A row, once there, keeps its diagram whatever is removed and registered afterwards. */
  ghost predicate Grown(e: Engine, f: Engine) {
    && (forall p :: p in e.drawn ==> p in f.drawn && f.drawn[p] == e.drawn[p])
    && e.produced <= f.produced
  }

  lemma NewNumber(e: Engine, name: string)
    requires Counted(e)
    ensures name in e.marks ==> LastNumber(e.rows, e.marks, name) >= e.marks[name]
    ensures (name, LastNumber(e.rows, e.marks, name) + 1) !in e.drawn
  {
    hide PathVerdict.IsValidBareName;
  }

  lemma ThenCounted(l: Limits, e: Engine, m: Moment)
    requires Counted(e)
    ensures Counted(Then(l, e, m)) && Grown(e, Then(l, e, m))
  {
    hide PathVerdict.IsValidBareName, LastNumber, NumbersOf, Got, SettledBy, Finalised, Invalidated, Key, VersionName,
      Rendering;
    if m.Registered? {
      NewNumber(e, m.name);
    }
  }

  lemma NamesKept(e: Engine, f: Engine, key: string, mermaid: Mermaid)
    requires Grown(e, f) && Names(e, key, mermaid)
    ensures Names(f, key, mermaid)
  {
  }

  lemma PicturedKept(e: Engine, f: Engine, key: string, svg: Svg)
    requires Grown(e, f) && Pictured(e, key, svg)
    ensures Pictured(f, key, svg)
  {
    var mermaid :| Names(e, key, mermaid) && (mermaid, svg) in e.produced;
    NamesKept(e, f, key, mermaid);
  }

  lemma SettledLeaves(l: Limits, s: State, key: string, out: DiagramRenderer.Outcome)
    requires Inv(l, s)
    ensures var t := SettledBy(l, s, key, out);
      && Inv(l, t)
      && (forall k :: k in t.cache ==>
            || (k in s.cache && t.cache[k] == s.cache[k])
            || (key == k && out.Ok? && t.cache[k] == out.svg && Rendering(s, k)))
      && (forall k :: Rendering(t, k) ==> Rendering(s, k) && t.inFlight[k] == s.inFlight[k])
  {
    SettledHolds(l, s, key, out);
    if Rendering(s, key) && out.Ok? {
      EvictedKeeps(l, s, s.(inFlight := s.inFlight[key := Settled(out)]));
    }
    hide Evicted, Inv;
  }

  lemma EvictedKeeps(l: Limits, s: State, t: State)
    requires Inv(l, s) && t == s.(inFlight := t.inFlight) && t.inFlight.Keys == s.inFlight.Keys
    ensures Evicted(l, t).inFlight == t.inFlight
    ensures forall k :: k in Evicted(l, t).cache ==> k in s.cache && Evicted(l, t).cache[k] == s.cache[k]
  {
    hide Evicted, Lists;
    EvictedHolds(l, t);
  }

  /** What a step of the renderer leaves in its cache and in flight. */
  lemma StateAfter(l: Limits, e: Engine, m: Moment)
    requires Inv(l, e.state)
    ensures var t := Then(l, e, m).state;
      && Inv(l, t)
      && (forall k :: k in t.cache ==>
            || (k in e.state.cache && t.cache[k] == e.state.cache[k])
            || (m.Came? && m.key == k && m.out.Ok? && t.cache[k] == m.out.svg && Rendering(e.state, k)))
      && (forall k :: Rendering(t, k) ==>
            || (Rendering(e.state, k) && t.inFlight[k] == e.state.inFlight[k])
            || (m.Asked? && (m.name, m.version) in e.drawn && k == Key(m.name, VersionName(m.version))
                && t.inFlight[k].mermaid == e.drawn[(m.name, m.version)]))
  {
    hide Lists, Without, Invalidated, SettledBy, VersionName, PathVerdict.IsValidBareName, LastNumber, NumbersOf, Key;
    match m
    case Cleared(name) => InvalidatedHolds(e.state, name);
    case Asked(name, n) =>
      if (name, n) in e.drawn {
        GotHolds(l, e.state, Key(name, VersionName(n)), e.drawn[(name, n)]);
      }
    case Came(key, out) => SettledLeaves(l, e.state, key, out);
    case Ended(key) => FinalisedHolds(l, e.state, key);
    case _ =>
  }

  lemma ThenFine(l: Limits, e: Engine, m: Moment)
    requires Fine(l, e)
    ensures Fine(l, Then(l, e, m)) && Grown(e, Then(l, e, m))
  {
    hide Inv, Counted, Names, Pictured;
    ThenCounted(l, e, m);
    StateAfter(l, e, m);
    ThenFaithful(l, e, m, Then(l, e, m));
  }

  /** The picture that comes is one of the diagram being rendered, and a render starts with its key's diagram. */
  lemma ThenFaithful(l: Limits, e: Engine, m: Moment, f: Engine)
    requires Faithful(e) && f == Then(l, e, m) && Grown(e, f)
    requires forall k :: k in f.state.cache ==>
      || (k in e.state.cache && f.state.cache[k] == e.state.cache[k])
      || (m.Came? && m.key == k && m.out.Ok? && f.state.cache[k] == m.out.svg && Rendering(e.state, k))
    requires forall k :: Rendering(f.state, k) ==>
      || (Rendering(e.state, k) && f.state.inFlight[k] == e.state.inFlight[k])
      || (m.Asked? && (m.name, m.version) in e.drawn && k == Key(m.name, VersionName(m.version))
          && f.state.inFlight[k].mermaid == e.drawn[(m.name, m.version)])
    ensures Faithful(f)
  {
    hide VersionName, Key, Got, SettledBy, Finalised, Invalidated, LastNumber, NumbersOf, PathVerdict.IsValidBareName;
    forall k | k in f.state.cache
      ensures Pictured(f, k, f.state.cache[k])
    {
      if k in e.state.cache && f.state.cache[k] == e.state.cache[k] {
        PicturedKept(e, f, k, f.state.cache[k]);
      } else {
        NamesKept(e, f, k, e.state.inFlight[k].mermaid);
      }
    }
    forall k | Rendering(f.state, k)
      ensures Names(f, k, f.state.inFlight[k].mermaid)
    {
      if Rendering(e.state, k) && f.state.inFlight[k] == e.state.inFlight[k] {
        NamesKept(e, f, k, e.state.inFlight[k].mermaid);
      }
    }
  }

  lemma {:induction false} LifeFine(l: Limits, e: Engine, moments: seq<Moment>)
    requires Fine(l, e)
    ensures Fine(l, Life(l, e, moments)) && Grown(e, Life(l, e, moments))
  {
    hide Fine, Then;
    if moments != [] {
      LifeFine(l, e, moments[..|moments| - 1]);
      ThenFine(l, Life(l, e, moments[..|moments| - 1]), moments[|moments| - 1]);
    }
  }

  lemma OpenedCounted(rows: Rows, marks: map<string, nat>)
    requires Stored(rows, marks)
    ensures Counted(Opened(rows, marks))
  {
    hide PathVerdict.IsValidBareName;
    var e := Opened(rows, marks);
    forall p | p in rows
      ensures p.0 in e.marks && p.1 <= e.marks[p.0]
    {
      assert p.0 in NamesIn(rows) && p.1 in NumbersOf(rows, p.0);
    }
  }

  lemma OpenedFine(l: Limits, rows: Rows, marks: map<string, nat>)
    requires Stored(rows, marks)
    ensures Fine(l, Opened(rows, marks))
  {
    hide Stored, Counted;
    OpenedCounted(rows, marks);
    NothingCached(l, Opened(rows, marks));
  }

  lemma NothingCached(l: Limits, e: Engine)
    requires e.state == EMPTY
    ensures Inv(l, e.state) && Faithful(e)
  {
    hide Names, Pictured;
  }

  /** Over every run of the engine, whatever is registered, removed, invalidated and rendered in between: the picture
      a lookup hits is a successful render of the diagram of its own version, and the render it joins draws that
      diagram. No render need be waited for, and nothing depends on the invalidation. */
  lemma ServedIsRight(l: Limits, rows: Rows, marks: map<string, nat>, moments: seq<Moment>, name: string, n: nat)
    requires Stored(rows, marks) && (name, n) in Life(l, Opened(rows, marks), moments).drawn
    ensures var e, key := Life(l, Opened(rows, marks), moments), Key(name, VersionName(n));
      && (AnswerTo(l, e.state, key).Hit? ==> (e.drawn[(name, n)], AnswerTo(l, e.state, key).svg) in e.produced)
      && (Rendering(e.state, key) ==> e.state.inFlight[key].mermaid == e.drawn[(name, n)])
      && ((name, n) in e.rows ==> e.drawn[(name, n)] == e.rows[(name, n)])
  {
    hide Life, Opened, Fine, Stored, Key, VersionName, Rendering, AnswerTo;
    OpenedFine(l, rows, marks);
    LifeFine(l, Opened(rows, marks), moments);
    FineServes(l, Life(l, Opened(rows, marks), moments), name, n);
  }

  lemma FineServes(l: Limits, e: Engine, name: string, n: nat)
    requires Fine(l, e) && (name, n) in e.drawn
    ensures var key := Key(name, VersionName(n));
      && (AnswerTo(l, e.state, key).Hit? ==> (e.drawn[(name, n)], AnswerTo(l, e.state, key).svg) in e.produced)
      && (Rendering(e.state, key) ==> e.state.inFlight[key].mermaid == e.drawn[(name, n)])
      && ((name, n) in e.rows ==> e.drawn[(name, n)] == e.rows[(name, n)])
  {
    hide Inv, VersionName, Names, PathVerdict.IsValidBareName;
    var key := Key(name, VersionName(n));
    if key in e.state.cache {
      var mermaid :| Names(e, key, mermaid) && (mermaid, e.state.cache[key]) in e.produced;
      NamesOne(e, name, n, mermaid);
    }
    if Rendering(e.state, key) {
      NamesOne(e, name, n, e.state.inFlight[key].mermaid);
    }
  }

  lemma NamesOne(e: Engine, name: string, n: nat, mermaid: Mermaid)
    requires Counted(e) && (name, n) in e.drawn && Names(e, Key(name, VersionName(n)), mermaid)
    ensures mermaid == e.drawn[(name, n)]
  {
    hide PathVerdict.IsValidBareName, VersionName, Key;
    var p :| p in e.drawn && Key(name, VersionName(n)) == Key(p.0, VersionName(p.1)) && e.drawn[p] == mermaid;
    KeyOnce(name, n, p.0, p.1);
    assert p == (name, n);
  }

  /** A version number is never given out twice, even after its row or its whole workflow is gone. */
  lemma NumbersOnce(l: Limits, rows: Rows, marks: map<string, nat>, moments: seq<Moment>, more: seq<Moment>,
        name: string, n: nat)
    requires Stored(rows, marks) && (name, n) in Life(l, Opened(rows, marks), moments).drawn
    ensures var e := Life(l, Opened(rows, marks), moments);
      LastNumber(Life(l, e, more).rows, Life(l, e, more).marks, name) + 1 != n
  {
    OpenedFine(l, rows, marks);
    LifeFine(l, Opened(rows, marks), moments);
    var e := Life(l, Opened(rows, marks), moments);
    LifeFine(l, e, more);
    NewNumber(Life(l, e, more), name);
  }

  /** The last number is the greatest of the mark and the rows' numbers, and zero when there is neither. */
  lemma LastNumberIs(rows: Rows, marks: map<string, nat>, name: string)
    ensures var last := LastNumber(rows, marks, name);
      && (name in marks ==> marks[name] <= last) && (forall n :: (name, n) in rows ==> n <= last)
      && (last == 0 || (name in marks && marks[name] == last) || (name, last) in rows)
  {
    assert forall n :: (name, n) in rows <==> n in NumbersOf(rows, name) by {
      forall n
        ensures (name, n) in rows <==> n in NumbersOf(rows, name)
      {
        assert (name, n).0 == name;
      }
    }
  }

  lemma MarksStep(l: Limits, e: Engine, m: Moment, name: string)
    requires name in e.marks
    ensures name in Then(l, e, m).marks && Then(l, e, m).marks[name] >= e.marks[name]
  {
    LastNumberIs(e.rows, e.marks, name);
    hide LastNumber, PathVerdict.IsValidBareName, Got, SettledBy, Finalised, Invalidated, NumbersOf, Key, VersionName;
  }

  /** Nor is a number given out again that was given out before the engine started, so far as a mark remembers it. */
  lemma {:induction false} MarksRise(l: Limits, e: Engine, moments: seq<Moment>, name: string)
    requires name in e.marks
    ensures var f := Life(l, e, moments);
      name in f.marks && f.marks[name] >= e.marks[name] && LastNumber(f.rows, f.marks, name) + 1 > e.marks[name]
  {
    hide Then, LastNumber;
    if moments != [] {
      MarksRise(l, e, moments[..|moments| - 1], name);
      MarksStep(l, Life(l, e, moments[..|moments| - 1]), moments[|moments| - 1], name);
    }
    LastNumberIs(Life(l, e, moments).rows, Life(l, e, moments).marks, name);
  }

  lemma OpenedMarks(rows: Rows, marks: map<string, nat>, name: string)
    requires name in marks
    ensures name in Opened(rows, marks).marks && Opened(rows, marks).marks[name] == marks[name]
  {
  }

  lemma LifeNext(l: Limits, e: Engine, moments: seq<Moment>, m: Moment)
    ensures Life(l, e, moments + [m]) == Then(l, Life(l, e, moments), m)
  {
    assert (moments + [m])[..|moments|] == moments;
  }

  lemma ThreeMoments(l: Limits, e: Engine, a: Moment, b: Moment, c: Moment)
    ensures Life(l, e, [a, b, c]) == Then(l, Then(l, Then(l, e, a), b), c)
  {
    hide Then;
    LifeNext(l, e, [], a);
    LifeNext(l, e, [a], b);
    LifeNext(l, e, [a, b], c);
    assert [] + [a] == [a] && [a] + [b] == [a, b] && [a, b] + [c] == [a, b, c];
  }

  /** A render that starts and succeeds is hit. */
  lemma RenderedIsHit(l: Limits, s: State, key: string, mermaid: Mermaid, svg: Svg)
    requires key !in s.cache && key !in s.inFlight && s.active < l.maxConcurrent
    ensures AnswerTo(l, SettledBy(l, Got(l, s, key, mermaid), key, Ok(svg)), key) == Hit(svg)
  {
    hide Evicted;
  }

  /** A version that is registered, looked up while a slot is free, and rendered is served from then on with its
      picture. */
  lemma FreshIsServed(l: Limits, e: Engine, name: string, mermaid: Mermaid, svg: Svg)
    requires Fine(l, e) && PathVerdict.IsValidBareName(name) && e.state.active < l.maxConcurrent
    ensures var n := LastNumber(e.rows, e.marks, name) + 1;
      var key := Key(name, VersionName(n));
      var f := Life(l, e, [Registered(name, mermaid), Asked(name, n), Came(key, Ok(svg))]);
      && (name, n) in f.rows && f.rows[(name, n)] == mermaid
      && (key !in e.state.inFlight ==> AnswerTo(l, f.state, key) == Hit(svg))
  {
    hide Life, LastNumber, Inv, Faithful, PathVerdict.IsValidBareName, VersionName, Key, Got, SettledBy, AnswerTo;
    var n := LastNumber(e.rows, e.marks, name) + 1;
    var key := Key(name, VersionName(n));
    ThreeMoments(l, e, Registered(name, mermaid), Asked(name, n), Came(key, Ok(svg)));
    NewNumber(e, name);
    NewKey(l, e, name, n);
    if key !in e.state.inFlight {
      RenderedIsHit(l, e.state, key, mermaid, svg);
    }
  }

  lemma KeyOther(name: string, n: nat, p: (string, nat))
    requires PathVerdict.IsValidBareName(name) && PathVerdict.IsValidBareName(p.0) && p != (name, n)
    ensures Key(name, VersionName(n)) != Key(p.0, VersionName(p.1))
  {
    hide Key, VersionName, PathVerdict.IsValidBareName;
    if Key(name, VersionName(n)) == Key(p.0, VersionName(p.1)) {
      KeyOnce(name, n, p.0, p.1);
    }
  }

  /** A key that stands for nothing yet is neither cached nor being rendered. */
  lemma NewKey(l: Limits, e: Engine, name: string, n: nat)
    requires Fine(l, e) && PathVerdict.IsValidBareName(name) && (name, n) !in e.drawn
    ensures Key(name, VersionName(n)) !in e.state.cache && !Rendering(e.state, Key(name, VersionName(n)))
  {
    hide Inv, PathVerdict.IsValidBareName, VersionName, Key;
    forall p | p in e.drawn
      ensures Key(name, VersionName(n)) != Key(p.0, VersionName(p.1))
    {
      KeyOther(name, n, p);
    }
  }
}
