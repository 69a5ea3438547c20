/** `migrateLegacyGlobalAssets`: the boot-time move of global assets out of the swept asset root. Rows are
    written first, then each tree is renamed, then empty directories go, then the marker is written; the
    process may stop between any two of these, and the next boot starts the whole thing again. */
module Migration {

  datatype Option<+T> = None | Some(value: T)

  /** The contents of a directory tree: only its identity matters here. */
  type Tree(==, !new)

  datatype Entry = Dir(tree: Tree) | Other

  datatype Kind = Skill | Hook | McpConfig

  const KINDS: seq<Kind> := [Skill, Hook, McpConfig]

  /** `<kind>/<name>`, under the asset root or under the global root. */
  datatype Place = Place(kind: Kind, name: string)

  datatype RowKey = RowKey(workflow: string, kind: string, name: string)
  datatype Row = Row(pushedBy: string, pushedAt: string, config: Option<string>)
  datatype Provision = Provision(name: string, config: string, provisionedAt: string)

  /** What survives a crash: the legacy kind directories and what is in them, the global trees, the catalog's
      rows and the marker file. */
  datatype Disk = Disk(
    dirs: set<Kind>,
    legacy: map<Place, Entry>,
    global: map<Place, Entry>,
    rows: map<RowKey, Row>,
    marked: bool)
  {
    ghost predicate Valid() {
      forall p :: p in legacy ==> p.kind in dirs
    }
  }

  datatype Step = PutRows(entries: seq<(RowKey, Row)>) | Move(place: Place) | RemoveDir(kind: Kind) | Mark

  /** One transactional upsert of every row. */
  function PutAll(rows: map<RowKey, Row>, entries: seq<(RowKey, Row)>): map<RowKey, Row> {
    if entries == [] then rows
    else
      var last := entries[|entries| - 1];
      PutAll(rows, entries[..|entries| - 1])[last.0 := last.1]
  }

  /** A rename would replace whatever already sits at the target. */
  function Apply(d: Disk, s: Step): Disk {
    match s
    case PutRows(entries) => d.(rows := PutAll(d.rows, entries))
    case Move(p) =>
      if p in d.legacy then d.(legacy := d.legacy - {p}, global := d.global[p := d.legacy[p]]) else d
    case RemoveDir(k) =>
      if exists p :: p in d.legacy && p.kind == k then d else d.(dirs := d.dirs - {k})
    case Mark => d.(marked := true)
  }

  function Run(d: Disk, steps: seq<Step>): Disk {
    if steps == [] then d else Apply(Run(d, steps[..|steps| - 1]), steps[|steps| - 1])
  }

  lemma {:induction false} RunConcat(d: Disk, a: seq<Step>, b: seq<Step>)
    ensures Run(d, a + b) == Run(Run(d, a), b)
  {
    if b == [] {
      assert a + b == a;
    } else {
      assert (a + b)[..|a + b| - 1] == a + b[..|b| - 1];
      RunConcat(d, a, b[..|b| - 1]);
    }
  }

  // ----- one boot -----

  /** What `readdirSync` gives for each kind directory that is there. */
  type Listing = map<Kind, seq<string>>

  predicate Distinct<T(==)>(s: seq<T>) {
    forall i, j :: 0 <= i < j < |s| ==> s[i] != s[j]
  }

  ghost predicate Lists(d: Disk, listing: Listing) {
    && listing.Keys == d.dirs
    && (forall k :: k in listing ==> Distinct(listing[k]))
    && (forall k, n :: k in listing ==> (n in listing[k] <==> Place(k, n) in d.legacy))
  }

  function Named(k: Kind, names: seq<string>): (r: seq<Place>)
    ensures |r| == |names| && forall i :: 0 <= i < |r| ==> r[i] == Place(k, names[i])
  {
    if names == [] then [] else Named(k, names[..|names| - 1]) + [Place(k, names[|names| - 1])]
  }

  /** The entries of the first `i` kind directories, in the order they are read. */
  function Places(listing: Listing, i: nat): seq<Place>
    requires i <= |KINDS|
  {
    if i == 0 then []
    else Places(listing, i - 1) + (if KINDS[i - 1] in listing then Named(KINDS[i - 1], listing[KINDS[i - 1]]) else [])
  }

  predicate IsTree(d: Disk, p: Place) {
    p in d.legacy && d.legacy[p].Dir?
  }

  predicate Movable(d: Disk, p: Place) {
    IsTree(d, p) && p !in d.global
  }

  function SkillKey(name: string): RowKey {
    RowKey("", "skill", name)
  }

  function MoveList(d: Disk, places: seq<Place>): seq<Place> {
    if places == [] then []
    else
      var p := places[|places| - 1];
      MoveList(d, places[..|places| - 1]) + if Movable(d, p) then [p] else []
  }

  function SkillRows(d: Disk, places: seq<Place>, at: string): seq<(RowKey, Row)> {
    if places == [] then []
    else
      var p := places[|places| - 1];
      SkillRows(d, places[..|places| - 1], at)
        + if IsTree(d, p) && p.kind == Skill then [(SkillKey(p.name), Row("legacy", at, None))] else []
  }

  function McpRows(provisions: seq<Provision>): seq<(RowKey, Row)> {
    if provisions == [] then []
    else
      var p := provisions[|provisions| - 1];
      McpRows(provisions[..|provisions| - 1])
        + [(RowKey("", "mcp", p.name), Row("legacy", p.provisionedAt, Some(p.config)))]
  }

  function MoveSteps(moves: seq<Place>): (r: seq<Step>)
    ensures |r| == |moves| && forall i :: 0 <= i < |r| ==> r[i] == Move(moves[i])
  {
    if moves == [] then [] else MoveSteps(moves[..|moves| - 1]) + [Move(moves[|moves| - 1])]
  }

  /** What one boot reads, besides the disk. */
  datatype Boot = Boot(listing: Listing, at: string)

  function Moves(d: Disk, b: Boot): seq<Place> {
    MoveList(d, Places(b.listing, |KINDS|))
  }

  function Rows(d: Disk, b: Boot, provisions: seq<Provision>): seq<(RowKey, Row)> {
    SkillRows(d, Places(b.listing, |KINDS|), b.at) + McpRows(provisions)
  }

  /** Empty kind directories go, then the marker is written. */
  function Closing(): (r: seq<Step>)
    ensures |r| == 4
  {
    [RemoveDir(Skill), RemoveDir(Hook), RemoveDir(McpConfig), Mark]
  }

  /** The effects of one boot, in order. */
  function Steps(d: Disk, b: Boot, provisions: seq<Provision>): seq<Step> {
    if d.marked then [] else [PutRows(Rows(d, b, provisions))] + MoveSteps(Moves(d, b)) + Closing()
  }

  // ----- what the plan holds -----

  lemma KindsTake(i: nat)
    requires 0 < i <= |KINDS|
    ensures KINDS[..i] == KINDS[..i - 1] + [KINDS[i - 1]] && KINDS[i - 1] !in KINDS[..i - 1]
  {
  }

  lemma {:induction false} PlacesHold(d: Disk, listing: Listing, i: nat)
    requires d.Valid() && Lists(d, listing) && i <= |KINDS|
    ensures Distinct(Places(listing, i))
    ensures forall p :: p in Places(listing, i) <==> p in d.legacy && p.kind in KINDS[..i]
  {
    if i > 0 {
      PlacesHold(d, listing, i - 1);
      KindsTake(i);
      var k, before := KINDS[i - 1], Places(listing, i - 1);
      if k in listing {
        NamedHolds(k, listing[k]);
        hide Distinct, Named;
        assert forall p :: p in Named(k, listing[k]) <==> p in d.legacy && p.kind == k by {
          assert forall p: Place :: Place(p.kind, p.name) == p;
        }
        hide Lists;
        DistinctConcat(before, Named(k, listing[k]));
      }
    }
  }

  lemma NamedHolds(k: Kind, names: seq<string>)
    requires Distinct(names)
    ensures Distinct(Named(k, names))
    ensures forall p: Place :: p in Named(k, names) <==> p.kind == k && p.name in names
  {
    forall p: Place | p.kind == k && p.name in names
      ensures p in Named(k, names)
    {
      var j :| 0 <= j < |names| && names[j] == p.name;
      assert Named(k, names)[j] == p;
    }
  }

  lemma DistinctConcat<T>(a: seq<T>, b: seq<T>)
    requires Distinct(a) && Distinct(b) && forall x :: x in a ==> x !in b
    ensures Distinct(a + b)
  {
    forall i, j | 0 <= i < j < |a + b|
      ensures (a + b)[i] != (a + b)[j]
    {
      if i < |a| <= j {
        assert a[i] in a && b[j - |a|] in b;
      }
    }
  }

  lemma AllPlaces(d: Disk, listing: Listing)
    requires d.Valid() && Lists(d, listing)
    ensures Distinct(Places(listing, |KINDS|))
    ensures forall p :: p in Places(listing, |KINDS|) <==> p in d.legacy
  {
    PlacesHold(d, listing, |KINDS|);
    AllKinds();
  }

  lemma {:induction false} MoveListHolds(d: Disk, places: seq<Place>)
    ensures forall p :: p in MoveList(d, places) <==> p in places && Movable(d, p)
    ensures Distinct(places) ==> Distinct(MoveList(d, places))
  {
    if places != [] {
      var front, last := places[..|places| - 1], places[|places| - 1];
      MoveListHolds(d, front);
      assert places == front + [last];
      assert Distinct(places) ==> last !in front && Distinct(front);
    }
  }

  ghost predicate KeyOf(entries: seq<(RowKey, Row)>, key: RowKey) {
    exists i :: 0 <= i < |entries| && entries[i].0 == key
  }

  lemma {:induction false} PutAllKeys(rows: map<RowKey, Row>, entries: seq<(RowKey, Row)>)
    ensures forall key :: key in PutAll(rows, entries) <==> key in rows || KeyOf(entries, key)
    ensures forall key :: key in rows && !KeyOf(entries, key) ==> PutAll(rows, entries)[key] == rows[key]
  {
    if entries != [] {
      var front, last := entries[..|entries| - 1], entries[|entries| - 1];
      PutAllKeys(rows, front);
      forall key
        ensures KeyOf(entries, key) <==> KeyOf(front, key) || key == last.0
      {
        KeyOfSnoc(front, last, key);
        assert entries == front + [last];
      }
    }
  }

  lemma KeyOfSnoc(front: seq<(RowKey, Row)>, last: (RowKey, Row), key: RowKey)
    ensures KeyOf(front + [last], key) <==> KeyOf(front, key) || key == last.0
  {
    var all := front + [last];
    if KeyOf(front, key) {
      var i :| 0 <= i < |front| && front[i].0 == key;
      assert all[i].0 == key;
    }
    assert all[|front|] == last;
  }

  lemma KeyOfConcat(a: seq<(RowKey, Row)>, b: seq<(RowKey, Row)>, key: RowKey)
    ensures KeyOf(a + b, key) <==> KeyOf(a, key) || KeyOf(b, key)
  {
    if KeyOf(a, key) {
      var i :| 0 <= i < |a| && a[i].0 == key;
      assert (a + b)[i].0 == key;
    }
    if KeyOf(b, key) {
      var i :| 0 <= i < |b| && b[i].0 == key;
      assert (a + b)[|a| + i].0 == key;
    }
  }

  lemma {:induction false} SkillRowsHold(d: Disk, places: seq<Place>, at: string, key: RowKey)
    ensures KeyOf(SkillRows(d, places, at), key) <==>
      key == SkillKey(key.name) && Place(Skill, key.name) in places && IsTree(d, Place(Skill, key.name))
  {
    if places != [] {
      var front, p := places[..|places| - 1], places[|places| - 1];
      SkillRowsHold(d, front, at, key);
      assert places == front + [p];
      assert Place(Skill, key.name) in places <==> Place(Skill, key.name) in front || p == Place(Skill, key.name);
      assert SkillRows(d, front, at) + [] == SkillRows(d, front, at);
      KeyOfSnoc(SkillRows(d, front, at), (SkillKey(p.name), Row("legacy", at, None)), key);
    }
  }

  ghost predicate Provisioned(provisions: seq<Provision>, name: string) {
    exists i :: 0 <= i < |provisions| && provisions[i].name == name
  }

  lemma {:induction false} McpRowsHold(provisions: seq<Provision>, key: RowKey)
    ensures KeyOf(McpRows(provisions), key) <==> key == RowKey("", "mcp", key.name) && Provisioned(provisions, key.name)
  {
    if provisions != [] {
      var front, p := provisions[..|provisions| - 1], provisions[|provisions| - 1];
      McpRowsHold(front, key);
      KeyOfSnoc(McpRows(front), (RowKey("", "mcp", p.name), Row("legacy", p.provisionedAt, Some(p.config))), key);
      assert Provisioned(provisions, key.name) <==> Provisioned(front, key.name) || p.name == key.name by {
        if Provisioned(front, key.name) {
          var i :| 0 <= i < |front| && front[i].name == key.name;
          assert provisions[i].name == key.name;
        }
      }
    }
  }

  /** The rows a disk is owed: one for each legacy skill tree and one for each provisioned server. */
  ghost predicate Owed(d: Disk, provisions: seq<Provision>, key: RowKey) {
    || (key == SkillKey(key.name) && IsTree(d, Place(Skill, key.name)))
    || (key == RowKey("", "mcp", key.name) && Provisioned(provisions, key.name))
  }

  lemma RowsAreOwed(d: Disk, b: Boot, provisions: seq<Provision>)
    requires d.Valid() && Lists(d, b.listing)
    ensures forall key :: KeyOf(Rows(d, b, provisions), key) <==> Owed(d, provisions, key)
  {
    AllPlaces(d, b.listing);
    var places := Places(b.listing, |KINDS|);
    forall key
      ensures KeyOf(Rows(d, b, provisions), key) <==> Owed(d, provisions, key)
    {
      KeyOfConcat(SkillRows(d, places, b.at), McpRows(provisions), key);
      SkillRowsHold(d, places, b.at, key);
      McpRowsHold(provisions, key);
    }
  }

  ghost predicate Always(entries: seq<(RowKey, Row)>, key: RowKey, row: Row) {
    forall i :: 0 <= i < |entries| && entries[i].0 == key ==> entries[i].1 == row
  }

  lemma {:induction false} PutAllWrites(rows: map<RowKey, Row>, entries: seq<(RowKey, Row)>, key: RowKey, row: Row)
    requires KeyOf(entries, key) && Always(entries, key, row)
    ensures key in PutAll(rows, entries) && PutAll(rows, entries)[key] == row
  {
    var front, last := entries[..|entries| - 1], entries[|entries| - 1];
    if last.0 != key {
      assert entries == front + [last];
      KeyOfSnoc(front, last, key);
      PutAllWrites(rows, front, key, row);
    }
  }

  lemma {:induction false} SkillRowsAlways(d: Disk, places: seq<Place>, at: string, name: string)
    ensures Always(SkillRows(d, places, at), SkillKey(name), Row("legacy", at, None))
  {
    if places != [] {
      SkillRowsAlways(d, places[..|places| - 1], at, name);
    }
  }

  lemma {:induction false} McpRowsAlways(provisions: seq<Provision>, p: Provision)
    requires forall q :: q in provisions && q.name == p.name ==> q == p
    ensures Always(McpRows(provisions), RowKey("", "mcp", p.name), Row("legacy", p.provisionedAt, Some(p.config)))
  {
    if provisions != [] {
      assert provisions == provisions[..|provisions| - 1] + [provisions[|provisions| - 1]];
      McpRowsAlways(provisions[..|provisions| - 1], p);
    }
  }

  lemma {:induction false} McpRowsOnly(provisions: seq<Provision>, i: nat)
    requires i < |McpRows(provisions)|
    ensures McpRows(provisions)[i].0.kind == "mcp"
  {
    if i < |McpRows(provisions[..|provisions| - 1])| {
      McpRowsOnly(provisions[..|provisions| - 1], i);
    }
  }

  lemma {:induction false} SkillRowsOnly(d: Disk, places: seq<Place>, at: string, i: nat)
    requires i < |SkillRows(d, places, at)|
    ensures SkillRows(d, places, at)[i].0.kind == "skill"
  {
    if i < |SkillRows(d, places[..|places| - 1], at)| {
      SkillRowsOnly(d, places[..|places| - 1], at, i);
    }
  }

  /** What the rows say: each skill stamped with the boot's time, each server with its own time and config. */
  lemma RowsSay(d: Disk, b: Boot, provisions: seq<Provision>)
    requires d.Valid() && Lists(d, b.listing)
    ensures forall n :: IsTree(d, Place(Skill, n)) ==>
      var rows := PutAll(d.rows, Rows(d, b, provisions));
      SkillKey(n) in rows && rows[SkillKey(n)] == Row("legacy", b.at, None)
    ensures forall p :: p in provisions && (forall q :: q in provisions && q.name == p.name ==> q == p) ==>
      var rows, key := PutAll(d.rows, Rows(d, b, provisions)), RowKey("", "mcp", p.name);
      key in rows && rows[key] == Row("legacy", p.provisionedAt, Some(p.config))
  {
    RowsAreOwed(d, b, provisions);
    var skills, servers := SkillRows(d, Places(b.listing, |KINDS|), b.at), McpRows(provisions);
    forall i | 0 <= i < |skills|
      ensures skills[i].0.kind == "skill"
    {
      SkillRowsOnly(d, Places(b.listing, |KINDS|), b.at, i);
    }
    forall i | 0 <= i < |servers|
      ensures servers[i].0.kind == "mcp"
    {
      McpRowsOnly(provisions, i);
    }
    assert "skill" != "mcp";
    hide SkillRows, McpRows, PutAll, Lists, KeyOf;
    forall n | IsTree(d, Place(Skill, n))
      ensures SkillKey(n) in PutAll(d.rows, skills + servers)
      ensures PutAll(d.rows, skills + servers)[SkillKey(n)] == Row("legacy", b.at, None)
    {
      assert Owed(d, provisions, SkillKey(n));
      SkillRowsAlways(d, Places(b.listing, |KINDS|), b.at, n);
      PutAllWrites(d.rows, skills + servers, SkillKey(n), Row("legacy", b.at, None));
    }
    forall p | p in provisions && forall q :: q in provisions && q.name == p.name ==> q == p
      ensures RowKey("", "mcp", p.name) in PutAll(d.rows, skills + servers)
      ensures PutAll(d.rows, skills + servers)[RowKey("", "mcp", p.name)]
        == Row("legacy", p.provisionedAt, Some(p.config))
    {
      assert Owed(d, provisions, RowKey("", "mcp", p.name));
      McpRowsAlways(provisions, p);
      PutAllWrites(d.rows, skills + servers, RowKey("", "mcp", p.name), Row("legacy", p.provisionedAt, Some(p.config)));
    }
  }

  lemma MovesAreMovable(d: Disk, b: Boot)
    requires d.Valid() && Lists(d, b.listing)
    ensures forall p :: p in Moves(d, b) <==> Movable(d, p)
    ensures Distinct(Moves(d, b))
  {
    AllPlaces(d, b.listing);
    MoveListHolds(d, Places(b.listing, |KINDS|));
  }

  // ----- what a boot does, however far it gets -----

  function Stored(d: Disk, b: Boot, provisions: seq<Provision>): Disk {
    d.(rows := PutAll(d.rows, Rows(d, b, provisions)))
  }

  function Relocated(d: Disk, moves: seq<Place>): Disk {
    d.(legacy := d.legacy - (set p | p in moves),
       global := d.global + (map p | p in moves && p in d.legacy :: d.legacy[p]))
  }

  /** Moving only trees that have a free place loses and replaces nothing. */
  lemma RelocatedView(d: Disk, moves: seq<Place>)
    requires forall p :: p in moves ==> Movable(d, p)
    ensures forall p :: p in Relocated(d, moves).legacy <==> p in d.legacy && p !in moves
    ensures forall p :: p in Relocated(d, moves).legacy ==> Relocated(d, moves).legacy[p] == d.legacy[p]
    ensures forall p :: p in Relocated(d, moves).global <==> p in d.global || p in moves
    ensures forall p :: p in d.global ==>
      p in Relocated(d, moves).global && Relocated(d, moves).global[p] == d.global[p]
    ensures forall p ::
      p in moves ==> p in d.legacy && p in Relocated(d, moves).global && Relocated(d, moves).global[p] == d.legacy[p]
  {
  }

  lemma RelocatedNext(d: Disk, front: seq<Place>, p: Place)
    requires p !in front && p in d.legacy
    ensures Apply(Relocated(d, front), Move(p)) == Relocated(d, front + [p])
  {
    var all := front + [p];
    assert forall q :: q in all <==> q in front || q == p;
    assert d.legacy - (set q | q in front) - {p} == d.legacy - (set q | q in all);
    var m, n := map q | q in front && q in d.legacy :: d.legacy[q], map q | q in all && q in d.legacy :: d.legacy[q];
    assert m[p := d.legacy[p]] == n;
    assert (d.global + m)[p := d.legacy[p]] == d.global + n;
  }

  lemma {:induction false} RunMoves(d: Disk, moves: seq<Place>)
    requires Distinct(moves) && forall p :: p in moves ==> p in d.legacy
    ensures Run(d, MoveSteps(moves)) == Relocated(d, moves)
  {
    if moves == [] {
      assert Relocated(d, moves).legacy == d.legacy && Relocated(d, moves).global == d.global;
    } else {
      hide Relocated, Apply;
      var front, p := moves[..|moves| - 1], moves[|moves| - 1];
      assert moves == front + [p] && p !in front;
      RunMoves(d, front);
      assert MoveSteps(moves)[..|moves| - 1] == MoveSteps(front);
      RelocatedNext(d, front, p);
    }
  }

  /** The disk after the rows, the first `m` moves and the first `c` closing steps of a boot. */
  function Stage(d: Disk, b: Boot, provisions: seq<Provision>, m: nat, c: nat): Disk
    requires m <= |Moves(d, b)| && c <= 4
  {
    Run(Relocated(Stored(d, b, provisions), Moves(d, b)[..m]), Closing()[..c])
  }

  lemma {:induction false} MoveStepsTake(moves: seq<Place>, m: nat)
    requires m <= |moves|
    ensures MoveSteps(moves)[..m] == MoveSteps(moves[..m])
  {
  }

  lemma RunOne(d: Disk, s: Step)
    ensures Run(d, [s]) == Apply(d, s)
  {
    assert [s][..0] == [];
  }

  /** Stopping a boot after `n` steps leaves one of these stages. */
  lemma StoppedAt(d: Disk, b: Boot, provisions: seq<Provision>, n: nat)
    requires d.Valid() && Lists(d, b.listing) && !d.marked && 0 < n <= |Steps(d, b, provisions)|
    ensures |Steps(d, b, provisions)| == 1 + |Moves(d, b)| + 4
    ensures n <= 1 + |Moves(d, b)| ==> Run(d, Steps(d, b, provisions)[..n]) == Stage(d, b, provisions, n - 1, 0)
    ensures n > 1 + |Moves(d, b)| ==>
      Run(d, Steps(d, b, provisions)[..n]) == Stage(d, b, provisions, |Moves(d, b)|, n - 1 - |Moves(d, b)|)
  {
    hide Rows, Moves, Run, PutAll, Closing, Relocated, Apply, Movable, Lists;
    var moves, put := Moves(d, b), PutRows(Rows(d, b, provisions));
    var m := if n <= 1 + |moves| then n - 1 else |moves|;
    var c := n - 1 - m;
    StepsTake(d, b, provisions, m, c);
    RunConcat(d, [put] + MoveSteps(moves[..m]), Closing()[..c]);
    RunConcat(d, [put], MoveSteps(moves[..m]));
    PutThenMove(d, b, provisions, m);
  }

  lemma StepsTake(d: Disk, b: Boot, provisions: seq<Provision>, m: nat, c: nat)
    requires !d.marked && m <= |Moves(d, b)| && c <= 4 && (c > 0 ==> m == |Moves(d, b)|)
    ensures Steps(d, b, provisions)[..1 + m + c]
      == ([PutRows(Rows(d, b, provisions))] + MoveSteps(Moves(d, b)[..m])) + Closing()[..c]
  {
    hide Rows, Moves, Closing;
    MoveStepsTake(Moves(d, b), m);
  }

  lemma PutThenMove(d: Disk, b: Boot, provisions: seq<Provision>, m: nat)
    requires d.Valid() && Lists(d, b.listing) && m <= |Moves(d, b)|
    ensures Run(Run(d, [PutRows(Rows(d, b, provisions))]), MoveSteps(Moves(d, b)[..m]))
      == Relocated(Stored(d, b, provisions), Moves(d, b)[..m])
  {
    MovesAreMovable(d, b);
    RunOne(d, PutRows(Rows(d, b, provisions)));
    hide Rows, Moves, Run, PutAll, Relocated, Lists;
    assert forall p :: p in Moves(d, b)[..m] ==> p in Moves(d, b);
    RunMoves(Stored(d, b, provisions), Moves(d, b)[..m]);
  }

  /** Every tree is where it was, or was moved to a free place; nothing was overwritten or lost. */
  ghost predicate TreesKept(d0: Disk, d: Disk) {
    && (forall p :: p in d0.global ==> p in d.global && d.global[p] == d0.global[p])
    && (forall p :: p in d.legacy ==> p in d0.legacy && d.legacy[p] == d0.legacy[p])
    && (forall p :: p in d0.legacy && p !in d.legacy ==> Movable(d0, p) && p in d.global && d.global[p] == d0.legacy[p])
    && (forall p :: p in d.global ==> p in d0.global || (p in d0.legacy && p !in d.legacy))
  }

  /** Rows are only added, only those that are owed, and a moved skill has its row. */
  ghost predicate RowsKept(d0: Disk, provisions: seq<Provision>, d: Disk) {
    && (forall key :: key in d0.rows ==> key in d.rows)
    && (forall key :: key in d.rows ==> key in d0.rows || Owed(d0, provisions, key))
    && (forall key :: key in d0.rows && !Owed(d0, provisions, key) ==> d.rows[key] == d0.rows[key])
    && (forall p :: p in d0.legacy && p !in d.legacy && p.kind == Skill ==> SkillKey(p.name) in d.rows)
  }

  ghost predicate Occupied(d: Disk, k: Kind) {
    exists p :: p in d.legacy && p.kind == k
  }

  /** A directory goes only when it is empty. */
  ghost predicate DirsKept(d0: Disk, d: Disk) {
    d.dirs <= d0.dirs && d.Valid()
  }

  /** The migration is complete: exactly the trees with a free place have moved, every owed row is there, and
      only directories that still hold something remain. */
  ghost predicate Migrated(d0: Disk, provisions: seq<Provision>, d: Disk) {
    && d.marked
    && (forall p :: p in d.legacy <==> p in d0.legacy && !Movable(d0, p))
    && (forall key :: key in d.rows <==> key in d0.rows || Owed(d0, provisions, key))
    && (forall k :: k in d.dirs <==> k in d0.dirs && Occupied(d, k))
  }

  ghost predicate Kept(d0: Disk, provisions: seq<Provision>, d: Disk) {
    && TreesKept(d0, d) && RowsKept(d0, provisions, d) && DirsKept(d0, d)
    && (d.marked ==> Migrated(d0, provisions, d))
  }

  lemma MovableLater(d0: Disk, d: Disk, p: Place)
    requires TreesKept(d0, d)
    ensures Movable(d, p) <==> Movable(d0, p) && p in d.legacy
  {
  }

  lemma OwedLater(d0: Disk, provisions: seq<Provision>, d: Disk, key: RowKey)
    requires TreesKept(d0, d) && RowsKept(d0, provisions, d)
    ensures Owed(d, provisions, key) ==> Owed(d0, provisions, key)
    ensures Owed(d0, provisions, key) ==> Owed(d, provisions, key) || key in d.rows
  {
  }

  lemma TreesMoved(d0: Disk, d: Disk, moves: seq<Place>)
    requires TreesKept(d0, d) && forall p :: p in moves ==> Movable(d, p)
    ensures TreesKept(d0, Relocated(d, moves))
  {
    RelocatedView(d, moves);
    hide Relocated;
    forall p | Movable(d, p)
      ensures Movable(d0, p)
    {
      MovableLater(d0, d, p);
    }
  }

  lemma TreesStored(d0: Disk, d: Disk, b: Boot, provisions: seq<Provision>)
    requires TreesKept(d0, d)
    ensures TreesKept(d0, Stored(d, b, provisions))
  {
    hide Rows, PutAll, Movable;
  }

  lemma SomeMoves(d: Disk, b: Boot, provisions: seq<Provision>, m: nat)
    requires d.Valid() && Lists(d, b.listing) && m <= |Moves(d, b)|
    ensures forall p :: p in Moves(d, b)[..m] ==> Movable(Stored(d, b, provisions), p)
  {
    MovesAreMovable(d, b);
    hide Moves, Rows, PutAll, Lists, Distinct;
    assert forall p :: p in Moves(d, b)[..m] ==> p in Moves(d, b);
  }

  lemma StageTrees(d0: Disk, d: Disk, b: Boot, provisions: seq<Provision>, m: nat)
    requires TreesKept(d0, d) && d.Valid() && Lists(d, b.listing) && m <= |Moves(d, b)|
    ensures TreesKept(d0, Relocated(Stored(d, b, provisions), Moves(d, b)[..m]))
  {
    hide Moves, Rows, Stored, Lists, Relocated, Movable, TreesKept;
    SomeMoves(d, b, provisions, m);
    TreesStored(d0, d, b, provisions);
    TreesMoved(d0, Stored(d, b, provisions), Moves(d, b)[..m]);
  }

  lemma StoredKeys(d0: Disk, d: Disk, b: Boot, provisions: seq<Provision>)
    requires TreesKept(d0, d) && RowsKept(d0, provisions, d) && d.Valid() && Lists(d, b.listing)
    ensures forall key :: key in Stored(d, b, provisions).rows <==> key in d.rows || Owed(d, provisions, key)
    ensures forall key :: key in Stored(d, b, provisions).rows <==> key in d0.rows || Owed(d0, provisions, key)
    ensures forall key :: key in d0.rows && !Owed(d0, provisions, key) ==>
      Stored(d, b, provisions).rows[key] == d0.rows[key]
  {
    RowsAreOwed(d, b, provisions);
    PutAllKeys(d.rows, Rows(d, b, provisions));
    hide Rows, PutAll, Lists, KeyOf, TreesKept, Owed;
    forall key
      ensures Owed(d, provisions, key) ==> Owed(d0, provisions, key)
      ensures Owed(d0, provisions, key) ==> Owed(d, provisions, key) || key in d.rows
    {
      OwedLater(d0, provisions, d, key);
    }
  }

  lemma StageRows(d0: Disk, d: Disk, b: Boot, provisions: seq<Provision>, m: nat)
    requires TreesKept(d0, d) && d.Valid() && RowsKept(d0, provisions, d) && Lists(d, b.listing) && m <= |Moves(d, b)|
    ensures RowsKept(d0, provisions, Relocated(Stored(d, b, provisions), Moves(d, b)[..m]))
    ensures forall key ::
      key in Stored(d, b, provisions).rows <==> key in d0.rows || Owed(d0, provisions, key)
  {
    StoredKeys(d0, d, b, provisions);
    MovesAreMovable(d, b);
    hide Moves, Rows, PutAll, Lists, TreesKept, Owed;
    forall p | p in d.legacy && p in Moves(d, b)[..m] && p.kind == Skill
      ensures SkillKey(p.name) in Stored(d, b, provisions).rows
    {
      assert p in Moves(d, b);
      MovableIsOwed(d, provisions, p);
    }
  }

  lemma MovableIsOwed(d: Disk, provisions: seq<Provision>, p: Place)
    requires Movable(d, p) && p.kind == Skill
    ensures Owed(d, provisions, SkillKey(p.name))
  {
    assert p == Place(Skill, p.name);
  }

  lemma RemoveDirStep(d: Disk, k: Kind)
    ensures Apply(d, RemoveDir(k)) == d.(dirs := if Occupied(d, k) then d.dirs else d.dirs - {k})
  {
  }

  lemma {:induction false} RunClosing(d: Disk, c: nat)
    requires c <= 4
    ensures Run(d, Closing()[..c]) == d.(dirs := Run(d, Closing()[..c]).dirs, marked := d.marked || c == 4)
    ensures Run(d, Closing()[..c]).dirs <= d.dirs
    ensures forall k :: k in d.dirs && Occupied(d, k) ==> k in Run(d, Closing()[..c]).dirs
    ensures forall k :: k in KINDS[..if c < 3 then c else 3] && k in Run(d, Closing()[..c]).dirs ==> Occupied(d, k)
  {
    if c > 0 {
      RunClosing(d, c - 1);
      assert Closing()[..c] == Closing()[..c - 1] + [Closing()[c - 1]];
      var e := Run(d, Closing()[..c - 1]);
      if c < 4 {
        assert Closing()[c - 1] == RemoveDir(KINDS[c - 1]);
        RemoveDirStep(e, KINDS[c - 1]);
        assert Occupied(e, KINDS[c - 1]) == Occupied(d, KINDS[c - 1]);
        assert KINDS[..c] == KINDS[..c - 1] + [KINDS[c - 1]];
      }
    }
  }

  lemma AllKinds()
    ensures forall k: Kind :: k in KINDS[..3]
  {
    forall k: Kind
      ensures k in KINDS[..3]
    {
      assert k == KINDS[0] || k == KINDS[1] || k == KINDS[2];
    }
  }

  lemma {:induction false} ClosedKeeps(d0: Disk, provisions: seq<Provision>, d: Disk, c: nat)
    requires Kept(d0, provisions, d) && !d.marked && c <= 4
    requires c == 4 ==> forall p :: p in d.legacy ==> !Movable(d, p)
    requires c == 4 ==> forall key :: key in d.rows <==> key in d0.rows || Owed(d0, provisions, key)
    ensures Kept(d0, provisions, Run(d, Closing()[..c]))
  {
    RunClosing(d, c);
    AllKinds();
    hide Run, Closing, TreesKept, RowsKept, Migrated;
    var e := Run(d, Closing()[..c]);
    SameTrees(d0, provisions, d, e);
    assert DirsKept(d0, e) by {
      forall p | p in e.legacy
        ensures p.kind in e.dirs
      {
        assert Occupied(d, p.kind);
      }
    }
    if c == 4 {
      ClosedIsMigrated(d0, provisions, d, e);
    }
  }

  lemma SameTrees(d0: Disk, provisions: seq<Provision>, d: Disk, e: Disk)
    requires TreesKept(d0, d) && RowsKept(d0, provisions, d)
    requires e.legacy == d.legacy && e.global == d.global && e.rows == d.rows
    ensures TreesKept(d0, e) && RowsKept(d0, provisions, e)
  {
  }

  lemma ClosedIsMigrated(d0: Disk, provisions: seq<Provision>, d: Disk, e: Disk)
    requires TreesKept(d0, d) && e.legacy == d.legacy && e.rows == d.rows && e.marked
    requires forall p :: p in d.legacy ==> !Movable(d, p)
    requires forall key :: key in d.rows <==> key in d0.rows || Owed(d0, provisions, key)
    requires forall k :: k in e.dirs <==> k in d0.dirs && Occupied(d, k)
    ensures Migrated(d0, provisions, e)
  {
    forall p
      ensures p in e.legacy <==> p in d0.legacy && !Movable(d0, p)
    {
      MovableLater(d0, d, p);
    }
    assert forall k :: Occupied(e, k) <==> Occupied(d, k);
  }

  /** One boot, stopped anywhere, keeps everything; a boot that is not stopped completes the migration. */
  lemma BootKeeps(d0: Disk, provisions: seq<Provision>, d: Disk, b: Boot, n: nat)
    requires Kept(d0, provisions, d) && Lists(d, b.listing) && n <= |Steps(d, b, provisions)|
    ensures Kept(d0, provisions, Run(d, Steps(d, b, provisions)[..n]))
    ensures Run(d, Steps(d, b, provisions)[..n]).marked <==> d.marked || n == |Steps(d, b, provisions)|
  {
    hide Rows, Moves, PutAll, Closing, Relocated, Lists, TreesKept, RowsKept, Migrated;
    if n > 0 {
      hide Run, Steps;
      assert Steps(d, b, provisions) == [] || !d.marked by { SomeSteps(d, b, provisions); }
      StoppedAt(d, b, provisions, n);
      var moves := Moves(d, b);
      var m := if n <= 1 + |moves| then n - 1 else |moves|;
      StageKept(d0, provisions, d, b, m, n - 1 - m);
    } else if d.marked {
      assert Steps(d, b, provisions)[..n] == [];
    }
  }

  lemma SomeSteps(d: Disk, b: Boot, provisions: seq<Provision>)
    ensures Steps(d, b, provisions) == [] <==> d.marked
  {
  }

  lemma StageKept(d0: Disk, provisions: seq<Provision>, d: Disk, b: Boot, m: nat, c: nat)
    requires Kept(d0, provisions, d) && !d.marked && Lists(d, b.listing)
    requires m <= |Moves(d, b)| && c <= 4 && (c > 0 ==> m == |Moves(d, b)|)
    ensures Kept(d0, provisions, Stage(d, b, provisions, m, c))
    ensures Stage(d, b, provisions, m, c).marked <==> c == 4
  {
    MovesAreMovable(d, b);
    StageTrees(d0, d, b, provisions, m);
    StageRows(d0, d, b, provisions, m);
    var moves := Moves(d, b);
    var e := Relocated(Stored(d, b, provisions), moves[..m]);
    RunClosing(e, c);
    hide Rows, Moves, PutAll, Closing, TreesKept, RowsKept, Lists, Migrated, Run;
    assert e.Valid();
    if c == 4 {
      assert moves[..m] == moves;
    }
    ClosedKeeps(d0, provisions, e, c);
  }

  // ----- many boots -----

  /** A boot that stops after `steps` of its steps. */
  datatype Attempt = Attempt(boot: Boot, steps: nat)

  function After(d: Disk, provisions: seq<Provision>, attempts: seq<Attempt>): Disk {
    if attempts == [] then d
    else
      var before, last := After(d, provisions, attempts[..|attempts| - 1]), attempts[|attempts| - 1];
      var steps := Steps(before, last.boot, provisions);
      Run(before, steps[..if last.steps <= |steps| then last.steps else |steps|])
  }

  /** Each boot reads the directories as the one before it left them. */
  ghost predicate Possible(d: Disk, provisions: seq<Provision>, attempts: seq<Attempt>) {
    attempts == [] ||
    (Possible(d, provisions, attempts[..|attempts| - 1])
      && Lists(After(d, provisions, attempts[..|attempts| - 1]), attempts[|attempts| - 1].boot.listing))
  }

  lemma UntouchedKept(d0: Disk, provisions: seq<Provision>)
    requires d0.Valid() && !d0.marked
    ensures Kept(d0, provisions, d0)
  {
  }

  /** Whatever the crashes, nothing is lost or overwritten at any point. */
  lemma {:induction false} CrashesKeep(d0: Disk, provisions: seq<Provision>, attempts: seq<Attempt>)
    requires d0.Valid() && !d0.marked && Possible(d0, provisions, attempts)
    ensures Kept(d0, provisions, After(d0, provisions, attempts))
  {
    hide Kept, Steps, Run, Lists;
    if attempts == [] {
      UntouchedKept(d0, provisions);
    } else {
      var before, last := After(d0, provisions, attempts[..|attempts| - 1]), attempts[|attempts| - 1];
      CrashesKeep(d0, provisions, attempts[..|attempts| - 1]);
      var n := |Steps(before, last.boot, provisions)|;
      BootKeeps(d0, provisions, before, last.boot, if last.steps <= n then last.steps else n);
    }
  }

  lemma SameLegacy(d0: Disk, d: Disk, e: Disk)
    requires TreesKept(d0, d) && TreesKept(d0, e)
    requires forall p :: p in d.legacy <==> p in e.legacy
    ensures d.legacy == e.legacy && d.global.Keys == e.global.Keys
  {
  }

  lemma SameGlobal(d0: Disk, d: Disk, e: Disk)
    requires TreesKept(d0, d) && TreesKept(d0, e) && d.legacy == e.legacy && d.global.Keys == e.global.Keys
    ensures d.global == e.global
  {
  }

  lemma MigratedSame(d0: Disk, provisions: seq<Provision>, d: Disk, e: Disk)
    requires Kept(d0, provisions, d) && d.marked && Kept(d0, provisions, e) && e.marked
    ensures d.(rows := map[]) == e.(rows := map[]) && d.rows.Keys == e.rows.Keys
  {
    hide TreesKept, RowsKept, DirsKept, Owed, Movable;
    assert d.rows.Keys == e.rows.Keys;
    SameLegacy(d0, d, e);
    SameGlobal(d0, d, e);
    assert forall k :: Occupied(d, k) <==> Occupied(e, k);
    hide Occupied;
    assert d.dirs == e.dirs;
  }

  /** After any crashes, one boot that is not stopped leaves the trees, the directories and the row keys that
      a boot from the start would have left. */
  lemma CrashRestart(d0: Disk, provisions: seq<Provision>, attempts: seq<Attempt>, again: Boot, clean: Boot)
    requires d0.Valid() && !d0.marked && Possible(d0, provisions, attempts)
    requires Lists(After(d0, provisions, attempts), again.listing) && Lists(d0, clean.listing)
    ensures var d, e := After(d0, provisions, attempts), Run(d0, Steps(d0, clean, provisions));
      var f := Run(d, Steps(d, again, provisions));
      Migrated(d0, provisions, e) && f.(rows := map[]) == e.(rows := map[]) && f.rows.Keys == e.rows.Keys
  {
    var d := After(d0, provisions, attempts);
    hide After, Run, Steps, Lists, Possible, Migrated;
    CrashesKeep(d0, provisions, attempts);
    FullBoot(d0, provisions, d, again);
    UntouchedKept(d0, provisions);
    FullBoot(d0, provisions, d0, clean);
    MigratedSame(d0, provisions, Run(d, Steps(d, again, provisions)), Run(d0, Steps(d0, clean, provisions)));
  }

  lemma FullBoot(d0: Disk, provisions: seq<Provision>, d: Disk, b: Boot)
    requires Kept(d0, provisions, d) && Lists(d, b.listing)
    ensures Kept(d0, provisions, Run(d, Steps(d, b, provisions))) && Run(d, Steps(d, b, provisions)).marked
  {
    var steps := Steps(d, b, provisions);
    BootKeeps(d0, provisions, d, b, |steps|);
    assert steps[..|steps|] == steps;
  }

  /** Once the marker is there, no boot changes anything. */
  lemma {:induction false} MarkedIsFinal(d: Disk, provisions: seq<Provision>, attempts: seq<Attempt>)
    requires d.marked
    ensures After(d, provisions, attempts) == d
  {
    if attempts != [] {
      MarkedIsFinal(d, provisions, attempts[..|attempts| - 1]);
    }
  }

  /** With the marker there, every legacy skill has its row, every tree that had a free place is in the global
      root, and what is still under the asset root is exactly what had none: trees whose name the global root
      already had, and whatever is not a directory. */
  lemma MarkedMeansSafe(d0: Disk, provisions: seq<Provision>, attempts: seq<Attempt>)
    requires d0.Valid() && !d0.marked && Possible(d0, provisions, attempts)
    requires After(d0, provisions, attempts).marked
    ensures var d := After(d0, provisions, attempts);
      && (forall n :: IsTree(d0, Place(Skill, n)) ==> SkillKey(n) in d.rows)
      && (forall p :: Movable(d0, p) ==> p in d.global && d.global[p] == d0.legacy[p])
      && (forall p :: p in d.legacy <==> p in d0.legacy && !Movable(d0, p))
      && (forall p :: p in d.legacy ==> d.legacy[p] == d0.legacy[p])
  {
    CrashesKeep(d0, provisions, attempts);
    hide After, Possible, DirsKept;
    var d := After(d0, provisions, attempts);
    forall n | IsTree(d0, Place(Skill, n))
      ensures SkillKey(n) in d.rows
    {
      assert Owed(d0, provisions, SkillKey(n));
    }
  }

  /** The comment above the code says that nothing is left under the asset root once a sweep can run. That holds
      exactly when every entry of the legacy directories is a directory whose name the global root lacks; then
      the directories themselves are gone too. */
  lemma NothingLeftIff(d0: Disk, provisions: seq<Provision>, attempts: seq<Attempt>)
    requires d0.Valid() && !d0.marked && Possible(d0, provisions, attempts)
    requires After(d0, provisions, attempts).marked
    ensures var d := After(d0, provisions, attempts);
      && (d.legacy == map[] <==> forall p :: p in d0.legacy ==> Movable(d0, p))
      && (d.dirs == {} <==> forall p :: p in d0.legacy ==> Movable(d0, p))
  {
    CrashesKeep(d0, provisions, attempts);
    hide After, Possible, TreesKept, RowsKept, Movable;
    var d := After(d0, provisions, attempts);
    assert d.legacy == map[] <==> forall p :: p !in d.legacy;
    if p :| p in d.legacy {
      assert Occupied(d, p.kind) && p.kind in d.dirs;
    }
  }

  /** Two ways it fails: a colliding tree, and a loose file, which no rename ever considers. */
  lemma LeftBehind(provisions: seq<Provision>, attempts: seq<Attempt>, name: string, tree: Entry, other: Entry)
    requires tree.Dir?
    ensures var at := Place(Skill, name);
      var d0 := Disk({Skill}, map[at := tree], map[at := other], map[], false);
      Possible(d0, provisions, attempts) ==> After(d0, provisions, attempts).legacy == map[at := tree]
    ensures var at := Place(Skill, name);
      var d0 := Disk({Skill}, map[at := Other], map[], map[], false);
      Possible(d0, provisions, attempts) ==> After(d0, provisions, attempts).legacy == map[at := Other]
  {
    var at := Place(Skill, name);
    var collides := Disk({Skill}, map[at := tree], map[at := other], map[], false);
    var loose := Disk({Skill}, map[at := Other], map[], map[], false);
    hide After, Possible, RowsKept, DirsKept, Migrated;
    if Possible(collides, provisions, attempts) {
      CrashesKeep(collides, provisions, attempts);
    }
    if Possible(loose, provisions, attempts) {
      CrashesKeep(loose, provisions, attempts);
    }
  }

  // ----- the function as written -----

  /** The disk and the catalog, changed by one call at a time. */
  class Deployment {
    var dirs: set<Kind>
    var legacy: map<Place, Entry>
    var global: map<Place, Entry>
    var rows: map<RowKey, Row>
    var marked: bool

    ghost function View(): Disk
      reads this
    {
      Disk(dirs, legacy, global, rows, marked)
    }

    method PutLegacyAssets(entries: seq<(RowKey, Row)>)
      modifies this`rows
      ensures View() == Apply(old(View()), PutRows(entries))
    {
      for i := 0 to |entries|
        invariant rows == PutAll(old(rows), entries[..i])
      {
        rows := rows[entries[i].0 := entries[i].1];
        assert entries[..i + 1][..i] == entries[..i];
      }
      assert entries[..|entries|] == entries;
    }

    method RenameSync(p: Place)
      requires p in legacy
      modifies this`legacy, this`global
      ensures View() == Apply(old(View()), Move(p))
    {
      global := global[p := legacy[p]];
      legacy := legacy - {p};
    }

    method RmdirSync(k: Kind)
      modifies this`dirs
      ensures View() == Apply(old(View()), RemoveDir(k))
    {
      if !(exists p :: p in legacy && p.kind == k) {
        dirs := dirs - {k};
      }
    }

    /** Reads the kind directories and decides the rows and the moves; changes nothing. */
    method Scan(b: Boot) returns (entries: seq<(RowKey, Row)>, moves: seq<Place>)
      requires View().Valid() && Lists(View(), b.listing)
      ensures moves == Moves(View(), b)
      ensures entries == SkillRows(View(), Places(b.listing, |KINDS|), b.at)
    {
      hide MoveList, SkillRows, Lists;
      entries, moves := [], [];
      ghost var d, done := View(), Places(b.listing, 0);
      assert moves == MoveList(d, done) && entries == SkillRows(d, done, b.at) by { ScanNone(d, b.at); }
      for i := 0 to |KINDS|
        invariant done == Places(b.listing, i)
        invariant moves == MoveList(d, done) && entries == SkillRows(d, done, b.at)
      {
        var kind := KINDS[i];
        if kind in b.listing {
          var names := b.listing[kind];
          for j := 0 to |names|
            invariant done == Places(b.listing, i) + Named(kind, names[..j])
            invariant moves == MoveList(d, done) && entries == SkillRows(d, done, b.at)
          {
            var from := Place(kind, names[j]);
            ScanNext(d, done, from, b.at);
            NamedNext(kind, names, j);
            done := done + [from];
            if from in legacy && legacy[from].Dir? {
              if from !in global {
                moves := moves + [from];
              }
              if kind == Skill {
                entries := entries + [(SkillKey(names[j]), Row("legacy", b.at, None))];
              }
            }
          }
          assert names[..|names|] == names;
        }
      }
    }

    method ReadProvisions(provisions: seq<Provision>) returns (entries: seq<(RowKey, Row)>)
      ensures entries == McpRows(provisions)
    {
      entries := [];
      for i := 0 to |provisions|
        invariant entries == McpRows(provisions[..i])
      {
        var p := provisions[i];
        entries := entries + [(RowKey("", "mcp", p.name), Row("legacy", p.provisionedAt, Some(p.config)))];
        assert provisions[..i + 1][..i] == provisions[..i];
      }
      assert provisions[..|provisions|] == provisions;
    }

    /** Renames the trees one by one; each target is free when its turn comes. */
    method MoveTrees(moves: seq<Place>)
      requires Distinct(moves) && forall p :: p in moves ==> Movable(View(), p)
      modifies this`legacy, this`global
      ensures View() == Relocated(old(View()), moves)
    {
      hide Relocated, Apply, Distinct, Movable;
      ghost var d := View();
      NothingRelocated(d);
      for i := 0 to |moves|
        invariant View() == Relocated(d, moves[..i])
      {
        NextMove(d, moves, i);
        assert moves[i] !in global;
        RenameSync(moves[i]);
      }
      assert moves[..|moves|] == moves;
    }

    method Close()
      modifies this`dirs, this`marked
      ensures View() == Run(old(View()), Closing())
    {
      ghost var d := View();
      for i := 0 to |KINDS|
        invariant View() == Run(d, Closing()[..i])
      {
        RmdirSync(KINDS[i]);
        assert Closing()[..i + 1][..i] == Closing()[..i];
      }
      marked := true;
      assert Closing()[..|Closing()| - 1] == Closing()[..3];
    }

    method MigrateLegacyGlobalAssets(b: Boot, provisions: seq<Provision>)
      returns (rowCount: nat, movedTrees: nat, alreadyDone: bool)
      requires View().Valid() && Lists(View(), b.listing)
      modifies this
      ensures View() == Run(old(View()), Steps(old(View()), b, provisions))
      ensures alreadyDone == old(marked)
      ensures !alreadyDone ==> rowCount == |Rows(old(View()), b, provisions)| && movedTrees == |Moves(old(View()), b)|
      ensures alreadyDone ==> rowCount == 0 && movedTrees == 0
    {
      if marked {
        return 0, 0, true;
      }
      ghost var d := View();
      var skillRows, moves := Scan(b);
      var mcpRows := ReadProvisions(provisions);
      var rows := skillRows + mcpRows;
      MovesAreMovable(d, b);
      WholeBoot(d, b, provisions);
      hide Run, Steps, Relocated, Closing, Lists, SkillRows, McpRows, Moves;
      if |rows| > 0 {
        PutLegacyAssets(rows);
      }
      assert View() == Stored(d, b, provisions);
      MoveTrees(moves);
      Close();
      return |rows|, |moves|, false;
    }
  }

  lemma ScanNone(d: Disk, at: string)
    ensures MoveList(d, []) == [] && SkillRows(d, [], at) == []
  {
  }

  lemma ScanNext(d: Disk, done: seq<Place>, p: Place, at: string)
    ensures MoveList(d, done + [p]) == MoveList(d, done) + if Movable(d, p) then [p] else []
    ensures SkillRows(d, done + [p], at)
      == SkillRows(d, done, at)
         + if IsTree(d, p) && p.kind == Skill then [(SkillKey(p.name), Row("legacy", at, None))] else []
  {
    assert (done + [p])[..|done|] == done;
  }

  lemma NamedNext(k: Kind, names: seq<string>, j: nat)
    requires j < |names|
    ensures Named(k, names[..j + 1]) == Named(k, names[..j]) + [Place(k, names[j])]
  {
    assert names[..j + 1][..j] == names[..j];
  }

  /** When its turn comes, a tree is still at its place and its target is still free. */
  lemma NextMove(d: Disk, moves: seq<Place>, i: nat)
    requires Distinct(moves) && (forall p :: p in moves ==> Movable(d, p)) && i < |moves|
    ensures moves[i] in Relocated(d, moves[..i]).legacy && moves[i] !in Relocated(d, moves[..i]).global
    ensures Apply(Relocated(d, moves[..i]), Move(moves[i])) == Relocated(d, moves[..i + 1])
  {
    var front, p := moves[..i], moves[i];
    assert p in moves && p !in front && moves[..i + 1] == front + [p];
    assert forall q :: q in front ==> q in moves;
    hide Relocated, Apply;
    RelocatedView(d, front);
    RelocatedNext(d, front, p);
  }

  lemma NothingRelocated(d: Disk)
    ensures Relocated(d, []) == d
  {
    assert Relocated(d, []).legacy == d.legacy && Relocated(d, []).global == d.global;
  }

  lemma WholeBoot(d: Disk, b: Boot, provisions: seq<Provision>)
    requires d.Valid() && Lists(d, b.listing) && !d.marked
    ensures Run(d, Steps(d, b, provisions)) == Run(Relocated(Stored(d, b, provisions), Moves(d, b)), Closing())
  {
    hide Run, Moves, Rows, Relocated, Closing, Lists;
    StoppedAt(d, b, provisions, 1 + |Moves(d, b)| + 4);
    assert Steps(d, b, provisions)[..1 + |Moves(d, b)| + 4] == Steps(d, b, provisions);
    assert Moves(d, b)[..|Moves(d, b)|] == Moves(d, b) && Closing()[..4] == Closing();
  }
}
