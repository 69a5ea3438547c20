/** The content-addressed blob store as a state machine: each step is one synchronous block of
    `CasStore`, so a run of steps is an interleaving of uploads, streams, checks and prunes. */
module CasState {
  import opened MapSums

  datatype Option<+T> = None | Some(value: T)

  newtype byte = x: int | 0 <= x < 256
  type Bytes = seq<byte>

  /** A SHA-256 digest as a number: 64 lower-case hex digits sort the same way. */
  type Sha = nat

  type Key = (string, Sha)

  datatype Ref = Ref(size: nat, lastUsed: int)

  /** One `putBlobStream` in flight; `allowance` is what its starting usage left (none: unlimited). */
  datatype Stream = Stream(ns: string, declared: Sha, maxBytes: nat, allowance: Option<int>, body: Bytes)

  datatype Store = Store(refs: map<Key, Ref>, blobs: map<Sha, Bytes>, streams: map<nat, Stream>)

  datatype Error =
    | HashMismatch | DiskLow | QuotaExceeded | BlobTooLarge | ShaMismatch

  // ----- usage and quota -----

  ghost function SizeIn(ns: string): (Key, Ref) -> int {
    (k: Key, r: Ref) => if k.0 == ns then r.size else 0
  }

  /** A namespace's logical usage: the sizes of every blob it holds a ref to. */
  ghost function Usage(refs: map<Key, Ref>, ns: string): int {
    Sum(refs, SizeIn(ns))
  }

  /** `_checkQuota`: a held sha is free, no limit admits everything. */
  ghost predicate QuotaRefuses(refs: map<Key, Ref>, ns: string, sha: Sha, requested: nat, limit: Option<int>) {
    (ns, sha) !in refs && limit.Some? && Usage(refs, ns) + requested > limit.value
  }

  /** `_recordRef`: an upsert that leaves the size of a held ref alone. */
  function RecordRef(refs: map<Key, Ref>, ns: string, sha: Sha, size: nat, now: int): map<Key, Ref> {
    var k := (ns, sha);
    refs[k := if k in refs then refs[k].(lastUsed := now) else Ref(size, now)]
  }

  // ----- steps -----

  ghost function PutResult(hash: Bytes -> Sha, s: Store, ns: string, declared: Option<Sha>, bytes: Bytes,
                           limit: Option<int>, diskOk: bool): Option<Error> {
    if declared.Some? && declared.value != hash(bytes) then Some(HashMismatch)
    else if !diskOk then Some(DiskLow)
    else if QuotaRefuses(s.refs, ns, hash(bytes), |bytes|, limit) then Some(QuotaExceeded)
    else None
  }

  function Stored(hash: Bytes -> Sha, s: Store, ns: string, bytes: Bytes, now: int): Store {
    s.(blobs := if hash(bytes) in s.blobs then s.blobs else s.blobs[hash(bytes) := bytes],
       refs := RecordRef(s.refs, ns, hash(bytes), |bytes|, now))
  }

  /** The quota a new stream may consume; a body for a held sha is unlimited. */
  ghost function AllowanceFor(refs: map<Key, Ref>, ns: string, sha: Sha, limit: Option<int>): Option<int> {
    if (ns, sha) in refs || limit.None? then None else Some(limit.value - Usage(refs, ns))
  }

  ghost function ChunkResult(st: Stream, chunk: Bytes): Option<Error> {
    if |st.body + chunk| > st.maxBytes then Some(BlobTooLarge)
    else if st.allowance.Some? && |st.body + chunk| > st.allowance.value then Some(QuotaExceeded)
    else None
  }

  ghost function FinishResult(hash: Bytes -> Sha, s: Store, st: Stream, limit: Option<int>): Option<Error> {
    if hash(st.body) != st.declared then Some(ShaMismatch)
    else if QuotaRefuses(s.refs, st.ns, hash(st.body), |st.body|, limit) then Some(QuotaExceeded)
    else None
  }

  /** The commit of a stream: rename over whatever is there, then record the ref. */
  function Committed(hash: Bytes -> Sha, s: Store, st: Stream, now: int): Store {
    s.(blobs := s.blobs[hash(st.body) := st.body],
       refs := RecordRef(s.refs, st.ns, hash(st.body), |st.body|, now))
  }

  function Touch(refs: map<Key, Ref>, ns: string, shas: seq<Sha>, now: int): map<Key, Ref> {
    map k | k in refs :: if k.0 == ns && k.1 in shas then refs[k].(lastUsed := now) else refs[k]
  }

  const CHUNK: nat := 800

  /** `missing` works through its list in chunks, reading the clock once for each. */
  function TouchAll(refs: map<Key, Ref>, ns: string, shas: seq<Sha>, clock: nat -> int, batch: nat): map<Key, Ref>
    decreases |shas|
  {
    if shas == [] then refs
    else
      var n := if |shas| < CHUNK then |shas| else CHUNK;
      TouchAll(Touch(refs, ns, shas[..n], clock(batch)), ns, shas[n..], clock, batch + 1)
  }

  /** The refs `prune` selects. */
  predicate Victim(refs: map<Key, Ref>, ns: string, protect: set<Sha>, since: int, k: Key) {
    k in refs && k.0 == ns && refs[k].lastUsed < since && k.1 !in protect
  }

  function Victims(refs: map<Key, Ref>, ns: string, protect: set<Sha>, since: int): set<Key> {
    set k | k in refs && Victim(refs, ns, protect, since, k)
  }

  ghost predicate Referenced(refs: map<Key, Ref>, sha: Sha) {
    exists ns :: (ns, sha) in refs
  }

  /** The files that go with them: no ref left in any namespace and not in `keepFiles`. */
  ghost function DeadFiles(refs: map<Key, Ref>, ns: string, protect: set<Sha>, since: int,
        keepFiles: set<Sha>): set<Sha>
  {
    var gone := Victims(refs, ns, protect, since);
    set k | k in gone && k.1 !in keepFiles && !Referenced(refs - gone, k.1) :: k.1
  }

  ghost function Pruned(s: Store, ns: string, protect: set<Sha>, since: int, keepFiles: set<Sha>): Store {
    s.(refs := s.refs - Victims(s.refs, ns, protect, since),
       blobs := s.blobs - DeadFiles(s.refs, ns, protect, since, keepFiles))
  }

  datatype Action =
    | Put(ns: string, declared: Option<Sha>, bytes: Bytes)
    | Start(id: nat, ns: string, sha: Sha, maxBytes: nat)
    | Chunk(id: nat, chunk: Bytes)
    | Abort(id: nat)
    | Finish(id: nat)
    | Missing(ns: string, shas: seq<Sha>, clock: nat -> int)
    | Prune(ns: string, protect: set<Sha>, since: int, dryRun: bool, keepFiles: set<Sha>)

  /** A step happens at a time, under the limits in force and with room on the disk or without. */
  datatype Moment = Moment(action: Action, now: int, limit: string -> Option<int>, diskOk: bool)

  ghost function Step(hash: Bytes -> Sha, s: Store, m: Moment): Store {
    match m.action
    case Put(ns, declared, bytes) =>
      if PutResult(hash, s, ns, declared, bytes, m.limit(ns), m.diskOk) == None then
        Stored(hash, s, ns, bytes, m.now)
      else s
    case Start(id, ns, sha, maxBytes) =>
      if id in s.streams || !m.diskOk then s
      else s.(streams := s.streams[id := Stream(ns, sha, maxBytes, AllowanceFor(s.refs, ns, sha, m.limit(ns)), [])])
    case Chunk(id, chunk) =>
      if id !in s.streams then s
      else if ChunkResult(s.streams[id], chunk) == None then
        s.(streams := s.streams[id := s.streams[id].(body := s.streams[id].body + chunk)])
      else s.(streams := s.streams - {id})
    case Abort(id) => s.(streams := s.streams - {id})
    case Finish(id) =>
      if id !in s.streams then s
      else
        var st, t := s.streams[id], s.(streams := s.streams - {id});
        if FinishResult(hash, s, st, m.limit(st.ns)) == None then Committed(hash, t, st, m.now) else t
    case Missing(ns, shas, clock) => s.(refs := TouchAll(s.refs, ns, shas, clock, 0))
    case Prune(ns, protect, since, dryRun, keepFiles) =>
      if dryRun then s else Pruned(s, ns, protect, since, keepFiles)
  }

  ghost function Run(hash: Bytes -> Sha, s: Store, run: seq<Moment>): Store
    decreases |run|
  {
    if run == [] then s else Run(hash, Step(hash, s, run[0]), run[1..])
  }

  // ----- the store's invariant -----

  ghost predicate CollisionFree(hash: Bytes -> Sha) {
    forall a, b :: hash(a) == hash(b) ==> a == b
  }

  /** Every file hashes to its own key, and every ref has its file and that file's size. */
  ghost predicate Valid(hash: Bytes -> Sha, s: Store) {
    && (forall sha :: sha in s.blobs ==> hash(s.blobs[sha]) == sha)
    && (forall k :: k in s.refs ==> k.1 in s.blobs && s.refs[k].size == |s.blobs[k.1]|)
  }

  /** `missing` moves only last-use times. */
  lemma {:induction false} TouchAllKeeps(refs: map<Key, Ref>, ns: string, shas: seq<Sha>, clock: nat -> int, batch: nat)
    ensures var t := TouchAll(refs, ns, shas, clock, batch);
            && t.Keys == refs.Keys
            && (forall k :: k in refs ==> t[k].size == refs[k].size)
            && (forall k :: k in refs && !(k.0 == ns && k.1 in shas) ==> t[k] == refs[k])
            && (forall k :: k in refs && k.0 == ns && k.1 in shas ==>
                exists b :: b >= batch && t[k].lastUsed == clock(b))
    decreases |shas|
  {
    if shas != [] {
      var n := if |shas| < CHUNK then |shas| else CHUNK;
      var u := Touch(refs, ns, shas[..n], clock(batch));
      TouchAllKeeps(u, ns, shas[n..], clock, batch + 1);
      assert shas == shas[..n] + shas[n..];
    }
  }

  lemma PruneValid(hash: Bytes -> Sha, s: Store, ns: string, protect: set<Sha>, since: int, keepFiles: set<Sha>)
    requires Valid(hash, s)
    ensures Valid(hash, Pruned(s, ns, protect, since, keepFiles))
  {
    var t := Pruned(s, ns, protect, since, keepFiles);
    forall k | k in t.refs
      ensures k.1 in t.blobs
    {
      assert (k.0, k.1) in t.refs;
      assert Referenced(t.refs, k.1);
    }
  }

  /** Every ref and every file of `s` is in `t`, the file with its bytes. */
  ghost predicate Grows(s: Store, t: Store) {
    && (forall k :: k in s.refs ==> k in t.refs)
    && (forall sha :: sha in s.blobs ==> sha in t.blobs && t.blobs[sha] == s.blobs[sha])
  }

  lemma BlobAdded(hash: Bytes -> Sha, s: Store, t: Store, ns: string, bytes: Bytes, now: int)
    requires CollisionFree(hash) && Valid(hash, s)
    requires t.refs == RecordRef(s.refs, ns, hash(bytes), |bytes|, now) && t.blobs == s.blobs[hash(bytes) := bytes]
    ensures Valid(hash, t) && Grows(s, t)
  {
    assert hash(bytes) in s.blobs ==> s.blobs[hash(bytes)] == bytes;
  }

  lemma StoredAdds(hash: Bytes -> Sha, s: Store, ns: string, bytes: Bytes, now: int)
    requires CollisionFree(hash) && Valid(hash, s)
    ensures Valid(hash, Stored(hash, s, ns, bytes, now)) && Grows(s, Stored(hash, s, ns, bytes, now))
  {
    assert hash(bytes) in s.blobs ==> s.blobs == s.blobs[hash(bytes) := bytes];
    hide Valid, CollisionFree, Grows, RecordRef;
    BlobAdded(hash, s, Stored(hash, s, ns, bytes, now), ns, bytes, now);
  }

  lemma CommittedAdds(hash: Bytes -> Sha, s: Store, st: Stream, now: int)
    requires CollisionFree(hash) && Valid(hash, s)
    ensures Valid(hash, Committed(hash, s, st, now)) && Grows(s, Committed(hash, s, st, now))
  {
    hide Valid, CollisionFree, Grows, RecordRef;
    BlobAdded(hash, s, Committed(hash, s, st, now), st.ns, st.body, now);
  }

  /** Streams in flight have neither refs nor files. */
  lemma StreamsApart(hash: Bytes -> Sha, s: Store, t: Store)
    requires t.refs == s.refs && t.blobs == s.blobs
    ensures Valid(hash, s) ==> Valid(hash, t)
    ensures Grows(s, t)
  {
  }

  lemma StepValid(hash: Bytes -> Sha, s: Store, m: Moment)
    requires CollisionFree(hash) && Valid(hash, s)
    ensures Valid(hash, Step(hash, s, m))
    ensures !m.action.Prune? ==> Grows(s, Step(hash, s, m))
  {
    hide TouchAll, Pruned, QuotaRefuses, AllowanceFor, ChunkResult, Stored, Committed, Valid, CollisionFree, Grows;
    match m.action
    case Put(ns, _, bytes) =>
      StoredAdds(hash, s, ns, bytes, m.now);
      StreamsApart(hash, s, s);
    case Finish(id) =>
      StreamsApart(hash, s, s);
      if id in s.streams {
        var t := s.(streams := s.streams - {id});
        StreamsApart(hash, s, t);
        CommittedAdds(hash, t, s.streams[id], m.now);
        GrowsOn(s, t, Committed(hash, t, s.streams[id], m.now));
      }
    case Missing(ns, shas, clock) => MissingValid(hash, s, ns, shas, clock);
    case Prune(ns, protect, since, dryRun, keepFiles) => PruneValid(hash, s, ns, protect, since, keepFiles);
    case _ => StreamsApart(hash, s, Step(hash, s, m));
  }

  lemma GrowsOn(s: Store, t: Store, u: Store)
    requires Grows(s, t) && Grows(t, u)
    ensures Grows(s, u)
  {
  }

  lemma MissingValid(hash: Bytes -> Sha, s: Store, ns: string, shas: seq<Sha>, clock: nat -> int)
    requires Valid(hash, s)
    ensures var t := s.(refs := TouchAll(s.refs, ns, shas, clock, 0));
            Valid(hash, t) && Grows(s, t)
  {
    TouchAllKeeps(s.refs, ns, shas, clock, 0);
    hide TouchAll;
  }

  /** Stored files are immutable: a sha that stays readable keeps its bytes. */
  lemma StepImmutable(hash: Bytes -> Sha, s: Store, m: Moment, sha: Sha)
    requires CollisionFree(hash) && Valid(hash, s)
    requires sha in s.blobs && sha in Step(hash, s, m).blobs
    ensures Step(hash, s, m).blobs[sha] == s.blobs[sha]
  {
    StepValid(hash, s, m);
  }

  lemma {:induction false} RunValid(hash: Bytes -> Sha, s: Store, run: seq<Moment>)
    requires CollisionFree(hash) && Valid(hash, s)
    ensures Valid(hash, Run(hash, s, run))
    decreases |run|
  {
    if run != [] {
      StepValid(hash, s, run[0]);
      RunValid(hash, Step(hash, s, run[0]), run[1..]);
    }
  }

  /** A body in flight is inside its declared maximum and, once it has any byte, inside its allowance. */
  ghost predicate Bounded(s: Store) {
    forall id :: id in s.streams ==>
      var st := s.streams[id];
      |st.body| <= st.maxBytes && (st.body != [] && st.allowance.Some? ==> |st.body| <= st.allowance.value)
  }

  lemma StepBounded(hash: Bytes -> Sha, s: Store, m: Moment)
    requires Bounded(s)
    ensures Bounded(Step(hash, s, m))
  {
    hide TouchAll, RecordRef, Victims, DeadFiles, QuotaRefuses;
  }

  // ----- quota -----

  lemma RecordUsage(refs: map<Key, Ref>, ns: string, sha: Sha, size: nat, now: int, other: string)
    ensures Usage(RecordRef(refs, ns, sha, size, now), other) ==
            Usage(refs, other) + (if other == ns && (ns, sha) !in refs then size else 0)
  {
    var k := (ns, sha);
    SumPut(refs, SizeIn(other), k, RecordRef(refs, ns, sha, size, now)[k]);
  }

  /** Removing refs frees exactly their sizes, and only in their own namespaces. */
  lemma {:induction false} RemoveUsage(refs: map<Key, Ref>, gone: set<Key>, ns: string)
    requires gone <= refs.Keys
    ensures Usage(refs - gone, ns) == Usage(refs, ns) - Usage(map k | k in gone :: refs[k], ns)
    decreases |gone|
  {
    if gone == {} {
      assert refs - gone == refs;
      assert (map k | k in gone :: refs[k]) == map[];
    } else {
      var k :| k in gone;
      var rest := gone - {k};
      RemoveUsage(refs, rest, ns);
      SumTake(refs - rest, SizeIn(ns), k);
      assert refs - rest - {k} == refs - gone;
      SumTake(map x | x in gone :: refs[x], SizeIn(ns), k);
      assert (map x | x in gone :: refs[x]) - {k} == map x | x in rest :: refs[x];
    }
  }

  lemma {:induction false} UsageNonNegative(refs: map<Key, Ref>, ns: string)
    ensures Usage(refs, ns) >= 0
    decreases |refs|
  {
    if refs != map[] {
      var k :| k in refs;
      SumTake(refs, SizeIn(ns), k);
      var r: Ref := refs[k];
      assert SizeIn(ns)(k, r) == if k.0 == ns then r.size else 0;
      UsageNonNegative(refs - {k}, ns);
    }
  }

  lemma MissingUsage(refs: map<Key, Ref>, ns': string, shas: seq<Sha>, clock: nat -> int, ns: string)
    ensures Usage(TouchAll(refs, ns', shas, clock, 0), ns) == Usage(refs, ns)
  {
    TouchAllKeeps(refs, ns', shas, clock, 0);
    SumSame(refs, TouchAll(refs, ns', shas, clock, 0), SizeIn(ns));
  }

  lemma PruneUsage(refs: map<Key, Ref>, ns': string, protect: set<Sha>, since: int, ns: string)
    ensures Usage(refs - Victims(refs, ns', protect, since), ns) <= Usage(refs, ns)
  {
    var gone := Victims(refs, ns', protect, since);
    RemoveUsage(refs, gone, ns);
    UsageNonNegative(map k | k in gone :: refs[k], ns);
  }

  /** No step raises a namespace's usage above the limit in force at that step: not when several streams
      started from the same usage, not when a ref held at the start was pruned meanwhile. */
  lemma StepWithinQuota(hash: Bytes -> Sha, s: Store, m: Moment, ns: string)
    requires Usage(Step(hash, s, m).refs, ns) > Usage(s.refs, ns)
    ensures m.limit(ns).None? || Usage(Step(hash, s, m).refs, ns) <= m.limit(ns).value
  {
    hide Usage, RecordRef, Victims, DeadFiles, TouchAll;
    match m.action
    case Put(ns', declared, bytes) =>
      RecordUsage(s.refs, ns', hash(bytes), |bytes|, m.now, ns);
    case Finish(id) =>
      if id in s.streams {
        var st := s.streams[id];
        RecordUsage(s.refs, st.ns, hash(st.body), |st.body|, m.now, ns);
      }
    case Missing(ns', shas, clock) =>
      MissingUsage(s.refs, ns', shas, clock, ns);
    case Prune(ns', protect, since, dryRun, keepFiles) =>
      PruneUsage(s.refs, ns', protect, since, ns);
    case _ =>
  }

  // ----- what an upload leaves -----

  /** The namespace holds these bytes, used just now; every other ref is as it was, and no file changed but theirs. */
  ghost predicate Holds(hash: Bytes -> Sha, s: Store, t: Store, ns: string, bytes: Bytes, now: int) {
    var k := (ns, hash(bytes));
    && t.refs.Keys == s.refs.Keys + {k} && t.refs[k] == Ref(|bytes|, now)
    && (forall j :: j in s.refs && j != k ==> t.refs[j] == s.refs[j])
    && t.blobs.Keys == s.blobs.Keys + {hash(bytes)} && t.blobs[hash(bytes)] == bytes
    && (forall sha :: sha in s.blobs ==> t.blobs[sha] == s.blobs[sha])
  }

  lemma RecordedHolds(hash: Bytes -> Sha, s: Store, t: Store, ns: string, bytes: Bytes, now: int)
    requires CollisionFree(hash) && Valid(hash, s)
    requires t.refs == RecordRef(s.refs, ns, hash(bytes), |bytes|, now) && t.blobs == s.blobs[hash(bytes) := bytes]
    ensures Holds(hash, s, t, ns, bytes, now)
  {
    assert hash(bytes) in s.blobs ==> s.blobs[hash(bytes)] == bytes;
  }

  /** A whole upload is accepted exactly when its digest agrees, the disk has room, and the namespace either holds
      the bytes already or stays within its limit. Then it holds them; otherwise nothing changes. */
  lemma PutHolds(hash: Bytes -> Sha, s: Store, m: Moment, ns: string, declared: Option<Sha>, bytes: Bytes)
    requires CollisionFree(hash) && Valid(hash, s) && m.action == Put(ns, declared, bytes)
    ensures var t, limit := Step(hash, s, m), m.limit(ns);
      if (declared == None || declared == Some(hash(bytes))) && m.diskOk
         && ((ns, hash(bytes)) in s.refs || limit == None || Usage(s.refs, ns) + |bytes| <= limit.value)
      then PutResult(hash, s, ns, declared, bytes, limit, m.diskOk) == None && Holds(hash, s, t, ns, bytes, m.now)
           && t.streams == s.streams
      else PutResult(hash, s, ns, declared, bytes, limit, m.diskOk).Some? && t == s
  {
    hide Usage, RecordRef, Valid, CollisionFree, Holds;
    var t := Stored(hash, s, ns, bytes, m.now);
    HeldBytes(hash, s, bytes);
    RecordedHolds(hash, s, t, ns, bytes, m.now);
  }

  lemma HeldBytes(hash: Bytes -> Sha, s: Store, bytes: Bytes)
    requires CollisionFree(hash) && Valid(hash, s)
    ensures hash(bytes) in s.blobs ==> s.blobs == s.blobs[hash(bytes) := bytes]
  {
    assert hash(bytes) in s.blobs ==> s.blobs[hash(bytes)] == bytes;
  }

  /** A stream that ends is accepted exactly when its digest is the one declared and the namespace either holds the
      bytes by now or stays within its limit. Then it holds them; otherwise no ref and no file changes. */
  lemma FinishHolds(hash: Bytes -> Sha, s: Store, m: Moment, id: nat)
    requires CollisionFree(hash) && Valid(hash, s) && m.action == Finish(id) && id in s.streams
    ensures var t, st := Step(hash, s, m), s.streams[id];
      var limit := m.limit(st.ns);
      && t.streams == s.streams - {id}
      && if hash(st.body) == st.declared
            && ((st.ns, st.declared) in s.refs || limit == None || Usage(s.refs, st.ns) + |st.body| <= limit.value)
         then FinishResult(hash, s, st, limit) == None && Holds(hash, s, t, st.ns, st.body, m.now)
         else FinishResult(hash, s, st, limit).Some? && t.refs == s.refs && t.blobs == s.blobs
  {
    hide Usage, RecordRef, Valid, CollisionFree, Holds;
    RecordedHolds(hash, s, Committed(hash, s, s.streams[id], m.now), s.streams[id].ns, s.streams[id].body, m.now);
    AnyStreams(hash, s, s.(streams := s.streams - {id}), m, id);
  }

  /** What is held does not depend on the streams in flight. */
  lemma AnyStreams(hash: Bytes -> Sha, s: Store, u: Store, m: Moment, id: nat)
    requires id in s.streams && u == s.(streams := u.streams)
    ensures Committed(hash, u, s.streams[id], m.now) == Committed(hash, s, s.streams[id], m.now).(streams := u.streams)
    ensures forall t, ns, bytes, now, streams ::
      Holds(hash, s, t, ns, bytes, now) ==> Holds(hash, s, t.(streams := streams), ns, bytes, now)
  {
  }

  /** What was just uploaded is not selected by a prune that spares what is used from now on. */
  lemma FreshIsKept(hash: Bytes -> Sha, s: Store, t: Store, ns: string, bytes: Bytes, now: int, m: Moment)
    requires Holds(hash, s, t, ns, bytes, now) && m.action.Prune? && (m.action.ns == ns ==> m.action.since <= now)
    ensures (ns, hash(bytes)) in Step(hash, t, m).refs
  {
  }

  // ----- streams -----

  /** A new stream starts empty, with what its namespace's limit leaves unless the blob is held or unlimited. */
  lemma StartExact(hash: Bytes -> Sha, s: Store, m: Moment, id: nat, ns: string, sha: Sha, maxBytes: nat)
    requires m.action == Start(id, ns, sha, maxBytes) && id !in s.streams
    ensures var t := Step(hash, s, m);
      && t.refs == s.refs && t.blobs == s.blobs
      && if !m.diskOk then t.streams == s.streams
         else
           && t.streams.Keys == s.streams.Keys + {id} && (forall j :: j in s.streams ==> t.streams[j] == s.streams[j])
           && var left := if (ns, sha) in s.refs || m.limit(ns) == None then None
                          else Some(m.limit(ns).value - Usage(s.refs, ns));
              t.streams[id] == Stream(ns, sha, maxBytes, left, [])
  {
    hide Usage;
  }

  /** A chunk is appended while the body stays inside its maximum and its allowance; one byte too many ends it. */
  lemma ChunkExact(hash: Bytes -> Sha, s: Store, m: Moment, id: nat, chunk: Bytes)
    requires m.action == Chunk(id, chunk) && id in s.streams
    ensures var t, st := Step(hash, s, m), s.streams[id];
      var body := st.body + chunk;
      && t.refs == s.refs && t.blobs == s.blobs
      && if |body| <= st.maxBytes && (st.allowance == None || |body| <= st.allowance.value)
         then ChunkResult(st, chunk) == None && t.streams == s.streams[id := st.(body := body)]
         else ChunkResult(st, chunk) == Some(if |body| > st.maxBytes then BlobTooLarge else QuotaExceeded)
              && t.streams == s.streams - {id}
  {
  }

  /** The bytes a run brings for a stream, in their order. */
  function ChunksFor(run: seq<Moment>, id: nat): Bytes {
    if run == [] then []
    else
      (match run[0].action case Chunk(i, chunk) => if i == id then chunk else [] case _ => []) + ChunksFor(run[1..], id)
  }

  ghost predicate Restarts(run: seq<Moment>, id: nat) {
    exists m :: m in run && m.action.Start? && m.action.id == id
  }

  /** Only starts and chunks write a stream. */
  lemma OtherSteps(hash: Bytes -> Sha, s: Store, m: Moment, id: nat)
    requires !m.action.Start? && !m.action.Chunk? && id in Step(hash, s, m).streams
    ensures id in s.streams && Step(hash, s, m).streams[id] == s.streams[id]
  {
    hide TouchAll, RecordRef, Victims, DeadFiles, PutResult, FinishResult;
  }

  lemma StreamStep(hash: Bytes -> Sha, s: Store, m: Moment, id: nat)
    requires !(m.action.Start? && m.action.id == id) && id in Step(hash, s, m).streams
    ensures id in s.streams
    ensures Step(hash, s, m).streams[id] == s.streams[id].(body := s.streams[id].body + ChunksFor([m], id))
  {
    OneMoment(m, id);
    match m.action
    case Chunk(i, chunk) =>
      if i in s.streams {
        ChunkExact(hash, s, m, i, chunk);
        hide Step;
      }
    case Start(i, ns, sha, maxBytes) =>
      if i !in s.streams {
        StartExact(hash, s, m, i, ns, sha, maxBytes);
        hide Step;
      }
    case _ =>
      OtherSteps(hash, s, m, id);
      hide Step;
  }

  lemma OneMoment(m: Moment, id: nat)
    ensures ChunksFor([m], id) == if m.action.Chunk? && m.action.id == id then m.action.chunk else []
    ensures forall body: Bytes :: body + [] == body
  {
    assert [m][1..] == [] && ChunksFor([], id) == [];
  }

  lemma {:induction false} GoneStaysGone(hash: Bytes -> Sha, s: Store, run: seq<Moment>, id: nat)
    requires id !in s.streams && !Restarts(run, id)
    ensures id !in Run(hash, s, run).streams
    decreases |run|
  {
    hide Step;
    if run != [] {
      assert run[0] in run && forall m :: m in run[1..] ==> m in run;
      if id in Step(hash, s, run[0]).streams {
        StreamStep(hash, s, run[0], id);
      }
      GoneStaysGone(hash, Step(hash, s, run[0]), run[1..], id);
    }
  }

  /** A stream still in flight after a run has the bytes it had and those the run brought, whatever else happened;
      what it was started with does not change. */
  lemma {:induction false} BodyIsChunks(hash: Bytes -> Sha, s: Store, run: seq<Moment>, id: nat)
    requires id in Run(hash, s, run).streams && !Restarts(run, id)
    ensures id in s.streams
    ensures Run(hash, s, run).streams[id] == s.streams[id].(body := s.streams[id].body + ChunksFor(run, id))
    decreases |run|
  {
    hide Step;
    if run != [] {
      assert run[0] in run && forall m :: m in run[1..] ==> m in run;
      var t := Step(hash, s, run[0]);
      BodyIsChunks(hash, t, run[1..], id);
      StreamStep(hash, s, run[0], id);
      OneChunk(run, id);
      assert s.streams[id].body + ChunksFor([run[0]], id) + ChunksFor(run[1..], id)
        == s.streams[id].body + (ChunksFor([run[0]], id) + ChunksFor(run[1..], id));
    } else {
      assert s.streams[id].body + [] == s.streams[id].body;
    }
  }

  lemma OneChunk(run: seq<Moment>, id: nat)
    requires run != []
    ensures ChunksFor(run, id) == ChunksFor([run[0]], id) + ChunksFor(run[1..], id)
  {
    assert [run[0]][1..] == [] && ChunksFor([], id) == [];
  }

  // ----- pruning -----

  /** Prune removes exactly the unprotected, stale refs of its namespace, lowers that namespace's usage by
      exactly their sizes, and leaves every other namespace's refs and usage as they were. A dry run changes
      nothing. */
  lemma PruneExact(hash: Bytes -> Sha, s: Store, m: Moment, ns: string, protect: set<Sha>, since: int,
        dryRun: bool, keepFiles: set<Sha>, other: string)
    requires Valid(hash, s) && m.action == Prune(ns, protect, since, dryRun, keepFiles)
    ensures dryRun ==> Step(hash, s, m) == s
    ensures !dryRun ==>
            var t := Step(hash, s, m);
            && (forall k :: k in t.refs <==>
                  k in s.refs && !(k.0 == ns && s.refs[k].lastUsed < since && k.1 !in protect))
            && (forall k :: k in t.refs ==> t.refs[k] == s.refs[k])
            && Usage(t.refs, other) ==
               Usage(s.refs, other) - Usage(map k | k in Victims(s.refs, ns, protect, since) :: s.refs[k], other)
            && (other != ns ==> Usage(t.refs, other) == Usage(s.refs, other))
  {
    var gone := Victims(s.refs, ns, protect, since);
    RemoveUsage(s.refs, gone, other);
    if other != ns {
      var g := map k | k in gone :: s.refs[k];
      NoUsageElsewhere(g, other);
    }
  }

  lemma {:induction false} NoUsageElsewhere(refs: map<Key, Ref>, ns: string)
    requires forall k :: k in refs ==> k.0 != ns
    ensures Usage(refs, ns) == 0
    decreases |refs|
  {
    if refs != map[] {
      var k :| k in refs;
      SumTake(refs, SizeIn(ns), k);
      NoUsageElsewhere(refs - {k}, ns);
    }
  }

  /** A file goes exactly when its last ref went with this prune and nobody asked to keep it. */
  lemma PruneFiles(hash: Bytes -> Sha, s: Store, ns: string, protect: set<Sha>, since: int,
        keepFiles: set<Sha>, sha: Sha)
    requires Valid(hash, s)
    ensures var t := Pruned(s, ns, protect, since, keepFiles);
            && (sha in t.blobs ==> sha in s.blobs && t.blobs[sha] == s.blobs[sha])
            && (sha in s.blobs && sha !in t.blobs <==>
                && (ns, sha) in s.refs && s.refs[(ns, sha)].lastUsed < since && sha !in protect
                && sha !in keepFiles && forall other :: (other, sha) !in t.refs)
  {
    var gone := Victims(s.refs, ns, protect, since);
    assert (ns, sha) in gone <==> Victim(s.refs, ns, protect, since, (ns, sha));
    if sha in DeadFiles(s.refs, ns, protect, since, keepFiles) {
      var k :| k in gone && k.1 == sha;
      assert k == (ns, sha);
    }
  }

  /** No prune in the run may take this ref: those of its own namespace name it as protected. */
  ghost predicate Protected(run: seq<Moment>, ns: string, sha: Sha) {
    forall i :: 0 <= i < |run| && run[i].action.Prune? && run[i].action.ns == ns ==> sha in run[i].action.protect
  }

  lemma StepKeepsProtected(hash: Bytes -> Sha, s: Store, m: Moment, ns: string, sha: Sha)
    requires CollisionFree(hash) && Valid(hash, s) && (ns, sha) in s.refs
    requires m.action.Prune? && m.action.ns == ns ==> sha in m.action.protect
    ensures (ns, sha) in Step(hash, s, m).refs
    ensures sha in Step(hash, s, m).blobs && Step(hash, s, m).blobs[sha] == s.blobs[sha]
  {
    StepValid(hash, s, m);
    assert (ns, sha) in s.refs && sha in s.blobs;
    hide TouchAll, QuotaRefuses, DeadFiles, Valid, CollisionFree;
    if m.action.Prune? {
      PruneFiles(hash, s, m.action.ns, m.action.protect, m.action.since, m.action.keepFiles, sha);
    } else {
      hide Step;
      assert Grows(s, Step(hash, s, m));
    }
  }

  /** Over any run, a blob whose ref every prune of its namespace protects stays readable, unchanged. */
  lemma {:induction false} ProtectedSurvives(hash: Bytes -> Sha, s: Store, run: seq<Moment>, ns: string, sha: Sha)
    requires CollisionFree(hash) && Valid(hash, s) && (ns, sha) in s.refs && Protected(run, ns, sha)
    ensures (ns, sha) in Run(hash, s, run).refs
    ensures sha in Run(hash, s, run).blobs && Run(hash, s, run).blobs[sha] == s.blobs[sha]
    decreases |run|
  {
    if run != [] {
      StepKeepsProtected(hash, s, run[0], ns, sha);
      StepValid(hash, s, run[0]);
      ProtectedSurvives(hash, Step(hash, s, run[0]), run[1..], ns, sha);
    }
  }
}
