/** `CasStore`: the class whose synchronous blocks are the steps of CasState. */
module CasStore {
  import opened MapSums
  import opened CasState

  /** `PruneResult` without the timestamps' formatting; `refs` is in ascending sha order. */
  datatype PruneResult = PruneResult(refs: seq<(Sha, nat, int)>, freedBytes: int, blobFilesDeleted: nat,
        diskBytesFreed: int)

  class CasStore {
    const hash: Bytes -> Sha
    var refs: map<Key, Ref>
    var blobs: map<Sha, Bytes>
    var streams: map<nat, Stream>

    ghost function Now(): Store
      reads this
    {
      Store(refs, blobs, streams)
    }

    constructor (hash: Bytes -> Sha)
      ensures this.hash == hash && Now() == Store(map[], map[], map[]) && Valid(hash, Now())
    {
      this.hash := hash;
      refs, blobs, streams := map[], map[], map[];
    }

    method UsageOf(ns: string) returns (used: int)
      ensures used == Usage(refs, ns)
    {
      used := 0;
      var rest := refs;
      while rest != map[]
        invariant used + Usage(rest, ns) == Usage(refs, ns)
        decreases |rest|
      {
        var k :| k in rest;
        SumTake(rest, SizeIn(ns), k);
        if k.0 == ns {
          used := used + rest[k].size;
        }
        rest := rest - {k};
      }
    }

    method CheckQuota(ns: string, sha: Sha, requested: nat, limit: Option<int>) returns (refused: bool)
      ensures refused <==> QuotaRefuses(refs, ns, sha, requested, limit)
    {
      if (ns, sha) in refs || limit == None {
        return false;
      }
      var used := UsageOf(ns);
      return used + requested > limit.value;
    }

    method PutBlob(ns: string, declared: Option<Sha>, bytes: Bytes, limit: string -> Option<int>, diskOk: bool,
          now: int)
      returns (err: Option<Error>)
      modifies this
      ensures err == PutResult(hash, old(Now()), ns, declared, bytes, limit(ns), diskOk)
      ensures Now() == Step(hash, old(Now()), Moment(Put(ns, declared, bytes), now, limit, diskOk))
    {
      var computed := hash(bytes);
      if declared.Some? && declared.value != computed { return Some(HashMismatch); }
      if !diskOk { return Some(DiskLow); }
      var refused := CheckQuota(ns, computed, |bytes|, limit(ns));
      if refused { return Some(QuotaExceeded); }
      if computed !in blobs {
        blobs := blobs[computed := bytes];
      }
      refs := RecordRef(refs, ns, computed, |bytes|, now);
      return None;
    }

    method StartStream(id: nat, ns: string, sha: Sha, maxBytes: nat, limit: string -> Option<int>,
          diskOk: bool, now: int)
      returns (err: Option<Error>)
      requires id !in streams
      modifies this
      ensures err == if diskOk then None else Some(DiskLow)
      ensures Now() == Step(hash, old(Now()), Moment(Start(id, ns, sha, maxBytes), now, limit, diskOk))
    {
      if !diskOk { return Some(DiskLow); }
      var allowance: Option<int> := None;
      if (ns, sha) !in refs && limit(ns).Some? {
        var used := UsageOf(ns);
        allowance := Some(limit(ns).value - used);
      }
      streams := streams[id := Stream(ns, sha, maxBytes, allowance, [])];
      return None;
    }

    method ChunkArrives(id: nat, chunk: Bytes, ghost limit: string -> Option<int>, ghost diskOk: bool, ghost now: int)
      returns (err: Option<Error>)
      requires id in streams
      modifies this
      ensures err == ChunkResult(old(streams)[id], chunk)
      ensures Now() == Step(hash, old(Now()), Moment(Chunk(id, chunk), now, limit, diskOk))
    {
      var st := streams[id];
      var bytes := |st.body| + |chunk|;
      if bytes > st.maxBytes {
        streams := streams - {id};
        return Some(BlobTooLarge);
      }
      if st.allowance.Some? && bytes > st.allowance.value {
        streams := streams - {id};
        return Some(QuotaExceeded);
      }
      streams := streams[id := st.(body := st.body + chunk)];
      return None;
    }

    method FinishStream(id: nat, limit: string -> Option<int>, ghost diskOk: bool,
          now: int) returns (err: Option<Error>)
      requires id in streams
      modifies this
      ensures err == FinishResult(hash, old(Now()), old(streams)[id], limit(old(streams)[id].ns))
      ensures Now() == Step(hash, old(Now()), Moment(Finish(id), now, limit, diskOk))
    {
      var st := streams[id];
      streams := streams - {id};
      var computed := hash(st.body);
      if computed != st.declared { return Some(ShaMismatch); }
      var refused := CheckQuota(st.ns, computed, |st.body|, limit(st.ns));
      if refused { return Some(QuotaExceeded); }
      blobs := blobs[computed := st.body];
      refs := RecordRef(refs, st.ns, computed, |st.body|, now);
      return None;
    }

    /** The shas this namespace must still upload; every sha it does hold counts as used. */
    method MissingShas(ns: string, shas: seq<Sha>, clock: nat -> int) returns (missing: seq<Sha>)
      modifies this
      ensures missing == NotHeld(old(refs), ns, shas)
      ensures Now() == old(Now()).(refs := TouchAll(old(refs), ns, shas, clock, 0))
    {
      hide Held, TouchAll;
      var present: set<Sha> := {};
      var i, batch := 0, 0;
      HeldNone(refs, ns, shas);
      while i < |shas|
        invariant i <= |shas|
        invariant present == Held(old(refs), ns, shas[..i])
        invariant refs.Keys == old(refs).Keys && blobs == old(blobs) && streams == old(streams)
        invariant TouchAll(refs, ns, shas[i..], clock, batch) == TouchAll(old(refs), ns, shas, clock, 0)
      {
        var n := if |shas| - i < CHUNK then |shas| - i else CHUNK;
        BatchNext(old(refs), refs, ns, shas, clock, i, n, batch);
        present := present + Held(refs, ns, shas[i..i + n]);
        refs := Touch(refs, ns, shas[i..i + n], clock(batch));
        i, batch := i + n, batch + 1;
      }
      HeldAll(refs, ns, shas, i, clock, batch);
      missing := NotIn(present, shas);
      NotInNotHeld(old(refs), ns, shas, shas);
    }

    /** The namespace's prunable shas, in ascending order. */
    method SelectVictims(ns: string, protect: set<Sha>, since: int) returns (rows: seq<Sha>)
      ensures Ascending(rows)
      ensures forall sha: Sha :: sha in rows <==>
        (ns, sha) in refs && refs[(ns, sha)].lastUsed < since && sha !in protect
    {
      var todo := set k | k in Victims(refs, ns, protect, since) :: k.1;
      ghost var all := todo;
      assert forall sha: Sha :: sha in all <==> Victim(refs, ns, protect, since, (ns, sha)) by {
        forall sha: Sha | Victim(refs, ns, protect, since, (ns, sha))
          ensures sha in all
        {
          assert (ns, sha) in Victims(refs, ns, protect, since);
        }
      }
      rows := [];
      while todo != {}
        invariant Ascending(rows)
        invariant forall sha: Sha :: sha in rows || sha in todo <==> sha in all
        invariant forall r, t :: r in rows && t in todo ==> r < t
        decreases todo
      {
        var least := Least(todo);
        forall i | 0 <= i < |rows|
          ensures rows[i] < least
        {
          assert rows[i] in rows && least in todo;
        }
        assert forall x :: x in rows + [least] <==> x in rows || x == least;
        rows := rows + [least];
        todo := todo - {least};
      }
    }

    /** Unlinks the files among `rows` that no namespace refers to and nobody asked to keep. */
    method DeleteFiles(rows: seq<Sha>, keepFiles: set<Sha>) returns (deleted: nat, disk: int)
      modifies this`blobs
      ensures blobs == old(blobs) - Dead(refs, rows, keepFiles)
      ensures deleted == Unlinked(old(blobs), blobs)
      ensures disk == DiskBytes(old(blobs)) - DiskBytes(blobs)
    {
      hide Dead, Referenced, DiskBytes, StillReferenced, Unlinked;
      deleted, disk := 0, 0;
      DeadNone(blobs, refs, rows, keepFiles);
      for i := 0 to |rows|
        modifies this`blobs
        invariant blobs == old(blobs) - Dead(refs, rows[..i], keepFiles)
        invariant deleted == Unlinked(old(blobs), blobs)
        invariant disk == DiskBytes(old(blobs)) - DiskBytes(blobs)
      {
        DeleteStep(old(blobs), blobs, refs, rows, i, keepFiles);
        if rows[i] in keepFiles || StillReferenced(refs, rows[i]) {
          continue;
        }
        if rows[i] in blobs {
          deleted, disk := deleted + 1, disk + |blobs[rows[i]]|;
          blobs := blobs - {rows[i]};
        }
      }
      assert rows[..|rows|] == rows;
    }

    method Prune(ns: string, protect: set<Sha>, since: int, dryRun: bool, keepFiles: set<Sha>,
                 ghost limit: string -> Option<int>, ghost diskOk: bool, ghost now: int)
      returns (r: PruneResult)
      modifies this
      ensures Now() == Step(hash, old(Now()),
        Moment(Action.Prune(ns, protect, since, dryRun, keepFiles), now, limit, diskOk))
      ensures Reports(old(refs), ns, protect, since, r.refs)
      ensures r.freedBytes == Usage(old(refs), ns) - Usage(old(refs) - Victims(old(refs), ns, protect, since), ns)
      ensures r.blobFilesDeleted == Unlinked(old(blobs), blobs)
      ensures r.diskBytesFreed == DiskBytes(old(blobs)) - DiskBytes(blobs)
    {
      hide Step, Reports, Victims, KeysOf, Usage, DiskBytes, Pruned;
      var rows := SelectVictims(ns, protect, since);
      var was := refs;
      PruneStep(hash, Now(), Moment(Action.Prune(ns, protect, since, dryRun, keepFiles), now, limit, diskOk));
      RowsAreVictims(was, ns, protect, since, rows);
      var report := seq(|rows|, i requires 0 <= i < |rows| && (ns, rows[i]) in was =>
                                  (rows[i], was[(ns, rows[i])].size, was[(ns, rows[i])].lastUsed));
      ReportsAll(was, ns, protect, since, rows, report);
      var freed := SizesOf(ns, rows);
      if dryRun || rows == [] {
        NothingToPrune(Now(), ns, protect, since, rows, keepFiles);
        return PruneResult(report, freed, 0, 0);
      }
      var deleted, disk := Sweep(ns, rows, protect, since, keepFiles);
      return PruneResult(report, freed, deleted, disk);
    }

    /** The transaction that deletes the refs, then the unlinks. */
    method Sweep(ns: string, rows: seq<Sha>, ghost protect: set<Sha>, ghost since: int, keepFiles: set<Sha>)
      returns (deleted: nat, disk: int)
      requires Ascending(rows) && KeysOf(ns, rows) == Victims(refs, ns, protect, since)
      modifies this
      ensures Now() == Pruned(old(Now()), ns, protect, since, keepFiles)
      ensures deleted == Unlinked(old(blobs), blobs)
      ensures disk == DiskBytes(old(blobs)) - DiskBytes(blobs)
    {
      hide Pruned, DiskBytes, Dead, KeysOf, Victims, Unlinked;
      DeadAreDead(Now(), ns, protect, since, rows, keepFiles);
      DeleteRefs(ns, rows);
      deleted, disk := DeleteFiles(rows, keepFiles);
    }

    method SizesOf(ns: string, rows: seq<Sha>) returns (freed: int)
      requires Ascending(rows) && KeysOf(ns, rows) <= refs.Keys
      ensures freed == Usage(refs, ns) - Usage(refs - KeysOf(ns, rows), ns)
    {
      freed := 0;
      assert refs - KeysOf(ns, rows[..0]) == refs;
      for i := 0 to |rows|
        invariant freed + Usage(refs - KeysOf(ns, rows[..i]), ns) == Usage(refs, ns)
      {
        var k := (ns, rows[i]);
        KeysNext(ns, rows, i);
        SumTake(refs - KeysOf(ns, rows[..i]), SizeIn(ns), k);
        assert refs - KeysOf(ns, rows[..i]) - {k} == refs - KeysOf(ns, rows[..i + 1]);
        freed := freed + refs[k].size;
      }
      assert rows[..|rows|] == rows;
    }

    method DeleteRefs(ns: string, rows: seq<Sha>)
      modifies this`refs
      ensures refs == old(refs) - KeysOf(ns, rows)
    {
      for i := 0 to |rows|
        modifies this`refs
        invariant refs == old(refs) - KeysOf(ns, rows[..i])
      {
        assert rows[..i + 1] == rows[..i] + [rows[i]];
        refs := refs - {(ns, rows[i])};
      }
      assert rows[..|rows|] == rows;
    }
  }

  // ----- the vocabulary of missing -----

  function NotIn(present: set<Sha>, shas: seq<Sha>): seq<Sha> {
    if shas == [] then [] else (if shas[0] in present then [] else [shas[0]]) + NotIn(present, shas[1..])
  }

  /** Those of `shas` that the namespace holds no ref to, in their order. */
  function NotHeld(refs: map<Key, Ref>, ns: string, shas: seq<Sha>): seq<Sha> {
    if shas == [] then [] else (if (ns, shas[0]) in refs then [] else [shas[0]]) + NotHeld(refs, ns, shas[1..])
  }

  function Held(refs: map<Key, Ref>, ns: string, shas: seq<Sha>): set<Sha> {
    set sha | sha in shas && (ns, sha) in refs
  }

  /** A blob that is held is not listed; one that is not is, as often as it was asked for and in that order. */
  lemma {:induction false} NotHeldExact(refs: map<Key, Ref>, ns: string, shas: seq<Sha>, sha: Sha)
    ensures sha in NotHeld(refs, ns, shas) <==> sha in shas && (ns, sha) !in refs
    ensures multiset(NotHeld(refs, ns, shas))[sha] == if (ns, sha) in refs then 0 else multiset(shas)[sha]
    ensures (forall x :: x in shas ==> (ns, x) !in refs) ==> NotHeld(refs, ns, shas) == shas
  {
    if shas != [] {
      NotHeldExact(refs, ns, shas[1..], sha);
      assert shas == [shas[0]] + shas[1..];
    }
  }

  lemma {:induction false} NotHeldConcat(refs: map<Key, Ref>, ns: string, some: seq<Sha>, more: seq<Sha>)
    ensures NotHeld(refs, ns, some + more) == NotHeld(refs, ns, some) + NotHeld(refs, ns, more)
  {
    if some == [] {
      assert some + more == more;
    } else {
      assert (some + more)[1..] == some[1..] + more;
      NotHeldConcat(refs, ns, some[1..], more);
    }
  }

  /** What was uploaded is not asked for again. */
  lemma UploadedIsHeld(hash: Bytes -> Sha, s: Store, t: Store, ns: string, bytes: Bytes, now: int, shas: seq<Sha>)
    requires Holds(hash, s, t, ns, bytes, now)
    ensures hash(bytes) !in NotHeld(t.refs, ns, shas)
  {
    NotHeldExact(t.refs, ns, shas, hash(bytes));
  }

  lemma {:induction false} NotInNotHeld(refs: map<Key, Ref>, ns: string, all: seq<Sha>, shas: seq<Sha>)
    requires forall sha :: sha in shas ==> sha in all
    ensures NotIn(Held(refs, ns, all), shas) == NotHeld(refs, ns, shas)
  {
    if shas != [] {
      NotInNotHeld(refs, ns, all, shas[1..]);
    }
  }

  lemma HeldNone(refs: map<Key, Ref>, ns: string, shas: seq<Sha>)
    ensures Held(refs, ns, shas[..0]) == {} && shas[0..] == shas
  {
  }

  lemma HeldAll(refs: map<Key, Ref>, ns: string, shas: seq<Sha>, i: nat, clock: nat -> int, batch: nat)
    requires i == |shas|
    ensures shas[..i] == shas && TouchAll(refs, ns, shas[i..], clock, batch) == refs
  {
  }

  lemma BatchNext(refs0: map<Key, Ref>, refs: map<Key, Ref>, ns: string, shas: seq<Sha>, clock: nat -> int,
        i: nat, n: nat, batch: nat)
    requires i < |shas| && n == (if |shas| - i < CHUNK then |shas| - i else CHUNK) && refs.Keys == refs0.Keys
    ensures Held(refs0, ns, shas[..i + n]) == Held(refs0, ns, shas[..i]) + Held(refs, ns, shas[i..i + n])
    ensures TouchAll(refs, ns, shas[i..], clock, batch) ==
            TouchAll(Touch(refs, ns, shas[i..i + n], clock(batch)), ns, shas[i + n..], clock, batch + 1)
  {
    assert shas[i..][..n] == shas[i..i + n] && shas[i..][n..] == shas[i + n..];
    assert shas[..i + n] == shas[..i] + shas[i..i + n];
  }

  // ----- the vocabulary of prune -----

  ghost predicate Ascending(rows: seq<Sha>) {
    forall i, j :: 0 <= i < j < |rows| ==> rows[i] < rows[j]
  }

  method Least(s: set<Sha>) returns (m: Sha)
    requires s != {}
    ensures m in s && forall x :: x in s ==> m <= x
  {
    m :| m in s;
    var rest := s - {m};
    while rest != {}
      invariant m in s && rest <= s && forall x :: x in s && x !in rest ==> m <= x
      decreases rest
    {
      var x :| x in rest;
      if x < m { m := x; }
      rest := rest - {x};
    }
  }

  function KeysOf(ns: string, rows: seq<Sha>): set<Key> {
    set sha | sha in rows :: (ns, sha)
  }

  lemma KeysNext(ns: string, rows: seq<Sha>, i: nat)
    requires i < |rows| && Ascending(rows)
    ensures KeysOf(ns, rows[..i + 1]) == KeysOf(ns, rows[..i]) + {(ns, rows[i])}
    ensures (ns, rows[i]) !in KeysOf(ns, rows[..i]) && (ns, rows[i]) in KeysOf(ns, rows)
  {
    assert rows[..i + 1] == rows[..i] + [rows[i]];
  }

  /** The report names every ref the prune selects, once, in ascending order, with its size and last use. */
  ghost predicate Reports(refs: map<Key, Ref>, ns: string, protect: set<Sha>, since: int, report: seq<(Sha,
        nat, int)>)
  {
    && (forall i, j :: 0 <= i < j < |report| ==> report[i].0 < report[j].0)
    && (forall i :: 0 <= i < |report| ==>
          var k := (ns, report[i].0);
          k in refs && refs[k].lastUsed < since && k.1 !in protect
          && report[i] == (k.1, refs[k].size, refs[k].lastUsed))
    && (forall k :: k in refs && k.0 == ns && refs[k].lastUsed < since && k.1 !in protect ==>
          exists i :: 0 <= i < |report| && report[i].0 == k.1)
  }

  ghost function FileSize(): (Sha, Bytes) -> int {
    (sha: Sha, b: Bytes) => |b|
  }

  ghost function DiskBytes(blobs: map<Sha, Bytes>): int {
    Sum(blobs, FileSize())
  }

  /** How many files are gone. */
  ghost function Unlinked(before: map<Sha, Bytes>, after: map<Sha, Bytes>): nat {
    |before.Keys - after.Keys|
  }

  /** The shas among `rows` whose file must go. */
  ghost function Dead(refs: map<Key, Ref>, rows: seq<Sha>, keepFiles: set<Sha>): set<Sha> {
    set sha | sha in rows && sha !in keepFiles && !Referenced(refs, sha)
  }

  lemma DeleteOne(before: map<Sha, Bytes>, blobs: map<Sha, Bytes>, sha: Sha)
    requires sha in blobs && blobs.Keys <= before.Keys
    ensures Unlinked(before, blobs - {sha}) == Unlinked(before, blobs) + 1
    ensures DiskBytes(blobs - {sha}) == DiskBytes(blobs) - |blobs[sha]|
  {
    SumTake(blobs, FileSize(), sha);
    assert before.Keys - (blobs - {sha}).Keys == (before.Keys - blobs.Keys) + {sha};
  }

  lemma MinusMinus(m: map<Sha, Bytes>, gone: set<Sha>, sha: Sha)
    ensures m - (gone + {sha}) == if sha in m - gone then m - gone - {sha} else m - gone
  {
  }

  /** What one turn of the unlink loop does to the files, their number and their bytes. */
  lemma DeleteStep(before: map<Sha, Bytes>, blobs: map<Sha, Bytes>, refs: map<Key, Ref>, rows: seq<Sha>,
        i: nat, keepFiles: set<Sha>)
    requires i < |rows| && blobs == before - Dead(refs, rows[..i], keepFiles)
    ensures var stays := rows[i] in keepFiles || StillReferenced(refs, rows[i]) || rows[i] !in blobs;
            before - Dead(refs, rows[..i + 1], keepFiles) == if stays then blobs else blobs - {rows[i]}
    ensures rows[i] in blobs ==> Unlinked(before, blobs - {rows[i]}) == Unlinked(before, blobs) + 1
    ensures rows[i] in blobs ==> DiskBytes(blobs - {rows[i]}) == DiskBytes(blobs) - |blobs[rows[i]]|
  {
    hide Dead, DiskBytes, Unlinked;
    DeadNext(refs, rows, i, keepFiles);
    StillReferencedExact(refs, rows[i]);
    MinusMinus(before, Dead(refs, rows[..i], keepFiles), rows[i]);
    if rows[i] in blobs {
      DeleteOne(before, blobs, rows[i]);
    }
  }

  lemma DeadNone(blobs: map<Sha, Bytes>, refs: map<Key, Ref>, rows: seq<Sha>, keepFiles: set<Sha>)
    ensures blobs - Dead(refs, rows[..0], keepFiles) == blobs && Unlinked(blobs, blobs) == 0
  {
  }

  lemma DeadNext(refs: map<Key, Ref>, rows: seq<Sha>, i: nat, keepFiles: set<Sha>)
    requires i < |rows|
    ensures Dead(refs, rows[..i + 1], keepFiles) ==
            if rows[i] in keepFiles || Referenced(refs, rows[i]) then Dead(refs, rows[..i], keepFiles)
            else Dead(refs, rows[..i], keepFiles) + {rows[i]}
  {
    assert rows[..i + 1] == rows[..i] + [rows[i]];
  }

  predicate StillReferenced(refs: map<Key, Ref>, sha: Sha) {
    exists k | k in refs :: k.1 == sha
  }

  lemma StillReferencedExact(refs: map<Key, Ref>, sha: Sha)
    ensures StillReferenced(refs, sha) <==> Referenced(refs, sha)
  {
    if k :| k in refs && k.1 == sha {
      assert (k.0, sha) in refs;
    }
  }

  lemma DeadAreDead(s: Store, ns: string, protect: set<Sha>, since: int, rows: seq<Sha>, keepFiles: set<Sha>)
    requires KeysOf(ns, rows) == Victims(s.refs, ns, protect, since)
    ensures var refs := s.refs - KeysOf(ns, rows);
            Pruned(s, ns, protect, since, keepFiles) == s.(refs := refs, blobs := s.blobs - Dead(refs, rows, keepFiles))
  {
    var gone := KeysOf(ns, rows);
    forall sha: Sha
      ensures sha in rows <==> exists k :: k in gone && k.1 == sha
    {
      if sha in rows {
        assert (ns, sha) in gone;
      }
    }
    assert Dead(s.refs - gone, rows, keepFiles) == DeadFiles(s.refs, ns, protect, since, keepFiles);
  }

  lemma RowsAreVictims(refs: map<Key, Ref>, ns: string, protect: set<Sha>, since: int, rows: seq<Sha>)
    requires forall sha: Sha :: sha in rows <==> Victim(refs, ns, protect, since, (ns, sha))
    ensures KeysOf(ns, rows) == Victims(refs, ns, protect, since)
    ensures KeysOf(ns, rows) <= refs.Keys
    ensures forall sha: Sha :: sha in rows ==> (ns, sha) in refs
  {
  }

  lemma ReportsAll(refs: map<Key, Ref>, ns: string, protect: set<Sha>, since: int, rows: seq<Sha>,
        report: seq<(Sha, nat, int)>)
    requires Ascending(rows)
    requires forall sha: Sha :: sha in rows <==> Victim(refs, ns, protect, since, (ns, sha))
    requires |report| == |rows|
    requires forall i :: 0 <= i < |rows| ==> (ns, rows[i]) in refs &&
                                             report[i] == (rows[i], refs[(ns, rows[i])].size,
                                               refs[(ns, rows[i])].lastUsed)
    ensures Reports(refs, ns, protect, since, report)
  {
    forall k | Victim(refs, ns, protect, since, k)
      ensures exists i :: 0 <= i < |report| && report[i].0 == k.1
    {
      assert k == (ns, k.1) && k.1 in rows;
      var i :| 0 <= i < |rows| && rows[i] == k.1;
      assert report[i].0 == k.1;
    }
  }

  lemma PruneStep(hash: Bytes -> Sha, s: Store, m: Moment)
    requires m.action.Prune?
    ensures Step(hash, s, m) == if m.action.dryRun then s
                                else Pruned(s, m.action.ns, m.action.protect, m.action.since, m.action.keepFiles)
  {
  }

  lemma NothingToPrune(s: Store, ns: string, protect: set<Sha>, since: int, rows: seq<Sha>, keepFiles: set<Sha>)
    requires KeysOf(ns, rows) == Victims(s.refs, ns, protect, since)
    ensures rows == [] ==> Pruned(s, ns, protect, since, keepFiles) == s
  {
  }
}
