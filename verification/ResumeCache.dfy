/** The resume plan: a resumed script is answered from the journal for as long as it makes the calls the journal
    holds, and live from the first call that differs. */
module ResumeCache {

  datatype Option<+T> = None | Some(value: T)

  /** What a call returned. */
  type Value(==, !new)

  /** `opts` is the serialised text of the options: the code compares keys by prompt and by that text. */
  datatype CallKey = CallKey(prompt: string, opts: string)

  datatype JournalEntry = JournalEntry(callSeq: nat, key: CallKey, value: Value, aborted: bool)

  type Table = map<nat, JournalEntry>

  /** A later entry for the same call replaces an earlier one. */
  function ByCallSeq(entries: seq<JournalEntry>): Table {
    if entries == [] then map[]
    else
      var last := entries[|entries| - 1];
      ByCallSeq(entries[..|entries| - 1])[last.callSeq := last]
  }

  function CachedThrough(entries: seq<JournalEntry>): int {
    if entries == [] then -1
    else
      var m, last := CachedThrough(entries[..|entries| - 1]), entries[|entries| - 1];
      if last.callSeq > m then last.callSeq else m
  }

  lemma {:induction false} LastEntryWins(entries: seq<JournalEntry>, i: nat)
    requires i < |entries| && forall j :: i < j < |entries| ==> entries[j].callSeq != entries[i].callSeq
    ensures entries[i].callSeq in ByCallSeq(entries) && ByCallSeq(entries)[entries[i].callSeq] == entries[i]
  {
    if i < |entries| - 1 {
      assert entries[|entries| - 1].callSeq != entries[i].callSeq;
      LastEntryWins(entries[..|entries| - 1], i);
    }
  }

  lemma {:induction false} OnlyEntries(entries: seq<JournalEntry>, c: nat)
    requires c in ByCallSeq(entries)
    ensures ByCallSeq(entries)[c] in entries && ByCallSeq(entries)[c].callSeq == c
  {
    if entries[|entries| - 1].callSeq != c {
      OnlyEntries(entries[..|entries| - 1], c);
    }
  }

  /** The plan has something for a call exactly when the journal does. */
  lemma HasEntryIff(entries: seq<JournalEntry>, c: nat)
    ensures c in ByCallSeq(entries) <==> exists e :: e in entries && e.callSeq == c
  {
    if c in ByCallSeq(entries) {
      OnlyEntries(entries, c);
    }
    if e :| e in entries && e.callSeq == c {
      HasEntry(entries, e);
    }
  }

  lemma {:induction false} HasEntry(entries: seq<JournalEntry>, e: JournalEntry)
    requires e in entries
    ensures e.callSeq in ByCallSeq(entries)
  {
    var front, last := entries[..|entries| - 1], entries[|entries| - 1];
    assert entries == front + [last];
    if e != last {
      HasEntry(front, e);
    }
  }

  /** `cachedThrough` is the last journaled call, or -1 when nothing is journaled. */
  lemma {:induction false} CachedThroughIsLast(entries: seq<JournalEntry>)
    ensures entries == [] ==> CachedThrough(entries) == -1
    ensures forall e :: e in entries ==> e.callSeq <= CachedThrough(entries)
    ensures entries != [] ==> exists e :: e in entries && e.callSeq == CachedThrough(entries)
  {
    if entries != [] {
      var front, last := entries[..|entries| - 1], entries[|entries| - 1];
      CachedThroughIsLast(front);
      assert forall e :: e in entries <==> e in front || e == last;
      if front != [] {
        var e :| e in front && e.callSeq == CachedThrough(front);
        assert e in entries;
      }
      assert last in entries;
    }
  }

  // ----- the plan -----

  predicate Journaled(t: Table, callSeq: nat, key: CallKey) {
    callSeq in t && t[callSeq].key == key && !t[callSeq].aborted
  }

  class Plan {
    var missed: bool
    const byCallSeq: Table
    const cachedThrough: int

    constructor Build(entries: seq<JournalEntry>)
      ensures byCallSeq == ByCallSeq(entries) && cachedThrough == CachedThrough(entries) && !missed
    {
      byCallSeq := ByCallSeq(entries);
      cachedThrough := CachedThrough(entries);
      missed := false;
    }

    method Replay(callSeq: nat, key: CallKey) returns (r: Option<Value>)
      modifies this`missed
      ensures r.Some? <==> !old(missed) && Journaled(byCallSeq, callSeq, key)
      ensures r.Some? ==> r.value == byCallSeq[callSeq].value
      ensures missed <==> r.None?
    {
      if missed {
        return None;
      }
      if callSeq !in byCallSeq || byCallSeq[callSeq].key != key || byCallSeq[callSeq].aborted {
        missed := true;
        return None;
      }
      return Some(byCallSeq[callSeq].value);
    }

    method Invalidate()
      modifies this`missed
      ensures missed
    {
      missed := true;
    }

    /** A run of calls against one plan; a replayed value that no longer checks out is discarded and
        invalidates the plan. */
    method Serve(requests: seq<Request>) returns (served: seq<Option<Value>>)
      requires !missed
      modifies this`missed
      ensures |served| == |requests|
      ensures forall i :: 0 <= i < |requests| ==> served[i] == Served(byCallSeq, requests, i)
      ensures missed <==> !AllMatch(byCallSeq, requests)
    {
      served := [];
      for i := 0 to |requests|
        invariant |served| == i && (missed <==> !AllMatch(byCallSeq, requests[..i]))
        invariant forall j :: 0 <= j < i ==> served[j] == Served(byCallSeq, requests, j)
      {
        var q := requests[i];
        var r := Replay(q.callSeq, q.key);
        if r.Some? && !q.verified {
          Invalidate();
          r := None;
        }
        served := served + [r];
        assert requests[..i + 1] == requests[..i] + [q];
        assert AllMatch(byCallSeq, requests[..i + 1]) <==> AllMatch(byCallSeq, requests[..i]) && Matches(byCallSeq, q);
      }
      assert requests[..|requests|] == requests;
    }
  }

  /** A call, and whether a value replayed for it still checks out. */
  datatype Request = Request(callSeq: nat, key: CallKey, verified: bool)

  predicate Matches(t: Table, q: Request) {
    Journaled(t, q.callSeq, q.key) && q.verified
  }

  predicate AllMatch(t: Table, requests: seq<Request>) {
    forall q :: q in requests ==> Matches(t, q)
  }

  /** The hits are exactly the longest prefix that matches the journal: after one miss or one invalidation
      nothing is served from it. */
  function Served(t: Table, requests: seq<Request>, i: nat): Option<Value>
    requires i < |requests|
  {
    if AllMatch(t, requests[..i + 1]) then
      assert requests[..i + 1][i] == requests[i] && requests[i] in requests[..i + 1];
      Some(t[requests[i].callSeq].value)
    else None
  }

  // ----- running a script -----

  datatype Call = Call(callSeq: nat, key: CallKey)

  /** A deterministic script: the results so far decide the next call, or that there is none. */
  type Script = seq<Value> -> Option<Call>

  datatype Event = Event(call: Call, value: Value, cached: bool)

  function Values(h: seq<Event>): (r: seq<Value>)
    ensures |r| == |h| && forall i :: 0 <= i < |r| ==> r[i] == h[i].value
  {
    seq(|h|, i requires 0 <= i < |h| => h[i].value)
  }

  function Requests(h: seq<Event>, verified: nat -> bool): (r: seq<Request>)
    ensures |r| == |h| && forall i :: 0 <= i < |r| ==> r[i] == Request(h[i].call.callSeq, h[i].call.key, verified(i))
  {
    seq(|h|, i requires 0 <= i < |h| => Request(h[i].call.callSeq, h[i].call.key, verified(i)))
  }

  ghost predicate Follows(script: Script, h: seq<Event>) {
    forall i :: 0 <= i < |h| ==> script(Values(h[..i])) == Some(h[i].call)
  }

  /** A run under a plan: each call is answered by the plan or, at a miss, by whatever a live dispatch
      returns. */
  ghost predicate Resumed(script: Script, t: Table, verified: nat -> bool, h: seq<Event>) {
    && Follows(script, h)
    && forall i :: 0 <= i < |h| ==>
      && (h[i].cached <==> Served(t, Requests(h, verified), i).Some?)
      && (h[i].cached ==> h[i].value == Served(t, Requests(h, verified), i).value)
  }

  /** The journal holds nothing false about a run: what it has for a call of the run is that call, and, unless
      it was aborted, its value. */
  ghost predicate RecordOf(t: Table, h: seq<Event>) {
    forall i :: 0 <= i < |h| && h[i].call.callSeq in t ==>
      && t[h[i].call.callSeq].key == h[i].call.key
      && (!t[h[i].call.callSeq].aborted ==> t[h[i].call.callSeq].value == h[i].value)
  }

  ghost predicate NothingElse(t: Table, h: seq<Event>) {
    forall c :: c in t ==> exists i :: 0 <= i < |h| && h[i].call.callSeq == c
  }

  ghost predicate OncePerCall(h: seq<Event>) {
    forall i, j :: 0 <= i < j < |h| ==> h[i].call.callSeq != h[j].call.callSeq
  }

  /** A call of the original run that can be replayed. */
  predicate Replayable(t: Table, verified: nat -> bool, h: seq<Event>, i: nat)
    requires i < |h|
  {
    h[i].call.callSeq in t && !t[h[i].call.callSeq].aborted && verified(i)
  }

  /** How far the original run can be replayed: up to its first aborted, missing or no longer valid call. */
  function Intact(t: Table, verified: nat -> bool, h: seq<Event>): (n: nat)
    ensures n <= |h| && (forall i :: 0 <= i < n ==> Replayable(t, verified, h, i))
    ensures n < |h| ==> !Replayable(t, verified, h, n)
  {
    IntactFrom(t, verified, h, 0)
  }

  function IntactFrom(t: Table, verified: nat -> bool, h: seq<Event>, i: nat): (n: nat)
    requires i <= |h|
    ensures i <= n <= |h| && (forall j :: i <= j < n ==> Replayable(t, verified, h, j))
    ensures n < |h| ==> !Replayable(t, verified, h, n)
    decreases |h| - i
  {
    if i < |h| && Replayable(t, verified, h, i) then IntactFrom(t, verified, h, i + 1) else i
  }

  /** What a run under a plan is served from the journal. */
  lemma CachedIffMatched(script: Script, t: Table, verified: nat -> bool, h: seq<Event>, i: nat)
    requires Resumed(script, t, verified, h) && i < |h|
    ensures h[i].cached <==> forall j :: 0 <= j <= i ==> Journaled(t, h[j].call.callSeq, h[j].call.key) && verified(j)
    ensures h[i].cached ==> h[i].value == t[h[i].call.callSeq].value
  {
    var q := Requests(h, verified);
    forall j | 0 <= j <= i
      ensures q[j] in q[..i + 1]
    {
      assert q[..i + 1][j] == q[j];
    }
  }

  lemma ReplayableIsJournaled(t: Table, verified: nat -> bool, h: seq<Event>, i: nat)
    requires RecordOf(t, h) && i < |h|
    ensures Replayable(t, verified, h, i) <==> Journaled(t, h[i].call.callSeq, h[i].call.key) && verified(i)
    ensures Replayable(t, verified, h, i) ==> t[h[i].call.callSeq].value == h[i].value
  {
  }

  /** The first `n` calls were the original's, served with the original's values. */
  ghost predicate Replays(h0: seq<Event>, h: seq<Event>, n: nat)
    requires n <= |h0| && n <= |h|
  {
    forall i :: 0 <= i < n ==> h[i] == Event(h0[i].call, h0[i].value, true)
  }

  lemma ReplaysNext(script: Script, t: Table, verified: nat -> bool, h0: seq<Event>, h: seq<Event>, i: nat)
    requires RecordOf(t, h0) && Resumed(script, t, verified, h) && i < |h| && i < Intact(t, verified, h0)
    requires Replays(h0, h, i) && h[i].call == h0[i].call
    ensures Replays(h0, h, i + 1)
  {
    hide RecordOf, Resumed, Replayable, Intact;
    CachedIffMatched(script, t, verified, h, i);
    forall j: nat | j <= i
      ensures Journaled(t, h[j].call.callSeq, h[j].call.key) && verified(j)
    {
      assert Replayable(t, verified, h0, j);
      ReplayableIsJournaled(t, verified, h0, j);
    }
    ReplayableIsJournaled(t, verified, h0, i);
  }

  lemma NextCall(script: Script, h0: seq<Event>, h: seq<Event>, n: nat)
    requires n <= |h| && n <= |h0| && Replays(h0, h, n) && Follows(script, h0) && Follows(script, h)
    ensures Values(h[..n]) == Values(h0[..n])
    ensures n < |h| && n < |h0| ==> h[n].call == h0[n].call
  {
    assert Values(h[..n]) == Values(h0[..n]);
  }

  lemma {:induction false} SameSoFar(script: Script, t: Table, verified: nat -> bool, h0: seq<Event>,
        h: seq<Event>, n: nat)
    requires Follows(script, h0) && RecordOf(t, h0) && Resumed(script, t, verified, h)
    requires n <= |h| && n <= Intact(t, verified, h0)
    ensures Replays(h0, h, n) && Values(h[..n]) == Values(h0[..n])
    ensures n < |h| && n < |h0| ==> h[n].call == h0[n].call
  {
    assert Follows(script, h);
    hide Follows, RecordOf, Resumed, Replayable, Values;
    if n > 0 {
      SameSoFar(script, t, verified, h0, h, n - 1);
      ReplaysNext(script, t, verified, h0, h, n - 1);
    }
    NextCall(script, h0, h, n);
  }

  /** Resuming simulates the original run: the same calls and the same values, none of them dispatched again,
      up to the first call that was aborted, is missing or no longer checks out; that call is dispatched, and so
      is everything after it. */
  lemma ResumeSimulates(script: Script, t: Table, verified: nat -> bool, h0: seq<Event>, h: seq<Event>)
    requires Follows(script, h0) && RecordOf(t, h0) && Resumed(script, t, verified, h)
    ensures forall i :: 0 <= i < |h| && i < Intact(t, verified, h0) ==> h[i] == Event(h0[i].call, h0[i].value, true)
    ensures |h| < Intact(t, verified, h0) ==> script(Values(h)).Some?
    ensures Intact(t, verified, h0) < |h0| ==>
      forall i :: Intact(t, verified, h0) <= i < |h| ==> !h[i].cached
    ensures Intact(t, verified, h0) < |h0| && Intact(t, verified, h0) < |h| ==>
      h[Intact(t, verified, h0)].call == h0[Intact(t, verified, h0)].call
    ensures NothingElse(t, h0) && OncePerCall(h) ==> forall i :: Intact(t, verified, h0) <= i < |h| ==> !h[i].cached
  {
    var n := Intact(t, verified, h0);
    SameSoFar(script, t, verified, h0, h, if n < |h| then n else |h|);
    if |h| < n {
      assert h[..|h|] == h && Values(h) == Values(h0[..|h|]);
    }
    forall i | n <= i < |h|
      ensures n < |h0| || (NothingElse(t, h0) && OncePerCall(h)) ==> !h[i].cached
    {
      CachedIffMatched(script, t, verified, h, i);
      if n == |h0| && NothingElse(t, h0) && OncePerCall(h) {
        assert forall j :: 0 <= j < n ==> h0[j].call.callSeq == h[j].call.callSeq;
        assert h[n].call.callSeq !in t;
      }
    }
  }

  /** Both runs number their calls alike: the `i`-th call of either is `number(i)`. */
  ghost predicate Numbered(number: nat -> nat, h: seq<Event>) {
    forall i :: 0 <= i < |h| ==> h[i].call.callSeq == number(i)
  }

  ghost predicate Injective(number: nat -> nat) {
    forall i, j :: 0 <= i < j ==> number(i) != number(j)
  }

  lemma InTableIsOriginal(t: Table, number: nat -> nat, h0: seq<Event>, h: seq<Event>, i: nat)
    requires NothingElse(t, h0) && Injective(number) && Numbered(number, h0) && Numbered(number, h) && i < |h|
    ensures h[i].call.callSeq in t ==> i < |h0|
  {
    if h[i].call.callSeq in t {
      var k: nat :| k < |h0| && h0[k].call.callSeq == h[i].call.callSeq;
      assert number(k) == number(i);
      assert !(k < i) && !(i < k);
    }
  }

  /** A call of another run is in the journal exactly when it is the original's call at that position. */
  lemma MatchedIsCommon(t: Table, verified: nat -> bool, number: nat -> nat, h0: seq<Event>, h: seq<Event>, i: nat)
    requires RecordOf(t, h0) && NothingElse(t, h0) && i < |h|
    requires Injective(number) && Numbered(number, h0) && Numbered(number, h)
    ensures Journaled(t, h[i].call.callSeq, h[i].call.key) && verified(i)
      <==> i < |h0| && h[i].call == h0[i].call && Replayable(t, verified, h0, i)
  {
    InTableIsOriginal(t, number, h0, h, i);
    if i < |h0| {
      ReplayableIsJournaled(t, verified, h0, i);
      assert h[i].call.callSeq == h0[i].call.callSeq;
    }
  }

  /** For an edited script the hits are exactly the longest prefix of calls it has in common with the original
      run, cut at the first call that cannot be replayed. */
  lemma EditedScriptHits(edited: Script, t: Table, verified: nat -> bool, number: nat -> nat, h0: seq<Event>,
        h: seq<Event>, i: nat)
    requires Resumed(edited, t, verified, h) && RecordOf(t, h0) && NothingElse(t, h0) && i < |h|
    requires Injective(number) && Numbered(number, h0) && Numbered(number, h)
    ensures h[i].cached <==> i < Intact(t, verified, h0) && forall j :: 0 <= j <= i ==> h[j].call == h0[j].call
    ensures h[i].cached ==> h[i].value == h0[i].value
  {
    CachedIffMatched(edited, t, verified, h, i);
    hide Resumed, RecordOf, NothingElse, Injective, Numbered, Replayable, Journaled, Follows;
    forall j: nat | j <= i
      ensures Journaled(t, h[j].call.callSeq, h[j].call.key) && verified(j)
        <==> j < |h0| && h[j].call == h0[j].call && Replayable(t, verified, h0, j)
    {
      MatchedIsCommon(t, verified, number, h0, h, j);
    }
    IntactIsPrefix(t, verified, h0, i);
    if h[i].cached {
      assert i < |h0|;
      ReplayableIsJournaled(t, verified, h0, i);
    }
  }

  lemma IntactIsPrefix(t: Table, verified: nat -> bool, h: seq<Event>, i: nat)
    ensures i < Intact(t, verified, h) <==> i < |h| && forall j: nat :: j <= i ==> Replayable(t, verified, h, j)
  {
  }

  // ----- resuming again -----

  /** The entries a run adds: one for each call it dispatched. */
  function Appended(h: seq<Event>, aborted: nat -> bool): seq<JournalEntry> {
    if h == [] then []
    else
      var last := h[|h| - 1];
      Appended(h[..|h| - 1], aborted)
        + if last.cached then [] else [JournalEntry(last.call.callSeq, last.call.key, last.value, aborted(|h| - 1))]
  }

  lemma {:induction false} AppendedAt(journal: seq<JournalEntry>, h: seq<Event>, aborted: nat -> bool, i: nat)
    requires OncePerCall(h) && i < |h| && !h[i].cached
    ensures var t := ByCallSeq(journal + Appended(h, aborted));
      h[i].call.callSeq in t && t[h[i].call.callSeq]
        == JournalEntry(h[i].call.callSeq, h[i].call.key, h[i].value, aborted(i))
  {
    AppendedLast(journal, h, aborted);
    if i < |h| - 1 {
      AppendedAt(journal, h[..|h| - 1], aborted, i);
    }
  }

  lemma {:induction false} AppendedElsewhere(journal: seq<JournalEntry>, h: seq<Event>, aborted: nat -> bool, c: nat)
    requires forall i :: 0 <= i < |h| && !h[i].cached ==> h[i].call.callSeq != c
    ensures var t := ByCallSeq(journal + Appended(h, aborted));
      (c in t <==> c in ByCallSeq(journal)) && (c in t ==> t[c] == ByCallSeq(journal)[c])
  {
    if h == [] {
      assert journal + Appended(h, aborted) == journal;
    } else {
      AppendedLast(journal, h, aborted);
      AppendedElsewhere(journal, h[..|h| - 1], aborted, c);
    }
  }

  lemma AppendedLast(journal: seq<JournalEntry>, h: seq<Event>, aborted: nat -> bool)
    requires h != []
    ensures var last, before := h[|h| - 1], ByCallSeq(journal + Appended(h[..|h| - 1], aborted));
      ByCallSeq(journal + Appended(h, aborted)) ==
        if last.cached then before
        else before[last.call.callSeq := JournalEntry(last.call.callSeq, last.call.key, last.value, aborted(|h| - 1))]
  {
    var front, last := h[..|h| - 1], h[|h| - 1];
    var all := journal + Appended(h, aborted);
    if last.cached {
      assert all == journal + Appended(front, aborted);
    } else {
      assert all[..|all| - 1] == journal + Appended(front, aborted);
    }
  }

  /** The journal a resumed run leaves is a record of that run, whatever earlier runs left in it: resuming once
      more replays the latest run, from its first call to the first one aborted in it. */
  lemma ResumedRunIsRecorded(script: Script, journal: seq<JournalEntry>, verified: nat -> bool, h: seq<Event>,
        aborted: nat -> bool)
    requires Resumed(script, ByCallSeq(journal), verified, h) && OncePerCall(h)
    ensures var t := ByCallSeq(journal + Appended(h, aborted));
      && RecordOf(t, h)
      && forall i :: 0 <= i < |h| ==>
          h[i].call.callSeq in t && (t[h[i].call.callSeq].aborted <==> !h[i].cached && aborted(i))
  {
    var t := ByCallSeq(journal + Appended(h, aborted));
    hide ByCallSeq, Appended, Resumed;
    forall i: nat | i < |h|
      ensures h[i].call.callSeq in t && t[h[i].call.callSeq].key == h[i].call.key
        && t[h[i].call.callSeq].value == h[i].value
      ensures t[h[i].call.callSeq].aborted <==> !h[i].cached && aborted(i)
    {
      if h[i].cached {
        CachedIffMatched(script, ByCallSeq(journal), verified, h, i);
        AppendedElsewhere(journal, h, aborted, h[i].call.callSeq);
      } else {
        AppendedAt(journal, h, aborted, i);
      }
    }
  }

  /** The journal of a run that started without one records that run and nothing else. */
  lemma FirstRunIsRecorded(h: seq<Event>, aborted: nat -> bool)
    requires OncePerCall(h) && forall i :: 0 <= i < |h| ==> !h[i].cached
    ensures RecordOf(ByCallSeq(Appended(h, aborted)), h) && NothingElse(ByCallSeq(Appended(h, aborted)), h)
    ensures forall i :: 0 <= i < |h| ==> h[i].call.callSeq in ByCallSeq(Appended(h, aborted))
  {
    var entries := Appended(h, aborted);
    assert [] + entries == entries;
    hide Appended, ByCallSeq;
    forall i: nat | i < |h|
      ensures h[i].call.callSeq in ByCallSeq(entries)
      ensures ByCallSeq(entries)[h[i].call.callSeq]
        == JournalEntry(h[i].call.callSeq, h[i].call.key, h[i].value, aborted(i))
    {
      AppendedAt([], h, aborted, i);
    }
    forall c | c in ByCallSeq(entries)
      ensures exists i :: 0 <= i < |h| && h[i].call.callSeq == c
    {
      EntryIsCall(h, aborted, c);
    }
  }

  lemma {:induction false} EntryIsCall(h: seq<Event>, aborted: nat -> bool, c: nat)
    requires c in ByCallSeq(Appended(h, aborted))
    ensures exists i :: 0 <= i < |h| && h[i].call.callSeq == c
  {
    var front, entries := h[..|h| - 1], Appended(h, aborted);
    assert [] + entries == entries && [] + Appended(front, aborted) == Appended(front, aborted);
    AppendedLast([], h, aborted);
    hide Appended, ByCallSeq;
    if c != h[|h| - 1].call.callSeq {
      EntryIsCall(front, aborted, c);
      var i :| 0 <= i < |front| && front[i].call.callSeq == c;
      assert h[i] == front[i];
    }
  }
}
