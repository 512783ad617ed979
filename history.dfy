/** The call-history store of main.js: the merge performed by
    saveCompletedCallsToPersistentStorage, its newest-first ordering and 10000-entry cap,
    the date-range query of get-persistent-call-history and the 100-entry start-up window. */
module History {
  import opened Common

  datatype Status = Active | Completed

  /** A call record. Times are integer milliseconds since the epoch, and a `timestamp` of 0
      stands for a missing one (both are falsy in JavaScript); `dateAdded` is stamped when the
      record enters the persistent store. A record without `id` has `id == None`. */
  datatype CallRecord = CallRecord(
    id: Option<int>,
    code: string,
    status: Status,
    timestamp: int,
    resetTime: Option<int>,
    dateAdded: Option<int>)

  /** Two records closer than this (in ms) with the same code are the same call. */
  const DuplicateWindowMs: int := 1000
  /** The persistent store keeps at most this many records. */
  const MaxStored: nat := 10000
  /** Start-up loads this many of the newest stored records into the shared history. */
  const StartupRecent: nat := 100
  const DayMs: int := 86400000

  function Abs(x: int): nat
  {
    if x < 0 then -x else x
  }

  /** The matcher handed to `find`: same id (two records both without id count as the same
      id, as `undefined === undefined` does), or same code, both timestamps set, and within
      the duplicate window. */
  predicate SameCall(stored: CallRecord, call: CallRecord)
  {
    stored.id == call.id ||
    (&& stored.code == call.code
     && stored.timestamp != 0 && call.timestamp != 0
     && Abs(stored.timestamp - call.timestamp) < DuplicateWindowMs)
  }

  /** `history.find(...)` finds an entry for `call`. */
  predicate Known(history: seq<CallRecord>, call: CallRecord)
  {
    exists k :: 0 <= k < |history| && SameCall(history[k], call)
  }

  /** `sharedCallHistory.filter(call => call.status === 'completed')`. */
  function CompletedCalls(calls: seq<CallRecord>): (r: seq<CallRecord>)
    ensures forall x :: x in r <==> x in calls && x.status == Completed
    ensures |r| <= |calls|
  {
    if calls == [] then []
    else (if calls[0].status == Completed then [calls[0]] else []) + CompletedCalls(calls[1..])
  }

  /** The record as pushed into the store: a missing timestamp becomes the current time, a
      falsy reset time becomes `null`, and the time it was added is stamped on it. */
  function Persisted(call: CallRecord, now: int): (r: CallRecord)
    ensures r.id == call.id && r.code == call.code && r.status == call.status
    ensures SameCall(r, call)
    ensures call.timestamp != 0 ==> r.timestamp == call.timestamp
    ensures call.timestamp == 0 ==> r.timestamp == now
    ensures call.resetTime.Some? && call.resetTime.value != 0 ==> r.resetTime == call.resetTime
    ensures !(call.resetTime.Some? && call.resetTime.value != 0) ==> r.resetTime.None?
    ensures r.dateAdded == Some(now)
  {
    var resetTime := if call.resetTime.Some? && call.resetTime.value != 0 then call.resetTime else None;
    var timestamp := if call.timestamp != 0 then call.timestamp else now;
    call.(timestamp := timestamp, resetTime := resetTime, dateAdded := Some(now))
  }

  /** One step of the `forEach`: push the call unless some entry already matches it. */
  function Absorb(history: seq<CallRecord>, call: CallRecord, now: int): (r: seq<CallRecord>)
    ensures Known(r, call)
    ensures Known(history, call) ==> r == history
    ensures !Known(history, call) ==> r == history + [Persisted(call, now)]
  {
    if Known(history, call) then history
    else
      var r := history + [Persisted(call, now)];
      assert SameCall(r[|history|], call);
      r
  }

  /** The whole `forEach` over the completed calls: later calls are matched against the
      calls pushed before them as well as against the stored ones. */
  function AppendUnmatched(history: seq<CallRecord>, calls: seq<CallRecord>, now: int): (r: seq<CallRecord>)
    ensures |history| <= |r| <= |history| + |calls|
    ensures r[..|history|] == history
    decreases |calls|
  {
    if calls == [] then history
    else
      var next := Absorb(history, calls[0], now);
      var r := AppendUnmatched(next, calls[1..], now);
      assert r[..|next|] == next;
      r
  }

  /** Each record of `r` after the first `from` is a stamped copy of one of `calls` that
      matched no record before it. */
  predicate AddedUnmatched(r: seq<CallRecord>, from: int, calls: seq<CallRecord>, now: int)
  {
    forall k :: 0 <= from <= k < |r| ==>
      exists c :: c in calls && r[k] == Persisted(c, now) && !Known(r[..k], c)
  }

  /** Every record the merge adds is a stamped copy of one of the merged calls, and matches
      no entry that was in the history before it. */
  lemma {:induction false} MergeAddsOnlyUnmatched(history: seq<CallRecord>, calls: seq<CallRecord>, now: int)
    ensures AddedUnmatched(AppendUnmatched(history, calls, now), |history|, calls, now)
    decreases |calls|
  {
    if calls != [] {
      var next := Absorb(history, calls[0], now);
      var r := AppendUnmatched(next, calls[1..], now);
      MergeAddsOnlyUnmatched(next, calls[1..], now);
      assert AppendUnmatched(history, calls, now) == r;
      assert r[..|next|] == next;
      forall k | |history| <= k < |r|
        ensures exists c :: c in calls && r[k] == Persisted(c, now) && !Known(r[..k], c)
      {
        if k < |next| {
          assert next == history + [Persisted(calls[0], now)] && !Known(history, calls[0]);
          assert r[k] == next[k] == Persisted(calls[0], now);
          assert r[..k] == history;
          assert calls[0] in calls;
        } else {
          assert AddedUnmatched(r, |next|, calls[1..], now);
          var c :| c in calls[1..] && r[k] == Persisted(c, now) && !Known(r[..k], c);
          assert c in calls;
        }
      }
    }
  }

  /** A match found in a history is still found after records are appended to it. */
  lemma KnownGrows(history: seq<CallRecord>, longer: seq<CallRecord>, call: CallRecord)
    requires |history| <= |longer| && longer[..|history|] == history
    requires Known(history, call)
    ensures Known(longer, call)
  {
    var k :| 0 <= k < |history| && SameCall(history[k], call);
    assert longer[k] == history[k];
  }

  /** After the merge, every merged call has a matching entry. */
  lemma {:induction false} MergeCovers(history: seq<CallRecord>, calls: seq<CallRecord>, now: int)
    ensures forall c :: c in calls ==> Known(AppendUnmatched(history, calls, now), c)
    decreases |calls|
  {
    if calls != [] {
      var next := Absorb(history, calls[0], now);
      var r := AppendUnmatched(next, calls[1..], now);
      MergeCovers(next, calls[1..], now);
      if !Known(history, calls[0]) {
        assert SameCall(next[|history|], calls[0]);
      }
      assert Known(next, calls[0]);
      KnownGrows(next, r, calls[0]);
    }
  }

  /** When every call already has a matching entry, the merge adds nothing. */
  lemma {:induction false} MergeOfKnownAddsNothing(history: seq<CallRecord>, calls: seq<CallRecord>, now: int)
    requires forall c :: c in calls ==> Known(history, c)
    ensures AppendUnmatched(history, calls, now) == history
    decreases |calls|
  {
    if calls != [] {
      assert calls[0] in calls;
      assert forall c :: c in calls[1..] ==> c in calls;
      MergeOfKnownAddsNothing(history, calls[1..], now);
    }
  }

  /** Merging the same calls a second time adds nothing. */
  lemma MergeIdempotent(history: seq<CallRecord>, calls: seq<CallRecord>, now: int, later: int)
    ensures AppendUnmatched(AppendUnmatched(history, calls, now), calls, later)
         == AppendUnmatched(history, calls, now)
  {
    MergeCovers(history, calls, now);
    MergeOfKnownAddsNothing(AppendUnmatched(history, calls, now), calls, later);
  }

  /** Timestamps never increase along the sequence. */
  predicate NewestFirst(s: seq<CallRecord>)
  {
    forall i, j :: 0 <= i < j < |s| ==> s[i].timestamp >= s[j].timestamp
  }

  /** Insert `x` into a newest-first sequence, ahead of records with the same timestamp. */
  function Insert(x: CallRecord, s: seq<CallRecord>): (r: seq<CallRecord>)
    requires NewestFirst(s)
    ensures NewestFirst(r)
    ensures multiset(r) == multiset(s) + multiset{x}
    ensures |r| == |s| + 1
  {
    if s == [] || x.timestamp >= s[0].timestamp then [x] + s
    else
      var rest := Insert(x, s[1..]);
      assert s == [s[0]] + s[1..];
      HeadBoundsInsert(x, s, rest);
      [s[0]] + rest
  }

  /** The head of `s` is at least as new as everything in `Insert(x, s[1..])`. */
  lemma HeadBoundsInsert(x: CallRecord, s: seq<CallRecord>, rest: seq<CallRecord>)
    requires NewestFirst(s) && s != [] && x.timestamp < s[0].timestamp
    requires NewestFirst(rest) && multiset(rest) == multiset(s[1..]) + multiset{x}
    ensures NewestFirst([s[0]] + rest)
  {
    forall j | 0 <= j < |rest| ensures s[0].timestamp >= rest[j].timestamp {
      assert rest[j] in multiset(rest);
      if rest[j] != x {
        assert rest[j] in multiset(s[1..]);
        var k :| 0 <= k < |s[1..]| && s[1..][k] == rest[j];
        assert s[k + 1] == rest[j];
      }
    }
    var r := [s[0]] + rest;
    forall i, j | 0 <= i < j < |r| ensures r[i].timestamp >= r[j].timestamp {
      if i == 0 {
        assert r[j] == rest[j - 1];
      } else {
        assert r[i] == rest[i - 1] && r[j] == rest[j - 1];
      }
    }
  }

  /** `history.sort((a, b) => b.timestamp - a.timestamp)`: a stable sort, newest first. */
  function SortNewestFirst(s: seq<CallRecord>): (r: seq<CallRecord>)
    ensures NewestFirst(r)
    ensures multiset(r) == multiset(s)
    ensures |r| == |s|
  {
    if s == [] then []
    else
      assert s == [s[0]] + s[1..];
      Insert(s[0], SortNewestFirst(s[1..]))
  }

  /** Sorting a sequence that is already newest first leaves it as it is. */
  lemma {:induction false} SortOfSortedIsSame(s: seq<CallRecord>)
    requires NewestFirst(s)
    ensures SortNewestFirst(s) == s
  {
    if s != [] {
      SortOfSortedIsSame(s[1..]);
      assert s == [s[0]] + s[1..];
    }
  }

  /** `s.slice(0, n)`, written in main.js as "if longer than n, slice". */
  function Take(s: seq<CallRecord>, n: nat): (r: seq<CallRecord>)
    ensures |r| == Min(|s|, n)
    ensures r == s[..|r|]
  {
    if |s| > n then s[..n] else s
  }

  /** Taking the head of a newest-first sequence keeps exactly the `n` newest records. */
  lemma TakeKeepsNewest(s: seq<CallRecord>, n: nat)
    requires NewestFirst(s)
    ensures |Take(s, n)| == Min(|s|, n)
    ensures Take(s, n) == s[..|Take(s, n)|]
    ensures NewestFirst(Take(s, n))
    ensures forall i, j :: 0 <= i < |Take(s, n)| <= j < |s| ==> Take(s, n)[i].timestamp >= s[j].timestamp
  {
  }

  /** The stored history after a save: the unmatched completed calls appended, the whole
      sorted newest first and cut to the `MaxStored` newest. */
  function MergeStored(history: seq<CallRecord>, shared: seq<CallRecord>, now: int): (r: seq<CallRecord>)
    ensures NewestFirst(r)
    ensures |r| == Min(|AppendUnmatched(history, CompletedCalls(shared), now)|, MaxStored)
  {
    Take(SortNewestFirst(AppendUnmatched(history, CompletedCalls(shared), now)), MaxStored)
  }

  /** The stored history after a save is drawn from the merged history, and no record the
      cap drops is newer than a record it keeps. */
  lemma MergeStoredKeepsNewest(history: seq<CallRecord>, shared: seq<CallRecord>, now: int)
    ensures var merged := AppendUnmatched(history, CompletedCalls(shared), now);
            var r := MergeStored(history, shared, now);
            && multiset(r) <= multiset(merged)
            && forall x, y :: x in r && y in multiset(merged) - multiset(r) ==> x.timestamp >= y.timestamp
  {
    var merged := AppendUnmatched(history, CompletedCalls(shared), now);
    var sorted := SortNewestFirst(merged);
    assert MergeStored(history, shared, now) == Take(sorted, MaxStored);
    TakeSplits(sorted, MaxStored);
  }

  /** Taking `n` records of a newest-first sequence splits its multiset into the kept part
      and a dropped part, none of whose records is newer than a kept one. */
  lemma TakeSplits(sorted: seq<CallRecord>, n: nat)
    requires NewestFirst(sorted)
    ensures var r := Take(sorted, n);
            && multiset(r) <= multiset(sorted)
            && forall x, y :: x in r && y in multiset(sorted) - multiset(r) ==> x.timestamp >= y.timestamp
  {
    var r := Take(sorted, n);
    var k := |r|;
    var rest := sorted[k..];
    assert sorted == r + rest;
    assert multiset(sorted) == multiset(r) + multiset(rest);
    assert multiset(sorted) - multiset(r) == multiset(rest);
    forall x, y | x in r && y in multiset(sorted) - multiset(r) ensures x.timestamp >= y.timestamp {
      var i :| 0 <= i < k && r[i] == x;
      assert y in rest;
      var j :| 0 <= j < |rest| && rest[j] == y;
      assert sorted[i] == x && sorted[k + j] == y;
    }
  }

  /** A save keeps only records that were stored already or are completed shared calls. */
  lemma MergeStoredOrigin(history: seq<CallRecord>, shared: seq<CallRecord>, now: int)
    ensures forall x :: x in MergeStored(history, shared, now) ==>
              x in history || exists c :: c in shared && c.status == Completed && x == Persisted(c, now)
  {
    var calls := CompletedCalls(shared);
    var merged := AppendUnmatched(history, calls, now);
    var sorted := SortNewestFirst(merged);
    MergeAddsOnlyUnmatched(history, calls, now);
    forall x | x in MergeStored(history, shared, now)
      ensures x in history || exists c :: c in shared && c.status == Completed && x == Persisted(c, now)
    {
      assert x in sorted;
      assert x in multiset(merged);
      var k :| 0 <= k < |merged| && merged[k] == x;
      if k < |history| {
        assert merged[..|history|] == history;
        assert merged[..|history|][k] == x;
      } else {
        var c :| c in calls && merged[k] == Persisted(c, now) && !Known(merged[..k], c);
        assert c in shared && c.status == Completed;
      }
    }
  }

  /** While the cap is not reached, every completed shared call has a matching record in
      the store after a save. */
  lemma SaveCoversCompleted(history: seq<CallRecord>, shared: seq<CallRecord>, now: int)
    requires |AppendUnmatched(history, CompletedCalls(shared), now)| <= MaxStored
    ensures forall c :: c in shared && c.status == Completed ==> Known(MergeStored(history, shared, now), c)
  {
    var calls := CompletedCalls(shared);
    var merged := AppendUnmatched(history, calls, now);
    MergeCovers(history, calls, now);
    forall c | c in shared && c.status == Completed ensures Known(MergeStored(history, shared, now), c) {
      assert c in calls;
      KnownPermutation(merged, SortNewestFirst(merged), c);
    }
  }

  /** Two records that both lack an id always match, whatever their codes and times. */
  lemma IdlessRecordsMatch(a: CallRecord, b: CallRecord)
    requires a.id.None? && b.id.None?
    ensures SameCall(a, b) && SameCall(b, a)
  {
  }

  /** A permutation of a history finds the same matches. */
  lemma KnownPermutation(a: seq<CallRecord>, b: seq<CallRecord>, call: CallRecord)
    requires multiset(a) == multiset(b)
    requires Known(a, call)
    ensures Known(b, call)
  {
    var k :| 0 <= k < |a| && SameCall(a[k], call);
    assert a[k] in multiset(b);
    var j :| 0 <= j < |b| && b[j] == a[k];
  }

  /** When the cap is not reached, saving the same shared history a second time leaves the
      stored history exactly as the first save left it. */
  lemma SaveTwiceIsSaveOnce(history: seq<CallRecord>, shared: seq<CallRecord>, now: int, later: int)
    requires |AppendUnmatched(history, CompletedCalls(shared), now)| <= MaxStored
    ensures MergeStored(MergeStored(history, shared, now), shared, later) == MergeStored(history, shared, now)
  {
    var calls := CompletedCalls(shared);
    var merged := AppendUnmatched(history, calls, now);
    var once := MergeStored(history, shared, now);
    assert once == SortNewestFirst(merged);
    MergeCovers(history, calls, now);
    forall c | c in calls ensures Known(once, c) {
      KnownPermutation(merged, once, c);
    }
    MergeOfKnownAddsNothing(once, calls, later);
    SortOfSortedIsSame(once);
  }

  /** The last millisecond of the (UTC) day holding `d`: `setHours(23, 59, 59, 999)`. */
  function EndOfDay(d: int): (e: int)
    ensures d <= e < d + DayMs
    ensures e / DayMs == d / DayMs
    ensures e % DayMs == DayMs - 1
  {
    d - d % DayMs + DayMs - 1
  }

  /** The filter callback of get-persistent-call-history, branch by branch. */
  predicate InRange(call: CallRecord, startDate: Option<int>, endDate: Option<int>)
    ensures InRange(call, startDate, endDate) <==>
              && (startDate.Some? ==> call.timestamp >= startDate.value)
              && (endDate.Some? ==> call.timestamp <= EndOfDay(endDate.value))
  {
    if startDate.Some? && endDate.Some? then
      call.timestamp >= startDate.value && call.timestamp <= EndOfDay(endDate.value)
    else if startDate.Some? then call.timestamp >= startDate.value
    else if endDate.Some? then call.timestamp <= EndOfDay(endDate.value)
    else true
  }

  function FilterRange(history: seq<CallRecord>, startDate: Option<int>, endDate: Option<int>): (r: seq<CallRecord>)
    ensures forall x :: x in r <==> x in history && InRange(x, startDate, endDate)
    ensures |r| <= |history|
  {
    if history == [] then []
    else
      (if InRange(history[0], startDate, endDate) then [history[0]] else [])
      + FilterRange(history[1..], startDate, endDate)
  }

  /** The date-range query: the start bound is inclusive and the end bound covers the whole
      of its day; with neither bound the history is returned as it is. */
  function Query(history: seq<CallRecord>, startDate: Option<int>, endDate: Option<int>): (r: seq<CallRecord>)
    ensures forall x :: x in r <==>
              && x in history
              && (startDate.Some? ==> x.timestamp >= startDate.value)
              && (endDate.Some? ==> x.timestamp <= EndOfDay(endDate.value))
    ensures startDate.None? && endDate.None? ==> r == history
  {
    if startDate.Some? || endDate.Some? then FilterRange(history, startDate, endDate) else history
  }

  /** Filtering keeps the newest-first order of the store. */
  lemma {:induction false} FilterKeepsNewestFirst(history: seq<CallRecord>, startDate: Option<int>, endDate: Option<int>)
    requires NewestFirst(history)
    ensures NewestFirst(FilterRange(history, startDate, endDate))
  {
    if history != [] {
      var rest := FilterRange(history[1..], startDate, endDate);
      FilterKeepsNewestFirst(history[1..], startDate, endDate);
      forall j | 0 <= j < |rest| ensures history[0].timestamp >= rest[j].timestamp {
        assert rest[j] in rest;
        var k :| 0 <= k < |history[1..]| && history[1..][k] == rest[j];
        assert history[k + 1] == rest[j];
      }
    }
  }
}
