/** The sliding-window limiter of mutation requests: one bucket of admission times per key. A
    refused call is an exception in the source and `false` here. */
module RateLimiters {
  import opened Common

  const WINDOW: real := 60.0

  datatype Call = Call(key: string, now: real)

  /** The times that lie in the closed interval from `a` to `b`. */
  function InWindow(times: seq<real>, a: real, b: real): (r: seq<real>)
    ensures |r| <= |times|
  {
    if times == [] then []
    else InWindow(times[..|times| - 1], a, b) + if a <= times[|times| - 1] <= b then [times[|times| - 1]] else []
  }

  /** What the limiter is for: a call is admitted when fewer than `limit` calls of its key were
      admitted in the minute before it. These are the times of the admitted calls of `key`. */
  function Admissions(limit: int, calls: seq<Call>, key: string): (times: seq<real>) {
    if calls == [] then []
    else
      var times, call := Admissions(limit, calls[..|calls| - 1], key), calls[|calls| - 1];
      if call.key == key && |InWindow(times, call.now - 60.0, call.now)| < limit then times + [call.now] else times
  }

  ghost predicate Nondecreasing(calls: seq<Call>) {
    forall i, j | 0 <= i <= j < |calls| :: calls[i].now <= calls[j].now
  }

  // Counting in sorted sequences

  ghost predicate Ordered(times: seq<real>) {
    forall i, j | 0 <= i <= j < |times| :: times[i] <= times[j]
  }

  /** If everything from `m` on lies in the window and nothing before it does, the window holds
      exactly what starts at `m`. */
  lemma {:induction false} WindowIsSuffix(times: seq<real>, m: nat, a: real, b: real)
    requires m <= |times|
    requires forall j | 0 <= j < m :: times[j] < a
    requires forall j | m <= j < |times| :: a <= times[j] <= b
    ensures InWindow(times, a, b) == times[m..]
  {
    if m < |times| {
      WindowIsSuffix(times[..|times| - 1], m, a, b);
    } else if times != [] {
      WindowIsSuffix(times[..|times| - 1], m - 1, a, b);
    }
  }

  lemma {:induction false} WindowAtLeast(times: seq<real>, m: nat, a: real, b: real)
    requires m <= |times| && forall j | m <= j < |times| :: a <= times[j] <= b
    ensures |InWindow(times, a, b)| >= |times| - m
  {
    if m < |times| {
      WindowAtLeast(times[..|times| - 1], m, a, b);
    }
  }

  lemma {:induction false} WindowAtMost(times: seq<real>, m: nat, a: real, b: real)
    requires m <= |times| && forall j | 0 <= j < m :: times[j] < a
    ensures |InWindow(times, a, b)| <= |times| - m
  {
    if m < |times| {
      WindowAtMost(times[..|times| - 1], m, a, b);
    } else if times != [] {
      WindowAtMost(times[..|times| - 1], m - 1, a, b);
    }
  }

  // Every window

  /** Any admission comes more than a minute after the one `limit` places before it. */
  ghost predicate Spaced(limit: int, times: seq<real>) {
    forall j | 0 < limit <= j < |times| :: times[j] - times[j - limit] > 60.0
  }

  lemma EarlierCalls(calls: seq<Call>, call: Call)
    requires Nondecreasing(calls + [call])
    ensures Nondecreasing(calls) && (calls != [] ==> calls[|calls| - 1].now <= call.now)
  {
    var longer := calls + [call];
    forall i, j | 0 <= i <= j < |calls| ensures calls[i].now <= calls[j].now {
      assert longer[i].now <= longer[j].now;
    }
    if calls != [] {
      assert longer[|calls| - 1].now <= longer[|calls|].now;
    }
  }

  /** The minute before `now` holds fewer than `limit` of the times only if the one `limit` places
      back is over a minute old. */
  lemma RoomMeansSpace(limit: int, times: seq<real>, now: real)
    requires 1 <= limit <= |times| && Ordered(times) && times[|times| - 1] <= now
    requires |InWindow(times, now - 60.0, now)| < limit
    ensures now - times[|times| - limit] > 60.0
  {
    var m := |times| - limit;
    if times[m] >= now - 60.0 {
      WindowAtLeast(times, m, now - 60.0, now);
      assert false;
    }
  }

  lemma {:induction false} AdmissionsAreSpaced(limit: int, calls: seq<Call>, key: string)
    requires limit >= 1 && Nondecreasing(calls)
    ensures var times := Admissions(limit, calls, key);
            && Ordered(times) && Spaced(limit, times)
            && (times != [] ==> calls != [] && times[|times| - 1] <= calls[|calls| - 1].now)
  {
    hide Nondecreasing, InWindow, Spaced, Ordered, Admissions;
    if calls == [] {
      NoAdmissions(limit, calls, key);
    } else {
      var before, call := calls[..|calls| - 1], calls[|calls| - 1];
      assert before + [call] == calls;
      EarlierCalls(before, call);
      AdmissionsAreSpaced(limit, before, key);
      AdmissionsAppend(limit, before, call, key);
      var times := Admissions(limit, before, key);
      if call.key == key && |InWindow(times, call.now - 60.0, call.now)| < limit {
        AdmittedIsSpaced(limit, times, call.now);
      }
    }
  }

  lemma NoAdmissions(limit: int, calls: seq<Call>, key: string)
    requires calls == []
    ensures Admissions(limit, calls, key) == []
    ensures Ordered(Admissions(limit, calls, key)) && Spaced(limit, Admissions(limit, calls, key))
  {
  }

  lemma AdmittedIsSpaced(limit: int, times: seq<real>, now: real)
    requires limit >= 1 && Ordered(times) && Spaced(limit, times) && (times != [] ==> times[|times| - 1] <= now)
    requires |InWindow(times, now - 60.0, now)| < limit
    ensures Ordered(times + [now]) && Spaced(limit, times + [now])
  {
    hide InWindow;
    if limit <= |times| {
      RoomMeansSpace(limit, times, now);
    }
  }

  lemma {:induction false} SpacedMeansBounded(limit: int, times: seq<real>, a: real)
    requires limit >= 1 && Ordered(times) && Spaced(limit, times)
    ensures |InWindow(times, a, a + 60.0)| <= limit
  {
    if times != [] {
      var last := times[|times| - 1];
      if a <= last <= a + 60.0 && |times| > limit {
        assert last - times[|times| - 1 - limit] > 60.0;
        WindowAtMost(times, |times| - limit, a, a + 60.0);
      } else {
        SpacedMeansBounded(limit, times[..|times| - 1], a);
      }
    }
  }

  /** For any nondecreasing clock and any calls, at most `limit` calls of a key are admitted in
      any closed interval of a minute. */
  lemma EveryMinuteIsBounded(limit: int, calls: seq<Call>, key: string, a: real)
    requires limit >= 1 && Nondecreasing(calls)
    ensures |InWindow(Admissions(limit, calls, key), a, a + 60.0)| <= limit
  {
    AdmissionsAreSpaced(limit, calls, key);
    SpacedMeansBounded(limit, Admissions(limit, calls, key), a);
  }

  /** What happens to one key does not depend on the calls of the others. */
  lemma {:induction false} KeysIndependent(limit: int, calls: seq<Call>, key: string)
    ensures Admissions(limit, calls, key) == Admissions(limit, CallsOf(calls, key), key)
  {
    hide InWindow, Admissions;
    if calls == [] {
      assert CallsOf(calls, key) == calls;
    } else {
      var before, call := calls[..|calls| - 1], calls[|calls| - 1];
      KeysIndependent(limit, before, key);
      assert before + [call] == calls;
      AdmissionsAppend(limit, before, call, key);
      if call.key == key {
        AdmissionsAppend(limit, CallsOf(before, key), call, key);
      } else {
        assert CallsOf(calls, key) == CallsOf(before, key) + [] == CallsOf(before, key);
      }
    }
  }

  function CallsOf(calls: seq<Call>, key: string): seq<Call> {
    if calls == [] then []
    else CallsOf(calls[..|calls| - 1], key) + if calls[|calls| - 1].key == key then [calls[|calls| - 1]] else []
  }

  // The limiter

  /** A missing bucket is an empty one. */
  function Bucket(events: map<string, seq<real>>, key: string): seq<real> {
    if key in events then events[key] else []
  }

  /** A bucket holds the latest admissions of its key; what it lost is over a minute old. */
  ghost predicate BucketOk(bucket: seq<real>, times: seq<real>, calls: seq<Call>) {
    && |bucket| <= |times| && bucket == times[|times| - |bucket|..]
    && (calls != [] ==> forall j | 0 <= j < |times| - |bucket| :: calls[|calls| - 1].now - times[j] > 60.0)
  }

  ghost predicate BucketsOk(limit: int, events: map<string, seq<real>>, calls: seq<Call>) {
    forall key: string :: BucketOk(Bucket(events, key), Admissions(limit, calls, key), calls)
  }

  /** Once trimmed, a bucket holds exactly the admissions of the last minute. */
  lemma TrimmedIsWindow(limit: int, calls: seq<Call>, key: string, bucket: seq<real>, popped: nat, now: real)
    requires limit >= 1 && Nondecreasing(calls + [Call(key, now)])
    requires BucketOk(bucket, Admissions(limit, calls, key), calls) && popped <= |bucket|
    requires forall j | 0 <= j < popped :: now - bucket[j] > 60.0
    requires popped < |bucket| ==> now - bucket[popped] <= 60.0
    ensures bucket[popped..] == InWindow(Admissions(limit, calls, key), now - 60.0, now)
    ensures BucketOk(bucket[popped..], Admissions(limit, calls, key), [Call(key, now)])
  {
    hide InWindow, Admissions, Nondecreasing;
    var times := Admissions(limit, calls, key);
    EarlierCalls(calls, Call(key, now));
    AdmissionsAreSpaced(limit, calls, key);
    SuffixIsWindow(times, |times| - |bucket|, popped, now);
  }

  lemma SuffixIsWindow(times: seq<real>, lost: nat, popped: nat, now: real)
    requires Ordered(times) && lost + popped <= |times| && (times != [] ==> times[|times| - 1] <= now)
    requires forall j | 0 <= j < lost :: now - times[j] > 60.0
    requires forall j | 0 <= j < popped :: now - times[lost..][j] > 60.0
    requires lost + popped < |times| ==> now - times[lost..][popped] <= 60.0
    ensures times[lost..][popped..] == InWindow(times, now - 60.0, now)
    ensures forall j | 0 <= j < lost + popped :: now - times[j] > 60.0
  {
    var m := lost + popped;
    forall j | 0 <= j < m ensures now - times[j] > 60.0 {
      if j >= lost {
        assert times[j] == times[lost..][j - lost];
      }
    }
    WindowIsSuffix(times, m, now - 60.0, now);
  }

  lemma AdmissionsAppend(limit: int, calls: seq<Call>, call: Call, key: string)
    ensures Admissions(limit, calls + [call], key)
         == var times := Admissions(limit, calls, key);
            if call.key == key && |InWindow(times, call.now - 60.0, call.now)| < limit then times + [call.now] else times
  {
    assert (calls + [call])[..|calls|] == calls;
  }

  /** The buckets after a call: its own becomes the last minute's admissions, the others stay. */
  lemma CallKeepsBuckets(limit: int, events: map<string, seq<real>>, calls: seq<Call>, call: Call, recent: seq<real>)
    requires BucketsOk(limit, events, calls) && Nondecreasing(calls + [call])
    requires recent == InWindow(Admissions(limit, calls, call.key), call.now - 60.0, call.now)
    requires BucketOk(recent, Admissions(limit, calls, call.key), [call])
    ensures BucketsOk(limit, events[call.key := if |recent| < limit then recent + [call.now] else recent], calls + [call])
  {
    hide InWindow, Admissions, BucketOk, Nondecreasing;
    var bucket := if |recent| < limit then recent + [call.now] else recent;
    var after := events[call.key := bucket];
    forall key: string ensures BucketOk(Bucket(after, key), Admissions(limit, calls + [call], key), calls + [call]) {
      AdmissionsAppend(limit, calls, call, key);
      if key == call.key {
        OwnBucket(recent, Admissions(limit, calls, key), calls, call);
      } else {
        assert BucketOk(Bucket(events, key), Admissions(limit, calls, key), calls);
        OtherBucket(limit, Bucket(events, key), calls, call, key);
      }
    }
  }

  lemma OwnBucket(recent: seq<real>, times: seq<real>, calls: seq<Call>, call: Call)
    requires BucketOk(recent, times, [call])
    ensures BucketOk(recent, times, calls + [call])
    ensures BucketOk(recent + [call.now], times + [call.now], calls + [call])
  {
  }

  lemma OtherBucket(limit: int, bucket: seq<real>, calls: seq<Call>, call: Call, key: string)
    requires BucketOk(bucket, Admissions(limit, calls, key), calls) && Nondecreasing(calls + [call])
    ensures BucketOk(bucket, Admissions(limit, calls, key), calls + [call])
  {
    hide InWindow, Nondecreasing;
    EarlierCalls(calls, call);
  }

  class MutationRateLimiter {
    const limit: int
    var events: map<string, seq<real>>
    ghost var calls: seq<Call>

    ghost predicate Valid()
      reads this
    {
      limit >= 1 && Nondecreasing(calls) && BucketsOk(limit, events, calls)
    }

    constructor (limitPerMinute: int)
      ensures Valid() && limit == Max(1, limitPerMinute) && events == map[] && calls == []
    {
      limit := Max(1, limitPerMinute);
      events := map[];
      calls := [];
    }

    /** With a clock that never goes back, a call is refused exactly when `limit` calls of its key
        were admitted in the minute before it, and its bucket then holds exactly those. */
    method Check(key: string, now: real) returns (ok: bool)
      requires Valid() && Nondecreasing(calls + [Call(key, now)])
      modifies this
      ensures Valid() && calls == old(calls) + [Call(key, now)]
      ensures var recent := InWindow(Admissions(limit, old(calls), key), now - 60.0, now);
              && |recent| <= limit
              && (!ok <==> |recent| == limit)
              && events == old(events)[key := if ok then recent + [now] else recent]
      ensures Admissions(limit, calls, key) == Admissions(limit, old(calls), key) + if ok then [now] else []
    {
      hide InWindow, Admissions, Nondecreasing, BucketsOk, BucketOk;
      ghost var start := Bucket(events, key);
      var bucket, popped := Trim(Bucket(events, key), now);
      BucketOf(limit, events, calls, key);
      TrimmedIsWindow(limit, calls, key, start, popped, now);
      AdmissionsAppend(limit, calls, Call(key, now), key);
      MinuteBefore(limit, calls, key, now);
      CallKeepsBuckets(limit, events, calls, Call(key, now), bucket);
      calls := calls + [Call(key, now)];
      events := events[key := bucket];
      assert events[key := bucket + [now]] == old(events)[key := bucket + [now]];
      if |bucket| >= limit {
        return false;
      }
      events := events[key := bucket + [now]];
      return true;
    }
  }

  /** Pops the admissions that are over a minute old from the front of a bucket. */
  method Trim(start: seq<real>, now: real) returns (bucket: seq<real>, ghost popped: nat)
    ensures popped <= |start| && bucket == start[popped..]
    ensures forall j | 0 <= j < popped :: now - start[j] > 60.0
    ensures bucket != [] ==> now - bucket[0] <= 60.0
  {
    bucket, popped := start, 0;
    while bucket != [] && now - bucket[0] > WINDOW
      invariant popped <= |start| && bucket == start[popped..]
      invariant forall j | 0 <= j < popped :: now - start[j] > 60.0
      decreases |bucket|
    {
      bucket, popped := bucket[1..], popped + 1;
    }
  }

  lemma BucketOf(limit: int, events: map<string, seq<real>>, calls: seq<Call>, key: string)
    requires BucketsOk(limit, events, calls)
    ensures BucketOk(Bucket(events, key), Admissions(limit, calls, key), calls)
  {
  }

  lemma MinuteBefore(limit: int, calls: seq<Call>, key: string, now: real)
    requires limit >= 1 && Nondecreasing(calls + [Call(key, now)])
    ensures |InWindow(Admissions(limit, calls, key), now - 60.0, now)| <= limit
  {
    EarlierCalls(calls, Call(key, now));
    EveryMinuteIsBounded(limit, calls, key, now - 60.0);
    assert now - 60.0 + 60.0 == now;
  }
}
