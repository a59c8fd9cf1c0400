/** The fixed-window rate limit that all isolates share. */
module RateLimit {
  import opened Arithmetic
  import opened Wrappers

  /** The stored row of one key. */
  datatype Bucket = Bucket(windowStart: nat, count: nat)

  datatype Decision = Decision(allowed: bool, enforced: bool, remaining: int)

  /** What becomes of the upsert: counted and answered, counted with its answer lost, or never run. */
  datatype StoreOutcome = Answered | AnswerLost | NotApplied

  datatype RequiredLimit = Accepted | Refused(status: nat)

  function WindowStart(now: nat, windowMs: nat): nat
    requires windowMs > 0
  {
    WindowRemainder(now, windowMs);
    now - now % windowMs
  }

  lemma WindowRemainder(now: nat, windowMs: nat)
    requires windowMs > 0
    ensures 0 <= now % windowMs <= now && now % windowMs < windowMs
  {
    var q := now / windowMs;
    assert now == q * windowMs + now % windowMs;
    if q < 0 {
      MultiplesApart(q, 0, windowMs);
    }
  }

  /** The upsert: a later window resets the row, any other request counts into the stored window. */
  function Consume(bucket: Option<Bucket>, now: nat, windowMs: nat): Bucket
    requires windowMs > 0
  {
    var start := WindowStart(now, windowMs);
    if bucket.None? then Bucket(start, 1)
    else if bucket.value.windowStart < start then Bucket(start, 1)
    else Bucket(bucket.value.windowStart, bucket.value.count + 1)
  }

  class RateStore {
    var bucket: Option<Bucket>

    constructor ()
      ensures bucket == None
    {
      bucket := None;
    }

    /** Fails open: allowed and not enforced when the store does not answer. */
    method ConsumeRateLimit(limit: nat, windowMs: nat, now: nat, store: StoreOutcome) returns (d: Decision)
      requires windowMs > 0
      modifies this
      ensures bucket == if store.NotApplied? then old(bucket) else Some(Consume(old(bucket), now, windowMs))
      ensures !store.NotApplied? ==>
        var start := now - now % windowMs;
        bucket == Some(if old(bucket).None? || old(bucket).value.windowStart < start then Bucket(start, 1)
                       else Bucket(old(bucket).value.windowStart, old(bucket).value.count + 1))
      ensures d.enforced <==> store.Answered?
      ensures d.allowed <==> (store.Answered? ==> Consume(old(bucket), now, windowMs).count <= limit)
      ensures !d.enforced ==> d.remaining == limit
      ensures d.enforced && d.allowed ==> d.remaining + Consume(old(bucket), now, windowMs).count == limit
      ensures !d.allowed ==> d.remaining == 0
    {
      if store.NotApplied? {
        return Decision(true, false, limit);
      }
      var windowStart := WindowStart(now, windowMs);
      var row := if bucket.None? then Bucket(windowStart, 1)
        else Bucket(
          if bucket.value.windowStart < windowStart then windowStart else bucket.value.windowStart,
          if bucket.value.windowStart < windowStart then 1 else bucket.value.count + 1);
      bucket := Some(row);
      if store.AnswerLost? {
        return Decision(true, false, limit);
      }
      return Decision(row.count <= limit, true, if limit - row.count > 0 then limit - row.count else 0);
    }

    /** Fails closed: accepted only when the row was counted and the count is within the limit. */
    method RequireRateLimit(limit: nat, windowMs: nat, now: nat, store: StoreOutcome) returns (r: RequiredLimit)
      requires windowMs > 0
      modifies this
      ensures bucket == if store.NotApplied? then old(bucket) else Some(Consume(old(bucket), now, windowMs))
      ensures r.Accepted? <==> store.Answered? && bucket.Some? && bucket.value.count <= limit
      ensures r.Refused? ==> r.status == if store.Answered? then 429 else 503
    {
      var decision := ConsumeRateLimit(limit, windowMs, now, store);
      if !decision.enforced {
        return Refused(503);
      }
      if !decision.allowed {
        return Refused(429);
      }
      return Accepted;
    }
  }

  // ----- runs: one key, one limit, any interleaving, any clock readings, any store failures -----

  datatype Call = Call(now: nat, store: StoreOutcome)

  function Before(calls: seq<Call>): seq<Call>
    requires calls != []
  {
    calls[..|calls| - 1]
  }

  function Last(calls: seq<Call>): Call
    requires calls != []
  {
    calls[|calls| - 1]
  }

  /** The row after the calls: a call whose upsert never ran leaves it as it was. */
  function After(calls: seq<Call>, windowMs: nat): Option<Bucket>
    requires windowMs > 0
  {
    if calls == [] then None
    else if Last(calls).store.NotApplied? then After(Before(calls), windowMs)
    else Some(Consume(After(Before(calls), windowMs), Last(calls).now, windowMs))
  }

  /** The last call is counted, into the stored window that starts at start. */
  predicate CountedInto(calls: seq<Call>, windowMs: nat, start: nat)
    requires windowMs > 0 && calls != []
  {
    !Last(calls).store.NotApplied? && After(calls, windowMs).value.windowStart == start
  }

  predicate WithinLimit(calls: seq<Call>, windowMs: nat, limit: nat)
    requires windowMs > 0 && calls != [] && !Last(calls).store.NotApplied?
  {
    After(calls, windowMs).value.count <= limit
  }

  /** Calls counted into the stored window that starts at start. */
  function CallsIn(calls: seq<Call>, windowMs: nat, start: nat): nat
    requires windowMs > 0
  {
    if calls == [] then 0
    else CallsIn(Before(calls), windowMs, start) + (if CountedInto(calls, windowMs, start) then 1 else 0)
  }

  /** Calls of that window that were enforced and allowed. */
  function AdmittedIn(calls: seq<Call>, windowMs: nat, limit: nat, start: nat): nat
    requires windowMs > 0
  {
    if calls == [] then 0
    else
      AdmittedIn(Before(calls), windowMs, limit, start)
      + (if CountedInto(calls, windowMs, start) && WithinLimit(calls, windowMs, limit) && Last(calls).store.Answered?
         then 1 else 0)
  }

  /** Calls of that window that were counted within the limit, but whose answer was lost. */
  function LostIn(calls: seq<Call>, windowMs: nat, limit: nat, start: nat): nat
    requires windowMs > 0
  {
    if calls == [] then 0
    else
      LostIn(Before(calls), windowMs, limit, start)
      + (if CountedInto(calls, windowMs, start) && WithinLimit(calls, windowMs, limit) && Last(calls).store.AnswerLost?
         then 1 else 0)
  }

  /** The stored window never moves back, and its count is the number of calls counted into it so far. */
  lemma {:induction false} RowCounts(calls: seq<Call>, windowMs: nat)
    requires windowMs > 0
    ensures After(calls, windowMs).None? ==> forall start: nat :: CallsIn(calls, windowMs, start) == 0
    ensures After(calls, windowMs).Some? ==>
      var row := After(calls, windowMs).value;
      && row.count == CallsIn(calls, windowMs, row.windowStart)
      && (forall start: nat :: start > row.windowStart ==> CallsIn(calls, windowMs, start) == 0)
    ensures calls != [] && After(Before(calls), windowMs).Some? ==>
      && After(calls, windowMs).Some?
      && After(Before(calls), windowMs).value.windowStart <= After(calls, windowMs).value.windowStart
  {
    hide WindowStart;
    if calls == [] {
    } else {
      RowCounts(Before(calls), windowMs);
    }
  }

  /** Every stored window counts exactly its first limit calls within the limit: it admits those of them
      whose answers arrived. */
  lemma {:induction false} WindowAdmits(calls: seq<Call>, windowMs: nat, limit: nat, start: nat)
    requires windowMs > 0
    ensures AdmittedIn(calls, windowMs, limit, start) + LostIn(calls, windowMs, limit, start)
         == Min(limit, CallsIn(calls, windowMs, start))
  {
    if calls == [] {
    } else {
      hide WindowStart, Consume;
      WindowAdmits(Before(calls), windowMs, limit, start);
      RowCounts(calls, windowMs);
    }
  }

  // ----- clocks that do not run backwards -----

  ghost predicate NonDecreasing(calls: seq<Call>) {
    forall i, j :: 0 <= i <= j < |calls| ==> calls[i].now <= calls[j].now
  }

  /** The start of a window is a multiple of its length, q times it. */
  lemma WindowIndex(now: nat, windowMs: nat) returns (q: nat)
    requires windowMs > 0
    ensures WindowStart(now, windowMs) == q * windowMs && q * windowMs <= now < q * windowMs + windowMs
  {
    WindowRemainder(now, windowMs);
    var d := now / windowMs;
    assert now == d * windowMs + now % windowMs;
    if d < 0 {
      MultiplesApart(d, 0, windowMs);
    }
    q := d;
  }

  lemma WindowMonotone(a: nat, b: nat, windowMs: nat)
    requires windowMs > 0 && a <= b
    ensures WindowStart(a, windowMs) <= WindowStart(b, windowMs)
  {
    hide WindowStart;
    var p := WindowIndex(a, windowMs);
    var q := WindowIndex(b, windowMs);
    if q < p {
      MultiplesApart(q, p, windowMs);
    }
  }

  /** An interval of one window length meets at most two windows. */
  lemma TwoWindows(from: nat, now: nat, windowMs: nat)
    requires windowMs > 0 && from <= now <= from + windowMs
    ensures WindowStart(now, windowMs) == WindowStart(from, windowMs)
         || WindowStart(now, windowMs) == WindowStart(from, windowMs) + windowMs
  {
    hide WindowStart;
    var p := WindowIndex(from, windowMs);
    var q := WindowIndex(now, windowMs);
    if q < p {
      MultiplesApart(q, p, windowMs);
    } else if q > p + 1 {
      MultiplesApart(p, p + 1, windowMs);
      MultiplesApart(p + 1, q, windowMs);
    } else if q == p + 1 {
      assert q * windowMs == p * windowMs + windowMs;
    }
  }

  /** No stored window is later than the window of a time that no call has passed. */
  lemma {:induction false} StoredAtMost(calls: seq<Call>, windowMs: nat, time: nat)
    requires windowMs > 0 && forall i :: 0 <= i < |calls| ==> calls[i].now <= time
    ensures After(calls, windowMs).Some? ==> After(calls, windowMs).value.windowStart <= WindowStart(time, windowMs)
  {
    hide WindowStart;
    if calls == [] {
    } else {
      StoredAtMost(Before(calls), windowMs, time);
      WindowMonotone(Last(calls).now, time, windowMs);
    }
  }

  /** With such clocks the stored window is the one the last counted call falls in. */
  lemma StoredWindow(calls: seq<Call>, windowMs: nat)
    requires windowMs > 0 && calls != [] && NonDecreasing(calls) && !Last(calls).store.NotApplied?
    ensures After(calls, windowMs).value.windowStart == WindowStart(Last(calls).now, windowMs)
  {
    hide WindowStart;
    StoredAtMost(Before(calls), windowMs, Last(calls).now);
  }

  /** Calls enforced and allowed with a clock reading in from..from + windowMs. */
  function AdmittedBetween(calls: seq<Call>, windowMs: nat, limit: nat, from: nat): nat
    requires windowMs > 0
  {
    if calls == [] then 0
    else
      AdmittedBetween(Before(calls), windowMs, limit, from)
      + (if from <= Last(calls).now <= from + windowMs && Last(calls).store.Answered?
            && WithinLimit(calls, windowMs, limit) then 1 else 0)
  }

  lemma {:induction false} BetweenIsTwoWindows(calls: seq<Call>, windowMs: nat, limit: nat, from: nat)
    requires windowMs > 0 && NonDecreasing(calls)
    ensures AdmittedBetween(calls, windowMs, limit, from)
         <= AdmittedIn(calls, windowMs, limit, WindowStart(from, windowMs))
          + AdmittedIn(calls, windowMs, limit, WindowStart(from, windowMs) + windowMs)
  {
    hide WindowStart, Consume, After;
    if calls == [] {
    } else {
      BetweenIsTwoWindows(Before(calls), windowMs, limit, from);
      if from <= Last(calls).now <= from + windowMs && Last(calls).store.Answered? {
        StoredWindow(calls, windowMs);
        TwoWindows(from, Last(calls).now, windowMs);
      }
    }
  }

  /** No interval of one window length admits more than twice the limit. */
  lemma TwiceTheLimit(calls: seq<Call>, windowMs: nat, limit: nat, from: nat)
    requires windowMs > 0 && NonDecreasing(calls)
    ensures AdmittedBetween(calls, windowMs, limit, from) <= 2 * limit
  {
    hide WindowStart, AdmittedBetween, AdmittedIn, LostIn, CallsIn;
    BetweenIsTwoWindows(calls, windowMs, limit, from);
    WindowAdmits(calls, windowMs, limit, WindowStart(from, windowMs));
    WindowAdmits(calls, windowMs, limit, WindowStart(from, windowMs) + windowMs);
  }
}
