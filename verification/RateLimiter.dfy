/** The sliding-window rate limiter: a queue of hit times per key. A call drops the hits that have slid out
    of the window, is refused when as many as the limit are left, and is recorded otherwise. The queue is
    shown to decide as the rule it stands for does, which counts the allowed hits of the whole history, and
    a refused call to be told the exact time to wait. */
module RateLimiter {
  import opened Common

  /** A limit of zero or less finds no oldest hit to report once the queue is empty. */
  datatype Outcome = Allowed | Denied(retryAfter: int) | IndexError

  function Ceiling(x: real): int { -(-x).Floor }

  /** The queue without the hits that have slid out. */
  function Dropped(hits: seq<real>, start: real): seq<real> {
    if hits == [] || hits[0] > start then hits else Dropped(hits[1..], start)
  }

  /** One check: its outcome and the queue it leaves. */
  function Checked(hits: seq<real>, limit: int, window: int, now: real): (Outcome, seq<real>) {
    var live := Dropped(hits, now - window as real);
    if |live| >= limit then
      if live == [] then (IndexError, live)
      else (Denied(Max(1, Ceiling(live[0] + window as real - now))), live)
    else (Allowed, live + [now])
  }

  class InMemoryRateLimiter {
    var hits: map<string, seq<real>>

    constructor ()
      ensures hits == map[]
    {
      hits := map[];
    }

    function HitsOf(key: string): seq<real>
      reads this
    {
      if key in hits then hits[key] else []
    }

    /** Consumes one hit for the key at time `now`; no other key is affected. */
    method Check(key: string, limit: int, window: int, now: real) returns (outcome: Outcome)
      modifies this
      ensures (outcome, HitsOf(key)) == Checked(old(HitsOf(key)), limit, window, now)
      ensures forall other | other != key :: HitsOf(other) == old(HitsOf(other))
    {
      var windowStart := now - window as real;
      var queue := HitsOf(key);
      while queue != [] && queue[0] <= windowStart
        invariant Dropped(queue, windowStart) == Dropped(old(HitsOf(key)), windowStart)
        decreases |queue|
      {
        queue := queue[1..];
      }
      if |queue| >= limit {
        hits := hits[key := queue];
        if queue == [] {
          return IndexError;
        }
        return Denied(Max(1, Ceiling(queue[0] + window as real - now)));
      }
      hits := hits[key := queue + [now]];
      return Allowed;
    }

    method Reset()
      modifies this
      ensures forall key :: HitsOf(key) == []
    {
      hits := map[];
    }
  }

  // ---- a key used with one limit and one window

  /** How many of the hits fall in the interval `(after, upTo]`. */
  function Count(hits: seq<real>, after: real, upTo: real): nat {
    if hits == [] then 0
    else
      var last := hits[|hits| - 1];
      Count(hits[..|hits| - 1], after, upTo) + if after < last <= upTo then 1 else 0
  }

  /** The times of the calls that get through, by the rule itself: a call is allowed when fewer than
      `limit` of the window that ends with it were. */
  function AllowedHits(calls: seq<real>, limit: int, window: int): seq<real> {
    if calls == [] then []
    else
      var before, now := AllowedHits(calls[..|calls| - 1], limit, window), calls[|calls| - 1];
      if Count(before, now - window as real, now) < limit then before + [now] else before
  }

  /** The queue the limiter holds after the calls. */
  function Queue(calls: seq<real>, limit: int, window: int): seq<real> {
    if calls == [] then [] else Checked(Queue(calls[..|calls| - 1], limit, window), limit, window, calls[|calls| - 1]).1
  }

  ghost predicate Sorted(times: seq<real>) {
    forall i, j | 0 <= i < j < |times| :: times[i] <= times[j]
  }

  ghost predicate UpTo(times: seq<real>, end: real) {
    forall i | 0 <= i < |times| :: times[i] <= end
  }

  lemma {:induction false} AllowedHitsAreCalls(calls: seq<real>, limit: int, window: int, end: real)
    requires Sorted(calls) && UpTo(calls, end)
    ensures Sorted(AllowedHits(calls, limit, window)) && UpTo(AllowedHits(calls, limit, window), end)
  {
    hide Count;
    if calls != [] {
      var init, now := calls[..|calls| - 1], calls[|calls| - 1];
      assert UpTo(init, now);
      AllowedHitsAreCalls(init, limit, window, now);
    }
  }

  /** Dropping a sorted queue keeps the hits after `start`. */
  lemma {:induction false} DroppedIsSuffix(hits: seq<real>, start: real) returns (k: nat)
    requires Sorted(hits)
    ensures k <= |hits| && Dropped(hits, start) == hits[k..]
    ensures UpTo(hits[..k], start) && forall i | k <= i < |hits| :: hits[i] > start
  {
    if hits == [] || hits[0] > start {
      return 0;
    }
    var j := DroppedIsSuffix(hits[1..], start);
    k := j + 1;
    assert hits[1..][j..] == hits[k..];
    assert forall i | 0 < i < k :: hits[i] == hits[1..][..j][i - 1];
    assert forall i | k <= i < |hits| :: hits[i] == hits[1..][i - 1];
  }

  lemma {:induction false} CountSplits(a: seq<real>, b: seq<real>, after: real, upTo: real)
    ensures Count(a + b, after, upTo) == Count(a, after, upTo) + Count(b, after, upTo)
    decreases |b|
  {
    if b == [] {
      assert a + b == a;
    } else {
      var init := b[..|b| - 1];
      assert (a + b)[..|a + b| - 1] == a + init;
      CountSplits(a, init, after, upTo);
    }
  }

  lemma {:induction false} CountAll(hits: seq<real>, after: real, upTo: real)
    ensures (forall i | 0 <= i < |hits| :: hits[i] <= after) ==> Count(hits, after, upTo) == 0
    ensures (forall i | 0 <= i < |hits| :: after < hits[i] <= upTo) ==> Count(hits, after, upTo) == |hits|
  {
    if hits != [] {
      CountAll(hits[..|hits| - 1], after, upTo);
    }
  }

  /** The live part of the queue is as long as the window is full. */
  lemma LiveIsCount(hits: seq<real>, now: real, window: int)
    requires Sorted(hits) && UpTo(hits, now)
    ensures |Dropped(hits, now - window as real)| == Count(hits, now - window as real, now)
  {
    hide Dropped, Count;
    var start := now - window as real;
    var k := DroppedIsSuffix(hits, start);
    assert hits == hits[..k] + hits[k..];
    CountSplits(hits[..k], hits[k..], start, now);
    CountAll(hits[..k], start, now);
    CountAll(hits[k..], start, now);
  }

  /** Hits that have slid out already change nothing. */
  lemma {:induction false} ExpiredDoNotMatter(hits: seq<real>, k: nat, start: real)
    requires k <= |hits| && UpTo(hits[..k], start)
    ensures Dropped(hits, start) == Dropped(hits[k..], start)
  {
    if k > 0 {
      assert hits[..k][0] == hits[0];
      assert hits[1..][..k - 1] == hits[..k][1..];
      ExpiredDoNotMatter(hits[1..], k - 1, start);
      assert hits[1..][k - 1..] == hits[k..];
    }
  }

  /** The queue is the end of the allowed hits, and what it has forgotten had slid out by `now`. */
  lemma {:induction false} QueueIsTheEnd(calls: seq<real>, limit: int, window: int, now: real) returns (k: nat)
    requires Sorted(calls) && UpTo(calls, now)
    ensures var hits := AllowedHits(calls, limit, window);
      k <= |hits| && Queue(calls, limit, window) == hits[k..] && UpTo(hits[..k], now - window as real)
  {
    hide Dropped, Count, Sorted, Checked, UpTo;
    if calls == [] {
      UpToNothing(now - window as real);
      return 0;
    }
    var init, last := calls[..|calls| - 1], calls[|calls| - 1];
    InitIsSorted(calls);
    var before := AllowedHits(init, limit, window);
    var j := QueueIsTheEnd(init, limit, window, last);
    AllowedHitsAreCalls(init, limit, window, last);
    NextQueue(before, j, limit, window, last);
    k := DroppedIsSuffix(before, last - window as real);
    assert (before + [last])[k..] == before[k..] + [last] && (before + [last])[..k] == before[..k];
    UpToLater(calls, now, before[..k], window);
  }

  lemma UpToNothing(end: real)
    ensures UpTo([], end)
  {
  }

  /** What is up to the last call less the window is so later on. */
  lemma UpToLater(calls: seq<real>, now: real, times: seq<real>, window: int)
    requires calls != [] && UpTo(calls, now) && UpTo(times, calls[|calls| - 1] - window as real)
    ensures UpTo(times, now - window as real)
  {
  }

  lemma InitIsSorted(calls: seq<real>)
    requires Sorted(calls) && calls != []
    ensures Sorted(calls[..|calls| - 1]) && UpTo(calls[..|calls| - 1], calls[|calls| - 1])
  {
  }

  /** One check of a queue that is the end of the allowed hits goes by the rule. */
  lemma NextQueue(hits: seq<real>, k: nat, limit: int, window: int, now: real)
    requires Sorted(hits) && UpTo(hits, now) && k <= |hits| && UpTo(hits[..k], now - window as real)
    ensures var (outcome, queue) := Checked(hits[k..], limit, window, now);
      var live, full := Dropped(hits, now - window as real), Count(hits, now - window as real, now) >= limit;
      && Dropped(hits[k..], now - window as real) == live && |live| == Count(hits, now - window as real, now)
      && (outcome == Allowed <==> !full)
      && queue == if full then live else live + [now]
  {
    hide Dropped, Count, Ceiling;
    ExpiredDoNotMatter(hits, k, now - window as real);
    LiveIsCount(hits, now, window);
  }

  /** Main result: the limiter refines the rule. After any calls with one limit and window, the next
      check allows exactly what the rule allows. */
  lemma LimiterRefinesRule(calls: seq<real>, limit: int, window: int, now: real)
    requires Sorted(calls) && UpTo(calls, now)
    ensures var hits, (outcome, queue) := AllowedHits(calls, limit, window),
      Checked(Queue(calls, limit, window), limit, window, now);
      && (outcome == Allowed <==> Count(hits, now - window as real, now) < limit)
      && (outcome == IndexError <==> Count(hits, now - window as real, now) == 0 && limit <= 0)
      && Dropped(Queue(calls, limit, window), now - window as real) == Dropped(hits, now - window as real)
  {
    hide Dropped, Count, Sorted, Ceiling;
    var k := QueueIsTheEnd(calls, limit, window, now);
    AllowedHitsAreCalls(calls, limit, window, now);
    NextQueue(AllowedHits(calls, limit, window), k, limit, window, now);
  }

  /** Never more than the limit of allowed hits in any window, wherever it ends. */
  lemma {:induction false} WindowNeverOverflows(calls: seq<real>, limit: int, window: int, t: real)
    requires Sorted(calls)
    ensures Count(AllowedHits(calls, limit, window), t - window as real, t) <= Max(limit, 0)
  {
    hide Count;
    if calls == [] {
      CountAll([], t - window as real, t);
    } else {
      var init, now := calls[..|calls| - 1], calls[|calls| - 1];
      WindowNeverOverflows(init, limit, window, t);
      var before := AllowedHits(init, limit, window);
      if Count(before, now - window as real, now) < limit {
        CountSplits(before, [now], t - window as real, t);
        CountOne(now, t - window as real, t);
        if t - window as real < now <= t {
          assert UpTo(init, now);
          AllowedHitsAreCalls(init, limit, window, now);
          NarrowerCountsFewer(before, now - window as real, now, t - window as real, t);
        }
      }
    }
  }

  lemma CountOne(x: real, after: real, upTo: real)
    ensures Count([x], after, upTo) == if after < x <= upTo then 1 else 0
  {
    assert [x][..0] == [];
  }

  lemma {:induction false} NarrowerCountsFewer(hits: seq<real>, after: real, now: real, later: real, upTo: real)
    requires UpTo(hits, now) && after <= later
    ensures Count(hits, later, upTo) <= Count(hits, after, now)
  {
    if hits != [] {
      NarrowerCountsFewer(hits[..|hits| - 1], after, now, later, upTo);
    }
  }

  /** A call is refused only when its window is already full, and the number of seconds it is told to
      wait is the least whole number after which an undisturbed call would be allowed. */
  lemma RetryAfterIsExact(calls: seq<real>, limit: int, window: int, now: real, seconds: int)
    requires Sorted(calls) && UpTo(calls, now) && limit >= 1 && seconds >= 0
    requires Checked(Queue(calls, limit, window), limit, window, now).0 != Allowed
    ensures var outcome := Checked(Queue(calls, limit, window), limit, window, now).0;
      && Count(AllowedHits(calls, limit, window), now - window as real, now) == limit
      && outcome.Denied? && outcome.retryAfter >= 1
      && (seconds >= outcome.retryAfter <==>
            Count(AllowedHits(calls, limit, window), now + seconds as real - window as real,
                  now + seconds as real) < limit)
  {
    hide Dropped, Count;
    var hits := AllowedHits(calls, limit, window);
    AllowedHitsAreCalls(calls, limit, window, now);
    LimiterRefinesRule(calls, limit, window, now);
    WindowNeverOverflows(calls, limit, window, now);
    var start := now - window as real;
    LiveIsCount(hits, now, window);
    var k := DroppedIsSuffix(hits, start);
    var live := hits[k..];
    assert live[0] == hits[k];
    SlotFreesWhenOldestLeaves(hits, k, limit, window, now, now + seconds as real);
    CeilingIsLeast(hits[k] + window as real - now, seconds);
  }

  lemma CeilingIsLeast(x: real, n: int)
    ensures n as real >= x <==> n >= Ceiling(x)
  {
  }

  /** With the window exactly full, a slot is free as soon as its oldest hit has slid out. */
  lemma SlotFreesWhenOldestLeaves(hits: seq<real>, k: nat, limit: int, window: int, now: real, later: real)
    requires Sorted(hits) && UpTo(hits, now) && now <= later && k < |hits| && |hits| - k == limit
    requires UpTo(hits[..k], now - window as real)
    ensures Count(hits, later - window as real, later) < limit <==> hits[k] <= later - window as real
  {
    hide Dropped, Count;
    assert UpTo(hits, later);
    LiveIsCount(hits, later, window);
    var m := DroppedIsSuffix(hits, later - window as real);
    if m > k {
      assert hits[..m][k] == hits[k];
    }
  }
}
