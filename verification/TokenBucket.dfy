/** The token-bucket script of the gateway: it refills lazily, writes only when it admits, and
    lets its key expire. It is compared with a bucket that refills eagerly and never forgets,
    and then with the arrival bound that a token bucket is meant to enforce.
  */
module TokenBucket {
  import opened KeyStore

  datatype Params = Params(rate: real, burst: real) {
    predicate Valid() { rate > 0.0 && burst >= 1.0 }
  }

  /** The hash behind one rate-limit key. */
  datatype Hash = Absent | Present(tokens: real, ts: real, expireAt: real)

  function Min(a: real, b: real): real { if a < b then a else b }

  function Ceil(x: real): int { -((-x).Floor) }

  /** The time to live of the key, in seconds. */
  function Lifetime(p: Params): real
    requires p.Valid()
  {
    (Ceil(p.burst / p.rate) + 2) as real
  }

  predicate Live(h: Hash, now: real) { h.Present? && now < h.expireAt }

  /** The tokens on hand at `now`; a missing or expired key means a full bucket. */
  function Available(p: Params, h: Hash, now: real): real {
    if Live(h, now) then Min(p.burst, h.tokens + Gain(p, h.ts, now)) else p.burst
  }

  /** One run of the script: the new hash, and whether the request is admitted. */
  function Script(p: Params, h: Hash, now: real): (r: (Hash, bool))
    requires p.Valid()
  {
    var delta := Available(p, h, now);
    if delta >= 1.0 then (Present(delta - 1.0, now, now + Lifetime(p)), true)
    else (h, false)
  }

  // ----- The eager bucket

  predicate Nondecreasing(times: seq<real>) {
    forall i, j :: 0 <= i <= j < |times| ==> times[i] <= times[j]
  }

  function Last(times: seq<real>): real
    requires times != []
  {
    times[|times| - 1]
  }

  function Front(times: seq<real>): seq<real>
    requires times != []
  {
    times[..|times| - 1]
  }

  /** The tokens that drip in between two moments. */
  function Gain(p: Params, from: real, to: real): real { (to - from) * p.rate }

  /** The tokens that drip in between the last two requests. */
  function LastGain(p: Params, times: seq<real>): real
    requires times != []
  {
    if |times| == 1 then 0.0 else Gain(p, Last(Front(times)), Last(times))
  }

  /** What the eager bucket holds after the requests of `times` are served. */
  function After(p: Params, times: seq<real>): real {
    if times == [] then p.burst
    else
      var level := Min(p.burst, After(p, Front(times)) + LastGain(p, times));
      if level >= 1.0 then level - 1.0 else level
  }

  /** What it holds when the last request of `times` arrives. */
  function Before(p: Params, times: seq<real>): real
    requires times != []
  {
    Min(p.burst, After(p, Front(times)) + LastGain(p, times))
  }

  /** Whether the eager bucket admits the last request of `times`. */
  predicate Admits(p: Params, times: seq<real>)
    requires times != []
  {
    Before(p, times) >= 1.0
  }

  /** The hash after the script has served all of `times`. */
  function HashAfter(p: Params, times: seq<real>): Hash
    requires p.Valid()
  {
    if times == [] then Absent else Script(p, HashAfter(p, Front(times)), Last(times)).0
  }

  /** The refill is the rate times the time. */
  lemma GainIs(p: Params, from: real, to: real)
    ensures Gain(p, from, to) == p.rate * (to - from)
  {
  }

  lemma GainMonotone(p: Params, a: real, b: real, c: real)
    requires p.Valid() && a <= b <= c
    ensures 0.0 <= Gain(p, b, c) <= Gain(p, a, c)
  {
  }

  lemma GainAdds(p: Params, a: real, b: real, c: real)
    ensures Gain(p, a, c) == Gain(p, a, b) + Gain(p, b, c)
  {
  }

  lemma {:induction false} LevelInRange(p: Params, times: seq<real>)
    requires p.Valid() && Nondecreasing(times)
    ensures 0.0 <= After(p, times) <= p.burst
    ensures times != [] ==> 0.0 <= LastGain(p, times) && 0.0 <= Before(p, times) <= p.burst
  {
    if times != [] {
      var front := Front(times);
      LevelInRange(p, front);
      if front != [] {
        GainMonotone(p, Last(front), Last(front), Last(times));
      }
    }
  }

  /** A key that has expired stands for a bucket that is full again. */
  lemma ExpiredMeansFull(p: Params, ts: real, now: real)
    requires p.Valid() && now >= ts + Lifetime(p)
    ensures Gain(p, ts, now) >= p.burst
  {
    var t := p.burst / p.rate;
    assert t * p.rate == p.burst;
    assert now - ts >= t;
    assert (now - ts - t) * p.rate >= 0.0;
  }

  /** The hash stands for `level` at time `at`: from then on it shows what an eager bucket with
      that level would hold. */
  ghost predicate Tracks(p: Params, h: Hash, level: real, at: real)
    requires p.Valid()
  {
    match h
    case Absent => level == p.burst
    case Present(tokens, ts, expireAt) =>
      && ts <= at && 0.0 <= tokens <= p.burst
      && level == Min(p.burst, tokens + Gain(p, ts, at))
      && expireAt == ts + Lifetime(p)
  }

  lemma TracksAvailable(p: Params, h: Hash, level: real, at: real, now: real)
    requires p.Valid() && Tracks(p, h, level, at) && at <= now
    ensures Available(p, h, now) == Min(p.burst, level + Gain(p, at, now))
  {
    GainMonotone(p, at, at, now);
    if h.Present? {
      GainAdds(p, h.ts, at, now);
      GainMonotone(p, h.ts, h.ts, at);
      if !Live(h, now) {
        ExpiredMeansFull(p, h.ts, now);
      }
    }
  }

  /** One request: the script decides as the eager bucket does, and the hash it leaves tracks
      what the bucket is left with. A reject leaves the hash alone. */
  lemma ServeTracks(p: Params, h: Hash, level: real, at: real, now: real)
    requires p.Valid() && Tracks(p, h, level, at) && at <= now && 0.0 <= level <= p.burst
    ensures var held := Min(p.burst, level + Gain(p, at, now)); var (h', ok) := Script(p, h, now);
      (ok <==> held >= 1.0) && Tracks(p, h', if ok then held - 1.0 else held, now)
  {
    TracksAvailable(p, h, level, at, now);
    GainMonotone(p, at, at, now);
    assert Gain(p, now, now) == 0.0;
  }

  lemma {:induction false} HashTracksLevel(p: Params, times: seq<real>)
    requires p.Valid() && Nondecreasing(times)
    ensures times == [] ==> HashAfter(p, times) == Absent
    ensures times != [] ==>
      && Tracks(p, HashAfter(p, times), After(p, times), Last(times))
      && (Script(p, HashAfter(p, Front(times)), Last(times)).1 <==> Admits(p, times))
  {
    if times != [] {
      var front := Front(times);
      HashTracksLevel(p, front);
      LevelInRange(p, front);
      var at := if front == [] then Last(times) else Last(front);
      assert LastGain(p, times) == Gain(p, at, Last(times));
      ServeTracks(p, HashAfter(p, front), After(p, front), at, Last(times));
    }
  }

  /** Refinement: not writing on a reject and expiring the key cannot be observed. The script
      admits exactly the requests that the eager bucket admits. */
  lemma ScriptRefinesBucket(p: Params, times: seq<real>)
    requires p.Valid() && times != [] && Nondecreasing(times)
    ensures Script(p, HashAfter(p, Front(times)), Last(times)).1 <==> Admits(p, times)
  {
    HashTracksLevel(p, times);
  }

  // ----- The arrival bound

  /** How many of the requests from index `k` on are admitted. */
  function Admitted(p: Params, times: seq<real>, k: nat): nat {
    if |times| <= k then 0 else Admitted(p, Front(times), k) + if Admits(p, times) then 1 else 0
  }

  /** Serving the requests from `k` on, the last of them included, one more would stay within
      burst plus refill. */
  predicate Conforms(p: Params, times: seq<real>, k: nat)
    requires k < |times|
  {
    Admitted(p, Front(times), k) as real + 1.0 <= p.burst + p.rate * (Last(times) - times[k])
  }

  /** The same with the refill of the bucket. */
  predicate WithinRefill(p: Params, times: seq<real>, k: nat)
    requires k < |times|
  {
    Admitted(p, Front(times), k) as real + 1.0 <= p.burst + Gain(p, times[k], Last(times))
  }

  lemma RefillIsRate(p: Params, times: seq<real>, k: nat)
    requires k < |times|
    ensures WithinRefill(p, times, k) <==> Conforms(p, times, k)
  {
    GainIs(p, times[k], Last(times));
  }

  /** The level is the tightest of the bounds over all earlier starting points. */
  lemma {:induction false} LevelIsTightestBound(p: Params, times: seq<real>, k: nat)
    requires p.Valid() && Nondecreasing(times) && k < |times|
    ensures Before(p, times) <= p.burst + Gain(p, times[k], Last(times)) - Admitted(p, Front(times), k) as real
  {
    var front := Front(times);
    if k < |front| {
      LevelIsTightestBound(p, front, k);
      GainAdds(p, times[k], Last(front), Last(times));
    } else {
      assert Admitted(p, front, k) == 0;
    }
  }

  lemma {:induction false} LevelAttainsBound(p: Params, times: seq<real>) returns (k: nat)
    requires p.Valid() && Nondecreasing(times) && times != []
    ensures k < |times|
    ensures Before(p, times) == p.burst + Gain(p, times[k], Last(times)) - Admitted(p, Front(times), k) as real
  {
    var front := Front(times);
    if front == [] || After(p, front) + LastGain(p, times) >= p.burst {
      k := |front|;
      assert Admitted(p, front, k) == 0;
      if front == [] {
        assert Before(p, times) == p.burst;
      }
    } else {
      k := LevelAttainsBound(p, front);
      GainAdds(p, times[k], Last(front), Last(times));
    }
  }

  lemma AdmittedIffWithinRefill(p: Params, times: seq<real>)
    requires p.Valid() && times != [] && Nondecreasing(times)
    ensures Script(p, HashAfter(p, Front(times)), Last(times)).1
      <==> forall k :: 0 <= k < |times| ==> WithinRefill(p, times, k)
  {
    ScriptRefinesBucket(p, times);
    if Admits(p, times) {
      forall k | 0 <= k < |times| ensures WithinRefill(p, times, k) {
        LevelIsTightestBound(p, times, k);
      }
    } else {
      var k := LevelAttainsBound(p, times);
      assert !WithinRefill(p, times, k);
    }
  }

  /** Exactly when a request is admitted: it keeps every window that ends with it within
      burst + rate * length. */
  lemma AdmittedIffConforming(p: Params, times: seq<real>)
    requires p.Valid() && times != [] && Nondecreasing(times)
    ensures Script(p, HashAfter(p, Front(times)), Last(times)).1
      <==> forall k :: 0 <= k < |times| ==> Conforms(p, times, k)
  {
    AdmittedIffWithinRefill(p, times);
    forall k | 0 <= k < |times| ensures WithinRefill(p, times, k) <==> Conforms(p, times, k) {
      RefillIsRate(p, times, k);
    }
  }

  /** The number of admitted requests with a time in [t1, t2]. */
  function AdmittedBetween(p: Params, times: seq<real>, t1: real, t2: real): nat {
    if times == [] then 0
    else AdmittedBetween(p, Front(times), t1, t2) + if t1 <= Last(times) <= t2 && Admits(p, times) then 1 else 0
  }

  lemma {:induction false} BetweenIsSuffix(p: Params, times: seq<real>, t1: real, t2: real, k: nat)
    requires p.Valid() && Nondecreasing(times) && k < |times| && t1 <= times[k] && Last(times) <= t2
    requires k > 0 ==> times[k - 1] < t1
    ensures AdmittedBetween(p, times, t1, t2) == Admitted(p, times, k)
  {
    if k < |times| - 1 {
      BetweenIsSuffix(p, Front(times), t1, t2, k);
    } else {
      NoneBefore(p, Front(times), t1, t2);
    }
  }

  lemma {:induction false} NoneBefore(p: Params, times: seq<real>, t1: real, t2: real)
    requires Nondecreasing(times) && (times != [] ==> Last(times) < t1)
    ensures AdmittedBetween(p, times, t1, t2) == 0
  {
    if times != [] {
      NoneBefore(p, Front(times), t1, t2);
    }
  }

  /** Rate bound: whatever requests come, at most burst + rate * (t2 - t1) of them are admitted
      between any two moments. */
  lemma {:induction false} RateBound(p: Params, times: seq<real>, t1: real, t2: real)
    requires p.Valid() && Nondecreasing(times) && t1 <= t2
    ensures AdmittedBetween(p, times, t1, t2) as real <= p.burst + p.rate * (t2 - t1)
  {
    GainMonotone(p, t1, t1, t2);
    GainIs(p, t1, t2);
    if times == [] {
    } else if Last(times) > t2 {
      RateBound(p, Front(times), t1, t2);
    } else if Last(times) < t1 {
      NoneBefore(p, times, t1, t2);
    } else {
      var k := |times| - 1;
      while k > 0 && times[k - 1] >= t1
        invariant 0 <= k < |times| && t1 <= times[k]
      {
        k := k - 1;
      }
      BetweenIsSuffix(p, times, t1, t2, k);
      LevelIsTightestBound(p, times, k);
      LevelInRange(p, times);
      GainAdds(p, t1, times[k], Last(times));
      GainAdds(p, t1, Last(times), t2);
      GainMonotone(p, t1, t1, times[k]);
      GainMonotone(p, Last(times), Last(times), t2);
    }
  }

  // ----- The middleware

  class RateLimit {
    const store: bool
    const capacity: int
    const rate: real
    var hash: Hash
    ghost var decided: seq<real>

    function P(): Params { Params(rate, capacity as real) }

    /** The hash is what the decided requests left behind. */
    ghost predicate Valid()
      reads this
    {
      rate > 0.0 && (capacity > 0 ==> P().Valid() && Nondecreasing(decided) && hash == HashAfter(P(), decided))
    }

    constructor (store: bool, capacity: int, rate: real)
      requires rate > 0.0
      ensures Valid() && decided == [] && this.store == store && this.capacity == capacity && this.rate == rate
    {
      this.store, this.capacity, this.rate := store, capacity, rate;
      hash, decided := Absent, [];
    }

    /** The script on the stored hash. */
    method Eval(now: real) returns (admitted: bool)
      requires rate > 0.0 && capacity > 0
      modifies this`hash
      ensures (hash, admitted) == Script(P(), old(hash), now)
    {
      var live := Live(hash, now);
      var tokens := if live then hash.tokens else capacity as real;
      var ts := if live then hash.ts else now;
      var delta := tokens + (now - ts) * rate;
      if delta > capacity as real {
        delta := capacity as real;
      }
      assert live ==> (now - ts) * rate == Gain(P(), hash.ts, now);
      assert delta == Available(P(), hash, now);
      if delta >= 1.0 {
        hash := Present(delta - 1.0, now, now + Lifetime(P()));
        return true;
      }
      return false;
    }

    /** A window that ends with the last request and begins with request `k` holds no more than the
        capacity and what drips in meanwhile. */
    ghost predicate WithinRate(times: seq<real>, k: nat)
      requires k < |times|
    {
      Admitted(P(), Front(times), k) as real + 1.0 <= capacity as real + rate * (Last(times) - times[k])
    }

    lemma ConformsToRate(times: seq<real>)
      requires P().Valid() && times != [] && Nondecreasing(times)
      ensures Script(P(), HashAfter(P(), Front(times)), Last(times)).1 <==>
        forall k :: 0 <= k < |times| ==> WithinRate(times, k)
    {
      AdmittedIffConforming(P(), times);
      forall k | 0 <= k < |times| ensures Conforms(P(), times, k) <==> WithinRate(times, k) {
        SameBound(times, k);
      }
    }

    lemma SameBound(times: seq<real>, k: nat)
      requires k < |times|
      ensures Conforms(P(), times, k) <==> WithinRate(times, k)
    {
    }

    /** Serve one request: without a store or capacity everything passes, and so does a request
        whose script call fails. Otherwise it passes exactly if every window that ends with it stays
        within its bound. */
    method Serve(now: real, f: Fault) returns (passed: bool)
      requires Valid() && (decided != [] ==> Last(decided) <= now)
      modifies this
      ensures Valid()
      ensures decided == if store && capacity > 0 && f.TakesEffect() then old(decided) + [now] else old(decided)
      ensures passed <==> (!store || capacity <= 0 || !f.Reports()
                           || forall k :: 0 <= k < |decided| ==> WithinRate(decided, k))
    {
      if !store || capacity <= 0 {
        return true;
      }
      passed := true;
      if f.TakesEffect() {
        var admitted := Eval(now);
        passed := admitted || !f.Reports();
        decided := decided + [now];
        assert Front(decided) == old(decided);
        ConformsToRate(decided);
      }
    }
  }

  lemma RateBoundOf(rate: real, burst: real, times: seq<real>, t1: real, t2: real)
    requires Params(rate, burst).Valid() && Nondecreasing(times) && t1 <= t2
    ensures AdmittedBetween(Params(rate, burst), times, t1, t2) as real <= burst + rate * (t2 - t1)
  {
    RateBound(Params(rate, burst), times, t1, t2);
  }

  /** The rate bound for a limiter: between any two moments no more requests pass than its capacity and
      what drips in at its rate. */
  lemma AdmittedWithinRate(l: RateLimit, times: seq<real>, t1: real, t2: real)
    requires l.rate > 0.0 && l.capacity > 0 && Nondecreasing(times) && t1 <= t2
    ensures AdmittedBetween(l.P(), times, t1, t2) as real <= l.capacity as real + l.rate * (t2 - t1)
  {
    RateBoundOf(l.rate, l.capacity as real, times, t1, t2);
  }
}
