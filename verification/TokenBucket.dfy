/** The token bucket of the rate limiter (internal/state/redis.go).

    One call of the Lua script refills the bucket for the elapsed time, clamps it to the
    capacity, and takes the cost when it is covered.  The window law below characterises
    its answers without mentioning tokens at all. */
module TokenBucket {

  /** Burst size and steady rate (tokens per second) of one key. */
  datatype Limit = Limit(capacity: real, refill: real)

  /** The Redis hash: absent (never written, or expired) or tokens with a millisecond stamp. */
  datatype Bucket = Absent | Stored(tokens: real, ts: int)

  /** One invocation of the script: the clock in milliseconds and the cost asked for. */
  datatype Call = Call(now: int, needed: real)

  function Seconds(ms: int): real {
    ms as real / 1000.0
  }

  /** Tokens gained in `ms` milliseconds. */
  function Gain(l: Limit, ms: int): real {
    Seconds(ms) * l.refill
  }

  function Max(x: real, y: real): real {
    if x < y then y else x
  }

  /** Tokens on hand at `now`, after refill and clamp. */
  function Available(l: Limit, b: Bucket, now: int): real {
    var tokens := if b.Absent? then l.capacity else b.tokens;
    var ts := if b.Absent? then now else b.ts;
    var elapsed := if now - ts < 0 then 0 else now - ts;
    var filled := tokens + Gain(l, elapsed);
    if filled > l.capacity then l.capacity else filled
  }

  predicate Grants(l: Limit, b: Bucket, c: Call) {
    Available(l, b, c.now) >= c.needed
  }

  /** What the script stores. */
  function After(l: Limit, b: Bucket, c: Call): Bucket {
    var tokens := Available(l, b, c.now);
    Stored(if tokens >= c.needed then tokens - c.needed else tokens, c.now)
  }

  /** The key's lifetime in seconds, as Allow computes it (conversion truncates toward zero). */
  function Ttl(l: Limit): int
    requires l.refill > 0.0
  {
    var ratio := l.capacity / l.refill;
    (if ratio < 0.0 then -((-ratio).Floor) else ratio.Floor) + 2
  }

  // ---- runs of a key that never expires ----

  /** The bucket before call `n`. */
  function Before(l: Limit, calls: seq<Call>, n: nat): Bucket
    requires n <= |calls|
  {
    if n == 0 then Absent else After(l, Before(l, calls, n - 1), calls[n - 1])
  }

  predicate Allowed(l: Limit, calls: seq<Call>, n: nat)
    requires n < |calls|
  {
    Grants(l, Before(l, calls, n), calls[n])
  }

  /** Cost taken by call `n`. */
  function Taken(l: Limit, calls: seq<Call>, n: nat): real
    requires n < |calls|
  {
    if Allowed(l, calls, n) then calls[n].needed else 0.0
  }

  /** Total cost granted to the calls `lo`, ..., `hi - 1`. */
  function Granted(l: Limit, calls: seq<Call>, lo: nat, hi: nat): real
    requires lo <= hi <= |calls|
    decreases hi
  {
    if lo == hi then 0.0
    else Granted(l, calls, lo, hi - 1) + Taken(l, calls, hi - 1)
  }

  predicate Monotone(calls: seq<Call>) {
    forall i, j :: 0 <= i <= j < |calls| ==> calls[i].now <= calls[j].now
  }

  /** What is left, just before call `n`, of the allowance of the window that opens at call `k`. */
  function Slack(l: Limit, calls: seq<Call>, k: nat, n: nat): real
    requires k <= n < |calls|
    decreases n
  {
    if k == n then l.capacity
    else Slack(l, calls, k, n - 1) - Taken(l, calls, n - 1) + Gain(l, calls[n].now - calls[n - 1].now)
  }

  lemma GainSplit(l: Limit, a: int, b: int)
    ensures Gain(l, a + b) == Gain(l, a) + Gain(l, b)
  {
    assert Seconds(a + b) == Seconds(a) + Seconds(b);
  }

  lemma {:induction false} SlackClosedForm(l: Limit, calls: seq<Call>, k: nat, n: nat)
    requires k <= n < |calls|
    ensures Slack(l, calls, k, n) == l.capacity + Gain(l, calls[n].now - calls[k].now) - Granted(l, calls, k, n)
  {
    if k == n {
      assert Gain(l, 0) == 0.0;
    } else {
      SlackClosedForm(l, calls, k, n - 1);
      GainSplit(l, calls[n - 1].now - calls[k].now, calls[n].now - calls[n - 1].now);
    }
  }

  /** Tokens on hand at call `n`. */
  function OnHand(l: Limit, calls: seq<Call>, n: nat): real
    requires n < |calls|
  {
    Available(l, Before(l, calls, n), calls[n].now)
  }

  /** From one call to the next the tokens lose the grant, gain the refill, and are clamped. */
  lemma OnHandStep(l: Limit, calls: seq<Call>, n: nat)
    requires Monotone(calls) && n + 1 < |calls|
    ensures var filled := OnHand(l, calls, n) - Taken(l, calls, n) + Gain(l, calls[n + 1].now - calls[n].now);
            OnHand(l, calls, n + 1) == if filled > l.capacity then l.capacity else filled
  {
    assert calls[n].now <= calls[n + 1].now;
    var b := Before(l, calls, n + 1);
    assert b == Stored(OnHand(l, calls, n) - Taken(l, calls, n), calls[n].now);
  }

  /** The tokens on hand never exceed the slack of any window... */
  lemma {:induction false} OnHandWithinSlack(l: Limit, calls: seq<Call>, k: nat, n: nat)
    requires Monotone(calls) && k <= n < |calls|
    ensures OnHand(l, calls, n) <= Slack(l, calls, k, n)
  {
    if k < n {
      OnHandWithinSlack(l, calls, k, n - 1);
      OnHandStep(l, calls, n - 1);
    }
  }

  /** ... and equal the slack of one of them. */
  lemma {:induction false} OnHandIsSomeSlack(l: Limit, calls: seq<Call>, n: nat) returns (k: nat)
    requires Monotone(calls) && n < |calls|
    ensures k <= n && OnHand(l, calls, n) == Slack(l, calls, k, n)
  {
    k := n;
    if n > 0 {
      var p := OnHandIsSomeSlack(l, calls, n - 1);
      OnHandStep(l, calls, n - 1);
      if OnHand(l, calls, n) != l.capacity {
        k := p;
      }
    }
  }

  /** The grants of the window that opens at call `k`, and this call's cost, are within its allowance. */
  predicate WindowFits(l: Limit, calls: seq<Call>, k: nat, n: nat)
    requires k <= n < |calls|
  {
    Granted(l, calls, k, n) + calls[n].needed <= l.capacity + Gain(l, calls[n].now - calls[k].now)
  }

  /** The window law: a call is granted exactly when, for every window that opens at an
      earlier call (or at this one) and ends now, what was granted in it plus this cost
      stays within capacity + refill x length.  No sign of capacity, rate or cost is assumed. */
  lemma WindowLaw(l: Limit, calls: seq<Call>, n: nat)
    requires Monotone(calls) && n < |calls|
    ensures Allowed(l, calls, n) <==> forall k: nat :: k <= n ==> WindowFits(l, calls, k, n)
  {
    var p := OnHandIsSomeSlack(l, calls, n);
    SlackClosedForm(l, calls, p, n);
    assert WindowFits(l, calls, p, n) ==> Allowed(l, calls, n);
    if Allowed(l, calls, n) {
      forall k: nat | k <= n ensures WindowFits(l, calls, k, n) {
        OnHandWithinSlack(l, calls, k, n);
        SlackClosedForm(l, calls, k, n);
      }
    }
  }

  lemma GainMonotone(l: Limit, a: int, b: int)
    requires l.refill >= 0.0 && a <= b
    ensures Gain(l, a) <= Gain(l, b)
  {
    assert Seconds(a) <= Seconds(b);
  }

  /** Hence every window's total is bounded, whatever the mix of granted and denied calls. */
  lemma {:induction false} WindowTotalBounded(l: Limit, calls: seq<Call>, k: nat, n: nat)
    requires Monotone(calls) && k <= n < |calls| && l.refill >= 0.0
    ensures Granted(l, calls, k, n + 1) <= Max(0.0, l.capacity + Gain(l, calls[n].now - calls[k].now))
  {
    if Allowed(l, calls, n) {
      WindowLaw(l, calls, n);
      assert WindowFits(l, calls, k, n);
    } else if k < n {
      WindowTotalBounded(l, calls, k, n - 1);
      GainMonotone(l, calls[n - 1].now - calls[k].now, calls[n].now - calls[k].now);
    }
  }

  /** The allowance of a window in numbers: `refill` tokens for every thousand milliseconds. */
  lemma GainMeans(l: Limit, ms: int)
    ensures 1000.0 * Gain(l, ms) == ms as real * l.refill
  {
    assert 1000.0 * Seconds(ms) == ms as real;
  }

  // ---- the law needs the monotone clock, and nothing else ----

  /** The window law at every call of the series. */
  ghost predicate LawHolds(l: Limit, calls: seq<Call>) {
    forall n: nat :: n < |calls| ==> (Allowed(l, calls, n) <==> forall k: nat :: k <= n ==> WindowFits(l, calls, k, n))
  }

  function CallsAt(clock: seq<int>, costs: seq<real>): (calls: seq<Call>)
    requires |clock| == |costs|
    ensures |calls| == |clock|
  {
    seq(|clock|, i requires 0 <= i < |clock| => Call(clock[i], costs[i]))
  }

  predicate NonDecreasing(clock: seq<int>) {
    forall i :: 0 <= i < |clock| - 1 ==> clock[i] <= clock[i + 1]
  }

  lemma {:induction false} Ordered(clock: seq<int>, i: nat, j: nat)
    requires NonDecreasing(clock) && i <= j < |clock|
    ensures clock[i] <= clock[j]
  {
    if i < j {
      Ordered(clock, i, j - 1);
      assert clock[j - 1] <= clock[j - 1 + 1];
    }
  }

  /** Nothing is asked for before the clock steps back, and then the whole capacity. */
  function StepBackCosts(l: Limit, n: nat, i: nat): (costs: seq<real>)
    ensures |costs| == n
  {
    seq(n, j => if j == i then l.capacity else 0.0)
  }

  /** While nothing is asked for, the bucket stays full whatever the clock does. */
  lemma {:induction false} StaysFull(l: Limit, calls: seq<Call>, n: nat)
    requires l.refill >= 0.0 && n < |calls| && forall i :: 0 <= i < n ==> calls[i].needed == 0.0
    ensures OnHand(l, calls, n) == l.capacity
  {
    assert Gain(l, 0) == 0.0;
    if n > 0 {
      StaysFull(l, calls, n - 1);
      var b := Before(l, calls, n);
      GainMonotone(l, 0, if calls[n].now < b.ts then 0 else calls[n].now - b.ts);
    }
  }

  /** A step back of the clock breaks the law, for every limit and wherever it happens. */
  lemma StepBackBreaksLaw(l: Limit, clock: seq<int>, i: nat)
    requires l.refill > 0.0 && i + 1 < |clock| && clock[i + 1] < clock[i]
    ensures var calls := CallsAt(clock, StepBackCosts(l, |clock|, i + 1));
            Allowed(l, calls, i + 1) && !WindowFits(l, calls, i, i + 1)
  {
    var calls := CallsAt(clock, StepBackCosts(l, |clock|, i + 1));
    StaysFull(l, calls, i + 1);
    assert calls[i].needed == 0.0 && Taken(l, calls, i) == 0.0;
    assert Granted(l, calls, i, i + 1) == Granted(l, calls, i, i) + Taken(l, calls, i) == 0.0;
    StepBackLoses(l, calls[i].now - calls[i + 1].now);
    assert calls[i + 1].now - calls[i].now == -(calls[i].now - calls[i + 1].now);
  }

  lemma StepBackLoses(l: Limit, ms: int)
    requires l.refill > 0.0 && ms > 0
    ensures Gain(l, -ms) < 0.0
  {
    assert Seconds(-ms) < 0.0;
  }

  /** For given clock readings the window law holds whatever the calls cost if and only if the
      readings do not decrease. */
  lemma LawIffClockMonotone(l: Limit, clock: seq<int>)
    requires l.refill > 0.0
    ensures (forall costs: seq<real> | |costs| == |clock| :: LawHolds(l, CallsAt(clock, costs))) <==> NonDecreasing(clock)
  {
    if NonDecreasing(clock) {
      forall costs: seq<real> | |costs| == |clock| ensures LawHolds(l, CallsAt(clock, costs)) {
        LawHoldsInOrder(l, clock, costs);
      }
    } else {
      var i :| 0 <= i < |clock| - 1 && clock[i] > clock[i + 1];
      StepBackBreaksLaw(l, clock, i);
      assert !LawHolds(l, CallsAt(clock, StepBackCosts(l, |clock|, i + 1)));
    }
  }

  lemma LawHoldsInOrder(l: Limit, clock: seq<int>, costs: seq<real>)
    requires NonDecreasing(clock) && |costs| == |clock|
    ensures LawHolds(l, CallsAt(clock, costs))
  {
    var calls := CallsAt(clock, costs);
    forall i, j | 0 <= i <= j < |calls| ensures calls[i].now <= calls[j].now {
      Ordered(clock, i, j);
    }
    forall n: nat | n < |calls|
      ensures Allowed(l, calls, n) <==> forall k: nat :: k <= n ==> WindowFits(l, calls, k, n)
    {
      WindowLaw(l, calls, n);
    }
  }

  // ---- runs of a key that expires ----

  /** The stored bucket before call `n` when the key is found missing at the calls marked `lost`. */
  function BeforeExpiring(l: Limit, calls: seq<Call>, lost: seq<bool>, n: nat): Bucket
    requires n <= |calls| == |lost|
    decreases n, 0
  {
    if n == 0 then Absent else After(l, SeenExpiring(l, calls, lost, n - 1), calls[n - 1])
  }

  /** The bucket the script reads at call `n`. */
  function SeenExpiring(l: Limit, calls: seq<Call>, lost: seq<bool>, n: nat): Bucket
    requires n < |calls| == |lost|
    decreases n, 1
  {
    if lost[n] then Absent else BeforeExpiring(l, calls, lost, n)
  }

  /** A key is lost only once its lifetime, counted from its last write, is over.  It may
      also be found later than that, so both readings of the expiry instant are covered. */
  ghost predicate ExpiresOnTime(l: Limit, calls: seq<Call>, lost: seq<bool>)
    requires |calls| == |lost| && l.refill > 0.0
  {
    forall n: nat :: n < |calls| && lost[n] && BeforeExpiring(l, calls, lost, n).Stored? ==>
      calls[n].now >= BeforeExpiring(l, calls, lost, n).ts + 1000 * Ttl(l)
  }

  lemma ScaleMonotone(x: real, y: real, r: real)
    requires x <= y && r > 0.0
    ensures x * r <= y * r
  {
  }

  /** Two seconds more than the whole seconds that a full refill takes. */
  lemma TtlMeans(l: Limit)
    requires l.refill > 0.0 && l.capacity >= 0.0
    ensures var whole := Ttl(l) - 2;
            whole as real * l.refill <= l.capacity < (whole + 1) as real * l.refill
  {
    var ratio := l.capacity / l.refill;
    WholeSeconds(l, ratio, Ttl(l) - 2);
  }

  lemma WholeSeconds(l: Limit, ratio: real, whole: int)
    requires l.refill > 0.0 && l.capacity >= 0.0 && ratio * l.refill == l.capacity
    requires whole == if ratio < 0.0 then -((-ratio).Floor) else ratio.Floor
    ensures whole as real * l.refill <= l.capacity < (whole + 1) as real * l.refill
  {
    if ratio < 0.0 {
      ScaleStrict(ratio, 0.0, l.refill);
    }
    assert whole as real <= ratio < (whole + 1) as real;
    ScaleMonotone(whole as real, ratio, l.refill);
    ScaleStrict(ratio, (whole + 1) as real, l.refill);
  }

  lemma ScaleStrict(x: real, y: real, r: real)
    requires x < y && r > 0.0
    ensures x * r < y * r
  {
  }

  /** The lifetime is long enough for a full refill. */
  lemma TtlCoversRefill(l: Limit)
    requires l.refill > 0.0
    ensures l.capacity <= Gain(l, 1000 * Ttl(l))
  {
    var ratio := l.capacity / l.refill;
    assert ratio * l.refill == l.capacity;
    var ttl := Ttl(l);
    assert Seconds(1000 * ttl) == ttl as real;
    assert ratio <= ttl as real;
    ScaleMonotone(ratio, ttl as real, l.refill);
  }

  /** Once the lifetime is over the bucket would have been full again. */
  lemma RefilledByExpiry(l: Limit, b: Bucket, now: int)
    requires l.refill > 0.0 && b.Stored? && b.tokens >= (if l.capacity < 0.0 then l.capacity else 0.0)
    requires now >= b.ts && now >= b.ts + 1000 * Ttl(l)
    ensures Available(l, b, now) == l.capacity
  {
    TtlCoversRefill(l);
    GainMonotone(l, 1000 * Ttl(l), now - b.ts);
    GainMonotone(l, 0, now - b.ts);
    assert Gain(l, 0) == 0.0;
  }

  /** Expiry is unobservable: the expiring key and the eternal one offer the same tokens,
      hence give the same answer, at every call. */
  lemma {:induction false} ExpiryUnobservable(l: Limit, calls: seq<Call>, lost: seq<bool>, n: nat)
    requires |calls| == |lost| && l.refill > 0.0 && ExpiresOnTime(l, calls, lost)
    requires Monotone(calls) && forall i :: 0 <= i < |calls| ==> calls[i].needed >= 0.0
    requires n < |calls|
    ensures Available(l, SeenExpiring(l, calls, lost, n), calls[n].now)
         == Available(l, Before(l, calls, n), calls[n].now)
    ensures Grants(l, SeenExpiring(l, calls, lost, n), calls[n]) == Allowed(l, calls, n)
    ensures Available(l, Before(l, calls, n), calls[n].now) >= (if l.capacity < 0.0 then l.capacity else 0.0)
  {
    if n > 0 {
      ExpiryUnobservable(l, calls, lost, n - 1);
      var b := Before(l, calls, n);
      assert BeforeExpiring(l, calls, lost, n) == b;
      assert calls[n - 1].now <= calls[n].now;
      GainMonotone(l, 0, calls[n].now - b.ts);
      assert Gain(l, 0) == 0.0;
      if lost[n] {
        RefilledByExpiry(l, b, calls[n].now);
      }
    }
  }

  // ---- the imperative form ----

  datatype Answer = Verdict(allowed: bool) | BadRefill

  /** A bucket hash together with its expiry instant (milliseconds). */
  datatype Entry = Entry(tokens: real, ts: int, expiresAt: int)

  /** The rate-limit keys of the store. */
  class Store {
    var buckets: map<string, Entry>

    constructor ()
      ensures buckets == map[]
    {
      buckets := map[];
    }

    /** What HMGET sees for `name` at `now`. */
    function Visible(name: string, now: int): Bucket
      reads this
    {
      if name in buckets && now < buckets[name].expiresAt then Stored(buckets[name].tokens, buckets[name].ts) else Absent
    }

    /** Only the key `name` is touched, and only when the rate is positive. */
    method Allow(name: string, capacity: real, refillPerSec: real, needed: real, now: int) returns (r: Answer)
      modifies this
      ensures refillPerSec <= 0.0 ==> r == BadRefill && buckets == old(buckets)
      ensures refillPerSec > 0.0 ==>
        var l, c, seen := Limit(capacity, refillPerSec), Call(now, needed), old(Visible(name, now));
        && r == Verdict(Grants(l, seen, c))
        && name in buckets && buckets == old(buckets)[name := buckets[name]]
        && Stored(buckets[name].tokens, buckets[name].ts) == After(l, seen, c)
        && buckets[name].expiresAt == now + 1000 * Ttl(l)
    {
      if refillPerSec <= 0.0 {
        return BadRefill;
      }
      var ttl := Ttl(Limit(capacity, refillPerSec));
      var tokens, ts := capacity, now;
      if name in buckets && now < buckets[name].expiresAt {
        tokens, ts := buckets[name].tokens, buckets[name].ts;
      }
      var elapsed := now - ts;
      if elapsed < 0 {
        elapsed := 0;
      }
      tokens := tokens + (elapsed as real / 1000.0) * refillPerSec;
      if tokens > capacity {
        tokens := capacity;
      }
      var allowed := false;
      if tokens >= needed {
        allowed, tokens := true, tokens - needed;
      }
      buckets := buckets[name := Entry(tokens, now, now + 1000 * ttl)];
      return Verdict(allowed);
    }
  }

  /** The key, if stored, is the never-expiring bucket with its lifetime counted from the last write. */
  ghost predicate Tracks(l: Limit, e: Entry, b: Bucket)
    requires l.refill > 0.0
  {
    b == Stored(e.tokens, e.ts) && e.expiresAt == e.ts + 1000 * Ttl(l)
  }

  /** The script cannot tell an expired bucket from the one that never expired. */
  lemma SameWhenExpired(l: Limit, b: Bucket, c: Call, seen: Bucket)
    requires l.refill > 0.0 && b.Stored? && b.tokens >= (if l.capacity < 0.0 then l.capacity else 0.0) && b.ts <= c.now
    requires seen == if c.now < b.ts + 1000 * Ttl(l) then b else Absent
    ensures Grants(l, seen, c) == Grants(l, b, c) && After(l, seen, c) == After(l, b, c)
  {
    if seen.Absent? {
      RefilledByExpiry(l, b, c.now);
      assert Gain(l, 0) == 0.0;
    }
  }

  /** The tokens left are never below zero (or a negative capacity). */
  lemma TokensStayUp(l: Limit, calls: seq<Call>, n: nat)
    requires l.refill > 0.0 && Monotone(calls) && forall i :: 0 <= i < |calls| ==> calls[i].needed >= 0.0
    requires 0 < n <= |calls|
    ensures Before(l, calls, n).tokens >= (if l.capacity < 0.0 then l.capacity else 0.0)
  {
    var never := seq(|calls|, i => false);
    ExpiryUnobservable(l, calls, never, n - 1);
  }

  /** Callers of one key, one after the other: the store answers as the never-expiring bucket, and
      so by the window law, although the key comes and goes. */
  method Serve(store: Store, name: string, l: Limit, calls: seq<Call>) returns (answers: seq<bool>)
    requires name !in store.buckets && l.refill > 0.0 && Monotone(calls)
    requires forall i :: 0 <= i < |calls| ==> calls[i].needed >= 0.0
    modifies store
    ensures |answers| == |calls| && forall n :: 0 <= n < |calls| ==> answers[n] == Allowed(l, calls, n)
  {
    answers := [];
    while |answers| < |calls|
      invariant |answers| <= |calls| && forall n :: 0 <= n < |answers| ==> answers[n] == Allowed(l, calls, n)
      invariant |answers| == 0 ==> name !in store.buckets
      invariant |answers| > 0 ==> name in store.buckets && Tracks(l, store.buckets[name], Before(l, calls, |answers|))
      invariant |answers| > 0 ==> Before(l, calls, |answers|).ts == calls[|answers| - 1].now
    {
      var n := |answers|;
      if n > 0 {
        TokensStayUp(l, calls, n);
        SameWhenExpired(l, Before(l, calls, n), calls[n], store.Visible(name, calls[n].now));
      }
      var r := store.Allow(name, l.capacity, l.refill, calls[n].needed, calls[n].now);
      answers := answers + [r.allowed];
    }
  }
}
