/** Connection retries with exponential backoff (internal/gateway/vsockclient.go, dialWithRetry). */
module DialRetry {
  import opened Int64

  datatype DialResult = Connected | Cancelled(attempts: int) | GaveUp(attempts: int)

  /** The wait after a wait of `b`: doubled in int64, then capped. */
  function NextBackoff(b: int, cap: int): int {
    var d := Wrap64(2 * b);
    if d > cap then cap else d
  }

  /** The i-th wait, counting from 0. */
  function Backoff(base: int, cap: int, i: nat): int {
    if i == 0 then base else NextBackoff(Backoff(base, cap, i - 1), cap)
  }

  function Schedule(base: int, cap: int, n: nat): (s: seq<int>)
    ensures |s| == n
  {
    seq(n, i requires 0 <= i => Backoff(base, cap, i))
  }

  /** `connects(i)` tells whether attempt `i` succeeds, `cancels(i)` whether the context ends
      during the wait before it.  The waits that elapsed are returned. */
  method DialWithRetry(retryMax: int, base: int, cap: int, connects: nat -> bool, cancels: nat -> bool)
    returns (r: DialResult, waits: seq<int>, attempts: nat)
    ensures waits == Schedule(base, cap, |waits|) && |waits| == (if attempts == 0 then 0 else attempts - 1)
    ensures forall i: nat :: i < attempts - 1 ==> !connects(i)
    ensures forall i: nat :: 0 < i < attempts ==> !cancels(i)
    ensures r.Connected? ==> 0 < attempts <= retryMax + 1 && connects(attempts - 1)
    ensures r.Cancelled? ==> 0 < attempts == r.attempts <= retryMax && cancels(attempts) && !connects(attempts - 1)
    ensures r.GaveUp? ==> attempts == (if retryMax < 0 then 0 else retryMax + 1) && r.attempts == retryMax + 1
    ensures r.GaveUp? && attempts > 0 ==> !connects(attempts - 1)
  {
    var backoff := base;
    waits, attempts := [], 0;
    while attempts <= retryMax
      invariant attempts <= (if retryMax < 0 then 0 else retryMax + 1)
      invariant |waits| == (if attempts == 0 then 0 else attempts - 1) && waits == Schedule(base, cap, |waits|)
      invariant backoff == Backoff(base, cap, |waits|)
      invariant forall i: nat :: i < attempts ==> !connects(i)
      invariant forall i: nat :: 0 < i < attempts ==> !cancels(i)
    {
      if attempts > 0 {
        if cancels(attempts) {
          return Cancelled(attempts), waits, attempts;
        }
        waits := waits + [backoff];
        backoff := Wrap64(backoff * 2);
        if backoff > cap {
          backoff := cap;
        }
      }
      attempts := attempts + 1;
      if connects(attempts - 1) {
        return Connected, waits, attempts;
      }
    }
    return GaveUp(retryMax + 1), waits, attempts;
  }

  /** The uncapped wait: base x 2^i. */
  function Grown(base: nat, i: nat): (g: nat) {
    if i == 0 then base else 2 * Grown(base, i - 1)
  }

  function Min(a: int, b: int): int {
    if a < b then a else b
  }

  /** What the schedule promises of wait `i`. */
  predicate AsPromised(base: nat, cap: nat, i: nat) {
    Backoff(base, cap, i) == Min(Grown(base, i), cap)
  }

  lemma WrapSmall(x: int)
    requires -I64 <= x < I64
    ensures Wrap64(x) == x
  {}

  lemma DoublingOverflows(x: int)
    requires I64 / 2 <= x < I64
    ensures Wrap64(2 * x) == 2 * x - 2 * I64 < 0
  {
    assert 2 * x + I64 == (2 * x - I64) + 2 * I64;
  }

  lemma {:induction false} GrownReaches(base: nat, i: nat)
    requires base > 0
    ensures Grown(base, i) >= i + 1
  {
    if i > 0 {
      GrownReaches(base, i - 1);
    }
  }

  /** The waits follow the promise while no doubling can overflow. */
  lemma {:induction false} PromiseKept(base: nat, cap: nat, i: nat)
    requires base <= cap < I64 && (cap < I64 / 2 || base == 0)
    ensures AsPromised(base, cap, i) && Backoff(base, cap, i) <= cap
  {
    if i > 0 {
      PromiseKept(base, cap, i - 1);
      if base == 0 {
        ZeroGrowth(i);
        ZeroGrowth(i - 1);
      }
      WrapSmall(2 * Backoff(base, cap, i - 1));
    }
  }

  lemma {:induction false} ZeroGrowth(i: nat)
    ensures Grown(0, i) == 0
  {
    if i > 0 {
      ZeroGrowth(i - 1);
    }
  }

  /** With a cap of 2^62 ns or more the wait that should stay at the cap is doubled past int64. */
  lemma PromiseBroken(base: nat, cap: nat)
    requires 0 < base <= cap < I64 && I64 / 2 <= cap
    ensures !AsPromised(base, cap, cap) || !AsPromised(base, cap, cap + 1)
  {
    GrownReaches(base, cap);
    DoublingOverflows(cap);
    if AsPromised(base, cap, cap) {
      assert Backoff(base, cap, cap + 1) == NextBackoff(cap, cap);
    }
  }

  /** Every wait is min(base x 2^i, cap) exactly when the base is within the cap and the cap is below
      2^62 ns (or nothing is waited). */
  lemma ScheduleExact(base: nat, cap: nat)
    requires base < I64 && cap < I64
    ensures (forall i: nat :: AsPromised(base, cap, i)) <==> base <= cap && (cap < I64 / 2 || base == 0)
  {
    if base > cap {
      assert !AsPromised(base, cap, 0);
    } else if cap < I64 / 2 || base == 0 {
      forall i: nat
        ensures AsPromised(base, cap, i)
      {
        PromiseKept(base, cap, i);
      }
    } else {
      PromiseBroken(base, cap);
    }
  }

  /** Every wait is within the cap if and only if the base is; only the first one can exceed it. */
  lemma WaitsCappedIff(base: int, cap: int)
    ensures (forall i: nat :: Backoff(base, cap, i) <= cap) <==> base <= cap
    ensures forall i: nat :: i > 0 ==> Backoff(base, cap, i) <= cap
  {
    assert Backoff(base, cap, 0) == base;
  }

  function SumOf(s: seq<int>): int {
    if s == [] then 0 else SumOf(s[..|s| - 1]) + s[|s| - 1]
  }

  function Max(a: int, b: int): int {
    if a < b then b else a
  }

  /** n waits together take at most n x cap, plus what the base exceeds the cap by. */
  lemma {:induction false} TotalWait(base: int, cap: int, n: nat)
    ensures SumOf(Schedule(base, cap, n)) <= n * cap + Max(0, base - cap)
    ensures n == 1 ==> SumOf(Schedule(base, cap, n)) == base
    decreases n
  {
    if n > 0 {
      TotalWait(base, cap, n - 1);
      var s := Schedule(base, cap, n);
      assert s[..n - 1] == Schedule(base, cap, n - 1);
      assert s[n - 1] == Backoff(base, cap, n - 1);
      OneMore(n, cap);
      if n == 1 {
        assert Schedule(base, cap, 0) == [];
      } else {
        WaitsCappedIff(base, cap);
      }
    }
  }

  /** Every number n of waits takes at most n x cap if and only if the base is within the cap, overflow
      or not. */
  lemma TotalWaitBounded(base: int, cap: int)
    ensures (forall n: nat :: SumOf(Schedule(base, cap, n)) <= n * cap) <==> base <= cap
  {
    forall n: nat
      ensures SumOf(Schedule(base, cap, n)) <= n * cap + Max(0, base - cap)
    {
      TotalWait(base, cap, n);
    }
    TotalWait(base, cap, 1);
    if base > cap {
      assert SumOf(Schedule(base, cap, 1)) > 1 * cap;
    }
  }
}
