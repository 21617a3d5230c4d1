/** The vsock context-id allocator (internal/orchestrator/orchestrator.go, cidAllocator).

    A cursor walks the configured range cyclically; `used` is the set of ids handed out.
    Arithmetic is on 32-bit unsigned integers, so wrap-around is written out. */
module CidAllocator {
  import opened Wrappers

  const U32: int := 0x1_0000_0000

  type Cid = x: int | 0 <= x < U32

  function Succ(min: Cid, max: Cid, c: Cid): Cid {
    if c == max then min else (c + 1) % U32
  }

  /** The probe budget of one call: max - min + 1 in uint32. */
  function Total(min: Cid, max: Cid): nat {
    (max - min + 1) % U32
  }

  /** Result and new cursor of probing at most `budget` ids from `next`. */
  function Scan(min: Cid, max: Cid, next: Cid, used: set<Cid>, budget: nat): (Option<Cid>, Cid)
    decreases budget
  {
    if budget == 0 then (None, next)
    else if next !in used then (Some(next), Succ(min, max, next))
    else Scan(min, max, Succ(min, max, next), used, budget - 1)
  }

  /** A range on which the 32-bit arithmetic is exact. */
  predicate RangeOk(min: Cid, max: Cid) {
    min <= max && max - min + 1 < U32
  }

  /** The id `i` places after `c` in cyclic order. */
  function At(min: Cid, max: Cid, c: Cid, i: nat): Cid
    requires RangeOk(min, max) && min <= c <= max && i <= Total(min, max)
  {
    if c + i <= max then c + i else c + i - Total(min, max)
  }

  lemma AtSucc(min: Cid, max: Cid, c: Cid, i: nat)
    requires RangeOk(min, max) && min <= c <= max && i < Total(min, max)
    ensures Total(min, max) == max - min + 1
    ensures min <= Succ(min, max, c) <= max
    ensures At(min, max, Succ(min, max, c), i) == At(min, max, c, i + 1)
    ensures Succ(min, max, At(min, max, c, i)) == At(min, max, c, i + 1)
  {
  }

  /** The ids less than `d` places after `c` are all taken. */
  ghost predicate TakenBefore(min: Cid, max: Cid, c: Cid, used: set<Cid>, d: nat)
    requires RangeOk(min, max) && min <= c <= max && d <= Total(min, max)
  {
    forall e: nat :: e < d ==> At(min, max, c, e) in used
  }

  lemma {:induction false} ScanProbes(min: Cid, max: Cid, next: Cid, used: set<Cid>, budget: nat) returns (d: nat)
    requires RangeOk(min, max) && min <= next <= max && budget <= Total(min, max)
    ensures d <= budget && TakenBefore(min, max, next, used, d)
    ensures d == budget ==> Scan(min, max, next, used, budget) == (None, At(min, max, next, d))
    ensures d < budget ==>
      var c := At(min, max, next, d);
      c !in used && Scan(min, max, next, used, budget) == (Some(c), At(min, max, next, d + 1))
    decreases budget
  {
    d := 0;
    if budget > 0 {
      AtSucc(min, max, next, 0);
      if next in used {
        var succ := Succ(min, max, next);
        var p := ScanProbes(min, max, succ, used, budget - 1);
        d := p + 1;
        forall e: nat | e < d ensures At(min, max, next, e) in used {
          if e > 0 {
            AtSucc(min, max, next, e - 1);
          }
        }
        AtSucc(min, max, next, p);
        if d < budget {
          AtSucc(min, max, next, d);
        }
      }
    }
  }

  /** `d` places from `c` is the way to reach `x`. */
  function Distance(min: Cid, max: Cid, c: Cid, x: Cid): (d: nat)
    requires RangeOk(min, max) && min <= c <= max && min <= x <= max
    ensures d < Total(min, max) && At(min, max, c, d) == x && (x != c ==> 0 < d)
  {
    if c <= x then x - c else x - c + Total(min, max)
  }

  /** Allocation is complete and cyclic: the first free id from the cursor is returned and the
      cursor moves just past it; when no id of the range is free the state is unchanged. */
  lemma AllocFirstFree(min: Cid, max: Cid, next: Cid, used: set<Cid>)
    requires RangeOk(min, max) && min <= next <= max
    ensures var (r, n) := Scan(min, max, next, used, Total(min, max));
            && min <= n <= max
            && (r.None? <==> forall c: Cid :: min <= c <= max ==> c in used)
            && (r.None? ==> n == next)
            && (r.Some? ==>
                  && min <= r.value <= max && r.value !in used && n == Succ(min, max, r.value)
                  && forall c: Cid :: min <= c <= max && c !in used ==>
                       Distance(min, max, next, r.value) <= Distance(min, max, next, c))
  {
    var d := ScanProbes(min, max, next, used, Total(min, max));
    if d < Total(min, max) {
      AtSucc(min, max, next, d);
      assert Distance(min, max, next, At(min, max, next, d)) == d;
    }
    forall c: Cid | min <= c <= max && c !in used ensures d <= Distance(min, max, next, c) {
      assert c == At(min, max, next, Distance(min, max, next, c));
    }
  }

  /** The supervisor fills in defaults but does not order the bounds.  A fresh allocator hands out
      an id of the configured range exactly when the range is one on which the arithmetic is exact. */
  lemma FirstAllocInRangeIff(min: Cid, max: Cid)
    ensures (var r := Scan(min, max, min, {}, Total(min, max)).0; r.Some? && min <= r.value <= max) <==> RangeOk(min, max)
  {
    var r := Scan(min, max, min, {}, Total(min, max)).0;
    if Total(min, max) > 0 {
      assert r == Some(min);
    }
    assert min <= max ==> (Total(min, max) == 0 <==> max - min + 1 == U32);
  }

  /** On an inverted range ids outside it are handed out. */
  lemma InvertedRangeEscapes()
    ensures Scan(10, 5, 11, {10}, Total(10, 5)) == (Some(11), 12)
  {
  }

  // ---- on any bounds ----

  /** Places from `min` to `c` on the circle of 32-bit ids. */
  function Offset(min: Cid, c: Cid): nat {
    if c >= min then c - min else c - min + U32
  }

  /** The ids that the cursor visits, whether or not the bounds are in order. */
  predicate InCycle(min: Cid, max: Cid, c: Cid) {
    Offset(min, c) < Total(min, max)
  }

  lemma OffsetSucc(min: Cid, max: Cid, c: Cid)
    requires InCycle(min, max, c)
    ensures InCycle(min, max, Succ(min, max, c))
    ensures c != max ==> Offset(min, Succ(min, max, c)) == Offset(min, c) + 1
    ensures Total(min, max) == Offset(min, max) + 1
  {
  }

  lemma {:induction false} ScanInCycle(min: Cid, max: Cid, next: Cid, used: set<Cid>, budget: nat)
    requires InCycle(min, max, next)
    ensures var (r, n) := Scan(min, max, next, used, budget);
            InCycle(min, max, n) && (r.Some? ==> InCycle(min, max, r.value))
    decreases budget
  {
    if budget > 0 {
      OffsetSucc(min, max, next);
      if next in used {
        ScanInCycle(min, max, Succ(min, max, next), used, budget - 1);
      }
    }
  }

  /** Whatever the range, the id returned is free. */
  lemma {:induction false} ScanFresh(min: Cid, max: Cid, next: Cid, used: set<Cid>, budget: nat)
    ensures var r := Scan(min, max, next, used, budget).0; r.Some? ==> r.value !in used
    decreases budget
  {
    if budget > 0 && next in used {
      ScanFresh(min, max, Succ(min, max, next), used, budget - 1);
    }
  }

  // ---- fairness over whole runs ----

  datatype Request = AllocRequest | FreeRequest(cid: Cid)

  /** Allocator state with its history: every id probed, and which probes were granted. */
  datatype History = History(next: Cid, used: set<Cid>, probes: seq<Cid>, grants: seq<nat>)

  /** The ids one scan looks at. */
  function Probes(min: Cid, max: Cid, next: Cid, used: set<Cid>, budget: nat): seq<Cid>
    decreases budget
  {
    if budget == 0 then []
    else if next !in used then [next]
    else [next] + Probes(min, max, Succ(min, max, next), used, budget - 1)
  }

  function Advance(min: Cid, max: Cid, h: History, op: Request): History {
    match op
    case FreeRequest(c) => h.(used := h.used - {c})
    case AllocRequest =>
      var (r, n) := Scan(min, max, h.next, h.used, Total(min, max));
      var probes := h.probes + Probes(min, max, h.next, h.used, Total(min, max));
      if r.None? || probes == [] then h.(next := n, probes := probes)
      else History(n, h.used + {r.value}, probes, h.grants + [|probes| - 1])
  }

  function Replay(min: Cid, max: Cid, ops: seq<Request>): History {
    if ops == [] then History(min, {}, [], [])
    else Advance(min, max, Replay(min, max, ops[..|ops| - 1]), ops[|ops| - 1])
  }

  /** Each probe follows the previous one in cyclic order, up to the cursor. */
  ghost predicate Chained(min: Cid, max: Cid, probes: seq<Cid>, next: Cid) {
    && (forall i :: 0 <= i < |probes| ==> min <= probes[i] <= max)
    && (forall i :: 0 <= i < |probes| - 1 ==> probes[i + 1] == Succ(min, max, probes[i]))
    && (probes != [] ==> next == Succ(min, max, probes[|probes| - 1]))
  }

  lemma {:induction false} ScanChains(min: Cid, max: Cid, next: Cid, used: set<Cid>, budget: nat)
    requires RangeOk(min, max) && min <= next <= max
    ensures var (r, n) := Scan(min, max, next, used, budget);
            var p := Probes(min, max, next, used, budget);
            && min <= n <= max && Chained(min, max, p, n)
            && (p != [] ==> p[0] == next) && (p == [] ==> n == next)
            && (r.Some? ==> p != [] && p[|p| - 1] == r.value)
    decreases budget
  {
    if budget > 0 && next in used {
      ScanChains(min, max, Succ(min, max, next), used, budget - 1);
    }
  }

  lemma {:induction false} RunChains(min: Cid, max: Cid, ops: seq<Request>)
    requires RangeOk(min, max)
    ensures var h := Replay(min, max, ops);
            && min <= h.next <= max && Chained(min, max, h.probes, h.next)
            && forall i :: 0 <= i < |h.grants| ==> h.grants[i] < |h.probes|
  {
    if ops != [] {
      RunChains(min, max, ops[..|ops| - 1]);
      var h := Replay(min, max, ops[..|ops| - 1]);
      ScanChains(min, max, h.next, h.used, Total(min, max));
    }
  }

  lemma {:induction false} ChainAt(min: Cid, max: Cid, probes: seq<Cid>, next: Cid, i: nat, s: nat)
    requires RangeOk(min, max) && Chained(min, max, probes, next) && i + s < |probes| && s <= Total(min, max)
    ensures probes[i + s] == At(min, max, probes[i], s)
  {
    if s > 0 {
      ChainAt(min, max, probes, next, i, s - 1);
      AtSucc(min, max, probes[i], s - 1);
    }
  }

  /** Between two allocations of one id, every other id of the range has been probed. */
  lemma ReuseOnlyAfterFullCycle(min: Cid, max: Cid, ops: seq<Request>, a: nat, b: nat, other: Cid)
    requires RangeOk(min, max)
    requires var h := Replay(min, max, ops);
             a < |h.grants| && b < |h.grants| && h.grants[a] < h.grants[b] < |h.probes|
             && h.probes[h.grants[a]] == h.probes[h.grants[b]] != other
    requires min <= other <= max
    ensures var h := Replay(min, max, ops);
            exists k :: h.grants[a] < k < h.grants[b] && h.probes[k] == other
  {
    var h := Replay(min, max, ops);
    RunChains(min, max, ops);
    var i, j := h.grants[a], h.grants[b];
    var c := h.probes[i];
    if j - i < Total(min, max) {
      ChainAt(min, max, h.probes, h.next, i, j - i);
      assert false;
    }
    var s := Distance(min, max, c, other);
    ChainAt(min, max, h.probes, h.next, i, s);
    assert h.probes[i + s] == other;
  }

  // ---- the imperative form ----

  class Allocator {
    const min: Cid
    const max: Cid
    var next: Cid
    var used: set<Cid>

    constructor (min: Cid, max: Cid)
      ensures this.min == min && this.max == max && next == min && used == {}
    {
      this.min, this.max, this.next, this.used := min, max, min, {};
    }

    method Alloc() returns (r: Option<Cid>)
      modifies this
      ensures (r, next) == Scan(min, max, old(next), old(used), Total(min, max))
      ensures used == old(used) + (if r.Some? then {r.value} else {})
    {
      var total := Total(min, max);
      var i := 0;
      while i < total
        invariant 0 <= i <= total && used == old(used)
        invariant Scan(min, max, next, used, total - i) == Scan(min, max, old(next), old(used), total)
      {
        var c := next;
        if next == max {
          next := min;
        } else {
          next := (next + 1) % U32;
        }
        if c !in used {
          used := used + {c};
          return Some(c);
        }
        i := i + 1;
      }
      return None;
    }

    method Free(cid: Cid)
      modifies this`used
      ensures used == old(used) - {cid}
    {
      used := used - {cid};
    }
  }
}
