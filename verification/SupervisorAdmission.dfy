/** Admission control under concurrency: the check and the insertion are separate critical
    sections, so the limits can be overshot by the launches that overlap, and by no more. */
module SupervisorAdmission {
  import opened CidAllocator
  import opened Int64
  import opened SupervisorModel
  import opened SupervisorSerial

  // ---- sums over maps ----

  lemma {:induction false} SumRemove<K(!new)>(m: map<K, int>, k: K)
    requires k in m
    ensures Sum(m) == m[k] + Sum(m - {k})
    decreases |m|
  {
    var p :| p in m && Sum(m) == m[p] + Sum(m - {p});
    if p != k {
      SumRemove(m - {p}, k);
      SumRemove(m - {k}, p);
      assert (m - {p}) - {k} == (m - {k}) - {p};
    }
  }

  lemma SumInsert<K(!new)>(m: map<K, int>, k: K, v: int)
    ensures Sum(m[k := v]) == v + Sum(m - {k})
  {
    SumRemove(m[k := v], k);
    assert m[k := v] - {k} == m - {k};
  }

  lemma SizeRemove<K>(m: map<K, int>, k: K)
    requires k in m
    ensures |m - {k}| == |m| - 1
  {
    assert (m - {k}).Keys == m.Keys - {k};
  }

  lemma {:induction false} SumBounds<K(!new)>(m: map<K, int>, bound: int)
    requires forall k :: k in m ==> 0 <= m[k] <= bound
    ensures 0 <= Sum(m) <= |m| * bound
    decreases |m|
  {
    if m != map[] {
      var k :| k in m;
      SizeRemove(m, k);
      SumRemove(m, k);
      SumBounds(m - {k}, bound);
      OneMore(|m|, bound);
    }
  }

  lemma AddWeight<K(!new)>(m: map<K, int>, k: K, v: int)
    requires k !in m
    ensures Sum(m[k := v]) == Sum(m) + v && |m[k := v]| == |m| + 1
  {
    SumInsert(m, k, v);
    assert m - {k} == m;
    SizeRemove(m[k := v], k);
    assert m[k := v] - {k} == m;
  }

  lemma DropWeight<K(!new)>(m: map<K, int>, k: K)
    requires k in m && m[k] >= 0
    ensures Sum(m - {k}) <= Sum(m) && |m - {k}| == |m| - 1
  {
    SumRemove(m, k);
    SizeRemove(m, k);
  }

  /** Moving a weight from one map to another, over whatever was there, adds nothing. */
  lemma MoveWeight<J(!new), K(!new)>(from: map<J, int>, j: J, into: map<K, int>, k: K)
    requires j in from && (k in into ==> into[k] >= 0)
    ensures Sum(from - {j}) + Sum(into[k := from[j]]) <= Sum(from) + Sum(into)
    ensures |from - {j}| + |into[k := from[j]]| <= |from| + |into|
  {
    SumRemove(from, j);
    SizeRemove(from, j);
    if k in into {
      SumInsert(into, k, from[j]);
      SumRemove(into, k);
      assert into[k := from[j]].Keys == into.Keys;
    } else {
      AddWeight(into, k, from[j]);
    }
  }

  // ---- what is tracked or in flight ----

  predicate InFlight(call: Call) {
    call.Admitted? || call.Booting? || (call.Unwinding? && call.rollback)
  }

  /** Memory of the boots that have been admitted and not yet inserted or rolled back. */
  function Flight(s: Sup): map<nat, int> {
    map c | c in s.calls && InFlight(s.calls[c]) :: s.calls[c].mem
  }

  ghost function Committed(s: Sup): int {
    Sum(Weights(s.inst)) + Sum(Flight(s))
  }

  lemma WeightsSize(inst: map<Id, Inst>)
    ensures |Weights(inst)| == |inst|
  {
    assert Weights(inst).Keys == inst.Keys;
  }

  ghost predicate SizesOk(s: Sup, largest: int) {
    && (forall id :: id in s.inst ==> 0 < s.inst[id].mem <= largest)
    && (forall c :: c in s.calls && InFlight(s.calls[c]) ==> 0 < s.calls[c].mem <= largest)
  }

  /** With at most `k` overlapping boots, this is the limit on their number... */
  ghost predicate CountOk(cfg: Config, s: Sup, k: int) {
    cfg.maxConcurrent > 0 ==> |s.inst| + |Flight(s)| <= cfg.maxConcurrent + k - 1
  }

  /** What the other boots can add. */
  function Slack(k: int, largest: int): int {
    (k - 1) * largest
  }

  /** ... and, if none asks for more than `largest` MiB, this is the limit on their memory. */
  ghost predicate MemoryOk(cfg: Config, s: Sup, k: int, largest: int) {
    TotalOk(cfg, Committed(s), Slack(k, largest))
  }

  predicate TotalOk(cfg: Config, total: int, slack: int) {
    cfg.memoryBudget > 0 ==> total <= cfg.memoryBudget + slack
  }

  /** The 64-bit test of the memory budget decides the true one exactly when the true total
      fits in an int64; beyond that it wraps to a negative number and admits. */
  lemma BudgetTestExact(used: int, mem: int, budget: int)
    requires 0 <= used < I64 && 0 < mem < I64 && 0 < budget < I64
    ensures (Wrap64(Wrap64(used) + mem) <= budget <==> used + mem <= budget) <==> used + mem < I64
  {
    assert Wrap64(used) == used;
  }

  lemma ScaleMonotone(a: int, b: int, bound: int)
    requires a <= b && bound >= 0
    ensures a * bound <= b * bound
  {
  }

  /** Admission adds one boot to what is in flight and nothing else. */
  lemma AdmitAdds(cfg: Config, s: Sup, a: Action)
    requires Enabled(cfg, s, a) && a.Admit?
    ensures var t := Apply(cfg, s, a);
            && t.inst == s.inst && |Flight(t)| == |Flight(s)| + 1
            && Sum(Flight(t)) == Sum(Flight(s)) + a.mem
    ensures a.mem > 0 && AdmitOk(cfg, s.inst, a.mem)
  {
    AdmitFlight(cfg, s, a);
    AddWeight(Flight(s), a.c, a.mem);
  }

  lemma AdmitFlight(cfg: Config, s: Sup, a: Action)
    requires Enabled(cfg, s, a) && a.Admit?
    ensures a.c !in Flight(s) && Flight(Apply(cfg, s, a)) == Flight(s)[a.c := a.mem]
  {
  }

  lemma AdmitCount(cfg: Config, s: Sup, a: Action, k: int)
    requires Enabled(cfg, s, a) && a.Admit? && |Flight(Apply(cfg, s, a))| <= k
    ensures CountOk(cfg, Apply(cfg, s, a), k)
  {
    AdmitAdds(cfg, s, a);
  }

  /** An admitted request is within the budget as long as nothing can overflow. */
  lemma BudgetRespected(used: int, mem: int, budget: int)
    requires 0 <= used < I64 && 0 < mem < I64 && 0 < budget < I64 && used + mem < I64
    requires Wrap64(Wrap64(used) + mem) <= budget
    ensures used + mem <= budget
  {
    BudgetTestExact(used, mem, budget);
  }

  lemma {:induction false} SumNonNegative<K(!new)>(m: map<K, int>)
    requires forall k :: k in m ==> m[k] >= 0
    ensures Sum(m) >= 0
    decreases |m|
  {
    if m != map[] {
      var k :| k in m;
      SizeRemove(m, k);
      SumRemove(m, k);
      SumNonNegative(m - {k});
    }
  }

  lemma SumWithin<K(!new)>(m: map<K, int>, n: int, bound: int)
    requires |m| <= n && bound >= 0 && forall k :: k in m ==> 0 <= m[k] <= bound
    ensures 0 <= Sum(m) <= n * bound
  {
    SumBounds(m, bound);
    ScaleMonotone(|m|, n, bound);
  }

  /** Tracked memory and memory in flight, bounded by their number. */
  lemma FlightBounds(s: Sup, k: int, largest: int)
    requires SizesOk(s, largest) && largest >= 0 && |Flight(s)| <= k - 1
    ensures 0 <= Sum(Weights(s.inst)) && 0 <= Sum(Flight(s)) <= Slack(k, largest)
  {
    SumWithin(Flight(s), k - 1, largest);
    SumNonNegative(Weights(s.inst));
  }

  /** The arithmetic of one admission: `flight` is within `slack`. */
  lemma AdmitSum(cfg: Config, used: int, flight: int, mem: int, slack: int, largest: int)
    requires 0 <= used && 0 <= flight <= slack && 0 < mem <= largest
    requires TotalOk(cfg, used + flight, slack) && BudgetOk(cfg, used, mem) && cfg.memoryBudget + slack + largest < I64
    ensures TotalOk(cfg, used + (flight + mem), slack)
  {
    if cfg.memoryBudget > 0 {
      BudgetRespected(used, mem, cfg.memoryBudget);
    }
  }

  lemma AdmitMemory(cfg: Config, s: Sup, a: Action, k: int, largest: int)
    requires SizesOk(s, largest) && MemoryOk(cfg, s, k, largest) && Enabled(cfg, s, a) && a.Admit? && a.mem <= largest
    requires cfg.memoryBudget + Slack(k, largest) + largest < I64 && |Flight(Apply(cfg, s, a))| <= k
    ensures MemoryOk(cfg, Apply(cfg, s, a), k, largest)
  {
    AdmitAdds(cfg, s, a);
    FlightBounds(s, k, largest);
    AdmitSum(cfg, Sum(Weights(s.inst)), Sum(Flight(s)), a.mem, Slack(k, largest), largest);
  }

  /** Nothing new is committed from `s` to `t`. */
  ghost predicate NoLarger(s: Sup, t: Sup) {
    |t.inst| + |Flight(t)| <= |s.inst| + |Flight(s)| && Committed(t) <= Committed(s)
  }

  lemma InsertMaps(cfg: Config, s: Sup, a: Action)
    requires Enabled(cfg, s, a) && a.Insert?
    ensures var t, id := Apply(cfg, s, a), s.calls[a.c].id;
            && a.c in Flight(s) && Flight(t) == Flight(s) - {a.c}
            && Weights(t.inst) == Weights(s.inst)[id := Flight(s)[a.c]]
  {
  }

  /** Insertion moves one boot from in flight to tracked. */
  lemma InsertNoLarger(cfg: Config, s: Sup, a: Action, largest: int)
    requires SizesOk(s, largest) && Enabled(cfg, s, a) && a.Insert?
    ensures NoLarger(s, Apply(cfg, s, a))
  {
    InsertMaps(cfg, s, a);
    MoveWeight(Flight(s), a.c, Weights(s.inst), s.calls[a.c].id);
    WeightsSize(s.inst);
    WeightsSize(Apply(cfg, s, a).inst);
  }

  lemma TerminateMaps(cfg: Config, s: Sup, a: Action)
    requires Enabled(cfg, s, a) && a.Terminate?
    ensures var t := Apply(cfg, s, a); Flight(t) == Flight(s) && Weights(t.inst) == Weights(s.inst) - {a.id}
  {
  }

  lemma TerminateNoLarger(cfg: Config, s: Sup, a: Action, largest: int)
    requires SizesOk(s, largest) && Enabled(cfg, s, a) && a.Terminate?
    ensures NoLarger(s, Apply(cfg, s, a))
  {
    TerminateMaps(cfg, s, a);
    DropWeight(Weights(s.inst), a.id);
    WeightsSize(s.inst);
    WeightsSize(Apply(cfg, s, a).inst);
  }

  /** Every other step leaves what is in flight alone or ends one boot. */
  lemma OtherFlight(cfg: Config, s: Sup, a: Action)
    requires Enabled(cfg, s, a) && !a.Admit? && !a.Insert? && !a.Crash? && !a.Terminate?
    ensures var t := Apply(cfg, s, a);
            t.inst == s.inst &&
            (Flight(t) == Flight(s) || ((a.Allocate? || a.Unwind?) && a.c in Flight(s) && Flight(t) == Flight(s) - {a.c}))
  {
    if a.Unwind? {
      UnwindFlight(s, a.c, a.applied);
    } else if a.Allocate? {
      AllocateFlight(cfg, s, a.c);
    } else {
      StepFlight(cfg, s, a);
    }
  }

  lemma StepFlight(cfg: Config, s: Sup, a: Action)
    requires Enabled(cfg, s, a) && !a.Crash? && !a.Admit? && !a.Insert? && !a.Terminate? && !a.Unwind? && !a.Allocate?
    ensures Flight(Apply(cfg, s, a)) == Flight(s) && Apply(cfg, s, a).inst == s.inst
  {
    var t := Apply(cfg, s, a);
    assert forall c :: c in Flight(t) <==> c in Flight(s);
    assert forall c :: c in Flight(s) ==> Flight(t)[c] == Flight(s)[c];
  }

  lemma AllocateFlight(cfg: Config, s: Sup, c: nat)
    requires Enabled(cfg, s, Allocate(c))
    ensures var t := Apply(cfg, s, Allocate(c));
            t.inst == s.inst && (Flight(t) == Flight(s) || (c in Flight(s) && Flight(t) == Flight(s) - {c}))
  {
    var t := Apply(cfg, s, Allocate(c));
    if c in t.calls {
      assert Flight(t) == Flight(s);
    } else {
      assert Flight(t) == Flight(s) - {c};
    }
  }

  lemma UnwindFlight(s: Sup, c: nat, applied: bool)
    requires c in s.calls && s.calls[c].Unwinding? && s.calls[c].undo != []
    ensures var t := ApplyUnwind(s, c, applied);
            t.inst == s.inst && (Flight(t) == Flight(s) || (c in Flight(s) && Flight(t) == Flight(s) - {c}))
  {
    var t := ApplyUnwind(s, c, applied);
    if c in t.calls || c !in Flight(s) {
      assert Flight(t) == Flight(s);
    } else {
      assert Flight(t) == Flight(s) - {c};
    }
  }

  lemma OtherNoLarger(cfg: Config, s: Sup, a: Action, largest: int)
    requires SizesOk(s, largest) && Enabled(cfg, s, a) && !a.Admit? && !a.Crash?
    ensures NoLarger(s, Apply(cfg, s, a))
  {
    if a.Insert? {
      InsertNoLarger(cfg, s, a, largest);
    } else if a.Terminate? {
      TerminateNoLarger(cfg, s, a, largest);
    } else {
      OtherFlight(cfg, s, a);
      if Flight(Apply(cfg, s, a)) != Flight(s) {
        DropWeight(Flight(s), a.c);
      }
    }
  }

  lemma FlightBefore(cfg: Config, s: Sup, a: Action, c: nat)
    requires Enabled(cfg, s, a) && !a.Admit? && c in Flight(Apply(cfg, s, a))
    ensures c in Flight(s) && Flight(s)[c] == Flight(Apply(cfg, s, a))[c]
  {
  }

  lemma TrackedBefore(cfg: Config, s: Sup, a: Action, id: Id)
    requires Enabled(cfg, s, a) && id in Apply(cfg, s, a).inst
    ensures var mem := Apply(cfg, s, a).inst[id].mem;
            (id in s.inst && s.inst[id].mem == mem) || (a.Insert? && a.c in Flight(s) && Flight(s)[a.c] == mem)
  {
  }

  lemma OtherSizes(cfg: Config, s: Sup, a: Action, largest: int)
    requires SizesOk(s, largest) && Enabled(cfg, s, a) && !a.Admit?
    ensures SizesOk(Apply(cfg, s, a), largest)
  {
    var t := Apply(cfg, s, a);
    forall id | id in t.inst ensures 0 < t.inst[id].mem <= largest {
      TrackedBefore(cfg, s, a, id);
    }
    forall c | c in t.calls && InFlight(t.calls[c]) ensures 0 < t.calls[c].mem <= largest {
      assert c in Flight(t) && Flight(t)[c] == t.calls[c].mem;
      FlightBefore(cfg, s, a, c);
    }
  }

  lemma CrashEmpties(cfg: Config, s: Sup)
    ensures var t := Apply(cfg, s, Crash); t.inst == map[] && Flight(t) == map[] && Weights(t.inst) == map[]
  {
  }

  /** The sizes that any run has. */
  lemma StepSizes(cfg: Config, s: Sup, a: Action, largest: int)
    requires SizesOk(s, largest) && Enabled(cfg, s, a) && (a.Admit? ==> a.mem <= largest)
    ensures SizesOk(Apply(cfg, s, a), largest)
  {
    if !a.Admit? {
      OtherSizes(cfg, s, a, largest);
    }
  }

  lemma StepCount(cfg: Config, s: Sup, a: Action, k: int)
    requires SizesOk(s, I64) && CountOk(cfg, s, k) && Enabled(cfg, s, a) && k >= 1 && |Flight(Apply(cfg, s, a))| <= k
    ensures CountOk(cfg, Apply(cfg, s, a), k)
  {
    if a.Admit? {
      AdmitCount(cfg, s, a, k);
    } else if a.Crash? {
      CrashEmpties(cfg, s);
    } else {
      OtherNoLarger(cfg, s, a, I64);
    }
  }

  lemma StepMemory(cfg: Config, s: Sup, a: Action, k: int, largest: int)
    requires SizesOk(s, largest) && MemoryOk(cfg, s, k, largest) && Enabled(cfg, s, a) && (a.Admit? ==> a.mem <= largest)
    requires k >= 1 && largest >= 0 && cfg.memoryBudget + Slack(k, largest) + largest < I64 && |Flight(Apply(cfg, s, a))| <= k
    ensures MemoryOk(cfg, Apply(cfg, s, a), k, largest)
  {
    if a.Admit? {
      AdmitMemory(cfg, s, a, k, largest);
    } else if a.Crash? {
      CrashEmpties(cfg, s);
      ScaleMonotone(0, k - 1, largest);
    } else {
      OtherNoLarger(cfg, s, a, largest);
    }
  }

  /** If at most `k` boots overlap at any time then, whatever they ask for, tracked plus in-flight
      sandboxes never exceed MaxConcurrent + k - 1, in every run.  With k = 1 this is the
      configured limit. */
  lemma {:induction false} CountBound(cfg: Config, s: Sup, actions: seq<Action>, k: int)
    requires SizesOk(s, I64) && CountOk(cfg, s, k) && RunOk(cfg, s, actions) && k >= 1
    requires forall i :: 0 <= i <= |actions| ==> |Flight(Run(cfg, s, actions)[i])| <= k
    ensures forall i :: 0 <= i <= |actions| ==> CountOk(cfg, Run(cfg, s, actions)[i], k)
    decreases |actions|
  {
    if actions != [] {
      var t := Apply(cfg, s, actions[0]);
      var run, rest := Run(cfg, s, actions), Run(cfg, t, actions[1..]);
      assert run[1] == rest[0] == t;
      StepSizes(cfg, s, actions[0], I64);
      StepCount(cfg, s, actions[0], k);
      forall i | 0 <= i <= |actions[1..]| ensures |Flight(rest[i])| <= k {
        assert run[i + 1] == rest[i];
      }
      CountBound(cfg, t, actions[1..], k);
    }
  }

  /** If, besides, none asks for more than `largest` MiB, their memory never exceeds
      MemoryBudgetMiB + (k - 1) x largest, provided that budget + k x largest is an int64. */
  lemma {:induction false} MemoryBound(cfg: Config, s: Sup, actions: seq<Action>, k: int, largest: int)
    requires SizesOk(s, largest) && MemoryOk(cfg, s, k, largest) && RunOk(cfg, s, actions)
    requires k >= 1 && largest >= 0 && cfg.memoryBudget + Slack(k, largest) + largest < I64
    requires forall i :: 0 <= i < |actions| && actions[i].Admit? ==> actions[i].mem <= largest
    requires forall i :: 0 <= i <= |actions| ==> |Flight(Run(cfg, s, actions)[i])| <= k
    ensures forall i :: 0 <= i <= |actions| ==> MemoryOk(cfg, Run(cfg, s, actions)[i], k, largest)
    decreases |actions|
  {
    if actions != [] {
      var t := Apply(cfg, s, actions[0]);
      var run, rest := Run(cfg, s, actions), Run(cfg, t, actions[1..]);
      assert run[1] == rest[0] == t;
      StepSizes(cfg, s, actions[0], largest);
      StepMemory(cfg, s, actions[0], k, largest);
      forall i | 0 <= i <= |actions[1..]| ensures |Flight(rest[i])| <= k {
        assert run[i + 1] == rest[i];
      }
      MemoryBound(cfg, t, actions[1..], k, largest);
    }
  }

  lemma InitWithin(cfg: Config, s: Sup, k: int, largest: int)
    requires Init(cfg, s) && k >= 1 && largest >= 0
    ensures SizesOk(s, largest) && CountOk(cfg, s, k) && MemoryOk(cfg, s, k, largest)
  {
    assert Weights(s.inst) == map[] && Flight(s) == map[];
    ScaleMonotone(0, k - 1, largest);
  }

  // ---- beyond int64 ----

  /** With nothing in flight, every request that takes the true total past int64 is admitted, and
      the budget is exceeded although no two boots overlap. */
  lemma OverflowAdmits(cfg: Config, s: Sup, c: nat, id: Id, mem: int)
    requires s.mode.Serving? && s.calls == map[] && id !in s.inst && 0 < mem < I64 && 0 < cfg.memoryBudget < I64
    requires cfg.maxConcurrent > 0 ==> |s.inst| < cfg.maxConcurrent
    requires var used := Sum(Weights(s.inst)); 0 <= used < I64 <= used + mem
    ensures Enabled(cfg, s, Admit(c, Launch, id, mem))
    ensures Committed(Apply(cfg, s, Admit(c, Launch, id, mem))) > cfg.memoryBudget
  {
    var a := Admit(c, Launch, id, mem);
    BudgetTestExact(Sum(Weights(s.inst)), mem, cfg.memoryBudget);
    assert Enabled(cfg, s, a);
    assert Flight(s) == map[];
    AdmitAdds(cfg, s, a);
  }

  lemma WeightOfOne(inst: map<Id, Inst>, id: Id, i: Inst)
    requires inst == map[id := i]
    ensures Sum(Weights(inst)) == i.mem
  {
    SumRemove(Weights(inst), id);
    assert Weights(inst) - {id} == map[];
  }

  /** A fresh supervisor admits and numbers a first launch of 1 MiB. */
  lemma FirstBoot(cfg: Config, s: Sup, x: Id) returns (b: Boot, s': Sup)
    requires Init(cfg, s) && Total(cfg.min, cfg.max) > 0 && cfg.memoryBudget < I64
    ensures b == Boot(0, Launch, x, 1, b.cid, 1) && Enabled(cfg, s, Start(b)[0]) && Allocates(cfg, s, b, s')
  {
    var (r, n) := Scan(cfg.min, cfg.max, s.next, s.used, Total(cfg.min, cfg.max));
    b := Boot(0, Launch, x, 1, r.value, 1);
    s' := s.(next := n, used := s.used + {b.cid}, saved := s.saved - {x});
    FirstAdmitted(cfg);
  }

  /** So for every budget there is a run in which one launch after the other breaks it. */
  lemma BudgetBroken(cfg: Config, s: Sup, x: Id, y: Id) returns (actions: seq<Action>, t: Sup)
    requires Init(cfg, s) && Total(cfg.min, cfg.max) > 0 && 0 < cfg.memoryBudget < I64 && cfg.maxConcurrent != 1 && x != y
    ensures RunOk(cfg, s, actions) && Last(Run(cfg, s, actions)) == t && t.calls == map[]
    ensures Enabled(cfg, t, Admit(1, Launch, y, I64 - 1))
    ensures Committed(Apply(cfg, t, Admit(1, Launch, y, I64 - 1))) > cfg.memoryBudget
  {
    var b, s' := FirstBoot(cfg, s, x);
    actions := BootActions(b, true);
    t := BootIsRun(cfg, s, b, s', true);
    ReachesIsRun(cfg, s, actions, t);
    var i := Inst(x, b.cid, 1, 1);
    assert t.inst == map[x := i];
    WeightOfOne(t.inst, x, i);
    OverflowAdmits(cfg, t, 1, y, I64 - 1);
  }

  // ---- the bounds are attained ----

  /** Launches with these ids, all admitted before any of them goes on. */
  function Admissions(ids: seq<Id>, mem: int): seq<Action> {
    if ids == [] then [] else Admissions(ids[..|ids| - 1], mem) + [Admit(|ids| - 1, Launch, ids[|ids| - 1], mem)]
  }

  /** Calls 0, ..., n - 1 are in flight, and no others. */
  ghost predicate OnlyCalls(s: Sup, n: nat) {
    forall c :: c in s.calls ==> c < n
  }

  /** `n` launches of `mem` MiB each are in flight, beside the sandboxes of `s`. */
  ghost predicate Crowded(s: Sup, t: Sup, n: nat, mem: int) {
    && t.mode == s.mode && t.inst == s.inst && OnlyCalls(t, n) && |Flight(t)| == n
    && Committed(t) == Sum(Weights(s.inst)) + n * mem
  }

  lemma OneMoreAdmitted(cfg: Config, s: Sup, u: Sup, n: nat, id: Id, mem: int)
    requires s.mode.Serving? && 0 < mem < I64 && AdmitOk(cfg, s.inst, mem) && id !in s.inst && Crowded(s, u, n, mem)
    ensures var a := Admit(n, Launch, id, mem); Enabled(cfg, u, a) && Crowded(s, Apply(cfg, u, a), n + 1, mem)
  {
    AdmitAdds(cfg, u, Admit(n, Launch, id, mem));
    OneMore(n + 1, mem);
  }

  /** From a state with nothing in flight that admits one launch, any number of overlapping ones are
      admitted: the bounds of CountBound and MemoryBound are attained for every k, by a state with
      MaxConcurrent - 1 sandboxes, and by one with the budget but `mem` in use. */
  lemma OvershootAttained(cfg: Config, s: Sup, ids: seq<Id>, mem: int) returns (t: Sup)
    requires s.mode.Serving? && s.calls == map[] && 0 < mem < I64 && AdmitOk(cfg, s.inst, mem)
    requires forall i :: 0 <= i < |ids| ==> ids[i] !in s.inst
    ensures RunOk(cfg, s, Admissions(ids, mem)) && Last(Run(cfg, s, Admissions(ids, mem))) == t
    ensures t.inst == s.inst && |Flight(t)| == |ids| && Committed(t) == Sum(Weights(s.inst)) + |ids| * mem
  {
    t := AdmissionsRun(cfg, s, ids, mem);
    ReachesIsRun(cfg, s, Admissions(ids, mem), t);
  }

  lemma {:induction false} AdmissionsRun(cfg: Config, s: Sup, ids: seq<Id>, mem: int) returns (t: Sup)
    requires s.mode.Serving? && s.calls == map[] && 0 < mem < I64 && AdmitOk(cfg, s.inst, mem)
    requires forall i :: 0 <= i < |ids| ==> ids[i] !in s.inst
    ensures Reaches(cfg, s, Admissions(ids, mem), t) && Crowded(s, t, |ids|, mem)
    decreases |ids|
  {
    if ids == [] {
      t := s;
      assert Flight(s) == map[];
    } else {
      var pre, k := ids[..|ids| - 1], |ids| - 1;
      var u := AdmissionsRun(cfg, s, pre, mem);
      OneMoreAdmitted(cfg, s, u, k, ids[k], mem);
      ReachStep(cfg, s, Admissions(pre, mem), u, Admit(k, Launch, ids[k], mem));
      t := Apply(cfg, u, Admit(k, Launch, ids[k], mem));
    }
  }
}
