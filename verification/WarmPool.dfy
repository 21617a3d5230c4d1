/** The warm pool (internal/orchestrator/pool.go): a mutex-guarded stack, a bounded signal
    channel that drops signals when full, and one refill goroutine.

    An action is one lock region, channel operation or restore; any number of callers acquire
    and release concurrently.  A direct restore completes at any time after its caller found the
    pool empty.  Close is not modelled. */
module WarmPool {
  import opened Wrappers

  /** An instance, identified by the number of its restore. */
  type Inst = nat

  /** The refill goroutine: blocked on the channel, woken but not yet counting, or in a round
      that still owes `owed` slots and may hold a restored instance not yet appended. */
  datatype Loop = Blocked | Woken | Round(owed: nat, inHand: Option<Inst>)

  /** `signalling` counts acquirers between their pop and their signal, `failed` the failed
      restores of the current (or latest) round, `made` the restores so far. */
  datatype Pool = Pool(warm: seq<Inst>, queue: nat, loop: Loop, signalling: nat, held: set<Inst>,
                       failed: nat, made: nat)

  datatype Action =
    | Pop
    | Signal
    | RestoreDirectly
    | Release(i: Inst)
    | Wake
    | Count
    | RestoreOne
    | RestoreFails
    | Append
    | EndRound

  predicate Enabled(depth: nat, p: Pool, a: Action) {
    match a
    case Pop => p.warm != []
    case Signal => p.signalling > 0
    case RestoreDirectly => true
    case Release(i) => i in p.held
    case Wake => p.loop.Blocked? && p.queue > 0
    case Count => p.loop.Woken?
    case RestoreOne => p.loop.Round? && p.loop.owed > 0 && p.loop.inHand.None?
    case RestoreFails => p.loop.Round? && p.loop.owed > 0 && p.loop.inHand.None?
    case Append => p.loop.Round? && p.loop.owed > 0 && p.loop.inHand.Some?
    case EndRound => p.loop.Round? && p.loop.owed == 0
  }

  function Send(depth: nat, queue: nat): nat {
    if queue < depth then queue + 1 else queue
  }

  function Apply(depth: nat, p: Pool, a: Action): Pool
    requires Enabled(depth, p, a)
  {
    match a
    case Pop =>
      var i := p.warm[|p.warm| - 1];
      p.(warm := p.warm[..|p.warm| - 1], held := p.held + {i}, signalling := p.signalling + 1)
    case Signal => p.(signalling := p.signalling - 1, queue := Send(depth, p.queue))
    case RestoreDirectly => p.(held := p.held + {p.made}, made := p.made + 1)
    case Release(i) =>
      if |p.warm| < depth then p.(warm := p.warm + [i], held := p.held - {i}) else p.(held := p.held - {i})
    case Wake => p.(loop := Woken, queue := p.queue - 1)
    case Count => p.(loop := Round(if |p.warm| < depth then depth - |p.warm| else 0, None), failed := 0)
    case RestoreOne => p.(loop := p.loop.(inHand := Some(p.made)), made := p.made + 1)
    case RestoreFails => p.(loop := p.loop.(owed := p.loop.owed - 1), failed := p.failed + 1)
    case Append => p.(warm := p.warm + [p.loop.inHand.value], loop := Round(p.loop.owed - 1, None))
    case EndRound => p.(loop := Blocked)
  }

  function Init(depth: nat): Pool {
    Pool([], depth, Blocked, 0, {}, 0, 0)
  }

  predicate RunOk(depth: nat, p: Pool, actions: seq<Action>)
    decreases |actions|
  {
    actions == [] || (Enabled(depth, p, actions[0]) && RunOk(depth, Apply(depth, p, actions[0]), actions[1..]))
  }

  /** The state a run ends in. */
  function End(depth: nat, p: Pool, actions: seq<Action>): Pool
    requires RunOk(depth, p, actions)
    decreases |actions|
  {
    if actions == [] then p else End(depth, Apply(depth, p, actions[0]), actions[1..])
  }

  // ---- no lost wakeup ----

  function Owed(p: Pool): nat {
    if p.loop.Round? then p.loop.owed else 0
  }

  /** Some signal is on its way to the refill loop. */
  predicate WakeupDue(p: Pool) {
    p.queue > 0 || p.loop.Woken? || p.signalling > 0
  }

  /** A deficit beyond the failed restores of the latest round has a wakeup due. */
  predicate NoLostWakeup(depth: nat, p: Pool) {
    |p.warm| + Owed(p) + p.failed < depth ==> WakeupDue(p)
  }

  lemma {:induction false} WakeupsNeverLost(depth: nat, p: Pool, actions: seq<Action>)
    requires depth >= 1 && NoLostWakeup(depth, p) && RunOk(depth, p, actions)
    ensures NoLostWakeup(depth, End(depth, p, actions))
    decreases |actions|
  {
    if actions != [] {
      WakeupsNeverLost(depth, Apply(depth, p, actions[0]), actions[1..]);
    }
  }

  predicate Quiescent(p: Pool) {
    p.loop.Blocked? && !WakeupDue(p)
  }

  /** Although signals are dropped, a quiescent pool is short of its depth by at most the
      restores that failed in its latest round; without failures it is full. */
  lemma QuiescentDepth(depth: nat, actions: seq<Action>)
    requires depth >= 1 && RunOk(depth, Init(depth), actions)
    requires Quiescent(End(depth, Init(depth), actions))
    ensures var p := End(depth, Init(depth), actions); |p.warm| + p.failed >= depth
    ensures (forall i :: 0 <= i < |actions| ==> !actions[i].RestoreFails?) ==>
              |End(depth, Init(depth), actions).warm| >= depth
  {
    WakeupsNeverLost(depth, Init(depth), actions);
    if forall i :: 0 <= i < |actions| ==> !actions[i].RestoreFails? {
      NoFailures(depth, Init(depth), actions);
    }
  }

  /** Without Release the loop never owes more than is missing. */
  lemma {:induction false} OwedIsMissing(depth: nat, p: Pool, actions: seq<Action>)
    requires RunOk(depth, p, actions) && |p.warm| + Owed(p) + p.failed <= depth
    requires forall i :: 0 <= i < |actions| ==> !actions[i].Release?
    ensures var q := End(depth, p, actions); |q.warm| + Owed(q) + q.failed <= depth
    decreases |actions|
  {
    if actions != [] {
      OwedIsMissing(depth, Apply(depth, p, actions[0]), actions[1..]);
    }
  }

  /** So in a run without Release a quiescent pool holds exactly its depth minus the restores that
      failed in the latest round: it is full if and only if none of them failed. */
  lemma QuiescentExact(depth: nat, actions: seq<Action>)
    requires depth >= 1 && RunOk(depth, Init(depth), actions) && Quiescent(End(depth, Init(depth), actions))
    requires forall i :: 0 <= i < |actions| ==> !actions[i].Release?
    ensures var p := End(depth, Init(depth), actions);
            |p.warm| == depth - p.failed && (|p.warm| == depth <==> p.failed == 0)
  {
    QuiescentDepth(depth, actions);
    OwedIsMissing(depth, Init(depth), actions);
  }

  lemma {:induction false} NoFailures(depth: nat, p: Pool, actions: seq<Action>)
    requires RunOk(depth, p, actions) && p.failed == 0
    requires forall i :: 0 <= i < |actions| ==> !actions[i].RestoreFails?
    ensures End(depth, p, actions).failed == 0
    decreases |actions|
  {
    if actions != [] {
      NoFailures(depth, Apply(depth, p, actions[0]), actions[1..]);
    }
  }

  /** Failed slots are not retried: at every depth there is a run after which the pool rests empty. */
  lemma FailedSlotsNotRetried(depth: nat) returns (actions: seq<Action>)
    requires depth >= 1
    ensures RunOk(depth, Init(depth), actions) && Quiescent(End(depth, Init(depth), actions))
    ensures End(depth, Init(depth), actions).warm == []
  {
    actions := [];
    var init := Init(depth);
    var p := init;
    while p.queue > 0
      invariant RunOk(depth, init, actions) && End(depth, init, actions) == p
      invariant p.loop.Blocked? && p.warm == [] && p.signalling == 0
      decreases p.queue
    {
      RunSnoc(depth, init, actions, Wake);
      actions, p := actions + [Wake], Apply(depth, p, Wake);
      RunSnoc(depth, init, actions, Count);
      actions, p := actions + [Count], Apply(depth, p, Count);
      var queue := p.queue;
      while p.loop.owed > 0
        invariant RunOk(depth, init, actions) && End(depth, init, actions) == p
        invariant p.loop.Round? && p.loop.inHand.None? && p.warm == [] && p.signalling == 0 && p.queue == queue
        decreases p.loop.owed
      {
        RunSnoc(depth, init, actions, RestoreFails);
        actions, p := actions + [RestoreFails], Apply(depth, p, RestoreFails);
      }
      RunSnoc(depth, init, actions, EndRound);
      actions, p := actions + [EndRound], Apply(depth, p, EndRound);
    }
  }

  // ---- bounds ----

  predicate WithinTwice(depth: nat, p: Pool) {
    |p.warm| + Owed(p) <= 2 * depth && Owed(p) <= depth && p.queue <= depth
  }

  /** Warm instances plus the refills still owed never exceed twice the depth... */
  lemma {:induction false} NeverOverTwice(depth: nat, p: Pool, actions: seq<Action>)
    requires WithinTwice(depth, p) && RunOk(depth, p, actions)
    ensures WithinTwice(depth, End(depth, p, actions))
    decreases |actions|
  {
    if actions != [] {
      NeverOverTwice(depth, Apply(depth, p, actions[0]), actions[1..]);
    }
  }

  /** ... and never exceed the depth as long as nothing is released. */
  lemma {:induction false} NeverOverDepth(depth: nat, p: Pool, actions: seq<Action>)
    requires |p.warm| + Owed(p) <= depth && RunOk(depth, p, actions)
    requires forall i :: 0 <= i < |actions| ==> !actions[i].Release?
    ensures |End(depth, p, actions).warm| + Owed(End(depth, p, actions)) <= depth
    decreases |actions|
  {
    if actions != [] {
      NeverOverDepth(depth, Apply(depth, p, actions[0]), actions[1..]);
    }
  }

  lemma {:induction false} RunSnoc(depth: nat, p: Pool, actions: seq<Action>, a: Action)
    requires RunOk(depth, p, actions) && Enabled(depth, End(depth, p, actions), a)
    ensures RunOk(depth, p, actions + [a])
    ensures End(depth, p, actions + [a]) == Apply(depth, End(depth, p, actions), a)
    decreases |actions|
  {
    if actions == [] {
      assert [] + [a] == [a] && [a][1..] == [];
    } else {
      assert (actions + [a])[1..] == actions[1..] + [a];
      RunSnoc(depth, Apply(depth, p, actions[0]), actions[1..], a);
    }
  }

  /** The factor two is attained at every depth: callers that restored directly release while a
      full round is owed. */
  lemma TwiceAttained(depth: nat) returns (actions: seq<Action>)
    requires depth >= 1
    ensures RunOk(depth, Init(depth), actions)
    ensures |End(depth, Init(depth), actions).warm| == 2 * depth
  {
    actions := [];
    var init := Init(depth);
    var p := init;
    while |p.held| < depth
      invariant RunOk(depth, init, actions) && End(depth, init, actions) == p
      invariant p == init.(held := p.held, made := p.made) && |p.held| <= depth
      invariant forall i :: i in p.held ==> i < p.made
    {
      RunSnoc(depth, init, actions, RestoreDirectly);
      actions, p := actions + [RestoreDirectly], Apply(depth, p, RestoreDirectly);
    }
    RunSnoc(depth, init, actions, Wake);
    actions, p := actions + [Wake], Apply(depth, p, Wake);
    RunSnoc(depth, init, actions, Count);
    actions, p := actions + [Count], Apply(depth, p, Count);
    while p.held != {}
      invariant RunOk(depth, init, actions) && End(depth, init, actions) == p
      invariant p.loop == Round(depth, None) && |p.warm| + |p.held| == depth
      decreases |p.held|
    {
      var i :| i in p.held;
      RunSnoc(depth, init, actions, Release(i));
      actions, p := actions + [Release(i)], Apply(depth, p, Release(i));
    }
    while p.loop.owed > 0
      invariant RunOk(depth, init, actions) && End(depth, init, actions) == p
      invariant p.loop.Round? && p.loop.inHand.None? && |p.warm| + p.loop.owed == 2 * depth
      decreases p.loop.owed
    {
      RunSnoc(depth, init, actions, RestoreOne);
      actions, p := actions + [RestoreOne], Apply(depth, p, RestoreOne);
      RunSnoc(depth, init, actions, Append);
      actions, p := actions + [Append], Apply(depth, p, Append);
    }
  }

  // ---- exclusive hand-out ----

  function InHand(p: Pool): set<Inst> {
    if p.loop.Round? && p.loop.inHand.Some? then {p.loop.inHand.value} else {}
  }

  /** No instance is warm twice, or warm and held, or still in the refill loop's hand. */
  ghost predicate Exclusive(p: Pool) {
    && (forall i, j :: 0 <= i < j < |p.warm| ==> p.warm[i] != p.warm[j])
    && (forall i :: 0 <= i < |p.warm| ==> p.warm[i] !in p.held && p.warm[i] !in InHand(p) && p.warm[i] < p.made)
    && (forall i :: i in p.held ==> i !in InHand(p) && i < p.made)
    && (forall i :: i in InHand(p) ==> i < p.made)
  }

  lemma StepExclusive(depth: nat, p: Pool, a: Action)
    requires Exclusive(p) && Enabled(depth, p, a)
    ensures Exclusive(Apply(depth, p, a))
  {
    var q := Apply(depth, p, a);
    match a
    case Pop =>
      var last := p.warm[|p.warm| - 1];
      assert q.warm == p.warm[..|p.warm| - 1] && q.held == p.held + {last} && InHand(q) == InHand(p) && q.made == p.made;
      forall k | 0 <= k < |q.warm| ensures q.warm[k] != last && q.warm[k] == p.warm[k] {
      }
    case Release(i) =>
      assert q.held == p.held - {i} && InHand(q) == InHand(p) && q.made == p.made;
      if |p.warm| < depth {
        AddWarm(p, i, q);
      } else {
        assert q.warm == p.warm;
      }
    case Append =>
      assert p.loop.inHand.value in InHand(p) && InHand(q) == {} && q.held == p.held;
      AddWarm(p, p.loop.inHand.value, q);
    case RestoreOne => assert q.warm == p.warm && q.held == p.held && InHand(q) == {p.made};
    case RestoreDirectly => assert q.warm == p.warm && q.held == p.held + {p.made} && InHand(q) == InHand(p);
    case _ => assert q.warm == p.warm && q.held == p.held && InHand(q) <= InHand(p) && q.made == p.made;
  }

  /** Putting an owned instance back on the stack, and giving up its ownership. */
  lemma AddWarm(p: Pool, i: Inst, q: Pool)
    requires Exclusive(p) && (i in p.held || i in InHand(p))
    requires q.warm == p.warm + [i] && q.held <= p.held - {i} && InHand(q) <= InHand(p) - {i} && q.made == p.made
    ensures Exclusive(q)
  {
    forall k | 0 <= k < |p.warm| ensures p.warm[k] != i && q.warm[k] == p.warm[k] {
    }
  }

  /** When callers release only what they hold, every instance has at most one owner. */
  lemma {:induction false} HandOutExclusive(depth: nat, p: Pool, actions: seq<Action>)
    requires Exclusive(p) && RunOk(depth, p, actions)
    ensures Exclusive(End(depth, p, actions))
    decreases |actions|
  {
    if actions != [] {
      StepExclusive(depth, p, actions[0]);
      HandOutExclusive(depth, Apply(depth, p, actions[0]), actions[1..]);
    }
  }

  // ---- the imperative form ----

  /** An undisturbed Acquire of a warm slot is a run of the machine: the caller holds the latest warm
      instance and at least one signal is queued. */
  lemma AcquireIsRun(depth: nat, p: Pool)
    requires p.warm != [] && p.queue <= depth
    ensures var x := p.warm[|p.warm| - 1];
            && RunOk(depth, p, [Pop, Signal])
            && var q := End(depth, p, [Pop, Signal]);
            && q.warm + [x] == p.warm && q.held == p.held + {x}
            && q.queue == (if p.queue < depth then p.queue + 1 else depth)
            && q.signalling == p.signalling && q.loop == p.loop && q.made == p.made && q.failed == p.failed
  {
    RunSnoc(depth, p, [], Pop);
    RunSnoc(depth, p, [Pop], Signal);
    assert [] + [Pop] == [Pop] && [Pop] + [Signal] == [Pop, Signal];
  }

  /** A round without interference, in which the i-th restore succeeds or not, is one too: it consumes
      one signal and appends the restored instances in order. */
  lemma RoundIsRun(depth: nat, p: Pool, ok: seq<bool>) returns (actions: seq<Action>)
    requires p.loop.Blocked? && p.queue > 0 && |ok| == if |p.warm| < depth then depth - |p.warm| else 0
    ensures RunOk(depth, p, actions)
    ensures var q := End(depth, p, actions);
            && q.loop.Blocked? && q.queue == p.queue - 1 && q.held == p.held && q.signalling == p.signalling
            && p.warm <= q.warm && (forall i :: |p.warm| <= i < |q.warm| ==> q.warm[i] == p.made + i - |p.warm|)
            && |q.warm| - |p.warm| == |Successes(ok)| && |q.warm| + q.failed == |p.warm| + |ok|
  {
    RunSnoc(depth, p, [], Wake);
    RunSnoc(depth, p, [Wake], Count);
    assert [] + [Wake] == [Wake] && [Wake] + [Count] == [Wake, Count];
    actions := [Wake, Count];
    var q := End(depth, p, actions);
    var i := 0;
    assert ok[..0] == [];
    while i < |ok|
      invariant 0 <= i <= |ok| && RunOk(depth, p, actions) && End(depth, p, actions) == q
      invariant InRound(p, ok, i, q)
    {
      InRoundNext(depth, p, ok, i, q);
      if ok[i] {
        RunSnoc(depth, p, actions, RestoreOne);
        actions, q := actions + [RestoreOne], Apply(depth, q, RestoreOne);
        RunSnoc(depth, p, actions, Append);
        actions, q := actions + [Append], Apply(depth, q, Append);
      } else {
        RunSnoc(depth, p, actions, RestoreFails);
        actions, q := actions + [RestoreFails], Apply(depth, q, RestoreFails);
      }
      i := i + 1;
    }
    assert ok[..i] == ok;
    RunSnoc(depth, p, actions, EndRound);
    actions := actions + [EndRound];
  }

  /** After the first `i` restores of a round that began in `p`. */
  predicate InRound(p: Pool, ok: seq<bool>, i: nat, q: Pool)
    requires i <= |ok|
  {
    && q.loop == Round(|ok| - i, None) && q.queue == p.queue - 1 && q.held == p.held && q.signalling == p.signalling
    && p.warm <= q.warm && q.made == p.made + |q.warm| - |p.warm|
    && (forall j :: |p.warm| <= j < |q.warm| ==> q.warm[j] == p.made + j - |p.warm|)
    && |q.warm| - |p.warm| == |Successes(ok[..i])| && |q.warm| + q.failed == |p.warm| + i
  }

  lemma InRoundNext(depth: nat, p: Pool, ok: seq<bool>, i: nat, q: Pool)
    requires i < |ok| && InRound(p, ok, i, q)
    ensures ok[i] ==> Enabled(depth, q, RestoreOne) && Enabled(depth, Apply(depth, q, RestoreOne), Append)
                      && InRound(p, ok, i + 1, Apply(depth, Apply(depth, q, RestoreOne), Append))
    ensures !ok[i] ==> Enabled(depth, q, RestoreFails) && InRound(p, ok, i + 1, Apply(depth, q, RestoreFails))
  {
    assert ok[..i + 1][..i] == ok[..i];
  }

  /** Positions of the restores that succeed. */
  function Successes(ok: seq<bool>): seq<nat> {
    if ok == [] then []
    else Successes(ok[..|ok| - 1]) + if ok[|ok| - 1] then [|ok| - 1] else []
  }

  /** Slots that a round with these restore outcomes fills. */
  function Filled(outcomes: seq<Option<Inst>>): seq<Inst> {
    if outcomes == [] then []
    else Filled(outcomes[..|outcomes| - 1])
         + (var o := outcomes[|outcomes| - 1]; if o.Some? then [o.value] else [])
  }

  function Failures(outcomes: seq<Option<Inst>>): nat {
    if outcomes == [] then 0
    else Failures(outcomes[..|outcomes| - 1]) + if outcomes[|outcomes| - 1].None? then 1 else 0
  }

  class SnapshotPool {
    const depth: nat
    var warm: seq<Inst>
    var queue: nat

    ghost predicate Valid()
      reads this
    {
      depth >= 1 && queue <= depth
    }

    constructor (target: int)
      ensures Valid() && depth == (if target < 1 then 1 else target) && warm == [] && queue == depth
    {
      depth := if target < 1 then 1 else target;
      warm := [];
      queue := 0;
      new;
      for i := 0 to depth
        invariant queue == i && warm == []
      {
        TriggerRefill();
      }
    }

    method TriggerRefill()
      requires queue <= depth
      modifies this`queue
      ensures queue == Send(depth, old(queue))
    {
      if queue < depth {
        queue := queue + 1;
      }
    }

    /** A warm slot if there is one, with a refill signal that leaves at least one queued;
        otherwise the instance restored for this caller. */
    method Acquire(restored: Option<Inst>) returns (r: Option<Inst>)
      requires Valid()
      modifies this
      ensures Valid()
      ensures old(warm) != [] ==> r == Some(old(warm)[|old(warm)| - 1]) && warm + [r.value] == old(warm)
      ensures old(warm) != [] ==> queue == if old(queue) < depth then old(queue) + 1 else depth
      ensures old(warm) == [] ==> r == restored && warm == [] && queue == old(queue)
    {
      if |warm| > 0 {
        var i := warm[|warm| - 1];
        warm := warm[..|warm| - 1];
        TriggerRefill();
        return Some(i);
      }
      return restored;
    }

    method Release(i: Inst) returns (kept: bool)
      modifies this`warm
      ensures kept == (|old(warm)| < depth)
      ensures warm == if kept then old(warm) + [i] else old(warm)
    {
      if |warm| < depth {
        warm := warm + [i];
        return true;
      }
      return false;
    }

    /** What the loop does with one signal, run without interference: it tops the pool up to
        its depth, minus the restores that fail. */
    method RefillRound(outcomes: seq<Option<Inst>>)
      requires |warm| + |outcomes| == if |warm| < depth then depth else |warm|
      modifies this`warm
      ensures warm == old(warm) + Filled(outcomes)
      ensures |warm| + Failures(outcomes) == if |old(warm)| < depth then depth else |old(warm)|
    {
      var need := depth - |warm|;
      var i := 0;
      assert outcomes[..0] == [];
      while i < need
        invariant 0 <= i && (need >= 0 ==> i <= need == |outcomes|) && (need < 0 ==> i == 0)
        invariant i <= |outcomes| && warm == old(warm) + Filled(outcomes[..i])
        invariant |warm| + Failures(outcomes[..i]) == |old(warm)| + i
      {
        assert outcomes[..i + 1][..i] == outcomes[..i];
        if outcomes[i].Some? {
          warm := warm + [outcomes[i].value];
        }
        i := i + 1;
      }
      assert outcomes[..i] == outcomes;
    }
  }
}
