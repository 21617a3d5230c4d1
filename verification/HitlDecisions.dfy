/** How verdicts evolve: what survives overlapping Decide calls and what does not. */
module HitlDecisions {
  import opened Wrappers
  import opened HitlModel
  import opened HitlSafety

  // ---- monotonicity, in all interleavings ----

  /** From `s` to `t` no request is rewritten, and none becomes pending (again). */
  ghost predicate Monotone(s: System, t: System) {
    && (forall id :: id in s.submitted ==> id in t.submitted && t.submitted[id] == s.submitted[id])
    && (forall id :: id in s.submitted && !LivePending(s, id) ==> !LivePending(t, id))
    && (forall id :: id in s.redis.approvals && id in t.redis.approvals ==>
          SameRequest(s.redis.approvals[id].rec, t.redis.approvals[id].rec))
  }

  /** The gate's own writes; every other step leaves the requests and the records alone. */
  predicate WritesRecords(a: Action) {
    a.Tick? || a.Submit? || a.DecideWrite?
  }

  lemma StepMonotone(c: Config, s: System, a: Action)
    requires StoreInv(s) && Enabled(c, s, a)
    ensures Monotone(s, Apply(c, s, a))
  {
    if WritesRecords(a) {
      WriteMonotone(c, s, a);
    } else {
      var t := Apply(c, s, a);
      assert t.redis.approvals == s.redis.approvals && t.submitted == s.submitted;
    }
  }

  lemma WriteMonotone(c: Config, s: System, a: Action)
    requires StoreInv(s) && Enabled(c, s, a) && WritesRecords(a)
    ensures Monotone(s, Apply(c, s, a))
  {
    match a
    case Tick(_) =>
    case Submit(_, _, _, _) =>
    case DecideWrite(_, _) =>
  }

  lemma MonotoneTransitive(s: System, t: System, u: System)
    requires StoreInv(s) && StoreInv(u) && Monotone(s, t) && Monotone(t, u)
    ensures Monotone(s, u)
  {
    forall id | id in s.redis.approvals && id in u.redis.approvals
      ensures SameRequest(s.redis.approvals[id].rec, u.redis.approvals[id].rec)
    {
      assert u.submitted[id] == s.submitted[id];
    }
  }

  /** Between any two instants of a run records keep their request, and a request that is
      decided or expired is never pending again (not even when a late write revives it). */
  lemma {:induction false} DecisionsMonotone(c: Config, s: System, actions: seq<Action>, i: nat, j: nat)
    requires Inv(c, s) && RunOk(c, s, actions) && i <= j <= |actions|
    ensures Monotone(Run(c, s, actions)[i], Run(c, s, actions)[j])
    decreases |actions|
  {
    if i > 0 {
      StepKeepsInv(c, s, actions[0]);
      DecisionsMonotone(c, Apply(c, s, actions[0]), actions[1..], i - 1, j - 1);
    } else {
      MonotoneFromStart(c, s, actions, j);
    }
  }

  lemma {:induction false} MonotoneFromStart(c: Config, s: System, actions: seq<Action>, j: nat)
    requires Inv(c, s) && RunOk(c, s, actions) && j <= |actions|
    ensures Monotone(s, Run(c, s, actions)[j]) && StoreInv(Run(c, s, actions)[j])
    decreases |actions|
  {
    if j > 0 {
      var t := Apply(c, s, actions[0]);
      StepMonotone(c, s, actions[0]);
      StepKeepsInv(c, s, actions[0]);
      MonotoneFromStart(c, t, actions[1..], j - 1);
      MonotoneTransitive(s, t, Run(c, t, actions[1..])[j - 1]);
    }
  }

  // ---- the first decision is final when Decide calls on an id do not overlap ----

  ghost predicate NoOverlap(s: System) {
    forall a, b :: a in s.deciders && b in s.deciders && a != b ==> s.deciders[a].rec.id != s.deciders[b].rec.id
  }

  /** The ids with a logged decision. */
  function DecidedIds(log: seq<Event>): set<Id> {
    set i | 0 <= i < |log| && log[i].Decided? :: log[i].rec.id
  }

  lemma DecidedIdsAppend(log: seq<Event>, e: Event)
    ensures DecidedIds(log + [e]) == DecidedIds(log) + if e.Decided? then {e.rec.id} else {}
  {
    var log' := log + [e];
    assert forall i :: 0 <= i < |log| ==> log'[i] == log[i];
    forall x | x in DecidedIds(log) ensures x in DecidedIds(log') {
      var i :| 0 <= i < |log| && log[i].Decided? && log[i].rec.id == x;
      assert log'[i].Decided?;
    }
    assert log'[|log|] == e;
  }

  /** At most one decision is ever logged per id; the stored record and the audit entry, while
      they live, are that decision. */
  ghost predicate FirstIsFinal(s: System) {
    && (forall i, j :: 0 <= i < j < |s.log| && s.log[i].Decided? && s.log[j].Decided? ==>
          s.log[i].rec.id != s.log[j].rec.id)
    && (forall i :: 0 <= i < |s.log| && s.log[i].Decided? ==>
          var rec := s.log[i].rec;
          && (rec.id in s.redis.approvals ==> s.redis.approvals[rec.id].rec == rec)
          && (rec.id in s.redis.audit ==> s.redis.audit[rec.id].rec == rec))
    && s.redis.audit.Keys <= DecidedIds(s.log)
  }

  ghost predicate FinalInv(s: System) {
    && FirstIsFinal(s)
    && DecidedIds(s.log) <= s.submitted.Keys
    && (forall i :: 0 <= i < |s.log| && s.log[i].Decided? ==> !s.log[i].rec.state.Pending?)
    && (forall d :: d in s.deciders ==> s.deciders[d].rec.id !in DecidedIds(s.log))
  }

  lemma PendingIsUndecided(s: System, id: Id)
    requires FinalInv(s) && LivePending(s, id)
    ensures id !in DecidedIds(s.log)
  {
  }

  /** The first decision on an id, written. */
  ghost predicate FirstWrite(s: System, t: System, rec: Record) {
    && rec.id in s.submitted && rec.id !in DecidedIds(s.log) && !rec.state.Pending?
    && t.log == s.log + [Decided(rec)] && t.submitted == s.submitted
    && (forall id :: id in t.redis.approvals ==>
          if id == rec.id then t.redis.approvals[id].rec == rec
          else id in s.redis.approvals && t.redis.approvals[id] == s.redis.approvals[id])
    && (forall id :: id in t.redis.audit ==>
          if id == rec.id then t.redis.audit[id].rec == rec
          else id in s.redis.audit && t.redis.audit[id] == s.redis.audit[id])
    && (forall d :: d in t.deciders ==> d in s.deciders && t.deciders[d] == s.deciders[d] && t.deciders[d].rec.id != rec.id)
  }

  lemma FirstWriteKeepsFinal(s: System, t: System, rec: Record)
    requires FinalInv(s) && FirstWrite(s, t, rec)
    ensures FinalInv(t)
  {
    DecidedIdsAppend(s.log, Decided(rec));
    forall i | 0 <= i < |s.log| && s.log[i].Decided? ensures s.log[i].rec.id != rec.id {
      assert s.log[i].rec.id in DecidedIds(s.log);
    }
  }

  lemma WriteKeepsFinal(c: Config, s: System, a: Action)
    requires StoreInv(s) && FinalInv(s) && NoOverlap(s) && Enabled(c, s, a) && a.DecideWrite? && a.applied
    ensures FinalInv(Apply(c, s, a))
  {
    var rec := DecidedRecord(s.deciders[a.did], s.redis.now);
    assert FirstWrite(s, Apply(c, s, a), rec);
    FirstWriteKeepsFinal(s, Apply(c, s, a), rec);
  }

  /** Without a new decision: records and audit entries stay, expire, or are those of a new id. */
  ghost predicate NothingDecided(s: System, t: System) {
    && DecidedIds(t.log) == DecidedIds(s.log) && s.log <= t.log && s.submitted.Keys <= t.submitted.Keys
    && (forall i :: |s.log| <= i < |t.log| ==> !t.log[i].Decided?)
    && (forall id :: id in t.redis.audit ==> id in s.redis.audit && t.redis.audit[id] == s.redis.audit[id])
    && (forall id :: id in t.redis.approvals && id in s.submitted ==>
          id in s.redis.approvals && t.redis.approvals[id] == s.redis.approvals[id])
    && (forall d :: d in t.deciders ==> t.deciders[d].rec.id !in DecidedIds(s.log))
  }

  lemma NothingDecidedKeepsFinal(s: System, t: System)
    requires FinalInv(s) && NothingDecided(s, t)
    ensures FinalInv(t)
  {
    forall i | 0 <= i < |t.log| && t.log[i].Decided? ensures i < |s.log| && t.log[i] == s.log[i] && t.log[i].rec.id in s.submitted {
      assert s.log[i].rec.id in DecidedIds(s.log);
    }
  }

  lemma QuietStep(c: Config, s: System, a: Action)
    requires StoreInv(s) && FinalInv(s) && Enabled(c, s, a) && !(a.DecideWrite? && a.applied)
    ensures NothingDecided(s, Apply(c, s, a))
  {
    if a.Execute? {
      DecidedIdsAppend(s.log, Apply(c, s, a).log[|s.log|]);
    } else if a.DecideRead? {
      PendingIsUndecided(s, a.id);
    }
  }

  lemma StepKeepsFinal(c: Config, s: System, a: Action)
    requires StoreInv(s) && FinalInv(s) && NoOverlap(s) && Enabled(c, s, a)
    ensures FinalInv(Apply(c, s, a))
  {
    if a.DecideWrite? && a.applied {
      WriteKeepsFinal(c, s, a);
    } else {
      QuietStep(c, s, a);
      NothingDecidedKeepsFinal(s, Apply(c, s, a));
    }
  }

  lemma {:induction false} RunKeepsFinal(c: Config, s: System, actions: seq<Action>)
    requires Inv(c, s) && FinalInv(s) && RunOk(c, s, actions)
    requires forall i :: 0 <= i <= |actions| ==> NoOverlap(Run(c, s, actions)[i])
    ensures FinalInv(Last(Run(c, s, actions)))
    decreases |actions|
  {
    if actions != [] {
      var t := Apply(c, s, actions[0]);
      var run := Run(c, s, actions);
      assert run[0] == s;
      StepKeepsInv(c, s, actions[0]);
      StepKeepsFinal(c, s, actions[0]);
      forall i | 0 <= i <= |actions| - 1 ensures NoOverlap(Run(c, t, actions[1..])[i]) {
        assert run[i + 1] == Run(c, t, actions[1..])[i];
      }
      RunKeepsFinal(c, t, actions[1..]);
      assert Last(run) == Last(Run(c, t, actions[1..]));
    }
  }

  /** When no two Decide calls on one id overlap, the first decision is final, is written to
      the audit key at most once, and agrees with the record while both live. */
  lemma FirstDecisionFinal(c: Config, s: System, actions: seq<Action>)
    requires Init(s) && RunOk(c, s, actions)
    requires forall i :: 0 <= i <= |actions| ==> NoOverlap(Run(c, s, actions)[i])
    ensures FirstIsFinal(Last(Run(c, s, actions)))
  {
    RunKeepsFinal(c, s, actions);
  }

  /** Without that restriction the last writer wins: whenever two Decide calls on one id are
      between read and write, both succeed and the second verdict replaces the first in the
      record and in the audit entry. */
  lemma OverlappingDecidesOverwrite(c: Config, s: System, a: nat, b: nat)
    requires a in s.deciders && b in s.deciders && a != b && s.deciders[a].rec.id == s.deciders[b].rec.id
    ensures var actions := [DecideWrite(a, true), DecideWrite(b, true)];
            RunOk(c, s, actions) &&
            var t := Last(Run(c, s, actions));
            var second := DecidedRecord(s.deciders[b], s.redis.now);
            && t.log == s.log + [Decided(DecidedRecord(s.deciders[a], s.redis.now)), Decided(second)]
            && second.id in t.redis.approvals && t.redis.approvals[second.id].rec == second
            && second.id in t.redis.audit && t.redis.audit[second.id].rec == second
  {
    TwoSteps(c, s, DecideWrite(a, true), DecideWrite(b, true));
  }

  /** Runs of two actions, unrolled. */
  lemma TwoSteps(c: Config, s: System, a: Action, b: Action)
    ensures RunOk(c, s, [a, b]) <==> Enabled(c, s, a) && Enabled(c, Apply(c, s, a), b)
    ensures RunOk(c, s, [a, b]) ==>
      var t := Apply(c, s, a); Enabled(c, t, b) && Run(c, s, [a, b]) == [s, t, Apply(c, t, b)]
  {
    assert [a, b][1..] == [b] && [b][1..] == [];
    if Enabled(c, s, a) {
      var t := Apply(c, s, a);
      assert RunOk(c, t, [b]) <==> Enabled(c, t, b);
      if Enabled(c, t, b) {
        assert Run(c, t, [b]) == [t] + Run(c, Apply(c, t, b), []);
      }
    }
  }

  /** So the restriction is exact: while decisions are still final, two pending writes can leave two
      decisions on one id if and only if two Decide calls on one id overlap. */
  lemma TwoDecisionsIffOverlap(c: Config, s: System)
    requires Inv(c, s) && FinalInv(s)
    ensures (exists a, b :: CanDecideTwice(c, s, a, b)) <==> !NoOverlap(s)
  {
    if !NoOverlap(s) {
      var a, b :| a in s.deciders && b in s.deciders && a != b && s.deciders[a].rec.id == s.deciders[b].rec.id;
      OverlappingDecidesOverwrite(c, s, a, b);
      var t := Last(Run(c, s, [DecideWrite(a, true), DecideWrite(b, true)]));
      assert t.log[|s.log|].Decided? && t.log[|s.log| + 1].Decided?;
      assert CanDecideTwice(c, s, a, b);
    } else {
      forall a, b ensures !CanDecideTwice(c, s, a, b) {
        DecidesOnce(c, s, a, b);
      }
    }
  }

  lemma DecidesOnce(c: Config, s: System, a: nat, b: nat)
    requires Inv(c, s) && FinalInv(s) && NoOverlap(s)
    ensures !CanDecideTwice(c, s, a, b)
  {
    TwoSteps(c, s, DecideWrite(a, true), DecideWrite(b, true));
    if RunOk(c, s, [DecideWrite(a, true), DecideWrite(b, true)]) {
      var t := Apply(c, s, DecideWrite(a, true));
      StepKeepsInv(c, s, DecideWrite(a, true));
      StepKeepsFinal(c, s, DecideWrite(a, true));
      StepKeepsFinal(c, t, DecideWrite(b, true));
    }
  }

  /** The writes of `a` and `b`, in this order, leave two decisions on one id. */
  ghost predicate CanDecideTwice(c: Config, s: System, a: nat, b: nat) {
    var actions := [DecideWrite(a, true), DecideWrite(b, true)];
    RunOk(c, s, actions) && !FirstIsFinal(Last(Run(c, s, actions)))
  }

  /** Two decisions on one id, with different verdicts. */
  ghost predicate Contradictory(log: seq<Event>) {
    exists i, j :: 0 <= i < j < |log| && Contradict(log[i], log[j])
  }

  predicate Contradict(e: Event, f: Event) {
    e.Decided? && f.Decided? && e.rec.id == f.rec.id && e.rec.state != f.rec.state
  }

  /** The writes of `a` and `b`, in this order, leave contradicting verdicts. */
  ghost predicate CanContradict(c: Config, s: System, a: nat, b: nat) {
    var actions := [DecideWrite(a, true), DecideWrite(b, true)];
    RunOk(c, s, actions) && Contradictory(Last(Run(c, s, actions)).log)
  }

  /** Two Decide calls past their read, on one id and with different decisions. */
  predicate Opposed(s: System, a: nat, b: nat) {
    && a in s.deciders && b in s.deciders && a != b
    && s.deciders[a].rec.id == s.deciders[b].rec.id && s.deciders[a].decision != s.deciders[b].decision
  }

  lemma OpposedContradict(c: Config, s: System, a: nat, b: nat)
    requires Opposed(s, a, b)
    ensures CanContradict(c, s, a, b)
  {
    OverlappingDecidesOverwrite(c, s, a, b);
    var t := Last(Run(c, s, [DecideWrite(a, true), DecideWrite(b, true)]));
    assert Contradict(t.log[|s.log|], t.log[|s.log| + 1]);
  }

  lemma NewIdContradictsNothing(log: seq<Event>, e: Event)
    requires e.Decided? && e.rec.id !in DecidedIds(log)
    ensures forall i :: 0 <= i < |log| ==> !Contradict(log[i], e)
  {
    forall i | 0 <= i < |log| && log[i].Decided? ensures log[i].rec.id != e.rec.id {
      assert log[i].rec.id in DecidedIds(log);
    }
  }

  /** A new pair of decisions contradicts only within itself. */
  lemma PairContradicts(log: seq<Event>, e: Event, f: Event)
    requires e.Decided? && f.Decided? && e.rec.id !in DecidedIds(log) && f.rec.id !in DecidedIds(log)
    requires !Contradictory(log) && Contradictory(log + [e, f])
    ensures Contradict(e, f)
  {
    var all := log + [e, f];
    NewIdContradictsNothing(log, e);
    NewIdContradictsNothing(log, f);
    assert forall k :: 0 <= k < |log| ==> all[k] == log[k];
    var i, j :| 0 <= i < j < |all| && Contradict(all[i], all[j]);
  }

  lemma ContradictionIsOpposed(c: Config, s: System, a: nat, b: nat)
    requires FinalInv(s) && CanContradict(c, s, a, b)
    ensures Opposed(s, a, b)
  {
    TwoSteps(c, s, DecideWrite(a, true), DecideWrite(b, true));
    var e, f := Decided(DecidedRecord(s.deciders[a], s.redis.now)), Decided(DecidedRecord(s.deciders[b], s.redis.now));
    var t := Last(Run(c, s, [DecideWrite(a, true), DecideWrite(b, true)]));
    assert t.log == s.log + [e, f];
    PairContradicts(s.log, e, f);
  }

  /** While decisions are still final, contradicting verdicts can be written if and only if two
      Decide calls with different decisions overlap on one id. */
  lemma ContradictionIffOpposed(c: Config, s: System)
    requires FinalInv(s)
    ensures (exists a, b :: CanContradict(c, s, a, b)) <==> (exists a, b :: Opposed(s, a, b))
  {
    if a, b :| Opposed(s, a, b) {
      OpposedContradict(c, s, a, b);
    } else if a, b :| CanContradict(c, s, a, b) {
      ContradictionIsOpposed(c, s, a, b);
    }
  }

  // ---- the overlap is reachable ----

  lemma {:induction false} RunSnoc(c: Config, s: System, actions: seq<Action>, t: System, a: Action)
    requires RunOk(c, s, actions) && Last(Run(c, s, actions)) == t && Enabled(c, t, a)
    ensures RunOk(c, s, actions + [a]) && Last(Run(c, s, actions + [a])) == Apply(c, t, a)
    decreases |actions|
  {
    if actions == [] {
      assert [] + [a] == [a] && [a][1..] == [];
      assert Run(c, s, [a]) == [s] + Run(c, Apply(c, s, a), []);
    } else {
      var u := Apply(c, s, actions[0]);
      assert (actions + [a])[1..] == actions[1..] + [a];
      assert Last(Run(c, s, actions)) == Last(Run(c, u, actions[1..]));
      RunSnoc(c, u, actions[1..], t, a);
      assert Last(Run(c, s, actions + [a])) == Last(Run(c, u, actions[1..] + [a]));
    }
  }

  /** From the initial state: one request, read by an approving and by a rejecting operator. */
  lemma OverlapReachable(c: Config, s: System, box: string, script: string, id: Id) returns (actions: seq<Action>, t: System)
    requires Init(s) && script != "" && c.classify(script).Sensitive?
    ensures RunOk(c, s, actions) && Last(Run(c, s, actions)) == t && Opposed(t, 0, 1) && t.log == []
    ensures t.sessions == map[0 := Session(box, Waiting(id, script))]
    ensures t.deciders[0].decision == Approve && t.deciders[0].rec.id == id
    ensures t.deciders[0].rec.sandbox == box && t.deciders[0].rec.script == script
  {
    var a1, a2 := Open(0, box), Submit(0, script, id, true);
    var a3, a4 := DecideRead(0, id, Approve, "a"), DecideRead(1, id, Reject, "b");
    assert RunOk(c, s, []) && Last(Run(c, s, [])) == s;
    RunSnoc(c, s, [], s, a1);
    var s1 := Apply(c, s, a1);
    RunSnoc(c, s, [] + [a1], s1, a2);
    var s2 := Apply(c, s1, a2);
    RunSnoc(c, s, [] + [a1] + [a2], s2, a3);
    var s3 := Apply(c, s2, a3);
    RunSnoc(c, s, [] + [a1] + [a2] + [a3], s3, a4);
    t := Apply(c, s3, a4);
    actions := [] + [a1] + [a2] + [a3] + [a4];
  }

  /** And so is its consequence: a script is executed although the record and the audit entry that
      remain say it was rejected. */
  lemma RejectedYetExecuted(c: Config, s: System, box: string, script: string, id: Id) returns (actions: seq<Action>, t: System)
    requires Init(s) && script != "" && c.classify(script).Sensitive?
    ensures RunOk(c, s, actions) && Last(Run(c, s, actions)) == t
    ensures t.log != [] && t.log[|t.log| - 1] == Executed(box, script, Some(id))
    ensures id in t.redis.approvals && t.redis.approvals[id].rec.state == Rejected
    ensures id in t.redis.audit && t.redis.audit[id].rec.state == Rejected
  {
    var a, s4 := OverlapReachable(c, s, box, script, id);
    RunSnoc(c, s, a, s4, DecideWrite(0, true));
    var s5 := Apply(c, s4, DecideWrite(0, true));
    RunSnoc(c, s, a + [DecideWrite(0, true)], s5, Poll(0));
    var s6 := Apply(c, s5, Poll(0));
    assert s6.sessions[0].phase == Ready(script, Some(id));
    RunSnoc(c, s, a + [DecideWrite(0, true)] + [Poll(0)], s6, DecideWrite(1, true));
    var s7 := Apply(c, s6, DecideWrite(1, true));
    RunSnoc(c, s, a + [DecideWrite(0, true)] + [Poll(0)] + [DecideWrite(1, true)], s7, Execute(0));
    t := Apply(c, s7, Execute(0));
    actions := a + [DecideWrite(0, true)] + [Poll(0)] + [DecideWrite(1, true)] + [Execute(0)];
  }

  // ---- the audit entry outlives the record ----

  ghost predicate AuditInv(s: System) {
    forall id :: id in s.redis.approvals && !s.redis.approvals[id].rec.state.Pending? ==>
      id in s.redis.audit && s.redis.approvals[id].expires <= s.redis.audit[id].expires
  }

  lemma StepKeepsAudit(c: Config, s: System, a: Action)
    requires AuditInv(s) && Enabled(c, s, a) && c.ttl <= AUDIT_TTL
    ensures AuditInv(Apply(c, s, a))
  {
    if !WritesRecords(a) {
      var t := Apply(c, s, a);
      assert t.redis.approvals == s.redis.approvals && t.redis.audit == s.redis.audit;
    }
  }

  /** With an approval TTL of at most a year, every decided record that is still readable has
      its audit entry, in all interleavings (AuditInv holds of the initial state). */
  lemma {:induction false} DecidedRecordsAreAudited(c: Config, s: System, actions: seq<Action>)
    requires AuditInv(s) && RunOk(c, s, actions) && c.ttl <= AUDIT_TTL
    ensures AuditInv(Last(Run(c, s, actions)))
    decreases |actions|
  {
    if actions != [] {
      StepKeepsAudit(c, s, actions[0]);
      DecidedRecordsAreAudited(c, Apply(c, s, actions[0]), actions[1..]);
      assert Last(Run(c, s, actions)) == Last(Run(c, Apply(c, s, actions[0]), actions[1..]));
    }
  }
}
