/** Safety of the approval gate: nothing sensitive runs without its own approval. */
module HitlSafety {
  import opened Wrappers
  import opened HitlModel

  /** The two records describe the same request; they may differ in the verdict. */
  predicate SameRequest(a: Record, b: Record) {
    a.id == b.id && a.sandbox == b.sandbox && a.script == b.script && a.reason == b.reason
    && a.submittedAt == b.submittedAt
  }

  predicate IsApproval(e: Event, id: Id, sandbox: string, script: string) {
    e.Decided? && e.rec.state.Approved? && e.rec.id == id && e.rec.sandbox == sandbox && e.rec.script == script
  }

  ghost predicate ApprovedBefore(log: seq<Event>, n: int, id: Id, sandbox: string, script: string)
    requires n <= |log|
  {
    exists j :: 0 <= j < n && IsApproval(log[j], id, sandbox, script)
  }

  predicate RanFor(e: Event, id: Id) {
    e.Executed? && e.approval == Some(id)
  }

  /** The execution logged at `i` was benign, or follows an approval of exactly that script on
      exactly that sandbox. */
  ghost predicate Justified(c: Config, log: seq<Event>, i: int)
    requires 0 <= i < |log| && log[i].Executed?
  {
    var e := log[i];
    if e.approval.None? then c.classify(e.script).Benign?
    else ApprovedBefore(log, i, e.approval.value, e.sandbox, e.script)
  }

  /** Every execution is justified, and no approval justifies two. */
  ghost predicate SafeLog(c: Config, log: seq<Event>) {
    && (forall i :: 0 <= i < |log| && log[i].Executed? ==> Justified(c, log, i))
    && (forall i, j, id :: 0 <= i < j < |log| && RanFor(log[i], id) ==> !RanFor(log[j], id))
  }

  // ---- the inductive invariant ----

  /** The approval a session is about to spend. */
  function Claim(p: Phase): Option<Id> {
    match p
    case Waiting(id, _) => Some(id)
    case Ready(_, approval) => approval
    case _ => None
  }

  function ScriptOf(p: Phase): string {
    match p
    case Waiting(_, script) => script
    case Ready(script, _) => script
    case _ => ""
  }

  ghost predicate StoreInv(s: System) {
    && (forall id :: id in s.submitted ==> s.submitted[id].id == id)
    && (forall id :: id in s.redis.approvals ==>
          var rec := s.redis.approvals[id].rec;
          && id in s.submitted && SameRequest(rec, s.submitted[id])
          && (rec.state.Approved? ==> ApprovedBefore(s.log, |s.log|, id, rec.sandbox, rec.script)))
    && (forall d :: d in s.deciders ==>
          var rec := s.deciders[d].rec;
          rec.state.Pending? && rec.id in s.submitted && SameRequest(rec, s.submitted[rec.id]))
  }

  ghost predicate SessionInv(c: Config, s: System, sid: nat)
    requires sid in s.sessions
  {
    var p := s.sessions[sid].phase;
    && (p.Ready? && p.approval.None? ==> c.classify(p.script).Benign?)
    && (Claim(p).Some? ==>
          var id := Claim(p).value;
          && id in s.submitted
          && s.submitted[id].sandbox == s.sessions[sid].sandbox && s.submitted[id].script == ScriptOf(p)
          && (forall i :: 0 <= i < |s.log| ==> !RanFor(s.log[i], id))
          && (p.Ready? ==> ApprovedBefore(s.log, |s.log|, id, s.sessions[sid].sandbox, p.script)))
  }

  ghost predicate ClaimsDistinct(s: System) {
    forall a, b :: a in s.sessions && b in s.sessions && a != b && Claim(s.sessions[a].phase).Some? ==>
      Claim(s.sessions[a].phase) != Claim(s.sessions[b].phase)
  }

  ghost predicate LogInv(c: Config, s: System) {
    && SafeLog(c, s.log)
    && (forall i :: 0 <= i < |s.log| && s.log[i].Executed? && s.log[i].approval.Some? ==>
          s.log[i].approval.value in s.submitted)
  }

  ghost predicate Inv(c: Config, s: System) {
    && StoreInv(s)
    && (forall sid :: sid in s.sessions ==> SessionInv(c, s, sid))
    && ClaimsDistinct(s)
    && LogInv(c, s)
  }

  // ---- preservation ----

  /** Appending to the log keeps approvals visible. */
  lemma ApprovedExtends(log: seq<Event>, e: Event, n: int, id: Id, sandbox: string, script: string)
    requires n <= |log| && ApprovedBefore(log, n, id, sandbox, script)
    ensures ApprovedBefore(log + [e], n, id, sandbox, script)
    ensures ApprovedBefore(log + [e], |log| + 1, id, sandbox, script)
  {
    var j :| 0 <= j < n && IsApproval(log[j], id, sandbox, script);
    assert IsApproval((log + [e])[j], id, sandbox, script);
  }

  lemma SafeLogExtends(c: Config, log: seq<Event>, e: Event)
    requires SafeLog(c, log)
    requires e.Executed? ==> Justified(c, log + [e], |log|)
    requires e.Executed? && e.approval.Some? ==> forall i :: 0 <= i < |log| ==> !RanFor(log[i], e.approval.value)
    ensures SafeLog(c, log + [e])
  {
    var log' := log + [e];
    forall i | 0 <= i < |log'| && log'[i].Executed? ensures Justified(c, log', i) {
      if i < |log| {
        assert Justified(c, log, i);
        if log[i].approval.Some? {
          ApprovedExtends(log, e, i, log[i].approval.value, log[i].sandbox, log[i].script);
        }
      }
    }
  }

  /** Everything an appended event must not disturb. */
  lemma StoreExtends(s: System, t: System, e: Event)
    requires StoreInv(s) && t.log == s.log + [e]
    requires t.redis.approvals == s.redis.approvals && t.submitted == s.submitted && t.deciders == s.deciders
    ensures StoreInv(t)
  {
    forall id | id in t.redis.approvals && t.redis.approvals[id].rec.state.Approved?
      ensures ApprovedBefore(t.log, |t.log|, id, t.redis.approvals[id].rec.sandbox, t.redis.approvals[id].rec.script)
    {
      ApprovedExtends(s.log, e, |s.log|, id, s.redis.approvals[id].rec.sandbox, s.redis.approvals[id].rec.script);
    }
  }

  lemma SessionExtends(c: Config, s: System, t: System, sid: nat, e: Event)
    requires sid in s.sessions && SessionInv(c, s, sid) && t.log == s.log + [e]
    requires sid in t.sessions && t.sessions[sid] == s.sessions[sid] && t.submitted == s.submitted
    requires Claim(s.sessions[sid].phase).Some? ==> !RanFor(e, Claim(s.sessions[sid].phase).value)
    ensures SessionInv(c, t, sid)
  {
    var p := s.sessions[sid].phase;
    if p.Ready? && p.approval.Some? {
      ApprovedExtends(s.log, e, |s.log|, p.approval.value, s.sessions[sid].sandbox, p.script);
    }
  }

  lemma SubmitKeepsInv(c: Config, s: System, a: Action)
    requires Inv(c, s) && Enabled(c, s, a) && a.Submit?
    ensures Inv(c, Apply(c, s, a))
  {
    var t := Apply(c, s, a);
    assert forall id :: id in s.submitted ==> id in t.submitted && t.submitted[id] == s.submitted[id];
    forall sid | sid in t.sessions ensures SessionInv(c, t, sid) {
      assert SessionInv(c, s, sid);
    }
  }

  lemma ExecuteKeepsInv(c: Config, s: System, a: Action)
    requires Inv(c, s) && Enabled(c, s, a) && a.Execute?
    ensures Inv(c, Apply(c, s, a))
  {
    var t := Apply(c, s, a);
    var p := s.sessions[a.sid].phase;
    var e := Executed(s.sessions[a.sid].sandbox, p.script, p.approval);
    assert SessionInv(c, s, a.sid);
    StoreExtends(s, t, e);
    if p.approval.Some? {
      ApprovedExtends(s.log, e, |s.log|, p.approval.value, s.sessions[a.sid].sandbox, p.script);
    }
    SafeLogExtends(c, s.log, e);
    forall sid | sid in t.sessions ensures SessionInv(c, t, sid) {
      assert SessionInv(c, s, sid);
      if sid != a.sid {
        SessionExtends(c, s, t, sid, e);
      }
    }
  }

  lemma DecideWriteKeepsInv(c: Config, s: System, a: Action)
    requires Inv(c, s) && Enabled(c, s, a) && a.DecideWrite? && a.applied
    ensures Inv(c, Apply(c, s, a))
  {
    var t := Apply(c, s, a);
    var rec := DecidedRecord(s.deciders[a.did], s.redis.now);
    var e := Decided(rec);
    var u := s.(log := t.log, deciders := t.deciders);
    StoreExtends(s.(deciders := t.deciders), u, e);
    if rec.state.Approved? {
      assert IsApproval(t.log[|s.log|], rec.id, rec.sandbox, rec.script);
    }
    SafeLogExtends(c, s.log, e);
    forall sid | sid in t.sessions ensures SessionInv(c, t, sid) {
      SessionExtends(c, s, t, sid, e);
    }
  }

  lemma PollKeepsInv(c: Config, s: System, a: Action)
    requires Inv(c, s) && Enabled(c, s, a) && a.Poll?
    ensures Inv(c, Apply(c, s, a))
  {
    var t := Apply(c, s, a);
    assert SessionInv(c, s, a.sid);
    forall sid | sid in t.sessions ensures SessionInv(c, t, sid) {
      assert SessionInv(c, s, sid);
    }
  }

  lemma StepKeepsInv(c: Config, s: System, a: Action)
    requires Inv(c, s) && Enabled(c, s, a)
    ensures Inv(c, Apply(c, s, a))
  {
    if a.Submit? {
      SubmitKeepsInv(c, s, a);
    } else if a.Execute? {
      ExecuteKeepsInv(c, s, a);
    } else if a.DecideWrite? && a.applied {
      DecideWriteKeepsInv(c, s, a);
    } else if a.Poll? {
      PollKeepsInv(c, s, a);
    } else {
      QuietKeepsInv(c, s, a);
    }
  }

  /** Steps that neither log, nor submit, nor claim an approval. */
  predicate Quiet(a: Action) {
    !(a.Submit? || a.Execute? || a.Poll? || (a.DecideWrite? && a.applied))
  }

  lemma QuietKeepsInv(c: Config, s: System, a: Action)
    requires Inv(c, s) && Enabled(c, s, a) && Quiet(a)
    ensures Inv(c, Apply(c, s, a))
  {
    var t := Apply(c, s, a);
    assert t.log == s.log && t.submitted == s.submitted;
    QuietKeepsStore(c, s, a);
    QuietKeepsClaims(c, s, a);
    forall sid | sid in t.sessions ensures SessionInv(c, t, sid) {
      if sid in s.sessions {
        assert SessionInv(c, s, sid);
      }
      QuietKeepsSession(c, s, a, sid);
    }
  }

  lemma QuietKeepsStore(c: Config, s: System, a: Action)
    requires StoreInv(s) && Enabled(c, s, a) && Quiet(a)
    ensures StoreInv(Apply(c, s, a))
  {
    if !a.Tick? && !a.DecideRead? && !a.DecideWrite? {
      var t := Apply(c, s, a);
      assert t.redis.approvals == s.redis.approvals && t.deciders == s.deciders && t.submitted == s.submitted;
    }
  }

  lemma QuietKeepsSession(c: Config, s: System, a: Action, sid: nat)
    requires sid in s.sessions ==> SessionInv(c, s, sid)
    requires Enabled(c, s, a) && Quiet(a) && sid in Apply(c, s, a).sessions
    ensures SessionInv(c, Apply(c, s, a), sid)
  {
    var t := Apply(c, s, a);
    assert t.log == s.log && t.submitted == s.submitted;
  }

  lemma QuietKeepsClaims(c: Config, s: System, a: Action)
    requires ClaimsDistinct(s) && Enabled(c, s, a) && Quiet(a)
    ensures ClaimsDistinct(Apply(c, s, a))
  {
  }

  lemma {:induction false} RunKeepsInv(c: Config, s: System, actions: seq<Action>)
    requires Inv(c, s) && RunOk(c, s, actions)
    ensures forall i :: 0 <= i <= |actions| ==> Inv(c, Run(c, s, actions)[i])
    decreases |actions|
  {
    if actions != [] {
      StepKeepsInv(c, s, actions[0]);
      RunKeepsInv(c, Apply(c, s, actions[0]), actions[1..]);
    }
  }

  /** In every interleaving of sessions, operators, dashboards and expiry: every execution is
      benign or preceded by an approval of exactly that script for that sandbox, and one
      approval id is spent at most once. */
  lemma NothingRunsUnapproved(c: Config, s: System, actions: seq<Action>)
    requires Init(s) && RunOk(c, s, actions)
    ensures SafeLog(c, Last(Run(c, s, actions)).log)
  {
    RunKeepsInv(c, s, actions);
  }
}
