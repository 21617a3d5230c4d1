/** Causes in a run: what an operator did before a script ran, how long a request can be answered, and
    what a waiting session makes of it.  Everything is said of the actions of the run and the instants
    at which they happen. */
module HitlTraces {
  import opened Wrappers
  import opened Scripts
  import opened HitlModel
  import opened HitlSafety

  lemma {:induction false} StepAt(c: Config, s: System, actions: seq<Action>, i: nat)
    requires RunOk(c, s, actions) && i < |actions|
    ensures Enabled(c, Run(c, s, actions)[i], actions[i])
    ensures Run(c, s, actions)[i + 1] == Apply(c, Run(c, s, actions)[i], actions[i])
    decreases |actions|
  {
    if i > 0 {
      StepAt(c, Apply(c, s, actions[0]), actions[1..], i - 1);
    }
  }

  // ---- where a Decide call under way comes from ----

  /** In one step: it was under way before, or this is its read. */
  ghost predicate DeciderLink(u: System, a: Action, t: System, d: nat) {
    d in t.deciders ==>
      || (d in u.deciders && t.deciders[d] == u.deciders[d] && !(a.DecideWrite? && a.did == d))
      || (a.DecideRead? && a.did == d && LivePending(u, a.id)
          && t.deciders[d] == Decider(a.decision, a.who, u.redis.approvals[a.id].rec))
  }

  lemma DeciderStep(c: Config, u: System, a: Action, d: nat)
    requires Enabled(c, u, a)
    ensures DeciderLink(u, a, Apply(c, u, a), d)
  {
  }

  /** Action `i` is the read of the Decide call `d` that is under way in state `n`. */
  ghost predicate ReadBy(run: seq<System>, actions: seq<Action>, i: int, n: int, d: nat)
    requires |run| == |actions| + 1
  {
    && 0 <= i < n <= |actions| && actions[i].DecideRead? && actions[i].did == d && LivePending(run[i], actions[i].id)
    && d in run[n].deciders
    && run[n].deciders[d] == Decider(actions[i].decision, actions[i].who, run[i].redis.approvals[actions[i].id].rec)
    && (forall m :: i < m < n ==> !(actions[m].DecideWrite? && actions[m].did == d))
  }

  lemma {:induction false} DeciderBack(run: seq<System>, actions: seq<Action>, n: nat, d: nat) returns (i: int)
    requires |run| == |actions| + 1 && n <= |actions| && run[0].deciders == map[] && d in run[n].deciders
    requires forall k :: 0 <= k < |actions| ==> DeciderLink(run[k], actions[k], run[k + 1], d)
    ensures ReadBy(run, actions, i, n, d)
    decreases n
  {
    assert n > 0;
    assert DeciderLink(run[n - 1], actions[n - 1], run[n - 1 + 1], d);
    var a := actions[n - 1];
    if d in run[n - 1].deciders && run[n].deciders[d] == run[n - 1].deciders[d] && !(a.DecideWrite? && a.did == d) {
      i := DeciderBack(run, actions, n - 1, d);
    } else {
      i := n - 1;
    }
  }

  lemma DeciderSince(c: Config, s: System, actions: seq<Action>, n: nat, d: nat) returns (i: int)
    requires Init(s) && RunOk(c, s, actions) && n <= |actions| && d in Run(c, s, actions)[n].deciders
    ensures ReadBy(Run(c, s, actions), actions, i, n, d)
  {
    var run := Run(c, s, actions);
    forall k | 0 <= k < |actions| ensures DeciderLink(run[k], actions[k], run[k + 1], d) {
      StepAt(c, s, actions, k);
      DeciderStep(c, run[k], actions[k], d);
    }
    i := DeciderBack(run, actions, n, d);
  }

  // ---- where a log entry comes from ----

  /** The verdict that a Decide call leaves when it writes at `now`: the operator's decision, name and
      the instant, on the request as it was. */
  predicate Verdict(d: Decider, now: int, rec: Record) {
    && rec.id == d.rec.id && rec.sandbox == d.rec.sandbox && rec.script == d.rec.script && rec.reason == d.rec.reason
    && rec.submittedAt == d.rec.submittedAt && rec.decidedBy == d.who && rec.decidedAt == Some(now)
    && (d.decision == Approve ==> rec.state == Approved) && (d.decision == Reject ==> rec.state == Rejected)
  }

  /** The step logs `e`. */
  ghost predicate Logs(u: System, a: Action, t: System, e: Event) {
    && t.log == u.log + [e]
    && match e
       case Decided(rec) =>
         a.DecideWrite? && a.applied && a.did in u.deciders && Verdict(u.deciders[a.did], u.redis.now, rec)
       case Executed(_, _, _) => a.Execute?
  }

  ghost predicate LogLink(u: System, a: Action, t: System) {
    t.log == u.log || (|t.log| == |u.log| + 1 && Logs(u, a, t, t.log[|u.log|]))
  }

  lemma LogStep(c: Config, u: System, a: Action)
    requires Enabled(c, u, a)
    ensures LogLink(u, a, Apply(c, u, a))
  {
  }

  /** Action `j` logged entry `p`. */
  ghost predicate LoggedBy(run: seq<System>, actions: seq<Action>, j: int, p: int, e: Event)
    requires |run| == |actions| + 1
  {
    0 <= j < |actions| && |run[j].log| == p && Logs(run[j], actions[j], run[j + 1], e)
  }

  lemma {:induction false} LogBack(run: seq<System>, actions: seq<Action>, n: nat, p: nat) returns (j: int)
    requires |run| == |actions| + 1 && n <= |actions| && run[0].log == [] && p < |run[n].log|
    requires forall k :: 0 <= k < |actions| ==> LogLink(run[k], actions[k], run[k + 1])
    ensures j < n && LoggedBy(run, actions, j, p, run[n].log[p])
    decreases n
  {
    assert n > 0;
    assert LogLink(run[n - 1], actions[n - 1], run[n - 1 + 1]);
    if p < |run[n - 1].log| {
      j := LogBack(run, actions, n - 1, p);
    } else {
      j := n - 1;
    }
  }

  lemma LogLinks(c: Config, s: System, actions: seq<Action>)
    requires RunOk(c, s, actions)
    ensures var run := Run(c, s, actions); forall k :: 0 <= k < |actions| ==> LogLink(run[k], actions[k], run[k + 1])
  {
    var run := Run(c, s, actions);
    forall k | 0 <= k < |actions| ensures LogLink(run[k], actions[k], run[k + 1]) {
      StepAt(c, s, actions, k);
      LogStep(c, run[k], actions[k]);
    }
  }

  lemma {:induction false} LogGrows(run: seq<System>, actions: seq<Action>, i: nat, j: nat)
    requires |run| == |actions| + 1 && i <= j <= |actions|
    requires forall k :: 0 <= k < |actions| ==> LogLink(run[k], actions[k], run[k + 1])
    ensures |run[i].log| <= |run[j].log|
    decreases j
  {
    if i < j {
      LogGrows(run, actions, i, j - 1);
      assert LogLink(run[j - 1], actions[j - 1], run[j - 1 + 1]);
    }
  }

  // ---- an operator approved what ran ----

  /** Action `i` is an approving read of request `id` with this script and sandbox, and action `j` the
      applied write of the same call. */
  ghost predicate ApprovedBy(run: seq<System>, actions: seq<Action>, i: int, j: int, id: Id, box: string, script: string)
    requires |run| == |actions| + 1
  {
    && 0 <= i < j < |actions| && actions[i].DecideRead? && actions[i].id == id && actions[i].decision == Approve
    && LivePending(run[i], id) && run[i].redis.approvals[id].rec.sandbox == box
    && run[i].redis.approvals[id].rec.script == script
    && actions[j] == DecideWrite(actions[i].did, true)
    && (forall m :: i < m < j ==> !(actions[m].DecideWrite? && actions[m].did == actions[i].did))
  }

  lemma StoredIdAt(c: Config, s: System, actions: seq<Action>, i: nat, id: Id)
    requires Init(s) && RunOk(c, s, actions) && i <= |actions| && id in Run(c, s, actions)[i].redis.approvals
    ensures Run(c, s, actions)[i].redis.approvals[id].rec.id == id
  {
    RunKeepsInv(c, s, actions);
    assert Inv(c, Run(c, s, actions)[i]);
  }

  /** A logged approval is the work of an approving Decide call. */
  lemma ApprovalHasOperator(c: Config, s: System, actions: seq<Action>, n: nat, q: nat) returns (i: int, j: int)
    requires Init(s) && RunOk(c, s, actions) && n <= |actions| && q < |Run(c, s, actions)[n].log|
    requires var e := Run(c, s, actions)[n].log[q]; e.Decided? && e.rec.state == Approved
    ensures var run := Run(c, s, actions);
            var rec := run[n].log[q].rec;
            ApprovedBy(run, actions, i, j, rec.id, rec.sandbox, rec.script) && j < n && |run[j].log| == q
  {
    var run := Run(c, s, actions);
    LogLinks(c, s, actions);
    j := LogBack(run, actions, n, q);
    var d := actions[j].did;
    i := DeciderSince(c, s, actions, j, d);
    StoredIdAt(c, s, actions, i, actions[i].id);
  }

  /** In every interleaving: a script that was executed under an approval id was executed after an
      operator's Decide call that read the request with exactly this script and sandbox, carried
      `approve`, and had its write applied. */
  lemma ExecutedWasApproved(c: Config, s: System, actions: seq<Action>, p: nat) returns (i: int, j: int, k: int)
    requires Init(s) && RunOk(c, s, actions) && p < |Last(Run(c, s, actions)).log|
    requires var e := Last(Run(c, s, actions)).log[p]; e.Executed? && e.approval.Some?
    ensures var run := Run(c, s, actions);
            var e := Last(run).log[p];
            && ApprovedBy(run, actions, i, j, e.approval.value, e.sandbox, e.script)
            && j < k && LoggedBy(run, actions, k, p, e)
  {
    var run, n := Run(c, s, actions), |actions|;
    NothingRunsUnapproved(c, s, actions);
    var log := run[n].log;
    var e := log[p];
    assert Justified(c, log, p);
    var q :| 0 <= q < p && IsApproval(log[q], e.approval.value, e.sandbox, e.script);
    i, j := ApprovalHasOperator(c, s, actions, n, q);
    LogLinks(c, s, actions);
    k := LogBack(run, actions, n, p);
    if k <= j {
      LogGrows(run, actions, k, j);
    }
  }

  /** So a request whose Decide calls all carry `reject` is never executed. */
  lemma RejectedNeverRuns(c: Config, s: System, actions: seq<Action>, id: Id, p: nat)
    requires Init(s) && RunOk(c, s, actions) && p < |Last(Run(c, s, actions)).log|
    requires forall i :: 0 <= i < |actions| && actions[i].DecideRead? && actions[i].id == id ==> actions[i].decision == Reject
    ensures !RanFor(Last(Run(c, s, actions)).log[p], id)
  {
    if RanFor(Last(Run(c, s, actions)).log[p], id) {
      var i, j, k := ExecutedWasApproved(c, s, actions, p);
    }
  }

  // ---- how long a record can be read ----

  /** The record is readable, as written, exactly before `expires`. */
  ghost predicate Readable(s: System, id: Id, rec: Record, expires: int) {
    if s.redis.now < expires then id in s.redis.approvals && s.redis.approvals[id] == Timed(rec, expires)
    else id !in s.redis.approvals
  }

  ghost predicate Audited(s: System, id: Id, rec: Record, expires: int) {
    if s.redis.now < expires then id in s.redis.audit && s.redis.audit[id] == Timed(rec, expires)
    else id !in s.redis.audit
  }

  /** The step applies a decision on `id`. */
  predicate DecidesOn(u: System, a: Action, id: Id) {
    a.DecideWrite? && a.applied && a.did in u.deciders && u.deciders[a.did].rec.id == id
  }

  lemma StepKeepsReadable(c: Config, u: System, a: Action, id: Id, rec: Record, expires: int)
    requires Enabled(c, u, a) && !DecidesOn(u, a, id) && id in u.submitted && Readable(u, id, rec, expires)
    ensures Readable(Apply(c, u, a), id, rec, expires) && id in Apply(c, u, a).submitted
  {
    if !a.Tick? && !a.Submit? && !a.DecideWrite? {
      assert Apply(c, u, a).redis.approvals == u.redis.approvals;
    }
  }

  lemma StepKeepsAudited(c: Config, u: System, a: Action, id: Id, rec: Record, expires: int)
    requires Enabled(c, u, a) && !DecidesOn(u, a, id) && Audited(u, id, rec, expires)
    ensures Audited(Apply(c, u, a), id, rec, expires)
  {
    if !a.Tick? && !a.DecideWrite? {
      assert Apply(c, u, a).redis.audit == u.redis.audit;
    }
  }

  /** No decision on `id` is applied by the actions `k`, ..., `n - 1`. */
  ghost predicate Undisturbed(run: seq<System>, actions: seq<Action>, k: nat, n: nat, id: Id)
    requires |run| == |actions| + 1 && n <= |actions|
  {
    forall m :: k <= m < n ==> !DecidesOn(run[m], actions[m], id)
  }

  lemma {:induction false} ReadableUntil(c: Config, s: System, actions: seq<Action>, k: nat, n: nat, id: Id, rec: Record, expires: int)
    requires RunOk(c, s, actions) && k <= n <= |actions| && Undisturbed(Run(c, s, actions), actions, k, n, id)
    requires id in Run(c, s, actions)[k].submitted && Readable(Run(c, s, actions)[k], id, rec, expires)
    ensures id in Run(c, s, actions)[n].submitted && Readable(Run(c, s, actions)[n], id, rec, expires)
    decreases n
  {
    if k < n {
      ReadableUntil(c, s, actions, k, n - 1, id, rec, expires);
      StepAt(c, s, actions, n - 1);
      StepKeepsReadable(c, Run(c, s, actions)[n - 1], actions[n - 1], id, rec, expires);
    }
  }

  lemma {:induction false} AuditedUntil(c: Config, s: System, actions: seq<Action>, k: nat, n: nat, id: Id, rec: Record, expires: int)
    requires RunOk(c, s, actions) && k <= n <= |actions| && Undisturbed(Run(c, s, actions), actions, k, n, id)
    requires Audited(Run(c, s, actions)[k], id, rec, expires)
    ensures Audited(Run(c, s, actions)[n], id, rec, expires)
    decreases n
  {
    if k < n {
      AuditedUntil(c, s, actions, k, n - 1, id, rec, expires);
      StepAt(c, s, actions, n - 1);
      StepKeepsAudited(c, Run(c, s, actions)[n - 1], actions[n - 1], id, rec, expires);
    }
  }

  lemma SubmitWrites(c: Config, u: System, a: Action)
    requires Enabled(c, u, a) && a.Submit? && c.ttl > 0
    ensures var t := Apply(c, u, a);
            && a.sid in u.sessions && c.classify(a.script).Sensitive? && a.id in t.submitted
            && Readable(t, a.id, Record(a.id, u.sessions[a.sid].sandbox, a.script, c.classify(a.script).reason, Pending,
                                        u.redis.now, "", None), u.redis.now + c.ttl)
  {
  }

  /** In every interleaving: from its Submit at instant t0 on, as long as no decision on it is applied,
      a request is readable, pending and as submitted, exactly before t0 + ttl. */
  lemma RequestLifetime(c: Config, s: System, actions: seq<Action>, k: nat, n: nat) returns (rec: Record)
    requires Init(s) && RunOk(c, s, actions) && k < n <= |actions| && actions[k].Submit? && c.ttl > 0
    requires Undisturbed(Run(c, s, actions), actions, k + 1, n, actions[k].id)
    ensures rec.id == actions[k].id && rec.script == actions[k].script && rec.state == Pending
    ensures rec.submittedAt == Run(c, s, actions)[k].redis.now && c.classify(actions[k].script) == Sensitive(rec.reason)
    ensures actions[k].sid in Run(c, s, actions)[k].sessions
    ensures rec.sandbox == Run(c, s, actions)[k].sessions[actions[k].sid].sandbox
    ensures Readable(Run(c, s, actions)[n], actions[k].id, rec, Run(c, s, actions)[k].redis.now + c.ttl)
    ensures LivePending(Run(c, s, actions)[n], actions[k].id)
       <==> Run(c, s, actions)[n].redis.now < Run(c, s, actions)[k].redis.now + c.ttl
  {
    var run, a := Run(c, s, actions), actions[k];
    StepAt(c, s, actions, k);
    SubmitWrites(c, run[k], a);
    rec := Record(a.id, run[k].sessions[a.sid].sandbox, a.script, c.classify(a.script).reason, Pending,
                  run[k].redis.now, "", None);
    ReadableUntil(c, s, actions, k + 1, n, a.id, rec, run[k].redis.now + c.ttl);
  }

  const YEAR: int := 31536000

  lemma DecisionWrites(c: Config, u: System, a: Action) returns (rec: Record)
    requires Enabled(c, u, a) && a.DecideWrite? && a.applied && c.ttl > 0
    ensures var t := Apply(c, u, a);
            && a.did in u.deciders && Verdict(u.deciders[a.did], u.redis.now, rec) && t.submitted == u.submitted
            && Readable(t, rec.id, rec, u.redis.now + c.ttl) && Audited(t, rec.id, rec, u.redis.now + YEAR)
  {
    rec := DecidedRecord(u.deciders[a.did], u.redis.now);
  }

  lemma DeciderIsSubmitted(c: Config, s: System, actions: seq<Action>, k: nat, d: nat)
    requires Init(s) && RunOk(c, s, actions) && k <= |actions| && d in Run(c, s, actions)[k].deciders
    ensures Run(c, s, actions)[k].deciders[d].rec.id in Run(c, s, actions)[k].submitted
  {
    RunKeepsInv(c, s, actions);
    assert Inv(c, Run(c, s, actions)[k]);
  }

  /** In every interleaving: after an applied decision at instant t1, as long as no other on the same id
      is applied, the verdict is readable exactly before t1 + ttl and its audit entry exactly before
      t1 + one year, and both are the operator's decision. */
  lemma DecisionLifetime(c: Config, s: System, actions: seq<Action>, k: nat, n: nat) returns (rec: Record)
    requires Init(s) && RunOk(c, s, actions) && k < n <= |actions| && c.ttl > 0
    requires actions[k].DecideWrite? && actions[k].applied && actions[k].did in Run(c, s, actions)[k].deciders
    requires Undisturbed(Run(c, s, actions), actions, k + 1, n, Run(c, s, actions)[k].deciders[actions[k].did].rec.id)
    ensures var run := Run(c, s, actions);
            && Verdict(run[k].deciders[actions[k].did], run[k].redis.now, rec)
            && Readable(run[n], rec.id, rec, run[k].redis.now + c.ttl)
            && Audited(run[n], rec.id, rec, run[k].redis.now + YEAR)
  {
    var run := Run(c, s, actions);
    StepAt(c, s, actions, k);
    DeciderIsSubmitted(c, s, actions, k, actions[k].did);
    rec := DecisionWrites(c, run[k], actions[k]);
    ReadableUntil(c, s, actions, k + 1, n, rec.id, rec, run[k].redis.now + c.ttl);
    AuditedUntil(c, s, actions, k + 1, n, rec.id, rec, run[k].redis.now + YEAR);
  }

  // ---- what a waiting session makes of it ----

  /** Session `sid` polls for request `id` in action `n`. */
  predicate Polls(run: seq<System>, actions: seq<Action>, n: nat, sid: nat, id: Id, script: string)
    requires |run| == |actions| + 1 && n < |actions|
  {
    actions[n] == Poll(sid) && sid in run[n].sessions && run[n].sessions[sid].phase == Waiting(id, script)
  }

  lemma PollStep(c: Config, u: System, sid: nat, id: Id, script: string)
    requires sid in u.sessions && u.sessions[sid].phase == Waiting(id, script)
    ensures Enabled(c, u, Poll(sid)) && sid in Apply(c, u, Poll(sid)).sessions
    ensures var p := Apply(c, u, Poll(sid)).sessions[sid].phase;
            && (id !in u.redis.approvals ==> p == Idle)
            && (id in u.redis.approvals ==>
                  var st := u.redis.approvals[id].rec.state;
                  && (st == Pending ==> p == Waiting(id, script)) && (st == Rejected ==> p == Idle)
                  && (st == Approved ==> p == Ready(script, Some(id))))
  {
  }

  /** Until a decision is applied a poll goes on waiting exactly before the request's lifetime is over,
      and takes it as rejected from then on. */
  lemma PollBeforeDecision(c: Config, s: System, actions: seq<Action>, k: nat, n: nat, sid: nat, script: string)
    requires Init(s) && RunOk(c, s, actions) && k < n < |actions| && actions[k].Submit? && c.ttl > 0
    requires Undisturbed(Run(c, s, actions), actions, k + 1, n, actions[k].id)
    requires Polls(Run(c, s, actions), actions, n, sid, actions[k].id, script)
    ensures var run := Run(c, s, actions);
            && sid in run[n + 1].sessions
            && run[n + 1].sessions[sid].phase ==
               if run[n].redis.now < run[k].redis.now + c.ttl then Waiting(actions[k].id, script) else Idle
  {
    var rec := RequestLifetime(c, s, actions, k, n);
    StepAt(c, s, actions, n);
    PollStep(c, Run(c, s, actions)[n], sid, actions[k].id, script);
  }

  /** After an applied decision, as long as there is no other, a poll lets the script run exactly if
      that decision was `approve` and the verdict's lifetime is not over; otherwise it is a rejection. */
  lemma PollAfterDecision(c: Config, s: System, actions: seq<Action>, k: nat, n: nat, sid: nat, id: Id, script: string)
    requires Init(s) && RunOk(c, s, actions) && k < n < |actions| && c.ttl > 0
    requires DecidesOn(Run(c, s, actions)[k], actions[k], id) && Undisturbed(Run(c, s, actions), actions, k + 1, n, id)
    requires Polls(Run(c, s, actions), actions, n, sid, id, script)
    ensures var run := Run(c, s, actions);
            && sid in run[n + 1].sessions
            && run[n + 1].sessions[sid].phase ==
               if run[k].deciders[actions[k].did].decision == Approve && run[n].redis.now < run[k].redis.now + c.ttl
               then Ready(script, Some(id)) else Idle
  {
    var rec := DecisionLifetime(c, s, actions, k, n);
    StepAt(c, s, actions, n);
    PollStep(c, Run(c, s, actions)[n], sid, id, script);
  }
}
