/** The approval protocol as a state machine: terminal sessions (internal/gateway/proxy.go),
    operators calling Decide, dashboards calling Pending (internal/hitl/gate.go), and Redis
    key expiry, in every interleaving.

    One action is one Redis round trip or one local step of a session.  Decide is split into
    its read and its write batch.  The history (`submitted`, `log`) is only ever appended to. */
module HitlModel {
  import opened Wrappers
  import opened Scripts

  type Id = string

  datatype State = Pending | Approved | Rejected

  datatype Decision = Approve | Reject

  datatype Record = Record(id: Id, sandbox: string, script: string, reason: string, state: State,
                           submittedAt: int, decidedBy: string, decidedAt: Option<int>)

  /** A Redis value with the instant at which its key disappears. */
  datatype Timed = Timed(rec: Record, expires: int)

  /** The keys the gate uses, as visible at `now`: expired keys are already gone. */
  datatype Redis = Redis(now: int, approvals: map<Id, Timed>, pending: set<Id>, pendingExpires: int,
                         audit: map<Id, Timed>)

  /** Approval TTL and classifier; the classifier is an arbitrary function. */
  datatype Config = Config(ttl: int, classify: Classifier)

  const AUDIT_TTL: int := 365 * 24 * 3600

  datatype Phase =
    | Idle
    | Waiting(id: Id, script: string)
    | Ready(script: string, approval: Option<Id>)
    | Ended

  datatype Session = Session(sandbox: string, phase: Phase)

  /** A Decide call between its read and its write. */
  datatype Decider = Decider(decision: Decision, who: string, rec: Record)

  /** A Pending call: ids still to read, the id being healed, records found. */
  datatype Lister = Lister(todo: set<Id>, healing: Option<Id>, found: map<Id, Record>)

  datatype Event =
    | Decided(rec: Record)
    | Executed(sandbox: string, script: string, approval: Option<Id>)

  datatype System = System(redis: Redis, sessions: map<nat, Session>, deciders: map<nat, Decider>,
                           listers: map<nat, Lister>, submitted: map<Id, Record>, log: seq<Event>)

  datatype Action =
    | Tick(delta: nat)
    | Open(sid: nat, box: string)
    | RunBenign(sid: nat, script: string)
    | Submit(sid: nat, script: string, id: Id, reported: bool)
    | Poll(sid: nat)
    | Execute(sid: nat)
    | Close(sid: nat)
    | DecideRead(did: nat, id: Id, decision: Decision, who: string)
    | DecideWrite(did: nat, applied: bool)
    | ListStart(lid: nat)
    | ListRead(lid: nat, id: Id)
    | ListHeal(lid: nat)

  // ---- effects on Redis ----

  /** Time passes; keys whose expiry is reached vanish. */
  function Advance(r: Redis, delta: nat): Redis {
    var now := r.now + delta;
    Redis(now,
          map id | id in r.approvals && now < r.approvals[id].expires :: r.approvals[id],
          if now < r.pendingExpires then r.pending else {},
          r.pendingExpires,
          map id | id in r.audit && now < r.audit[id].expires :: r.audit[id])
  }

  function NewRecord(r: Redis, id: Id, sandbox: string, script: string, reason: string): Record {
    Record(id, sandbox, script, reason, Pending, r.now, "", None)
  }

  /** SET approval, SADD pending, EXPIRE pending. */
  function SubmitBatch(r: Redis, ttl: int, rec: Record): Redis {
    r.(approvals := r.approvals[rec.id := Timed(rec, r.now + ttl)],
       pending := r.pending + {rec.id},
       pendingExpires := r.now + ttl)
  }

  function DecidedRecord(d: Decider, now: int): Record {
    d.rec.(state := if d.decision.Approve? then Approved else Rejected, decidedBy := d.who, decidedAt := Some(now))
  }

  /** SET approval, SREM pending, SET audit. */
  function DecideBatch(r: Redis, ttl: int, rec: Record): Redis {
    r.(approvals := r.approvals[rec.id := Timed(rec, r.now + ttl)],
       pending := r.pending - {rec.id},
       audit := r.audit[rec.id := Timed(rec, r.now + AUDIT_TTL)])
  }

  // ---- steps ----

  predicate LivePending(s: System, id: Id) {
    id in s.redis.approvals && s.redis.approvals[id].rec.state.Pending?
  }

  predicate Enabled(c: Config, s: System, a: Action) {
    match a
    case Tick(_) => true
    case Open(sid, _) => sid !in s.sessions
    case RunBenign(sid, script) =>
      sid in s.sessions && s.sessions[sid].phase.Idle? && script != "" && c.classify(script).Benign?
    case Submit(sid, script, id, _) =>
      && sid in s.sessions && s.sessions[sid].phase.Idle? && script != "" && c.classify(script).Sensitive?
      && id !in s.submitted
    case Poll(sid) => sid in s.sessions && s.sessions[sid].phase.Waiting?
    case Execute(sid) => sid in s.sessions && s.sessions[sid].phase.Ready?
    case Close(sid) => sid in s.sessions
    case DecideRead(did, id, _, _) => did !in s.deciders && LivePending(s, id)
    case DecideWrite(did, _) => did in s.deciders
    case ListStart(lid) => lid !in s.listers
    case ListRead(lid, id) => lid in s.listers && s.listers[lid].healing.None? && id in s.listers[lid].todo
    case ListHeal(lid) => lid in s.listers && s.listers[lid].healing.Some?
  }

  /** What a waiting session does with the record it polls; a missing record is a rejection. */
  function AfterPoll(s: System, id: Id, script: string): Phase {
    if id !in s.redis.approvals then Idle
    else match s.redis.approvals[id].rec.state
      case Pending => Waiting(id, script)
      case Approved => Ready(script, Some(id))
      case Rejected => Idle
  }

  function SetPhase(s: System, sid: nat, p: Phase): System
    requires sid in s.sessions
  {
    s.(sessions := s.sessions[sid := s.sessions[sid].(phase := p)])
  }

  function SetLister(s: System, lid: nat, l: Lister): System {
    s.(listers := s.listers[lid := l])
  }

  function Apply(c: Config, s: System, a: Action): System
    requires Enabled(c, s, a)
  {
    match a
    case Tick(delta) => s.(redis := Advance(s.redis, delta))
    case Open(sid, box) => s.(sessions := s.sessions[sid := Session(box, Idle)])
    case RunBenign(sid, script) => SetPhase(s, sid, Ready(script, None))
    case Submit(sid, script, id, reported) =>
      var rec := NewRecord(s.redis, id, s.sessions[sid].sandbox, script, c.classify(script).reason);
      SetPhase(s, sid, if reported then Waiting(id, script) else Idle)
        .(redis := SubmitBatch(s.redis, c.ttl, rec), submitted := s.submitted[id := rec])
    case Poll(sid) =>
      var p := s.sessions[sid].phase;
      SetPhase(s, sid, AfterPoll(s, p.id, p.script))
    case Execute(sid) =>
      var p := s.sessions[sid].phase;
      SetPhase(s, sid, Idle).(log := s.log + [Executed(s.sessions[sid].sandbox, p.script, p.approval)])
    case Close(sid) => SetPhase(s, sid, Ended)
    case DecideRead(did, id, decision, who) =>
      s.(deciders := s.deciders[did := Decider(decision, who, s.redis.approvals[id].rec)])
    case DecideWrite(did, applied) =>
      var rec := DecidedRecord(s.deciders[did], s.redis.now);
      var t := s.(deciders := s.deciders - {did});
      if applied then t.(redis := DecideBatch(s.redis, c.ttl, rec), log := s.log + [Decided(rec)]) else t
    case ListStart(lid) => SetLister(s, lid, Lister(s.redis.pending, None, map[]))
    case ListRead(lid, id) =>
      var l := s.listers[lid].(todo := s.listers[lid].todo - {id});
      if id !in s.redis.approvals then SetLister(s, lid, l.(healing := Some(id)))
      else if LivePending(s, id) then SetLister(s, lid, l.(found := l.found[id := s.redis.approvals[id].rec]))
      else SetLister(s, lid, l)
    case ListHeal(lid) =>
      SetLister(s, lid, s.listers[lid].(healing := None))
        .(redis := s.redis.(pending := s.redis.pending - {s.listers[lid].healing.value}))
  }

  predicate Init(s: System) {
    s.redis.approvals == map[] && s.redis.pending == {} && s.redis.audit == map[] && s.sessions == map[]
    && s.deciders == map[] && s.listers == map[] && s.submitted == map[] && s.log == []
  }

  /** The states of a run, first to last. */
  function Run(c: Config, s: System, actions: seq<Action>): (states: seq<System>)
    requires RunOk(c, s, actions)
    ensures |states| == |actions| + 1 && states[0] == s
    decreases |actions|
  {
    if actions == [] then [s] else [s] + Run(c, Apply(c, s, actions[0]), actions[1..])
  }

  predicate RunOk(c: Config, s: System, actions: seq<Action>)
    decreases |actions|
  {
    actions == [] || (Enabled(c, s, actions[0]) && RunOk(c, Apply(c, s, actions[0]), actions[1..]))
  }

  function Last(states: seq<System>): System
    requires states != []
  {
    states[|states| - 1]
  }
}
