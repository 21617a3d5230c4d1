/** The gate itself (internal/hitl/gate.go): its methods on the Redis keys they update.

    Each update method is tied to the batch function that the interleaved protocol uses, so
    the whole-run results of HitlSafety, HitlDecisions and HitlIndex speak about this code. */
module HitlGate {
  import opened Wrappers
  import opened HitlModel

  datatype Outcome = Ok | NotFound | AlreadyDecided | UnknownDecision

  /** What one tick of the polling loop observes. */
  datatype Observation = Missing | Unreadable | Found(state: State)

  datatype WaitResult = Verdict(state: State) | Cancelled

  /** The observation ends the wait. */
  predicate Decisive(o: Observation) {
    o.Missing? || (o.Found? && !o.state.Pending?)
  }

  /** Tick `k` is the first decisive one. */
  ghost predicate FirstDecisive(ticks: seq<Observation>, k: int) {
    0 <= k < |ticks| && Decisive(ticks[k]) && forall i :: 0 <= i < k ==> !Decisive(ticks[i])
  }

  class Gate {
    const ttl: int
    var now: int
    var approvals: map<Id, Timed>
    var pending: set<Id>
    var pendingExpires: int
    var audit: map<Id, Timed>

    constructor (approveTtl: int, now: int)
      ensures ttl == (if approveTtl == 0 then 3600 else approveTtl)
      ensures View() == Redis(now, map[], {}, now, map[])
    {
      ttl := if approveTtl == 0 then 3600 else approveTtl;
      this.now, approvals, pending, pendingExpires, audit := now, map[], {}, now, map[];
    }

    function View(): Redis
      reads this
    {
      Redis(now, approvals, pending, pendingExpires, audit)
    }

    method Submit(id: Id, sandbox: string, script: string, reason: string)
      modifies this
      ensures View() == SubmitBatch(old(View()), ttl, NewRecord(old(View()), id, sandbox, script, reason))
      ensures now == old(now) && audit == old(audit) && pending == old(pending) + {id} && pendingExpires == now + ttl
      ensures approvals == old(approvals)[id := Timed(Record(id, sandbox, script, reason, State.Pending, now, "", None), now + ttl)]
    {
      var rec := Record(id, sandbox, script, reason, State.Pending, now, "", None);
      approvals := approvals[id := Timed(rec, now + ttl)];
      pending := pending + {id};
      pendingExpires := now + ttl;
    }

    method Get(id: Id) returns (r: Option<Record>)
      ensures r == if id in approvals then Some(approvals[id].rec) else None
    {
      if id in approvals {
        return Some(approvals[id].rec);
      }
      return None;
    }

    /** Run without interference, Decide is the first-writer-wins transition it documents:
        exactly the pending requests can be decided, and every other outcome changes nothing. */
    method Decide(id: Id, decision: string, who: string) returns (r: Outcome)
      modifies this
      ensures r.NotFound? <==> id !in old(approvals)
      ensures r.AlreadyDecided? <==> id in old(approvals) && !old(approvals)[id].rec.state.Pending?
      ensures r.Ok? <==> id in old(approvals) && old(approvals)[id].rec.state.Pending? && (decision == "approve" || decision == "reject")
      ensures !r.Ok? ==> View() == old(View())
      ensures r.Ok? ==>
        var rec := old(approvals)[id].rec.(state := if decision == "approve" then Approved else Rejected,
                                           decidedBy := who, decidedAt := Some(now));
        && now == old(now) && approvals == old(approvals)[id := Timed(rec, now + ttl)] && pending == old(pending) - {id}
        && pendingExpires == old(pendingExpires) && audit == old(audit)[id := Timed(rec, now + 31536000)]
      ensures r.Ok? && old(approvals)[id].rec.id == id ==>
        var d := Decider(if decision == "approve" then Approve else Reject, who, old(approvals)[id].rec);
        View() == DecideBatch(old(View()), ttl, DecidedRecord(d, now))
    {
      if id !in approvals {
        return NotFound;
      }
      var rec := approvals[id].rec;
      if rec.state != State.Pending {
        return AlreadyDecided;
      }
      rec := rec.(decidedBy := who, decidedAt := Some(now));
      if decision == "approve" {
        rec := rec.(state := Approved);
      } else if decision == "reject" {
        rec := rec.(state := Rejected);
      } else {
        return UnknownDecision;
      }
      approvals := approvals[id := Timed(rec, now + ttl)];
      pending := pending - {id};
      audit := audit[id := Timed(rec, now + AUDIT_TTL)];
      return Ok;
    }

    /** Lists the indexed pending requests and drops exactly the index entries whose record is gone;
        an entry in `unreadable`, whose read fails, is skipped. */
    method Pending(unreadable: set<Id>) returns (recs: map<Id, Record>)
      modifies this`pending
      ensures pending == old(pending) * (approvals.Keys + unreadable)
      ensures forall id :: id in recs <==>
        id in old(pending) && id !in unreadable && id in approvals && approvals[id].rec.state.Pending?
      ensures forall id :: id in recs ==> recs[id] == approvals[id].rec
    {
      var ids := pending;
      recs := map[];
      while ids != {}
        invariant ids <= old(pending) && pending <= old(pending)
        invariant forall id :: id in old(pending) ==> (id in pending <==> id in ids || id in approvals || id in unreadable)
        invariant forall id :: id in recs <==>
          id in old(pending) && id !in ids && id !in unreadable && id in approvals && approvals[id].rec.state.Pending?
        invariant forall id :: id in recs ==> recs[id] == approvals[id].rec
        decreases |ids|
      {
        var id :| id in ids;
        ids := ids - {id};
        if id in unreadable {
          continue;
        }
        if id !in approvals {
          pending := pending - {id};
        } else if approvals[id].rec.state == State.Pending {
          recs := recs[id := approvals[id].rec];
        }
      }
    }

    /** The polling loop on the observations its ticks make before cancellation: it returns the
        verdict of the first decisive one, never Pending, and a vanished record is a rejection. */
    method WaitForDecision(ticks: seq<Observation>) returns (r: WaitResult)
      ensures r.Cancelled? <==> forall i :: 0 <= i < |ticks| ==> ticks[i] == Unreadable || ticks[i] == Found(State.Pending)
      ensures r.Verdict? ==> exists k :: FirstDecisive(ticks, k) && ticks[k] == if r.state == Rejected && ticks[k].Missing? then Missing else Found(r.state)
      ensures r.Verdict? ==> !r.state.Pending?
    {
      var k := 0;
      while k < |ticks|
        invariant 0 <= k <= |ticks|
        invariant forall i :: 0 <= i < k ==> !Decisive(ticks[i])
      {
        match ticks[k] {
          case Missing =>
            assert FirstDecisive(ticks, k);
            return Verdict(Rejected);
          case Unreadable =>
          case Found(state) =>
            if state != State.Pending {
              assert FirstDecisive(ticks, k);
              return Verdict(state);
            }
        }
        k := k + 1;
      }
      return Cancelled;
    }
  }
}
