/** The pending index: the set `hitl:pending` against its definition, and the listing built on it. */
module HitlIndex {
  import opened HitlModel
  import opened HitlSafety
  import opened HitlDecisions

  /** Every live pending record is indexed, and the index outlives it. */
  ghost predicate IndexCovers(s: System) {
    && (forall id :: LivePending(s, id) ==>
          id in s.redis.pending && s.redis.approvals[id].expires <= s.redis.pendingExpires)
    && (forall id :: id in s.redis.approvals ==> s.redis.now < s.redis.approvals[id].expires)
    && s.redis.pending <= s.submitted.Keys
  }

  /** No listing is about to remove a live pending id from the index. */
  ghost predicate HealingHarmless(s: System) {
    forall l :: l in s.listers ==>
      && s.listers[l].todo <= s.submitted.Keys
      && (s.listers[l].healing.Some? ==>
            s.listers[l].healing.value in s.submitted && !LivePending(s, s.listers[l].healing.value))
  }

  ghost predicate IndexInv(s: System) {
    IndexCovers(s) && HealingHarmless(s)
  }

  /** No record outlives one TTL from now. */
  ghost predicate ExpiryInv(c: Config, s: System) {
    forall id :: id in s.redis.approvals ==> s.redis.approvals[id].expires <= s.redis.now + c.ttl
  }

  lemma StepKeepsCovers(c: Config, s: System, a: Action)
    requires StoreInv(s) && IndexInv(s) && ExpiryInv(c, s) && Enabled(c, s, a) && c.ttl > 0
    ensures IndexCovers(Apply(c, s, a)) && ExpiryInv(c, Apply(c, s, a))
  {
    if WritesRecords(a) {
      WriteKeepsCovers(c, s, a);
    } else if a.ListHeal? {
      assert HealingHarmless(s);
    } else {
      var t := Apply(c, s, a);
      assert t.redis == s.redis && t.submitted == s.submitted;
    }
  }

  lemma WriteKeepsCovers(c: Config, s: System, a: Action)
    requires StoreInv(s) && IndexCovers(s) && ExpiryInv(c, s) && Enabled(c, s, a) && c.ttl > 0 && WritesRecords(a)
    ensures IndexCovers(Apply(c, s, a)) && ExpiryInv(c, Apply(c, s, a))
  {
    match a
    case Tick(_) =>
    case Submit(_, _, _, _) =>
    case DecideWrite(_, _) =>
  }

  lemma StepKeepsHealing(c: Config, s: System, a: Action)
    requires StoreInv(s) && IndexInv(s) && Enabled(c, s, a)
    ensures HealingHarmless(Apply(c, s, a))
  {
    if a.ListStart? || a.ListRead? || a.ListHeal? {
      ListingKeepsHealing(c, s, a);
    } else {
      StepMonotone(c, s, a);
      OthersKeepListers(c, s, a);
    }
  }

  lemma ListingKeepsHealing(c: Config, s: System, a: Action)
    requires IndexInv(s) && Enabled(c, s, a) && (a.ListStart? || a.ListRead? || a.ListHeal?)
    ensures HealingHarmless(Apply(c, s, a))
  {
    var t := Apply(c, s, a);
    assert t.redis.approvals == s.redis.approvals && t.submitted == s.submitted;
  }

  lemma StepKeepsIndex(c: Config, s: System, a: Action)
    requires Inv(c, s) && IndexInv(s) && ExpiryInv(c, s) && Enabled(c, s, a) && c.ttl > 0
    ensures IndexInv(Apply(c, s, a)) && ExpiryInv(c, Apply(c, s, a))
  {
    StepKeepsCovers(c, s, a);
    StepKeepsHealing(c, s, a);
  }

  lemma {:induction false} RunKeepsIndex(c: Config, s: System, actions: seq<Action>)
    requires Inv(c, s) && IndexInv(s) && ExpiryInv(c, s) && RunOk(c, s, actions) && c.ttl > 0
    ensures forall i :: 0 <= i <= |actions| ==> IndexInv(Run(c, s, actions)[i])
    decreases |actions|
  {
    if actions != [] {
      StepKeepsInv(c, s, actions[0]);
      StepKeepsIndex(c, s, actions[0]);
      RunKeepsIndex(c, Apply(c, s, actions[0]), actions[1..]);
    }
  }

  /** In every reachable state the pending index covers the live pending records, and a
      self-healing removal never hits one. */
  lemma IndexAgrees(c: Config, s: System, actions: seq<Action>)
    requires Init(s) && RunOk(c, s, actions) && c.ttl > 0
    ensures forall i :: 0 <= i <= |actions| ==> IndexInv(Run(c, s, actions)[i])
  {
    RunKeepsIndex(c, s, actions);
  }

  // ---- one listing call, interleaved with everything else ----

  /** The listing `lid` has read every id it fetched. */
  predicate Done(s: System, lid: nat) {
    lid in s.listers && s.listers[lid].todo == {} && s.listers[lid].healing.None?
  }

  /** The listing `lid` still has `id` ahead of it or has found it. */
  predicate Accounted(s: System, lid: nat, id: Id) {
    lid in s.listers && (id in s.listers[lid].todo || id in s.listers[lid].found)
  }

  lemma StepKeepsAccounted(c: Config, s: System, a: Action, lid: nat, id: Id)
    requires Enabled(c, s, a) && LivePending(s, id) && Accounted(s, lid, id)
    ensures Accounted(Apply(c, s, a), lid, id)
  {
    match a
    case ListRead(_, _) =>
    case ListHeal(_) =>
    case ListStart(_) =>
    case _ => assert Apply(c, s, a).listers == s.listers;
  }

  /** A request that stays pending along the whole run is never lost by a listing under way. */
  lemma {:induction false} ListingKeepsPending(c: Config, s: System, actions: seq<Action>, lid: nat, id: Id)
    requires RunOk(c, s, actions) && Accounted(s, lid, id)
    requires forall i :: 0 <= i <= |actions| ==> LivePending(Run(c, s, actions)[i], id)
    ensures Accounted(Last(Run(c, s, actions)), lid, id)
    decreases |actions|
  {
    if actions != [] {
      var t := Apply(c, s, actions[0]);
      var run, rest := Run(c, s, actions), Run(c, t, actions[1..]);
      assert run[0] == s;
      StepKeepsAccounted(c, s, actions[0], lid, id);
      forall i | 0 <= i <= |actions[1..]| ensures LivePending(rest[i], id) {
        assert run[i + 1] == rest[i];
      }
      ListingKeepsPending(c, t, actions[1..], lid, id);
      assert Last(run) == Last(rest);
    }
  }

  /** Pending is complete: a request pending throughout the call is returned. */
  lemma PendingComplete(c: Config, s: System, actions: seq<Action>, lid: nat, id: Id)
    requires IndexInv(s) && RunOk(c, s, [ListStart(lid)] + actions)
    requires forall i :: 0 <= i <= |actions| + 1 ==> LivePending(Run(c, s, [ListStart(lid)] + actions)[i], id)
    requires Done(Last(Run(c, s, [ListStart(lid)] + actions)), lid)
    ensures id in Last(Run(c, s, [ListStart(lid)] + actions)).listers[lid].found
  {
    var all := [ListStart(lid)] + actions;
    assert all[1..] == actions;
    var t := Apply(c, s, all[0]);
    var run, rest := Run(c, s, all), Run(c, t, actions);
    assert run[0] == s;
    forall i | 0 <= i <= |actions| ensures LivePending(rest[i], id) {
      assert run[i + 1] == rest[i];
    }
    ListingKeepsPending(c, t, actions, lid, id);
    assert Last(run) == Last(rest);
  }

  ghost predicate PendingAtSomePoint(states: seq<System>, id: Id, rec: Record) {
    exists i :: 0 <= i < |states| && LivePending(states[i], id) && states[i].redis.approvals[id].rec == rec
  }

  lemma OthersKeepListers(c: Config, s: System, a: Action)
    requires Enabled(c, s, a)
    ensures a.ListStart? || a.ListRead? || a.ListHeal? || Apply(c, s, a).listers == s.listers
  {
  }

  predicate HasFound(s: System, lid: nat, id: Id) {
    lid in s.listers && id in s.listers[lid].found
  }

  /** A listing finds a record only by reading it while it is pending. */
  lemma FoundWhenRead(c: Config, s: System, a: Action, lid: nat, id: Id)
    requires Enabled(c, s, a) && !HasFound(s, lid, id) && HasFound(Apply(c, s, a), lid, id)
    ensures LivePending(s, id)
    ensures var l := Apply(c, s, a).listers[lid]; id !in l.todo && l.found[id] == s.redis.approvals[id].rec
  {
    OthersKeepListers(c, s, a);
  }

  /** Pending is sound: whatever a listing returns was a pending record when it was read. */
  lemma {:induction false} PendingSound(c: Config, s: System, actions: seq<Action>, lid: nat, id: Id)
    requires RunOk(c, s, actions) && !HasFound(s, lid, id) && HasFound(Last(Run(c, s, actions)), lid, id)
    ensures PendingAtSomePoint(Run(c, s, actions), id, Last(Run(c, s, actions)).listers[lid].found[id])
    decreases |actions|
  {
    if actions != [] {
      var t := Apply(c, s, actions[0]);
      var run, rest := Run(c, s, actions), Run(c, t, actions[1..]);
      assert Last(run) == Last(rest);
      if HasFound(t, lid, id) {
        FoundWhenRead(c, s, actions[0], lid, id);
        assert LivePending(run[0], id);
        FoundIsStable(c, t, actions[1..], lid, id, s.redis.approvals[id].rec);
      } else {
        PendingSound(c, t, actions[1..], lid, id);
        var i :| 0 <= i < |rest| && LivePending(rest[i], id)
                 && rest[i].redis.approvals[id].rec == Last(rest).listers[lid].found[id];
        assert run[i + 1] == rest[i];
      }
    }
  }

  predicate FoundAs(s: System, lid: nat, id: Id, rec: Record) {
    HasFound(s, lid, id) && id !in s.listers[lid].todo && s.listers[lid].found[id] == rec
  }

  lemma StepKeepsFound(c: Config, s: System, a: Action, lid: nat, id: Id, rec: Record)
    requires Enabled(c, s, a) && FoundAs(s, lid, id, rec)
    ensures FoundAs(Apply(c, s, a), lid, id, rec)
  {
    OthersKeepListers(c, s, a);
  }

  /** A record already found, and no longer to be read, is returned as found. */
  lemma {:induction false} FoundIsStable(c: Config, s: System, actions: seq<Action>, lid: nat, id: Id, rec: Record)
    requires RunOk(c, s, actions) && FoundAs(s, lid, id, rec)
    ensures FoundAs(Last(Run(c, s, actions)), lid, id, rec)
    decreases |actions|
  {
    if actions != [] {
      var t := Apply(c, s, actions[0]);
      StepKeepsFound(c, s, actions[0], lid, id, rec);
      FoundIsStable(c, t, actions[1..], lid, id, rec);
      assert Last(Run(c, s, actions)) == Last(Run(c, t, actions[1..]));
    }
  }
}
