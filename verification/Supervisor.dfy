/** The supervisor and the record store in their own, imperative form.

    The methods run a call without interference.  They are tied to the same programs, effects
    and undo lists (`Program`, `Effects`, `OnFailure`, `UndoAll`, `Teardown`, `SweepProgram`)
    that the interleaved state machine executes one action at a time. */
module Supervisor {
  import opened Wrappers
  import opened CidAllocator
  import opened Int64
  import opened SupervisorModel
  import opened SupervisorRollback
  import opened SupervisorAdmission
  import opened SupervisorReconcile

  /** Sandbox records in Redis: one key per record plus the set of active ids. */
  class Recorder {
    var recs: map<Id, Record>
    var active: set<Id>

    ghost predicate Valid()
      reads this
    {
      recs.Keys <= active
    }

    constructor ()
      ensures Valid() && recs == map[] && active == {}
    {
      recs, active := map[], {};
    }

    method Save(id: Id, r: Record)
      modifies this
      ensures recs == old(recs)[id := r] && active == old(active) + {id}
      ensures old(Valid()) ==> Valid()
    {
      recs := recs[id := r];
      active := active + {id};
    }

    method Remove(id: Id)
      modifies this
      ensures recs == old(recs) - {id} && active == old(active) - {id}
      ensures old(Valid()) ==> Valid()
    {
      recs := recs - {id};
      active := active - {id};
    }

    /** Lists every record exactly once and drops the active ids that have none; fails if the set
        cannot be listed, or an entry in `bad` cannot be read or parsed. */
    method All(listed: bool, bad: set<Id>) returns (r: Option<seq<Id>>)
      requires Valid()
      modifies this`active
      ensures Valid() && active <= old(active)
      ensures r.None? <==> !listed || old(active) * bad != {}
      ensures r.Some? ==> active == recs.Keys && Lists(r.value, recs)
    {
      if !listed {
        return None;
      }
      var ids, order := active, [];
      while ids != {}
        invariant ids <= old(active) && recs.Keys <= active <= old(active)
        invariant forall id :: id in old(active) && id !in ids ==> id !in bad && (id in active <==> id in recs)
        invariant forall id :: id in order <==> id in recs && id !in ids
        invariant forall i :: 0 <= i < |order| ==> order[i] in recs && order[i] !in ids
        invariant forall i, j :: 0 <= i < j < |order| ==> order[i] != order[j]
        decreases |ids|
      {
        var id :| id in ids;
        if id in bad {
          assert id in old(active) * bad;
          return None;
        }
        ids := ids - {id};
        if id in recs {
          order := order + [id];
        } else {
          active := active - {id};
        }
      }
      return Some(order);
    }
  }

  datatype Outcome = Outcome(ok: bool, partial: bool)

  datatype BootResult = Booted(inst: Inst) | Duplicate | Denied | Exhausted | Failed(k: nat)

  function Freed(undo: seq<Undo>): set<Cid> {
    set u | u in undo && u.FreeCid? :: u.cid
  }

  lemma FreedSnoc(undo: seq<Undo>, u: Undo)
    ensures Freed(undo + [u]) == Freed(undo) + if u.FreeCid? then {u.cid} else {}
  {
    assert forall x :: x in undo + [u] <==> x in undo || x == u;
  }

  /** Rollback and teardown free the call's own CID and no other. */
  lemma FreedOne(undo: seq<Undo>, cid: Cid)
    requires FreeCid(cid) in undo && forall i :: 0 <= i < |undo| && undo[i].FreeCid? ==> undo[i].cid == cid
    ensures Freed(undo) == {cid}
  {
    assert FreeCid(cid).FreeCid?;
  }

  /** `used` and what `rest` still adds make up the wrapped sum of `weights`. */
  ghost predicate Partial(weights: map<Id, int>, rest: map<Id, int>, used: int) {
    -I64 <= used < I64 && Wrap64(used + Sum(rest)) == Wrap64(Sum(weights))
  }

  lemma PartialStep(weights: map<Id, int>, rest: map<Id, int>, id: Id, used: int)
    requires id in rest && Partial(weights, rest, used)
    ensures Partial(weights, rest - {id}, Wrap64(used + rest[id])) && |rest - {id}| < |rest|
  {
    SumRemove(rest, id);
    SizeRemove(rest, id);
    WrapMeans(used + rest[id]);
    WrapAdd(used + rest[id], Sum(rest - {id}));
  }

  lemma PartialEnd(weights: map<Id, int>, used: int)
    requires Partial(weights, map[], used)
    ensures used == Wrap64(Sum(weights))
  {
  }

  /** Summing up in int64, in any order, gives the wrapped sum. */
  method UsedMemory(weights: map<Id, int>) returns (used: int)
    ensures used == Wrap64(Sum(weights))
  {
    var rest := weights;
    used := 0;
    while rest != map[]
      invariant Partial(weights, rest, used)
      decreases |rest|
    {
      var id :| id in rest;
      PartialStep(weights, rest, id, used);
      used := Wrap64(used + rest[id]);
      rest := rest - {id};
    }
    PartialEnd(weights, used);
  }

  /** The tracked sandboxes whose VMM process is gone. */
  function DeadIn(inst: map<Id, Inst>, h: Host): set<Id> {
    set id | id in inst && PidFree(h, inst[id].pid)
  }

  function CidsOf(inst: map<Id, Inst>, ids: set<Id>): set<Cid> {
    set id | id in ids && id in inst :: inst[id].cid
  }

  lemma CidsOfAdd(inst: map<Id, Inst>, ids: set<Id>, id: Id)
    requires id in inst
    ensures CidsOf(inst, ids + {id}) == CidsOf(inst, ids) + {inst[id].cid}
  {
  }

  /** The host `g` is `h` without the directories, leaves and chroots of `ids`. */
  ghost predicate Reaped(cfg: Config, h: Host, g: Host, ids: set<Id>) {
    && g.vmms == h.vmms && g.dirs == h.dirs - ids && g.leaves == h.leaves - ids
    && h.chroots - ids == g.chroots - ids && (cfg.jailer ==> g.chroots == h.chroots - ids)
  }

  /** Everything the supervisor is responsible for. */
  datatype View = View(inst: map<Id, Inst>, used: set<Cid>, recs: map<Id, Record>, host: Host)

  /** `w` is `v` with the sandboxes `ids`, all dead, terminated. */
  ghost predicate ReapedTo(cfg: Config, v: View, w: View, ids: set<Id>, applied: bool) {
    && w.inst == v.inst - ids && w.used == v.used - CidsOf(v.inst, ids)
    && w.recs == (if applied then v.recs - ids else v.recs)
    && Reaped(cfg, v.host, w.host, ids)
  }

  /** The dead sandboxes of `v` that are not in `rest`. */
  function DeadOutside(v: View, rest: set<Id>): set<Id> {
    DeadIn(v.inst, v.host) - rest
  }

  lemma DeadStep(v: View, rest: set<Id>, id: Id)
    requires id in rest && id in v.inst
    ensures DeadOutside(v, rest - {id}) == DeadOutside(v, rest) + if PidFree(v.host, v.inst[id].pid) then {id} else {}
    ensures id !in DeadOutside(v, rest)
  {
  }

  lemma ReapedStep(cfg: Config, h: Host, m: Host, g: Host, i: Inst, id: Id, ids: set<Id>)
    requires Reaped(cfg, h, m, ids) && TornDown(cfg, m, g, i, id) && PidFree(m, i.pid)
    ensures Reaped(cfg, h, g, ids + {id})
  {
    assert g.vmms == m.vmms;
    assert g.dirs == m.dirs - {id} && g.leaves == m.leaves - {id};
    if cfg.jailer {
      assert g.chroots == m.chroots - {id};
      assert g.chroots == h.chroots - (ids + {id});
    }
    assert h.chroots - (ids + {id}) == g.chroots - (ids + {id}) by {
      assert m.chroots - {id} == g.chroots - {id} && h.chroots - ids == m.chroots - ids;
      assert h.chroots - (ids + {id}) == (h.chroots - ids) - {id};
      assert g.chroots - (ids + {id}) == (g.chroots - {id}) - ids == (m.chroots - {id}) - ids == (m.chroots - ids) - {id};
    }
  }

  lemma ReapedNext(cfg: Config, v: View, w: View, x: View, ids: set<Id>, id: Id, applied: bool)
    requires ReapedTo(cfg, v, w, ids, applied) && id in w.inst && PidFree(w.host, w.inst[id].pid)
    requires x.inst == w.inst - {id} && x.used == w.used - {w.inst[id].cid} && TornDown(cfg, w.host, x.host, w.inst[id], id)
    requires x.recs == if applied then w.recs - {id} else w.recs
    ensures ReapedTo(cfg, v, x, ids + {id}, applied)
  {
    ReapedStep(cfg, v.host, w.host, x.host, w.inst[id], id, ids);
    CidsOfAdd(v.inst, ids, id);
    assert (v.inst - ids) - {id} == v.inst - (ids + {id});
    assert (v.recs - ids) - {id} == v.recs - (ids + {id});
  }

  class Supervisor {
    const cfg: Config
    const cids: Allocator
    const recorder: Recorder
    var inst: map<Id, Inst>
    var host: Host

    ghost predicate Valid()
      reads this, recorder
    {
      cids.min == cfg.min && cids.max == cfg.max && recorder.Valid()
    }

    /** A fresh process: nothing tracked, host and records as the previous one left them. */
    constructor (cfg: Config, recorder: Recorder, host: Host)
      requires recorder.Valid()
      ensures Valid() && fresh(cids) && this.cfg == cfg && this.recorder == recorder && this.host == host
      ensures inst == map[] && cids.used == {} && cids.next == cfg.min
    {
      this.cfg, this.recorder, this.host := cfg, recorder, host;
      inst := map[];
      cids := new Allocator(cfg.min, cfg.max);
    }

    /** The admission test, with the 64-bit accumulation of the source. */
    method AdmitLocked(mem: int) returns (ok: bool)
      ensures ok <==> AdmitOk(cfg, inst, mem)
    {
      if cfg.maxConcurrent > 0 && |inst| >= cfg.maxConcurrent {
        return false;
      }
      if cfg.memoryBudget > 0 {
        var used := UsedMemory(Weights(inst));
        return Wrap64(used + mem) <= cfg.memoryBudget;
      }
      return true;
    }

    /** Executes an undo program. */
    method RunUndo(id: Id, undo: seq<Undo>, applied: bool)
      requires Valid()
      modifies this`host, cids`used, recorder
      ensures Valid() && host == UndoAll(old(host), undo, id)
      ensures cids.used == old(cids.used) - Freed(undo)
      ensures recorder.recs == if applied && Forget in undo then old(recorder.recs) - {id} else old(recorder.recs)
    {
      var k := 0;
      while k < |undo|
        invariant 0 <= k <= |undo| && Valid()
        invariant UndoAll(host, undo[k..], id) == UndoAll(old(host), undo, id)
        invariant cids.used == old(cids.used) - Freed(undo[..k])
        invariant recorder.recs == if applied && Forget in undo[..k] then old(recorder.recs) - {id} else old(recorder.recs)
      {
        var u := undo[k];
        Slices(undo, k);
        FreedSnoc(undo[..k], u);
        if u.FreeCid? {
          cids.Free(u.cid);
        } else if u.Forget? && applied {
          recorder.Remove(id);
        }
        host := UndoEffect(host, u, id);
        k := k + 1;
      }
      assert undo[..k] == undo;
    }

    /** Terminate removes the map entry first and reclaims everything else afterwards: of the
        sandbox nothing is left, and nothing else changes. */
    method Terminate(id: Id, applied: bool) returns (found: bool)
      requires Valid()
      modifies this`inst, this`host, cids`used, recorder
      ensures Valid() && found == (id in old(inst))
      ensures !found ==>
        inst == old(inst) && host == old(host) && cids.used == old(cids.used) && recorder.recs == old(recorder.recs)
      ensures found ==>
        && inst == old(inst) - {id} && cids.used == old(cids.used) - {old(inst)[id].cid}
        && recorder.recs == (if applied then old(recorder.recs) - {id} else old(recorder.recs))
        && TornDown(cfg, old(host), host, old(inst)[id], id)
    {
      found := id in inst;
      if found {
        var i := inst[id];
        inst := inst - {id};
        TeardownFreed(cfg, i);
        TeardownComplete(cfg, host, i, id);
        RunUndo(id, Teardown(cfg, i), applied);
      }
    }

    ghost function Now(): View
      reads this, cids, recorder
    {
      View(inst, cids.used, recorder.recs, host)
    }

    /** One reaped sandbox, after those in `ids`. */
    method ReapOne(id: Id, applied: bool, ghost before: View, ghost ids: set<Id>)
      requires Valid() && id in inst && PidFree(host, inst[id].pid) && ReapedTo(cfg, before, Now(), ids, applied)
      modifies this`inst, this`host, cids`used, recorder
      ensures Valid() && ReapedTo(cfg, before, Now(), ids + {id}, applied)
    {
      ghost var v := Now();
      var found := Terminate(id, applied);
      ReapedNext(cfg, before, v, Now(), ids, id, applied);
    }

    method ReapIfDead(id: Id, applied: bool, ghost before: View, ids: set<Id>) returns (dead: set<Id>)
      requires Valid() && id in before.inst && id !in ids && ReapedTo(cfg, before, Now(), ids, applied)
      modifies this`inst, this`host, cids`used, recorder
      ensures Valid() && ReapedTo(cfg, before, Now(), dead, applied)
      ensures dead == ids + if PidFree(before.host, before.inst[id].pid) then {id} else {}
    {
      dead := ids;
      if PidFree(host, inst[id].pid) {
        ReapOne(id, applied, before, ids);
        dead := dead + {id};
      }
    }

    /** Terminates exactly the sandboxes whose VMM has died: their CIDs are freed, their resources
        are gone, every VMM and every other sandbox is left alone. */
    method ReapDead(applied: bool) returns (dead: set<Id>)
      requires Valid()
      modifies this`inst, this`host, cids`used, recorder
      ensures Valid() && dead == DeadIn(old(inst), old(host)) && ReapedTo(cfg, old(Now()), Now(), dead, applied)
    {
      ghost var before := Now();
      var rest := inst.Keys;
      dead := {};
      while rest != {}
        invariant Valid() && rest <= before.inst.Keys && dead == DeadOutside(before, rest)
        invariant ReapedTo(cfg, before, Now(), dead, applied)
        decreases |rest|
      {
        var id :| id in rest;
        DeadStep(before, rest, id);
        rest := rest - {id};
        dead := ReapIfDead(id, applied, before, dead);
      }
    }

    /** Performs the host operations of a boot until one fails; `k` is where. */
    method RunOps(ops: seq<Op>, vm: Vmm, outcomes: seq<Outcome>) returns (k: nat)
      requires |outcomes| == |ops|
      modifies this`host
      ensures k <= |ops| && (forall i :: 0 <= i < k ==> outcomes[i].ok) && (k < |ops| ==> !outcomes[k].ok)
      ensures host == Effects(cfg, old(host), ops[..k], vm)
    {
      k := 0;
      while k < |ops| && outcomes[k].ok
        invariant 0 <= k <= |ops| && forall i :: 0 <= i < k ==> outcomes[i].ok
        invariant host == Effects(cfg, old(host), ops[..k], vm)
      {
        Slices(ops, k);
        host := Effect(cfg, host, ops[k], vm);
        k := k + 1;
      }
    }

    /** The failing exit at operation `k`. */
    method FailAt(kind: Kind, vm: Vmm, k: nat, partial: bool, ghost before: Host)
      requires Valid() && k < |Program(kind)| && (partial ==> MayBePartial(kind, Program(kind)[k]))
      requires host == Effects(cfg, before, Program(kind)[..k], vm) && PidFree(before, vm.pid)
      modifies this`host, cids`used, recorder
      ensures Valid() && RolledBack(cfg, before, host, vm.id, Program(kind)[k], partial)
      ensures cids.used == old(cids.used) - {vm.cid} && recorder.recs == old(recorder.recs)
    {
      var op, known := Program(kind)[k], KnownPid(kind, k, partial, vm.pid);
      RollbackExact(cfg, kind, before, vm, k, partial);
      RollbackFreed(cfg, op, vm.cid, known);
      if partial {
        host := Effect(cfg, host, op, vm);
      }
      RunUndo(vm.id, OnFailure(cfg, op, vm.cid, known), true);
    }

    /** Launch and LoadSnapshot.  `outcomes` says how each host operation ends, `pid` is the
        pid the started VMM gets, `saved` whether the record write takes effect.

        A boot that does not succeed leaves the instance map, the records and the CIDs in use
        exactly as they were, and the host rolled back. */
    method Boot(kind: Kind, id: Id, memMiB: int, outcomes: seq<Outcome>, pid: nat, saved: bool) returns (r: BootResult)
      requires Valid() && |outcomes| == |Program(kind)| && PidFree(host, pid)
      requires forall k :: 0 <= k < |outcomes| && outcomes[k].partial ==> MayBePartial(kind, Program(kind)[k])
      modifies this, cids, recorder
      ensures Valid()
      ensures !r.Booted? ==> inst == old(inst) && recorder.recs == old(recorder.recs) && cids.used == old(cids.used)
      ensures !r.Booted? && !r.Failed? ==> host == old(host)
      ensures r.Failed? ==>
        && r.k < |outcomes| && !outcomes[r.k].ok && (forall i :: 0 <= i < r.k ==> outcomes[i].ok)
        && RolledBack(cfg, old(host), host, id, Program(kind)[r.k], outcomes[r.k].partial)
      ensures r.Duplicate? <==> id in old(inst)
      ensures r.Denied? <==>
        && id !in old(inst)
        && var mem := if memMiB <= 0 then 256 else memMiB;
           || (cfg.maxConcurrent > 0 && |old(inst)| >= cfg.maxConcurrent)
           || (cfg.memoryBudget > 0 && Wrap64(Wrap64(Sum(Weights(old(inst)))) + mem) > cfg.memoryBudget)
      ensures r.Exhausted? ==> Scan(cfg.min, cfg.max, old(cids.next), old(cids.used), Total(cfg.min, cfg.max)).0 == None
      ensures r.Booted? ==>
        && inst == old(inst)[id := r.inst]
        && r.inst == Inst(id, r.inst.cid, pid, if memMiB <= 0 then 256 else memMiB)
        && Scan(cfg.min, cfg.max, old(cids.next), old(cids.used), Total(cfg.min, cfg.max)).0 == Some(r.inst.cid)
        && r.inst.cid !in old(cids.used) && cids.used == old(cids.used) + {r.inst.cid}
        && (forall i :: 0 <= i < |outcomes| ==> outcomes[i].ok)
        && host.dirs == old(host.dirs) + {id} && host.leaves == old(host.leaves) + {id}
        && host.chroots == (if cfg.jailer then old(host.chroots) + {id} else old(host.chroots))
        && host.vmms == old(host.vmms) + {Vmm(id, pid, r.inst.cid)}
        && recorder.recs == (if saved then old(recorder.recs)[id := Record(pid, cfg.jailer)] else old(recorder.recs))
    {
      if id in inst {
        return Duplicate;
      }
      var mem := SpecMem(memMiB);
      var admitted := AdmitLocked(mem);
      if !admitted {
        return Denied;
      }
      ScanFresh(cfg.min, cfg.max, cids.next, cids.used, Total(cfg.min, cfg.max));
      var a := cids.Alloc();
      if a.None? {
        return Exhausted;
      }
      var vm := Vmm(id, pid, a.value);
      var k := RunOps(Program(kind), vm, outcomes);
      if k < |outcomes| {
        FailAt(kind, vm, k, outcomes[k].partial, old(host));
        return Failed(k);
      }
      assert Program(kind)[..k] == Program(kind);
      BootedHost(cfg, kind, old(host), vm);
      var i := Inst(id, a.value, pid, mem);
      inst := inst[id := i];
      if saved {
        recorder.Save(id, Record(pid, cfg.jailer));
      }
      return Booted(i);
    }

    /** gcRecord, after the kill: one record's host state and then the record. */
    method Reclaim(id: Id, r: Record, applied: bool)
      requires Valid()
      modifies this`host, recorder
      ensures Valid() && host == Swept(old(host), id, r)
      ensures recorder.recs == if applied then old(recorder.recs) - {id} else old(recorder.recs)
    {
      host := host.(vmms := set v | v in host.vmms && v.pid != r.pid);
      host := host.(leaves := host.leaves - {id});
      if r.chroot {
        host := host.(chroots := host.chroots - {id});
      }
      host := host.(dirs := host.dirs - {id});
      if applied {
        recorder.Remove(id);
      }
    }

    /** Record `k` of the listing. */
    method ReclaimNext(order: seq<Id>, k: nat, applied: bool, ghost h: Host, ghost recs: map<Id, Record>, ghost ap: Id -> bool)
      requires Valid() && inst == map[] && k < |order| && Lists(order, recs) && ap(order[k]) == applied
      requires SweptTo(h, recs, order, k, ap, host, recorder.recs)
      modifies this`host, recorder
      ensures Valid() && SweptTo(h, recs, order, k + 1, ap, host, recorder.recs)
    {
      var id := order[k];
      SweptNext(h, recs, order, k, ap, host, recorder.recs);
      if id !in inst {
        Reclaim(id, recorder.recs[id], applied);
      }
    }

    /** Reconcile of a fresh process: every record is reclaimed, in any listing order; what is
        left on the host is exactly what no record named.  If listing fails nothing is touched. */
    method Reconcile(applied: bool, listed: bool, bad: set<Id>) returns (ok: bool)
      requires Valid() && inst == map[]
      modifies this`host, recorder
      ensures Valid() && (ok <==> listed && old(recorder.active) * bad == {})
      ensures !ok ==> host == old(host) && recorder.recs == old(recorder.recs)
      ensures ok ==> host == Recovered(old(host), old(recorder.recs)) && (applied ==> recorder.recs == map[])
    {
      var r := recorder.All(listed, bad);
      if r.None? {
        return false;
      }
      var order := r.value;
      ghost var recs, h, ap := recorder.recs, host, (_: Id) => applied;
      NothingSwept(h, recs, order, ap);
      var k := 0;
      while k < |order|
        invariant 0 <= k <= |order| && Valid() && SweptTo(h, recs, order, k, ap, host, recorder.recs)
      {
        ReclaimNext(order, k, applied, h, recs, ap);
        k := k + 1;
      }
      AllSwept(h, recs, order, ap, host, recorder.recs, applied);
      return true;
    }
  }

  /** The host without what the record of `id` names. */
  function Swept(h: Host, id: Id, r: Record): Host {
    Host(h.dirs - {id}, h.leaves - {id}, if r.chroot then h.chroots - {id} else h.chroots,
         set v | v in h.vmms && v.pid != r.pid)
  }

  /** Host and records after reconciling the first `k` records of the listing. */
  ghost predicate SweptTo(h: Host, recs: map<Id, Record>, order: seq<Id>, k: nat, ap: Id -> bool,
                          host: Host, now: map<Id, Record>)
    requires Lists(order, recs) && k <= |order|
  {
    && (host, now) == ApplySweeps(h, recs, SweepProgram(order[..k], recs), ap)
    && (forall i :: k <= i < |order| ==> order[i] in now && now[order[i]] == recs[order[i]])
    && (forall i :: 0 <= i < k && ap(order[i]) ==> order[i] !in now)
    && now.Keys <= recs.Keys
  }

  lemma NothingSwept(h: Host, recs: map<Id, Record>, order: seq<Id>, ap: Id -> bool)
    requires Lists(order, recs)
    ensures SweptTo(h, recs, order, 0, ap, h, recs)
  {
    assert order[..0] == [];
  }

  lemma SweptNext(h: Host, recs: map<Id, Record>, order: seq<Id>, k: nat, ap: Id -> bool, host: Host, now: map<Id, Record>)
    requires Lists(order, recs) && k < |order| && SweptTo(h, recs, order, k, ap, host, now)
    ensures var id := order[k];
            && id in now && now[id] == recs[id]
            && SweptTo(h, recs, order, k + 1, ap, Swept(host, id, recs[id]), if ap(id) then now - {id} else now)
  {
    SweepNext(h, recs, order, k, ap);
    BlockEffect(host, now, order[k], recs[order[k]], ap);
  }

  lemma AllSwept(h: Host, recs: map<Id, Record>, order: seq<Id>, ap: Id -> bool, host: Host, now: map<Id, Record>, applied: bool)
    requires Lists(order, recs) && SweptTo(h, recs, order, |order|, ap, host, now) && forall id :: ap(id) == applied
    ensures host == Recovered(h, recs) && (applied ==> now == map[])
  {
    assert order[..|order|] == order;
    ReconcileResult(h, recs, order, ap);
    if applied {
      forall id | id in recs ensures id !in now {
        var i :| 0 <= i < |order| && order[i] == id;
      }
      assert now.Keys == {};
    }
  }

  function SpecMem(memMiB: int): int {
    if memMiB <= 0 then 256 else memMiB
  }

  lemma Slices<T>(s: seq<T>, k: nat)
    requires k < |s|
    ensures s[..k + 1] == s[..k] + [s[k]] && s[..k + 1][..k] == s[..k]
    ensures s[k..] == [s[k]] + s[k + 1..] && s[k..][1..] == s[k + 1..]
  {
  }

  lemma TeardownFreed(cfg: Config, i: Inst)
    ensures var u := Teardown(cfg, i); Freed(u) == {i.cid} && Forget in u
  {
    var u := Teardown(cfg, i);
    assert u[1] == FreeCid(i.cid) && u[|u| - 1] == Forget;
    FreedOne(u, i.cid);
  }

  lemma RollbackFreed(cfg: Config, op: Op, cid: Cid, pid: Option<nat>)
    ensures var u := OnFailure(cfg, op, cid, pid); u != [] && Freed(u) == {cid} && Forget !in u
  {
    var u := OnFailure(cfg, op, cid, pid);
    assert FreeCid(cid) in u by {
      if BeforeCleanup(op) {
        assert u[0] == FreeCid(cid);
      } else {
        assert u[|StopOf(pid)|] == FreeCid(cid);
      }
    }
    FreedOne(u, cid);
  }

  lemma {:induction false} SweepProgramSnoc(order: seq<Id>, recs: map<Id, Record>, id: Id)
    requires id in recs && forall i :: 0 <= i < |order| ==> order[i] in recs
    ensures SweepProgram(order + [id], recs) == SweepProgram(order, recs) + SweepsOf(id, recs[id])
    decreases |order|
  {
    if order == [] {
      assert [id][1..] == [] && order + [id] == [id];
    } else {
      assert (order + [id])[1..] == order[1..] + [id];
      SweepProgramSnoc(order[1..], recs, id);
    }
  }

  /** Reconciliation of one more record. */
  lemma SweepNext(h: Host, recs: map<Id, Record>, order: seq<Id>, k: nat, ap: Id -> bool)
    requires k < |order| && forall i :: 0 <= i < |order| ==> order[i] in recs
    ensures order[k..] == [order[k]] + order[k + 1..]
    ensures var m := ApplySweeps(h, recs, SweepProgram(order[..k], recs), ap);
            ApplySweeps(h, recs, SweepProgram(order[..k + 1], recs), ap)
            == ApplySweeps(m.0, m.1, SweepsOf(order[k], recs[order[k]]), ap)
  {
    Slices(order, k);
    SweepProgramSnoc(order[..k], recs, order[k]);
    ApplyConcat(h, recs, SweepProgram(order[..k], recs), SweepsOf(order[k], recs[order[k]]), ap);
  }

  /** The block of one record, executed. */
  lemma BlockEffect(h: Host, recs: map<Id, Record>, id: Id, r: Record, applied: Id -> bool)
    ensures ApplySweeps(h, recs, SweepsOf(id, r), applied) == (Swept(h, id, r), if applied(id) then recs - {id} else recs)
  {
    var p := SweepsOf(id, r);
    var h1 := SweepEffect(h, p[0]);
    var h2 := SweepEffect(h1, p[1]);
    assert p[1..][1..] == p[2..];
    assert ApplySweeps(h, recs, p, applied) == ApplySweeps(h1, recs, p[1..], applied)
                                            == ApplySweeps(h2, recs, p[2..], applied);
    var h3 := if r.chroot then SweepEffect(h2, SweepChroot(id)) else h2;
    var tail := [SweepDir(id), SweepRecord(id)];
    if r.chroot {
      assert p[2..] == [SweepChroot(id)] + tail;
      assert p[2..][1..] == tail;
    } else {
      assert p[2..] == tail;
    }
    assert ApplySweeps(h2, recs, p[2..], applied) == ApplySweeps(h3, recs, tail, applied);
    assert tail[1..] == [SweepRecord(id)] && tail[1..][1..] == [];
    var h4 := SweepEffect(h3, SweepDir(id));
    assert ApplySweeps(h3, recs, tail, applied) == ApplySweeps(h4, recs, [SweepRecord(id)], applied);
    assert ApplySweeps(h4, recs, [SweepRecord(id)], applied)
        == (h4, SweepRecords(recs, SweepRecord(id), applied(id)));
  }
}
