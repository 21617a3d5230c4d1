/** Calls that run without interference, as runs of the interleaved machine.  They end in the
    states that the methods of class Supervisor promise, so the whole-run results apply to them. */
module SupervisorSerial {
  import opened Wrappers
  import opened Runs
  import opened CidAllocator
  import opened SupervisorModel
  import opened SupervisorRollback

  ghost function Next(cfg: Config, s: Sup, a: Action): Option<Sup> {
    if Enabled(cfg, s, a) then Some(Apply(cfg, s, a)) else None
  }

  ghost function StepOf(cfg: Config): (Sup, Action) -> Option<Sup> {
    (s: Sup, a: Action) => Next(cfg, s, a)
  }

  /** The run `actions` leads from `s` to `t`. */
  ghost predicate Reaches(cfg: Config, s: Sup, actions: seq<Action>, t: Sup) {
    Leads(StepOf(cfg), s, actions, t)
  }

  lemma ReachesHead(cfg: Config, s: Sup, actions: seq<Action>, t: Sup)
    requires actions != []
    ensures Reaches(cfg, s, actions, t) <==>
            Enabled(cfg, s, actions[0]) && Reaches(cfg, Apply(cfg, s, actions[0]), actions[1..], t)
  {
    assert StepOf(cfg)(s, actions[0]) == Next(cfg, s, actions[0]);
  }

  lemma {:induction false} ReachesIsRun(cfg: Config, s: Sup, actions: seq<Action>, t: Sup)
    ensures Reaches(cfg, s, actions, t) <==> RunOk(cfg, s, actions) && Last(Run(cfg, s, actions)) == t
    decreases |actions|
  {
    if actions != [] {
      ReachesHead(cfg, s, actions, t);
      if Enabled(cfg, s, actions[0]) {
        var u := Apply(cfg, s, actions[0]);
        ReachesIsRun(cfg, u, actions[1..], t);
        if RunOk(cfg, u, actions[1..]) {
          assert Last(Run(cfg, s, actions)) == Last(Run(cfg, u, actions[1..]));
        }
      }
    }
  }

  lemma ReachTrans(cfg: Config, s: Sup, a: seq<Action>, t: Sup, b: seq<Action>, u: Sup)
    requires Reaches(cfg, s, a, t) && Reaches(cfg, t, b, u)
    ensures Reaches(cfg, s, a + b, u)
  {
    LeadsTrans(StepOf(cfg), s, a, t, b, u);
  }

  lemma OneStep(cfg: Config, s: Sup, a: Action)
    requires Enabled(cfg, s, a)
    ensures Reaches(cfg, s, [a], Apply(cfg, s, a))
  {
    ReachesHead(cfg, s, [a], Apply(cfg, s, a));
    assert [a][1..] == [];
  }

  lemma ReachStep(cfg: Config, s: Sup, actions: seq<Action>, t: Sup, a: Action)
    requires Reaches(cfg, s, actions, t) && Enabled(cfg, t, a)
    ensures Reaches(cfg, s, actions + [a], Apply(cfg, t, a))
  {
    OneStep(cfg, t, a);
    ReachTrans(cfg, s, actions, t, [a], Apply(cfg, t, a));
  }

  /** `n` times the same action. */
  function Times(a: Action, n: nat): seq<Action> {
    if n == 0 then [] else Times(a, n - 1) + [a]
  }

  /** One boot: its call number, what it was asked for, and the CID and pid it is given. */
  datatype Boot = Boot(c: nat, kind: Kind, id: Id, mem: int, cid: Cid, pid: nat)

  function VmOf(b: Boot): Vmm {
    Vmm(b.id, b.pid, b.cid)
  }

  /** The call after the first `n` operations of `p`. */
  function CallAt(b: Boot, p: seq<Op>, n: nat): Call
    requires n <= |p|
  {
    Booting(b.kind, b.id, b.mem, b.cid, p[n..], if StartVm in p[..n] then Some(b.pid) else None)
  }

  /** The supervisor then, if it was `s` before. */
  function BootAt(cfg: Config, s: Sup, b: Boot, p: seq<Op>, n: nat): Sup
    requires n <= |p|
  {
    SetCall(s, b.c, CallAt(b, p, n))
      .(host := Effects(cfg, s.host, p[..n], VmOf(b)),
        orphans := if StartVm in p[..n] then s.orphans - {VmOf(b)} else s.orphans)
  }

  /** The VM is started only once. */
  predicate StartsOnce(p: seq<Op>) {
    forall i, j :: 0 <= i < j < |p| ==> !(p[i].StartVm? && p[j].StartVm?)
  }

  lemma SliceAt(p: seq<Op>, n: nat)
    requires n < |p|
    ensures p[..n + 1] == p[..n] + [p[n]] && p[..n + 1][..n] == p[..n] && p[n..][0] == p[n] && p[n..][1..] == p[n + 1..]
    ensures StartVm in p[..n + 1] <==> StartVm in p[..n] || p[n].StartVm?
  {
  }

  lemma CallStep(b: Boot, p: seq<Op>, n: nat)
    requires n < |p| && StartsOnce(p)
    ensures var call := CallAt(b, p, n);
            && call.ops != [] && call.ops[0] == p[n]
            && CallAt(b, p, n + 1) == call.(ops := call.ops[1..], pid := if p[n].StartVm? then Some(b.pid) else call.pid)
            && (p[n].StartVm? ==> StartVm !in p[..n])
  {
    SliceAt(p, n);
  }

  lemma HostStep(cfg: Config, h: Host, b: Boot, p: seq<Op>, n: nat)
    requires n < |p|
    ensures Effects(cfg, h, p[..n + 1], VmOf(b))
         == Effect(cfg, Effects(cfg, h, p[..n], VmOf(b)), p[n], VmOf(b))
  {
    SliceAt(p, n);
  }

  lemma OpStep(cfg: Config, s: Sup, b: Boot, p: seq<Op>, n: nat)
    requires n < |p| && StartsOnce(p) && PidFree(s.host, b.pid)
    ensures var t := BootAt(cfg, s, b, p, n);
            Enabled(cfg, t, Do(b.c, b.pid)) && Apply(cfg, t, Do(b.c, b.pid)) == BootAt(cfg, s, b, p, n + 1)
  {
    CallStep(b, p, n);
    EffectsElsewhere(cfg, s.host, p[..n], VmOf(b));
    OpResult(cfg, s, b, p, n);
    var t := BootAt(cfg, s, b, p, n);
    assert Enabled(cfg, t, Do(b.c, b.pid));
  }

  lemma OpResult(cfg: Config, s: Sup, b: Boot, p: seq<Op>, n: nat)
    requires n < |p| && StartsOnce(p)
    ensures var t := BootAt(cfg, s, b, p, n);
            b.c in t.calls && t.calls[b.c].Booting? && t.calls[b.c].ops != []
            && ApplyDo(cfg, t, b.c, b.pid) == BootAt(cfg, s, b, p, n + 1)
  {
    CallStep(b, p, n);
    HostStep(cfg, s.host, b, p, n);
    SliceAt(p, n);
    var t := BootAt(cfg, s, b, p, n);
    assert t.calls[b.c] == CallAt(b, p, n);
    assert ApplyDo(cfg, t, b.c, b.pid).calls == s.calls[b.c := CallAt(b, p, n + 1)];
  }

  lemma {:induction false} OpsRun(cfg: Config, origin: Sup, before: seq<Action>, s: Sup, b: Boot, p: seq<Op>, n: nat)
    requires n <= |p| && StartsOnce(p) && PidFree(s.host, b.pid)
    requires Reaches(cfg, origin, before, BootAt(cfg, s, b, p, 0))
    ensures Reaches(cfg, origin, before + Times(Do(b.c, b.pid), n), BootAt(cfg, s, b, p, n))
  {
    if n == 0 {
      assert before + [] == before;
    } else {
      OpsRun(cfg, origin, before, s, b, p, n - 1);
      OpStep(cfg, s, b, p, n - 1);
      var run := before + Times(Do(b.c, b.pid), n - 1);
      ReachStep(cfg, origin, run, BootAt(cfg, s, b, p, n - 1), Do(b.c, b.pid));
      assert run + [Do(b.c, b.pid)] == before + Times(Do(b.c, b.pid), n);
    }
  }

  /** The supervisor with the CID of `b` allocated to it. */
  ghost predicate Allocates(cfg: Config, s: Sup, b: Boot, s': Sup) {
    && Scan(cfg.min, cfg.max, s.next, s.used, Total(cfg.min, cfg.max)) == (Some(b.cid), s'.next)
    && s' == s.(next := s'.next, used := s.used + {b.cid}, saved := s.saved - {b.id})
  }

  function Start(b: Boot): seq<Action> {
    [Admit(b.c, b.kind, b.id, b.mem), Allocate(b.c)]
  }

  /** Admission and allocation. */
  lemma StartRun(cfg: Config, s: Sup, b: Boot, s': Sup)
    requires Enabled(cfg, s, Start(b)[0]) && Allocates(cfg, s, b, s')
    ensures Reaches(cfg, s, Start(b), BootAt(cfg, s', b, Program(b.kind), 0))
  {
    var a := Start(b)[0];
    var t := Apply(cfg, s, a);
    OneStep(cfg, s, a);
    ReachStep(cfg, s, [a], t, Allocate(b.c));
    assert [a] + [Allocate(b.c)] == Start(b);
    var p := Program(b.kind);
    assert p[0..] == p && p[..0] == [];
    assert Apply(cfg, t, Allocate(b.c)).calls == BootAt(cfg, s', b, p, 0).calls;
  }

  /** Up to and including operation `n - 1`. */
  lemma BootingRun(cfg: Config, s: Sup, b: Boot, s': Sup, n: nat)
    requires Enabled(cfg, s, Start(b)[0]) && Allocates(cfg, s, b, s') && PidFree(s.host, b.pid)
    requires n <= |Program(b.kind)|
    ensures Reaches(cfg, s, Start(b) + Times(Do(b.c, b.pid), n), BootAt(cfg, s', b, Program(b.kind), n))
  {
    StartRun(cfg, s, b, s');
    OpsRun(cfg, s, Start(b), s', b, Program(b.kind), n);
  }

  /** Every operation done. */
  predicate AllDone(t: Sup, b: Boot) {
    b.c in t.calls && t.calls[b.c] == Booting(b.kind, b.id, b.mem, b.cid, [], Some(b.pid)) && b.id !in t.inst
  }

  lemma ProgramDone(cfg: Config, s: Sup, b: Boot)
    requires b.c !in s.calls && b.id !in s.inst
    ensures var t := BootAt(cfg, s, b, Program(b.kind), |Program(b.kind)|);
            && AllDone(t, b) && t.host == Effects(cfg, s.host, Program(b.kind), VmOf(b))
            && t.calls - {b.c} == s.calls
  {
    var p := Program(b.kind);
    assert p[..|p|] == p && p[|p|..] == [] && p[4] == StartVm;
  }

  /** `t'` is `t` with the boot inserted and its record written or not. */
  ghost predicate Inserted(cfg: Config, t: Sup, b: Boot, saved: bool, t': Sup) {
    && t'.inst == t.inst[b.id := Inst(b.id, b.cid, b.pid, b.mem)] && t'.used == t.used && t'.host == t.host
    && t'.calls == t.calls - {b.c} && t'.displaced == t.displaced && t'.mode == t.mode
    && t'.records == if saved then t.records[b.id := Record(b.pid, cfg.jailer)] else t.records
  }

  lemma FinishBoot(cfg: Config, t: Sup, b: Boot, saved: bool)
    requires AllDone(t, b)
    ensures Enabled(cfg, t, Insert(b.c))
    ensures var u := Apply(cfg, t, Insert(b.c));
            Enabled(cfg, u, Save(b.c, saved)) && Inserted(cfg, t, b, saved, Apply(cfg, u, Save(b.c, saved)))
  {
  }

  lemma FinishRun(cfg: Config, origin: Sup, run: seq<Action>, t: Sup, b: Boot, saved: bool) returns (t': Sup)
    requires Reaches(cfg, origin, run, t) && AllDone(t, b)
    ensures Reaches(cfg, origin, run + [Insert(b.c)] + [Save(b.c, saved)], t') && Inserted(cfg, t, b, saved, t')
  {
    FinishBoot(cfg, t, b, saved);
    var u := Apply(cfg, t, Insert(b.c));
    ReachStep(cfg, origin, run, t, Insert(b.c));
    ReachStep(cfg, origin, run + [Insert(b.c)], u, Save(b.c, saved));
    t' := Apply(cfg, u, Save(b.c, saved));
  }

  /** The actions of an undisturbed, successful boot. */
  function BootActions(b: Boot, saved: bool): seq<Action> {
    Start(b) + Times(Do(b.c, b.pid), |Program(b.kind)|) + [Insert(b.c)] + [Save(b.c, saved)]
  }

  /** An undisturbed, successful boot ends in the state that Supervisor.Boot promises. */
  lemma BootIsRun(cfg: Config, s: Sup, b: Boot, s': Sup, saved: bool) returns (t: Sup)
    requires Enabled(cfg, s, Start(b)[0]) && Allocates(cfg, s, b, s') && PidFree(s.host, b.pid)
    ensures Reaches(cfg, s, BootActions(b, saved), t)
    ensures t.inst == s.inst[b.id := Inst(b.id, b.cid, b.pid, b.mem)] && t.used == s.used + {b.cid}
    ensures t.host.dirs == s.host.dirs + {b.id} && t.host.leaves == s.host.leaves + {b.id}
    ensures t.host.chroots == if cfg.jailer then s.host.chroots + {b.id} else s.host.chroots
    ensures t.host.vmms == s.host.vmms + {Vmm(b.id, b.pid, b.cid)} && t.calls == s.calls
    ensures t.records == (if saved then s.records[b.id := Record(b.pid, cfg.jailer)] else s.records)
    ensures t.displaced == s.displaced && t.mode == s.mode
  {
    var n := |Program(b.kind)|;
    BootingRun(cfg, s, b, s', n);
    ProgramDone(cfg, s', b);
    BootedHost(cfg, b.kind, s.host, VmOf(b));
    t := FinishRun(cfg, s, Start(b) + Times(Do(b.c, b.pid), n), BootAt(cfg, s', b, Program(b.kind), n), b, saved);
  }

  // ---- rollback and teardown ----

  /** `t` is `s` with call `c` completely unwound. */
  ghost predicate Undone(s: Sup, t: Sup, c: nat, id: Id, undo: seq<Undo>, applied: bool) {
    && t == s.(calls := s.calls - {c}, host := UndoAll(s.host, undo, id), used := t.used, records := t.records)
    && (forall x :: x in t.used <==> x in s.used && FreeCid(x) !in undo)
    && t.records == if applied && Forget in undo then s.records - {id} else s.records
  }

  lemma UndoneLast(s: Sup, c: nat, applied: bool)
    requires c in s.calls && s.calls[c].Unwinding? && |s.calls[c].undo| == 1
    ensures Undone(s, ApplyUnwind(s, c, applied), c, s.calls[c].id, s.calls[c].undo, applied)
  {
    var u := s.calls[c].undo;
    assert u == [u[0]] && u[1..] == [];
  }

  lemma UndoneNext(s: Sup, t: Sup, c: nat, applied: bool)
    requires c in s.calls && s.calls[c].Unwinding? && |s.calls[c].undo| > 1
    requires Undone(ApplyUnwind(s, c, applied), t, c, s.calls[c].id, s.calls[c].undo[1..], applied)
    ensures Undone(s, t, c, s.calls[c].id, s.calls[c].undo, applied)
  {
    var u := s.calls[c].undo;
    assert u == [u[0]] + u[1..];
    assert ApplyUnwind(s, c, applied).calls - {c} == s.calls - {c};
  }

  lemma {:induction false} UnrollTimes(a: Action, n: nat)
    requires n > 0
    ensures Times(a, n) == [a] + Times(a, n - 1)
  {
    if n > 1 {
      UnrollTimes(a, n - 1);
    }
  }

  lemma UnwindReach(cfg: Config, origin: Sup, before: seq<Action>, s: Sup, c: nat, applied: bool)
    requires Reaches(cfg, origin, before, s) && c in s.calls && s.calls[c].Unwinding? && s.calls[c].undo != []
    ensures Reaches(cfg, origin, before + [Unwind(c, applied)], ApplyUnwind(s, c, applied))
    ensures |s.calls[c].undo| > 1 ==>
      var t := ApplyUnwind(s, c, applied); c in t.calls && t.calls[c] == s.calls[c].(undo := s.calls[c].undo[1..])
  {
    ReachStep(cfg, origin, before, s, Unwind(c, applied));
  }

  /** A call left alone unwinds to the end of its program. */
  lemma {:induction false} UndoRun(cfg: Config, origin: Sup, before: seq<Action>, s: Sup, c: nat, applied: bool, n: nat)
    returns (t: Sup)
    requires Reaches(cfg, origin, before, s) && c in s.calls && s.calls[c].Unwinding?
    requires n == |s.calls[c].undo| > 0
    ensures Reaches(cfg, origin, before + Times(Unwind(c, applied), n), t)
    ensures Undone(s, t, c, s.calls[c].id, s.calls[c].undo, applied)
    decreases n
  {
    var a := Unwind(c, applied);
    UnwindReach(cfg, origin, before, s, c, applied);
    UnrollTimes(a, n);
    if n == 1 {
      t := ApplyUnwind(s, c, applied);
      UndoneLast(s, c, applied);
      assert Times(a, 0) == [];
      assert before + Times(a, n) == before + [a];
    } else {
      t := UndoRun(cfg, origin, before + [a], ApplyUnwind(s, c, applied), c, applied, n - 1);
      UndoneNext(s, t, c, applied);
      assert before + Times(a, n) == (before + [a]) + Times(a, n - 1);
    }
  }

  /** An undisturbed termination removes the entry, frees its CID and leaves the host torn down. */
  lemma TerminateIsRun(cfg: Config, s: Sup, c: nat, id: Id, applied: bool) returns (t: Sup)
    requires Enabled(cfg, s, Terminate(c, id))
    ensures Reaches(cfg, s, [Terminate(c, id)] + Times(Unwind(c, applied), |Teardown(cfg, s.inst[id])|), t)
    ensures t.inst == s.inst - {id} && t.calls == s.calls && t.used == s.used - {s.inst[id].cid}
    ensures TornDown(cfg, s.host, t.host, s.inst[id], id)
    ensures t.records == if applied then s.records - {id} else s.records
  {
    var a, i := Terminate(c, id), s.inst[id];
    var undo := Teardown(cfg, i);
    OneStep(cfg, s, a);
    var s1 := Apply(cfg, s, a);
    t := UndoRun(cfg, s, [a], s1, c, applied, |undo|);
    TeardownComplete(cfg, s.host, i, id);
    assert undo[1] == FreeCid(i.cid) && undo[|undo| - 1] == Forget;
    assert s1.calls - {c} == s.calls;
    assert t.used == s.used - {i.cid};
  }

  /** The actions of an undisturbed boot whose operation `k` fails. */
  function FailedActions(cfg: Config, b: Boot, k: nat, partial: bool): seq<Action>
    requires k < |Program(b.kind)|
  {
    Start(b) + Times(Do(b.c, b.pid), k) + [Fail(b.c, partial, b.pid)]
    + Times(Unwind(b.c, true), |OnFailure(cfg, Program(b.kind)[k], b.cid, KnownPid(b.kind, k, partial, b.pid))|)
  }

  lemma FailEnabled(cfg: Config, s: Sup, b: Boot, p: seq<Op>, k: nat, partial: bool)
    requires k < |p| && StartsOnce(p) && (partial ==> MayBePartial(b.kind, p[k])) && PidFree(s.host, b.pid)
    ensures Enabled(cfg, BootAt(cfg, s, b, p, k), Fail(b.c, partial, b.pid))
  {
    CallStep(b, p, k);
    EffectsElsewhere(cfg, s.host, p[..k], VmOf(b));
    assert BootAt(cfg, s, b, p, k).calls[b.c] == CallAt(b, p, k);
  }

  /** The failing step itself. */
  lemma FailStep(cfg: Config, s: Sup, b: Boot, k: nat, partial: bool)
    requires k < |Program(b.kind)| && (partial ==> MayBePartial(b.kind, Program(b.kind)[k])) && PidFree(s.host, b.pid)
    ensures var t := BootAt(cfg, s, b, Program(b.kind), k);
            Enabled(cfg, t, Fail(b.c, partial, b.pid)) &&
            Apply(cfg, t, Fail(b.c, partial, b.pid)) == FailedAt(cfg, s, b, k, partial)
  {
    var p := Program(b.kind);
    FailEnabled(cfg, s, b, p, k, partial);
    CallStep(b, p, k);
    FailResult(cfg, s, b, p, k, partial);
  }

  lemma FailResult(cfg: Config, s: Sup, b: Boot, p: seq<Op>, k: nat, partial: bool)
    requires p == Program(b.kind) && k < |p| && CallAt(b, p, k).ops != [] && CallAt(b, p, k).ops[0] == p[k]
    ensures var t := BootAt(cfg, s, b, p, k);
            b.c in t.calls && t.calls[b.c].Booting? && t.calls[b.c].ops != []
            && ApplyFail(cfg, t, b.c, partial, b.pid) == FailedAt(cfg, s, b, k, partial)
  {
    var t := BootAt(cfg, s, b, p, k);
    var call := t.calls[b.c];
    assert call == CallAt(b, p, k);
    var known := KnownPid(b.kind, k, partial, b.pid);
    assert known == if p[k].StartVm? && partial then Some(b.pid) else call.pid;
    var undo := OnFailure(cfg, p[k], b.cid, known);
    var after := Unwinding(b.id, b.mem, true, undo);
    assert ApplyFail(cfg, t, b.c, partial, b.pid).calls == t.calls[b.c := after] == s.calls[b.c := after];
  }

  /** The supervisor right after the failure. */
  function FailedAt(cfg: Config, s: Sup, b: Boot, k: nat, partial: bool): Sup
    requires k < |Program(b.kind)|
  {
    var undo := OnFailure(cfg, Program(b.kind)[k], b.cid, KnownPid(b.kind, k, partial, b.pid));
    SetCall(s, b.c, Unwinding(b.id, b.mem, true, undo))
      .(host := AtFailure(cfg, b.kind, s.host, VmOf(b), k, partial),
        orphans := if KnownPid(b.kind, k, partial, b.pid).Some? then s.orphans - {VmOf(b)} else s.orphans)
  }

  lemma FailureUndo(cfg: Config, op: Op, cid: Cid, pid: Option<nat>)
    ensures var u := OnFailure(cfg, op, cid, pid);
            u != [] && Forget !in u && FreeCid(cid) in u && forall x :: FreeCid(x) in u ==> x == cid
  {
    var u := OnFailure(cfg, op, cid, pid);
    if BeforeCleanup(op) {
      assert u[0] == FreeCid(cid);
    } else {
      assert u[|StopOf(pid)|] == FreeCid(cid);
    }
  }

  /** The run up to the failure. */
  lemma FailingRun(cfg: Config, s: Sup, b: Boot, s': Sup, k: nat, partial: bool)
    requires Enabled(cfg, s, Start(b)[0]) && Allocates(cfg, s, b, s') && PidFree(s.host, b.pid)
    requires k < |Program(b.kind)| && (partial ==> MayBePartial(b.kind, Program(b.kind)[k]))
    ensures Reaches(cfg, s, Start(b) + Times(Do(b.c, b.pid), k) + [Fail(b.c, partial, b.pid)], FailedAt(cfg, s', b, k, partial))
  {
    BootingRun(cfg, s, b, s', k);
    FailStep(cfg, s', b, k, partial);
    ReachStep(cfg, s, Start(b) + Times(Do(b.c, b.pid), k), BootAt(cfg, s', b, Program(b.kind), k), Fail(b.c, partial, b.pid));
  }

  /** The state after the rollback. */
  lemma FailedState(cfg: Config, s: Sup, b: Boot, s': Sup, k: nat, partial: bool, t: Sup)
    requires b.c !in s.calls && Allocates(cfg, s, b, s') && PidFree(s.host, b.pid)
    requires k < |Program(b.kind)| && (partial ==> MayBePartial(b.kind, Program(b.kind)[k]))
    requires Undone(FailedAt(cfg, s', b, k, partial), t, b.c, b.id,
                    OnFailure(cfg, Program(b.kind)[k], b.cid, KnownPid(b.kind, k, partial, b.pid)), true)
    ensures t.inst == s.inst && t.calls == s.calls && t.used == s.used && t.records == s.records
    ensures t.next == s'.next && t.mode == s.mode
    ensures RolledBack(cfg, s.host, t.host, b.id, Program(b.kind)[k], partial)
  {
    var at := FailedAt(cfg, s', b, k, partial);
    FailureUndo(cfg, Program(b.kind)[k], b.cid, KnownPid(b.kind, k, partial, b.pid));
    ScanFresh(cfg.min, cfg.max, s.next, s.used, Total(cfg.min, cfg.max));
    RollbackExact(cfg, b.kind, s.host, VmOf(b), k, partial);
    assert at.calls - {b.c} == s.calls;
    assert t.used == s.used;
  }

  /** An undisturbed boot that fails at any operation gives its CID back, leaves instances and
      records alone and the host rolled back. */
  lemma FailedBootIsRun(cfg: Config, s: Sup, b: Boot, s': Sup, k: nat, partial: bool) returns (t: Sup)
    requires Enabled(cfg, s, Start(b)[0]) && Allocates(cfg, s, b, s') && PidFree(s.host, b.pid)
    requires k < |Program(b.kind)| && (partial ==> MayBePartial(b.kind, Program(b.kind)[k]))
    ensures Reaches(cfg, s, FailedActions(cfg, b, k, partial), t)
    ensures t.inst == s.inst && t.calls == s.calls && t.used == s.used && t.records == s.records
    ensures t.next == s'.next && t.mode == s.mode
    ensures RolledBack(cfg, s.host, t.host, b.id, Program(b.kind)[k], partial)
  {
    var known := KnownPid(b.kind, k, partial, b.pid);
    var undo := OnFailure(cfg, Program(b.kind)[k], b.cid, known);
    FailureUndo(cfg, Program(b.kind)[k], b.cid, known);
    FailingRun(cfg, s, b, s', k, partial);
    var run := Start(b) + Times(Do(b.c, b.pid), k) + [Fail(b.c, partial, b.pid)];
    t := UndoRun(cfg, s, run, FailedAt(cfg, s', b, k, partial), b.c, true, |undo|);
    FailedState(cfg, s, b, s', k, partial, t);
  }

  // ---- runs without a crash ----

  predicate CrashFree(actions: seq<Action>) {
    forall i :: 0 <= i < |actions| ==> !actions[i].Crash?
  }

  lemma {:induction false} TimesCrashFree(a: Action, n: nat)
    requires !a.Crash?
    ensures CrashFree(Times(a, n))
  {
    if n > 0 {
      TimesCrashFree(a, n - 1);
    }
  }
}
