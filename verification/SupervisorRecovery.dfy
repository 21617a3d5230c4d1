/** Crash recovery: what a fresh supervisor's reconciliation leaves behind.

    All results are about runs in which calls on one sandbox id do not overlap. */
module SupervisorRecovery {
  import opened Wrappers
  import opened CidAllocator
  import opened SupervisorModel
  import opened SupervisorCids
  import opened SupervisorRollback
  import opened SupervisorVms

  // ---- the invariant, one id at a time ----

  ghost predicate Idle(s: Sup, id: Id) {
    id !in s.inst && forall c :: c in s.calls ==> s.calls[c].id != id
  }

  /** Any VMM of `id`, orphans apart, has this pid. */
  ghost predicate OnlyVm(s: Sup, id: Id, pid: nat) {
    forall v :: v in Live(s) && v.id == id ==> v.pid == pid
  }

  /** No VMM of `id`, orphans apart. */
  ghost predicate NoVm(s: Sup, id: Id) {
    forall v :: v in Live(s) ==> v.id != id
  }

  /** The record of `id`, if it has been written, names all its resources. */
  ghost predicate Named(s: Sup, id: Id) {
    id in s.records && (id in s.host.chroots ==> s.records[id].chroot)
  }

  /** What the state of a call says about the resources of its id. */
  ghost predicate CallInv(cfg: Config, s: Sup, call: Call) {
    var id, h := call.id, s.host;
    match call
    case Admitted(_, _, _) => id !in s.inst && id !in s.saved && NoVm(s, id) && (id in h.chroots ==> id in s.exposed)
    case Booting(kind, _, _, _, ops, pid) =>
      && id !in s.inst && id !in s.saved && BootShape(kind, ops, pid)
      && (if pid.Some? then OnlyVm(s, id, pid.value) else NoVm(s, id) && (id in h.chroots ==> id in s.exposed))
    case Saving(_, rec) =>
      && id in s.inst && id !in s.saved && rec == Record(s.inst[id].pid, cfg.jailer)
      && OnlyVm(s, id, rec.pid)
    case Unwinding(_, _, rollback, undo) =>
      && id !in s.inst && undo != []
      && (id in h.chroots ==> RemoveChroot in undo || id in s.exposed)
      && (forall v :: v in Live(s) && v.id == id ==> StopVm(v.pid) in undo)
      && (rollback ==> id !in s.saved)
      && (!rollback ==>
            && (id in h.leaves ==> RemoveLeaf in undo) && (id in h.dirs ==> RemoveDir in undo)
            && undo[|undo| - 1] == Forget && (forall i :: 0 <= i < |undo| - 1 ==> undo[i] != Forget)
            && (id in s.saved ==> Named(s, id) && OnlyVm(s, id, s.records[id].pid)))
  }

  /** The pending sweeps reach every resource of `id`, and its record only after them. */
  ghost predicate Swept(s: Sup, id: Id, sweeps: seq<Sweep>) {
    && (id in s.host.leaves ==> SweepLeaf(id) in sweeps)
    && (id in s.host.chroots ==> SweepChroot(id) in sweeps)
    && (id in s.host.dirs ==> SweepDir(id) in sweeps)
  }

  ghost predicate ServingInv(cfg: Config, s: Sup, id: Id) {
    && (Idle(s, id) ==>
          && NoVm(s, id) && (id in s.host.chroots ==> id in s.exposed)
          && (id in s.saved ==> !Keeps(s.host, id)))
    && (id in s.inst ==>
          && OnlyVm(s, id, s.inst[id].pid)
          && (id in s.saved ==> id in s.records && s.records[id] == Record(s.inst[id].pid, cfg.jailer)))
    && (forall c :: c in s.calls && s.calls[c].id == id ==> CallInv(cfg, s, s.calls[c]))
  }

  ghost predicate IdInv(cfg: Config, s: Sup, id: Id) {
    match s.mode
    case Serving => ServingInv(cfg, s, id)
    case Down => Keeps(s.host, id) && id !in s.exposed ==> Named(s, id)
    case Recovering(sweeps) => id !in s.exposed ==> (Keeps(s.host, id) ==> Named(s, id)) && Swept(s, id, sweeps)
  }

  ghost predicate Inv(cfg: Config, s: Sup) {
    (forall id :: IdInv(cfg, s, id)) && CoreInv(cfg, s) && s.saved !! s.exposed
  }

  // ---- a step on one id does not concern the others ----

  /** Nothing about `id` differs between the two states. */
  ghost predicate SameFor(s: Sup, t: Sup, id: Id) {
    SameHost(s, t, id) && SameCalls(s, t, id) && SameTables(s, t, id)
  }

  ghost predicate SameTables(s: Sup, t: Sup, id: Id) {
    && t.mode == s.mode
    && (id in t.inst <==> id in s.inst) && (id in s.inst ==> t.inst[id] == s.inst[id])
    && (id in t.records <==> id in s.records) && (id in s.records ==> t.records[id] == s.records[id])
    && (id in t.saved <==> id in s.saved) && (id in t.exposed <==> id in s.exposed)
  }

  ghost predicate SameHost(s: Sup, t: Sup, id: Id) {
    && (id in t.host.dirs <==> id in s.host.dirs) && (id in t.host.leaves <==> id in s.host.leaves)
    && (id in t.host.chroots <==> id in s.host.chroots)
    && (forall v: Vmm :: v.id == id ==> (v in Live(t) <==> v in Live(s)))
  }

  ghost predicate SameCalls(s: Sup, t: Sup, id: Id) {
    && (forall c :: c in s.calls && s.calls[c].id == id ==> c in t.calls && t.calls[c] == s.calls[c])
    && (forall c :: c in t.calls && t.calls[c].id == id ==> c in s.calls && s.calls[c] == t.calls[c])
  }

  lemma SameCall(cfg: Config, s: Sup, t: Sup, call: Call)
    requires SameFor(s, t, call.id) && CallInv(cfg, s, call)
    ensures CallInv(cfg, t, call)
  {
  }

  lemma Frame(cfg: Config, s: Sup, t: Sup, id: Id)
    requires SameFor(s, t, id) && ServingInv(cfg, s, id)
    ensures ServingInv(cfg, t, id)
  {
    forall c | c in t.calls && t.calls[c].id == id ensures CallInv(cfg, t, t.calls[c]) {
      SameCall(cfg, s, t, s.calls[c]);
    }
  }

  /** The id a call action works on. */
  function Target(s: Sup, a: Action): Option<Id> {
    match a
    case Admit(_, _, id, _) => Some(id)
    case Terminate(_, id) => Some(id)
    case Allocate(c) => if c in s.calls then Some(s.calls[c].id) else None
    case Do(c, _) => if c in s.calls then Some(s.calls[c].id) else None
    case Fail(c, _, _) => if c in s.calls then Some(s.calls[c].id) else None
    case Insert(c) => if c in s.calls then Some(s.calls[c].id) else None
    case Save(c, _) => if c in s.calls then Some(s.calls[c].id) else None
    case Unwind(c, _) => if c in s.calls then Some(s.calls[c].id) else None
    case _ => None
  }

  lemma OthersSameHost(cfg: Config, s: Sup, a: Action, id: Id)
    requires Enabled(cfg, s, a) && Target(s, a).Some? && Target(s, a) != Some(id)
    ensures SameHost(s, Apply(cfg, s, a), id)
  {
  }

  lemma OthersSameCalls(cfg: Config, s: Sup, a: Action, id: Id)
    requires Enabled(cfg, s, a) && Target(s, a).Some? && Target(s, a) != Some(id)
    ensures SameCalls(s, Apply(cfg, s, a), id)
  {
  }

  lemma OthersSameTables(cfg: Config, s: Sup, a: Action, id: Id)
    requires Enabled(cfg, s, a) && Target(s, a).Some? && Target(s, a) != Some(id)
    ensures SameTables(s, Apply(cfg, s, a), id)
  {
  }

  lemma OthersSame(cfg: Config, s: Sup, a: Action, id: Id)
    requires Enabled(cfg, s, a) && Target(s, a).Some? && Target(s, a) != Some(id)
    ensures SameFor(s, Apply(cfg, s, a), id)
  {
    OthersSameHost(cfg, s, a, id);
    OthersSameCalls(cfg, s, a, id);
    OthersSameTables(cfg, s, a, id);
  }

  // ---- a step on its own id ----

  /** The call is the only one on its id, before and after. */
  ghost predicate Sole(s: Sup, c: nat, id: Id) {
    forall d :: d in s.calls && s.calls[d].id == id ==> d == c
  }

  lemma AdmitKeeps(cfg: Config, s: Sup, a: Action)
    requires Enabled(cfg, s, a) && a.Admit? && ServingInv(cfg, s, a.id) && Sole(Apply(cfg, s, a), a.c, a.id)
    ensures ServingInv(cfg, Apply(cfg, s, a), a.id)
  {
    var t := Apply(cfg, s, a);
    forall c | c in s.calls ensures s.calls[c].id != a.id {
      assert t.calls[c] == s.calls[c];
    }
    assert Idle(s, a.id);
  }

  lemma AllocateKeeps(cfg: Config, s: Sup, a: Action)
    requires Enabled(cfg, s, a) && a.Allocate?
    requires ServingInv(cfg, s, s.calls[a.c].id) && Sole(s, a.c, s.calls[a.c].id)
    ensures ServingInv(cfg, Apply(cfg, s, a), s.calls[a.c].id)
  {
    assert CallInv(cfg, s, s.calls[a.c]);
    FreshShape(s.calls[a.c].kind);
  }

  lemma DoKeeps(cfg: Config, s: Sup, a: Action)
    requires Enabled(cfg, s, a) && a.Do?
    requires ServingInv(cfg, s, s.calls[a.c].id) && Sole(s, a.c, s.calls[a.c].id)
    ensures ServingInv(cfg, Apply(cfg, s, a), s.calls[a.c].id)
  {
    var call := s.calls[a.c];
    assert CallInv(cfg, s, call);
    BootStep(call.kind, call.ops, call.pid, a.pid);
    var t := Apply(cfg, s, a);
    assert CallInv(cfg, t, t.calls[a.c]);
  }

  /** What a failing boot still undoes. */
  lemma FailureUndoes(cfg: Config, op: Op, cid: Cid, started: Option<nat>)
    ensures var u := OnFailure(cfg, op, cid, started);
            && u != []
            && (!BeforeCleanup(op) && started.Some? ==> StopVm(started.value) in u)
            && (!BeforeCleanup(op) && cfg.jailer ==> RemoveChroot in u)
  {
    var u := OnFailure(cfg, op, cid, started);
    if !BeforeCleanup(op) {
      assert u == StopOf(started) + [FreeCid(cid), RemoveLeaf, RemoveDir] + ChrootUndo(cfg);
      if started.Some? {
        assert u[0] == StopVm(started.value);
      }
      if cfg.jailer {
        assert u[|u| - 1] == RemoveChroot;
      }
    }
  }

  lemma FailKeeps(cfg: Config, s: Sup, a: Action)
    requires Enabled(cfg, s, a) && a.Fail? && (!cfg.jailer ==> s.host.chroots == {})
    requires ServingInv(cfg, s, s.calls[a.c].id) && Sole(s, a.c, s.calls[a.c].id)
    ensures ServingInv(cfg, Apply(cfg, s, a), s.calls[a.c].id)
  {
    FailCallKeeps(cfg, s, a.c, a.partial, a.pid);
  }

  lemma FailCallKeeps(cfg: Config, s: Sup, c: nat, partial: bool, pid: nat)
    requires c in s.calls && s.calls[c].Booting? && s.calls[c].ops != []
    requires partial ==> MayBePartial(s.calls[c].kind, s.calls[c].ops[0])
    requires (!cfg.jailer ==> s.host.chroots == {}) && ServingInv(cfg, s, s.calls[c].id) && Sole(s, c, s.calls[c].id)
    ensures ServingInv(cfg, ApplyFail(cfg, s, c, partial, pid), s.calls[c].id)
  {
    var call := s.calls[c];
    assert CallInv(cfg, s, call);
    BootStep(call.kind, call.ops, call.pid, pid);
    var op := call.ops[0];
    var started := if op.StartVm? && partial then Some(pid) else call.pid;
    FailureUndoes(cfg, op, call.cid, started);
    var t := ApplyFail(cfg, s, c, partial, pid);
    assert t.calls[c] == Unwinding(call.id, call.mem, true, OnFailure(cfg, op, call.cid, started));
    assert CallInv(cfg, t, t.calls[c]);
  }

  lemma InsertKeeps(cfg: Config, s: Sup, a: Action)
    requires Enabled(cfg, s, a) && a.Insert?
    requires ServingInv(cfg, s, s.calls[a.c].id) && Sole(s, a.c, s.calls[a.c].id)
    ensures ServingInv(cfg, Apply(cfg, s, a), s.calls[a.c].id)
  {
    assert CallInv(cfg, s, s.calls[a.c]);
  }

  lemma SaveKeeps(cfg: Config, s: Sup, a: Action)
    requires Enabled(cfg, s, a) && a.Save?
    requires ServingInv(cfg, s, s.calls[a.c].id) && Sole(s, a.c, s.calls[a.c].id)
    ensures ServingInv(cfg, Apply(cfg, s, a), s.calls[a.c].id)
  {
    assert CallInv(cfg, s, s.calls[a.c]);
  }

  lemma TerminateKeeps(cfg: Config, s: Sup, a: Action)
    requires Enabled(cfg, s, a) && a.Terminate? && (!cfg.jailer ==> s.host.chroots == {})
    requires ServingInv(cfg, s, a.id) && Sole(Apply(cfg, s, a), a.c, a.id)
    ensures ServingInv(cfg, Apply(cfg, s, a), a.id)
  {
    var t := Apply(cfg, s, a);
    var undo := Teardown(cfg, s.inst[a.id]);
    assert undo[0] == StopVm(s.inst[a.id].pid) && undo[2] == RemoveLeaf && undo[3] == RemoveDir;
    if cfg.jailer {
      assert undo[4] == RemoveChroot;
    }
    assert CallInv(cfg, t, t.calls[a.c]);
  }

  /** The last step of a rollback or teardown leaves the id idle and clean. */
  lemma LastUnwindKeeps(cfg: Config, s: Sup, c: nat, applied: bool)
    requires c in s.calls && s.calls[c].Unwinding? && |s.calls[c].undo| == 1 && s.saved !! s.exposed
    requires ServingInv(cfg, s, s.calls[c].id) && Sole(s, c, s.calls[c].id)
    ensures ServingInv(cfg, ApplyUnwind(s, c, applied), s.calls[c].id)
  {
    var call, t := s.calls[c], ApplyUnwind(s, c, applied);
    assert CallInv(cfg, s, call);
    assert call.undo == [call.undo[0]] && (!call.rollback ==> call.undo == [Forget]);
    assert forall d :: d in t.calls ==> d in s.calls && t.calls[d] == s.calls[d] && d != c;
    assert Idle(t, call.id);
  }

  lemma NextUnwindKeeps(cfg: Config, s: Sup, c: nat, applied: bool)
    requires c in s.calls && s.calls[c].Unwinding? && |s.calls[c].undo| > 1
    requires ServingInv(cfg, s, s.calls[c].id) && Sole(s, c, s.calls[c].id)
    ensures ServingInv(cfg, ApplyUnwind(s, c, applied), s.calls[c].id)
  {
    var call, t := s.calls[c], ApplyUnwind(s, c, applied);
    assert CallInv(cfg, s, call);
    var rest := call.undo[1..];
    assert forall u :: u in call.undo && u != call.undo[0] ==> u in rest;
    assert rest[|rest| - 1] == call.undo[|call.undo| - 1];
    assert t.calls[c] == call.(undo := rest);
    assert CallInv(cfg, t, t.calls[c]);
    assert forall d :: d in t.calls && t.calls[d].id == call.id ==> d == c;
  }

  lemma UnwindKeeps(cfg: Config, s: Sup, a: Action)
    requires Enabled(cfg, s, a) && a.Unwind? && s.saved !! s.exposed
    requires ServingInv(cfg, s, s.calls[a.c].id) && Sole(s, a.c, s.calls[a.c].id)
    ensures ServingInv(cfg, Apply(cfg, s, a), s.calls[a.c].id)
  {
    if |s.calls[a.c].undo| == 1 {
      LastUnwindKeeps(cfg, s, a.c, a.applied);
    } else {
      NextUnwindKeeps(cfg, s, a.c, a.applied);
    }
  }

  lemma SoleWhenNoTwins(s: Sup, c: nat)
    requires NoTwins(s) && c in s.calls
    ensures Sole(s, c, s.calls[c].id)
  {
  }

  lemma CallStepKeeps(cfg: Config, s: Sup, a: Action, id: Id)
    requires Inv(cfg, s) && Enabled(cfg, s, a) && NoTwins(s) && NoTwins(Apply(cfg, s, a))
    requires Target(s, a).Some?
    ensures IdInv(cfg, Apply(cfg, s, a), id)
  {
    assert s.mode.Serving?;
    assert IdInv(cfg, s, id);
    if Target(s, a) != Some(id) {
      OthersSame(cfg, s, a, id);
      Frame(cfg, s, Apply(cfg, s, a), id);
    } else {
      if a.Admit? || a.Terminate? {
        SoleWhenNoTwins(Apply(cfg, s, a), a.c);
      } else {
        SoleWhenNoTwins(s, a.c);
      }
      match a
      case Admit(_, _, _, _) => AdmitKeeps(cfg, s, a);
      case Allocate(_) => AllocateKeeps(cfg, s, a);
      case Do(_, _) => DoKeeps(cfg, s, a);
      case Fail(_, _, _) => FailKeeps(cfg, s, a);
      case Insert(_) => InsertKeeps(cfg, s, a);
      case Save(_, _) => SaveKeeps(cfg, s, a);
      case Terminate(_, _) => TerminateKeeps(cfg, s, a);
      case Unwind(_, _) => UnwindKeeps(cfg, s, a);
    }
  }

  // ---- death, crash and reconciliation ----

  /** The second host has lost some resources. */
  ghost predicate Shrunk(h: Host, g: Host) {
    g.dirs <= h.dirs && g.leaves <= h.leaves && g.chroots <= h.chroots && g.vmms <= h.vmms
  }

  lemma ShrinkKeeps(cfg: Config, s: Sup, g: Host, id: Id)
    requires IdInv(cfg, s, id) && Shrunk(s.host, g)
    ensures IdInv(cfg, s.(host := g), id)
  {
    var t := s.(host := g);
    assert Live(t) <= Live(s);
    if s.mode.Serving? {
      forall c | c in t.calls && t.calls[c].id == id ensures CallInv(cfg, t, t.calls[c]) {
        assert CallInv(cfg, s, s.calls[c]);
      }
    }
  }

  /** At a crash, whatever is saved is named by its record. */
  lemma SavedIsNamed(cfg: Config, s: Sup, id: Id)
    requires Inv(cfg, s) && id in s.saved && Keeps(s.host, id)
    ensures Named(s, id)
  {
    assert IdInv(cfg, s, id);
    if s.mode.Serving? && id !in s.inst {
      var c :| c in s.calls && s.calls[c].id == id;
      assert CallInv(cfg, s, s.calls[c]);
    }
  }

  lemma CrashKeeps(cfg: Config, s: Sup, id: Id)
    requires Inv(cfg, s)
    ensures IdInv(cfg, Apply(cfg, s, Crash), id)
  {
    if Keeps(s.host, id) && id in s.saved {
      SavedIsNamed(cfg, s, id);
    }
  }

  lemma BeginKeeps(cfg: Config, s: Sup, a: Action, id: Id)
    requires IdInv(cfg, s, id) && Enabled(cfg, s, a) && a.BeginRecovery?
    ensures IdInv(cfg, Apply(cfg, s, a), id)
  {
    var t := Apply(cfg, s, a);
    var p := t.mode.sweeps;
    if Keeps(s.host, id) && id !in s.exposed {
      var block := SweepsOf(id, s.records[id]);
      assert block[1] == SweepLeaf(id) && block[|block| - 2] == SweepDir(id);
      if s.records[id].chroot {
        assert block[2] == SweepChroot(id);
      }
      forall w | w in block ensures w in p {
        ProgramContains(a.order, s.records, id, w);
      }
    }
  }

  lemma SweepKeeps(cfg: Config, s: Sup, a: Action, id: Id)
    requires IdInv(cfg, s, id) && Enabled(cfg, s, a) && a.SweepOne? && RecordsLast(s.mode.sweeps)
    ensures IdInv(cfg, Apply(cfg, s, a), id)
  {
    var t := Apply(cfg, s, a);
    var sweeps, rest := s.mode.sweeps, s.mode.sweeps[1..];
    assert forall x :: x in sweeps && x != sweeps[0] ==> x in rest;
    assert sweeps[0] == SweepRecord(id) ==> forall x :: x in rest ==> x.id != id;
  }

  lemma StepKeepsId(cfg: Config, s: Sup, a: Action, id: Id)
    requires Inv(cfg, s) && Enabled(cfg, s, a) && NoTwins(s) && NoTwins(Apply(cfg, s, a))
    ensures IdInv(cfg, Apply(cfg, s, a), id)
  {
    assert IdInv(cfg, s, id);
    match a
    case VmDies(_) => ShrinkKeeps(cfg, s, Apply(cfg, s, a).host, id);
    case Crash => CrashKeeps(cfg, s, id);
    case BeginRecovery(_) => BeginKeeps(cfg, s, a, id);
    case SweepOne(_) => SweepKeeps(cfg, s, a, id);
    case EndRecovery => EndKeeps(cfg, s, id);
    case _ => CallStepKeeps(cfg, s, a, id);
  }

  lemma EndKeeps(cfg: Config, s: Sup, id: Id)
    requires Inv(cfg, s) && s.mode == Recovering([])
    ensures IdInv(cfg, Apply(cfg, s, EndRecovery), id)
  {
    AllOrphans(cfg, s);
    assert IdInv(cfg, s, id);
  }

  lemma StepKeepsInv(cfg: Config, s: Sup, a: Action)
    requires Inv(cfg, s) && Enabled(cfg, s, a) && NoTwins(s) && NoTwins(Apply(cfg, s, a))
    ensures Inv(cfg, Apply(cfg, s, a))
  {
    StepKeepsCore(cfg, s, a);
    StepKeepsApart(cfg, s, a);
    forall id ensures IdInv(cfg, Apply(cfg, s, a), id) {
      StepKeepsId(cfg, s, a, id);
    }
  }

  lemma StepKeepsApart(cfg: Config, s: Sup, a: Action)
    requires s.saved !! s.exposed && Enabled(cfg, s, a)
    ensures Apply(cfg, s, a).saved !! Apply(cfg, s, a).exposed
  {
  }

  lemma {:induction false} RunKeepsInv(cfg: Config, s: Sup, actions: seq<Action>)
    requires Inv(cfg, s) && RunOk(cfg, s, actions)
    requires forall i :: 0 <= i <= |actions| ==> NoTwins(Run(cfg, s, actions)[i])
    ensures forall i :: 0 <= i <= |actions| ==> Inv(cfg, Run(cfg, s, actions)[i])
    decreases |actions|
  {
    if actions != [] {
      var t := Apply(cfg, s, actions[0]);
      var run, rest := Run(cfg, s, actions), Run(cfg, t, actions[1..]);
      assert run[0] == s && run[1] == rest[0] == t;
      StepKeepsInv(cfg, s, actions[0]);
      forall i | 0 <= i <= |actions[1..]| ensures NoTwins(rest[i]) {
        assert run[i + 1] == rest[i];
      }
      RunKeepsInv(cfg, t, actions[1..]);
    }
  }

  // ---- main results ----

  lemma InvAt(cfg: Config, s: Sup, actions: seq<Action>, i: nat)
    requires Init(cfg, s) && RunOk(cfg, s, actions) && i <= |actions|
    requires forall i :: 0 <= i <= |actions| ==> NoTwins(Run(cfg, s, actions)[i])
    ensures Inv(cfg, Run(cfg, s, actions)[i])
  {
    assert Inv(cfg, s);
    RunKeepsInv(cfg, s, actions);
  }

  /** Between a crash and the end of the reconciliation after it nothing is made and nothing saved. */
  ghost predicate DownLink(u: Sup, a: Action, t: Sup) {
    !t.mode.Serving? ==>
      if a.Crash? then t.exposed == Keepers(u.host) - u.saved && t.host == u.host
      else !u.mode.Serving? && t.exposed == u.exposed && Shrunk(u.host, t.host)
  }

  lemma DownStep(cfg: Config, u: Sup, a: Action)
    requires ModeInv(cfg, u) && Enabled(cfg, u, a)
    ensures DownLink(u, a, Apply(cfg, u, a))
  {
  }

  lemma {:induction false} SinceCrash(run: seq<Sup>, actions: seq<Action>, c: nat, j: nat)
    requires |run| == |actions| + 1 && c < j <= |actions| && actions[c].Crash? && !run[j].mode.Serving?
    requires forall i :: c < i < j ==> !actions[i].Crash?
    requires forall k :: 0 <= k < |actions| ==> DownLink(run[k], actions[k], run[k + 1])
    ensures run[j].exposed == Keepers(run[c].host) - run[c].saved && Shrunk(run[c].host, run[j].host)
    decreases j
  {
    assert DownLink(run[j - 1], actions[j - 1], run[j - 1 + 1]);
    if j > c + 1 {
      SinceCrash(run, actions, c, j - 1);
    }
  }

  lemma DownLinks(cfg: Config, s: Sup, actions: seq<Action>)
    requires Init(cfg, s) && RunOk(cfg, s, actions)
    ensures var run := Run(cfg, s, actions); forall k :: 0 <= k < |actions| ==> DownLink(run[k], actions[k], run[k + 1])
  {
    RunKeepsCore(cfg, s, actions);
    var run := Run(cfg, s, actions);
    forall k | 0 <= k < |actions| ensures DownLink(run[k], actions[k], run[k + 1]) {
      StepAt(cfg, s, actions, k);
      assert CoreInv(cfg, run[k]);
      DownStep(cfg, run[k], actions[k]);
    }
  }

  lemma SweptClean(cfg: Config, u: Sup, id: Id)
    requires Inv(cfg, u) && u.mode == Recovering([])
    ensures Keeps(u.host, id) ==> id in u.exposed
  {
    assert IdInv(cfg, u, id);
  }

  lemma EndStep(cfg: Config, u: Sup)
    requires Enabled(cfg, u, EndRecovery)
    ensures u.mode == Recovering([]) && Apply(cfg, u, EndRecovery) == u.(mode := Serving)
  {
  }

  /** The state before the end of a reconciliation, and after it. */
  lemma RecoveryState(cfg: Config, s: Sup, actions: seq<Action>)
    requires Init(cfg, s) && RunOk(cfg, s, actions) && actions != [] && actions[|actions| - 1].EndRecovery?
    requires forall i :: 0 <= i <= |actions| ==> NoTwins(Run(cfg, s, actions)[i])
    ensures var run := Run(cfg, s, actions);
            var u := run[|actions| - 1];
            Inv(cfg, u) && u.mode == Recovering([]) && Last(run) == u.(mode := Serving)
  {
    var n := |actions| - 1;
    InvAt(cfg, s, actions, n);
    StepAt(cfg, s, actions, n);
    EndStep(cfg, Run(cfg, s, actions)[n]);
  }

  /** Whenever reconciliation completes, in a run with any number of crashes (also during
      reconciliation), the only ids that still own a state directory, a cgroup leaf or a chroot
      are ones that owned it, without a completed Save, at the latest crash. */
  lemma RecoveryReclaimsSaved(cfg: Config, s: Sup, actions: seq<Action>, c: nat, id: Id)
    requires Init(cfg, s) && RunOk(cfg, s, actions) && actions != [] && actions[|actions| - 1].EndRecovery?
    requires forall i :: 0 <= i <= |actions| ==> NoTwins(Run(cfg, s, actions)[i])
    requires c < |actions| && actions[c].Crash? && forall i :: c < i < |actions| ==> !actions[i].Crash?
    ensures var run := Run(cfg, s, actions);
            Keeps(Last(run).host, id) ==> Keeps(run[c].host, id) && id !in run[c].saved
  {
    var run := Run(cfg, s, actions);
    RecoveryState(cfg, s, actions);
    SweptClean(cfg, run[|actions| - 1], id);
    DownLinks(cfg, s, actions);
    SinceCrash(run, actions, c, |actions| - 1);
  }

  /** A VMM of a saved id, orphans apart, is the one its record names. */
  lemma SavedIsRecorded(cfg: Config, s: Sup, v: Vmm)
    requires Inv(cfg, s) && v in Live(s) && v.id in s.saved
    ensures Recorded(s.records, v)
  {
    if s.mode.Serving? {
      assert IdInv(cfg, s, v.id);
      if v.id !in s.inst {
        assert !Idle(s, v.id);
        var c :| c in s.calls && s.calls[c].id == v.id;
        assert CallInv(cfg, s, s.calls[c]);
      }
    } else {
      assert Answered(s, v);
    }
  }

  /** And every VMM that is still live then has outlived a crash, the latest or an earlier one, at
      which its id had no completed Save and no record named it. */
  lemma SurvivorsWereUnsaved(cfg: Config, s: Sup, actions: seq<Action>, v: Vmm) returns (i: int)
    requires Init(cfg, s) && RunOk(cfg, s, actions) && actions != [] && actions[|actions| - 1].EndRecovery?
    requires forall i :: 0 <= i <= |actions| ==> NoTwins(Run(cfg, s, actions)[i])
    requires v in Last(Run(cfg, s, actions)).host.vmms
    ensures OutlivesCrash(Run(cfg, s, actions), actions, i, |actions|, v) && v.id !in Run(cfg, s, actions)[i].saved
  {
    RecoveryState(cfg, s, actions);
    AllOrphans(cfg, Run(cfg, s, actions)[|actions| - 1]);
    i := OrphanSince(cfg, s, actions, |actions|, v);
    InvAt(cfg, s, actions, i);
    if v.id in Run(cfg, s, actions)[i].saved {
      SavedIsRecorded(cfg, Run(cfg, s, actions)[i], v);
    }
  }

  /** While serving, an id with no call in flight and no tracked instance owns no VMM but orphans of
      a crash, no chroot unless the latest crash exposed one, and if it is saved nothing else. */
  lemma IdleIdsAreClean(cfg: Config, s: Sup, actions: seq<Action>, i: nat, id: Id)
    requires Init(cfg, s) && RunOk(cfg, s, actions) && i <= |actions|
    requires forall i :: 0 <= i <= |actions| ==> NoTwins(Run(cfg, s, actions)[i])
    requires var t := Run(cfg, s, actions)[i]; t.mode.Serving? && Idle(t, id)
    ensures var t := Run(cfg, s, actions)[i];
            NoVm(t, id) && (id in t.host.chroots ==> id in t.exposed) && (id in t.saved ==> !Keeps(t.host, id))
  {
    InvAt(cfg, s, actions, i);
    assert IdInv(cfg, Run(cfg, s, actions)[i], id);
  }
}
