/** What a sandbox has while it is up: directory, cgroup leaf and chroot of every tracked instance, and
    of every live VMM, so that no VMM runs uncapped.

    All results are about runs in which calls on one sandbox id do not overlap. */
module SupervisorResources {
  import opened Wrappers
  import opened CidAllocator
  import opened SupervisorModel
  import opened SupervisorCids
  import opened SupervisorRollback
  import opened SupervisorVms
  import opened SupervisorRecovery

  /** Directory, leaf and, in jailer mode, chroot. */
  predicate Equipped(cfg: Config, h: Host, id: Id) {
    id in h.dirs && id in h.leaves && (cfg.jailer ==> id in h.chroots)
  }

  /** A boot has what it has made; what is to be torn down is whole until its VMM is stopped. */
  ghost predicate CallHas(cfg: Config, h: Host, call: Call) {
    match call
    case Booting(_, id, _, _, ops, _) =>
      && (MakeDir !in ops ==> id in h.dirs) && (MakeLeaf !in ops ==> id in h.leaves)
      && (StartVm !in ops && cfg.jailer ==> id in h.chroots)
    case Unwinding(id, _, _, undo) =>
      && (undo != [] && undo[0].StopVm? ==> Equipped(cfg, h, id))
      && (forall i :: 0 < i < |undo| ==> !undo[i].StopVm?)
    case _ => true
  }

  ghost predicate HasInv(cfg: Config, s: Sup, id: Id) {
    && (id in s.inst ==> Equipped(cfg, s.host, id))
    && (forall c :: c in s.calls && s.calls[c].id == id ==> CallHas(cfg, s.host, s.calls[c]))
  }

  lemma BootSuffix(kind: Kind, ops: seq<Op>, pid: Option<nat>)
    requires BootShape(kind, ops, pid)
    ensures pid.Some? ==> MakeDir !in ops && MakeLeaf !in ops && StartVm !in ops
    ensures ops != [] && ops[0] == StartVm ==> MakeDir !in ops && MakeLeaf !in ops
  {
    var k := |Program(kind)| - |ops|;
    forall i | 0 <= i < |ops| ensures ops[i] == Program(kind)[k + i] && (k + i > 2 ==> !ops[i].MakeDir? && !ops[i].MakeLeaf?)
                                      && (k + i > 4 ==> !ops[i].StartVm?) {
      PlaceInProgram(kind, k + i);
    }
    if ops != [] {
      PlaceInProgram(kind, k);
    }
  }

  /** The directory and the leaf are made before the VMM is started. */
  lemma PlaceInProgram(kind: Kind, i: nat)
    requires i < |Program(kind)|
    ensures Program(kind)[i].MakeDir? || Program(kind)[i].MakeLeaf? ==> i <= 2
    ensures Program(kind)[i].StartVm? ==> i == 4
  {
  }

  lemma FrameHas(cfg: Config, s: Sup, t: Sup, id: Id)
    requires SameHost(s, t, id) && SameCalls(s, t, id) && SameTables(s, t, id) && HasInv(cfg, s, id)
    ensures HasInv(cfg, t, id)
  {
  }

  lemma FreshHas(cfg: Config, h: Host, kind: Kind, id: Id, mem: int, cid: Cid)
    ensures CallHas(cfg, h, Booting(kind, id, mem, cid, Program(kind), None))
  {
    var p := Program(kind);
    assert p[0] == MakeDir && p[4] == StartVm && (p[1] == MakeLeaf || p[2] == MakeLeaf);
  }

  lemma DoHas(cfg: Config, s: Sup, c: nat, pid: nat)
    requires c in s.calls && s.calls[c].Booting? && s.calls[c].ops != [] && CallHas(cfg, s.host, s.calls[c])
    ensures var t := ApplyDo(cfg, s, c, pid); CallHas(cfg, t.host, t.calls[c])
  {
    var ops := s.calls[c].ops;
    assert forall x :: x in ops <==> x == ops[0] || x in ops[1..];
  }

  lemma FailHas(cfg: Config, s: Sup, c: nat, partial: bool, pid: nat)
    requires c in s.calls && s.calls[c].Booting? && s.calls[c].ops != [] && CallHas(cfg, s.host, s.calls[c])
    requires BootShape(s.calls[c].kind, s.calls[c].ops, s.calls[c].pid)
    ensures var t := ApplyFail(cfg, s, c, partial, pid); CallHas(cfg, t.host, t.calls[c])
  {
    var call := s.calls[c];
    BootSuffix(call.kind, call.ops, call.pid);
    BootStep(call.kind, call.ops, call.pid, pid);
    var started := if call.ops[0].StartVm? && partial then Some(pid) else call.pid;
    StopsOnlyFirst(cfg, call.ops[0], call.cid, started);
  }

  lemma StopsOnlyFirst(cfg: Config, op: Op, cid: Cid, started: Option<nat>)
    ensures var u := OnFailure(cfg, op, cid, started);
            && (forall i :: 0 < i < |u| ==> !u[i].StopVm?)
            && (u != [] && u[0].StopVm? ==> started.Some? && !BeforeCleanup(op))
  {
  }

  lemma UnwindHas(cfg: Config, s: Sup, c: nat, applied: bool)
    requires c in s.calls && s.calls[c].Unwinding? && s.calls[c].undo != [] && CallHas(cfg, s.host, s.calls[c])
    ensures var t := ApplyUnwind(s, c, applied); c in t.calls ==> CallHas(cfg, t.host, t.calls[c])
  {
  }

  /** A step on its own id. */
  lemma OwnStepHas(cfg: Config, s: Sup, a: Action, id: Id)
    requires Inv(cfg, s) && s.mode.Serving? && HasInv(cfg, s, id) && Enabled(cfg, s, a) && Target(s, a) == Some(id)
    requires NoTwins(s) && NoTwins(Apply(cfg, s, a))
    ensures HasInv(cfg, Apply(cfg, s, a), id)
  {
    var t := Apply(cfg, s, a);
    assert IdInv(cfg, s, id);
    if a.c in s.calls {
      SoleWhenNoTwins(s, a.c);
      assert CallInv(cfg, s, s.calls[a.c]);
      OwnCallHas(cfg, s, a, id);
    } else {
      SoleWhenNoTwins(t, a.c);
    }
  }

  /** If only the call itself and the resources of its id have changed, only they need be looked at. */
  lemma OwnCallOnly(cfg: Config, s: Sup, t: Sup, c: nat, id: Id)
    requires HasInv(cfg, s, id) && Sole(s, c, id) && t.calls - {c} == s.calls - {c}
    requires (id in t.inst ==> Equipped(cfg, t.host, id)) && (c in t.calls ==> CallHas(cfg, t.host, t.calls[c]))
    ensures HasInv(cfg, t, id)
  {
    assert forall d :: d in t.calls && d != c ==> d in t.calls - {c} && (t.calls - {c})[d] == t.calls[d];
    assert forall d :: d in s.calls - {c} ==> d in s.calls && (s.calls - {c})[d] == s.calls[d];
  }

  lemma StepOfCall(cfg: Config, s: Sup, a: Action, id: Id)
    requires Enabled(cfg, s, a) && Target(s, a) == Some(id) && a.c in s.calls
    ensures Apply(cfg, s, a).calls - {a.c} == s.calls - {a.c}
    ensures id in Apply(cfg, s, a).inst ==> id in s.inst || a.Insert?
  {
  }

  lemma OwnCallHas(cfg: Config, s: Sup, a: Action, id: Id)
    requires s.mode.Serving? && HasInv(cfg, s, id) && Enabled(cfg, s, a) && Target(s, a) == Some(id) && a.c in s.calls
    requires Sole(s, a.c, id) && CallInv(cfg, s, s.calls[a.c]) && s.calls[a.c].id == id
    ensures HasInv(cfg, Apply(cfg, s, a), id)
  {
    assert CallHas(cfg, s.host, s.calls[a.c]);
    StepOfCall(cfg, s, a, id);
    CallStepHas(cfg, s, a, id);
    OwnCallOnly(cfg, s, Apply(cfg, s, a), a.c, id);
  }

  lemma CallStepHas(cfg: Config, s: Sup, a: Action, id: Id)
    requires HasInv(cfg, s, id) && Enabled(cfg, s, a) && Target(s, a) == Some(id) && a.c in s.calls
    requires CallInv(cfg, s, s.calls[a.c]) && s.calls[a.c].id == id && CallHas(cfg, s.host, s.calls[a.c])
    ensures var t := Apply(cfg, s, a);
            (id in t.inst ==> Equipped(cfg, t.host, id)) && (a.c in t.calls ==> CallHas(cfg, t.host, t.calls[a.c]))
  {
    match a
    case Allocate(c) => AllocateHas(cfg, s, c);
    case Do(c, pid) => DoHas(cfg, s, c, pid);
    case Fail(c, partial, pid) => FailHas(cfg, s, c, partial, pid);
    case Unwind(c, applied) => UnwindHas(cfg, s, c, applied);
    case Insert(_) =>
    case Save(_, _) =>
  }

  lemma AllocateHas(cfg: Config, s: Sup, c: nat)
    requires Enabled(cfg, s, Allocate(c))
    ensures var t := Apply(cfg, s, Allocate(c));
            && t.host == s.host && t.inst == s.inst
            && (c in t.calls ==> CallHas(cfg, t.host, t.calls[c]))
  {
    var t := Apply(cfg, s, Allocate(c));
    if c in t.calls {
      AllocatedBoot(cfg, s, c);
      FreshHas(cfg, t.host, t.calls[c].kind, t.calls[c].id, t.calls[c].mem, t.calls[c].cid);
    }
  }

  ghost predicate ResInv(cfg: Config, s: Sup) {
    Inv(cfg, s) && BootsUntracked(s) && (s.mode.Serving? ==> forall id :: HasInv(cfg, s, id))
  }

  lemma StepKeepsHas(cfg: Config, s: Sup, a: Action, id: Id)
    requires ResInv(cfg, s) && Enabled(cfg, s, a) && NoTwins(s) && NoTwins(Apply(cfg, s, a)) && Apply(cfg, s, a).mode.Serving?
    ensures HasInv(cfg, Apply(cfg, s, a), id)
  {
    var t := Apply(cfg, s, a);
    if s.mode.Serving? {
      assert HasInv(cfg, s, id);
      if Target(s, a) == Some(id) {
        OwnStepHas(cfg, s, a, id);
      } else if Target(s, a).Some? {
        OthersSame(cfg, s, a, id);
        FrameHas(cfg, s, t, id);
      } else {
        assert a.VmDies?;
      }
    }
  }

  lemma StepKeepsRes(cfg: Config, s: Sup, a: Action)
    requires ResInv(cfg, s) && Enabled(cfg, s, a) && NoTwins(s) && NoTwins(Apply(cfg, s, a))
    ensures ResInv(cfg, Apply(cfg, s, a))
  {
    StepKeepsInv(cfg, s, a);
    StepKeepsUntracked(cfg, s, a);
    if Apply(cfg, s, a).mode.Serving? {
      forall id ensures HasInv(cfg, Apply(cfg, s, a), id) {
        StepKeepsHas(cfg, s, a, id);
      }
    }
  }

  lemma {:induction false} RunKeepsRes(cfg: Config, s: Sup, actions: seq<Action>, i: nat)
    requires Init(cfg, s) && RunOk(cfg, s, actions) && i <= |actions|
    requires forall i :: 0 <= i <= |actions| ==> NoTwins(Run(cfg, s, actions)[i])
    ensures ResInv(cfg, Run(cfg, s, actions)[i])
    decreases i
  {
    if i == 0 {
      assert Inv(cfg, s);
    } else {
      RunKeepsRes(cfg, s, actions, i - 1);
      StepAt(cfg, s, actions, i - 1);
      assert NoTwins(Run(cfg, s, actions)[i - 1]) && NoTwins(Run(cfg, s, actions)[i]);
      StepKeepsRes(cfg, Run(cfg, s, actions)[i - 1], actions[i - 1]);
    }
  }

  /** In every run: each instance tracked by a serving supervisor has its state directory, its cgroup
      leaf and, in jailer mode, its chroot. */
  lemma TrackedIsEquipped(cfg: Config, s: Sup, actions: seq<Action>, i: nat, id: Id)
    requires Init(cfg, s) && RunOk(cfg, s, actions) && i <= |actions|
    requires forall i :: 0 <= i <= |actions| ==> NoTwins(Run(cfg, s, actions)[i])
    requires var t := Run(cfg, s, actions)[i]; t.mode.Serving? && id in t.inst
    ensures var h := Run(cfg, s, actions)[i].host;
            id in h.dirs && id in h.leaves && (cfg.jailer ==> id in h.chroots)
  {
    RunKeepsRes(cfg, s, actions, i);
    assert HasInv(cfg, Run(cfg, s, actions)[i], id);
  }

  /** In every run: a VMM that is live while the supervisor serves, orphans of a crash apart, has its
      cgroup leaf (and directory and chroot), during its boot, its life and its teardown. */
  lemma NoVmmUncapped(cfg: Config, s: Sup, actions: seq<Action>, i: nat, v: Vmm)
    requires Init(cfg, s) && RunOk(cfg, s, actions) && i <= |actions|
    requires forall i :: 0 <= i <= |actions| ==> NoTwins(Run(cfg, s, actions)[i])
    requires var t := Run(cfg, s, actions)[i]; t.mode.Serving? && v in t.host.vmms && v !in t.orphans
    ensures var h := Run(cfg, s, actions)[i].host;
            v.id in h.leaves && v.id in h.dirs && (cfg.jailer ==> v.id in h.chroots)
  {
    var t := Run(cfg, s, actions)[i];
    RunKeepsRes(cfg, s, actions, i);
    HeldIsEquipped(cfg, t, v);
  }

  lemma HeldIsEquipped(cfg: Config, t: Sup, v: Vmm)
    requires ResInv(cfg, t) && t.mode.Serving? && v in Live(t)
    ensures Equipped(cfg, t.host, v.id)
  {
    assert Answered(t, v) && HasInv(cfg, t, v.id);
    var h :| HoldsVm(t, h, v);
    if h.ByCall? {
      var call := t.calls[h.c];
      assert CallHas(cfg, t.host, call);
      if call.Booting? {
        assert BootInv(call);
        BootSuffix(call.kind, call.ops, call.pid);
      }
    }
  }
}
