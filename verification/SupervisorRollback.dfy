/** Exact rollback: what a boot that fails at any operation leaves on the host. */
module SupervisorRollback {
  import opened Wrappers
  import opened CidAllocator
  import opened SupervisorModel

  /** Host after a list of successful operations. */
  function Effects(cfg: Config, h: Host, ops: seq<Op>, vm: Vmm): Host
    decreases |ops|
  {
    if ops == [] then h else Effect(cfg, Effects(cfg, h, ops[..|ops| - 1], vm), ops[|ops| - 1], vm)
  }

  /** Host after a list of undo operations. */
  function UndoAll(h: Host, undo: seq<Undo>, id: Id): Host
    decreases |undo|
  {
    if undo == [] then h else UndoAll(UndoEffect(h, undo[0], id), undo[1..], id)
  }

  /** The cleanup closure exists once the cgroup leaf is prepared. */
  predicate BeforeCleanup(op: Op) {
    op.MakeDir? || op.CopyDisk? || op.MakeLeaf?
  }

  /** Host right after operation `k` of the program fails. */
  function AtFailure(cfg: Config, kind: Kind, h: Host, vm: Vmm, k: nat, partial: bool): Host
    requires k < |Program(kind)|
  {
    var before := Effects(cfg, h, Program(kind)[..k], vm);
    if partial then Effect(cfg, before, Program(kind)[k], vm) else before
  }

  /** The pid the failing call knows. */
  function KnownPid(kind: Kind, k: nat, partial: bool, pid: nat): Option<nat>
    requires k < |Program(kind)|
  {
    if StartVm in Program(kind)[..k] || (partial && Program(kind)[k].StartVm?) then Some(pid) else None
  }

  /** Host once the failing exit has unwound. */
  function AfterFailure(cfg: Config, kind: Kind, h: Host, vm: Vmm, k: nat, partial: bool): Host
    requires k < |Program(kind)|
  {
    UndoAll(AtFailure(cfg, kind, h, vm, k, partial),
            OnFailure(cfg, Program(kind)[k], vm.cid, KnownPid(kind, k, partial, vm.pid)), vm.id)
  }

  predicate SameElsewhere(h: Host, g: Host, id: Id) {
    h.dirs - {id} == g.dirs - {id} && h.leaves - {id} == g.leaves - {id} && h.chroots - {id} == g.chroots - {id}
  }

  lemma {:induction false} EffectsElsewhere(cfg: Config, h: Host, ops: seq<Op>, vm: Vmm)
    ensures var g, id := Effects(cfg, h, ops, vm), vm.id;
            && SameElsewhere(h, g, id)
            && g.vmms == (if StartVm in ops then h.vmms + {vm} else h.vmms)
            && (id in g.dirs <==> id in h.dirs || MakeDir in ops)
            && (id in g.leaves <==> id in h.leaves || MakeLeaf in ops)
            && (id in g.chroots <==> id in h.chroots || (cfg.jailer && StartVm in ops))
    decreases |ops|
  {
    if ops != [] {
      var pre, op := ops[..|ops| - 1], ops[|ops| - 1];
      EffectsElsewhere(cfg, h, pre, vm);
      assert ops == pre + [op];
    }
  }

  /** What a complete boot adds to the host: directory, cgroup leaf, in jailer mode the chroot, and the VMM. */
  lemma BootedHost(cfg: Config, kind: Kind, h: Host, vm: Vmm)
    ensures Effects(cfg, h, Program(kind), vm)
         == Host(h.dirs + {vm.id}, h.leaves + {vm.id}, if cfg.jailer then h.chroots + {vm.id} else h.chroots, h.vmms + {vm})
  {
    var p, g := Program(kind), Effects(cfg, h, Program(kind), vm);
    EffectsElsewhere(cfg, h, p, vm);
    assert p[0] == MakeDir && p[4] == StartVm && MakeLeaf in p by {
      assert p[1] == MakeLeaf || p[2] == MakeLeaf;
    }
    SameButOne(h.dirs + {vm.id}, g.dirs, vm.id);
    SameButOne(h.leaves + {vm.id}, g.leaves, vm.id);
    SameButOne(if cfg.jailer then h.chroots + {vm.id} else h.chroots, g.chroots, vm.id);
  }

  lemma {:induction false} UndoElsewhere(h: Host, undo: seq<Undo>, id: Id)
    ensures var g := UndoAll(h, undo, id);
            && SameElsewhere(h, g, id)
            && (id in g.dirs <==> id in h.dirs && RemoveDir !in undo)
            && (id in g.leaves <==> id in h.leaves && RemoveLeaf !in undo)
            && (id in g.chroots <==> id in h.chroots && RemoveChroot !in undo)
            && (forall v :: v in g.vmms <==> v in h.vmms && !(v.id == id && StopVm(v.pid) in undo))
    decreases |undo|
  {
    if undo != [] {
      UndoElsewhere(UndoEffect(h, undo[0], id), undo[1..], id);
      assert undo == [undo[0]] + undo[1..];
    }
  }

  /** What a failing exit leaves behind for `id`, exactly; other ids and all VMMs are as before.
      The state directory stays if and only if preparing it is what failed, the leaf if and only if
      the failure precedes the cleanup closure; each in turn if it was there or had been made. */
  ghost predicate RolledBack(cfg: Config, h: Host, g: Host, id: Id, op: Op, partial: bool) {
    && SameElsewhere(h, g, id) && g.vmms == h.vmms
    && (id in g.dirs <==> op.MakeDir? && (id in h.dirs || partial))
    && (id in g.leaves <==> BeforeCleanup(op) && (id in h.leaves || (op.MakeLeaf? && partial)))
    && (id in g.chroots <==> id in h.chroots && (BeforeCleanup(op) || !cfg.jailer))
  }

  /** Every failing exit of Launch and LoadSnapshot, at every operation, with or without a
      partial effect. */
  lemma RollbackExact(cfg: Config, kind: Kind, h: Host, vm: Vmm, k: nat, partial: bool)
    requires k < |Program(kind)| && (partial ==> MayBePartial(kind, Program(kind)[k]))
    requires PidFree(h, vm.pid)
    ensures RolledBack(cfg, h, AfterFailure(cfg, kind, h, vm, k, partial), vm.id, Program(kind)[k], partial)
  {
    var p, op := Program(kind), Program(kind)[k];
    var undo := OnFailure(cfg, op, vm.cid, KnownPid(kind, k, partial, vm.pid));
    EffectsElsewhere(cfg, h, p[..k], vm);
    UndoElsewhere(AtFailure(cfg, kind, h, vm, k, partial), undo, vm.id);
    EarlyOps(kind, k);
    WhatIsUndone(cfg, op, vm.cid, KnownPid(kind, k, partial, vm.pid));
    assert forall v :: v in AfterFailure(cfg, kind, h, vm, k, partial).vmms <==> v in h.vmms;
  }

  /** Which of its own resources a failing exit removes. */
  lemma WhatIsUndone(cfg: Config, op: Op, cid: Cid, known: Option<nat>)
    ensures var u := OnFailure(cfg, op, cid, known);
            && (RemoveDir in u <==> !op.MakeDir?) && (RemoveLeaf in u <==> !BeforeCleanup(op))
            && (RemoveChroot in u <==> !BeforeCleanup(op) && cfg.jailer)
            && (forall pid: nat :: StopVm(pid) in u <==> !BeforeCleanup(op) && known == Some(pid))
  {
    var u := OnFailure(cfg, op, cid, known);
    if BeforeCleanup(op) {
      assert !op.MakeDir? ==> u == [FreeCid(cid), RemoveDir] && u[1] == RemoveDir;
    } else {
      var n := |StopOf(known)|;
      assert u == StopOf(known) + [FreeCid(cid), RemoveLeaf, RemoveDir] + ChrootUndo(cfg);
      assert u[n + 1] == RemoveLeaf && u[n + 2] == RemoveDir;
      assert cfg.jailer ==> u[n + 3] == RemoveChroot;
      assert known.Some? ==> u[0] == StopVm(known.value);
    }
  }

  lemma SameButOne(a: set<Id>, b: set<Id>, id: Id)
    requires a - {id} == b - {id}
    ensures a == b <==> (id in a <==> id in b)
  {
    assert forall x :: x != id ==> (x in a <==> x in a - {id}) && (x in b <==> x in b - {id});
  }

  /** The host has something of `id`. */
  predicate Keeps(h: Host, id: Id) {
    id in h.dirs || id in h.leaves || id in h.chroots
  }

  /** On a host with nothing of this id, a failing exit rolls everything back if and only if it does
      not fail in the middle of preparing the state directory or the cgroup leaf. */
  lemma CleanRollbackIff(cfg: Config, kind: Kind, h: Host, vm: Vmm, k: nat, partial: bool)
    requires k < |Program(kind)| && (partial ==> MayBePartial(kind, Program(kind)[k])) && !Keeps(h, vm.id)
    requires PidFree(h, vm.pid)
    ensures AfterFailure(cfg, kind, h, vm, k, partial) == h <==> !(partial && BeforeCleanup(Program(kind)[k]))
  {
    RollbackExact(cfg, kind, h, vm, k, partial);
    var g := AfterFailure(cfg, kind, h, vm, k, partial);
    SameButOne(h.dirs, g.dirs, vm.id);
    SameButOne(h.leaves, g.leaves, vm.id);
    SameButOne(h.chroots, g.chroots, vm.id);
  }

  /** For instance, a launch whose disk image cannot be prepared leaves its state directory. */
  lemma LaunchLeavesDirectory(cfg: Config, vm: Vmm)
    ensures var none := Host({}, {}, {}, {}); AfterFailure(cfg, Launch, none, vm, 0, true) == none.(dirs := {vm.id})
  {
    var none := Host({}, {}, {}, {});
    RollbackExact(cfg, Launch, none, vm, 0, true);
    var g := AfterFailure(cfg, Launch, none, vm, 0, true);
    SameButOne({vm.id}, g.dirs, vm.id);
    SameButOne({}, g.leaves, vm.id);
    SameButOne({}, g.chroots, vm.id);
  }

  /** And one whose cgroup limits cannot be written leaves its leaf. */
  lemma LaunchLeavesLeaf(cfg: Config, vm: Vmm)
    ensures var none := Host({}, {}, {}, {}); AfterFailure(cfg, Launch, none, vm, 1, true) == none.(leaves := {vm.id})
  {
    var none := Host({}, {}, {}, {});
    RollbackExact(cfg, Launch, none, vm, 1, true);
    var g := AfterFailure(cfg, Launch, none, vm, 1, true);
    SameButOne({}, g.dirs, vm.id);
    SameButOne({vm.id}, g.leaves, vm.id);
    SameButOne({}, g.chroots, vm.id);
  }

  /** Nothing is started, and no leaf made, before the operations that may fail early. */
  lemma EarlyOps(kind: Kind, k: nat)
    requires k < |Program(kind)|
    ensures var p := Program(kind);
            && (BeforeCleanup(p[k]) ==> StartVm !in p[..k] && MakeLeaf !in p[..k])
            && (p[k].MakeDir? ==> k == 0)
  {
    if k <= 2 {
      assert Program(kind)[..k] == if k == 0 then [] else if k == 1 then [Program(kind)[0]]
                                   else [Program(kind)[0], Program(kind)[1]];
    }
  }

  /** Nothing of the instance is left, and nothing else has changed. */
  ghost predicate TornDown(cfg: Config, h: Host, g: Host, i: Inst, id: Id) {
    && SameElsewhere(h, g, id) && id !in g.dirs && id !in g.leaves && (cfg.jailer ==> id !in g.chroots)
    && g.vmms == set v | v in h.vmms && !(v.id == id && v.pid == i.pid)
  }

  /** The teardown program removes every resource of the instance and touches no other id. */
  lemma TeardownComplete(cfg: Config, h: Host, i: Inst, id: Id)
    ensures TornDown(cfg, h, UndoAll(h, Teardown(cfg, i), id), i, id)
  {
    var u := Teardown(cfg, i);
    assert u[0] == StopVm(i.pid) && u[2] == RemoveLeaf && u[3] == RemoveDir && (cfg.jailer ==> u[4] == RemoveChroot);
    UndoElsewhere(h, u, id);
    assert forall v :: v in UndoAll(h, u, id).vmms <==> v in h.vmms && !(v.id == id && v.pid == i.pid);
  }
}
