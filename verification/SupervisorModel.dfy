/** The supervisor (internal/orchestrator/orchestrator.go, snapshot.go) as a state machine.

    One action is one lock region, one allocator call, one host operation or one recorder
    call; any number of Launch, LoadSnapshot and Terminate calls are in flight, every fallible
    operation may fail, VMMs may die, and the process may crash and recover at any point.
    Removal of a host resource succeeds; a recorder write is applied or not. */
module SupervisorModel {
  import opened Wrappers
  import opened CidAllocator
  import opened Int64

  type Id = string

  /** CID range, admission limits (non-positive means unlimited) and jailer mode. */
  datatype Config = Config(min: Cid, max: Cid, maxConcurrent: int, memoryBudget: int, jailer: bool)

  datatype Inst = Inst(id: Id, cid: Cid, pid: nat, mem: int)

  /** The parts of a persisted record that reconciliation uses: pid, and whether a chroot is named. */
  datatype Record = Record(pid: nat, chroot: bool)

  /** A live VMM process and the CID of its guest. */
  datatype Vmm = Vmm(id: Id, pid: nat, cid: Cid)

  /** Host resources by sandbox id: state directory, cgroup leaf, jailer chroot, VMM process. */
  datatype Host = Host(dirs: set<Id>, leaves: set<Id>, chroots: set<Id>, vmms: set<Vmm>)

  datatype Kind = Launch | Restore

  /** Fallible host operations of a boot, in source order. */
  datatype Op = MakeDir | CopyDisk | MakeLeaf | CheckContext | NewMachine | StartVm | ReadPid | Place | Rekey

  /** Operations of a rollback or a teardown, in source order. */
  datatype Undo = StopVm(pid: nat) | FreeCid(cid: Cid) | RemoveLeaf | RemoveDir | RemoveChroot | Forget

  datatype Call =
    | Admitted(kind: Kind, id: Id, mem: int)
    | Booting(kind: Kind, id: Id, mem: int, cid: Cid, ops: seq<Op>, pid: Option<nat>)
    | Saving(id: Id, rec: Record)
    | Unwinding(id: Id, mem: int, rollback: bool, undo: seq<Undo>)

  /** One reconciliation operation on one record. */
  datatype Sweep =
    | Kill(id: Id, pid: nat)
    | SweepLeaf(id: Id)
    | SweepChroot(id: Id)
    | SweepDir(id: Id)
    | SweepRecord(id: Id)

  datatype Mode = Serving | Down | Recovering(sweeps: seq<Sweep>)

  /** History: `saved` holds the ids whose latest boot completed its Save; `exposed` those that owned
      a directory, leaf or chroot without one at the latest crash, and have not completed one since;
      `orphans` the VMMs that no record named at some crash. */
  datatype Sup = Sup(inst: map<Id, Inst>, used: set<Cid>, next: Cid, calls: map<nat, Call>,
                     displaced: seq<Inst>, host: Host, records: map<Id, Record>, mode: Mode,
                     saved: set<Id>, exposed: set<Id>, orphans: set<Vmm>)

  datatype Action =
    | Admit(c: nat, kind: Kind, id: Id, mem: int)
    | Allocate(c: nat)
    | Do(c: nat, pid: nat)
    | Fail(c: nat, partial: bool, pid: nat)
    | Insert(c: nat)
    | Save(c: nat, applied: bool)
    | Terminate(c: nat, id: Id)
    | Unwind(c: nat, applied: bool)
    | VmDies(vmm: Vmm)
    | Crash
    | BeginRecovery(order: seq<Id>)
    | SweepOne(applied: bool)
    | EndRecovery

  // ---- admission ----

  ghost function Sum<K(!new)>(m: map<K, int>): int {
    if m == map[] then 0 else
      var k :| k in m;
      m[k] + Sum(m - {k})
  }

  function Weights(inst: map<Id, Inst>): map<Id, int> {
    map id | id in inst :: inst[id].mem
  }

  /** The memory test, in int64. */
  predicate BudgetOk(cfg: Config, used: int, mem: int) {
    cfg.memoryBudget > 0 ==> Wrap64(Wrap64(used) + mem) <= cfg.memoryBudget
  }

  ghost predicate AdmitOk(cfg: Config, inst: map<Id, Inst>, mem: int) {
    (cfg.maxConcurrent > 0 ==> |inst| < cfg.maxConcurrent) && BudgetOk(cfg, Sum(Weights(inst)), mem)
  }

  lemma WrapsNothing()
    ensures Wrap64(0) == 0 && Wrap64(1) == 1
  {
  }

  /** An empty supervisor admits 1 MiB under every limit. */
  lemma FirstAdmitted(cfg: Config)
    ensures AdmitOk(cfg, map[], 1)
  {
    assert Weights(map[]) == map[];
    WrapsNothing();
  }

  // ---- programs ----

  function Program(kind: Kind): seq<Op> {
    match kind
    case Launch => [MakeDir, MakeLeaf, CheckContext, NewMachine, StartVm, ReadPid, Place]
    case Restore => [MakeDir, CopyDisk, MakeLeaf, NewMachine, StartVm, ReadPid, Place, Rekey]
  }

  function StopOf(pid: Option<nat>): seq<Undo> {
    if pid.Some? then [StopVm(pid.value)] else []
  }

  function ChrootUndo(cfg: Config): seq<Undo> {
    if cfg.jailer then [RemoveChroot] else []
  }

  /** The cleanup closure. */
  function Cleanup(cfg: Config, cid: Cid, pid: Option<nat>): seq<Undo> {
    StopOf(pid) + [FreeCid(cid), RemoveLeaf, RemoveDir] + ChrootUndo(cfg)
  }

  /** What a failure of `op` undoes; the cleanup closure exists only once the leaf is prepared. */
  function OnFailure(cfg: Config, op: Op, cid: Cid, pid: Option<nat>): seq<Undo> {
    match op
    case MakeDir => [FreeCid(cid)]
    case CopyDisk => [FreeCid(cid), RemoveDir]
    case MakeLeaf => [FreeCid(cid), RemoveDir]
    case _ => Cleanup(cfg, cid, pid)
  }

  function Teardown(cfg: Config, i: Inst): seq<Undo> {
    [StopVm(i.pid), FreeCid(i.cid), RemoveLeaf, RemoveDir] + ChrootUndo(cfg) + [Forget]
  }

  /** The operation's effect on the host. */
  function Effect(cfg: Config, h: Host, op: Op, vm: Vmm): Host {
    match op
    case MakeDir => h.(dirs := h.dirs + {vm.id})
    case MakeLeaf => h.(leaves := h.leaves + {vm.id})
    case StartVm => h.(chroots := if cfg.jailer then h.chroots + {vm.id} else h.chroots, vmms := h.vmms + {vm})
    case _ => h
  }

  /** A failed operation may have taken effect first; a failed mkdir of a restore has none. */
  predicate MayBePartial(kind: Kind, op: Op) {
    match op
    case MakeDir => kind.Launch?
    case MakeLeaf => true
    case StartVm => true
    case _ => false
  }

  function UndoEffect(h: Host, u: Undo, id: Id): Host {
    match u
    case StopVm(pid) => h.(vmms := set v | v in h.vmms && !(v.id == id && v.pid == pid))
    case RemoveLeaf => h.(leaves := h.leaves - {id})
    case RemoveDir => h.(dirs := h.dirs - {id})
    case RemoveChroot => h.(chroots := h.chroots - {id})
    case _ => h
  }

  // ---- reconciliation ----

  function SweepsOf(id: Id, r: Record): seq<Sweep> {
    [Kill(id, r.pid), SweepLeaf(id)] + (if r.chroot then [SweepChroot(id)] else []) + [SweepDir(id), SweepRecord(id)]
  }

  function SweepProgram(order: seq<Id>, records: map<Id, Record>): seq<Sweep>
    requires forall i :: 0 <= i < |order| ==> order[i] in records
  {
    if order == [] then [] else SweepsOf(order[0], records[order[0]]) + SweepProgram(order[1..], records)
  }

  predicate Lists(order: seq<Id>, records: map<Id, Record>) {
    && (forall i :: 0 <= i < |order| ==> order[i] in records)
    && (forall id :: id in records ==> id in order)
    && (forall i, j :: 0 <= i < j < |order| ==> order[i] != order[j])
  }

  function SweepEffect(h: Host, w: Sweep): Host {
    match w
    case Kill(_, pid) => h.(vmms := set v | v in h.vmms && v.pid != pid)
    case SweepLeaf(id) => h.(leaves := h.leaves - {id})
    case SweepChroot(id) => h.(chroots := h.chroots - {id})
    case SweepDir(id) => h.(dirs := h.dirs - {id})
    case SweepRecord(_) => h
  }

  function SweepRecords(records: map<Id, Record>, w: Sweep, applied: bool): map<Id, Record> {
    if w.SweepRecord? && applied then records - {w.id} else records
  }

  // ---- steps ----

  /** No VMM has this pid. */
  predicate PidFree(h: Host, pid: nat) {
    forall v :: v in h.vmms ==> v.pid != pid
  }

  /** The ids with a directory, leaf or chroot. */
  function Keepers(h: Host): set<Id> {
    h.dirs + h.leaves + h.chroots
  }

  predicate Recorded(records: map<Id, Record>, v: Vmm) {
    exists id :: id in records && records[id].pid == v.pid
  }

  /** The VMMs that no record names. */
  function Unrecorded(h: Host, records: map<Id, Record>): set<Vmm> {
    set v | v in h.vmms && !Recorded(records, v)
  }

  ghost predicate Enabled(cfg: Config, s: Sup, a: Action) {
    match a
    case Admit(c, _, id, mem) =>
      s.mode.Serving? && c !in s.calls && id !in s.inst && 0 < mem < I64 && AdmitOk(cfg, s.inst, mem)
    case Allocate(c) => c in s.calls && s.calls[c].Admitted?
    case Do(c, pid) =>
      && c in s.calls && s.calls[c].Booting? && s.calls[c].ops != []
      && (s.calls[c].ops[0].StartVm? ==> PidFree(s.host, pid))
    case Fail(c, partial, pid) =>
      && c in s.calls && s.calls[c].Booting? && s.calls[c].ops != []
      && (partial ==> MayBePartial(s.calls[c].kind, s.calls[c].ops[0]))
      && (s.calls[c].ops[0].StartVm? ==> PidFree(s.host, pid))
    case Insert(c) => c in s.calls && s.calls[c].Booting? && s.calls[c].ops == [] && s.calls[c].pid.Some?
    case Save(c, _) => c in s.calls && s.calls[c].Saving?
    case Terminate(c, id) => s.mode.Serving? && c !in s.calls && id in s.inst
    case Unwind(c, _) => c in s.calls && s.calls[c].Unwinding? && s.calls[c].undo != []
    case VmDies(v) => true
    case Crash => true
    case BeginRecovery(order) => s.mode.Down? && Lists(order, s.records)
    case SweepOne(_) => s.mode.Recovering? && s.mode.sweeps != []
    case EndRecovery => s.mode.Recovering? && s.mode.sweeps == []
  }

  function SetCall(s: Sup, c: nat, call: Call): Sup {
    s.(calls := s.calls[c := call])
  }

  function DropCall(s: Sup, c: nat): Sup {
    s.(calls := s.calls - {c})
  }

  function ApplyDo(cfg: Config, s: Sup, c: nat, pid: nat): Sup
    requires c in s.calls && s.calls[c].Booting? && s.calls[c].ops != []
  {
    var call := s.calls[c];
    var op, vm := call.ops[0], Vmm(call.id, pid, call.cid);
    SetCall(s, c, call.(ops := call.ops[1..], pid := if op.StartVm? then Some(pid) else call.pid))
      .(host := Effect(cfg, s.host, op, vm), orphans := if op.StartVm? then s.orphans - {vm} else s.orphans)
  }

  function ApplyFail(cfg: Config, s: Sup, c: nat, partial: bool, pid: nat): Sup
    requires c in s.calls && s.calls[c].Booting? && s.calls[c].ops != []
  {
    var call := s.calls[c];
    var op, vm := call.ops[0], Vmm(call.id, pid, call.cid);
    var started := if op.StartVm? && partial then Some(pid) else call.pid;
    SetCall(s, c, Unwinding(call.id, call.mem, true, OnFailure(cfg, op, call.cid, started)))
      .(host := if partial then Effect(cfg, s.host, op, vm) else s.host,
        orphans := if partial && op.StartVm? then s.orphans - {vm} else s.orphans)
  }

  function ApplyInsert(cfg: Config, s: Sup, c: nat): Sup
    requires c in s.calls && s.calls[c].Booting? && s.calls[c].pid.Some?
  {
    var call := s.calls[c];
    SetCall(s, c, Saving(call.id, Record(call.pid.value, cfg.jailer)))
      .(inst := s.inst[call.id := Inst(call.id, call.cid, call.pid.value, call.mem)],
        displaced := if call.id in s.inst then s.displaced + [s.inst[call.id]] else s.displaced)
  }

  function ApplyUnwind(s: Sup, c: nat, applied: bool): Sup
    requires c in s.calls && s.calls[c].Unwinding? && s.calls[c].undo != []
  {
    var call := s.calls[c];
    var u := call.undo[0];
    var t := if |call.undo| == 1 then DropCall(s, c) else SetCall(s, c, call.(undo := call.undo[1..]));
    t.(host := UndoEffect(s.host, u, call.id),
       used := if u.FreeCid? then s.used - {u.cid} else s.used,
       records := if u.Forget? && applied then s.records - {call.id} else s.records)
  }

  function Apply(cfg: Config, s: Sup, a: Action): Sup
    requires Enabled(cfg, s, a)
  {
    match a
    case Admit(c, kind, id, mem) => SetCall(s, c, Admitted(kind, id, mem)).(saved := s.saved - {id})
    case Allocate(c) =>
      var call := s.calls[c];
      var (r, n) := Scan(cfg.min, cfg.max, s.next, s.used, Total(cfg.min, cfg.max));
      if r.None? then DropCall(s, c).(next := n)
      else SetCall(s, c, Booting(call.kind, call.id, call.mem, r.value, Program(call.kind), None))
             .(next := n, used := s.used + {r.value})
    case Do(c, pid) => ApplyDo(cfg, s, c, pid)
    case Fail(c, partial, pid) => ApplyFail(cfg, s, c, partial, pid)
    case Insert(c) => ApplyInsert(cfg, s, c)
    case Save(c, applied) =>
      var call := s.calls[c];
      if applied then DropCall(s, c).(records := s.records[call.id := call.rec], saved := s.saved + {call.id},
                                      exposed := s.exposed - {call.id})
      else DropCall(s, c)
    case Terminate(c, id) =>
      SetCall(s, c, Unwinding(id, s.inst[id].mem, false, Teardown(cfg, s.inst[id]))).(inst := s.inst - {id})
    case Unwind(c, applied) => ApplyUnwind(s, c, applied)
    case VmDies(v) => s.(host := s.host.(vmms := s.host.vmms - {v}))
    case Crash =>
      Sup(map[], {}, cfg.min, map[], [], s.host, s.records, Down, s.saved, Keepers(s.host) - s.saved,
          s.orphans + Unrecorded(s.host, s.records))
    case BeginRecovery(order) => s.(mode := Recovering(SweepProgram(order, s.records)))
    case SweepOne(applied) =>
      var w := s.mode.sweeps[0];
      s.(mode := Recovering(s.mode.sweeps[1..]), host := SweepEffect(s.host, w),
         records := SweepRecords(s.records, w, applied))
    case EndRecovery => s.(mode := Serving)
  }

  predicate Init(cfg: Config, s: Sup) {
    s == Sup(map[], {}, cfg.min, map[], [], Host({}, {}, {}, {}), map[], Serving, {}, {}, {})
  }

  ghost predicate RunOk(cfg: Config, s: Sup, actions: seq<Action>)
    decreases |actions|
  {
    actions == [] || (Enabled(cfg, s, actions[0]) && RunOk(cfg, Apply(cfg, s, actions[0]), actions[1..]))
  }

  /** The states of a run, first to last. */
  ghost function Run(cfg: Config, s: Sup, actions: seq<Action>): (states: seq<Sup>)
    requires RunOk(cfg, s, actions)
    ensures |states| == |actions| + 1 && states[0] == s
    decreases |actions|
  {
    if actions == [] then [s] else [s] + Run(cfg, Apply(cfg, s, actions[0]), actions[1..])
  }

  function Last(states: seq<Sup>): Sup
    requires states != []
  {
    states[|states| - 1]
  }

  lemma {:induction false} StepAt(cfg: Config, s: Sup, actions: seq<Action>, i: nat)
    requires RunOk(cfg, s, actions) && i < |actions|
    ensures Enabled(cfg, Run(cfg, s, actions)[i], actions[i])
    ensures Run(cfg, s, actions)[i + 1] == Apply(cfg, Run(cfg, s, actions)[i], actions[i])
    decreases |actions|
  {
    if i > 0 {
      StepAt(cfg, Apply(cfg, s, actions[0]), actions[1..], i - 1);
    }
  }
}
