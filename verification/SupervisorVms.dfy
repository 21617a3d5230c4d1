/** Live VMMs and their CIDs: who answers for a VMM, in every run with any number of crashes, and
    when two live VMMs can share a CID. */
module SupervisorVms {
  import opened Wrappers
  import opened CidAllocator
  import opened SupervisorModel
  import opened SupervisorCids
  import opened SupervisorRollback
  import opened SupervisorSerial

  // ---- the shape of boots and of reconciliation ----

  /** Operations left once the VM is started. */
  function AfterStart(kind: Kind): nat {
    if kind.Launch? then 2 else 3
  }

  /** The operations left are a suffix of the program, and a pid is known once the VM is started. */
  predicate BootShape(kind: Kind, ops: seq<Op>, pid: Option<nat>) {
    var p := Program(kind);
    |ops| <= |p| && ops == p[|p| - |ops|..] && (pid.Some? <==> |ops| <= AfterStart(kind))
  }

  lemma BootStep(kind: Kind, ops: seq<Op>, pid: Option<nat>, next: nat)
    requires BootShape(kind, ops, pid) && ops != []
    ensures BootShape(kind, ops[1..], if ops[0].StartVm? then Some(next) else pid)
    ensures ops[0].StartVm? ==> pid.None?
    ensures ops[0].MakeDir? || ops[0].CopyDisk? || ops[0].MakeLeaf? ==> pid.None?
  {
    var p := Program(kind);
    var k := |p| - |ops|;
    assert ops[0] == p[k];
    assert ops[1..] == p[k + 1..];
    assert ops[0].StartVm? <==> |ops| == AfterStart(kind) + 1;
  }

  predicate RecordsLast(sweeps: seq<Sweep>) {
    forall i, j :: 0 <= i < j < |sweeps| && sweeps[i].SweepRecord? ==> sweeps[j].id != sweeps[i].id
  }

  /** A process that has not served yet. */
  ghost predicate Quiet(cfg: Config, s: Sup) {
    s.inst == map[] && s.calls == map[] && s.used == {} && s.next == cfg.min
  }

  ghost predicate ModeInv(cfg: Config, s: Sup) {
    && (!cfg.jailer ==> s.host.chroots == {})
    && (!s.mode.Serving? ==> Quiet(cfg, s))
    && (s.mode.Recovering? ==> RecordsLast(s.mode.sweeps))
  }

  lemma StepKeepsMode(cfg: Config, s: Sup, a: Action)
    requires ModeInv(cfg, s) && Enabled(cfg, s, a)
    ensures ModeInv(cfg, Apply(cfg, s, a))
  {
    if a.BeginRecovery? {
      ProgramRecordsLast(a.order, s.records);
    }
  }

  lemma {:induction false} ProgramContains(order: seq<Id>, records: map<Id, Record>, id: Id, w: Sweep)
    requires forall i :: 0 <= i < |order| ==> order[i] in records
    requires id in order && w in SweepsOf(id, records[id])
    ensures w in SweepProgram(order, records)
  {
    if order[0] != id {
      ProgramContains(order[1..], records, id, w);
    }
  }

  lemma {:induction false} ProgramIds(order: seq<Id>, records: map<Id, Record>)
    requires forall i :: 0 <= i < |order| ==> order[i] in records
    ensures forall w :: w in SweepProgram(order, records) ==> w.id in order
  {
    if order != [] {
      ProgramIds(order[1..], records);
    }
  }

  lemma {:induction false} ProgramRecordsLast(order: seq<Id>, records: map<Id, Record>)
    requires forall i :: 0 <= i < |order| ==> order[i] in records
    requires forall i, j :: 0 <= i < j < |order| ==> order[i] != order[j]
    ensures RecordsLast(SweepProgram(order, records))
  {
    if order != [] {
      ProgramRecordsLast(order[1..], records);
      ProgramIds(order[1..], records);
      var head, tail := SweepsOf(order[0], records[order[0]]), SweepProgram(order[1..], records);
      var all := head + tail;
      assert order[0] !in order[1..];
      forall i, j | 0 <= i < j < |all| && all[i].SweepRecord? ensures all[j].id != all[i].id {
        if i < |head| {
          assert i == |head| - 1;
          assert all[j] == tail[j - |head|];
          assert all[j] in tail;
        } else {
          assert all[i] == tail[i - |head|] && all[j] == tail[j - |head|];
        }
      }
    }
  }

  /** Every boot under way has such a shape. */
  ghost predicate BootsInv(s: Sup) {
    forall c :: c in s.calls && s.calls[c].Booting? ==> BootInv(s.calls[c])
  }

  predicate BootInv(call: Call)
    requires call.Booting?
  {
    BootShape(call.kind, call.ops, call.pid)
  }

  lemma FreshShape(kind: Kind)
    ensures BootShape(kind, Program(kind), None)
  {
    var p := Program(kind);
    assert p[|p| - |p|..] == p;
  }

  /** A boot after the step is one from before it, unless the step is its own. */
  lemma BootUnchanged(cfg: Config, s: Sup, a: Action, c: nat)
    requires Enabled(cfg, s, a) && c in Apply(cfg, s, a).calls && Apply(cfg, s, a).calls[c].Booting?
    requires !((a.Allocate? || a.Do?) && a.c == c)
    ensures c in s.calls && s.calls[c] == Apply(cfg, s, a).calls[c]
  {
  }

  lemma AllocatedBoot(cfg: Config, s: Sup, c: nat)
    requires Enabled(cfg, s, Allocate(c)) && c in Apply(cfg, s, Allocate(c)).calls
    ensures var call := Apply(cfg, s, Allocate(c)).calls[c];
            call.Booting? && call.ops == Program(call.kind) && call.pid == None
            && Scan(cfg.min, cfg.max, s.next, s.used, Total(cfg.min, cfg.max)).0 == Some(call.cid)
  {
  }

  lemma StepKeepsBoots(cfg: Config, s: Sup, a: Action)
    requires BootsInv(s) && Enabled(cfg, s, a)
    ensures BootsInv(Apply(cfg, s, a))
  {
    var t := Apply(cfg, s, a);
    forall c | c in t.calls && t.calls[c].Booting? ensures BootInv(t.calls[c]) {
      if a.Allocate? && a.c == c {
        AllocatedBoot(cfg, s, c);
        FreshShape(t.calls[c].kind);
      } else if a.Do? && a.c == c {
        DoBoot(cfg, s, c, a.pid);
      } else {
        BootUnchanged(cfg, s, a, c);
      }
    }
  }

  lemma DoBoot(cfg: Config, s: Sup, c: nat, pid: nat)
    requires BootsInv(s) && c in s.calls && s.calls[c].Booting? && s.calls[c].ops != []
    ensures BootInv(ApplyDo(cfg, s, c, pid).calls[c])
  {
    var call := s.calls[c];
    assert BootInv(call);
    BootStep(call.kind, call.ops, call.pid, pid);
  }

  // ---- who answers for a VMM ----

  /** The live VMMs other than orphans. */
  function Live(s: Sup): set<Vmm> {
    s.host.vmms - s.orphans
  }

  function VmmOf(i: Inst): Vmm {
    Vmm(i.id, i.pid, i.cid)
  }

  /** A boot that started it, or a rollback or teardown whose next step is to stop it. */
  predicate CallHolds(call: Call, v: Vmm) {
    call.id == v.id &&
    match call
    case Booting(_, _, _, cid, _, pid) => pid == Some(v.pid) && cid == v.cid
    case Unwinding(_, _, _, undo) => undo != [] && undo[0] == StopVm(v.pid) && CidIn(undo) == Some(v.cid)
    case _ => false
  }

  predicate HoldsVm(s: Sup, h: Holder, v: Vmm) {
    match h
    case ByCall(c) => c in s.calls && CallHolds(s.calls[c], v)
    case ByInstance(id) => id in s.inst && VmmOf(s.inst[id]) == v && v.id == id
    case ByDisplaced(i) => i < |s.displaced| && VmmOf(s.displaced[i]) == v
  }

  ghost predicate Held(s: Sup, v: Vmm) {
    exists h :: HoldsVm(s, h, v)
  }

  ghost predicate KillDue(records: map<Id, Record>, sweeps: seq<Sweep>, v: Vmm) {
    exists id :: id in records && records[id].pid == v.pid && Kill(id, v.pid) in sweeps
  }

  /** While serving, a live VMM has a holder; after a crash a record names it; and while
      reconciling its kill is still due. */
  ghost predicate Answered(s: Sup, v: Vmm) {
    match s.mode
    case Serving => Held(s, v)
    case Down => Recorded(s.records, v)
    case Recovering(sweeps) => KillDue(s.records, sweeps, v)
  }

  ghost predicate LiveInv(s: Sup) {
    forall v :: v in Live(s) ==> Answered(s, v)
  }

  lemma InsertHolds(cfg: Config, s: Sup, a: Action, v: Vmm, h: Holder) returns (h': Holder)
    requires Enabled(cfg, s, a) && a.Insert? && HoldsVm(s, h, v)
    ensures HoldsVm(Apply(cfg, s, a), h', v)
  {
    var id := s.calls[a.c].id;
    h' := if h == ByCall(a.c) then ByInstance(id) else if h == ByInstance(id) then ByDisplaced(|s.displaced|) else h;
  }

  lemma TerminateHolds(cfg: Config, s: Sup, a: Action, v: Vmm, h: Holder) returns (h': Holder)
    requires Enabled(cfg, s, a) && a.Terminate? && HoldsVm(s, h, v)
    ensures HoldsVm(Apply(cfg, s, a), h', v)
  {
    var i := s.inst[a.id];
    TeardownFreesOnce(cfg, i);
    assert Teardown(cfg, i)[0] == StopVm(i.pid);
    h' := if h == ByInstance(a.id) then ByCall(a.c) else h;
  }

  /** A boot that knows a pid and fails goes on to stop that VMM first. */
  lemma FailureStops(cfg: Config, call: Call, started: Option<nat>)
    requires call.Booting? && call.ops != [] && BootShape(call.kind, call.ops, call.pid) && started.Some?
    requires started == call.pid || call.ops[0].StartVm?
    ensures var u := OnFailure(cfg, call.ops[0], call.cid, started);
            u != [] && u[0] == StopVm(started.value) && CidIn(u) == Some(call.cid)
  {
    BootStep(call.kind, call.ops, call.pid, started.value);
    OnFailureFreesOnce(cfg, call.ops[0], call.cid, started);
  }

  lemma FailHolds(cfg: Config, s: Sup, a: Action, v: Vmm, h: Holder)
    requires BootsInv(s) && Enabled(cfg, s, a) && a.Fail? && HoldsVm(s, h, v)
    ensures HoldsVm(Apply(cfg, s, a), h, v)
  {
    if h == ByCall(a.c) {
      var call := s.calls[a.c];
      assert BootInv(call);
      BootStep(call.kind, call.ops, call.pid, a.pid);
      FailureStops(cfg, call, call.pid);
    }
  }

  lemma DoHolds(cfg: Config, s: Sup, a: Action, v: Vmm, h: Holder)
    requires BootsInv(s) && Enabled(cfg, s, a) && a.Do? && HoldsVm(s, h, v)
    ensures HoldsVm(Apply(cfg, s, a), h, v)
  {
    if h == ByCall(a.c) {
      var call := s.calls[a.c];
      assert BootInv(call);
      BootStep(call.kind, call.ops, call.pid, a.pid);
    }
  }

  lemma UnwindHolds(cfg: Config, s: Sup, a: Action, v: Vmm, h: Holder)
    requires Enabled(cfg, s, a) && a.Unwind? && HoldsVm(s, h, v) && v in Apply(cfg, s, a).host.vmms
    ensures HoldsVm(Apply(cfg, s, a), h, v)
  {
  }

  lemma OtherHolds(cfg: Config, s: Sup, a: Action, v: Vmm, h: Holder)
    requires Enabled(cfg, s, a) && HoldsVm(s, h, v) && (a.Admit? || a.Allocate? || a.Save? || a.VmDies?)
    ensures HoldsVm(Apply(cfg, s, a), h, v)
  {
  }

  lemma OldStaysHeld(cfg: Config, s: Sup, a: Action, v: Vmm)
    requires BootsInv(s) && Enabled(cfg, s, a) && s.mode.Serving? && !a.Crash?
    requires Held(s, v) && v in Apply(cfg, s, a).host.vmms
    ensures Held(Apply(cfg, s, a), v)
  {
    var h :| HoldsVm(s, h, v);
    match a
    case Insert(_) => var h' := InsertHolds(cfg, s, a, v, h);
    case Terminate(_, _) => var h' := TerminateHolds(cfg, s, a, v, h);
    case Fail(_, _, _) => FailHolds(cfg, s, a, v, h);
    case Do(_, _) => DoHolds(cfg, s, a, v, h);
    case Unwind(_, _) => UnwindHolds(cfg, s, a, v, h);
    case _ => OtherHolds(cfg, s, a, v, h);
  }

  /** The step starts this VMM. */
  ghost predicate Starts(cfg: Config, s: Sup, a: Action, v: Vmm)
    requires Enabled(cfg, s, a)
  {
    && ((a.Do? && s.calls[a.c].ops[0].StartVm?) || (a.Fail? && a.partial && s.calls[a.c].ops[0].StartVm?))
    && v == Vmm(s.calls[a.c].id, a.pid, s.calls[a.c].cid)
  }

  /** A live VMM is an old one or the one just started, and only that one stops being an orphan. */
  lemma LiveBefore(cfg: Config, s: Sup, a: Action, v: Vmm)
    requires Enabled(cfg, s, a) && v in Apply(cfg, s, a).host.vmms && !Starts(cfg, s, a, v)
    ensures v in s.host.vmms && (v !in Apply(cfg, s, a).orphans ==> v !in s.orphans)
  {
  }

  lemma StartedIsHeld(cfg: Config, s: Sup, a: Action, v: Vmm)
    requires BootsInv(s) && Enabled(cfg, s, a) && Starts(cfg, s, a, v)
    ensures HoldsVm(Apply(cfg, s, a), ByCall(a.c), v)
  {
    var call := s.calls[a.c];
    assert BootInv(call);
    if a.Fail? {
      FailureStops(cfg, call, Some(a.pid));
    }
  }

  lemma BeginAnswers(s: Sup, order: seq<Id>, v: Vmm)
    requires Lists(order, s.records) && Recorded(s.records, v)
    ensures KillDue(s.records, SweepProgram(order, s.records), v)
  {
    var id :| id in s.records && s.records[id].pid == v.pid;
    assert SweepsOf(id, s.records[id])[0] == Kill(id, v.pid);
    ProgramContains(order, s.records, id, Kill(id, v.pid));
  }

  lemma SweepAnswers(s: Sup, applied: bool, v: Vmm)
    requires s.mode.Recovering? && s.mode.sweeps != [] && RecordsLast(s.mode.sweeps)
    requires KillDue(s.records, s.mode.sweeps, v) && v in SweepEffect(s.host, s.mode.sweeps[0]).vmms
    ensures KillDue(SweepRecords(s.records, s.mode.sweeps[0], applied), s.mode.sweeps[1..], v)
  {
    var sweeps := s.mode.sweeps;
    var id :| id in s.records && s.records[id].pid == v.pid && Kill(id, v.pid) in sweeps;
    var j :| 0 <= j < |sweeps| && sweeps[j] == Kill(id, v.pid);
    assert j > 0 && sweeps[1..][j - 1] == Kill(id, v.pid);
    assert sweeps[0] != SweepRecord(id);
  }

  lemma StepKeepsLive(cfg: Config, s: Sup, a: Action, v: Vmm)
    requires ModeInv(cfg, s) && BootsInv(s) && LiveInv(s) && Enabled(cfg, s, a) && v in Live(Apply(cfg, s, a))
    ensures Answered(Apply(cfg, s, a), v)
  {
    if Starts(cfg, s, a, v) {
      StartedIsHeld(cfg, s, a, v);
    } else {
      LiveBefore(cfg, s, a, v);
      assert Answered(s, v);
      if s.mode.Serving? && !a.Crash? {
        OldStaysHeld(cfg, s, a, v);
      } else {
        DownStaysAnswered(cfg, s, a, v);
      }
    }
  }

  lemma DownStaysAnswered(cfg: Config, s: Sup, a: Action, v: Vmm)
    requires ModeInv(cfg, s) && Enabled(cfg, s, a) && Answered(s, v) && (a.Crash? || !s.mode.Serving?)
    requires v in s.host.vmms && v in Live(Apply(cfg, s, a))
    ensures Answered(Apply(cfg, s, a), v)
  {
    if a.Crash? {
      assert v !in Unrecorded(s.host, s.records);
    } else if a.BeginRecovery? {
      BeginAnswers(s, a.order, v);
    } else if a.SweepOne? {
      SweepAnswers(s, a.applied, v);
    }
  }

  /** No two of them share a CID. */
  ghost predicate Distinct(s: Sup) {
    forall v, w :: v in Live(s) && w in Live(s) && v.cid == w.cid ==> v == w
  }

  lemma HeldHolds(s: Sup, h: Holder, v: Vmm)
    requires HoldsVm(s, h, v)
    ensures Holds(s, h, v.cid)
  {
  }

  lemma HeldDistinct(s: Sup, v: Vmm, w: Vmm)
    requires Conserved(s) && Held(s, v) && Held(s, w) && v.cid == w.cid
    ensures v == w
  {
    var g :| HoldsVm(s, g, v);
    var h :| HoldsVm(s, h, w);
    HeldHolds(s, g, v);
    HeldHolds(s, h, w);
    HoldersDistinct(s, g, h, v.cid);
  }

  /** Who answers for what, in every run. */
  ghost predicate CoreInv(cfg: Config, s: Sup) {
    ModeInv(cfg, s) && BootsInv(s) && LiveInv(s)
  }

  lemma StepKeepsCore(cfg: Config, s: Sup, a: Action)
    requires CoreInv(cfg, s) && Enabled(cfg, s, a)
    ensures CoreInv(cfg, Apply(cfg, s, a))
  {
    StepKeepsMode(cfg, s, a);
    StepKeepsBoots(cfg, s, a);
    forall v | v in Live(Apply(cfg, s, a)) ensures Answered(Apply(cfg, s, a), v) {
      StepKeepsLive(cfg, s, a, v);
    }
  }

  lemma {:induction false} RunKeepsCore(cfg: Config, s: Sup, actions: seq<Action>)
    requires CoreInv(cfg, s) && RunOk(cfg, s, actions)
    ensures forall i :: 0 <= i <= |actions| ==> CoreInv(cfg, Run(cfg, s, actions)[i])
    decreases |actions|
  {
    if actions != [] {
      StepKeepsCore(cfg, s, actions[0]);
      RunKeepsCore(cfg, Apply(cfg, s, actions[0]), actions[1..]);
    }
  }

  /** What holds in every run. */
  ghost predicate VmInv(cfg: Config, s: Sup) {
    CoreInv(cfg, s) && Conserved(s) && Distinct(s)
  }

  lemma StepKeepsDistinct(cfg: Config, s: Sup, a: Action)
    requires VmInv(cfg, s) && Enabled(cfg, s, a)
    requires Conserved(Apply(cfg, s, a)) && LiveInv(Apply(cfg, s, a))
    ensures Distinct(Apply(cfg, s, a))
  {
    var t := Apply(cfg, s, a);
    forall v, w | v in Live(t) && w in Live(t) && v.cid == w.cid ensures v == w {
      if t.mode.Serving? {
        assert Answered(t, v) && Answered(t, w);
        HeldDistinct(t, v, w);
      } else {
        NotServingStartsNothing(cfg, s, a, v);
        NotServingStartsNothing(cfg, s, a, w);
        LiveBefore(cfg, s, a, v);
        LiveBefore(cfg, s, a, w);
      }
    }
  }

  lemma NotServingStartsNothing(cfg: Config, s: Sup, a: Action, v: Vmm)
    requires ModeInv(cfg, s) && Enabled(cfg, s, a) && !Apply(cfg, s, a).mode.Serving?
    ensures !Starts(cfg, s, a, v)
  {
  }

  lemma StepKeepsVms(cfg: Config, s: Sup, a: Action)
    requires VmInv(cfg, s) && Enabled(cfg, s, a)
    ensures VmInv(cfg, Apply(cfg, s, a))
  {
    StepConserves(cfg, s, a);
    StepKeepsCore(cfg, s, a);
    StepKeepsDistinct(cfg, s, a);
  }

  lemma InitVms(cfg: Config, s: Sup)
    requires Init(cfg, s)
    ensures VmInv(cfg, s)
  {
    InitConserved(cfg, s);
  }

  lemma {:induction false} RunKeepsVms(cfg: Config, s: Sup, actions: seq<Action>)
    requires VmInv(cfg, s) && RunOk(cfg, s, actions)
    ensures forall i :: 0 <= i <= |actions| ==> VmInv(cfg, Run(cfg, s, actions)[i])
    decreases |actions|
  {
    if actions != [] {
      StepKeepsVms(cfg, s, actions[0]);
      RunKeepsVms(cfg, Apply(cfg, s, actions[0]), actions[1..]);
    }
  }

  // ---- sharing a CID ----

  ghost predicate Shares(s: Sup, v: Vmm, w: Vmm) {
    v in s.host.vmms && w in s.host.vmms && v != w && v.cid == w.cid
  }

  /** At the crash that is action `i` no record named `v`, and `v` is live up to state `n`. */
  ghost predicate OutlivesCrash(run: seq<Sup>, actions: seq<Action>, i: int, n: int, v: Vmm)
    requires |run| == |actions| + 1
  {
    && 0 <= i < n <= |actions| && actions[i].Crash? && !Recorded(run[i].records, v)
    && (forall j :: i <= j <= n ==> v in run[j].host.vmms)
  }

  /** Where a live orphan comes from, in one step. */
  ghost predicate OrphanLink(u: Sup, a: Action, t: Sup, v: Vmm) {
    v in t.host.vmms && v in t.orphans ==> v in u.host.vmms && (v in u.orphans || (a.Crash? && !Recorded(u.records, v)))
  }

  lemma OrphanStep(cfg: Config, u: Sup, a: Action, v: Vmm)
    requires Enabled(cfg, u, a)
    ensures OrphanLink(u, a, Apply(cfg, u, a), v)
  {
    var t := Apply(cfg, u, a);
    if v in t.host.vmms && v in t.orphans {
      assert !Starts(cfg, u, a, v);
      LiveBefore(cfg, u, a, v);
    }
  }

  lemma {:induction false} OrphanBack(run: seq<Sup>, actions: seq<Action>, n: nat, v: Vmm) returns (i: int)
    requires |run| == |actions| + 1 && run[0].orphans == {} && n <= |actions|
    requires forall k :: 0 <= k < |actions| ==> OrphanLink(run[k], actions[k], run[k + 1], v)
    requires v in run[n].host.vmms && v in run[n].orphans
    ensures OutlivesCrash(run, actions, i, n, v) && v !in run[i].orphans
    decreases n
  {
    assert n > 0;
    assert OrphanLink(run[n - 1], actions[n - 1], run[n - 1 + 1], v);
    i := n - 1;
    if v in run[n - 1].orphans {
      i := OrphanBack(run, actions, n - 1, v);
    }
  }

  /** A live orphan became one at some crash, and has outlived it. */
  lemma OrphanSince(cfg: Config, s: Sup, actions: seq<Action>, n: nat, v: Vmm) returns (i: int)
    requires RunOk(cfg, s, actions) && s.orphans == {} && n <= |actions|
    requires var t := Run(cfg, s, actions)[n]; v in t.host.vmms && v in t.orphans
    ensures OutlivesCrash(Run(cfg, s, actions), actions, i, n, v) && v !in Run(cfg, s, actions)[i].orphans
  {
    var run := Run(cfg, s, actions);
    forall k | 0 <= k < |actions| ensures OrphanLink(run[k], actions[k], run[k + 1], v) {
      StepAt(cfg, s, actions, k);
      OrphanStep(cfg, run[k], actions[k], v);
    }
    i := OrphanBack(run, actions, n, v);
  }

  /** In every run, if two live VMMs share a CID then one of them has outlived a crash at which no
      record named it. */
  lemma SharingNeedsOrphan(cfg: Config, s: Sup, actions: seq<Action>, n: nat, v: Vmm, w: Vmm) returns (x: Vmm, i: int)
    requires Init(cfg, s) && RunOk(cfg, s, actions) && n <= |actions|
    requires Shares(Run(cfg, s, actions)[n], v, w)
    ensures (x == v || x == w) && OutlivesCrash(Run(cfg, s, actions), actions, i, n, x)
  {
    InitVms(cfg, s);
    RunKeepsVms(cfg, s, actions);
    var t := Run(cfg, s, actions)[n];
    assert VmInv(cfg, t);
    assert v in t.orphans || w in t.orphans;
    x := if v in t.orphans then v else w;
    i := OrphanSince(cfg, s, actions, n, x);
  }

  /** So in every run without a crash no two live VMMs share a CID. */
  lemma LiveCidsDistinct(cfg: Config, s: Sup, actions: seq<Action>, n: nat, v: Vmm, w: Vmm)
    requires Init(cfg, s) && RunOk(cfg, s, actions) && CrashFree(actions) && n <= |actions|
    ensures !Shares(Run(cfg, s, actions)[n], v, w)
  {
    if Shares(Run(cfg, s, actions)[n], v, w) {
      var x, i := SharingNeedsOrphan(cfg, s, actions, n, v, w);
    }
  }

  // ---- after a crash: sharing is possible exactly when a VMM is left ----

  /** As a complete reconciliation leaves the supervisor. */
  predicate Rested(s: Sup) {
    s.mode.Serving? && s.inst == map[] && s.calls == map[] && s.used == {}
  }

  /** Some run without a further crash makes two VMMs share a CID. */
  ghost predicate CanShare(cfg: Config, s: Sup) {
    exists actions, t, v, w :: CrashFree(actions) && Reaches(cfg, s, actions, t) && Shares(t, v, w)
  }

  lemma NewPid(vmms: set<Vmm>) returns (pid: nat)
    ensures forall v :: v in vmms ==> v.pid < pid
    decreases |vmms|
  {
    if vmms == {} {
      pid := 0;
    } else {
      var v :| v in vmms;
      var p := NewPid(vmms - {v});
      pid := if p <= v.pid then v.pid + 1 else p;
      forall w | w in vmms ensures w.pid < pid {
        assert w == v || w in vmms - {v};
      }
    }
  }

  /** A first boot of such a supervisor is admitted and given the CID under the cursor. */
  lemma NextBoot(cfg: Config, s: Sup) returns (b: Boot, s': Sup)
    requires Rested(s) && Total(cfg.min, cfg.max) > 0
    ensures b == Boot(0, Launch, "", 1, s.next, b.pid) && PidFree(s.host, b.pid)
    ensures Enabled(cfg, s, Start(b)[0]) && Allocates(cfg, s, b, s') && s'.next == Succ(cfg.min, cfg.max, s.next)
  {
    var pid := NewPid(s.host.vmms);
    b := Boot(0, Launch, "", 1, s.next, pid);
    s' := s.(next := Succ(cfg.min, cfg.max, s.next), used := s.used + {b.cid}, saved := s.saved - {b.id});
    FirstAdmitted(cfg);
    assert Scan(cfg.min, cfg.max, s.next, s.used, Total(cfg.min, cfg.max)) == (Some(b.cid), s'.next);
  }

  lemma StartCrashFree(b: Boot, n: nat)
    ensures CrashFree(Start(b) + Times(Do(b.c, b.pid), n))
  {
    TimesCrashFree(Do(b.c, b.pid), n);
  }

  /** A boot that fails at once moves the cursor on and changes nothing else that matters. */
  lemma SkipOne(cfg: Config, s: Sup) returns (actions: seq<Action>, t: Sup)
    requires Rested(s) && Total(cfg.min, cfg.max) > 0
    ensures CrashFree(actions) && Reaches(cfg, s, actions, t) && Rested(t)
    ensures t.next == Succ(cfg.min, cfg.max, s.next) && t.host.vmms == s.host.vmms
  {
    var b, s' := NextBoot(cfg, s);
    t := FailedBootIsRun(cfg, s, b, s', 0, false);
    actions := FailedActions(cfg, b, 0, false);
    StartCrashFree(b, 0);
    TimesCrashFree(Unwind(b.c, true), |OnFailure(cfg, Program(b.kind)[0], b.cid, KnownPid(b.kind, 0, false, b.pid))|);
  }

  /** A boot under the CID of a VMM that is already live. */
  lemma ShareNow(cfg: Config, s: Sup, v: Vmm) returns (actions: seq<Action>, t: Sup, w: Vmm)
    requires Rested(s) && Total(cfg.min, cfg.max) > 0
    requires v in s.host.vmms && v.cid == s.next
    ensures CrashFree(actions) && Reaches(cfg, s, actions, t) && Shares(t, v, w)
  {
    var b, s' := NextBoot(cfg, s);
    var p := Program(b.kind);
    BootingRun(cfg, s, b, s', 5);
    actions, t, w := Start(b) + Times(Do(b.c, b.pid), 5), BootAt(cfg, s', b, p, 5), VmOf(b);
    StartCrashFree(b, 5);
    assert p[..5][4] == StartVm;
    EffectsElsewhere(cfg, s.host, p[..5], w);
  }

  /** Every CID of the range comes round. */
  lemma {:induction false} ShareLater(cfg: Config, s: Sup, v: Vmm) returns (actions: seq<Action>, t: Sup, w: Vmm)
    requires Rested(s) && InCycle(cfg.min, cfg.max, v.cid) && v in s.host.vmms
    requires Offset(cfg.min, s.next) <= Offset(cfg.min, v.cid)
    ensures CrashFree(actions) && Reaches(cfg, s, actions, t) && Shares(t, v, w)
    decreases Offset(cfg.min, v.cid) - Offset(cfg.min, s.next)
  {
    if s.next == v.cid {
      actions, t, w := ShareNow(cfg, s, v);
    } else {
      OffsetSucc(cfg.min, cfg.max, s.next);
      var a, u := SkipOne(cfg, s);
      var b;
      b, t, w := ShareLater(cfg, u, v);
      ReachTrans(cfg, s, a, u, b, t);
      actions := a + b;
    }
  }

  /** Boots and VMMs have CIDs that the cursor visits, and so has the cursor if there are any. */
  ghost predicate CidsInCycle(cfg: Config, s: Sup) {
    && (forall v :: v in s.host.vmms ==> InCycle(cfg.min, cfg.max, v.cid))
    && (forall c :: c in s.calls && s.calls[c].Booting? ==> InCycle(cfg.min, cfg.max, s.calls[c].cid))
    && (Total(cfg.min, cfg.max) > 0 ==> InCycle(cfg.min, cfg.max, s.next))
  }

  lemma AllocatesInCycle(cfg: Config, s: Sup)
    requires CidsInCycle(cfg, s)
    ensures var (r, n) := Scan(cfg.min, cfg.max, s.next, s.used, Total(cfg.min, cfg.max));
            && (r.Some? ==> InCycle(cfg.min, cfg.max, r.value))
            && (Total(cfg.min, cfg.max) > 0 ==> InCycle(cfg.min, cfg.max, n))
  {
    if Total(cfg.min, cfg.max) > 0 {
      ScanInCycle(cfg.min, cfg.max, s.next, s.used, Total(cfg.min, cfg.max));
    }
  }

  lemma CursorStep(cfg: Config, s: Sup, a: Action)
    requires Enabled(cfg, s, a)
    ensures var n := Apply(cfg, s, a).next;
            || n == s.next || n == cfg.min
            || n == Scan(cfg.min, cfg.max, s.next, s.used, Total(cfg.min, cfg.max)).1
  {
  }

  lemma StepKeepsCycle(cfg: Config, s: Sup, a: Action)
    requires CidsInCycle(cfg, s) && Enabled(cfg, s, a)
    ensures CidsInCycle(cfg, Apply(cfg, s, a))
  {
    var t := Apply(cfg, s, a);
    AllocatesInCycle(cfg, s);
    CursorStep(cfg, s, a);
    forall v | v in t.host.vmms ensures InCycle(cfg.min, cfg.max, v.cid) {
      if !Starts(cfg, s, a, v) {
        LiveBefore(cfg, s, a, v);
      }
    }
    forall c | c in t.calls && t.calls[c].Booting? ensures InCycle(cfg.min, cfg.max, t.calls[c].cid) {
      if a.Allocate? && a.c == c {
        AllocatedBoot(cfg, s, c);
      } else if !(a.Do? && a.c == c) {
        BootUnchanged(cfg, s, a, c);
      }
    }
  }

  lemma {:induction false} RunKeepsCycle(cfg: Config, s: Sup, actions: seq<Action>)
    requires VmInv(cfg, s) && CidsInCycle(cfg, s) && RunOk(cfg, s, actions)
    ensures VmInv(cfg, Last(Run(cfg, s, actions))) && CidsInCycle(cfg, Last(Run(cfg, s, actions)))
    decreases |actions|
  {
    if actions != [] {
      var t := Apply(cfg, s, actions[0]);
      StepKeepsVms(cfg, s, actions[0]);
      StepKeepsCycle(cfg, s, actions[0]);
      RunKeepsCycle(cfg, t, actions[1..]);
      assert Last(Run(cfg, s, actions)) == Last(Run(cfg, t, actions[1..]));
    }
  }

  /** Without orphans and without crashes there are never orphans, hence no sharing. */
  lemma {:induction false} NoOrphansNoSharing(cfg: Config, s: Sup, actions: seq<Action>, t: Sup, v: Vmm, w: Vmm)
    requires VmInv(cfg, s) && CrashFree(actions) && Reaches(cfg, s, actions, t)
    requires s.host.vmms !! s.orphans
    ensures !Shares(t, v, w)
    decreases |actions|
  {
    if actions == [] {
      assert Distinct(s);
    } else {
      ReachesHead(cfg, s, actions, t);
      var u := Apply(cfg, s, actions[0]);
      StepKeepsVms(cfg, s, actions[0]);
      assert !actions[0].Crash?;
      StaysApart(cfg, s, actions[0]);
      NoOrphansNoSharing(cfg, u, actions[1..], t, v, w);
    }
  }

  lemma StaysApart(cfg: Config, s: Sup, a: Action)
    requires s.host.vmms !! s.orphans && Enabled(cfg, s, a) && !a.Crash?
    ensures Apply(cfg, s, a).host.vmms !! Apply(cfg, s, a).orphans
  {
    var t := Apply(cfg, s, a);
    assert t.orphans <= s.orphans;
    forall v | v in t.host.vmms ensures v !in t.orphans {
      if !Starts(cfg, s, a, v) {
        LiveBefore(cfg, s, a, v);
      }
    }
  }

  /** The state at the end of a reconciliation. */
  lemma RecoveryEnds(cfg: Config, s: Sup, actions: seq<Action>) returns (u: Sup)
    requires Init(cfg, s) && RunOk(cfg, s, actions)
    requires actions != [] && actions[|actions| - 1].EndRecovery?
    ensures VmInv(cfg, u) && u.mode == Recovering([]) && Last(Run(cfg, s, actions)) == u.(mode := Serving)
    ensures VmInv(cfg, Last(Run(cfg, s, actions))) && CidsInCycle(cfg, Last(Run(cfg, s, actions)))
  {
    InitVms(cfg, s);
    RunKeepsVms(cfg, s, actions);
    RunKeepsCycle(cfg, s, actions);
    StepAt(cfg, s, actions, |actions| - 1);
    u := Run(cfg, s, actions)[|actions| - 1];
  }

  /** All VMMs that outlast a reconciliation are orphans. */
  lemma AllOrphans(cfg: Config, u: Sup)
    requires CoreInv(cfg, u) && u.mode == Recovering([])
    ensures u.host.vmms <= u.orphans
  {
    forall v | v in u.host.vmms ensures v in u.orphans {
      assert !KillDue(u.records, [], v);
      assert Answered(u, v) == KillDue(u.records, [], v);
    }
  }

  /** Whenever a reconciliation completes, in a run with any crashes: two live VMMs can come to share
      a CID if and only if some VMM has outlived a crash at which no record named it. */
  lemma SharingIffOrphan(cfg: Config, s: Sup, actions: seq<Action>)
    requires Init(cfg, s) && RunOk(cfg, s, actions)
    requires actions != [] && actions[|actions| - 1].EndRecovery?
    ensures CanShare(cfg, Last(Run(cfg, s, actions)))
       <==> exists v, i :: OutlivesCrash(Run(cfg, s, actions), actions, i, |actions|, v)
  {
    var u := RecoveryEnds(cfg, s, actions);
    AllOrphans(cfg, u);
    var run, t := Run(cfg, s, actions), Last(Run(cfg, s, actions));
    if v, i :| OutlivesCrash(run, actions, i, |actions|, v) {
      assert v in t.host.vmms && t.next == cfg.min;
      var a, z, w := ShareLater(cfg, t, v);
      assert CanShare(cfg, t);
    } else {
      forall v | v in t.host.vmms ensures false {
        var i := OrphanSince(cfg, s, actions, |actions|, v);
      }
      NeverShares(cfg, t);
    }
  }

  lemma NeverShares(cfg: Config, t: Sup)
    requires VmInv(cfg, t) && t.host.vmms == {}
    ensures !CanShare(cfg, t)
  {
    forall actions, z, v, w | CrashFree(actions) && Reaches(cfg, t, actions, z) ensures !Shares(z, v, w) {
      NoOrphansNoSharing(cfg, t, actions, z, v, w);
    }
  }

  /** A crash during a boot, with no record of anything. */
  lemma CrashRun(cfg: Config, s: Sup, before: seq<Action>, t: Sup) returns (actions: seq<Action>, u: Sup)
    requires Reaches(cfg, s, before, t) && t.records == map[]
    ensures Reaches(cfg, s, actions, u) && Rested(u) && u.next == cfg.min && u.host == t.host
  {
    var t1 := Apply(cfg, t, Crash);
    ReachStep(cfg, s, before, t, Crash);
    assert Lists([], t1.records) && SweepProgram([], t1.records) == [];
    var t2 := Apply(cfg, t1, BeginRecovery([]));
    ReachStep(cfg, s, before + [Crash], t1, BeginRecovery([]));
    ReachStep(cfg, s, before + [Crash] + [BeginRecovery([])], t2, EndRecovery);
    actions, u := before + [Crash] + [BeginRecovery([])] + [EndRecovery], Apply(cfg, t2, EndRecovery);
  }

  /** For every configuration that has a CID to give there is such a run: a launch, a crash before its Save, a complete
      reconciliation, and another launch. */
  lemma CrashSharesCid(cfg: Config, s: Sup) returns (actions: seq<Action>, t: Sup, v: Vmm, w: Vmm)
    requires Init(cfg, s) && Total(cfg.min, cfg.max) > 0
    ensures RunOk(cfg, s, actions) && Last(Run(cfg, s, actions)) == t && Shares(t, v, w)
  {
    var b, s' := NextBoot(cfg, s);
    var p := Program(b.kind);
    BootingRun(cfg, s, b, s', 5);
    v := VmOf(b);
    assert p[..5][4] == StartVm;
    EffectsElsewhere(cfg, s.host, p[..5], v);
    var a, u := CrashRun(cfg, s, Start(b) + Times(Do(b.c, b.pid), 5), BootAt(cfg, s', b, p, 5));
    var z;
    z, t, w := ShareLater(cfg, u, v);
    ReachTrans(cfg, s, a, u, z, t);
    actions := a + z;
    ReachesIsRun(cfg, s, actions, t);
  }
}
