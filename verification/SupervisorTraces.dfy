/** Where a tracked sandbox comes from: the host operations of its boot, found among the actions of the
    run.  The results hold for every interleaving, calls on one id and crashes included. */
module SupervisorTraces {
  import opened Wrappers
  import opened SupervisorModel

  /** The operations that Launch and LoadSnapshot perform. */
  predicate Performs(kind: Kind, op: Op) {
    match op
    case CheckContext => kind == Launch
    case CopyDisk => kind == Restore
    case Rekey => kind == Restore
    case _ => true
  }

  /** Their order in the source. */
  function Rank(op: Op): nat {
    match op
    case MakeDir => 0
    case CopyDisk => 1
    case MakeLeaf => 2
    case CheckContext => 3
    case NewMachine => 4
    case StartVm => 5
    case ReadPid => 6
    case Place => 7
    case Rekey => 8
  }

  lemma ProgramMeans(kind: Kind)
    ensures forall op :: op in Program(kind) <==> Performs(kind, op)
    ensures InOrder(Program(kind))
  {
    var p := Program(kind);
    assert p[0] == MakeDir && p[4] == StartVm && p[5] == ReadPid && p[6] == Place;
    if kind == Launch {
      assert p[1] == MakeLeaf && p[2] == CheckContext && p[3] == NewMachine;
    } else {
      assert p[1] == CopyDisk && p[2] == MakeLeaf && p[3] == NewMachine && p[7] == Rekey;
    }
  }

  // ---- one step ----

  /** The same boot, with less or more still to do. */
  predicate SameBoot(a: Call, b: Call) {
    a.Booting? && b.Booting? && a.kind == b.kind && a.id == b.id && a.mem == b.mem && a.cid == b.cid
  }

  /** The step performs the first operation that call `c` has left. */
  predicate DoesFirst(u: Sup, a: Action, t: Sup, c: nat) {
    && a.Do? && a.c == c && c in u.calls && c in t.calls && SameBoot(u.calls[c], t.calls[c])
    && u.calls[c].ops != [] && t.calls[c].ops == u.calls[c].ops[1..]
    && t.calls[c].pid == if u.calls[c].ops[0] == StartVm then Some(a.pid) else u.calls[c].pid
  }

  /** What a boot has left to do comes from its beginning or from performing one operation. */
  predicate BootLink(u: Sup, a: Action, t: Sup, c: nat) {
    c in t.calls && t.calls[c].Booting? ==>
      || (c in u.calls && u.calls[c] == t.calls[c])
      || (t.calls[c].ops == Program(t.calls[c].kind) && t.calls[c].pid == None)
      || DoesFirst(u, a, t, c)
  }

  lemma BootStepLink(cfg: Config, u: Sup, a: Action, c: nat)
    requires Enabled(cfg, u, a)
    ensures BootLink(u, a, Apply(cfg, u, a), c)
  {
  }

  /** A tracked instance was tracked before, or this step inserts it. */
  predicate InstLink(u: Sup, a: Action, t: Sup, id: Id) {
    id in t.inst ==>
      || (id in u.inst && u.inst[id] == t.inst[id])
      || (a.Insert? && a.c in u.calls && Holds(u.calls[a.c], t.inst[id]) && u.calls[a.c].ops == [])
  }

  /** The boot of instance `x`. */
  predicate Holds(call: Call, x: Inst) {
    call.Booting? && call.id == x.id && call.cid == x.cid && call.mem == x.mem && call.pid == Some(x.pid)
  }

  lemma InstStepLink(cfg: Config, u: Sup, a: Action, id: Id)
    requires Enabled(cfg, u, a)
    ensures InstLink(u, a, Apply(cfg, u, a), id)
  {
  }

  // ---- backwards through a run ----

  ghost predicate Linked(run: seq<Sup>, actions: seq<Action>, c: nat) {
    && |run| == |actions| + 1 && run[0].calls == map[]
    && forall k :: 0 <= k < |actions| ==> BootLink(run[k], actions[k], run[k + 1], c)
  }

  lemma LinkedRun(cfg: Config, s: Sup, actions: seq<Action>, c: nat)
    requires Init(cfg, s) && RunOk(cfg, s, actions)
    ensures Linked(Run(cfg, s, actions), actions, c)
  {
    var run := Run(cfg, s, actions);
    forall k | 0 <= k < |actions| ensures BootLink(run[k], actions[k], run[k + 1], c) {
      StepAt(cfg, s, actions, k);
      BootStepLink(cfg, run[k], actions[k], c);
    }
  }

  predicate Suffix(kind: Kind, ops: seq<Op>) {
    |ops| <= |Program(kind)| && ops == Program(kind)[|Program(kind)| - |ops|..]
  }

  lemma SuffixNext(kind: Kind, ops: seq<Op>)
    requires ops != [] && Suffix(kind, ops)
    ensures Suffix(kind, ops[1..])
  {
    var p := Program(kind);
    assert p[|p| - |ops|..][1..] == p[|p| - |ops| + 1..];
  }

  lemma {:induction false} SuffixAt(run: seq<Sup>, actions: seq<Action>, n: nat, c: nat)
    requires Linked(run, actions, c) && n <= |actions| && c in run[n].calls && run[n].calls[c].Booting?
    ensures Suffix(run[n].calls[c].kind, run[n].calls[c].ops)
    decreases n
  {
    assert n > 0;
    var u, a, t := run[n - 1], actions[n - 1], run[n];
    assert BootLink(u, a, run[n - 1 + 1], c);
    if c in u.calls && (u.calls[c] == t.calls[c] || DoesFirst(u, a, t, c)) {
      SuffixAt(run, actions, n - 1, c);
      if u.calls[c] != t.calls[c] {
        SuffixNext(u.calls[c].kind, u.calls[c].ops);
      }
    } else {
      assert t.calls[c].ops == Program(t.calls[c].kind)[0..];
    }
  }

  predicate InOrder(p: seq<Op>) {
    forall i, j :: 0 <= i < j < |p| ==> Rank(p[i]) < Rank(p[j])
  }

  lemma LaterInSuffix(p: seq<Op>, k: nat, op: Op, later: Op)
    requires InOrder(p) && k <= |p| && op in p[k..] && later in p && Rank(later) > Rank(op)
    ensures later in p[k..]
  {
    var i :| 0 <= i < |p[k..]| && p[k..][i] == op;
    var j :| 0 <= j < |p| && p[j] == later;
    assert p[k + i] == op;
    assert p[k..][j - k] == later;
  }

  /** While an operation is still to be done, so is every later one. */
  lemma SuffixRanks(kind: Kind, ops: seq<Op>, op: Op, later: Op)
    requires Suffix(kind, ops) && op in ops && Performs(kind, later) && Rank(later) > Rank(op)
    ensures later in ops
  {
    ProgramMeans(kind);
    LaterInSuffix(Program(kind), |Program(kind)| - |ops|, op, later);
  }

  /** Action `i` performs `op` for the boot `call`. */
  ghost predicate Did(run: seq<Sup>, actions: seq<Action>, i: int, c: nat, op: Op, call: Call)
    requires |run| == |actions| + 1
  {
    && 0 <= i < |actions| && actions[i].Do? && actions[i].c == c && c in run[i].calls && SameBoot(run[i].calls[c], call)
    && run[i].calls[c].ops != [] && run[i].calls[c].ops[0] == op
  }

  /** The VMM of a boot: started by this operation, or known to it. */
  ghost predicate PidAgrees(run: seq<Sup>, actions: seq<Action>, i: int, c: nat, op: Op, pid: Option<nat>)
    requires 0 <= i < |actions| && |run| == |actions| + 1 && actions[i].Do? && c in run[i].calls && run[i].calls[c].Booting?
  {
    (op == StartVm ==> pid == Some(actions[i].pid)) && (Rank(op) > Rank(StartVm) ==> run[i].calls[c].pid == pid)
  }

  /** What is no longer to be done has been done. */
  lemma {:induction false} DoneBack(run: seq<Sup>, actions: seq<Action>, n: nat, c: nat, op: Op) returns (i: int)
    requires Linked(run, actions, c) && n <= |actions| && c in run[n].calls && run[n].calls[c].Booting?
    requires Performs(run[n].calls[c].kind, op) && op !in run[n].calls[c].ops
    ensures i < n && Did(run, actions, i, c, op, run[n].calls[c])
    ensures PidAgrees(run, actions, i, c, op, run[n].calls[c].pid)
    decreases n
  {
    assert n > 0;
    var u, a, t := run[n - 1], actions[n - 1], run[n];
    assert BootLink(u, a, run[n - 1 + 1], c);
    ProgramMeans(t.calls[c].kind);
    if c in u.calls && u.calls[c] == t.calls[c] {
      i := DoneBack(run, actions, n - 1, c, op);
    } else {
      assert DoesFirst(u, a, t, c);
      if u.calls[c].ops[0] == op {
        i := n - 1;
      } else {
        DoneEarlier(run, actions, n - 1, c, op);
        i := DoneBack(run, actions, n - 1, c, op);
      }
    }
  }

  /** Then no operation before it is left either. */
  lemma DoneEarlier(run: seq<Sup>, actions: seq<Action>, m: nat, c: nat, op: Op)
    requires Linked(run, actions, c) && m <= |actions| && c in run[m].calls && run[m].calls[c].Booting?
    requires var call := run[m].calls[c]; call.ops != [] && call.ops[0] != op && op !in call.ops[1..] && Performs(call.kind, op)
    ensures op !in run[m].calls[c].ops
    ensures Rank(op) >= Rank(StartVm) ==> run[m].calls[c].ops[0] != StartVm
  {
    var call := run[m].calls[c];
    SuffixAt(run, actions, m, c);
    if Rank(op) > Rank(call.ops[0]) {
      SuffixRanks(call.kind, call.ops, call.ops[0], op);
    }
    assert forall x :: x in call.ops <==> x == call.ops[0] || x in call.ops[1..];
  }

  // ---- the laws ----

  /** In every run, a boot is inserted only after all its operations have been performed, in the order of
      the source, for the same id, CID and VMM. */
  lemma InsertedWasBuilt(cfg: Config, s: Sup, actions: seq<Action>, k: nat, c: nat, first: Op, second: Op)
    returns (i: int, j: int)
    requires Init(cfg, s) && RunOk(cfg, s, actions) && k < |actions| && actions[k] == Insert(c)
    requires c in Run(cfg, s, actions)[k].calls && Run(cfg, s, actions)[k].calls[c].Booting?
    requires var kind := Run(cfg, s, actions)[k].calls[c].kind; Performs(kind, first) && Performs(kind, second)
    requires Rank(first) < Rank(second)
    ensures var run := Run(cfg, s, actions);
            var call := run[k].calls[c];
            && i < j < k && Did(run, actions, i, c, first, call) && Did(run, actions, j, c, second, call)
            && (Rank(second) >= Rank(StartVm) ==> PidAgrees(run, actions, j, c, second, call.pid))
            && (Rank(second) > Rank(StartVm) ==> PidAgrees(run, actions, i, c, first, call.pid))
  {
    var run := Run(cfg, s, actions);
    LinkedRun(cfg, s, actions, c);
    StepAt(cfg, s, actions, k);
    j := DoneBack(run, actions, k, c, second);
    NotBefore(run, actions, j, c, first);
    i := DoneBack(run, actions, j, c, first);
  }

  lemma NotBefore(run: seq<Sup>, actions: seq<Action>, j: nat, c: nat, first: Op)
    requires Linked(run, actions, c) && j <= |actions| && c in run[j].calls && run[j].calls[c].Booting?
    requires run[j].calls[c].ops != [] && Rank(first) < Rank(run[j].calls[c].ops[0])
    ensures first !in run[j].calls[c].ops
  {
    var call := run[j].calls[c];
    SuffixAt(run, actions, j, c);
    forall x | 0 <= x < |call.ops| ensures call.ops[x] != first {
      SuffixOrder(call.kind, call.ops, x);
    }
  }

  lemma SuffixOrder(kind: Kind, ops: seq<Op>, x: nat)
    requires Suffix(kind, ops) && x < |ops|
    ensures Rank(ops[0]) <= Rank(ops[x])
  {
    var p := Program(kind);
    var k := |p| - |ops|;
    ProgramMeans(kind);
    assert ops[0] == p[k] && ops[x] == p[k + x];
  }

  lemma {:induction false} InsertedBack(run: seq<Sup>, actions: seq<Action>, n: nat, id: Id) returns (k: int)
    requires |run| == |actions| + 1 && n <= |actions| && run[0].inst == map[] && id in run[n].inst
    requires forall k :: 0 <= k < |actions| ==> InstLink(run[k], actions[k], run[k + 1], id)
    ensures 0 <= k < n && actions[k].Insert? && actions[k].c in run[k].calls
    ensures Holds(run[k].calls[actions[k].c], run[n].inst[id])
    decreases n
  {
    assert n > 0;
    assert InstLink(run[n - 1], actions[n - 1], run[n - 1 + 1], id);
    if id in run[n - 1].inst && run[n - 1].inst[id] == run[n].inst[id] {
      k := InsertedBack(run, actions, n - 1, id);
    } else {
      k := n - 1;
    }
  }

  /** In every run, a tracked instance was inserted by a boot with its id, CID, memory and pid. */
  lemma TrackedWasInserted(cfg: Config, s: Sup, actions: seq<Action>, n: nat, id: Id) returns (k: int)
    requires Init(cfg, s) && RunOk(cfg, s, actions) && n <= |actions| && id in Run(cfg, s, actions)[n].inst
    ensures var run := Run(cfg, s, actions);
            && 0 <= k < n && actions[k].Insert? && actions[k].c in run[k].calls
            && Holds(run[k].calls[actions[k].c], run[n].inst[id])
  {
    var run := Run(cfg, s, actions);
    forall k | 0 <= k < |actions| ensures InstLink(run[k], actions[k], run[k + 1], id) {
      StepAt(cfg, s, actions, k);
      InstStepLink(cfg, run[k], actions[k], id);
    }
    k := InsertedBack(run, actions, n, id);
  }

  /** So every tracked VMM is capped: its leaf was made before it was started, and it was moved into the
      leaf, by its pid, before it was tracked. */
  lemma TrackedIsCapped(cfg: Config, s: Sup, actions: seq<Action>, n: nat, id: Id)
    returns (c: nat, leaf: int, start: int, place: int)
    requires Init(cfg, s) && RunOk(cfg, s, actions) && n <= |actions| && id in Run(cfg, s, actions)[n].inst
    ensures var run := Run(cfg, s, actions);
            var x := run[n].inst[id];
            && 0 <= leaf < start < place < n && c in run[leaf].calls && c in run[start].calls && c in run[place].calls
            && Operates(run[leaf].calls[c], MakeLeaf, x) && actions[leaf].Do? && actions[leaf].c == c
            && Operates(run[start].calls[c], StartVm, x) && actions[start] == Do(c, x.pid)
            && Operates(run[place].calls[c], Place, x) && actions[place].Do? && actions[place].c == c
            && run[place].calls[c].pid == Some(x.pid)
  {
    var run := Run(cfg, s, actions);
    var k := TrackedWasInserted(cfg, s, actions, n, id);
    c := actions[k].c;
    LinkedRun(cfg, s, actions, c);
    start, place := InsertedWasBuilt(cfg, s, actions, k, c, StartVm, Place);
    NotBefore(run, actions, start, c, MakeLeaf);
    leaf := DoneBack(run, actions, start, c, MakeLeaf);
  }

  /** The boot of `x` is about to perform `op`. */
  predicate Operates(call: Call, op: Op, x: Inst) {
    call.Booting? && call.ops != [] && call.ops[0] == op && call.id == x.id && call.cid == x.cid && call.mem == x.mem
  }
}
