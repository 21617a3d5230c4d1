/** Conservation of CID ownership under all interleavings, failures and crashes. */
module SupervisorCids {
  import opened Wrappers
  import opened CidAllocator
  import opened SupervisorModel

  /** Who may hold a CID: a call in flight, a tracked instance, or an instance displaced from
      the map by an overlapping launch of the same id. */
  datatype Holder = ByCall(c: nat) | ByInstance(id: Id) | ByDisplaced(i: nat)

  /** The CID an undo program will free. */
  function CidIn(undo: seq<Undo>): Option<Cid> {
    if undo == [] then None else if undo[0].FreeCid? then Some(undo[0].cid) else CidIn(undo[1..])
  }

  predicate FreesOnce(undo: seq<Undo>) {
    undo == [] || (FreesOnce(undo[1..]) && (undo[0].FreeCid? ==> CidIn(undo[1..]).None?))
  }

  function CidOf(call: Call): Option<Cid> {
    match call
    case Booting(_, _, _, cid, _, _) => Some(cid)
    case Unwinding(_, _, _, undo) => CidIn(undo)
    case _ => None
  }

  predicate Holds(s: Sup, h: Holder, cid: Cid) {
    match h
    case ByCall(c) => c in s.calls && CidOf(s.calls[c]) == Some(cid)
    case ByInstance(id) => id in s.inst && s.inst[id].cid == cid
    case ByDisplaced(i) => i < |s.displaced| && s.displaced[i].cid == cid
  }

  /** `owner` witnesses that `used` is the disjoint union of what the holders hold. */
  ghost predicate OwnedBy(s: Sup, owner: map<Cid, Holder>) {
    && owner.Keys == s.used
    && (forall h, cid :: Holds(s, h, cid) <==> cid in owner && owner[cid] == h)
  }

  ghost predicate Conserved(s: Sup) {
    && (exists owner :: OwnedBy(s, owner))
    && AllFreeOnce(s)
  }

  predicate NoFree(undo: seq<Undo>) {
    forall i :: 0 <= i < |undo| ==> !undo[i].FreeCid?
  }

  lemma {:induction false} NoFreeHoldsNothing(undo: seq<Undo>)
    requires NoFree(undo)
    ensures FreesOnce(undo) && CidIn(undo).None?
  {
    if undo != [] {
      NoFreeHoldsNothing(undo[1..]);
    }
  }

  lemma {:induction false} SingleFree(pre: seq<Undo>, cid: Cid, post: seq<Undo>)
    requires NoFree(pre) && NoFree(post)
    ensures var u := pre + [FreeCid(cid)] + post; FreesOnce(u) && CidIn(u) == Some(cid)
  {
    var u := pre + [FreeCid(cid)] + post;
    if pre == [] {
      assert u[1..] == post;
      NoFreeHoldsNothing(post);
    } else {
      assert u[1..] == pre[1..] + [FreeCid(cid)] + post;
      SingleFree(pre[1..], cid, post);
    }
  }

  lemma OnFailureFreesOnce(cfg: Config, op: Op, cid: Cid, pid: Option<nat>)
    ensures var u := OnFailure(cfg, op, cid, pid); FreesOnce(u) && CidIn(u) == Some(cid)
  {
    var u := OnFailure(cfg, op, cid, pid);
    match op
    case MakeDir =>
      SingleFree([], cid, []);
      assert u == [] + [FreeCid(cid)] + [];
    case CopyDisk =>
      SingleFree([], cid, [RemoveDir]);
      assert u == [] + [FreeCid(cid)] + [RemoveDir];
    case MakeLeaf =>
      SingleFree([], cid, [RemoveDir]);
      assert u == [] + [FreeCid(cid)] + [RemoveDir];
    case _ =>
      SingleFree(StopOf(pid), cid, [RemoveLeaf, RemoveDir] + ChrootUndo(cfg));
      assert u == StopOf(pid) + [FreeCid(cid)] + ([RemoveLeaf, RemoveDir] + ChrootUndo(cfg));
  }

  lemma TeardownFreesOnce(cfg: Config, i: Inst)
    ensures var u := Teardown(cfg, i); FreesOnce(u) && CidIn(u) == Some(i.cid)
  {
    var post := [RemoveLeaf, RemoveDir] + ChrootUndo(cfg) + [Forget];
    SingleFree([StopVm(i.pid)], i.cid, post);
    assert Teardown(cfg, i) == [StopVm(i.pid)] + [FreeCid(i.cid)] + post;
  }

  /** Who owns what after the step. */
  function NextOwner(cfg: Config, s: Sup, a: Action, owner: map<Cid, Holder>): map<Cid, Holder>
    requires a.Insert? || a.Unwind? ==> a.c in s.calls
    requires a.Unwind? ==> s.calls[a.c].Unwinding? && s.calls[a.c].undo != []
    requires a.Insert? ==> s.calls[a.c].Booting?
    requires a.Terminate? ==> a.id in s.inst
  {
    match a
    case Allocate(c) =>
      var r := Scan(cfg.min, cfg.max, s.next, s.used, Total(cfg.min, cfg.max)).0;
      if r.Some? then owner[r.value := ByCall(c)] else owner
    case Insert(c) =>
      var id := s.calls[c].id;
      var moved := if id in s.inst then owner[s.inst[id].cid := ByDisplaced(|s.displaced|)] else owner;
      moved[s.calls[c].cid := ByInstance(id)]
    case Terminate(c, id) => owner[s.inst[id].cid := ByCall(c)]
    case Unwind(c, _) =>
      var u := s.calls[c].undo[0];
      if u.FreeCid? then owner - {u.cid} else owner
    case Crash => map[]
    case _ => owner
  }

  lemma InsertConserves(cfg: Config, s: Sup, a: Action, owner: map<Cid, Holder>)
    requires OwnedBy(s, owner) && Enabled(cfg, s, a) && a.Insert?
    ensures OwnedBy(Apply(cfg, s, a), NextOwner(cfg, s, a, owner))
  {
    var t, o := Apply(cfg, s, a), NextOwner(cfg, s, a, owner);
    var id, cid := s.calls[a.c].id, s.calls[a.c].cid;
    assert Holds(s, ByCall(a.c), cid);
    if id in s.inst {
      assert Holds(s, ByInstance(id), s.inst[id].cid);
    }
    forall h, k ensures Holds(t, h, k) <==> k in o && o[k] == h {
      assert Holds(s, h, k) <==> k in owner && owner[k] == h;
    }
  }

  lemma UnwindConserves(cfg: Config, s: Sup, a: Action, owner: map<Cid, Holder>)
    requires OwnedBy(s, owner) && Conserved(s) && Enabled(cfg, s, a) && a.Unwind?
    ensures OwnedBy(Apply(cfg, s, a), NextOwner(cfg, s, a, owner))
  {
    var t, o := Apply(cfg, s, a), NextOwner(cfg, s, a, owner);
    var undo := s.calls[a.c].undo;
    assert FreesOnce(undo) && (|undo| == 1 ==> undo[1..] == []);
    assert CidIn(undo) == if undo[0].FreeCid? then Some(undo[0].cid) else CidIn(undo[1..]);
    if undo[0].FreeCid? {
      assert Holds(s, ByCall(a.c), undo[0].cid);
    }
    forall h, k ensures Holds(t, h, k) <==> k in o && o[k] == h {
      assert Holds(s, h, k) <==> k in owner && owner[k] == h;
      if h != ByCall(a.c) {
        assert Holds(t, h, k) <==> Holds(s, h, k);
      } else if |undo| == 1 {
        assert !Holds(t, h, k);
      } else {
        assert CidOf(t.calls[a.c]) == CidIn(undo[1..]);
      }
    }
  }

  lemma AllocateConserves(cfg: Config, s: Sup, a: Action, owner: map<Cid, Holder>)
    requires OwnedBy(s, owner) && Conserved(s) && Enabled(cfg, s, a) && a.Allocate?
    ensures OwnedBy(Apply(cfg, s, a), NextOwner(cfg, s, a, owner))
  {
    ScanFresh(cfg.min, cfg.max, s.next, s.used, Total(cfg.min, cfg.max));
    var t, o := Apply(cfg, s, a), NextOwner(cfg, s, a, owner);
    forall h, k ensures Holds(t, h, k) <==> k in o && o[k] == h {
      assert Holds(s, h, k) <==> k in owner && owner[k] == h;
    }
  }

  /** A failing boot hands its CID to its own rollback. */
  lemma FailConserves(cfg: Config, s: Sup, a: Action, owner: map<Cid, Holder>)
    requires OwnedBy(s, owner) && Enabled(cfg, s, a) && a.Fail?
    ensures OwnedBy(Apply(cfg, s, a), owner)
  {
    var t, call := Apply(cfg, s, a), s.calls[a.c];
    OnFailureFreesOnce(cfg, call.ops[0], call.cid, if call.ops[0].StartVm? && a.partial then Some(a.pid) else call.pid);
    assert CidOf(t.calls[a.c]) == CidOf(call);
    forall h, k ensures Holds(t, h, k) <==> k in owner && owner[k] == h {
      assert Holds(s, h, k) <==> k in owner && owner[k] == h;
    }
  }

  lemma TerminateConserves(cfg: Config, s: Sup, a: Action, owner: map<Cid, Holder>)
    requires OwnedBy(s, owner) && Enabled(cfg, s, a) && a.Terminate?
    ensures OwnedBy(Apply(cfg, s, a), NextOwner(cfg, s, a, owner))
  {
    var t, o := Apply(cfg, s, a), NextOwner(cfg, s, a, owner);
    TeardownFreesOnce(cfg, s.inst[a.id]);
    assert Holds(s, ByInstance(a.id), s.inst[a.id].cid);
    forall h, k ensures Holds(t, h, k) <==> k in o && o[k] == h {
      assert Holds(s, h, k) <==> k in owner && owner[k] == h;
    }
  }

  predicate MovesCids(a: Action) {
    a.Insert? || a.Unwind? || a.Allocate? || a.Fail? || a.Terminate? || a.Crash?
  }

  lemma OtherConserves(cfg: Config, s: Sup, a: Action, owner: map<Cid, Holder>)
    requires OwnedBy(s, owner) && Enabled(cfg, s, a) && !MovesCids(a)
    ensures OwnedBy(Apply(cfg, s, a), owner)
  {
    var t := Apply(cfg, s, a);
    forall h, k ensures Holds(t, h, k) <==> Holds(s, h, k) {
    }
    assert t.used == s.used;
  }

  lemma StepConservesOwner(cfg: Config, s: Sup, a: Action, owner: map<Cid, Holder>)
    requires OwnedBy(s, owner) && Conserved(s) && Enabled(cfg, s, a)
    ensures OwnedBy(Apply(cfg, s, a), NextOwner(cfg, s, a, owner))
  {
    match a
    case Insert(_) => InsertConserves(cfg, s, a, owner);
    case Unwind(_, _) => UnwindConserves(cfg, s, a, owner);
    case Allocate(_) => AllocateConserves(cfg, s, a, owner);
    case Fail(_, _, _) => FailConserves(cfg, s, a, owner);
    case Terminate(_, _) => TerminateConserves(cfg, s, a, owner);
    case Crash =>
    case _ => OtherConserves(cfg, s, a, owner);
  }

  ghost predicate AllFreeOnce(s: Sup) {
    forall c :: c in s.calls && s.calls[c].Unwinding? ==> FreesOnce(s.calls[c].undo)
  }

  lemma StepKeepsFreeOnce(cfg: Config, s: Sup, a: Action)
    requires AllFreeOnce(s) && Enabled(cfg, s, a)
    ensures AllFreeOnce(Apply(cfg, s, a))
  {
    if a.Fail? {
      var call := s.calls[a.c];
      OnFailureFreesOnce(cfg, call.ops[0], call.cid, if call.ops[0].StartVm? && a.partial then Some(a.pid) else call.pid);
    } else if a.Terminate? {
      TeardownFreesOnce(cfg, s.inst[a.id]);
    } else if a.Unwind? {
      assert FreesOnce(s.calls[a.c].undo);
    }
  }

  lemma StepConserves(cfg: Config, s: Sup, a: Action)
    requires Conserved(s) && Enabled(cfg, s, a)
    ensures Conserved(Apply(cfg, s, a))
  {
    var owner :| OwnedBy(s, owner);
    StepConservesOwner(cfg, s, a, owner);
    StepKeepsFreeOnce(cfg, s, a);
  }

  /** In every reachable state `used` is the disjoint union of the CIDs held by calls in flight,
      tracked instances, instances being torn down, and displaced instances. */
  lemma {:induction false} CidsConserved(cfg: Config, s: Sup, actions: seq<Action>)
    requires Conserved(s) && RunOk(cfg, s, actions)
    ensures forall i :: 0 <= i <= |actions| ==> Conserved(Run(cfg, s, actions)[i])
    decreases |actions|
  {
    if actions != [] {
      StepConserves(cfg, s, actions[0]);
      CidsConserved(cfg, Apply(cfg, s, actions[0]), actions[1..]);
    }
  }

  lemma InitConserved(cfg: Config, s: Sup)
    requires Init(cfg, s)
    ensures Conserved(s)
  {
    assert OwnedBy(s, map[]);
  }

  /** So no two holders share a CID (SupervisorVms says the same of live VMMs)... */
  lemma HoldersDistinct(s: Sup, g: Holder, h: Holder, cid: Cid)
    requires Conserved(s) && Holds(s, g, cid) && Holds(s, h, cid)
    ensures g == h && cid in s.used
  {
    var owner :| OwnedBy(s, owner);
  }

  // ---- one free per allocation ----

  /** Net number of times the step marks `cid`: +1 when it allocates it, -1 when it frees it. */
  ghost function Delta(cfg: Config, s: Sup, a: Action, cid: Cid): int
    requires Enabled(cfg, s, a)
  {
    match a
    case Allocate(_) => if Scan(cfg.min, cfg.max, s.next, s.used, Total(cfg.min, cfg.max)).0 == Some(cid) then 1 else 0
    case Unwind(c, _) => if s.calls[c].undo[0] == FreeCid(cid) then -1 else 0
    case _ => 0
  }

  ghost function Balance(cfg: Config, s: Sup, actions: seq<Action>, cid: Cid): int
    requires RunOk(cfg, s, actions)
    decreases |actions|
  {
    if actions == [] then 0
    else Delta(cfg, s, actions[0], cid) + Balance(cfg, Apply(cfg, s, actions[0]), actions[1..], cid)
  }

  function Marked(s: Sup, cid: Cid): int {
    if cid in s.used then 1 else 0
  }

  lemma StepBalances(cfg: Config, s: Sup, a: Action, cid: Cid)
    requires Conserved(s) && Enabled(cfg, s, a) && !a.Crash?
    ensures Marked(s, cid) + Delta(cfg, s, a, cid) == Marked(Apply(cfg, s, a), cid)
  {
    if a.Allocate? {
      ScanFresh(cfg.min, cfg.max, s.next, s.used, Total(cfg.min, cfg.max));
    } else if a.Unwind? && s.calls[a.c].undo[0] == FreeCid(cid) {
      assert Holds(s, ByCall(a.c), cid);
      HoldersDistinct(s, ByCall(a.c), ByCall(a.c), cid);
    }
  }

  /** ... and each CID is freed exactly once per allocation: along every crash-free run the
      allocations minus the frees of a CID are 1 while it is in use and 0 otherwise. */
  lemma {:induction false} FreedOncePerAllocation(cfg: Config, s: Sup, actions: seq<Action>, cid: Cid)
    requires Conserved(s) && RunOk(cfg, s, actions)
    requires forall i :: 0 <= i < |actions| ==> !actions[i].Crash?
    ensures Marked(s, cid) + Balance(cfg, s, actions, cid) == Marked(Last(Run(cfg, s, actions)), cid)
    decreases |actions|
  {
    if actions != [] {
      var t := Apply(cfg, s, actions[0]);
      StepConserves(cfg, s, actions[0]);
      StepBalances(cfg, s, actions[0], cid);
      FreedOncePerAllocation(cfg, t, actions[1..], cid);
      assert Last(Run(cfg, s, actions)) == Last(Run(cfg, t, actions[1..]));
    }
  }

  // ---- displacement needs overlapping boots of one id ----

  ghost predicate NoTwins(s: Sup) {
    forall a, b :: a in s.calls && b in s.calls && a != b ==> s.calls[a].id != s.calls[b].id
  }

  ghost predicate BootsUntracked(s: Sup) {
    && s.displaced == []
    && forall c :: c in s.calls && (s.calls[c].Admitted? || s.calls[c].Booting?) ==> s.calls[c].id !in s.inst
  }

  lemma StepKeepsUntracked(cfg: Config, s: Sup, a: Action)
    requires BootsUntracked(s) && Enabled(cfg, s, a) && NoTwins(s)
    ensures BootsUntracked(Apply(cfg, s, a))
  {
  }

  /** Nothing is ever displaced, so no CID is leaked, when calls on one id do not overlap. */
  lemma {:induction false} NothingDisplaced(cfg: Config, s: Sup, actions: seq<Action>)
    requires BootsUntracked(s) && RunOk(cfg, s, actions)
    requires forall i :: 0 <= i <= |actions| ==> NoTwins(Run(cfg, s, actions)[i])
    ensures Last(Run(cfg, s, actions)).displaced == []
    decreases |actions|
  {
    if actions != [] {
      var t := Apply(cfg, s, actions[0]);
      var run, rest := Run(cfg, s, actions), Run(cfg, t, actions[1..]);
      assert run[0] == s;
      StepKeepsUntracked(cfg, s, actions[0]);
      forall i | 0 <= i <= |actions[1..]| ensures NoTwins(rest[i]) {
        assert run[i + 1] == rest[i];
      }
      NothingDisplaced(cfg, t, actions[1..]);
      assert Last(run) == Last(rest);
    }
  }
}
