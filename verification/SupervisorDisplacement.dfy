/** Displaced instances: two boots of one id that overlap both pass the duplicate check, the later
    insertion replaces the earlier instance in the map, and nothing answers for that one again. */
module SupervisorDisplacement {
  import opened Wrappers
  import opened CidAllocator
  import opened SupervisorModel
  import opened SupervisorCids
  import opened SupervisorSerial
  import opened SupervisorVms

  // ---- it lasts ----

  lemma DisplacedGrows(cfg: Config, s: Sup, a: Action)
    requires Enabled(cfg, s, a) && !a.Crash?
    ensures s.displaced <= Apply(cfg, s, a).displaced
  {
  }

  /** In every run without a crash a displaced instance stays displaced and its CID in use: it is
      lost to the process for good. */
  lemma {:induction false} DisplacedLasts(cfg: Config, s: Sup, actions: seq<Action>, i: nat)
    requires Conserved(s) && RunOk(cfg, s, actions) && CrashFree(actions) && i < |s.displaced|
    ensures var t := Last(Run(cfg, s, actions)); s.displaced <= t.displaced && s.displaced[i].cid in t.used
    decreases |actions|
  {
    if actions == [] {
      HoldersDistinct(s, ByDisplaced(i), ByDisplaced(i), s.displaced[i].cid);
    } else {
      var u := Apply(cfg, s, actions[0]);
      assert !actions[0].Crash?;
      StepConserves(cfg, s, actions[0]);
      DisplacedGrows(cfg, s, actions[0]);
      DisplacedLasts(cfg, u, actions[1..], i);
      assert Last(Run(cfg, s, actions)) == Last(Run(cfg, u, actions[1..]));
    }
  }

  // ---- exactly when boots under way can cause it ----

  predicate IsBooting(s: Sup, c: nat) {
    c in s.calls && s.calls[c].Booting?
  }

  predicate Twins(s: Sup, c: nat, d: nat) {
    IsBooting(s, c) && IsBooting(s, d) && c != d && s.calls[c].id == s.calls[d].id
  }

  /** A boot overlaps another of the same id, still under way or already inserted. */
  ghost predicate Overlapped(s: Sup, c: nat) {
    IsBooting(s, c) && (s.calls[c].id in s.inst || exists d :: Twins(s, c, d))
  }

  /** Steps by which boots under way finish. */
  predicate Finishing(actions: seq<Action>) {
    forall i :: 0 <= i < |actions| ==> actions[i].Do? || actions[i].Insert?
  }

  ghost predicate CanDisplace(cfg: Config, s: Sup) {
    exists actions, t :: Finishing(actions) && Reaches(cfg, s, actions, t) && t.displaced != []
  }

  lemma FinishingKeepsApart(cfg: Config, s: Sup, a: Action)
    requires Enabled(cfg, s, a) && (a.Do? || a.Insert?) && s.displaced == [] && forall c :: !Overlapped(s, c)
    ensures Apply(cfg, s, a).displaced == [] && forall c :: !Overlapped(Apply(cfg, s, a), c)
  {
    var t := Apply(cfg, s, a);
    assert !Overlapped(s, a.c);
    forall c ensures !Overlapped(t, c) {
      assert !Overlapped(s, c);
      if IsBooting(t, c) {
        assert IsBooting(s, c) && s.calls[c].id == t.calls[c].id;
        forall d ensures !Twins(t, c, d) {
          assert !Twins(s, c, d);
        }
        assert !Twins(s, a.c, c);
      }
    }
  }

  lemma {:induction false} NoOverlapNoDisplacement(cfg: Config, s: Sup, actions: seq<Action>, t: Sup)
    requires Finishing(actions) && Reaches(cfg, s, actions, t) && s.displaced == [] && forall c :: !Overlapped(s, c)
    ensures t.displaced == []
    decreases |actions|
  {
    if actions != [] {
      ReachesHead(cfg, s, actions, t);
      FinishingKeepsApart(cfg, s, actions[0]);
      NoOverlapNoDisplacement(cfg, Apply(cfg, s, actions[0]), actions[1..], t);
    }
  }

  /** `t` is `s` with all operations of boot `c` done, and nothing else changed but the host. */
  ghost predicate Finished(s: Sup, t: Sup, c: nat) {
    && IsBooting(s, c) && IsBooting(t, c) && t.calls[c].ops == [] && t.calls[c].pid.Some?
    && t.calls[c].id == s.calls[c].id && t.calls - {c} == s.calls - {c} && t.inst == s.inst && t.displaced == s.displaced
  }

  lemma DoOne(cfg: Config, s: Sup, c: nat) returns (pid: nat)
    requires IsBooting(s, c) && s.calls[c].ops != [] && BootsInv(s)
    ensures Enabled(cfg, s, Do(c, pid))
    ensures var t := Apply(cfg, s, Do(c, pid));
            && BootsInv(t) && IsBooting(t, c) && t.calls[c].ops == s.calls[c].ops[1..] && t.calls[c].id == s.calls[c].id
            && t.calls - {c} == s.calls - {c} && t.inst == s.inst && t.displaced == s.displaced
  {
    pid := NewPid(s.host.vmms);
    StepKeepsBoots(cfg, s, Do(c, pid));
  }

  lemma {:induction false} FinishOps(cfg: Config, s: Sup, c: nat) returns (actions: seq<Action>, t: Sup)
    requires IsBooting(s, c) && BootsInv(s)
    ensures Finishing(actions) && Reaches(cfg, s, actions, t) && BootsInv(t) && Finished(s, t, c)
    decreases |s.calls[c].ops|
  {
    assert BootInv(s.calls[c]);
    if s.calls[c].ops == [] {
      actions, t := [], s;
    } else {
      var pid := DoOne(cfg, s, c);
      var u := Apply(cfg, s, Do(c, pid));
      var rest;
      rest, t := FinishOps(cfg, u, c);
      OneStep(cfg, s, Do(c, pid));
      ReachTrans(cfg, s, [Do(c, pid)], u, rest, t);
      actions := [Do(c, pid)] + rest;
    }
  }

  lemma InsertOne(cfg: Config, s: Sup, c: nat)
    requires IsBooting(s, c) && s.calls[c].ops == [] && s.calls[c].pid.Some? && BootsInv(s)
    ensures Enabled(cfg, s, Insert(c))
    ensures var t := Apply(cfg, s, Insert(c));
            && BootsInv(t) && s.calls[c].id in t.inst && t.calls - {c} == s.calls - {c}
            && (s.calls[c].id in s.inst ==> t.displaced != [])
  {
    StepKeepsBoots(cfg, s, Insert(c));
  }

  /** A boot under way can finish and be inserted, over whatever is there. */
  lemma FinishBootOf(cfg: Config, s: Sup, c: nat) returns (actions: seq<Action>, t: Sup)
    requires IsBooting(s, c) && BootsInv(s)
    ensures Finishing(actions) && Reaches(cfg, s, actions, t) && BootsInv(t)
    ensures s.calls[c].id in t.inst && t.calls - {c} == s.calls - {c}
    ensures s.calls[c].id in s.inst ==> t.displaced != []
  {
    var ops, u := FinishOps(cfg, s, c);
    InsertOne(cfg, u, c);
    ReachStep(cfg, s, ops, u, Insert(c));
    actions, t := ops + [Insert(c)], Apply(cfg, u, Insert(c));
  }

  lemma OverlapDisplaces(cfg: Config, s: Sup, c: nat) returns (actions: seq<Action>, t: Sup)
    requires BootsInv(s) && Overlapped(s, c)
    ensures Finishing(actions) && Reaches(cfg, s, actions, t) && t.displaced != []
  {
    if s.calls[c].id in s.inst {
      actions, t := FinishBootOf(cfg, s, c);
    } else {
      var d :| Twins(s, c, d);
      var a, u := FinishBootOf(cfg, s, c);
      assert d in s.calls - {c} && u.calls[d] == (u.calls - {c})[d] == s.calls[d];
      var b;
      b, t := FinishBootOf(cfg, u, d);
      ReachTrans(cfg, s, a, u, b, t);
      actions := a + b;
    }
  }

  /** From a state with nothing displaced, the boots that hold a CID, left to finish, can displace an
      instance if and only if one of them overlaps another boot of the same id. */
  lemma DisplacesIffOverlap(cfg: Config, s: Sup)
    requires BootsInv(s) && s.displaced == []
    ensures CanDisplace(cfg, s) <==> exists c :: Overlapped(s, c)
  {
    if c :| Overlapped(s, c) {
      var actions, t := OverlapDisplaces(cfg, s, c);
      assert CanDisplace(cfg, s);
    } else {
      forall actions, t | Finishing(actions) && Reaches(cfg, s, actions, t) ensures t.displaced == [] {
        NoOverlapNoDisplacement(cfg, s, actions, t);
      }
    }
  }

  // ---- it is reachable ----

  /** Two launches of one id, both past the duplicate check and with a CID each. */
  lemma TwinsReachable(cfg: Config, s: Sup, id: Id) returns (actions: seq<Action>, t: Sup)
    requires Init(cfg, s) && Total(cfg.min, cfg.max) >= 2
    ensures Reaches(cfg, s, actions, t) && Twins(t, 0, 1) && BootsInv(t) && CrashFree(actions)
  {
    TwoFree(cfg);
    FirstAdmitted(cfg);
    var next := Succ(cfg.min, cfg.max, cfg.min);
    var p, b := Program(Launch), Boot(0, Launch, id, 1, cfg.min, 0);
    var u := BootAt(cfg, s.(next := next, used := {cfg.min}, saved := {}), b, p, 0);
    StartRun(cfg, s, b, s.(next := next, used := {cfg.min}, saved := {}));
    var d := Boot(1, Launch, id, 1, next, 1);
    var last := Scan(cfg.min, cfg.max, next, {cfg.min}, Total(cfg.min, cfg.max)).1;
    var v := u.(next := last, used := {cfg.min} + {next}, saved := {} - {id});
    StartRun(cfg, u, d, v);
    t := BootAt(cfg, v, d, p, 0);
    ReachTrans(cfg, s, Start(b), u, Start(d), t);
    actions := Start(b) + Start(d);
    FreshShape(Launch);
    assert p[0..] == p && p[..0] == [];
  }

  lemma TwoFree(cfg: Config)
    requires Total(cfg.min, cfg.max) >= 2
    ensures var next := Succ(cfg.min, cfg.max, cfg.min);
            && Scan(cfg.min, cfg.max, cfg.min, {}, Total(cfg.min, cfg.max)) == (Some(cfg.min), next)
            && Scan(cfg.min, cfg.max, next, {cfg.min}, Total(cfg.min, cfg.max)).0 == Some(next)
  {
    OffsetSucc(cfg.min, cfg.max, cfg.min);
    assert Succ(cfg.min, cfg.max, cfg.min) != cfg.min;
  }

  /** For every configuration with two CIDs to give and every id a run from the initial state, without
      a crash, displaces an instance; by DisplacedLasts nothing but a crash undoes it. */
  lemma DisplacementReachable(cfg: Config, s: Sup, id: Id) returns (actions: seq<Action>, t: Sup)
    requires Init(cfg, s) && Total(cfg.min, cfg.max) >= 2
    ensures RunOk(cfg, s, actions) && Last(Run(cfg, s, actions)) == t && CrashFree(actions)
    ensures t.displaced != [] && t.displaced[0].cid in t.used
  {
    var a, u := TwinsReachable(cfg, s, id);
    assert Overlapped(u, 0);
    var b;
    b, t := OverlapDisplaces(cfg, u, 0);
    ReachTrans(cfg, s, a, u, b, t);
    actions := a + b;
    ReachesIsRun(cfg, s, actions, t);
    InitConserved(cfg, s);
    CidsConserved(cfg, s, actions);
    assert Conserved(t);
    HoldersDistinct(t, ByDisplaced(0), ByDisplaced(0), t.displaced[0].cid);
  }
}
