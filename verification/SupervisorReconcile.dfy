/** Reconciliation as a program: its result in closed form, and restarts after a crash. */
module SupervisorReconcile {
  import opened SupervisorModel

  /** Effect of a list of sweeps; `applied` says which record deletions take effect. */
  function ApplySweeps(h: Host, records: map<Id, Record>, sweeps: seq<Sweep>, applied: Id -> bool)
    : (Host, map<Id, Record>)
    decreases |sweeps|
  {
    if sweeps == [] then (h, records)
    else
      var w := sweeps[0];
      ApplySweeps(SweepEffect(h, w), SweepRecords(records, w, applied(w.id)), sweeps[1..], applied)
  }

  /** The host without anything that the records name. */
  function Recovered(h: Host, records: map<Id, Record>): Host {
    Host(h.dirs - records.Keys,
         h.leaves - records.Keys,
         set id | id in h.chroots && !(id in records && records[id].chroot),
         set v | v in h.vmms && forall id :: id in records ==> records[id].pid != v.pid)
  }

  /** The host holds nothing that this record names. */
  ghost predicate Cleared(h: Host, id: Id, r: Record) {
    id !in h.dirs && id !in h.leaves && (r.chroot ==> id !in h.chroots) && PidFree(h, r.pid)
  }

  lemma {:induction false} ApplyConcat(h: Host, records: map<Id, Record>, a: seq<Sweep>, b: seq<Sweep>, applied: Id -> bool)
    ensures var m := ApplySweeps(h, records, a, applied);
            ApplySweeps(h, records, a + b, applied) == ApplySweeps(m.0, m.1, b, applied)
    decreases |a|
  {
    if a == [] {
      assert a + b == b;
    } else {
      assert (a + b)[1..] == a[1..] + b;
      ApplyConcat(SweepEffect(h, a[0]), SweepRecords(records, a[0], applied(a[0].id)), a[1..], b, applied);
    }
  }

  /** A sweep of something a present record names leaves the final outcome unchanged. */
  predicate Named(records: map<Id, Record>, w: Sweep) {
    && w.id in records && !w.SweepRecord?
    && (w.Kill? ==> records[w.id].pid == w.pid)
    && (w.SweepChroot? ==> records[w.id].chroot)
  }

  lemma NamedSweepHarmless(h: Host, records: map<Id, Record>, w: Sweep)
    requires Named(records, w)
    ensures Recovered(SweepEffect(h, w), records) == Recovered(h, records)
  {
    var g := SweepEffect(h, w);
    assert Recovered(g, records).vmms == Recovered(h, records).vmms;
    assert Recovered(g, records).chroots == Recovered(h, records).chroots;
    assert Recovered(g, records).dirs == Recovered(h, records).dirs;
    assert Recovered(g, records).leaves == Recovered(h, records).leaves;
  }

  lemma ForgetHarmless(h: Host, records: map<Id, Record>, id: Id)
    requires id in records && Cleared(h, id, records[id])
    ensures Recovered(h, records - {id}) == Recovered(h, records)
  {
    var rest := records - {id};
    assert Recovered(h, rest).dirs == Recovered(h, records).dirs;
    assert Recovered(h, rest).leaves == Recovered(h, records).leaves;
    assert Recovered(h, rest).chroots == Recovered(h, records).chroots;
    forall v | v in h.vmms
      ensures (forall x :: x in rest ==> rest[x].pid != v.pid) <==> (forall x :: x in records ==> records[x].pid != v.pid)
    {
      if forall x :: x in rest ==> rest[x].pid != v.pid {
        forall x | x in records ensures records[x].pid != v.pid {
          assert x != id ==> x in rest;
        }
      } else {
        var x :| x in rest && rest[x].pid == v.pid;
        assert x in records && records[x].pid == v.pid;
      }
    }
  }

  lemma {:induction false} NamedRunHarmless(h: Host, records: map<Id, Record>, sweeps: seq<Sweep>, applied: Id -> bool)
    requires forall i :: 0 <= i < |sweeps| ==> Named(records, sweeps[i])
    ensures var m := ApplySweeps(h, records, sweeps, applied);
            m.1 == records && Recovered(m.0, records) == Recovered(h, records)
    decreases |sweeps|
  {
    if sweeps != [] {
      NamedSweepHarmless(h, records, sweeps[0]);
      NamedRunHarmless(SweepEffect(h, sweeps[0]), records, sweeps[1..], applied);
    }
  }

  /** The block of one record without its final deletion. */
  function Resources(id: Id, r: Record): seq<Sweep> {
    [Kill(id, r.pid), SweepLeaf(id)] + (if r.chroot then [SweepChroot(id)] else []) + [SweepDir(id)]
  }

  lemma BlockClears(h: Host, records: map<Id, Record>, id: Id, applied: Id -> bool)
    requires id in records
    ensures Cleared(ApplySweeps(h, records, Resources(id, records[id]), applied).0, id, records[id])
  {
    var r := records[id];
    var p := Resources(id, r);
    var h1 := SweepEffect(h, p[0]);
    var h2 := SweepEffect(h1, p[1]);
    assert ApplySweeps(h, records, p, applied) == ApplySweeps(h1, records, p[1..], applied);
    assert p[1..][1..] == p[2..];
    assert ApplySweeps(h1, records, p[1..], applied) == ApplySweeps(h2, records, p[2..], applied);
    if r.chroot {
      var h3 := SweepEffect(h2, SweepChroot(id));
      assert p[2..] == [SweepChroot(id), SweepDir(id)];
      assert p[2..][1..] == [SweepDir(id)];
      assert ApplySweeps(h3, records, [SweepDir(id)], applied) == (SweepEffect(h3, SweepDir(id)), records);
    } else {
      assert p[2..] == [SweepDir(id)];
      assert ApplySweeps(h2, records, [SweepDir(id)], applied) == (SweepEffect(h2, SweepDir(id)), records);
    }
  }

  /** Cut anywhere, the block of one record does not change the final outcome. */
  lemma BlockHarmless(h: Host, records: map<Id, Record>, id: Id, k: nat, applied: Id -> bool)
    requires id in records && k <= |SweepsOf(id, records[id])|
    ensures var m := ApplySweeps(h, records, SweepsOf(id, records[id])[..k], applied);
            && Recovered(m.0, m.1) == Recovered(h, records)
            && (m.1 == records || m.1 == records - {id})
            && (k == |SweepsOf(id, records[id])| ==> Cleared(m.0, id, records[id]))
  {
    var r := records[id];
    var block, res := SweepsOf(id, r), Resources(id, r);
    assert block == res + [SweepRecord(id)];
    if k <= |res| {
      assert block[..k] == res[..k];
      NamedRunHarmless(h, records, res[..k], applied);
    } else {
      assert block[..k] == res + [SweepRecord(id)];
      NamedRunHarmless(h, records, res, applied);
      BlockClears(h, records, id, applied);
      ApplyConcat(h, records, res, [SweepRecord(id)], applied);
      var m := ApplySweeps(h, records, res, applied);
      var forgotten := SweepRecords(records, SweepRecord(id), applied(id));
      assert ApplySweeps(m.0, m.1, [SweepRecord(id)], applied) == (m.0, forgotten) by {
        assert [SweepRecord(id)][1..] == [];
      }
      if applied(id) {
        ForgetHarmless(m.0, records, id);
      }
    }
  }

  ghost predicate Agrees(order: seq<Id>, records: map<Id, Record>, all: map<Id, Record>) {
    forall i :: 0 <= i < |order| ==> order[i] in records && order[i] in all && records[order[i]] == all[order[i]]
  }

  predicate Distinct(order: seq<Id>) {
    forall i, j :: 0 <= i < j < |order| ==> order[i] != order[j]
  }

  lemma {:induction false} ProgramHarmless(h: Host, records: map<Id, Record>, order: seq<Id>, all: map<Id, Record>,
                                           k: nat, applied: Id -> bool)
    requires Agrees(order, records, all) && Distinct(order) && k <= |SweepProgram(order, all)|
    ensures var m := ApplySweeps(h, records, SweepProgram(order, all)[..k], applied);
            Recovered(m.0, m.1) == Recovered(h, records) && m.1.Keys <= records.Keys
            && forall id :: id in m.1 ==> m.1[id] == records[id]
    decreases |order|
  {
    if order != [] {
      var id := order[0];
      var block, rest := SweepsOf(id, all[id]), SweepProgram(order[1..], all);
      var program := SweepProgram(order, all);
      if k <= |block| {
        assert program[..k] == block[..k];
        BlockHarmless(h, records, id, k, applied);
      } else {
        assert program[..k] == block + rest[..k - |block|];
        assert block[..|block|] == block;
        BlockHarmless(h, records, id, |block|, applied);
        ApplyConcat(h, records, block, rest[..k - |block|], applied);
        var m := ApplySweeps(h, records, block, applied);
        assert id !in order[1..];
        ProgramHarmless(m.0, m.1, order[1..], all, k - |block|, applied);
      }
    }
  }

  /** Sweeps never bring a resource back. */
  lemma {:induction false} ClearedStays(h: Host, records: map<Id, Record>, sweeps: seq<Sweep>, id: Id, r: Record,
                                        applied: Id -> bool)
    requires Cleared(h, id, r)
    ensures Cleared(ApplySweeps(h, records, sweeps, applied).0, id, r)
    decreases |sweeps|
  {
    if sweeps != [] {
      var w := sweeps[0];
      ClearedStays(SweepEffect(h, w), SweepRecords(records, w, applied(w.id)), sweeps[1..], id, r, applied);
    }
  }

  lemma {:induction false} ProgramClears(h: Host, records: map<Id, Record>, order: seq<Id>, all: map<Id, Record>,
                                         id: Id, applied: Id -> bool)
    requires Agrees(order, records, all) && Distinct(order) && id in order
    ensures Cleared(ApplySweeps(h, records, SweepProgram(order, all), applied).0, id, all[id])
    decreases |order|
  {
    var x := order[0];
    var block, rest := SweepsOf(x, all[x]), SweepProgram(order[1..], all);
    assert block[..|block|] == block;
    BlockHarmless(h, records, x, |block|, applied);
    ApplyConcat(h, records, block, rest, applied);
    var m := ApplySweeps(h, records, block, applied);
    if id == x {
      ClearedStays(m.0, m.1, rest, id, all[id], applied);
    } else {
      assert x !in order[1..];
      ProgramClears(m.0, m.1, order[1..], all, id, applied);
    }
  }

  lemma NothingNamedLeft(h: Host, records: map<Id, Record>)
    requires forall id :: id in records ==> Cleared(h, id, records[id])
    ensures Recovered(h, records) == h
  {
    var g := Recovered(h, records);
    assert g.dirs == h.dirs && g.leaves == h.leaves;
    assert g.chroots == h.chroots;
    assert g.vmms == h.vmms;
  }

  /** A complete reconciliation, in any listing order and whichever record deletions take
      effect, leaves exactly the host resources that no record named. */
  lemma ReconcileResult(h: Host, records: map<Id, Record>, order: seq<Id>, applied: Id -> bool)
    requires Lists(order, records)
    ensures var m := ApplySweeps(h, records, SweepProgram(order, records), applied);
            m.0 == Recovered(h, records) && forall id :: id in m.1 ==> id in records && m.1[id] == records[id]
  {
    var p := SweepProgram(order, records);
    var m := ApplySweeps(h, records, p, applied);
    assert p[..|p|] == p;
    ProgramHarmless(h, records, order, records, |p|, applied);
    forall id | id in m.1 ensures Cleared(m.0, id, m.1[id]) {
      ProgramClears(h, records, order, records, id, applied);
    }
    NothingNamedLeft(m.0, m.1);
  }

  /** Re-running reconciliation after a crash at any point inside it reaches the same host as
      an uninterrupted one. */
  lemma ReconcileRestartable(h: Host, records: map<Id, Record>, first: seq<Id>, k: nat, applied: Id -> bool,
                             second: seq<Id>, applied': Id -> bool)
    requires Lists(first, records) && k <= |SweepProgram(first, records)|
    requires Lists(second, ApplySweeps(h, records, SweepProgram(first, records)[..k], applied).1)
    ensures var m := ApplySweeps(h, records, SweepProgram(first, records)[..k], applied);
            var whole := ApplySweeps(h, records, SweepProgram(first, records), applied);
            ApplySweeps(m.0, m.1, SweepProgram(second, m.1), applied').0 == whole.0
  {
    var m := ApplySweeps(h, records, SweepProgram(first, records)[..k], applied);
    ProgramHarmless(h, records, first, records, k, applied);
    ReconcileResult(m.0, m.1, second, applied');
    ReconcileResult(h, records, first, applied);
  }
}
