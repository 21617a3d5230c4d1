/** Stop and resume (internal/orchestrator/snapshot.go): files, guests, captures and restores.

    Paths are relative to the state directory: a sandbox's disk is <id>/rootfs.ext4, a
    snapshot's files are snapshots/<snap>/mem.img and disk.img.  The memory image stands for
    memory and device state together.  Operations on one sandbox id do not overlap. */
module Snapshots {

  type Id = string
  type Image = nat
  type Path = seq<string>

  const SNAPSHOTS := "snapshots"

  function DiskPath(id: Id): Path {
    [id, "rootfs.ext4"]
  }

  function SnapMem(snap: string): Path {
    [SNAPSHOTS, snap, "mem.img"]
  }

  function SnapDisk(snap: string): Path {
    [SNAPSHOTS, snap, "disk.img"]
  }

  /** os.RemoveAll: the directory and everything below it. */
  function RemoveAll(files: map<Path, Image>, dir: Path): map<Path, Image> {
    map p | p in files && !(dir <= p) :: files[p]
  }

  datatype Guest = Guest(mem: Image, paused: bool)

  /** Guest memory together with its disk. */
  datatype Moment = Moment(mem: Image, disk: Image)

  /** A stop-with-snapshot call after its pause; `taken` is the guest's state at the pause. */
  datatype Capture = Capture(id: Id, snap: string, memSaved: bool, taken: Moment)

  /** `captures` and `restores` are the calls in flight, a restore being one whose disk copy is
      in place.  `names` are the snapshot names drawn so far; `captured` is the history of
      completed snapshots and `deleted` the ones deleted since. */
  datatype Sys = Sys(files: map<Path, Image>, guests: map<Id, Guest>, captures: map<nat, Capture>,
                     restores: map<Id, string>, names: set<string>, captured: map<string, Moment>,
                     deleted: set<string>)

  datatype Action =
    | Launch(id: Id, golden: Image, mem: Image)
    | Write(id: Id, mem: Image, disk: Image)
    | Pause(c: nat, id: Id, snap: string)
    | SaveMem(c: nat)
    | CopyDisk(c: nat)
    | CaptureFails(c: nat)
    | Terminate(id: Id)
    | CopyBack(id: Id, snap: string)
    | StartRestored(id: Id)
    | RestoreFails(id: Id)
    | Delete(snap: string)

  predicate Busy(s: Sys, id: Id) {
    exists c :: c in s.captures && s.captures[c].id == id
  }

  /** No guest and no restore of this id. */
  predicate Idle(s: Sys, id: Id) {
    id !in s.guests && id !in s.restores
  }

  predicate Running(s: Sys, id: Id) {
    id in s.guests && DiskPath(id) in s.files
  }

  function Current(s: Sys, id: Id): Moment
    requires Running(s, id)
  {
    Moment(s.guests[id].mem, s.files[DiskPath(id)])
  }

  predicate Enabled(s: Sys, a: Action) {
    match a
    case Launch(id, _, _) => Idle(s, id)
    case Write(id, _, _) => Running(s, id) && !s.guests[id].paused
    case Pause(c, id, snap) => c !in s.captures && Running(s, id) && !Busy(s, id) && snap !in s.names
    case SaveMem(c) => c in s.captures && !s.captures[c].memSaved && Running(s, s.captures[c].id)
    case CopyDisk(c) => c in s.captures && s.captures[c].memSaved && Running(s, s.captures[c].id)
    case CaptureFails(c) => c in s.captures
    case Terminate(id) => id in s.guests && !Busy(s, id)
    case CopyBack(id, snap) => Idle(s, id) && snap in s.captured && SnapDisk(snap) in s.files
    case StartRestored(id) => id in s.restores && SnapMem(s.restores[id]) in s.files
    case RestoreFails(id) => id in s.restores
    case Delete(snap) => snap in s.captured
  }

  function Apply(s: Sys, a: Action): Sys
    requires Enabled(s, a)
  {
    match a
    case Launch(id, golden, mem) =>
      s.(files := s.files[DiskPath(id) := golden], guests := s.guests[id := Guest(mem, false)])
    case Write(id, mem, disk) =>
      s.(files := s.files[DiskPath(id) := disk], guests := s.guests[id := Guest(mem, false)])
    case Pause(c, id, snap) =>
      s.(guests := s.guests[id := s.guests[id].(paused := true)], names := s.names + {snap},
         captures := s.captures[c := Capture(id, snap, false, Current(s, id))])
    case SaveMem(c) =>
      var k := s.captures[c];
      s.(files := s.files[SnapMem(k.snap) := s.guests[k.id].mem], captures := s.captures[c := k.(memSaved := true)])
    case CopyDisk(c) =>
      var k := s.captures[c];
      s.(files := s.files[SnapDisk(k.snap) := s.files[DiskPath(k.id)]], captures := s.captures - {c},
         captured := s.captured[k.snap := k.taken])
    case CaptureFails(c) =>
      s.(files := RemoveAll(s.files, [SNAPSHOTS, s.captures[c].snap]), captures := s.captures - {c})
    case Terminate(id) => s.(files := RemoveAll(s.files, [id]), guests := s.guests - {id})
    case CopyBack(id, snap) =>
      s.(files := s.files[DiskPath(id) := s.files[SnapDisk(snap)]], restores := s.restores[id := snap])
    case StartRestored(id) =>
      s.(guests := s.guests[id := Guest(s.files[SnapMem(s.restores[id])], false)], restores := s.restores - {id})
    case RestoreFails(id) => s.(files := RemoveAll(s.files, [id]), restores := s.restores - {id})
    case Delete(snap) =>
      s.(files := RemoveAll(s.files, [SNAPSHOTS, snap]), deleted := s.deleted + {snap})
  }

  /** No sandbox is named after the snapshot directory. */
  predicate IdOk(a: Action) {
    (a.Launch? || a.Terminate? || a.CopyBack? || a.Write? || a.Pause?) ==> a.id != SNAPSHOTS
  }

  predicate RunOk(s: Sys, actions: seq<Action>)
    decreases |actions|
  {
    actions == [] || (Enabled(s, actions[0]) && IdOk(actions[0]) && RunOk(Apply(s, actions[0]), actions[1..]))
  }

  function End(s: Sys, actions: seq<Action>): Sys
    requires RunOk(s, actions)
    decreases |actions|
  {
    if actions == [] then s else End(Apply(s, actions[0]), actions[1..])
  }

  function Init(): Sys {
    Sys(map[], map[], map[], map[], {}, map[], {})
  }

  // ---- the invariant ----

  predicate MemIs(files: map<Path, Image>, snap: string, mem: Image) {
    SnapMem(snap) in files && files[SnapMem(snap)] == mem
  }

  predicate DiskIs(files: map<Path, Image>, path: Path, disk: Image) {
    path in files && files[path] == disk
  }

  /** The snapshot's files hold this pair. */
  predicate Stored(files: map<Path, Image>, snap: string, m: Moment) {
    MemIs(files, snap, m.mem) && DiskIs(files, SnapDisk(snap), m.disk)
  }

  predicate Gone(files: map<Path, Image>, snap: string) {
    SnapMem(snap) !in files && SnapDisk(snap) !in files
  }

  /** A completed snapshot holds its pair until it is deleted, and is never written again. */
  ghost predicate SnapInv(s: Sys, snap: string)
    requires snap in s.captured
  {
    && snap in s.names
    && (if snap in s.deleted then Gone(s.files, snap) else Stored(s.files, snap, s.captured[snap]))
  }

  /** During a capture the guest stays frozen in the state it was paused in. */
  ghost predicate CaptureInv(s: Sys, c: nat)
    requires c in s.captures
  {
    var k := s.captures[c];
    && k.id != SNAPSHOTS && k.snap in s.names && k.snap !in s.captured && k.snap !in s.deleted
    && k.id in s.guests && s.guests[k.id] == Guest(k.taken.mem, true)
    && DiskIs(s.files, DiskPath(k.id), k.taken.disk)
    && (k.memSaved ==> MemIs(s.files, k.snap, k.taken.mem))
  }

  /** A restore in flight has the snapshot's disk in place, even if the snapshot is gone by now. */
  ghost predicate RestoreInv(s: Sys, id: Id)
    requires id in s.restores
  {
    && id != SNAPSHOTS && id !in s.guests && s.restores[id] in s.captured
    && DiskIs(s.files, DiskPath(id), s.captured[s.restores[id]].disk)
  }

  ghost predicate Apart(s: Sys, c: nat, d: nat)
    requires c in s.captures && d in s.captures
  {
    s.captures[c].id != s.captures[d].id && s.captures[c].snap != s.captures[d].snap
  }

  ghost predicate Inv(s: Sys) {
    && s.deleted <= s.captured.Keys
    && (forall snap :: snap in s.captured ==> SnapInv(s, snap))
    && (forall c :: c in s.captures ==> CaptureInv(s, c))
    && (forall id :: id in s.restores ==> RestoreInv(s, id))
    && (forall c, d :: c in s.captures && d in s.captures && c != d ==> Apart(s, c, d))
  }

  // ---- which paths an operation leaves alone ----

  /** A path survives the removal of a directory it is not in. */
  predicate Same(files: map<Path, Image>, after: map<Path, Image>, p: Path) {
    (p in files <==> p in after) && (p in files ==> files[p] == after[p])
  }

  lemma PathsApart(id: Id, other: Id, snap: string, snap': string)
    ensures DiskPath(id) != SnapMem(snap) && DiskPath(id) != SnapDisk(snap) && SnapMem(snap) != SnapDisk(snap')
    ensures id != other ==> DiskPath(id) != DiskPath(other)
    ensures snap != snap' ==> SnapMem(snap) != SnapMem(snap') && SnapDisk(snap) != SnapDisk(snap')
  {
    assert |DiskPath(id)| == 2 && DiskPath(id)[0] == id && DiskPath(other)[0] == other;
    assert |SnapMem(snap)| == 3 && SnapMem(snap)[1] == snap && SnapMem(snap)[2] == "mem.img" && SnapMem(snap')[1] == snap';
    assert |SnapDisk(snap)| == 3 && SnapDisk(snap)[1] == snap && SnapDisk(snap')[2] == "disk.img" && SnapDisk(snap')[1] == snap';
    assert SnapMem(snap)[2] != SnapDisk(snap')[2];
  }

  /** Removing a sandbox's directory touches no snapshot and no other sandbox's disk. */
  lemma RemoveSandbox(files: map<Path, Image>, id: Id, snap: string, other: Id)
    requires id != SNAPSHOTS
    ensures Same(files, RemoveAll(files, [id]), SnapMem(snap)) && Same(files, RemoveAll(files, [id]), SnapDisk(snap))
    ensures id != other ==> Same(files, RemoveAll(files, [id]), DiskPath(other))
  {
    assert SnapMem(snap)[0] == SNAPSHOTS && SnapDisk(snap)[0] == SNAPSHOTS && DiskPath(other)[0] == other;
  }

  /** Removing a snapshot's directory removes its files and touches no sandbox's disk and no other snapshot. */
  lemma RemoveSnapshot(files: map<Path, Image>, snap: string, other: string, id: Id)
    requires id != SNAPSHOTS
    ensures var after := RemoveAll(files, [SNAPSHOTS, snap]);
            && Gone(after, snap) && Same(files, after, DiskPath(id))
            && (snap != other ==> Same(files, after, SnapMem(other)) && Same(files, after, SnapDisk(other)))
  {
    assert DiskPath(id)[0] == id;
    assert SnapMem(other)[1] == other && SnapDisk(other)[1] == other;
    assert [SNAPSHOTS, snap] <= SnapMem(snap) && [SNAPSHOTS, snap] <= SnapDisk(snap);
  }

  // ---- preservation ----

  lemma StepKeepsSnap(s: Sys, a: Action, snap: string)
    requires Inv(s) && Enabled(s, a) && IdOk(a) && snap in Apply(s, a).captured
    ensures SnapInv(Apply(s, a), snap)
  {
    if a.SaveMem? || a.CopyDisk? || a.CaptureFails? {
      CapturesKeepSnap(s, a, snap);
    } else {
      assert SnapInv(s, snap);
      match a
      case Launch(id, _, _) => PathsApart(id, id, snap, snap);
      case Write(id, _, _) => PathsApart(id, id, snap, snap);
      case CopyBack(id, _) => PathsApart(id, id, snap, snap);
      case Terminate(id) => RemoveSandbox(s.files, id, snap, id);
      case RestoreFails(id) =>
        assert RestoreInv(s, id);
        RemoveSandbox(s.files, id, snap, id);
      case Delete(other) => RemoveSnapshot(s.files, other, snap, "");
      case Pause(_, _, _) =>
      case StartRestored(_) =>
    }
  }

  lemma CapturesKeepSnap(s: Sys, a: Action, snap: string)
    requires Inv(s) && Enabled(s, a) && snap in Apply(s, a).captured && (a.SaveMem? || a.CopyDisk? || a.CaptureFails?)
    ensures SnapInv(Apply(s, a), snap)
  {
    var other := s.captures[a.c].snap;
    assert CaptureInv(s, a.c);
    if snap in s.captured {
      assert SnapInv(s, snap);
    }
    PathsApart("", "", snap, other);
    PathsApart("", "", other, snap);
    RemoveSnapshot(s.files, other, snap, "");
  }

  lemma CapturedNamed(s: Sys)
    requires Inv(s)
    ensures s.captured.Keys <= s.names
  {
    forall snap | snap in s.captured
      ensures snap in s.names
    {
      assert SnapInv(s, snap);
    }
  }

  /** A step of another sandbox, or of another snapshot, leaves a capture alone. */
  lemma OthersKeepCapture(s: Sys, a: Action, c: nat)
    requires Inv(s) && Enabled(s, a) && IdOk(a) && c in s.captures
    requires a.Launch? || a.Write? || a.CopyBack? || a.StartRestored? || a.Delete?
    ensures c in Apply(s, a).captures && CaptureInv(Apply(s, a), c)
  {
    var k := s.captures[c];
    assert CaptureInv(s, c);
    match a
    case Launch(id, _, _) => PathsApart(id, k.id, k.snap, k.snap);
    case Write(id, _, _) => PathsApart(id, k.id, k.snap, k.snap);
    case CopyBack(id, _) => PathsApart(id, k.id, k.snap, k.snap);
    case StartRestored(id) => assert RestoreInv(s, id);
    case Delete(other) => RemoveSnapshot(s.files, other, k.snap, k.id);
  }

  lemma RemovalsKeepCapture(s: Sys, a: Action, c: nat)
    requires Inv(s) && Enabled(s, a) && IdOk(a) && c in s.captures
    requires a.Terminate? || a.RestoreFails? || (a.CaptureFails? && a.c != c)
    ensures c in Apply(s, a).captures && CaptureInv(Apply(s, a), c)
  {
    var k := s.captures[c];
    assert CaptureInv(s, c);
    match a
    case Terminate(id) => RemoveSandbox(s.files, id, k.snap, k.id);
    case RestoreFails(id) =>
      assert RestoreInv(s, id);
      RemoveSandbox(s.files, id, k.snap, k.id);
    case CaptureFails(d) =>
      assert CaptureInv(s, d) && Apart(s, c, d);
      RemoveSnapshot(s.files, s.captures[d].snap, k.snap, k.id);
  }

  lemma CapturesKeepCapture(s: Sys, a: Action, c: nat)
    requires Inv(s) && Enabled(s, a) && IdOk(a) && c in Apply(s, a).captures
    requires a.Pause? || a.SaveMem? || a.CopyDisk?
    ensures CaptureInv(Apply(s, a), c)
  {
    var k := Apply(s, a).captures[c];
    if c in s.captures {
      assert CaptureInv(s, c);
    }
    match a
    case Pause(_, _, _) => CapturedNamed(s);
    case SaveMem(d) =>
      assert CaptureInv(s, d) && (c != d ==> Apart(s, c, d));
      PathsApart(k.id, k.id, s.captures[d].snap, k.snap);
    case CopyDisk(d) =>
      assert CaptureInv(s, d) && Apart(s, c, d);
      PathsApart(k.id, k.id, k.snap, s.captures[d].snap);
  }

  lemma StepKeepsCapture(s: Sys, a: Action, c: nat)
    requires Inv(s) && Enabled(s, a) && IdOk(a) && c in Apply(s, a).captures
    ensures CaptureInv(Apply(s, a), c)
  {
    if a.Pause? || a.SaveMem? || a.CopyDisk? {
      CapturesKeepCapture(s, a, c);
    } else if a.Terminate? || a.RestoreFails? || a.CaptureFails? {
      RemovalsKeepCapture(s, a, c);
    } else {
      OthersKeepCapture(s, a, c);
    }
  }

  lemma StepKeepsRestore(s: Sys, a: Action, id: Id)
    requires Inv(s) && Enabled(s, a) && IdOk(a) && id in Apply(s, a).restores
    ensures RestoreInv(Apply(s, a), id)
  {
    if id in s.restores {
      assert RestoreInv(s, id);
    }
    if a.CopyBack? {
      assert SnapInv(s, a.snap);
      PathsApart(a.id, id, "", "");
    } else if a.Launch? || a.Write? {
      PathsApart(a.id, id, "", "");
    } else if a.Terminate? || a.RestoreFails? || a.StartRestored? {
      assert a.id in s.restores ==> RestoreInv(s, a.id);
      RemoveSandbox(s.files, a.id, "", id);
    } else {
      CapturesKeepRestore(s, a, id);
    }
  }

  lemma CapturesKeepRestore(s: Sys, a: Action, id: Id)
    requires Inv(s) && Enabled(s, a) && id in s.restores && RestoreInv(s, id)
    requires a.Pause? || a.SaveMem? || a.CopyDisk? || a.CaptureFails? || a.Delete?
    ensures id in Apply(s, a).restores && RestoreInv(Apply(s, a), id)
  {
    match a
    case Delete(other) => RemoveSnapshot(s.files, other, "", id);
    case CaptureFails(c) => RemoveSnapshot(s.files, s.captures[c].snap, "", id);
    case SaveMem(c) => PathsApart(id, id, s.captures[c].snap, "");
    case CopyDisk(c) =>
      assert CaptureInv(s, c);
      PathsApart(id, id, s.captures[c].snap, "");
    case Pause(_, _, _) =>
  }

  lemma StepKeepsApart(s: Sys, a: Action, c: nat, d: nat)
    requires Inv(s) && Enabled(s, a) && c != d && c in Apply(s, a).captures && d in Apply(s, a).captures
    ensures Apart(Apply(s, a), c, d)
  {
    if c in s.captures && d in s.captures {
      assert Apart(s, c, d);
    } else {
      var other := if c in s.captures then c else d;
      assert CaptureInv(s, other);
    }
  }

  lemma StepKeepsInv(s: Sys, a: Action)
    requires Inv(s) && Enabled(s, a) && IdOk(a)
    ensures Inv(Apply(s, a))
  {
    var t := Apply(s, a);
    forall snap | snap in t.captured
      ensures SnapInv(t, snap)
    {
      StepKeepsSnap(s, a, snap);
    }
    forall c | c in t.captures
      ensures CaptureInv(t, c)
    {
      StepKeepsCapture(s, a, c);
    }
    forall id | id in t.restores
      ensures RestoreInv(t, id)
    {
      StepKeepsRestore(s, a, id);
    }
    forall c, d | c in t.captures && d in t.captures && c != d
      ensures Apart(t, c, d)
    {
      StepKeepsApart(s, a, c, d);
    }
  }

  lemma {:induction false} RunKeepsInv(s: Sys, actions: seq<Action>)
    requires Inv(s) && RunOk(s, actions)
    ensures Inv(End(s, actions))
    decreases |actions|
  {
    if actions != [] {
      StepKeepsInv(s, actions[0]);
      RunKeepsInv(Apply(s, actions[0]), actions[1..]);
    }
  }

  /** A completed snapshot's pair is never replaced. */
  lemma {:induction false} CapturedStable(s: Sys, actions: seq<Action>, snap: string)
    requires Inv(s) && RunOk(s, actions) && snap in s.captured
    ensures snap in End(s, actions).captured && End(s, actions).captured[snap] == s.captured[snap]
    decreases |actions|
  {
    if actions != [] {
      var a := actions[0];
      if a.CopyDisk? {
        assert CaptureInv(s, a.c);
      }
      StepKeepsInv(s, a);
      CapturedStable(Apply(s, a), actions[1..], snap);
    }
  }

  // ---- stop and resume ----

  /** In every run: when a capture completes, the snapshot's files hold the guest's memory and disk
      of that very instant, which are those of the instant of the pause. */
  lemma OneInstant(before: seq<Action>, c: nat)
    requires RunOk(Init(), before) && Enabled(End(Init(), before), CopyDisk(c))
    ensures var s := End(Init(), before);
            var k := s.captures[c];
            Current(s, k.id) == k.taken && Stored(Apply(s, CopyDisk(c)).files, k.snap, k.taken)
  {
    var s := End(Init(), before);
    RunKeepsInv(Init(), before);
    assert CaptureInv(s, c);
    StepKeepsSnap(s, CopyDisk(c), s.captures[c].snap);
  }

  /** In every run: however the sandboxes write, stop, fail and restart after a capture, and even if
      the snapshot is deleted while a restore of it is under way, a restore that starts begins from
      exactly the guest state at the instant of the capture. */
  lemma ResumeExact(before: seq<Action>, c: nat, after: seq<Action>, id: Id)
    requires RunOk(Init(), before) && Enabled(End(Init(), before), CopyDisk(c))
    requires RunOk(Apply(End(Init(), before), CopyDisk(c)), after)
    requires var u := End(Apply(End(Init(), before), CopyDisk(c)), after);
             Enabled(u, StartRestored(id)) && u.restores[id] == End(Init(), before).captures[c].snap
    ensures var s := End(Init(), before);
            var v := Apply(End(Apply(s, CopyDisk(c)), after), StartRestored(id));
            Running(v, id) && Current(v, id) == Current(s, s.captures[c].id)
  {
    var s := End(Init(), before);
    var snap := s.captures[c].snap;
    OneInstant(before, c);
    RunKeepsInv(Init(), before);
    StepKeepsInv(s, CopyDisk(c));
    var t := Apply(s, CopyDisk(c));
    RunKeepsInv(t, after);
    CapturedStable(t, after, snap);
    assert RestoreInv(End(t, after), id) && SnapInv(End(t, after), snap);
  }

  /** In every run: a completed snapshot can be restored under any idle id for as long as it is not
      deleted, so any number of times. */
  lemma StaysRestorable(actions: seq<Action>, snap: string, id: Id)
    requires RunOk(Init(), actions) && Idle(End(Init(), actions), id) && snap in End(Init(), actions).captured
    ensures Enabled(End(Init(), actions), CopyBack(id, snap)) <==> snap !in End(Init(), actions).deleted
  {
    RunKeepsInv(Init(), actions);
    assert SnapInv(End(Init(), actions), snap);
  }

  /** In every run: a restore whose disk copy is in place can start for as long as its snapshot is not
      deleted, and from then on cannot. */
  lemma RestoreCanStart(actions: seq<Action>, id: Id)
    requires RunOk(Init(), actions) && id in End(Init(), actions).restores
    ensures var t := End(Init(), actions); Enabled(t, StartRestored(id)) <==> t.restores[id] !in t.deleted
  {
    var t := End(Init(), actions);
    RunKeepsInv(Init(), actions);
    assert RestoreInv(t, id) && SnapInv(t, t.restores[id]);
  }

  /** Terminating a sandbox keeps a snapshot exactly when the sandbox is not called `snapshots`. */
  lemma TerminateKeepsSnapshotIff(s: Sys, id: Id, snap: string, m: Moment)
    requires Enabled(s, Terminate(id)) && Stored(s.files, snap, m)
    ensures Stored(Apply(s, Terminate(id)).files, snap, m) <==> id != SNAPSHOTS
  {
    if id == SNAPSHOTS {
      assert [id] <= SnapMem(snap);
    } else {
      RemoveSandbox(s.files, id, snap, id);
    }
  }

  // ---- the calls, run without interruption ----

  /** The files after a successful stop: the pair is stored and the sandbox's directory is gone. */
  function StopFiles(files: map<Path, Image>, id: Id, snap: string, mem: Image): map<Path, Image>
    requires DiskPath(id) in files
  {
    RemoveAll(files[SnapMem(snap) := mem][SnapDisk(snap) := files[DiskPath(id)]], [id])
  }

  /** An uninterrupted stop is this run of the machine. */
  lemma StopIsRun(s: Sys, c: nat, id: Id, snap: string)
    requires Inv(s) && IdOk(Terminate(id)) && Enabled(s, Pause(c, id, snap))
    ensures var run := [Pause(c, id, snap), SaveMem(c), CopyDisk(c), Terminate(id)];
            && RunOk(s, run) && End(s, run).files == StopFiles(s.files, id, snap, s.guests[id].mem)
            && End(s, run).guests == s.guests - {id} && End(s, run).captures == s.captures
            && End(s, run).captured == s.captured[snap := Current(s, id)]
  {
    var s1, s2, s3 := StopSteps(s, c, id, snap);
    var run := [SaveMem(c), CopyDisk(c), Terminate(id)];
    FirstStep(s3, Terminate(id), []);
    FirstStep(s2, CopyDisk(c), [Terminate(id)]);
    FirstStep(s1, SaveMem(c), [CopyDisk(c), Terminate(id)]);
    FirstStep(s, Pause(c, id, snap), run);
    assert [Terminate(id)] + [] == [Terminate(id)] && [CopyDisk(c)] + [Terminate(id)] == [CopyDisk(c), Terminate(id)];
    assert [SaveMem(c)] + [CopyDisk(c), Terminate(id)] == run;
    assert [Pause(c, id, snap)] + run == [Pause(c, id, snap), SaveMem(c), CopyDisk(c), Terminate(id)];
  }

  lemma FirstStep(s: Sys, a: Action, rest: seq<Action>)
    requires Enabled(s, a) && IdOk(a) && RunOk(Apply(s, a), rest)
    ensures RunOk(s, [a] + rest) && End(s, [a] + rest) == End(Apply(s, a), rest)
  {
    assert ([a] + rest)[0] == a && ([a] + rest)[1..] == rest;
  }

  /** The states of an uninterrupted stop. */
  lemma StopSteps(s: Sys, c: nat, id: Id, snap: string) returns (s1: Sys, s2: Sys, s3: Sys)
    requires IdOk(Terminate(id)) && Enabled(s, Pause(c, id, snap))
    ensures s1 == Apply(s, Pause(c, id, snap)) && Enabled(s1, SaveMem(c)) && s2 == Apply(s1, SaveMem(c))
    ensures Enabled(s2, CopyDisk(c)) && s3 == Apply(s2, CopyDisk(c)) && Enabled(s3, Terminate(id))
    ensures var s4 := Apply(s3, Terminate(id));
            && s4.files == StopFiles(s.files, id, snap, s.guests[id].mem) && s4.guests == s.guests - {id}
            && s4.captures == s.captures && s4.captured == s.captured[snap := Current(s, id)]
  {
    PathsApart(id, id, snap, snap);
    s1 := Apply(s, Pause(c, id, snap));
    s2 := Apply(s1, SaveMem(c));
    s3 := Apply(s2, CopyDisk(c));
    assert s3.captures == s.captures;
    assert Apply(s3, Terminate(id)).guests == s.guests - {id};
  }

  datatype Stage = AtMkdir | AtPause | AtCreate | AtCopy | Never

  datatype RestoreStage = RestoreMkdir | RestoreCopy | RestoreStart | NoFault

  /** The state directory and the guests of one host. */
  class Host {
    var files: map<Path, Image>
    var guests: map<Id, Guest>

    constructor ()
      ensures files == map[] && guests == map[]
    {
      files, guests := map[], map[];
    }

    /** `fails` is the host operation that fails. */
    method CreatePausedWithDisk(id: Id, snap: string, fails: Stage) returns (ok: bool)
      requires id in guests && id != SNAPSHOTS && DiskPath(id) in files
      modifies this
      ensures ok <==> fails == Never
      ensures ok ==> Stored(files, snap, Moment(old(guests[id].mem), old(files[DiskPath(id)])))
      ensures forall p :: p != SnapMem(snap) && p != SnapDisk(snap) ==> Same(old(files), files, p) || (!ok && [SNAPSHOTS, snap] <= p)
      ensures !ok && fails != AtMkdir ==> forall p :: p in files ==> !([SNAPSHOTS, snap] <= p)
      ensures fails == AtMkdir ==> files == old(files)
      ensures guests == if fails == AtMkdir || fails == AtPause then old(guests) else old(guests)[id := old(guests[id]).(paused := true)]
      ensures ok ==> RemoveAll(files, [id]) == StopFiles(old(files), id, snap, old(guests[id].mem))
    {
      var dir := [SNAPSHOTS, snap];
      PathsApart(id, id, snap, snap);
      ok := false;
      if fails == AtMkdir {
        return;
      }
      if fails == AtPause {
        files := RemoveAll(files, dir);
        return;
      }
      guests := guests[id := guests[id].(paused := true)];
      if fails == AtCreate {
        files := RemoveAll(files, dir);
        return;
      }
      files := files[SnapMem(snap) := guests[id].mem];
      if fails == AtCopy {
        files := RemoveAll(files, dir);
        return;
      }
      files := files[SnapDisk(snap) := files[DiskPath(id)]];
      ok := true;
    }

    /** A failed capture leaves the sandbox in place; a successful one removes it. */
    method StopWithSnapshot(id: Id, snap: string, fails: Stage) returns (ok: bool)
      requires id in guests ==> id != SNAPSHOTS && DiskPath(id) in files
      modifies this
      ensures ok <==> old(id in guests) && fails == Never
      ensures old(id !in guests) ==> files == old(files) && guests == old(guests)
      ensures ok ==> guests == old(guests) - {id} && files == StopFiles(old(files), id, snap, old(guests[id].mem))
      ensures ok ==> Stored(files, snap, Moment(old(guests[id].mem), old(files[DiskPath(id)])))
      ensures !ok && old(id in guests) ==> id in guests && DiskPath(id) in files && (fails != AtMkdir ==> Gone(files, snap))
      ensures !ok && old(id in guests) ==> guests[id].mem == old(guests[id].mem) && files[DiskPath(id)] == old(files[DiskPath(id)])
    {
      if id !in guests {
        return false;
      }
      ok := CreatePausedWithDisk(id, snap, fails);
      if ok {
        RemoveSandbox(files, id, snap, id);
        guests := guests - {id};
        files := RemoveAll(files, [id]);
      } else {
        assert [SNAPSHOTS, snap] <= SnapMem(snap) && [SNAPSHOTS, snap] <= SnapDisk(snap);
        PathsApart(id, id, snap, snap);
        assert [SNAPSHOTS, snap][0] != DiskPath(id)[0];
        assert Same(old(files), files, DiskPath(id));
      }
    }

    /** The disk copy and the start of a restore; the resource side of the call is Supervisor.Boot.
        Without the state directory nothing changes; a later failure removes it. */
    method LoadSnapshot(id: Id, snap: string, fails: RestoreStage) returns (ok: bool)
      requires id !in guests && id != SNAPSHOTS
      modifies this
      ensures ok <==> fails == NoFault && old(SnapMem(snap) in files && SnapDisk(snap) in files)
      ensures ok ==> guests == old(guests)[id := Guest(old(files[SnapMem(snap)]), false)]
      ensures ok ==> files == old(files)[DiskPath(id) := old(files[SnapDisk(snap)])]
      ensures !ok ==> guests == old(guests)
      ensures !ok ==> files == if fails == RestoreMkdir then old(files) else RemoveAll(old(files), [id])
      ensures forall m :: old(Stored(files, snap, m)) ==> Stored(files, snap, m)
    {
      PathsApart(id, id, snap, snap);
      RemoveSandbox(files, id, snap, id);
      if fails == RestoreMkdir {
        return false;
      }
      if fails == RestoreCopy || SnapDisk(snap) !in files {
        files := RemoveAll(files, [id]);
        return false;
      }
      files := files[DiskPath(id) := files[SnapDisk(snap)]];
      if fails == RestoreStart || SnapMem(snap) !in files {
        RemoveSandbox(files, id, snap, id);
        files := RemoveAll(files, [id]);
        assert [id] <= DiskPath(id);
        return false;
      }
      guests := guests[id := Guest(files[SnapMem(snap)], false)];
      return true;
    }
  }
}
