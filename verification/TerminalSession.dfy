/** One terminal session (internal/gateway/proxy.go, serve): what the client is shown, what the
    transcript keeps, and what is executed.

    The verdicts of the rate limiter and of the gate, and the frames of an execution, are part of
    the message that they answer.  A session ends when the client leaves.  Transcript appends and
    socket writes are best-effort: each may fail, and the session goes on. */
module TerminalSession {
  import opened Scripts
  import opened Sequences
  import opened Utf8
  import opened Framing
  import opened GuestAgent
  import opened VsockClient

  /** The limiter's answer; without a limiter, or when the check fails, the command passes. */
  datatype Rate = NoLimiter | CheckFailed | Allow | Deny

  /** How the approval of a sensitive script went. */
  datatype Approval = SubmitFailed | Approved(id: string) | Rejected(id: string) | Interrupted(id: string) | ClientGone(id: string)

  datatype Message =
    | Malformed
    | Command(script: string, rate: Rate, approval: Approval, frames: seq<GuestAgent.Frame>, result: Result)

  datatype Event =
    | ErrorShown
    | PendingShown(id: string, reason: string)
    | ApprovedShown
    | RejectedShown
    | OutputShown(data: seq<byte>)
    | ExitShown(code: int)

  datatype Line = InputLine(script: string) | HitlLine(text: string) | OutputLine(data: seq<byte>) | ExitLine(code: int)

  // ---- what one message leads to ----

  /** The command gets past validation and the rate limit. */
  predicate Passes(m: Message) {
    m.Command? && m.script != "" && !m.rate.Deny?
  }

  /** The command may run: benign, or sensitive and approved. */
  predicate Cleared(classify: Classifier, m: Message) {
    Passes(m) && (classify(m.script).Benign? || m.approval.Approved?)
  }

  /** The client leaves while the command waits for approval. */
  predicate Ends(classify: Classifier, m: Message) {
    Passes(m) && classify(m.script).Sensitive? && m.approval.ClientGone?
  }

  function ApprovalEvents(reason: string, a: Approval): seq<Event> {
    match a
    case SubmitFailed => [ErrorShown]
    case Approved(id) => [PendingShown(id, reason), ApprovedShown]
    case Rejected(id) => [PendingShown(id, reason), RejectedShown]
    case Interrupted(id) => [PendingShown(id, reason), ErrorShown]
    case ClientGone(id) => [PendingShown(id, reason)]
  }

  function ApprovalLines(reason: string, a: Approval): seq<Line> {
    if a.SubmitFailed? then []
    else [HitlLine("pending: " + reason)]
         + if a.Approved? then [HitlLine("approved")] else if a.Rejected? then [HitlLine("rejected")] else []
  }

  // ---- what events and lines hold ----

  function ShownData(e: Event): seq<byte> {
    if e.OutputShown? then e.data else []
  }

  function ShownExit(e: Event): seq<int> {
    if e.ExitShown? then [e.code] else []
  }

  function ShownApproval(e: Event): seq<Event> {
    if e.ApprovedShown? then [e] else []
  }

  function KeptData(l: Line): seq<byte> {
    if l.OutputLine? then l.data else []
  }

  function KeptExit(l: Line): seq<int> {
    if l.ExitLine? then [l.code] else []
  }

  function KeptInput(l: Line): seq<string> {
    if l.InputLine? then [l.script] else []
  }

  // ---- one execution ----

  function FrameEvent(f: GuestAgent.Frame): seq<Event> {
    if f.Output? then [OutputShown(f.data)] else if f.Exit? then [ExitShown(f.code)] else []
  }

  function FrameData(f: GuestAgent.Frame): seq<byte> {
    if f.Output? then f.data else []
  }

  /** The exit code kept: the last one seen. */
  function LastExit(fs: seq<GuestAgent.Frame>): seq<int> {
    if fs == [] then [] else if fs[|fs| - 1].Exit? then [fs[|fs| - 1].code] else LastExit(fs[..|fs| - 1])
  }

  function ExecEvents(fs: seq<GuestAgent.Frame>, result: Result): seq<Event> {
    Collect(FrameEvent, fs) + if result.Done? then [] else [ErrorShown]
  }

  function OutputLines(out: seq<byte>): seq<Line> {
    if out == [] then [] else [OutputLine(out)]
  }

  function ExitLines(exit: seq<int>): seq<Line> {
    if exit == [] then [] else [ExitLine(exit[0])]
  }

  function ExecLines(fs: seq<GuestAgent.Frame>): seq<Line> {
    OutputLines(Collect(FrameData, fs)) + ExitLines(LastExit(fs))
  }

  /** Only the last frame of an execution is terminal. */
  predicate OneEnd(fs: seq<GuestAgent.Frame>) {
    forall i :: 0 <= i < |fs| - 1 ==> !Terminal(fs[i])
  }

  /** Every execution of the vsock client, on any bytes, shows such frames. */
  lemma {:induction false} ExecShowsOneEnd(codec: Codec, b: seq<byte>)
    ensures OneEnd(ExecSpec(codec, b).0)
    decreases |b|
  {
    var r := Read(b);
    if r.Msg? {
      var f := codec.unmarshal(r.payload);
      if f.Some? && !Terminal(f.value) {
        ExecShowsOneEnd(codec, r.rest);
      }
    }
  }

  /** The readings of the event of one frame. */
  lemma FrameRead(x: GuestAgent.Frame)
    ensures Collect(ShownData, FrameEvent(x)) == FrameData(x)
    ensures Collect(ShownExit, FrameEvent(x)) == if x.Exit? then [x.code] else []
    ensures Collect(ShownApproval, FrameEvent(x)) == []
  {
    if FrameEvent(x) != [] {
      var e := FrameEvent(x)[0];
      assert FrameEvent(x) == [e];
      CollectOne(ShownData, e);
      CollectOne(ShownExit, e);
      CollectOne(ShownApproval, e);
    }
  }

  lemma {:induction false} FramesShown(fs: seq<GuestAgent.Frame>)
    ensures Collect(ShownData, Collect(FrameEvent, fs)) == Collect(FrameData, fs)
  {
    if fs != [] {
      var pre, x := fs[..|fs| - 1], fs[|fs| - 1];
      FramesShown(pre);
      CollectConcat(ShownData, Collect(FrameEvent, pre), FrameEvent(x));
      FrameRead(x);
    }
  }

  lemma {:induction false} FramesApproveNothing(fs: seq<GuestAgent.Frame>)
    ensures Collect(ShownApproval, Collect(FrameEvent, fs)) == []
  {
    if fs != [] {
      var pre, x := fs[..|fs| - 1], fs[|fs| - 1];
      FramesApproveNothing(pre);
      CollectConcat(ShownApproval, Collect(FrameEvent, pre), FrameEvent(x));
      FrameRead(x);
    }
  }

  lemma {:induction false} NoExitYet(fs: seq<GuestAgent.Frame>)
    requires forall i :: 0 <= i < |fs| ==> !Terminal(fs[i])
    ensures LastExit(fs) == [] && Collect(ShownExit, Collect(FrameEvent, fs)) == []
  {
    if fs != [] {
      var pre, x := fs[..|fs| - 1], fs[|fs| - 1];
      NoExitYet(pre);
      CollectConcat(ShownExit, Collect(FrameEvent, pre), FrameEvent(x));
      FrameRead(x);
    }
  }

  lemma ExitShownOnce(fs: seq<GuestAgent.Frame>)
    requires OneEnd(fs)
    ensures Collect(ShownExit, Collect(FrameEvent, fs)) == LastExit(fs)
  {
    if fs != [] {
      var pre, x := fs[..|fs| - 1], fs[|fs| - 1];
      NoExitYet(pre);
      CollectConcat(ShownExit, Collect(FrameEvent, pre), FrameEvent(x));
      FrameRead(x);
    }
  }

  /** The readings of one execution's events. */
  lemma ExecShown(fs: seq<GuestAgent.Frame>, result: Result)
    requires OneEnd(fs)
    ensures Collect(ShownData, ExecEvents(fs, result)) == Collect(FrameData, fs)
    ensures Collect(ShownExit, ExecEvents(fs, result)) == LastExit(fs)
    ensures Collect(ShownApproval, ExecEvents(fs, result)) == []
  {
    var es, err: seq<Event> := Collect(FrameEvent, fs), if result.Done? then [] else [ErrorShown];
    FramesShown(fs);
    ExitShownOnce(fs);
    FramesApproveNothing(fs);
    CollectNothing(ShownData, err);
    CollectNothing(ShownExit, err);
    CollectNothing(ShownApproval, err);
    CollectConcat(ShownData, es, err);
    CollectConcat(ShownExit, es, err);
    CollectConcat(ShownApproval, es, err);
  }

  lemma OutputKept(out: seq<byte>)
    ensures var ls := OutputLines(out);
            Collect(KeptData, ls) == out && Collect(KeptExit, ls) == [] && Collect(KeptInput, ls) == []
  {
    var ls := OutputLines(out);
    CollectNothing(KeptExit, ls);
    CollectNothing(KeptInput, ls);
    if ls != [] {
      CollectOne(KeptData, ls[0]);
    }
  }

  lemma ExitKept(exit: seq<int>)
    requires |exit| <= 1
    ensures var ls := ExitLines(exit);
            Collect(KeptData, ls) == [] && Collect(KeptExit, ls) == exit && Collect(KeptInput, ls) == []
  {
    var ls := ExitLines(exit);
    CollectNothing(KeptData, ls);
    CollectNothing(KeptInput, ls);
    if ls != [] {
      CollectOne(KeptExit, ls[0]);
    }
  }

  /** The readings of one execution's transcript. */
  lemma ExecKept(fs: seq<GuestAgent.Frame>)
    ensures Collect(KeptData, ExecLines(fs)) == Collect(FrameData, fs)
    ensures Collect(KeptExit, ExecLines(fs)) == LastExit(fs)
    ensures Collect(KeptInput, ExecLines(fs)) == []
  {
    var out, exit := Collect(FrameData, fs), LastExit(fs);
    LastExitShort(fs);
    OutputKept(out);
    ExitKept(exit);
    KeptConcat(OutputLines(out), ExitLines(exit));
  }

  lemma KeptConcat(a: seq<Line>, b: seq<Line>)
    ensures Collect(KeptData, a + b) == Collect(KeptData, a) + Collect(KeptData, b)
    ensures Collect(KeptExit, a + b) == Collect(KeptExit, a) + Collect(KeptExit, b)
    ensures Collect(KeptInput, a + b) == Collect(KeptInput, a) + Collect(KeptInput, b)
  {
    CollectConcat(KeptData, a, b);
    CollectConcat(KeptExit, a, b);
    CollectConcat(KeptInput, a, b);
  }

  lemma {:induction false} LastExitShort(fs: seq<GuestAgent.Frame>)
    ensures |LastExit(fs)| <= 1
  {
    if fs != [] {
      LastExitShort(fs[..|fs| - 1]);
    }
  }

  // ---- one message ----

  function GateEvents(classify: Classifier, m: Message): seq<Event>
    requires Passes(m)
  {
    if classify(m.script).Sensitive? then ApprovalEvents(classify(m.script).reason, m.approval) else []
  }

  function GateLines(classify: Classifier, m: Message): seq<Line>
    requires Passes(m)
  {
    if classify(m.script).Sensitive? then ApprovalLines(classify(m.script).reason, m.approval) else []
  }

  function EventsOf(classify: Classifier, m: Message): seq<Event> {
    if !Passes(m) then [ErrorShown]
    else GateEvents(classify, m) + if Cleared(classify, m) then ExecEvents(m.frames, m.result) else []
  }

  function LinesOf(classify: Classifier, m: Message): seq<Line> {
    if !Passes(m) then []
    else [InputLine(m.script)] + GateLines(classify, m) + if Cleared(classify, m) then ExecLines(m.frames) else []
  }

  /** A sensitive script that runs. */
  function SensitiveRun(classify: Classifier, m: Message): seq<Event> {
    if Cleared(classify, m) && classify(m.script).Sensitive? then [ApprovedShown] else []
  }

  lemma GateShown(classify: Classifier, m: Message)
    requires Passes(m)
    ensures var es := GateEvents(classify, m);
            Collect(ShownData, es) == [] && Collect(ShownExit, es) == [] && Collect(ShownApproval, es) == SensitiveRun(classify, m)
  {
    var es := GateEvents(classify, m);
    CollectNothing(ShownData, es);
    CollectNothing(ShownExit, es);
    if SensitiveRun(classify, m) == [] {
      CollectNothing(ShownApproval, es);
    } else {
      assert es == [es[0]] + [ApprovedShown];
      CollectConcat(ShownApproval, [es[0]], [ApprovedShown]);
      CollectOne(ShownApproval, es[0]);
      CollectOne(ShownApproval, ApprovedShown);
    }
  }

  function OutputOf(classify: Classifier, m: Message): seq<byte> {
    if Cleared(classify, m) then Collect(FrameData, m.frames) else []
  }

  function ExitOf(classify: Classifier, m: Message): seq<int> {
    if Cleared(classify, m) then LastExit(m.frames) else []
  }

  function InputOf(m: Message): seq<string> {
    if Passes(m) then [m.script] else []
  }

  lemma MessageShown(classify: Classifier, m: Message)
    requires m.Command? ==> OneEnd(m.frames)
    ensures var es := EventsOf(classify, m);
            && Collect(ShownData, es) == OutputOf(classify, m) && Collect(ShownExit, es) == ExitOf(classify, m)
            && Collect(ShownApproval, es) == SensitiveRun(classify, m)
  {
    if Passes(m) {
      var gate, exec := GateEvents(classify, m), if Cleared(classify, m) then ExecEvents(m.frames, m.result) else [];
      GateShown(classify, m);
      ExecShown(m.frames, m.result);
      CollectConcat(ShownData, gate, exec);
      CollectConcat(ShownExit, gate, exec);
      CollectConcat(ShownApproval, gate, exec);
    } else {
      CollectOne(ShownData, ErrorShown);
      CollectOne(ShownExit, ErrorShown);
      CollectOne(ShownApproval, ErrorShown);
    }
  }

  lemma GateKept(classify: Classifier, m: Message)
    requires Passes(m)
    ensures var ls := [InputLine(m.script)] + GateLines(classify, m);
            Collect(KeptData, ls) == [] && Collect(KeptExit, ls) == [] && Collect(KeptInput, ls) == [m.script]
  {
    var input, gate := [InputLine(m.script)], GateLines(classify, m);
    assert forall i :: 0 <= i < |gate| ==> gate[i].HitlLine?;
    CollectNothing(KeptData, input + gate);
    CollectNothing(KeptExit, input + gate);
    CollectNothing(KeptInput, gate);
    CollectOne(KeptInput, InputLine(m.script));
    CollectConcat(KeptInput, input, gate);
  }

  lemma MessageKept(classify: Classifier, m: Message)
    ensures var ls := LinesOf(classify, m);
            && Collect(KeptData, ls) == OutputOf(classify, m) && Collect(KeptExit, ls) == ExitOf(classify, m)
            && Collect(KeptInput, ls) == InputOf(m)
  {
    if Passes(m) {
      GateKept(classify, m);
      ExecKept(m.frames);
      KeptConcat([InputLine(m.script)] + GateLines(classify, m), if Cleared(classify, m) then ExecLines(m.frames) else []);
    }
  }

  // ---- whole sessions ----

  function SessionEvents(classify: Classifier, ms: seq<Message>): seq<Event> {
    if ms == [] then [] else SessionEvents(classify, ms[..|ms| - 1]) + EventsOf(classify, ms[|ms| - 1])
  }

  function SessionLines(classify: Classifier, ms: seq<Message>): seq<Line> {
    if ms == [] then [] else SessionLines(classify, ms[..|ms| - 1]) + LinesOf(classify, ms[|ms| - 1])
  }

  function RunOf(classify: Classifier, m: Message): seq<string> {
    if Cleared(classify, m) then [m.script] else []
  }

  /** The scripts that run. */
  function SessionRuns(classify: Classifier, ms: seq<Message>): seq<string> {
    if ms == [] then [] else SessionRuns(classify, ms[..|ms| - 1]) + RunOf(classify, ms[|ms| - 1])
  }

  // ---- the same, on the fields of the messages ----

  /** What a message is due to run: a non-empty command that the limiter does not deny, if its script
      is benign or the request was approved. */
  function Due(classify: Classifier, m: Message): seq<string> {
    match m
    case Malformed => []
    case Command(script, rate, approval, _, _) =>
      if script == "" || rate == Deny then []
      else match classify(script)
        case Benign => [script]
        case Sensitive(_) => if approval.Approved? then [script] else []
  }

  function DueAll(classify: Classifier, ms: seq<Message>): seq<string> {
    if ms == [] then [] else DueAll(classify, ms[..|ms| - 1]) + Due(classify, ms[|ms| - 1])
  }

  /** In every session exactly the scripts due run, each once and in order. */
  lemma {:induction false} RunsAreDue(classify: Classifier, ms: seq<Message>)
    ensures SessionRuns(classify, ms) == DueAll(classify, ms)
  {
    if ms != [] {
      RunsAreDue(classify, ms[..|ms| - 1]);
    }
  }

  /** A message that is malformed, empty or over the rate limit is answered with an error and leaves no
      trace; a missing or failing limiter lets a command pass. */
  lemma RefusedMessage(classify: Classifier, m: Message)
    ensures (m.Command? ==> m.script == "" || m.rate == Deny) ==>
              EventsOf(classify, m) == [ErrorShown] && LinesOf(classify, m) == [] && RunOf(classify, m) == [] && !Ends(classify, m)
    ensures m.Command? && m.script != "" && m.rate in {NoLimiter, CheckFailed, Allow} ==>
              LinesOf(classify, m) != [] && LinesOf(classify, m)[0] == InputLine(m.script)
  {
  }

  /** A benign command runs at once. */
  lemma BenignMessage(classify: Classifier, m: Message)
    requires m.Command? && m.script != "" && m.rate != Deny && classify(m.script) == Benign
    ensures EventsOf(classify, m) == ExecEvents(m.frames, m.result) && !Ends(classify, m)
    ensures LinesOf(classify, m) == [InputLine(m.script)] + ExecLines(m.frames) && RunOf(classify, m) == [m.script]
  {
  }

  /** A sensitive one: what each outcome of its approval shows, keeps and runs. */
  lemma SensitiveMessage(classify: Classifier, m: Message, reason: string)
    requires m.Command? && m.script != "" && m.rate != Deny && classify(m.script) == Sensitive(reason)
    ensures var es, ls, runs := EventsOf(classify, m), LinesOf(classify, m), RunOf(classify, m);
            var input, pending := InputLine(m.script), HitlLine("pending: " + reason);
            match m.approval
            case SubmitFailed => es == [ErrorShown] && ls == [input] && runs == [] && !Ends(classify, m)
            case Rejected(id) =>
              && es == [PendingShown(id, reason), RejectedShown] && ls == [input, pending, HitlLine("rejected")]
              && runs == [] && !Ends(classify, m)
            case Interrupted(id) =>
              es == [PendingShown(id, reason), ErrorShown] && ls == [input, pending] && runs == [] && !Ends(classify, m)
            case ClientGone(id) => es == [PendingShown(id, reason)] && ls == [input, pending] && runs == [] && Ends(classify, m)
            case Approved(id) =>
              && es == [PendingShown(id, reason), ApprovedShown] + ExecEvents(m.frames, m.result)
              && ls == [input, pending, HitlLine("approved")] + ExecLines(m.frames) && runs == [m.script] && !Ends(classify, m)
  {
  }

  function Shown(pieces: seq<seq<byte>>): (es: seq<Event>)
    ensures |es| == |pieces|
  {
    seq(|pieces|, i requires 0 <= i < |pieces| => OutputShown(pieces[i]))
  }

  /** The execution of a well-formed reply: one event for each piece of output and one for the exit code,
      and in the transcript all output as one line (none if there is none) and the exit code. */
  lemma ReplyOutcome(id: seq<byte>, pieces: seq<seq<byte>>, code: int)
    ensures var fs := Outputs(id, pieces) + [Exit(id, code)];
            && ExecEvents(fs, Done) == Shown(pieces) + [ExitShown(code)]
            && ExecLines(fs) == (if Flatten(pieces) == [] then [] else [OutputLine(Flatten(pieces))]) + [ExitLine(code)]
  {
    var fs := Outputs(id, pieces) + [Exit(id, code)];
    assert fs[..|fs| - 1] == Outputs(id, pieces) && fs[|fs| - 1] == Exit(id, code);
    OutputsOutcome(id, pieces);
    assert Collect(FrameEvent, fs) == Shown(pieces) + [ExitShown(code)];
    assert Collect(FrameData, fs) == Flatten(pieces) + [] == Flatten(pieces);
    assert LastExit(fs) == [code];
    assert ExecEvents(fs, Done) == Collect(FrameEvent, fs) + [] == Collect(FrameEvent, fs);
  }

  /** A reply that ends in an error: the output as before, and the error in place of an exit code. */
  lemma FailedReplyOutcome(id: seq<byte>, pieces: seq<seq<byte>>, m: seq<byte>)
    ensures var fs := Outputs(id, pieces) + [Error(id, m)];
            && ExecEvents(fs, GuestError(m)) == Shown(pieces) + [ErrorShown]
            && ExecLines(fs) == if Flatten(pieces) == [] then [] else [OutputLine(Flatten(pieces))]
  {
    var fs := Outputs(id, pieces) + [Error(id, m)];
    assert fs[..|fs| - 1] == Outputs(id, pieces) && fs[|fs| - 1] == Error(id, m);
    OutputsOutcome(id, pieces);
    assert Collect(FrameEvent, fs) == Shown(pieces) + [] == Shown(pieces);
    assert Collect(FrameData, fs) == Flatten(pieces) + [] == Flatten(pieces);
    NoExitShown(fs);
  }

  lemma {:induction false} NoExitShown(fs: seq<Frame>)
    requires forall i :: 0 <= i < |fs| ==> !fs[i].Exit?
    ensures LastExit(fs) == []
  {
    if fs != [] {
      NoExitShown(fs[..|fs| - 1]);
    }
  }

  lemma {:induction false} OutputsOutcome(id: seq<byte>, pieces: seq<seq<byte>>)
    ensures Collect(FrameEvent, Outputs(id, pieces)) == Shown(pieces)
    ensures Collect(FrameData, Outputs(id, pieces)) == Flatten(pieces)
  {
    if pieces != [] {
      var pre, last := pieces[..|pieces| - 1], pieces[|pieces| - 1];
      OutputsOutcome(id, pre);
      assert Outputs(id, pieces)[..|pieces| - 1] == Outputs(id, pre);
      assert Shown(pieces) == Shown(pre) + [OutputShown(last)];
      assert pieces == pre + [last];
      FlattenConcat(pre, [last]);
      assert Flatten([last]) == last + [] == last;
    }
  }

  /** One approval event for each sensitive script. */
  function ApprovalEach(classify: Classifier, scripts: seq<string>): seq<Event> {
    if scripts == [] then []
    else ApprovalEach(classify, scripts[..|scripts| - 1])
         + if classify(scripts[|scripts| - 1]).Sensitive? then [ApprovedShown] else []
  }

  predicate AllOneEnd(ms: seq<Message>) {
    forall i :: 0 <= i < |ms| && ms[i].Command? ==> OneEnd(ms[i].frames)
  }

  /** In every session the lines offered to the transcript replay exactly the output and the exit
      codes sent to the client, and the commands that passed validation and rate limit. */
  lemma {:induction false} OfferedFaithful(classify: Classifier, ms: seq<Message>)
    requires AllOneEnd(ms)
    ensures Collect(KeptData, SessionLines(classify, ms)) == Collect(ShownData, SessionEvents(classify, ms))
    ensures Collect(KeptExit, SessionLines(classify, ms)) == Collect(ShownExit, SessionEvents(classify, ms))
    ensures Collect(KeptInput, SessionLines(classify, ms)) == Collect(InputOf, ms)
  {
    if ms != [] {
      var pre, m := ms[..|ms| - 1], ms[|ms| - 1];
      OfferedFaithful(classify, pre);
      MessageShown(classify, m);
      MessageKept(classify, m);
      var es, ls := SessionEvents(classify, pre), SessionLines(classify, pre);
      CollectConcat(ShownData, es, EventsOf(classify, m));
      CollectConcat(ShownExit, es, EventsOf(classify, m));
      KeptConcat(ls, LinesOf(classify, m));
    }
  }

  /** Output lines are never empty. */
  predicate Proper(ls: seq<Line>) {
    forall i :: 0 <= i < |ls| ==> KeptData(ls[i]) != [] || !ls[i].OutputLine?
  }

  lemma {:induction false} LinesAreProper(classify: Classifier, ms: seq<Message>)
    ensures Proper(SessionLines(classify, ms))
  {
    if ms != [] {
      LinesAreProper(classify, ms[..|ms| - 1]);
      MessageIsProper(classify, ms[|ms| - 1]);
    }
  }

  lemma MessageIsProper(classify: Classifier, m: Message)
    ensures Proper(LinesOf(classify, m))
  {
    if Passes(m) {
      assert forall i :: 0 <= i < |GateLines(classify, m)| ==> GateLines(classify, m)[i].HitlLine?;
      assert Proper([InputLine(m.script)] + GateLines(classify, m));
      assert Proper(ExecLines(m.frames));
    }
  }

  predicate IsOutput(l: Line) {
    l.OutputLine?
  }

  predicate IsExit(l: Line) {
    l.ExitLine?
  }

  predicate IsInput(l: Line) {
    l.InputLine?
  }

  /** In every session, whichever appends fail: the transcript replays exactly the output and the exit
      codes sent to the client if and only if no output line and no exit line is lost, and exactly
      the commands that passed if and only if no input line is lost. */
  lemma TranscriptFaithfulIff(classify: Classifier, keeps: nat -> bool, ms: seq<Message>)
    requires AllOneEnd(ms)
    ensures var ls, es := SessionLines(classify, ms), SessionEvents(classify, ms);
            var kept := Sieve(keeps, ls);
            && (Collect(KeptData, kept) == Collect(ShownData, es) <==> NoneLost(keeps, ls, IsOutput))
            && (Collect(KeptExit, kept) == Collect(ShownExit, es) <==> NoneLost(keeps, ls, IsExit))
            && (Collect(KeptInput, kept) == Collect(InputOf, ms) <==> NoneLost(keeps, ls, IsInput))
  {
    var ls := SessionLines(classify, ms);
    OfferedFaithful(classify, ms);
    LinesAreProper(classify, ms);
    ReadIffNoneLost(KeptData, IsOutput, keeps, ls);
    ReadIffNoneLost(KeptExit, IsExit, keeps, ls);
    ReadIffNoneLost(KeptInput, IsInput, keeps, ls);
  }

  /** In every session the sensitive scripts that run and the approval events that the client was
      shown match one to one. */
  lemma {:induction false} ApprovalsMatchRuns(classify: Classifier, ms: seq<Message>)
    requires AllOneEnd(ms)
    ensures Collect(ShownApproval, SessionEvents(classify, ms)) == ApprovalEach(classify, SessionRuns(classify, ms))
  {
    if ms != [] {
      var pre, m := ms[..|ms| - 1], ms[|ms| - 1];
      ApprovalsMatchRuns(classify, pre);
      MessageShown(classify, m);
      CollectConcat(ShownApproval, SessionEvents(classify, pre), EventsOf(classify, m));
      var runs := SessionRuns(classify, ms);
      if Cleared(classify, m) {
        assert runs[..|runs| - 1] == SessionRuns(classify, pre);
      } else {
        assert runs == SessionRuns(classify, pre);
      }
    }
  }

  /** The client stays to the end of these messages. */
  predicate StaysOpen(classify: Classifier, ms: seq<Message>) {
    ms == [] || (StaysOpen(classify, ms[..|ms| - 1]) && !Ends(classify, ms[|ms| - 1]))
  }

  /** The session handles `n` messages: all of them, or up to the one during which the client leaves. */
  predicate EndsAt(classify: Classifier, ms: seq<Message>, n: nat)
    requires n <= |ms|
  {
    || (n == |ms| && StaysOpen(classify, ms[..n]))
    || (n > 0 && StaysOpen(classify, ms[..n - 1]) && Ends(classify, ms[n - 1]))
  }

  lemma OpenStep(classify: Classifier, ms: seq<Message>, n: nat)
    requires n < |ms| && StaysOpen(classify, ms[..n])
    ensures if Ends(classify, ms[n]) then EndsAt(classify, ms, n + 1) else StaysOpen(classify, ms[..n + 1])
  {
    assert ms[..n + 1][..n] == ms[..n] && n + 1 - 1 == n;
  }

  lemma SessionStep(classify: Classifier, ms: seq<Message>, n: nat)
    requires n < |ms|
    ensures SessionEvents(classify, ms[..n + 1]) == SessionEvents(classify, ms[..n]) + EventsOf(classify, ms[n])
    ensures SessionLines(classify, ms[..n + 1]) == SessionLines(classify, ms[..n]) + LinesOf(classify, ms[n])
    ensures SessionRuns(classify, ms[..n + 1]) == SessionRuns(classify, ms[..n]) + RunOf(classify, ms[n])
  {
    assert ms[..n + 1][..n] == ms[..n];
  }

  lemma FrameStep(fs: seq<GuestAgent.Frame>, i: nat)
    requires i < |fs|
    ensures Collect(FrameEvent, fs[..i + 1]) == Collect(FrameEvent, fs[..i]) + FrameEvent(fs[i])
    ensures Collect(FrameData, fs[..i + 1]) == Collect(FrameData, fs[..i]) + FrameData(fs[i])
    ensures LastExit(fs[..i + 1]) == if fs[i].Exit? then [fs[i].code] else LastExit(fs[..i])
  {
    assert fs[..i + 1][..i] == fs[..i];
  }

  // ---- the session ----

  /** `sent` are the events handed to the socket, `offered` the lines handed to the transcript. */
  class Session {
    const classify: Classifier
    var sent: seq<Event>
    var offered: seq<Line>
    var ran: seq<string>

    constructor (classify: Classifier)
      ensures this.classify == classify && sent == [] && offered == [] && ran == [] && Served([])
    {
      this.classify := classify;
      sent, offered, ran := [], [], [];
    }

    /** The frames are sent as they come. */
    method Show(frames: seq<GuestAgent.Frame>) returns (outBuf: seq<byte>, exit: seq<int>)
      modifies this`sent
      ensures sent == old(sent) + Collect(FrameEvent, frames)
      ensures outBuf == Collect(FrameData, frames) && exit == LastExit(frames)
    {
      outBuf, exit := [], [];
      var i := 0;
      while i < |frames|
        invariant 0 <= i <= |frames| && sent == old(sent) + Collect(FrameEvent, frames[..i])
        invariant outBuf == Collect(FrameData, frames[..i]) && exit == LastExit(frames[..i])
      {
        FrameStep(frames, i);
        match frames[i] {
          case Output(_, data) =>
            outBuf := outBuf + data;
            sent := sent + [OutputShown(data)];
          case Exit(_, code) =>
            exit := [code];
            sent := sent + [ExitShown(code)];
          case _ =>
        }
        i := i + 1;
      }
      assert frames[..i] == frames;
    }

    /** One execution: its frames are sent, and offered to the transcript in coalesced form. */
    method Execute(script: string, frames: seq<GuestAgent.Frame>, result: Result)
      modifies this
      ensures ran == old(ran) + [script] && offered == old(offered) + ExecLines(frames)
      ensures sent == old(sent) + ExecEvents(frames, result)
    {
      ran := ran + [script];
      var outBuf, exit := Show(frames);
      if |outBuf| > 0 {
        offered := offered + [OutputLine(outBuf)];
      }
      if exit != [] {
        offered := offered + [ExitLine(exit[0])];
      }
      if !result.Done? {
        sent := sent + [ErrorShown];
      }
    }

    /** The approval of a sensitive script; true if it may run. */
    method Approve(reason: string, a: Approval) returns (cleared: bool)
      modifies this`sent, this`offered
      ensures cleared <==> a.Approved?
      ensures sent == old(sent) + ApprovalEvents(reason, a) && offered == old(offered) + ApprovalLines(reason, a)
    {
      if a.SubmitFailed? {
        sent := sent + [ErrorShown];
        return false;
      }
      sent := sent + [PendingShown(a.id, reason)];
      offered := offered + [HitlLine("pending: " + reason)];
      match a {
        case ClientGone(_) => return false;
        case Interrupted(_) =>
          sent := sent + [ErrorShown];
          return false;
        case Rejected(_) =>
          sent := sent + [RejectedShown];
          offered := offered + [HitlLine("rejected")];
          return false;
        case Approved(_) =>
          sent := sent + [ApprovedShown];
          offered := offered + [HitlLine("approved")];
          return true;
      }
    }

    /** Transcript of the command, and its classification and approval; true if it may run. */
    method Screen(m: Message) returns (cleared: bool)
      requires Passes(m)
      modifies this`sent, this`offered
      ensures cleared == Cleared(classify, m)
      ensures sent == old(sent) + GateEvents(classify, m)
      ensures offered == old(offered) + ([InputLine(m.script)] + GateLines(classify, m))
    {
      offered := offered + [InputLine(m.script)];
      cleared := true;
      var verdict := classify(m.script);
      if verdict.Sensitive? {
        cleared := Approve(verdict.reason, m.approval);
      }
    }

    /** One turn of the session loop; false once the client is gone. */
    method Handle(m: Message) returns (open: bool)
      modifies this
      ensures open == !Ends(classify, m)
      ensures sent == old(sent) + EventsOf(classify, m) && offered == old(offered) + LinesOf(classify, m)
      ensures ran == old(ran) + RunOf(classify, m) == old(ran) + Due(classify, m)
      ensures m.Malformed? || m.script == "" || m.rate == Deny ==>
        open && sent == old(sent) + [ErrorShown] && offered == old(offered) && ran == old(ran)
    {
      if m.Malformed? || m.script == "" || m.rate.Deny? {
        sent := sent + [ErrorShown];
        return true;
      }
      var cleared := Screen(m);
      if cleared {
        Execute(m.script, m.frames, m.result);
        return true;
      }
      return !m.approval.ClientGone?;
    }

    /** The session so far is that of these messages. */
    ghost predicate Served(ms: seq<Message>)
      reads this
    {
      sent == SessionEvents(classify, ms) && offered == SessionLines(classify, ms) && ran == SessionRuns(classify, ms)
    }

    /** A whole session: it handles the messages up to the one during which the client leaves; the
        cleared commands among them run, each once and in order, and no other. */
    method Serve(ms: seq<Message>) returns (n: nat)
      requires Served([])
      modifies this
      ensures n <= |ms| && Served(ms[..n]) && EndsAt(classify, ms, n)
      ensures ran == DueAll(classify, ms[..n])
    {
      n := 0;
      assert ms[..0] == [];
      while n < |ms|
        invariant n <= |ms| && Served(ms[..n]) && StaysOpen(classify, ms[..n])
      {
        var open := Turn(ms, n);
        n := n + 1;
        if !open {
          break;
        }
      }
      RunsAreDue(classify, ms[..n]);
    }

    /** Message `n` of a session. */
    method Turn(ms: seq<Message>, n: nat) returns (open: bool)
      requires n < |ms| && Served(ms[..n]) && StaysOpen(classify, ms[..n])
      modifies this
      ensures Served(ms[..n + 1])
      ensures if open then StaysOpen(classify, ms[..n + 1]) else EndsAt(classify, ms, n + 1)
    {
      SessionStep(classify, ms, n);
      OpenStep(classify, ms, n);
      open := Handle(ms[n]);
    }
  }

  /** Calls of send or recordLine in turn: one that fails is ignored or logged, and the next one tried. */
  method BestEffort<T>(accepts: nat -> bool, calls: seq<T>) returns (taken: seq<T>)
    ensures taken == Sieve(accepts, calls)
  {
    taken := [];
    var i := 0;
    while i < |calls|
      invariant 0 <= i <= |calls| && taken == Sieve(accepts, calls[..i])
    {
      SieveStep(accepts, calls, i);
      if accepts(i) {
        taken := taken + [calls[i]];
      }
      i := i + 1;
    }
    assert calls[..i] == calls;
  }

  /** A session with its outlets: `delivers` says which socket writes reach the client, `keeps` which
      appends succeed (none without a repository).  No outcome influences what runs. */
  method ServeClient(classify: Classifier, delivers: nat -> bool, keeps: nat -> bool, ms: seq<Message>)
    returns (n: nat, shown: seq<Event>, lines: seq<Line>, ran: seq<string>)
    ensures n <= |ms| && EndsAt(classify, ms, n)
    ensures ran == SessionRuns(classify, ms[..n]) == DueAll(classify, ms[..n])
    ensures shown == Sieve(delivers, SessionEvents(classify, ms[..n]))
    ensures lines == Sieve(keeps, SessionLines(classify, ms[..n]))
  {
    var s := new Session(classify);
    n := s.Serve(ms);
    RunsAreDue(classify, ms[..n]);
    ran := s.ran;
    shown := BestEffort(delivers, s.sent);
    lines := BestEffort(keeps, s.offered);
  }
}
