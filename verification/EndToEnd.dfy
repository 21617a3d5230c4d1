/** The composed guarantee of the guest-to-host stream. */
module EndToEnd {
  import opened Wrappers
  import opened Int64
  import opened Utf8
  import opened Framing
  import opened GuestAgent
  import opened VsockClient

  /** A frame after its strings have been through JSON. */
  function Sanitized(f: Frame): Frame {
    match f
    case Output(id, data) => Output(Sanitize(id), Sanitize(data))
    case Exit(id, code) => Exit(Sanitize(id), code)
    case Error(id, m) => Error(Sanitize(id), Sanitize(m))
    case Pong(id) => Pong(Sanitize(id))
    case Other(id) => Other(Sanitize(id))
  }

  /** Bytes of text in a frame. */
  function TextSize(f: Frame): nat {
    match f
    case Output(id, data) => |id| + |data|
    case Error(id, m) => |id| + |m|
    case _ => |f.id|
  }

  /** Braces, keys, the kind and an int64 exit code. */
  const OVERHEAD: nat := 128

  /** Decoding undoes encoding up to the replacement of ill-formed text; a byte of text takes from
      one to six bytes (an escape such as \u003c). */
  ghost predicate GoJson(c: Codec) {
    && (forall f :: c.unmarshal(c.marshal(f)) == Some(Sanitized(f)))
    && (forall f: Frame :: !f.Other? && (f.Exit? ==> -I64 <= f.code < I64) ==>
          TextSize(f) <= |c.marshal(f)| <= 6 * TextSize(f) + OVERHEAD)
  }

  ghost predicate AllFit(c: Codec, frames: seq<Frame>) {
    forall i :: 0 <= i < |frames| ==> Fits(c.marshal(frames[i]))
  }

  /** The bytes the guest writes for a reply. */
  ghost function Wire(c: Codec, frames: seq<Frame>): seq<byte>
    requires AllFit(c, frames)
  {
    if frames == [] then [] else Encode(c.marshal(frames[0])) + Wire(c, frames[1..])
  }

  function SanitizedAll(frames: seq<Frame>): (s: seq<Frame>)
    ensures |s| == |frames|
  {
    seq(|frames|, i requires 0 <= i < |frames| => Sanitized(frames[i]))
  }

  function Outcome(last: Frame): Result {
    ResultOf(Sanitized(last))
  }

  /** The frame loop on one encoded frame. */
  lemma LoopStep(c: Codec, f: Frame, rest: seq<byte>)
    requires GoJson(c) && Fits(c.marshal(f))
    ensures Terminal(f) ==> ExecSpec(c, Encode(c.marshal(f)) + rest) == ([Sanitized(f)], Outcome(f))
    ensures !Terminal(f) ==>
      var tail := ExecSpec(c, rest); ExecSpec(c, Encode(c.marshal(f)) + rest) == ([Sanitized(f)] + tail.0, tail.1)
  {
    ReadEncoded(c.marshal(f), rest);
    assert c.unmarshal(c.marshal(f)) == Some(Sanitized(f));
  }

  lemma SanitizedCons(f: Frame, rest: seq<Frame>)
    ensures SanitizedAll([f] + rest) == [Sanitized(f)] + SanitizedAll(rest)
  {
  }

  /** The frame loop sees every frame of a well-formed reply, in order, whatever follows it. */
  lemma {:induction false} LoopSeesReply(c: Codec, frames: seq<Frame>, after: seq<byte>)
    requires GoJson(c) && AllFit(c, frames) && WellFormedReply(frames)
    ensures ExecSpec(c, Wire(c, frames) + after) == (SanitizedAll(frames), Outcome(frames[|frames| - 1]))
    decreases |frames|
  {
    WireHead(c, frames, after);
    SanitizedHead(frames);
    LoopStep(c, frames[0], Wire(c, frames[1..]) + after);
    if |frames| > 1 {
      ReplyTail(frames);
      LoopSeesReply(c, frames[1..], after);
      assert frames[1..][|frames| - 2] == frames[|frames| - 1];
    } else {
      assert Terminal(frames[0]) && SanitizedAll(frames) == [Sanitized(frames[0])] + [];
      assert [Sanitized(frames[0])] + [] == [Sanitized(frames[0])];
    }
  }

  lemma WireHead(c: Codec, frames: seq<Frame>, after: seq<byte>)
    requires frames != [] && AllFit(c, frames)
    ensures AllFit(c, frames[1..])
    ensures Wire(c, frames) + after == Encode(c.marshal(frames[0])) + (Wire(c, frames[1..]) + after)
  {
    Associate(Encode(c.marshal(frames[0])), Wire(c, frames[1..]), after);
  }

  lemma SanitizedHead(frames: seq<Frame>)
    requires frames != []
    ensures SanitizedAll(frames) == [Sanitized(frames[0])] + SanitizedAll(frames[1..])
  {
    assert frames == [frames[0]] + frames[1..];
    SanitizedCons(frames[0], frames[1..]);
  }

  lemma Associate<T>(a: seq<T>, b: seq<T>, c: seq<T>)
    ensures a + b + c == a + (b + c)
  {
  }

  /** Firecracker's reply line, with the host port it assigned. */
  function OkLine(port: nat): (line: seq<byte>) {
    Ascii("OK ") + Decimal(port) + [NEWLINE]
  }

  lemma OkAccepted(port: nat, rest: seq<byte>)
    ensures LineEnd(OkLine(port) + rest) == |OkLine(port)| - 1 && Accepts(OkLine(port))
  {
    DecimalDenotes(port);
    var line, ok, d := OkLine(port), Ascii("OK "), Decimal(port);
    assert ok == [79, 75, 32];
    var body := ok + d;
    assert line == body + [NEWLINE] && forall i :: 0 <= i < |body| ==> body[i] != 10 && body[i] != 13;
    LineEndUnique(line + rest, |body|);
    assert line[..|line| - 1] == body;
    assert TrimRight(body) == body;
    assert TrimRight(line) == body;
  }

  predicate AllValid(pieces: seq<seq<byte>>) {
    forall i :: 0 <= i < |pieces| ==> Valid(pieces[i])
  }

  function SanitizedPieces(pieces: seq<seq<byte>>): (s: seq<seq<byte>>)
    ensures |s| == |pieces|
  {
    seq(|pieces|, i requires 0 <= i < |pieces| => Sanitize(pieces[i]))
  }

  /** Piecewise replacement is invisible in the concatenation exactly when every piece is
      well-formed text by itself. */
  lemma {:induction false} PiecesSurviveIffValid(pieces: seq<seq<byte>>)
    ensures |Flatten(SanitizedPieces(pieces))| >= |Flatten(pieces)|
    ensures Flatten(SanitizedPieces(pieces)) == Flatten(pieces) <==> AllValid(pieces)
    ensures !AllValid(pieces) ==> |Flatten(SanitizedPieces(pieces))| > |Flatten(pieces)|
  {
    if pieces != [] {
      var p, rest := pieces[0], pieces[1..];
      SanitizeExact(p);
      PiecesSurviveIffValid(rest);
      assert SanitizedPieces(pieces)[1..] == SanitizedPieces(rest);
      assert pieces == [p] + rest;
    }
  }

  /** Data of the output frames among `frames`, in order. */
  function DataOf(frames: seq<Frame>): seq<byte> {
    if frames == [] then [] else (if frames[0].Output? then frames[0].data else []) + DataOf(frames[1..])
  }

  lemma {:induction false} DataOfOutputs(id: seq<byte>, pieces: seq<seq<byte>>)
    ensures DataOf(SanitizedAll(Outputs(id, pieces))) == Flatten(SanitizedPieces(pieces))
  {
    if pieces != [] {
      DataOfOutputs(id, pieces[1..]);
      assert SanitizedAll(Outputs(id, pieces))[1..] == SanitizedAll(Outputs(id, pieces[1..]));
      assert SanitizedPieces(pieces)[1..] == SanitizedPieces(pieces[1..]);
    }
  }

  /** The shape of a reply as the host sees it. */
  lemma ReplyAsSeen(id: seq<byte>, max: int, chunk: int, r: Request)
    requires r.Ran?
    ensures var seen, pieces, all := SanitizedAll(Reply(id, max, chunk, r)), OutputPieces(max, chunk, r), Flatten(r.writes);
            && |seen| == |pieces| + (if 0 < max < |all| then 2 else 1)
            && (0 < max < |all| ==> seen[|pieces|] == Output(Sanitize(id), Notice(max)))
            && seen[|seen| - 1] == Sanitized(Final(id, r))
            && seen[..|pieces|] == SanitizedAll(Outputs(id, pieces))
  {
    var reply, pieces := Reply(id, max, chunk, r), OutputPieces(max, chunk, r);
    CapExact(max, ChunkSize(chunk), r.writes);
    if max > 0 {
      AsciiValid(Notice(max));
      SanitizeExact(Notice(max));
    }
    assert reply[..|pieces|] == Outputs(id, pieces);
  }

  /** The output of a reply as the host sees it. */
  lemma DataAsSeen(id: seq<byte>, max: int, chunk: int, r: Request)
    requires r.Ran?
    ensures var pieces, all := OutputPieces(max, chunk, r), Flatten(r.writes);
            DataOf(SanitizedAll(Outputs(id, pieces))) == (if 0 < max < |all| then all[..max] else all) <==> AllValid(pieces)
  {
    CapExact(max, ChunkSize(chunk), r.writes);
    DataOfOutputs(id, OutputPieces(max, chunk, r));
    PiecesSurviveIffValid(OutputPieces(max, chunk, r));
  }

  /** The end of a reply as the host's caller sees it, said of what happened in the guest. */
  ghost predicate Ending(id: seq<byte>, r: Request, last: Frame, result: Result) {
    && (forall code :: last == Exit(Sanitize(id), code) && result == Done
          <==> r.Ran? && r.deadline == None && r.wait == Exited(code))
    && (last == Pong(Sanitize(id)) && result == Done <==> r.Ping?)
    && (r.Ran? && r.deadline.Some? ==> Reports(id, r.deadline.value, last, result))
    && (r.Ran? && r.deadline.None? && r.wait.WaitError? ==> Reports(id, r.wait.message, last, result))
    && (r.StartFailed? || r.UnknownKind? || r.EmptyScript? ==> Reports(id, r.message, last, result))
  }

  /** The caller gets the error `m`. */
  predicate Reports(id: seq<byte>, m: seq<byte>, last: Frame, result: Result) {
    last == Error(Sanitize(id), Sanitize(m)) && result == GuestError(Sanitize(m))
  }

  /** End to end, for every script run whose frames all fit: whatever the process writes, however it is
      chunked, the host sees output frames, then the truncation notice exactly when the total
      exceeds a positive MaxOutput, then one terminal frame.  The output is the first
      min(total, MaxOutput) bytes if and only if every forwarded chunk is well-formed UTF-8. */
  ghost predicate Delivered(id: seq<byte>, max: int, chunk: int, r: Request, seen: seq<Frame>, result: Result)
    requires r.Ran?
  {
    var pieces, all := OutputPieces(max, chunk, r), Flatten(r.writes);
    && |seen| == |pieces| + (if 0 < max < |all| then 2 else 1)
    && (0 < max < |all| ==>
          seen[|pieces|] == Output(Sanitize(id), Ascii("\n[output truncated at ") + Decimal(max) + Ascii(" bytes]\n")))
    && Ending(id, r, seen[|seen| - 1], result)
    && (forall i :: 0 <= i < |pieces| ==> seen[i] == Output(Sanitize(id), Sanitize(pieces[i])))
    && (DataOf(seen[..|pieces|]) == (if 0 < max < |all| then all[..max] else all) <==> AllValid(pieces))
  }

  lemma FinalEnds(id: seq<byte>, r: Request)
    ensures Ending(id, r, Sanitized(Final(id, r)), Outcome(Final(id, r)))
  {
  }

  /** For every request whose frames fit: an exit code is reported exactly when the script ran to its
      end in time with that code; a passed deadline wins over whatever the wait says; every other end
      is the error it came from. */
  lemma EndSeen(c: Codec, id: seq<byte>, max: int, chunk: int, r: Request, port: nat, after: seq<byte>)
    requires GoJson(c) && AllFit(c, Reply(id, max, chunk, r))
    ensures var (seen, result) := ClientSpec(c, OkLine(port) + Wire(c, Reply(id, max, chunk, r)) + after);
            seen != [] && Ending(id, r, seen[|seen| - 1], result)
  {
    ClientSeesReply(c, id, max, chunk, r, port, after);
    var reply := Reply(id, max, chunk, r);
    assert reply[|reply| - 1] == Final(id, r);
    FinalEnds(id, r);
  }

  lemma StreamDelivered(c: Codec, id: seq<byte>, max: int, chunk: int, r: Request, port: nat, after: seq<byte>)
    requires GoJson(c) && AllFit(c, Reply(id, max, chunk, r)) && r.Ran?
    ensures var (seen, result) := ClientSpec(c, OkLine(port) + Wire(c, Reply(id, max, chunk, r)) + after);
            Delivered(id, max, chunk, r, seen, result)
  {
    ClientSeesReply(c, id, max, chunk, r, port, after);
    FinalEnds(id, r);
    ReplyAsSeen(id, max, chunk, r);
    DataAsSeen(id, max, chunk, r);
  }

  /** After the handshake the client sees every frame of a well-formed reply, whatever follows. */
  lemma ClientSeesFrames(c: Codec, frames: seq<Frame>, port: nat, after: seq<byte>)
    requires GoJson(c) && AllFit(c, frames) && WellFormedReply(frames)
    ensures ClientSpec(c, OkLine(port) + Wire(c, frames) + after) == (SanitizedAll(frames), Outcome(frames[|frames| - 1]))
  {
    AfterHandshake(c, Wire(c, frames) + after, port);
    LoopSeesReply(c, frames, after);
    Associate(OkLine(port), Wire(c, frames), after);
  }

  lemma AfterHandshake(c: Codec, rest: seq<byte>, port: nat)
    ensures ClientSpec(c, OkLine(port) + rest) == ExecSpec(c, rest)
  {
    var line := OkLine(port);
    var b := line + rest;
    OkAccepted(port, rest);
    assert b[..|line|] == line && b[|line|..] == rest;
  }

  lemma ClientSeesReply(c: Codec, id: seq<byte>, max: int, chunk: int, r: Request, port: nat, after: seq<byte>)
    requires GoJson(c) && AllFit(c, Reply(id, max, chunk, r))
    ensures var reply := Reply(id, max, chunk, r);
            ClientSpec(c, OkLine(port) + Wire(c, reply) + after) == (SanitizedAll(reply), Outcome(Final(id, r)))
  {
    ReplyWellFormed(id, max, chunk, r);
    ClientSeesFrames(c, Reply(id, max, chunk, r), port, after);
  }

  // ---- frames over the size cap ----

  /** Without a terminal frame the loop reports the early end. */
  lemma {:induction false} LoopSeesOpenEnd(c: Codec, frames: seq<Frame>)
    requires GoJson(c) && AllFit(c, frames) && forall i :: 0 <= i < |frames| ==> !Terminal(frames[i])
    ensures ExecSpec(c, Wire(c, frames)) == (SanitizedAll(frames), ClosedEarly)
    decreases |frames|
  {
    if frames != [] {
      var rest := frames[1..];
      WireHead(c, frames, []);
      SanitizedHead(frames);
      assert Wire(c, frames) + [] == Wire(c, frames) && Wire(c, rest) + [] == Wire(c, rest);
      LoopStep(c, frames[0], Wire(c, rest));
      LoopSeesOpenEnd(c, rest);
    }
  }

  lemma WrittenFits(c: Codec, id: seq<byte>, max: int, chunk: int, r: Request)
    ensures AllFit(c, Outputs(id, Written(c, id, max, chunk, r).pieces))
  {
    if r.Ran? {
      SentPieces(c, id, Writer(0, false), max, ChunkSize(chunk), r.writes);
      SentCountMeans(c, id, OutputPieces(max, chunk, r));
    }
  }

  lemma OneFits(c: Codec, f: Frame)
    ensures AllFit(c, [f]) <==> Fits(c.marshal(f))
  {
    assert [f][0] == f;
  }

  lemma AllFitConcat(c: Codec, a: seq<Frame>, b: seq<Frame>)
    ensures AllFit(c, a + b) <==> AllFit(c, a) && AllFit(c, b)
  {
    assert forall i :: 0 <= i < |a| ==> (a + b)[i] == a[i];
    assert forall i :: 0 <= i < |b| ==> (a + b)[|a| + i] == b[i];
  }

  /** The frames before the terminal one. */
  function Body(c: Codec, id: seq<byte>, max: int, chunk: int, r: Request): seq<Frame> {
    var p := Written(c, id, max, chunk, r);
    Outputs(id, p.pieces) + if p.truncated && max > 0 then Attempt(c, Output(id, Notice(max))) else []
  }

  lemma TransmittedFits(c: Codec, id: seq<byte>, max: int, chunk: int, r: Request)
    ensures AllFit(c, Body(c, id, max, chunk, r)) && AllFit(c, Transmitted(c, id, max, chunk, r))
    ensures forall i :: 0 <= i < |Body(c, id, max, chunk, r)| ==> Body(c, id, max, chunk, r)[i].Output?
    ensures Transmitted(c, id, max, chunk, r) == Body(c, id, max, chunk, r) + Attempt(c, LastFrame(c, id, max, chunk, r))
  {
    var p := Written(c, id, max, chunk, r);
    WrittenFits(c, id, max, chunk, r);
    AllFitConcat(c, Outputs(id, p.pieces), if p.truncated && max > 0 then Attempt(c, Output(id, Notice(max))) else []);
    AllFitConcat(c, Body(c, id, max, chunk, r), Attempt(c, LastFrame(c, id, max, chunk, r)));
  }

  /** For every request, whatever fits: the host sees exactly the frames that reach the wire, and the
      outcome of the terminal one, or an early end if that did not fit. */
  ghost predicate HostSees(c: Codec, id: seq<byte>, max: int, chunk: int, r: Request, seen: seq<Frame>, result: Result) {
    var last := LastFrame(c, id, max, chunk, r);
    seen == SanitizedAll(Transmitted(c, id, max, chunk, r))
    && result == if Fits(c.marshal(last)) then Outcome(last) else ClosedEarly
  }

  lemma LastIsTerminal(c: Codec, id: seq<byte>, max: int, chunk: int, r: Request)
    ensures Terminal(LastFrame(c, id, max, chunk, r))
  {
  }

  /** The bytes of the frames that reach the wire. */
  ghost function SentBytes(c: Codec, id: seq<byte>, max: int, chunk: int, r: Request): seq<byte> {
    TransmittedFits(c, id, max, chunk, r);
    Wire(c, Transmitted(c, id, max, chunk, r))
  }

  lemma ClientSeesTransmitted(c: Codec, id: seq<byte>, max: int, chunk: int, r: Request, port: nat)
    requires GoJson(c)
    ensures var (seen, result) := ClientSpec(c, OkLine(port) + SentBytes(c, id, max, chunk, r));
            HostSees(c, id, max, chunk, r, seen, result)
  {
    var frames, last := Transmitted(c, id, max, chunk, r), LastFrame(c, id, max, chunk, r);
    TransmittedFits(c, id, max, chunk, r);
    LastIsTerminal(c, id, max, chunk, r);
    if Fits(c.marshal(last)) {
      assert frames == Body(c, id, max, chunk, r) + [last];
      ClientSeesFrames(c, frames, port, []);
      assert OkLine(port) + Wire(c, frames) + [] == OkLine(port) + Wire(c, frames);
    } else {
      assert frames == Body(c, id, max, chunk, r);
      LoopSeesOpenEnd(c, frames);
      AfterHandshake(c, Wire(c, frames), port);
    }
  }

  /** The whole reply reaches the wire if and only if each of its frames fits; otherwise fewer frames do. */
  lemma TransmittedIffFits(c: Codec, id: seq<byte>, max: int, chunk: int, r: Request)
    ensures Transmitted(c, id, max, chunk, r) == Reply(id, max, chunk, r) <==> AllFit(c, Reply(id, max, chunk, r))
    ensures !AllFit(c, Reply(id, max, chunk, r)) ==> |Transmitted(c, id, max, chunk, r)| < |Reply(id, max, chunk, r)|
  {
    var pieces := OutputPieces(max, chunk, r);
    TransmittedFits(c, id, max, chunk, r);
    if r.Ran? {
      SentPieces(c, id, Writer(0, false), max, ChunkSize(chunk), r.writes);
      var k := SentCount(c, id, pieces);
      SentCountMeans(c, id, pieces);
      ReplyParts(c, id, max, chunk, r);
      if k == |pieces| {
        assert pieces[..k] == pieces && r.(wait := Waited(r.wait, false)) == r;
        WrittenAll(c, id, max, chunk, r);
        OneFits(c, Final(id, r));
      }
    } else {
      assert Reply(id, max, chunk, r) == [Final(id, r)];
      OneFits(c, Final(id, r));
      assert Transmitted(c, id, max, chunk, r) == Attempt(c, Final(id, r));
    }
  }

  /** If all output is written, only the notice and the terminal frame can be missing. */
  lemma WrittenAll(c: Codec, id: seq<byte>, max: int, chunk: int, r: Request)
    requires r.Ran? && Written(c, id, max, chunk, r).pieces == OutputPieces(max, chunk, r)
    requires !Written(c, id, max, chunk, r).failed
    requires Written(c, id, max, chunk, r).truncated == AfterWrites(Writer(0, false), max, r.writes).truncated
    ensures var n := NoticeFrames(id, max, r);
            Transmitted(c, id, max, chunk, r)
            == Outputs(id, OutputPieces(max, chunk, r)) + (if AllFit(c, n) then n else []) + Attempt(c, Final(id, r))
    ensures !AllFit(c, NoticeFrames(id, max, r)) ==> |NoticeFrames(id, max, r)| == 1
  {
    assert r.(wait := Waited(r.wait, false)) == r;
    var n := NoticeFrames(id, max, r);
    if n != [] {
      assert n == [Output(id, Notice(max))];
      OneFits(c, Output(id, Notice(max)));
    }
  }

  lemma ReplyParts(c: Codec, id: seq<byte>, max: int, chunk: int, r: Request)
    ensures AllFit(c, Reply(id, max, chunk, r)) <==>
            && AllFit(c, Outputs(id, OutputPieces(max, chunk, r)))
            && AllFit(c, NoticeFrames(id, max, r)) && AllFit(c, [Final(id, r)])
    ensures AllFit(c, Outputs(id, OutputPieces(max, chunk, r))) <==>
            forall i :: 0 <= i < |OutputPieces(max, chunk, r)| ==> Fits(c.marshal(Output(id, OutputPieces(max, chunk, r)[i])))
  {
    var pieces := OutputPieces(max, chunk, r);
    AllFitConcat(c, Outputs(id, pieces) + NoticeFrames(id, max, r), [Final(id, r)]);
    AllFitConcat(c, Outputs(id, pieces), NoticeFrames(id, max, r));
    assert forall i :: 0 <= i < |pieces| ==> Outputs(id, pieces)[i] == Output(id, pieces[i]);
  }

  /** So the host sees the whole reply if and only if every frame of it fits. */
  lemma WholeReplyIffFits(c: Codec, id: seq<byte>, max: int, chunk: int, r: Request, seen: seq<Frame>, result: Result)
    requires HostSees(c, id, max, chunk, r, seen, result)
    ensures seen == SanitizedAll(Reply(id, max, chunk, r)) <==> AllFit(c, Reply(id, max, chunk, r))
  {
    TransmittedIffFits(c, id, max, chunk, r);
  }

  /** Output up to the first chunk whose frame is over the cap, the notice if the cap had been reached
      by then, and one terminal frame: an error if the process itself succeeded. */
  lemma OverCapReply(c: Codec, id: seq<byte>, max: int, chunk: int, r: Request, j: nat)
    requires r.Ran? && j < |OutputPieces(max, chunk, r)|
    requires forall i :: 0 <= i < j ==> Fits(c.marshal(Output(id, OutputPieces(max, chunk, r)[i])))
    requires !Fits(c.marshal(Output(id, OutputPieces(max, chunk, r)[j])))
    ensures var p := Written(c, id, max, chunk, r);
            && p.failed && p.pieces == OutputPieces(max, chunk, r)[..j]
            && (p.truncated ==> 0 < max < |Flatten(r.writes)|)
    ensures r.deadline.None? && r.wait == Exited(0) ==> LastFrame(c, id, max, chunk, r) == Error(id, TooLargeText())
  {
    var pieces := OutputPieces(max, chunk, r);
    SentPieces(c, id, Writer(0, false), max, ChunkSize(chunk), r.writes);
    SentCountMeans(c, id, pieces);
    var k := SentCount(c, id, pieces);
    assert k == j;
    CapExact(max, ChunkSize(chunk), r.writes);
  }

  /** So then the host sees the output before that chunk, perhaps the notice, and the terminal frame:
      an error for a process that succeeded, and otherwise what it would have been anyway. */
  lemma OverCapSeen(c: Codec, id: seq<byte>, max: int, chunk: int, r: Request, j: nat, seen: seq<Frame>, result: Result)
    requires HostSees(c, id, max, chunk, r, seen, result) && r.Ran? && j < |OutputPieces(max, chunk, r)|
    requires forall i :: 0 <= i < j ==> Fits(c.marshal(Output(id, OutputPieces(max, chunk, r)[i])))
    requires !Fits(c.marshal(Output(id, OutputPieces(max, chunk, r)[j])))
    requires Fits(c.marshal(LastFrame(c, id, max, chunk, r)))
    ensures j + 1 <= |seen| <= j + 2 && seen[..j] == SanitizedAll(Outputs(id, OutputPieces(max, chunk, r)[..j]))
    ensures |seen| == j + 2 ==> 0 < max < |Flatten(r.writes)| && seen[j] == Output(Sanitize(id), Sanitize(Notice(max)))
    ensures r.deadline == None && r.wait == Exited(0) ==>
      Reports(id, Ascii("protocol: frame exceeds maximum size"), seen[|seen| - 1], result)
    ensures !(r.deadline == None && r.wait == Exited(0)) ==> Ending(id, r, seen[|seen| - 1], result)
  {
    OverCapReply(c, id, max, chunk, r, j);
    var p, last := Written(c, id, max, chunk, r), LastFrame(c, id, max, chunk, r);
    var notice := if p.truncated && max > 0 then Attempt(c, Output(id, Notice(max))) else [];
    var frames := Transmitted(c, id, max, chunk, r);
    assert frames == Outputs(id, p.pieces) + notice + [last];
    assert frames[..j] == Outputs(id, p.pieces) && frames[|frames| - 1] == last;
  }

  /** For instance: whatever JSON does within its size law, a chunk larger than a frame loses all of a
      process's output. */
  lemma OversizeChunkLosesAll(c: Codec, id: seq<byte>, chunk: int, p: seq<byte>)
    requires GoJson(c) && |p| > MAX_FRAME && chunk >= |p| && 6 * |id| + 1000 <= MAX_FRAME
    ensures Transmitted(c, id, 0, chunk, Ran([p], None, Exited(0))) == [Error(id, TooLargeText())]
  {
    var r := Ran([p], None, Exited(0));
    var writes := [p];
    assert writes[1..] == [];
    assert Pieces(Writer(0, false), 0, ChunkSize(chunk), writes) == [p] + [];
    assert OutputPieces(0, chunk, r) == [p];
    assert TextSize(Output(id, p)) > MAX_FRAME;
    assert |c.marshal(Output(id, p))| >= TextSize(Output(id, p));
    OverCapReply(c, id, 0, chunk, r, 0);
    var e := Error(id, TooLargeText());
    assert TextSize(e) == |id| + 36;
    assert |c.marshal(e)| <= 6 * TextSize(e) + OVERHEAD;
  }

  // ---- when every frame fits ----

  lemma {:induction false} PiecesBounded(w: Writer, max: int, chunk: nat, writes: seq<seq<byte>>, n: nat)
    requires chunk > 0 && (chunk <= n || forall i :: 0 <= i < |writes| ==> |writes[i]| <= n)
    ensures forall i :: 0 <= i < |Pieces(w, max, chunk, writes)| ==> |Pieces(w, max, chunk, writes)[i]| <= n
    decreases |writes|
  {
    if writes != [] {
      ChunksCover(Accepted(w, max, writes[0]), chunk);
      PiecesBounded(AfterWrite(w, max, writes[0]), max, chunk, writes[1..], n);
    }
  }

  function Pow10(k: nat): nat {
    if k == 0 then 1 else 10 * Pow10(k - 1)
  }

  lemma {:induction false} DecimalShort(n: nat, k: nat)
    requires k > 0 && n < Pow10(k)
    ensures |Decimal(n)| <= k
  {
    if n >= 10 {
      assert k > 1;
      DecimalShort(n / 10, k - 1);
    }
  }

  lemma NoticeShort(max: int)
    requires 0 < max < I64
    ensures |Notice(max)| <= 64
  {
    assert Pow10(10) == 10000000000;
    assert Pow10(19) == 10000000000000000000;
    DecimalShort(max, 19);
  }

  /** Text of the terminal frame and its exit code are what the agent produces. */
  predicate ModestEnd(f: Frame, n: nat) {
    match f
    case Exit(_, code) => -I64 <= code < I64
    case Error(_, m) => |m| <= n
    case _ => true
  }

  /** Every frame fits if the id and `n` together stay within a sixth of the frame size, where `n`
      bounds the chunk size or every single write (os/exec copies in writes of at most 32 KiB). */
  lemma FramesFit(c: Codec, id: seq<byte>, max: int, chunk: int, r: Request, n: nat)
    requires GoJson(c) && max < I64 && 64 <= n && 6 * (|id| + n) + OVERHEAD <= MAX_FRAME && ModestEnd(Final(id, r), n)
    requires r.Ran? ==> ChunkSize(chunk) <= n || forall i :: 0 <= i < |r.writes| ==> |r.writes[i]| <= n
    ensures AllFit(c, Reply(id, max, chunk, r))
  {
    ReplyParts(c, id, max, chunk, r);
    if r.Ran? {
      PiecesBounded(Writer(0, false), max, ChunkSize(chunk), r.writes, n);
    }
    PiecesFit(c, id, OutputPieces(max, chunk, r), n);
    NoticeFits(c, id, max, r, n);
    SmallFrameFits(c, Final(id, r), |id| + n);
    OneFits(c, Final(id, r));
  }

  lemma NoticeFits(c: Codec, id: seq<byte>, max: int, r: Request, n: nat)
    requires GoJson(c) && max < I64 && 64 <= n && 6 * (|id| + n) + OVERHEAD <= MAX_FRAME
    ensures AllFit(c, NoticeFrames(id, max, r))
  {
    if max > 0 {
      NoticeShort(max);
      SmallFrameFits(c, Output(id, Notice(max)), |id| + n);
    }
  }

  lemma PiecesFit(c: Codec, id: seq<byte>, pieces: seq<seq<byte>>, n: nat)
    requires GoJson(c) && 6 * (|id| + n) + OVERHEAD <= MAX_FRAME && forall i :: 0 <= i < |pieces| ==> |pieces[i]| <= n
    ensures forall i :: 0 <= i < |pieces| ==> Fits(c.marshal(Output(id, pieces[i])))
  {
    forall i | 0 <= i < |pieces| ensures Fits(c.marshal(Output(id, pieces[i]))) {
      SmallFrameFits(c, Output(id, pieces[i]), |id| + n);
    }
  }

  lemma SmallFrameFits(c: Codec, f: Frame, n: nat)
    requires GoJson(c) && !f.Other? && (f.Exit? ==> -I64 <= f.code < I64)
    requires TextSize(f) <= n && 6 * n + OVERHEAD <= MAX_FRAME
    ensures Fits(c.marshal(f))
  {
    assert |c.marshal(f)| <= 6 * TextSize(f) + OVERHEAD;
  }

  /** With the default chunk size of 32 KiB and an id of up to 2 MiB this is always so. */
  lemma DefaultChunkFits(c: Codec, id: seq<byte>, max: int, r: Request)
    requires GoJson(c) && max < I64 && |id| <= 0x20_0000 && ModestEnd(Final(id, r), 0x8000)
    ensures AllFit(c, Reply(id, max, 0, r))
  {
    FramesFit(c, id, max, 0, r, 0x8000);
  }

  // ---- guest and host together ----

  /** What the host's caller gets for a request: exactly the frames that were sent; if all frames of the
      reply fit, its end and, for a script, the delivery above. */
  ghost predicate CallerGets(c: Codec, id: seq<byte>, max: int, chunk: int, r: Request, seen: seq<Frame>, result: Result) {
    && HostSees(c, id, max, chunk, r, seen, result)
    && (AllFit(c, Reply(id, max, chunk, r)) ==> seen != [] && Ending(id, r, seen[|seen| - 1], result))
    && (r.Ran? && AllFit(c, Reply(id, max, chunk, r)) ==> Delivered(id, max, chunk, r, seen, result))
  }

  lemma FittingReplyBytes(c: Codec, id: seq<byte>, max: int, chunk: int, r: Request, port: nat)
    requires AllFit(c, Reply(id, max, chunk, r))
    ensures OkLine(port) + SentBytes(c, id, max, chunk, r) == OkLine(port) + Wire(c, Reply(id, max, chunk, r)) + []
  {
    TransmittedIffFits(c, id, max, chunk, r);
  }

  lemma SentIsGot(c: Codec, id: seq<byte>, max: int, chunk: int, r: Request, port: nat)
    requires GoJson(c)
    ensures var (seen, result) := ClientSpec(c, OkLine(port) + SentBytes(c, id, max, chunk, r));
            CallerGets(c, id, max, chunk, r, seen, result)
  {
    ClientSeesTransmitted(c, id, max, chunk, r, port);
    if AllFit(c, Reply(id, max, chunk, r)) {
      FittingReplyBytes(c, id, max, chunk, r, port);
      EndSeen(c, id, max, chunk, r, port, []);
      if r.Ran? {
        StreamDelivered(c, id, max, chunk, r, port, []);
      }
    }
  }

  /** One execution from the process's writes to the host's caller.  The guest writes its frames; their
      bytes, after Firecracker's reply line, arrive in any fragments, of which the handshake may
      read ahead any number. */
  method RemoteExec(c: Codec, id: seq<byte>, max: int, chunk: int, r: Request, conn: Conn, ghost port: nat)
    returns (sent: seq<Frame>, seen: seq<Frame>, result: Result)
    requires GoJson(c) && conn.Valid() && conn.Unread() == OkLine(port) + SentBytes(c, id, max, chunk, r)
    modifies conn
    ensures sent == Transmitted(c, id, max, chunk, r) && Answers(id, r, OverCap(c, id, max, chunk, r), c, sent)
    ensures CallerGets(c, id, max, chunk, r, seen, result)
  {
    SentIsGot(c, id, max, chunk, r, port);
    sent := Answer(c, id, max, chunk, r);
    seen, result := conn.Exec(c);
  }

  lemma WireOfOne(c: Codec, frames: seq<Frame>)
    requires AllFit(c, frames) && frames != []
    ensures |frames| == 1 ==> Wire(c, frames) == Encode(c.marshal(frames[0]))
  {
    if |frames| == 1 {
      assert frames[1..] == [];
    }
  }

  lemma BrokenInFirst(c: Codec, frames: seq<Frame>, k: nat)
    requires AllFit(c, frames) && frames != [] && k < |Encode(c.marshal(frames[0]))|
    ensures var e := ExecSpec(c, Wire(c, frames)[..k]); e.0 == [] && (e.1.ClosedEarly? || e.1.ReadFailed?)
  {
    assert Wire(c, frames)[..k] == Encode(c.marshal(frames[0]))[..k];
    ReadCut(c.marshal(frames[0]), k);
  }

  lemma BrokenLater(c: Codec, frames: seq<Frame>, k: nat)
    requires GoJson(c) && AllFit(c, frames) && frames != [] && !Terminal(frames[0])
    requires |Encode(c.marshal(frames[0]))| <= k <= |Wire(c, frames)|
    ensures var tail := ExecSpec(c, Wire(c, frames[1..])[..k - |Encode(c.marshal(frames[0]))|]);
            ExecSpec(c, Wire(c, frames)[..k]) == ([Sanitized(frames[0])] + tail.0, tail.1)
  {
    var first, rest := Encode(c.marshal(frames[0])), Wire(c, frames[1..]);
    TakeConcat(first, rest, k);
    LoopStep(c, frames[0], rest[..k - |first|]);
  }

  lemma ReplyTail(frames: seq<Frame>)
    requires WellFormedReply(frames) && |frames| > 1
    ensures WellFormedReply(frames[1..]) && !Terminal(frames[0])
  {
    var rest := frames[1..];
    assert rest[|rest| - 1] == frames[|frames| - 1];
    assert forall i :: 0 <= i < |rest| - 1 ==> rest[i] == frames[i + 1];
  }

  /** Cut at byte `k`, the stream shows the first `j` frames and an error. */
  ghost predicate ShowsPrefix(c: Codec, frames: seq<Frame>, k: nat, j: nat)
    requires AllFit(c, frames) && k <= |Wire(c, frames)|
  {
    var e := ExecSpec(c, Wire(c, frames)[..k]);
    j < |frames| && e.0 == SanitizedAll(frames[..j]) && (e.1.ClosedEarly? || e.1.ReadFailed?)
  }

  lemma ShowsNext(c: Codec, frames: seq<Frame>, k: nat, i: nat)
    requires GoJson(c) && AllFit(c, frames) && frames != [] && !Terminal(frames[0])
    requires |Encode(c.marshal(frames[0]))| <= k <= |Wire(c, frames)|
    requires ShowsPrefix(c, frames[1..], k - |Encode(c.marshal(frames[0]))|, i)
    ensures ShowsPrefix(c, frames, k, i + 1)
  {
    BrokenLater(c, frames, k);
    SanitizedTake(frames, i);
  }

  lemma SanitizedTake(frames: seq<Frame>, i: nat)
    requires i < |frames|
    ensures SanitizedAll(frames[..i + 1]) == [Sanitized(frames[0])] + SanitizedAll(frames[1..][..i])
  {
    assert frames[..i + 1] == [frames[0]] + frames[1..][..i];
    SanitizedCons(frames[0], frames[1..][..i]);
  }

  lemma BrokenSplit(c: Codec, frames: seq<Frame>, k: nat)
    requires AllFit(c, frames) && WellFormedReply(frames) && |Encode(c.marshal(frames[0]))| <= k < |Wire(c, frames)|
    ensures AllFit(c, frames[1..]) && k - |Encode(c.marshal(frames[0]))| < |Wire(c, frames[1..])|
    ensures WellFormedReply(frames[1..]) && !Terminal(frames[0])
  {
    WireOfOne(c, frames);
    ReplyTail(frames);
  }

  /** A connection that breaks inside the reply shows the host a prefix of it and an error, never
      a different frame. */
  lemma {:induction false} BrokenStreamShowsPrefix(c: Codec, frames: seq<Frame>, k: nat) returns (j: nat)
    requires GoJson(c) && AllFit(c, frames) && WellFormedReply(frames) && k < |Wire(c, frames)|
    ensures ShowsPrefix(c, frames, k, j)
    decreases |frames|
  {
    var n := |Encode(c.marshal(frames[0]))|;
    if k < n {
      j := 0;
      BrokenInFirst(c, frames, k);
    } else {
      BrokenSplit(c, frames, k);
      var i := BrokenStreamShowsPrefix(c, frames[1..], k - n);
      ShowsNext(c, frames, k, i);
      j := i + 1;
    }
  }

  /** For output that is plain ASCII every chunk is well-formed, so delivery is exact. */
  lemma AsciiDeliveredExactly(c: Codec, id: seq<byte>, max: int, chunk: int, r: Request, port: nat, after: seq<byte>)
    requires GoJson(c) && AllFit(c, Reply(id, max, chunk, r)) && r.Ran? && IsAscii(Flatten(r.writes))
    ensures var all := Flatten(r.writes);
            var seen := ClientSpec(c, OkLine(port) + Wire(c, Reply(id, max, chunk, r)) + after).0;
            |OutputPieces(max, chunk, r)| <= |seen|
            && DataOf(seen[..|OutputPieces(max, chunk, r)|]) == if 0 < max < |all| then all[..max] else all
  {
    var pieces := OutputPieces(max, chunk, r);
    CapExact(max, ChunkSize(chunk), r.writes);
    assert IsAscii(Flatten(pieces));
    AsciiPieces(pieces);
    StreamDelivered(c, id, max, chunk, r, port, after);
  }

  lemma {:induction false} AsciiPieces(pieces: seq<seq<byte>>)
    requires IsAscii(Flatten(pieces))
    ensures AllValid(pieces)
  {
    if pieces != [] {
      var p, rest := pieces[0], pieces[1..];
      assert Flatten(pieces) == p + Flatten(rest);
      assert forall i :: 0 <= i < |p| ==> p[i] == Flatten(pieces)[i];
      assert forall i :: 0 <= i < |Flatten(rest)| ==> Flatten(rest)[i] == Flatten(pieces)[|p| + i];
      AsciiValid(p);
      AsciiPieces(rest);
      assert pieces == [p] + rest;
    }
  }

  /** But well-formed output is not enough: a two-byte character split between chunks arrives as
      two replacement characters. */
  lemma SplitCharacterIsLost()
    ensures var r := Ran([[0xC3, 0xA9]], None, Exited(0));
            && Valid(Flatten(r.writes))
            && OutputPieces(0, 1, r) == [[0xC3], [0xA9]]
            && Flatten(SanitizedPieces(OutputPieces(0, 1, r))) == REPLACEMENT + REPLACEMENT
  {
    var e: seq<byte> := [0xC3, 0xA9];
    var writes: seq<seq<byte>> := [e];
    assert writes[1..] == [];
    assert Flatten(writes) == e + Flatten(writes[1..]) == e;
    assert RuneLen(e) == 2 && e[2..] == [];
    assert Valid(e);
    assert e[..1] == [0xC3] && e[1..] == [0xA9];
    assert Chunks(e[1..], 1) == [e[1..]];
    assert Chunks(e, 1) == [e[..1]] + Chunks(e[1..], 1);
    assert Pieces(Writer(0, false), 0, 1, writes) == Chunks(e, 1) + [];
    var head: seq<byte>, tail: seq<byte> := [0xC3], [0xA9];
    assert RuneLen(head) == 0 && head[1..] == [] && RuneLen(tail) == 0 && tail[1..] == [];
    assert Sanitize(head) == REPLACEMENT + [] == REPLACEMENT;
    assert Sanitize(tail) == REPLACEMENT + [] == REPLACEMENT;
    var pieces := [head, tail];
    assert SanitizedPieces(pieces) == [REPLACEMENT, REPLACEMENT];
    var none: seq<byte> := [];
    var out: seq<seq<byte>>, rest: seq<seq<byte>> := [REPLACEMENT, REPLACEMENT], [REPLACEMENT];
    assert out[1..] == rest && rest[1..] == [];
    assert Flatten(rest) == REPLACEMENT + none == REPLACEMENT;
    assert Flatten(out) == REPLACEMENT + REPLACEMENT;
  }
}
