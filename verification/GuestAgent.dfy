/** The guest side of an execution (cmd/guest-agent/guest_agent.go): the capped, chunking
    writer of process output, and the frames a request is answered with. */
module GuestAgent {
  import opened Wrappers
  import opened Utf8
  import opened Framing

  /** Response frames; `Other` is any frame kind the protocol does not define. */
  datatype Frame =
    | Output(id: seq<byte>, data: seq<byte>)
    | Exit(id: seq<byte>, code: int)
    | Error(id: seq<byte>, message: seq<byte>)
    | Pong(id: seq<byte>)
    | Other(id: seq<byte>)

  predicate Terminal(f: Frame) {
    f.Exit? || f.Error? || f.Pong?
  }

  function Flatten<T>(s: seq<seq<T>>): seq<T> {
    if s == [] then [] else s[0] + Flatten(s[1..])
  }

  lemma {:induction false} FlattenConcat<T>(a: seq<seq<T>>, b: seq<seq<T>>)
    ensures Flatten(a + b) == Flatten(a) + Flatten(b)
  {
    if a == [] {
      assert a + b == b;
    } else {
      assert (a + b)[1..] == a[1..] + b;
      FlattenConcat(a[1..], b);
    }
  }

  // ---- the writer ----

  /** Bytes forwarded so far, and whether the cap has been hit. */
  datatype Writer = Writer(written: int, truncated: bool)

  /** The part of `p` that one Write forwards; a cap of 0 or less means none. */
  function Accepted(w: Writer, max: int, p: seq<byte>): (a: seq<byte>)
    ensures a <= p
  {
    if w.truncated then []
    else if max > 0 && w.written + |p| > max then
      if max - w.written > 0 then p[..max - w.written] else []
    else p
  }

  function AfterWrite(w: Writer, max: int, p: seq<byte>): Writer {
    Writer(w.written + |Accepted(w, max, p)|, w.truncated || (max > 0 && w.written + |p| > max))
  }

  /** Pieces of at most `chunk` bytes. */
  function Chunks(p: seq<byte>, chunk: nat): (c: seq<seq<byte>>)
    requires chunk > 0
    decreases |p|
  {
    if p == [] then []
    else if |p| <= chunk then [p]
    else [p[..chunk]] + Chunks(p[chunk..], chunk)
  }

  /** They make up the whole, none is empty, and all but the last are full. */
  lemma {:induction false} ChunksCover(p: seq<byte>, chunk: nat)
    requires chunk > 0
    ensures Flatten(Chunks(p, chunk)) == p
    ensures forall i :: 0 <= i < |Chunks(p, chunk)| ==> 0 < |Chunks(p, chunk)[i]| <= chunk && |Chunks(p, chunk)[i]| <= |p|
    ensures forall i :: 0 <= i < |Chunks(p, chunk)| - 1 ==> |Chunks(p, chunk)[i]| == chunk
    decreases |p|
  {
    if |p| > chunk {
      ChunksCover(p[chunk..], chunk);
      assert p == p[..chunk] + p[chunk..];
    }
  }

  /** The pieces forwarded for a sequence of writes. */
  function Pieces(w: Writer, max: int, chunk: nat, writes: seq<seq<byte>>): seq<seq<byte>>
    requires chunk > 0
    decreases |writes|
  {
    if writes == [] then []
    else Chunks(Accepted(w, max, writes[0]), chunk) + Pieces(AfterWrite(w, max, writes[0]), max, chunk, writes[1..])
  }

  function AfterWrites(w: Writer, max: int, writes: seq<seq<byte>>): Writer
    decreases |writes|
  {
    if writes == [] then w else AfterWrites(AfterWrite(w, max, writes[0]), max, writes[1..])
  }

  /** How much of `total` bytes the cap lets through. */
  function Cap(max: int, total: nat): nat {
    if 0 < max < total then max else total
  }

  /** The writer after `done` bytes in all. */
  function WriterAt(max: int, done: nat): Writer {
    Writer(Cap(max, done), 0 < max < done)
  }

  lemma WriteStep(max: int, done: seq<byte>, p: seq<byte>)
    ensures var w := WriterAt(max, |done|);
            && AfterWrite(w, max, p) == WriterAt(max, |done + p|)
            && Accepted(w, max, p) == (done + p)[Cap(max, |done|)..Cap(max, |done + p|)]
  {
  }

  lemma JoinSlices<T>(s: seq<T>, t: seq<T>, i: nat, j: nat, k: nat)
    requires i <= j <= |s| && s <= t && j <= k <= |t|
    ensures s[i..j] + t[j..k] == t[i..k]
  {
  }

  /** All bytes that a sequence of writes forwards. */
  function Kept(w: Writer, max: int, writes: seq<seq<byte>>): seq<byte>
    decreases |writes|
  {
    if writes == [] then [] else Accepted(w, max, writes[0]) + Kept(AfterWrite(w, max, writes[0]), max, writes[1..])
  }

  lemma {:induction false} PiecesAreKept(w: Writer, max: int, chunk: nat, writes: seq<seq<byte>>)
    requires chunk > 0
    ensures Flatten(Pieces(w, max, chunk, writes)) == Kept(w, max, writes)
    decreases |writes|
  {
    if writes != [] {
      var a, w' := Accepted(w, max, writes[0]), AfterWrite(w, max, writes[0]);
      PiecesAreKept(w', max, chunk, writes[1..]);
      ChunksCover(a, chunk);
      FlattenConcat(Chunks(a, chunk), Pieces(w', max, chunk, writes[1..]));
    }
  }

  /** From a writer that has seen `done`, further writes forward the rest up to the cap. */
  lemma {:induction false} KeptFrom(max: int, done: seq<byte>, writes: seq<seq<byte>>)
    ensures var w, all := WriterAt(max, |done|), done + Flatten(writes);
            && Kept(w, max, writes) == all[Cap(max, |done|)..Cap(max, |all|)]
            && AfterWrites(w, max, writes) == WriterAt(max, |all|)
    decreases |writes|
  {
    var all := done + Flatten(writes);
    if writes == [] {
      assert all == done;
    } else {
      WriteStep(max, done, writes[0]);
      var done' := done + writes[0];
      KeptFrom(max, done', writes[1..]);
      assert done' + Flatten(writes[1..]) == all;
      JoinSlices(done', all, Cap(max, |done|), Cap(max, |done'|), Cap(max, |all|));
    }
  }

  /** For every sequence of process writes and every chunk size, the forwarded pieces are
      together the first min(total, MaxOutput) bytes, and the writer is truncated exactly when
      the total exceeds a positive MaxOutput. */
  lemma CapExact(max: int, chunk: nat, writes: seq<seq<byte>>)
    requires chunk > 0
    ensures var all := Flatten(writes);
            && Flatten(Pieces(Writer(0, false), max, chunk, writes)) == (if 0 < max < |all| then all[..max] else all)
            && AfterWrites(Writer(0, false), max, writes).truncated == (0 < max < |all|)
  {
    PiecesAreKept(Writer(0, false), max, chunk, writes);
    KeptFrom(max, [], writes);
    assert [] + Flatten(writes) == Flatten(writes);
  }

  function ChunkSize(configured: int): (n: nat)
    ensures n > 0
  {
    if configured <= 0 then 32 * 1024 else configured
  }

  function Outputs(id: seq<byte>, pieces: seq<seq<byte>>): (f: seq<Frame>)
    ensures |f| == |pieces|
  {
    seq(|pieces|, i requires 0 <= i < |pieces| => Output(id, pieces[i]))
  }

  lemma ChunksHead(q: seq<byte>, chunk: nat)
    requires q != [] && chunk > 0
    ensures var c := if |q| > chunk then q[..chunk] else q; Chunks(q, chunk) == [c] + Chunks(q[|c|..], chunk)
  {
  }

  /** JSON as a codec on frames. */
  datatype Codec = Codec(marshal: Frame -> seq<byte>, unmarshal: seq<byte> -> Option<Frame>)

  /** How many of the pieces are sent before one whose frame is over the size cap. */
  function SentCount(c: Codec, id: seq<byte>, pieces: seq<seq<byte>>): (k: nat)
    ensures k <= |pieces|
  {
    if pieces == [] || !Fits(c.marshal(Output(id, pieces[0]))) then 0 else 1 + SentCount(c, id, pieces[1..])
  }

  /** It is the position of the first piece over the cap, or the length if there is none. */
  lemma {:induction false} SentCountMeans(c: Codec, id: seq<byte>, pieces: seq<seq<byte>>)
    ensures var k := SentCount(c, id, pieces);
            && (forall i :: 0 <= i < k ==> Fits(c.marshal(Output(id, pieces[i]))))
            && (k < |pieces| ==> !Fits(c.marshal(Output(id, pieces[k]))))
  {
    if pieces != [] && Fits(c.marshal(Output(id, pieces[0]))) {
      SentCountMeans(c, id, pieces[1..]);
    }
  }

  lemma {:induction false} SentCountConcat(c: Codec, id: seq<byte>, a: seq<seq<byte>>, b: seq<seq<byte>>)
    ensures SentCount(c, id, a + b) == if SentCount(c, id, a) < |a| then SentCount(c, id, a) else |a| + SentCount(c, id, b)
  {
    if a == [] {
      assert a + b == b;
    } else {
      assert (a + b)[1..] == a[1..] + b;
      SentCountConcat(c, id, a[1..], b);
    }
  }

  lemma NextPiece(c: Codec, id: seq<byte>, pieces: seq<seq<byte>>, j: nat, x: seq<byte>, tail: seq<seq<byte>>)
    requires j < |pieces| && pieces[j..] == [x] + tail
    ensures pieces[j + 1..] == tail && Outputs(id, pieces[..j + 1]) == Outputs(id, pieces[..j]) + [Output(id, x)]
    ensures SentCount(c, id, pieces[j..]) == if Fits(c.marshal(Output(id, x))) then 1 + SentCount(c, id, tail) else 0
  {
    assert pieces[j..][0] == x && pieces[j..][1..] == tail;
    assert pieces[j..][1..] == pieces[j + 1..];
  }

  lemma SendNext(c: Codec, id: seq<byte>, before: seq<Frame>, now: seq<Frame>, pieces: seq<seq<byte>>, j: nat,
                 x: seq<byte>, tail: seq<seq<byte>>)
    requires j < |pieces| && pieces[j..] == [x] + tail && now == before + Outputs(id, pieces[..j])
    requires SentCount(c, id, pieces) == j + SentCount(c, id, pieces[j..])
    ensures pieces[j + 1..] == tail && now + [Output(id, x)] == before + Outputs(id, pieces[..j + 1])
    ensures SentCount(c, id, pieces) == if Fits(c.marshal(Output(id, x))) then j + 1 + SentCount(c, id, tail) else j
  {
    NextPiece(c, id, pieces, j, x, tail);
    assert (before + Outputs(id, pieces[..j])) + [Output(id, x)] == before + (Outputs(id, pieces[..j]) + [Output(id, x)]);
  }

  class StreamWriter {
    const codec: Codec
    const id: seq<byte>
    const max: int
    const chunk: nat
    var written: int
    var truncated: bool
    var sent: seq<Frame>

    constructor (codec: Codec, id: seq<byte>, max: int, configured: int)
      ensures this.codec == codec && this.id == id && this.max == max
      ensures chunk == (if configured <= 0 then 32768 else configured) == ChunkSize(configured)
      ensures written == 0 && !truncated && sent == []
    {
      this.codec, this.id, this.max, this.chunk := codec, id, max, ChunkSize(configured);
      written, truncated, sent := 0, false, [];
    }

    /** One Write.  It always reports the whole input as consumed, and forwards the accepted part
        in chunks, up to the first whose frame is over the size cap. */
    method Write(p: seq<byte>) returns (n: nat, ok: bool)
      requires chunk > 0
      modifies this
      ensures n == |p|
      ensures truncated == AfterWrite(Writer(old(written), old(truncated)), max, p).truncated
      ensures var pieces := Chunks(Accepted(Writer(old(written), old(truncated)), max, p), chunk);
              var k := SentCount(codec, id, pieces);
              && sent == old(sent) + Outputs(id, pieces[..k]) && (ok <==> k == |pieces|)
              && (ok ==> written == AfterWrite(Writer(old(written), old(truncated)), max, p).written)
    {
      n := |p|;
      if truncated {
        return n, true;
      }
      var q := p;
      if max > 0 && written + |p| > max {
        var allow := max - written;
        if allow > 0 {
          q := p[..allow];
        } else {
          q := [];
        }
        truncated := true;
      }
      assert q == Accepted(Writer(old(written), old(truncated)), max, p);
      ok := Forward(q);
    }

    /** The first `j` pieces have been sent and fit; `q` is what is left to cut. */
    ghost predicate Progress(before: seq<Frame>, now: seq<Frame>, pieces: seq<seq<byte>>, j: nat, q: seq<byte>)
      requires chunk > 0
    {
      && j <= |pieces| && pieces[j..] == Chunks(q, chunk) && now == before + Outputs(id, pieces[..j])
      && SentCount(codec, id, pieces) == j + SentCount(codec, id, pieces[j..])
    }

    /** The next piece is sent, or it is the one to stop at. */
    lemma ProgressNext(before: seq<Frame>, now: seq<Frame>, pieces: seq<seq<byte>>, j: nat, q: seq<byte>)
      requires chunk > 0 && q != [] && Progress(before, now, pieces, j, q)
      ensures var c := if |q| > chunk then q[..chunk] else q;
              if Fits(codec.marshal(Output(id, c))) then Progress(before, now + [Output(id, c)], pieces, j + 1, q[|c|..])
              else SentCount(codec, id, pieces) == j < |pieces|
    {
      var c := if |q| > chunk then q[..chunk] else q;
      ChunksHead(q, chunk);
      SendNext(codec, id, before, now, pieces, j, c, Chunks(q[|c|..], chunk));
    }

    /** The chunking loop; it stops early only at the first frame over the size cap, having sent
        exactly the pieces before it. */
    method Forward(data: seq<byte>) returns (ok: bool)
      requires chunk > 0
      modifies this`sent, this`written
      ensures var pieces := Chunks(data, chunk);
              var k := SentCount(codec, id, pieces);
              sent == old(sent) + Outputs(id, pieces[..k]) && (ok <==> k == |pieces|)
      ensures ok ==> written == old(written) + |data|
    {
      var q := data;
      ghost var pieces, j := Chunks(data, chunk), 0;
      assert pieces[0..] == pieces;
      while q != []
        invariant Progress(old(sent), sent, pieces, j, q) && written + |q| == old(written) + |data|
        decreases |q|
      {
        ProgressNext(old(sent), sent, pieces, j, q);
        var c := q;
        if |c| > chunk {
          c := c[..chunk];
        }
        var f := Output(id, c);
        if |codec.marshal(f)| > MAX_FRAME {
          return false;
        }
        sent := sent + [f];
        written := written + |c|;
        q := q[|c|..];
        j := j + 1;
      }
      assert pieces[j..] == [];
      return true;
    }
  }

  // ---- replies ----

  datatype WaitResult = Exited(code: int) | WaitError(message: seq<byte>)

  /** What happens to a request in the guest. */
  datatype Request =
    | Ping
    | UnknownKind(message: seq<byte>)
    | EmptyScript(message: seq<byte>)
    | StartFailed(message: seq<byte>)
    | Ran(writes: seq<seq<byte>>, deadline: Option<seq<byte>>, wait: WaitResult)

  function Notice(max: int): (b: seq<byte>)
    requires max > 0
    ensures IsAscii(b)
  {
    Ascii("\n[output truncated at ") + Decimal(max) + Ascii(" bytes]\n")
  }

  /** The frame that ends the reply. */
  function Final(id: seq<byte>, r: Request): Frame {
    match r
    case Ping => Pong(id)
    case UnknownKind(m) => Error(id, m)
    case EmptyScript(m) => Error(id, m)
    case StartFailed(m) => Error(id, m)
    case Ran(_, deadline, wait) =>
      if deadline.Some? then Error(id, deadline.value)
      else match wait
        case Exited(code) => Exit(id, code)
        case WaitError(m) => Error(id, m)
  }

  /** The pieces of output a request produces. */
  function OutputPieces(max: int, chunk: int, r: Request): seq<seq<byte>> {
    if r.Ran? then Pieces(Writer(0, false), max, ChunkSize(chunk), r.writes) else []
  }

  function NoticeFrames(id: seq<byte>, max: int, r: Request): seq<Frame> {
    if r.Ran? && AfterWrites(Writer(0, false), max, r.writes).truncated && max > 0 then [Output(id, Notice(max))] else []
  }

  /** The whole reply, in order. */
  function Reply(id: seq<byte>, max: int, chunk: int, r: Request): seq<Frame> {
    Outputs(id, OutputPieces(max, chunk, r)) + NoticeFrames(id, max, r) + [Final(id, r)]
  }

  /** Zero or more non-terminal frames, then exactly one terminal frame. */
  predicate WellFormedReply(frames: seq<Frame>) {
    frames != [] && Terminal(frames[|frames| - 1]) && forall i :: 0 <= i < |frames| - 1 ==> !Terminal(frames[i])
  }

  lemma ReplyWellFormed(id: seq<byte>, max: int, chunk: int, r: Request)
    ensures WellFormedReply(Reply(id, max, chunk, r))
  {
    var body := Outputs(id, OutputPieces(max, chunk, r)) + NoticeFrames(id, max, r);
    assert forall i :: 0 <= i < |body| ==> body[i].Output?;
  }

  // ---- what is sent when a frame is over the size cap ----

  /** protocol.ErrFrameTooLarge, as text. */
  function TooLargeText(): (b: seq<byte>) {
    Ascii("protocol: frame exceeds maximum size")
  }

  /** The pieces sent by a series of writes, which ends at the first failing one. */
  datatype Progress = Progress(pieces: seq<seq<byte>>, truncated: bool, failed: bool)

  function RunWrites(c: Codec, id: seq<byte>, w: Writer, max: int, chunk: nat, writes: seq<seq<byte>>): Progress
    requires chunk > 0
    decreases |writes|
  {
    if writes == [] then Progress([], w.truncated, false)
    else
      var pieces, w' := Chunks(Accepted(w, max, writes[0]), chunk), AfterWrite(w, max, writes[0]);
      var k := SentCount(c, id, pieces);
      if k < |pieces| then Progress(pieces[..k], w'.truncated, true)
      else var rest := RunWrites(c, id, w', max, chunk, writes[1..]); rest.(pieces := pieces + rest.pieces)
  }

  /** What cmd.Wait reports: the error of the copying goroutine only if the process succeeded. */
  function Waited(wait: WaitResult, failed: bool): WaitResult {
    if failed && wait == Exited(0) then WaitError(TooLargeText()) else wait
  }

  /** A frame that is written, or refused and its error ignored. */
  function Attempt(c: Codec, f: Frame): seq<Frame> {
    if Fits(c.marshal(f)) then [f] else []
  }

  function Written(c: Codec, id: seq<byte>, max: int, chunk: int, r: Request): Progress {
    if r.Ran? then RunWrites(c, id, Writer(0, false), max, ChunkSize(chunk), r.writes) else Progress([], false, false)
  }

  /** The terminal frame that is attempted. */
  function LastFrame(c: Codec, id: seq<byte>, max: int, chunk: int, r: Request): Frame {
    if r.Ran? then Final(id, r.(wait := Waited(r.wait, Written(c, id, max, chunk, r).failed))) else Final(id, r)
  }

  /** The frames that reach the wire, whatever fits and whatever does not. */
  function Transmitted(c: Codec, id: seq<byte>, max: int, chunk: int, r: Request): seq<Frame> {
    var p := Written(c, id, max, chunk, r);
    Outputs(id, p.pieces)
    + (if p.truncated && max > 0 then Attempt(c, Output(id, Notice(max))) else [])
    + Attempt(c, LastFrame(c, id, max, chunk, r))
  }

  lemma {:induction false} TruncatedStays(w: Writer, max: int, writes: seq<seq<byte>>)
    ensures w.truncated ==> AfterWrites(w, max, writes).truncated
    decreases |writes|
  {
    if writes != [] {
      TruncatedStays(AfterWrite(w, max, writes[0]), max, writes[1..]);
    }
  }

  lemma PrefixOfConcat<T>(a: seq<T>, b: seq<T>, j: nat, k: nat)
    requires j <= |a| && k <= |b|
    ensures (a + b)[..j] == a[..j] && (a + b)[..|a| + k] == a + b[..k]
  {
  }

  /** The pieces sent are those before the first over the cap, over all writes together. */
  lemma {:induction false} SentPieces(c: Codec, id: seq<byte>, w: Writer, max: int, chunk: nat, writes: seq<seq<byte>>)
    requires chunk > 0
    ensures var all := Pieces(w, max, chunk, writes);
            var p, k := RunWrites(c, id, w, max, chunk, writes), SentCount(c, id, all);
            && p.pieces == all[..k] && (p.failed <==> k < |all|)
            && (p.truncated ==> AfterWrites(w, max, writes).truncated)
            && (!p.failed ==> p.truncated == AfterWrites(w, max, writes).truncated)
    decreases |writes|
  {
    if writes != [] {
      var w' := AfterWrite(w, max, writes[0]);
      var first, rest := Chunks(Accepted(w, max, writes[0]), chunk), Pieces(w', max, chunk, writes[1..]);
      SentPieces(c, id, w', max, chunk, writes[1..]);
      SentCountConcat(c, id, first, rest);
      TruncatedStays(w', max, writes[1..]);
      PrefixOfConcat(first, rest, SentCount(c, id, first), SentCount(c, id, rest));
    }
  }

  /** The writes of one process, one after the other, until one fails. */
  method CopyOutput(sw: StreamWriter, writes: seq<seq<byte>>) returns (failed: bool)
    requires sw.chunk > 0 && sw.written == 0 && !sw.truncated && sw.sent == []
    modifies sw
    ensures var p := RunWrites(sw.codec, sw.id, Writer(0, false), sw.max, sw.chunk, writes);
            sw.sent == Outputs(sw.id, p.pieces) && sw.truncated == p.truncated && failed == p.failed
  {
    ghost var total := RunWrites(sw.codec, sw.id, Writer(0, false), sw.max, sw.chunk, writes);
    ghost var done: seq<seq<byte>> := [];
    var i := 0;
    assert writes[0..] == writes;
    while i < |writes|
      invariant 0 <= i <= |writes| && sw.sent == Outputs(sw.id, done)
      invariant Rest(sw.codec, sw.id, Writer(sw.written, sw.truncated), sw.max, sw.chunk, writes[i..], done, total)
    {
      RestStep(sw.codec, sw.id, Writer(sw.written, sw.truncated), sw.max, sw.chunk, writes[i..], done, total);
      ghost var pieces := Chunks(Accepted(Writer(sw.written, sw.truncated), sw.max, writes[i]), sw.chunk);
      ghost var k := SentCount(sw.codec, sw.id, pieces);
      OutputsConcat(sw.id, done, pieces[..k]);
      assert writes[i..][1..] == writes[i + 1..];
      var n, ok := sw.Write(writes[i]);
      if !ok {
        return true;
      }
      assert pieces[..k] == pieces;
      done := done + pieces;
      i := i + 1;
    }
    return false;
  }

  lemma OutputsConcat(id: seq<byte>, a: seq<seq<byte>>, b: seq<seq<byte>>)
    ensures Outputs(id, a + b) == Outputs(id, a) + Outputs(id, b)
  {
  }

  /** `done` and what the writes still to come send make up `total`. */
  ghost predicate Rest(c: Codec, id: seq<byte>, w: Writer, max: int, chunk: nat, writes: seq<seq<byte>>,
                       done: seq<seq<byte>>, total: Progress)
    requires chunk > 0
  {
    var p := RunWrites(c, id, w, max, chunk, writes);
    total == p.(pieces := done + p.pieces)
  }

  lemma RestStep(c: Codec, id: seq<byte>, w: Writer, max: int, chunk: nat, writes: seq<seq<byte>>,
                 done: seq<seq<byte>>, total: Progress)
    requires chunk > 0 && writes != [] && Rest(c, id, w, max, chunk, writes, done, total)
    ensures var pieces, w' := Chunks(Accepted(w, max, writes[0]), chunk), AfterWrite(w, max, writes[0]);
            var k := SentCount(c, id, pieces);
            if k < |pieces| then total == Progress(done + pieces[..k], w'.truncated, true)
            else Rest(c, id, w', max, chunk, writes[1..], done + pieces, total)
  {
    var pieces, w' := Chunks(Accepted(w, max, writes[0]), chunk), AfterWrite(w, max, writes[0]);
    var rest := RunWrites(c, id, w', max, chunk, writes[1..]);
    assert done + (pieces + rest.pieces) == (done + pieces) + rest.pieces;
  }

  /** The terminal frame of a reply, given whether copying the output has failed: a passed deadline comes
      first, then the error or the code of the wait; the copying error shows only after a success. */
  predicate EndsWith(id: seq<byte>, r: Request, failed: bool, last: Frame) {
    match r
    case Ping => last == Pong(id)
    case UnknownKind(m) => last == Error(id, m)
    case EmptyScript(m) => last == Error(id, m)
    case StartFailed(m) => last == Error(id, m)
    case Ran(_, Some(m), _) => last == Error(id, m)
    case Ran(_, None, WaitError(m)) => last == Error(id, m)
    case Ran(_, None, Exited(code)) =>
      last == if failed && code == 0 then Error(id, Ascii("protocol: frame exceeds maximum size")) else Exit(id, code)
  }

  /** Some chunk of the output makes a frame over the size cap. */
  ghost predicate OverCap(c: Codec, id: seq<byte>, max: int, chunk: int, r: Request) {
    exists i :: 0 <= i < |OutputPieces(max, chunk, r)| && |c.marshal(Output(id, OutputPieces(max, chunk, r)[i]))| > 16777216
  }

  lemma LastFrameMeans(c: Codec, id: seq<byte>, max: int, chunk: int, r: Request)
    ensures EndsWith(id, r, OverCap(c, id, max, chunk, r), LastFrame(c, id, max, chunk, r))
    ensures Terminal(LastFrame(c, id, max, chunk, r))
  {
    if r.Ran? {
      SentPieces(c, id, Writer(0, false), max, ChunkSize(chunk), r.writes);
      SentCountMeans(c, id, OutputPieces(max, chunk, r));
    }
  }

  /** The frames that reach the wire are output frames and, unless it is over the cap, the terminal one. */
  lemma TransmittedEnd(c: Codec, id: seq<byte>, max: int, chunk: int, r: Request)
    ensures var sent, last := Transmitted(c, id, max, chunk, r), LastFrame(c, id, max, chunk, r);
            && (forall i :: 0 <= i < |sent| - 1 ==> sent[i].Output?)
            && (|c.marshal(last)| <= 16777216 ==> sent != [] && sent[|sent| - 1] == last)
            && (|c.marshal(last)| > 16777216 && sent != [] ==> sent[|sent| - 1].Output?)
  {
  }

  lemma EndUnique(id: seq<byte>, r: Request, failed: bool, last: Frame)
    requires EndsWith(id, r, failed, last)
    ensures forall f :: EndsWith(id, r, failed, f) ==> f == last
  {
  }

  /** Output frames only, and then the frame that ends the reply, if and only if it fits. */
  ghost predicate Answers(id: seq<byte>, r: Request, failed: bool, c: Codec, sent: seq<Frame>) {
    && (forall i :: 0 <= i < |sent| - 1 ==> sent[i].Output?)
    && (sent != [] && Terminal(sent[|sent| - 1]) ==> EndsWith(id, r, failed, sent[|sent| - 1]))
    && (forall last :: EndsWith(id, r, failed, last) && |c.marshal(last)| <= 16777216 ==>
          sent != [] && sent[|sent| - 1] == last)
  }

  lemma AnswerEnds(c: Codec, id: seq<byte>, max: int, chunk: int, r: Request)
    ensures Answers(id, r, OverCap(c, id, max, chunk, r), c, Transmitted(c, id, max, chunk, r))
  {
    LastFrameMeans(c, id, max, chunk, r);
    TransmittedEnd(c, id, max, chunk, r);
    EndUnique(id, r, OverCap(c, id, max, chunk, r), LastFrame(c, id, max, chunk, r));
  }

  /** runScript and the other answers of handleConn: the frames written, in order. */
  method Answer(c: Codec, id: seq<byte>, max: int, chunk: int, r: Request) returns (sent: seq<Frame>)
    ensures sent == Transmitted(c, id, max, chunk, r)
    ensures Answers(id, r, OverCap(c, id, max, chunk, r), c, sent)
  {
    var last := Final(id, r);
    sent := [];
    if r.Ran? {
      var sw := new StreamWriter(c, id, max, chunk);
      var failed := CopyOutput(sw, r.writes);
      sent := sw.sent;
      if sw.truncated && max > 0 {
        sent := sent + Attempt(c, Output(id, Notice(max)));
      }
      last := Final(id, r.(wait := Waited(r.wait, failed)));
    }
    sent := sent + Attempt(c, last);
    AnswerEnds(c, id, max, chunk, r);
  }
}
