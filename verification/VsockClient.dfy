/** The host side of an execution (internal/gateway/vsockclient.go): handshake and frame loop
    over a connection whose bytes arrive in arbitrary fragments through one shared buffer. */
module VsockClient {
  import opened Utf8
  import opened Framing
  import opened GuestAgent

  const BUFFER: int := 4096
  const NEWLINE: byte := 10

  datatype Result = Done | GuestError(message: seq<byte>) | ClosedEarly | ReadFailed(error: ReadError) | BadJson
    | HandshakeFailed | HandshakeShort

  datatype Next = Frame(frame: GuestAgent.Frame) | Stop(result: Result)

  datatype Received = Got(payload: Payload) | Broken(error: ReadError)

  // ---- what the loop computes, on plain bytes ----

  /** How a terminal frame ends the call. */
  function ResultOf(f: GuestAgent.Frame): Result {
    if f.Error? then GuestError(f.message) else Done
  }

  /** Frames handed to the caller and the outcome, for a stream that ends after `b`. */
  function ExecSpec(codec: Codec, b: seq<byte>): (seq<Frame>, Result)
    decreases |b|
  {
    match Read(b)
    case Fail(e) => ([], if e.Eof? then ClosedEarly else ReadFailed(e))
    case Msg(p, rest) =>
      match codec.unmarshal(p)
      case None => ([], BadJson)
      case Some(f) =>
        if Terminal(f) then ([f], ResultOf(f))
        else var tail := ExecSpec(codec, rest); ([f] + tail.0, tail.1)
  }

  /** Position of the first newline, or the length if there is none. */
  function LineEnd(b: seq<byte>): (k: nat)
    ensures k <= |b| && (k < |b| ==> b[k] == NEWLINE) && forall i :: 0 <= i < k ==> b[i] != NEWLINE
  {
    if b == [] || b[0] == NEWLINE then 0 else 1 + LineEnd(b[1..])
  }

  function TrimRight(b: seq<byte>): seq<byte> {
    if b != [] && (b[|b| - 1] == 10 || b[|b| - 1] == 13) then TrimRight(b[..|b| - 1]) else b
  }

  predicate Accepts(line: seq<byte>) {
    Ascii("OK ") <= TrimRight(line)
  }

  /** The reply is accepted exactly when the line starts with the bytes of "OK "; trimming does not matter. */
  lemma {:induction false} AcceptsMeans(line: seq<byte>)
    ensures Accepts(line) <==> |line| >= 3 && line[0] == 79 && line[1] == 75 && line[2] == 32
  {
    TrimKeepsStart(line);
    assert Ascii("OK ") == [79, 75, 32];
  }

  lemma {:induction false} TrimKeepsStart(line: seq<byte>)
    ensures TrimRight(line) <= line && forall i :: |TrimRight(line)| <= i < |line| ==> line[i] == 10 || line[i] == 13
  {
    if line != [] && (line[|line| - 1] == 10 || line[|line| - 1] == 13) {
      TrimKeepsStart(line[..|line| - 1]);
      assert forall i :: 0 <= i < |line| - 1 ==> line[..|line| - 1][i] == line[i];
    }
  }

  /** The bytes have a line, and it starts with "OK ". */
  predicate SaysOk(b: seq<byte>) {
    |b| > 3 && b[0] == 79 && b[1] == 75 && b[2] == 32 && NEWLINE in b
  }

  /** The handshake on bytes: a line that starts with "OK " lets the frame loop begin after it. */
  lemma HandshakeMeans(codec: Codec, b: seq<byte>)
    ensures NEWLINE !in b ==> ClientSpec(codec, b) == ([], HandshakeShort)
    ensures NEWLINE in b && !SaysOk(b) ==> ClientSpec(codec, b) == ([], HandshakeFailed)
    ensures SaysOk(b) ==> LineEnd(b) < |b| && ClientSpec(codec, b) == ExecSpec(codec, b[LineEnd(b) + 1..])
    ensures SaysOk(b) ==> !ClientSpec(codec, b).1.HandshakeShort? && !ClientSpec(codec, b).1.HandshakeFailed?
  {
    var k := LineEnd(b);
    if NEWLINE in b {
      var i :| 0 <= i < |b| && b[i] == NEWLINE;
      assert k <= i;
      AcceptsMeans(b[..k + 1]);
      LoopNeverHandshakes(codec, b[k + 1..]);
    }
  }

  lemma {:induction false} LoopNeverHandshakes(codec: Codec, b: seq<byte>)
    ensures !ExecSpec(codec, b).1.HandshakeShort? && !ExecSpec(codec, b).1.HandshakeFailed?
    decreases |b|
  {
    var r := Read(b);
    if r.Msg? {
      LoopNeverHandshakes(codec, r.rest);
    }
  }

  /** Handshake, then the frame loop on whatever follows the reply line. */
  function ClientSpec(codec: Codec, b: seq<byte>): (seq<Frame>, Result) {
    var k := LineEnd(b);
    if k == |b| then ([], HandshakeShort)
    else if !Accepts(b[..k + 1]) then ([], HandshakeFailed)
    else ExecSpec(codec, b[k + 1..])
  }

  lemma {:induction false} LineEndUnique(b: seq<byte>, k: nat)
    requires k < |b| && b[k] == NEWLINE && forall i :: 0 <= i < k ==> b[i] != NEWLINE
    ensures LineEnd(b) == k
  {
    if k > 0 {
      LineEndUnique(b[1..], k - 1);
    }
  }

  // ---- the connection ----

  /** A connection with its buffered reader: bytes already buffered, and the fragments the
      kernel will still deliver. */
  class Conn {
    var buf: seq<byte>
    var frags: seq<seq<byte>>

    ghost predicate Valid()
      reads this
    {
      |buf| <= BUFFER && forall i :: 0 <= i < |frags| ==> frags[i] != []
    }

    /** Everything not yet read: all that the methods below depend on. */
    ghost function Unread(): seq<byte>
      reads this
    {
      buf + Flatten(frags)
    }

    constructor (frags: seq<seq<byte>>)
      requires forall i :: 0 <= i < |frags| ==> frags[i] != []
      ensures Valid() && Unread() == Flatten(frags)
    {
      this.buf, this.frags := [], frags;
    }

    /** At most `n` bytes of the next fragment. */
    method Receive(n: nat) returns (p: seq<byte>)
      requires Valid() && frags != [] && n > 0
      modifies this`frags
      ensures Valid() && p != [] && |p| <= n && p + Flatten(frags) == old(Flatten(frags))
    {
      p := frags[0];
      if |p| > n {
        p := p[..n];
        frags := [frags[0][n..]] + frags[1..];
      } else {
        frags := frags[1..];
      }
    }

    /** One Read of at most `n` bytes; empty only at the end of the stream. */
    method ReadSome(n: nat) returns (p: seq<byte>)
      requires Valid() && n > 0
      modifies this
      ensures Valid() && |p| <= n && p + Unread() == old(Unread()) && (p == [] ==> old(Unread()) == [])
    {
      if buf == [] {
        if frags == [] {
          return [];
        }
        if n >= BUFFER {
          p := Receive(n);
          assert p + Unread() == old(Unread());
          return;
        }
        buf := Receive(BUFFER);
      }
      var k := if n < |buf| then n else |buf|;
      p := buf[..k];
      assert buf == p + buf[k..];
      buf := buf[k..];
    }

    /** Reads exactly `n` bytes, or everything there is. */
    method ReadFull(n: nat) returns (p: seq<byte>)
      requires Valid()
      modifies this
      ensures Valid() && p + Unread() == old(Unread())
      ensures |p| == n || (|p| < n && Unread() == [])
    {
      p := [];
      while |p| < n
        invariant Valid() && |p| <= n && p + Unread() == old(Unread())
        decreases |Unread()|
      {
        var q := ReadSome(n - |p|);
        if q == [] {
          return;
        }
        p := p + q;
      }
    }

    /** One message: the length is checked before any payload byte is consumed. */
    method ReadMessage() returns (r: Received)
      requires Valid()
      modifies this
      ensures Valid()
      ensures r.Got? ==> Read(old(Unread())) == Msg(r.payload, Unread())
      ensures r.Broken? ==> Read(old(Unread())) == Fail(r.error)
      ensures r == Broken(Eof) <==> old(Unread()) == []
      ensures r == Broken(UnexpectedEof) <==> 0 < |old(Unread())| < 4
      ensures |old(Unread())| >= 4 ==>
        var b := old(Unread());
        var n := 0x100_0000 * b[0] as int + 0x1_0000 * b[1] as int + 0x100 * b[2] as int + b[3] as int;
        if n > 16777216 then r == Broken(TooLarge) && Unread() == b[4..]
        else if |b| < 4 + n then r == Broken(PayloadShort)
        else r == Got(b[4..4 + n]) && Unread() == b[4 + n..]
    {
      ghost var all := Unread();
      var hdr := ReadFull(4);
      assert all[..|hdr|] == hdr && all[|hdr|..] == Unread();
      if |hdr| == 0 {
        return Broken(Eof);
      } else if |hdr| < 4 {
        return Broken(UnexpectedEof);
      }
      var n := Value(hdr);
      NetworkOrder(hdr);
      if n > MAX_FRAME {
        return Broken(TooLarge);
      }
      ghost var tail := Unread();
      var p := ReadFull(n);
      assert tail[..|p|] == p && tail[|p|..] == Unread();
      if |p| < n {
        return Broken(PayloadShort);
      }
      assert all[4..4 + n] == p && all[4 + n..] == Unread();
      return Got(p);
    }

    /** The buffered bytes up to and including the first newline, refilling an empty buffer. */
    method ReadSlice() returns (part: seq<byte>, found: bool)
      requires Valid() && (buf != [] || frags != [])
      modifies this
      ensures Valid() && part != [] && part + Unread() == old(Unread())
      ensures forall i :: 0 <= i < |part| ==> (part[i] == NEWLINE <==> found && i == |part| - 1)
    {
      if buf == [] {
        buf := Receive(BUFFER);
      }
      var k := LineEnd(buf);
      found := k < |buf|;
      if found {
        k := k + 1;
      }
      part := buf[..k];
      assert buf == part + buf[k..];
      buf := buf[k..];
    }

    /** The reply line, through the same buffer; false if the stream ends first. */
    method ReadLine() returns (line: seq<byte>, ok: bool)
      requires Valid()
      modifies this
      ensures Valid() && line + Unread() == old(Unread())
      ensures ok ==> |line| == LineEnd(old(Unread())) + 1
      ensures !ok ==> LineEnd(old(Unread())) == |old(Unread())|
    {
      line, ok := [], false;
      while !ok && (buf != [] || frags != [])
        invariant Valid() && line + Unread() == old(Unread()) && (ok ==> line != [])
        invariant forall i :: 0 <= i < |line| ==> (line[i] == NEWLINE <==> ok && i == |line| - 1)
        decreases |Unread()|
      {
        var part;
        part, ok := ReadSlice();
        line := line + part;
      }
      ghost var all := old(Unread());
      assert all[..|line|] == line;
      if ok {
        LineEndUnique(all, |line| - 1);
      } else {
        assert all == line;
      }
    }

    /** One iteration of the frame loop: a frame, or the reason to stop without one. */
    method NextFrame(codec: Codec) returns (n: Next)
      requires Valid()
      modifies this
      ensures Valid()
      ensures n.Stop? ==> ExecSpec(codec, old(Unread())) == ([], n.result)
      ensures n.Frame? ==> |Unread()| < |old(Unread())|
      ensures n.Frame? && Terminal(n.frame) ==> ExecSpec(codec, old(Unread())) == ([n.frame], ResultOf(n.frame))
      ensures n.Frame? && !Terminal(n.frame) ==>
        var tail := ExecSpec(codec, Unread()); ExecSpec(codec, old(Unread())) == ([n.frame] + tail.0, tail.1)
    {
      var r := ReadMessage();
      match r
      case Broken(e) => return Stop(if e.Eof? then ClosedEarly else ReadFailed(e));
      case Got(p) =>
        var f := codec.unmarshal(p);
        return if f.None? then Stop(BadJson) else Next.Frame(f.value);
    }

    /** The frame loop of Exec. */
    method Frames(codec: Codec) returns (seen: seq<Frame>, result: Result)
      requires Valid()
      modifies this
      ensures (seen, result) == ExecSpec(codec, old(Unread()))
    {
      ghost var whole := ExecSpec(codec, Unread());
      ghost var tail := whole;
      seen := [];
      while true
        invariant Valid() && tail == ExecSpec(codec, Unread())
        invariant whole.0 == seen + tail.0 && whole.1 == tail.1
        decreases |Unread()|
      {
        var n := NextFrame(codec);
        if n.Stop? {
          assert seen + [] == seen;
          return seen, n.result;
        }
        seen := seen + [n.frame];
        if Terminal(n.frame) {
          return seen, ResultOf(n.frame);
        }
        tail := ExecSpec(codec, Unread());
      }
    }

    /** Connect and Exec: the outcome depends on the bytes, not on how they are fragmented nor on
        how many are read ahead during the handshake. */
    method Exec(codec: Codec) returns (seen: seq<Frame>, result: Result)
      requires Valid()
      modifies this
      ensures (seen, result) == ClientSpec(codec, old(Unread()))
      ensures result == HandshakeShort <==> 10 !in old(Unread())
      ensures result == HandshakeFailed <==>
        var b := old(Unread()); 10 in b && !(|b| > 3 && b[0] == 79 && b[1] == 75 && b[2] == 32)
      ensures result == HandshakeShort || result == HandshakeFailed ==> seen == []
    {
      ghost var all := Unread();
      HandshakeMeans(codec, all);
      var line, ok := ReadLine();
      if !ok {
        return [], HandshakeShort;
      }
      assert all[..|line|] == line && all[|line|..] == Unread();
      if !(Ascii("OK ") <= TrimRight(line)) {
        return [], HandshakeFailed;
      }
      seen, result := Frames(codec);
    }
  }
}
