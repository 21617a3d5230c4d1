/** The wire format (internal/protocol/protocol.go): a big-endian u32 length, then the payload. */
module Framing {
  import opened Utf8

  const MAX_FRAME: int := 0x100_0000

  type Payload = seq<byte>

  /** 256 to the power k. */
  function Range(k: nat): int {
    if k == 0 then 1 else 256 * Range(k - 1)
  }

  /** Big-endian digits of `n`. */
  function BigEndian(n: int, k: nat): (h: seq<byte>)
    requires 0 <= n < Range(k)
    ensures |h| == k && Value(h) == n
  {
    if k == 0 then [] else BigEndian(n / 256, k - 1) + [n % 256]
  }

  function Value(h: seq<byte>): (n: int)
    ensures 0 <= n < Range(|h|)
  {
    if h == [] then 0 else Value(h[..|h| - 1]) * 256 + h[|h| - 1] as int
  }

  /** Header bytes of a payload length. */
  function Header(n: int): (h: seq<byte>)
    requires 0 <= n <= MAX_FRAME
    ensures |h| == 4 && Value(h) == n
  {
    assert Range(2) == 0x1_0000 && Range(4) == 0x1_0000_0000;
    BigEndian(n, 4)
  }

  /** The length in network order: the first byte is the most significant. */
  lemma NetworkOrder(h: seq<byte>)
    requires |h| == 4
    ensures Value(h) == 0x100_0000 * h[0] as int + 0x1_0000 * h[1] as int + 0x100 * h[2] as int + h[3] as int
  {
    var none: seq<byte> := h[..1][..0];
    assert none == [] && Value(none) == 0;
    assert h[..1] == [h[0]] && Value(h[..1]) == Value(none) * 256 + h[0] as int;
    assert h[..2][..1] == h[..1] && Value(h[..2]) == Value(h[..1]) * 256 + h[1] as int;
    assert h[..3][..2] == h[..2] && Value(h[..3]) == Value(h[..2]) * 256 + h[2] as int;
    assert Value(h) == Value(h[..3]) * 256 + h[3] as int;
  }

  predicate Fits(p: Payload) {
    |p| <= MAX_FRAME
  }

  /** Length of a frame. */
  function Size(p: Payload): nat {
    4 + |p|
  }

  function Encode(p: Payload): (e: seq<byte>)
    requires Fits(p)
    ensures |e| == Size(p)
  {
    Header(|p|) + p
  }

  predicate AllFits(ps: seq<Payload>) {
    forall i :: 0 <= i < |ps| ==> Fits(ps[i])
  }

  function EncodeAll(ps: seq<Payload>): seq<byte>
    requires AllFits(ps)
  {
    if ps == [] then [] else Encode(ps[0]) + EncodeAll(ps[1..])
  }

  /** Clean end of stream, end inside a header, over-cap header, end inside a payload. */
  datatype ReadError = Eof | UnexpectedEof | TooLarge | PayloadShort

  datatype ReadResult = Msg(payload: Payload, rest: seq<byte>) | Fail(error: ReadError)

  /** One message off the front of a stream that ends after `b`. */
  function Read(b: seq<byte>): (r: ReadResult)
    ensures r.Msg? ==> |r.rest| + 4 <= |b|
  {
    if |b| == 0 then Fail(Eof)
    else if |b| < 4 then Fail(UnexpectedEof)
    else
      var n := Value(b[..4]);
      if n > MAX_FRAME then Fail(TooLarge)
      else if |b| - 4 < n then Fail(PayloadShort)
      else Msg(b[4..4 + n], b[4 + n..])
  }

  /** All messages up to the first error. */
  function DecodeAll(b: seq<byte>): (seq<Payload>, ReadError)
    decreases |b|
  {
    match Read(b)
    case Fail(e) => ([], e)
    case Msg(p, rest) => var tail := DecodeAll(rest); ([p] + tail.0, tail.1)
  }

  lemma ReadEncoded(p: Payload, rest: seq<byte>)
    requires Fits(p)
    ensures Read(Encode(p) + rest) == Msg(p, rest)
  {
    var b := Encode(p) + rest;
    assert b[..4] == Header(|p|);
    assert b[4..4 + |p|] == p;
    assert b[4 + |p|..] == rest;
  }

  /** What a cut inside the first frame reads as: never a message. */
  lemma ReadCut(p: Payload, k: nat)
    requires Fits(p) && k < |Encode(p)|
    ensures var r := Read(Encode(p)[..k]);
            r == Fail(if k == 0 then Eof else if k < 4 then UnexpectedEof else PayloadShort)
  {
    if k >= 4 {
      assert Encode(p)[..k][..4] == Header(|p|);
    }
  }

  lemma EncodeCons(p: Payload, qs: seq<Payload>)
    requires Fits(p) && AllFits(qs)
    ensures AllFits([p] + qs) && EncodeAll([p] + qs) == Encode(p) + EncodeAll(qs)
  {
    assert ([p] + qs)[1..] == qs;
  }

  lemma HeadTail(ps: seq<Payload>)
    requires ps != []
    ensures ps == [ps[0]] + ps[1..] && (AllFits(ps) <==> Fits(ps[0]) && AllFits(ps[1..]))
  {
    assert forall i :: 0 < i < |ps| ==> ps[i] == ps[1..][i - 1];
  }

  lemma TakeConcat<T>(a: seq<T>, b: seq<T>, k: nat)
    requires |a| <= k <= |a| + |b|
    ensures (a + b)[..k] == a + b[..k - |a|]
  {
  }

  lemma DecodeStep(p: Payload, rest: seq<byte>)
    requires Fits(p)
    ensures DecodeAll(Encode(p) + rest) == ([p] + DecodeAll(rest).0, DecodeAll(rest).1)
  {
    ReadEncoded(p, rest);
  }

  /** `j` is the number of complete frames within the first `k` bytes. */
  ghost predicate CutAt(ps: seq<Payload>, k: nat, j: nat)
    requires AllFits(ps)
  {
    j <= |ps| && |EncodeAll(ps[..j])| <= k && (j < |ps| ==> k < |EncodeAll(ps[..j + 1])|)
  }

  /** Decoding `b` yields these messages and then a short read, clean or inside a frame. */
  ghost predicate Decodes(b: seq<byte>, ps: seq<Payload>, clean: bool) {
    var d := DecodeAll(b); d.0 == ps && d.1 != TooLarge && (d.1 == Eof <==> clean)
  }

  /** Cut after `k` bytes, the stream of `ps` decodes to its first `j` messages. */
  ghost predicate CutDecodes(ps: seq<Payload>, k: nat, j: nat)
    requires AllFits(ps)
  {
    k <= |EncodeAll(ps)| && CutAt(ps, k, j) && Decodes(EncodeAll(ps)[..k], ps[..j], k == |EncodeAll(ps[..j])|)
  }

  /** Decoding the concatenated frames of any message list, cut anywhere, yields exactly the messages
      whose frames are complete before the cut and then a short-read error, which is a clean end of
      stream only on a frame boundary. */
  lemma {:induction false} PrefixCode(ps: seq<Payload>, k: nat) returns (j: nat)
    requires AllFits(ps) && k <= |EncodeAll(ps)|
    ensures CutDecodes(ps, k, j)
    decreases |ps|, 0
  {
    if ps == [] {
      j := 0;
    } else {
      HeadTail(ps);
      j := PrefixCodeCons(ps[0], ps[1..], k);
    }
  }

  lemma {:induction false} PrefixCodeCons(p: Payload, qs: seq<Payload>, k: nat) returns (j: nat)
    requires Fits(p) && AllFits(qs) && AllFits([p] + qs) && k <= |EncodeAll([p] + qs)|
    ensures CutDecodes([p] + qs, k, j)
    decreases |qs|, 1
  {
    if k < Size(p) {
      j := 0;
      CutInFirst(p, qs, k);
    } else {
      LengthCons(p, qs);
      var i := PrefixCode(qs, k - Size(p));
      CutLater(p, qs, k, i);
      j := i + 1;
    }
  }

  lemma CutInFirst(p: Payload, qs: seq<Payload>, k: nat)
    requires Fits(p) && AllFits(qs) && AllFits([p] + qs) && k < Size(p)
    ensures CutDecodes([p] + qs, k, 0)
  {
    EncodeCons(p, qs);
    EncodeCons(p, []);
    assert ([p] + qs)[..0] == [] && ([p] + qs)[..1] == [p] + [];
    assert EncodeAll([p] + qs)[..k] == Encode(p)[..k];
    ReadCut(p, k);
  }

  lemma CutNext(p: Payload, qs: seq<Payload>, k: nat, i: nat)
    requires Fits(p) && AllFits(qs) && AllFits([p] + qs) && CutAt(qs, k, i)
    ensures CutAt([p] + qs, Size(p) + k, i + 1)
    ensures |EncodeAll(([p] + qs)[..i + 1])| == Size(p) + |EncodeAll(qs[..i])|
  {
    assert ([p] + qs)[..i + 1] == [p] + qs[..i];
    EncodeCons(p, qs[..i]);
    if i < |qs| {
      assert ([p] + qs)[..i + 2] == [p] + qs[..i + 1];
      EncodeCons(p, qs[..i + 1]);
    }
  }

  lemma DecodesNext(p: Payload, b: seq<byte>, qs: seq<Payload>, clean: bool)
    requires Fits(p) && Decodes(b, qs, clean)
    ensures Decodes(Encode(p) + b, [p] + qs, clean)
  {
    DecodeStep(p, b);
  }

  lemma LengthCons(p: Payload, qs: seq<Payload>)
    requires Fits(p) && AllFits(qs)
    ensures AllFits([p] + qs) && |EncodeAll([p] + qs)| == Size(p) + |EncodeAll(qs)|
  {
    EncodeCons(p, qs);
  }

  lemma CutBytes(p: Payload, qs: seq<Payload>, k: nat)
    requires Fits(p) && AllFits(qs) && Size(p) <= k <= Size(p) + |EncodeAll(qs)|
    ensures AllFits([p] + qs) && k <= |EncodeAll([p] + qs)|
    ensures EncodeAll([p] + qs)[..k] == Encode(p) + EncodeAll(qs)[..k - Size(p)]
  {
    EncodeCons(p, qs);
    TakeConcat(Encode(p), EncodeAll(qs), k);
  }

  lemma CutLater(p: Payload, qs: seq<Payload>, k: nat, i: nat)
    requires Fits(p) && AllFits(qs) && Size(p) <= k && CutDecodes(qs, k - Size(p), i)
    ensures AllFits([p] + qs) && CutDecodes([p] + qs, k, i + 1)
  {
    CutBytes(p, qs, k);
    CutNext(p, qs, k - Size(p), i);
    DecodesNext(p, EncodeAll(qs)[..k - Size(p)], qs[..i], k - Size(p) == |EncodeAll(qs[..i])|);
    assert ([p] + qs)[..i + 1] == [p] + qs[..i];
  }

  /** Uncut, exactly the list. */
  lemma {:induction false} RoundTrip(ps: seq<Payload>)
    requires AllFits(ps)
    ensures DecodeAll(EncodeAll(ps)) == (ps, Eof)
  {
    if ps != [] {
      HeadTail(ps);
      EncodeCons(ps[0], ps[1..]);
      RoundTrip(ps[1..]);
      DecodeStep(ps[0], EncodeAll(ps[1..]));
    }
  }

  /** The sending side: an over-cap payload is refused and leaves the stream untouched. */
  method WriteMessage(wire: seq<byte>, payload: Payload) returns (ok: bool, wire': seq<byte>)
    ensures ok <==> |payload| <= 16777216
    ensures !ok ==> wire' == wire
    ensures ok ==> wire' == wire + Encode(payload)
    ensures ok ==> |wire'| == |wire| + 4 + |payload| && wire <= wire' && wire'[|wire| + 4..] == payload
    ensures ok ==> var h := wire'[|wire|..|wire| + 4];
                   |payload| == 0x100_0000 * h[0] as int + 0x1_0000 * h[1] as int + 0x100 * h[2] as int + h[3] as int
  {
    if |payload| > MAX_FRAME {
      return false, wire;
    }
    var hdr := Header(|payload|);
    wire' := wire + hdr;
    wire' := wire' + payload;
    ok := true;
    NetworkOrder(hdr);
    assert wire'[|wire|..|wire| + 4] == hdr;
  }
}
