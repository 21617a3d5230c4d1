/** Text as Go's encoding/json sees it: bytes, of which the ill-formed ones are replaced. */
module Utf8 {

  type byte = x: int | 0 <= x < 256

  predicate Continuation(b: byte) {
    0x80 <= b <= 0xBF
  }

  /** Length of the well-formed UTF-8 sequence at the head of `b`, or 0 if there is none. */
  function RuneLen(b: seq<byte>): (n: nat)
    ensures n <= |b| && n <= 4
  {
    if b == [] then 0
    else if b[0] < 0x80 then 1
    else if |b| >= 2 && 0xC2 <= b[0] <= 0xDF && Continuation(b[1]) then 2
    else if |b| >= 3 && 0xE0 <= b[0] <= 0xEF && Continuation(b[1]) && Continuation(b[2])
            && (b[0] == 0xE0 ==> b[1] >= 0xA0) && (b[0] == 0xED ==> b[1] <= 0x9F) then 3
    else if |b| >= 4 && 0xF0 <= b[0] <= 0xF4 && Continuation(b[1]) && Continuation(b[2]) && Continuation(b[3])
            && (b[0] == 0xF0 ==> b[1] >= 0x90) && (b[0] == 0xF4 ==> b[1] <= 0x8F) then 4
    else 0
  }

  /** Unicode scalar values, and their encoding (section 3 of RFC 3629). */
  type Scalar = cp: int | 0 <= cp < 0xD800 || 0xE000 <= cp <= 0x10FFFF

  function EncodeScalar(cp: Scalar): (e: seq<byte>) {
    if cp < 0x80 then [cp]
    else if cp < 0x800 then [0xC0 + cp / 64, 0x80 + cp % 64]
    else if cp < 0x1_0000 then [0xE0 + cp / 64 / 64, 0x80 + cp / 64 % 64, 0x80 + cp % 64]
    else [0xF0 + cp / 64 / 64 / 64, 0x80 + cp / 64 / 64 % 64, 0x80 + cp / 64 % 64, 0x80 + cp % 64]
  }

  /** The head of `b` is accepted as a sequence exactly when it is the encoding of a scalar value:
      overlong forms, surrogates and values over U+10FFFF are not. */
  lemma ScalarAccepted(cp: Scalar, rest: seq<byte>)
    ensures RuneLen(EncodeScalar(cp) + rest) == |EncodeScalar(cp)|
  {
    var e := EncodeScalar(cp);
    var b := e + rest;
    assert forall i :: 0 <= i < |e| ==> b[i] == e[i];
  }

  /** The scalar value that well-formed bytes encode. */
  lemma AcceptedIsScalar(b: seq<byte>) returns (cp: Scalar)
    requires RuneLen(b) > 0
    ensures b[..RuneLen(b)] == EncodeScalar(cp)
  {
    var n := RuneLen(b);
    if n == 1 {
      cp := b[0];
    } else if n == 2 {
      cp := Glue(b[0] - 0xC0, b[1]);
      assert b[..2] == [b[0], b[1]];
    } else if n == 3 {
      var q := Glue(b[0] - 0xE0, b[1]);
      cp := Glue(q, b[2]);
      assert b[..3] == [b[0], b[1], b[2]];
    } else {
      var p := Glue(b[0] - 0xF0, b[1]);
      var q := Glue(p, b[2]);
      cp := Glue(q, b[3]);
      assert b[..4] == [b[0], b[1], b[2], b[3]];
    }
  }

  /** Six more bits, from a continuation byte. */
  lemma Glue(q: int, b: byte) returns (cp: int)
    requires Continuation(b)
    ensures cp == q * 64 + (b as int - 0x80) && cp / 64 == q && cp % 64 == b as int - 0x80
  {
    cp := q * 64 + (b as int - 0x80);
  }

  /** U+FFFD, what a byte that starts no well-formed sequence becomes. */
  const REPLACEMENT: seq<byte> := [0xEF, 0xBF, 0xBD]

  /** The text after a JSON encode and decode. */
  function Sanitize(b: seq<byte>): seq<byte>
    decreases |b|
  {
    if b == [] then []
    else
      var n := RuneLen(b);
      if n > 0 then b[..n] + Sanitize(b[n..]) else REPLACEMENT + Sanitize(b[1..])
  }

  predicate Valid(b: seq<byte>)
    decreases |b|
  {
    b == [] || (RuneLen(b) > 0 && Valid(b[RuneLen(b)..]))
  }

  function EncodeText(text: seq<Scalar>): seq<byte> {
    if text == [] then [] else EncodeScalar(text[0]) + EncodeText(text[1..])
  }

  /** Well-formed is exactly what encodes some text of scalar values. */
  lemma {:induction false} TextValid(text: seq<Scalar>)
    ensures Valid(EncodeText(text))
  {
    if text != [] {
      var e, rest := EncodeScalar(text[0]), EncodeText(text[1..]);
      TextValid(text[1..]);
      ScalarAccepted(text[0], rest);
      assert (e + rest)[|e|..] == rest;
    }
  }

  lemma {:induction false} ValidIsText(b: seq<byte>) returns (text: seq<Scalar>)
    requires Valid(b)
    ensures EncodeText(text) == b
    decreases |b|
  {
    if b == [] {
      text := [];
    } else {
      var n := RuneLen(b);
      var cp := AcceptedIsScalar(b);
      var rest := ValidIsText(b[n..]);
      text := [cp] + rest;
      assert text[1..] == rest && b == b[..n] + b[n..];
    }
  }

  /** Well-formed text survives; any other text comes back longer. */
  lemma {:induction false} SanitizeExact(b: seq<byte>)
    ensures Valid(b) ==> Sanitize(b) == b
    ensures !Valid(b) ==> |Sanitize(b)| > |b|
    decreases |b|
  {
    if b != [] {
      var n := RuneLen(b);
      if n > 0 {
        SanitizeExact(b[n..]);
        assert b == b[..n] + b[n..];
      } else {
        SanitizeExact(b[1..]);
      }
    }
  }

  /** Said of scalar values: an encoded one is kept, and a byte that starts none becomes U+FFFD. */
  lemma ScalarKept(cp: Scalar, rest: seq<byte>)
    ensures Sanitize(EncodeScalar(cp) + rest) == EncodeScalar(cp) + Sanitize(rest)
  {
    var e := EncodeScalar(cp);
    ScalarAccepted(cp, rest);
    assert (e + rest)[..|e|] == e && (e + rest)[|e|..] == rest;
  }

  lemma OtherReplaced(b: seq<byte>)
    requires b != [] && forall cp: Scalar :: !(EncodeScalar(cp) <= b)
    ensures Sanitize(b) == EncodeScalar(0xFFFD) + Sanitize(b[1..])
  {
    if RuneLen(b) > 0 {
      var cp := AcceptedIsScalar(b);
    }
  }

  predicate IsAscii(b: seq<byte>) {
    forall i :: 0 <= i < |b| ==> b[i] < 0x80
  }

  lemma {:induction false} AsciiValid(b: seq<byte>)
    requires IsAscii(b)
    ensures Valid(b)
    decreases |b|
  {
    if b != [] {
      AsciiValid(b[1..]);
    }
  }

  /** The bytes of an ASCII literal. */
  function Ascii(s: string): (b: seq<byte>)
    ensures IsAscii(b) && |b| == |s| && forall i :: 0 <= i < |s| && s[i] as int < 128 ==> b[i] == s[i] as int
  {
    seq(|s|, i requires 0 <= i < |s| => s[i] as int % 128)
  }

  /** Decimal digits of `n`. */
  function Decimal(n: nat): (b: seq<byte>)
    ensures IsAscii(b) && b != []
  {
    if n < 10 then [0x30 + n] else Decimal(n / 10) + [0x30 + n % 10]
  }

  /** The number that a string of decimal digits denotes. */
  function Denotes(b: seq<byte>): int {
    if b == [] then 0 else Denotes(b[..|b| - 1]) * 10 + (b[|b| - 1] as int - 0x30)
  }

  /** It denotes `n`, in digits, without a leading zero. */
  lemma {:induction false} DecimalDenotes(n: nat)
    ensures Denotes(Decimal(n)) == n && forall i :: 0 <= i < |Decimal(n)| ==> 0x30 <= Decimal(n)[i] <= 0x39
    ensures |Decimal(n)| == 1 || Decimal(n)[0] != 0x30
    ensures n > 0 ==> Decimal(n)[0] != 0x30
  {
    if n >= 10 {
      DecimalDenotes(n / 10);
      assert Decimal(n)[..|Decimal(n)| - 1] == Decimal(n / 10);
    } else {
      assert Decimal(n)[..0] == [];
    }
  }
}
