/**
 * The parts of Go's unicode/utf8 package that the price decoder relies on:
 * `DecodeRuneInString` (first code point and its length) and `ValidString`,
 * with the encoder of RFC 3629 section 3 as the independent reference.
 */
module Utf8 {
  import opened Bytes

  const RuneError: int := 0xFFFD
  const MaxRune: int := 0x10FFFF

  /** A Unicode scalar value: a code point that is not a surrogate. */
  predicate IsScalar(cp: int)
  {
    0 <= cp <= MaxRune && !(0xD800 <= cp <= 0xDFFF)
  }

  predicate IsTail(b: byte)
  {
    0x80 <= b <= 0xBF
  }

  /** The octet count of RFC 3629 section 3 for a code point. */
  function EncodedLength(cp: int): nat
  {
    if cp < 0x80 then 1 else if cp < 0x800 then 2 else if cp < 0x10000 then 3 else 4
  }

  /** The UTF-8 encoding of a scalar value, RFC 3629 section 3. */
  function Encode(cp: int): (r: seq<byte>)
    requires IsScalar(cp)
    ensures |r| == EncodedLength(cp)
    ensures r[0] < 0x80 <==> |r| == 1
  {
    if cp < 0x80 then [cp]
    else if cp < 0x800 then [0xC0 + cp / 64, 0x80 + cp % 64]
    else if cp < 0x10000 then [0xE0 + cp / 4096, 0x80 + (cp / 64) % 64, 0x80 + cp % 64]
    else [0xF0 + cp / 262144, 0x80 + (cp / 4096) % 64, 0x80 + (cp / 64) % 64, 0x80 + cp % 64]
  }

  /**
   * `utf8.DecodeRuneInString`: the first code point and the number of bytes
   * it occupies; `(RuneError, 0)` on empty input and `(RuneError, 1)` when the
   * input does not start with a well-formed sequence (RFC 3629 section 4).
   */
  function DecodeRune(s: seq<byte>): (r: (int, nat))
    ensures r.1 <= |s| && r.1 <= 4
    ensures s == [] <==> r.1 == 0
    ensures IsScalar(r.0)
  {
    if s == [] then (RuneError, 0)
    else if s[0] < 0x80 then (s[0], 1)
    else if 0xC2 <= s[0] <= 0xDF then
      if |s| >= 2 && IsTail(s[1]) then ((s[0] as int - 0xC0) * 64 + (s[1] as int - 0x80), 2)
      else (RuneError, 1)
    else if 0xE0 <= s[0] <= 0xEF then
      var lo := if s[0] == 0xE0 then 0xA0 else 0x80;
      var hi := if s[0] == 0xED then 0x9F else 0xBF;
      if |s| >= 3 && lo <= s[1] <= hi && IsTail(s[2]) then
        ((s[0] as int - 0xE0) * 4096 + (s[1] as int - 0x80) * 64 + (s[2] as int - 0x80), 3)
      else (RuneError, 1)
    else if 0xF0 <= s[0] <= 0xF4 then
      var lo := if s[0] == 0xF0 then 0x90 else 0x80;
      var hi := if s[0] == 0xF4 then 0x8F else 0xBF;
      if |s| >= 4 && lo <= s[1] <= hi && IsTail(s[2]) && IsTail(s[3]) then
        ((s[0] as int - 0xF0) * 262144 + (s[1] as int - 0x80) * 4096 + (s[2] as int - 0x80) * 64 + (s[3] as int - 0x80), 4)
      else (RuneError, 1)
    else (RuneError, 1)
  }

  /** The decoder reports an ill-formed (or truncated) first sequence. */
  predicate Invalid(s: seq<byte>)
  {
    s != [] && DecodeRune(s) == (RuneError, 1)
  }

  /** `utf8.ValidString`: the whole input is a sequence of well-formed encodings. */
  predicate ValidString(s: seq<byte>)
    decreases |s|
  {
    s == [] || (!Invalid(s) && ValidString(s[DecodeRune(s).1..]))
  }

  lemma DivMod64(x: int, y: int)
    requires 0 <= y < 64
    ensures (64 * x + y) / 64 == x && (64 * x + y) % 64 == y
  {
  }

  /** A one-byte encoding is the code point itself; every byte of a longer one has the high bit set. */
  lemma EncodeBytes(cp: int)
    requires IsScalar(cp)
    ensures cp < 0x80 ==> Encode(cp) == [cp]
    ensures cp >= 0x80 ==> forall i :: 0 <= i < |Encode(cp)| ==> Encode(cp)[i] >= 0x80
  {
  }

  /** Decoding the encoding of a scalar value gives it back with its RFC 3629 length. */
  lemma DecodeEncode(cp: int, rest: seq<byte>)
    requires IsScalar(cp)
    ensures DecodeRune(Encode(cp) + rest) == (cp, EncodedLength(cp))
  {
    if cp < 0x80 {
      assert (Encode(cp) + rest)[0] == cp;
    } else if cp < 0x800 {
      DecodeEncode2(cp, rest);
    } else if cp < 0x10000 {
      DecodeEncode3(cp, rest);
    } else {
      DecodeEncode4(cp, rest);
    }
  }

  lemma DecodeEncode2(cp: int, rest: seq<byte>)
    requires 0x80 <= cp < 0x800
    ensures DecodeRune(Encode(cp) + rest) == (cp, 2)
  {
    var s := Encode(cp) + rest;
    assert s[0] == 0xC0 + cp / 64 && s[1] == 0x80 + cp % 64;
  }

  lemma DecodeEncode3(cp: int, rest: seq<byte>)
    requires 0x800 <= cp < 0x10000 && IsScalar(cp)
    ensures DecodeRune(Encode(cp) + rest) == (cp, 3)
  {
    var s := Encode(cp) + rest;
    var q := cp / 64;
    var b0, b1, b2 := cp / 4096, q % 64, cp % 64;
    assert cp == 64 * q + b2;
    DivMod64(q / 64, b1);
    assert b0 == q / 64;
    assert s[0] == 0xE0 + b0 && s[1] == 0x80 + b1 && s[2] == 0x80 + b2;
    assert b0 * 4096 + b1 * 64 + b2 == cp;
  }

  lemma DecodeEncode4(cp: int, rest: seq<byte>)
    requires 0x10000 <= cp && IsScalar(cp)
    ensures DecodeRune(Encode(cp) + rest) == (cp, 4)
  {
    var s := Encode(cp) + rest;
    var q := cp / 64;
    var q2 := q / 64;
    var b0, b1, b2, b3 := cp / 262144, q2 % 64, q % 64, cp % 64;
    assert cp == 64 * q + b3;
    assert q == 64 * q2 + b2;
    assert b0 == q2 / 64;
    assert cp / 4096 == q2;
    assert s[0] == 0xF0 + b0 && s[1] == 0x80 + b1 && s[2] == 0x80 + b2 && s[3] == 0x80 + b3;
    assert b0 * 262144 + b1 * 4096 + b2 * 64 + b3 == cp;
  }

  /** Conversely, an accepted prefix is exactly the encoding of the decoded value. */
  lemma EncodeDecode(s: seq<byte>)
    requires s != [] && !Invalid(s)
    ensures s[..DecodeRune(s).1] == Encode(DecodeRune(s).0)
  {
    var n := DecodeRune(s).1;
    if n == 1 {
      assert s[..1] == [s[0]];
    } else if n == 2 {
      assert s[..2] == [s[0], s[1]];
      EncodeTwo(s[0], s[1]);
    } else if n == 3 {
      assert s[..3] == [s[0], s[1], s[2]];
      EncodeThree(s[0], s[1], s[2]);
    } else {
      assert s[..4] == [s[0], s[1], s[2], s[3]];
      EncodeFour(s[0], s[1], s[2], s[3]);
    }
  }

  lemma EncodeTwo(b0: int, b1: int)
    requires 0xC2 <= b0 <= 0xDF && 0x80 <= b1 <= 0xBF
    ensures Encode((b0 - 0xC0) * 64 + (b1 - 0x80)) == [b0, b1]
  {
    DivMod64(b0 - 0xC0, b1 - 0x80);
  }

  lemma EncodeThree(b0: int, b1: int, b2: int)
    requires 0xE0 <= b0 <= 0xEF && 0x80 <= b1 <= 0xBF && 0x80 <= b2 <= 0xBF
    requires b0 == 0xE0 ==> b1 >= 0xA0
    requires b0 == 0xED ==> b1 <= 0x9F
    ensures Encode((b0 - 0xE0) * 4096 + (b1 - 0x80) * 64 + (b2 - 0x80)) == [b0, b1, b2]
  {
    var hi := (b0 - 0xE0) * 64 + (b1 - 0x80);
    var r := 64 * hi + (b2 - 0x80);
    assert r == (b0 - 0xE0) * 4096 + (b1 - 0x80) * 64 + (b2 - 0x80);
    DivMod64(hi, b2 - 0x80);
    DivMod64(b0 - 0xE0, b1 - 0x80);
    assert r / 4096 == hi / 64;
  }

  lemma EncodeFour(b0: int, b1: int, b2: int, b3: int)
    requires 0xF0 <= b0 <= 0xF4 && 0x80 <= b1 <= 0xBF && 0x80 <= b2 <= 0xBF && 0x80 <= b3 <= 0xBF
    requires b0 == 0xF0 ==> b1 >= 0x90
    requires b0 == 0xF4 ==> b1 <= 0x8F
    ensures Encode((b0 - 0xF0) * 262144 + (b1 - 0x80) * 4096 + (b2 - 0x80) * 64 + (b3 - 0x80)) == [b0, b1, b2, b3]
  {
    var hi2 := (b0 - 0xF0) * 64 + (b1 - 0x80);
    var hi := hi2 * 64 + (b2 - 0x80);
    var r := 64 * hi + (b3 - 0x80);
    assert r == (b0 - 0xF0) * 262144 + (b1 - 0x80) * 4096 + (b2 - 0x80) * 64 + (b3 - 0x80);
    DivMod64(hi, b3 - 0x80);
    DivMod64(hi2, b2 - 0x80);
    DivMod64(b0 - 0xF0, b1 - 0x80);
    assert r / 4096 == hi2;
    assert r / 262144 == hi2 / 64;
  }

  /** A well-formed string is a concatenation of encodings. */
  lemma {:induction false} ValidStringAppend(cp: int, rest: seq<byte>)
    requires IsScalar(cp)
    ensures ValidString(Encode(cp) + rest) <==> ValidString(rest)
  {
    DecodeEncode(cp, rest);
    var s := Encode(cp) + rest;
    assert s[EncodedLength(cp)..] == rest;
  }
}
