/** UTF-8 as section 3 of RFC 3629 writes it, one scalar value at a time. */
module Utf8Encoding {
  import opened Capture
  import opened Utf8
  import opened Digits

  /** A Unicode scalar value: a code point that is no surrogate. */
  predicate IsScalar(u: int) { 0 <= u < 0x110000 && !(0xD800 <= u < 0xE000) }

  /** The table of section 3 of RFC 3629. */
  function EncodePoint(u: int): Bytes
    requires IsScalar(u)
  {
    if u < 0x80 then [u as Byte]
    else if u < 0x800 then [(0xC0 + u / 64) as Byte, (0x80 + u % 64) as Byte]
    else if u < 0x10000 then [(0xE0 + u / 4096) as Byte, (0x80 + u / 64 % 64) as Byte, (0x80 + u % 64) as Byte]
    else [(0xF0 + u / 262144) as Byte, (0x80 + u / 4096 % 64) as Byte, (0x80 + u / 64 % 64) as Byte,
          (0x80 + u % 64) as Byte]
  }

  /** The scalar value of a surrogate pair. */
  function PairPoint(high: Unit, low: Unit): (u: int)
    requires IsHigh(high) && IsLow(low)
    ensures 0x10000 <= u < 0x110000
  {
    0x10000 + (high as int - 0xD800) * 0x400 + (low as int - 0xDC00)
  }

  /** `Buffer.from(text, "utf8")`: a surrogate without its partner is written as the replacement character. */
  function Encode(t: Text): Bytes {
    if t == [] then []
    else if |t| >= 2 && IsHigh(t[0]) && IsLow(t[1]) then EncodePoint(PairPoint(t[0], t[1])) + Encode(t[2..])
    else if IsHigh(t[0]) || IsLow(t[0]) then EncodePoint(REPLACEMENT as int) + Encode(t[1..])
    else EncodePoint(t[0] as int) + Encode(t[1..])
  }

  /** Every surrogate has its partner. */
  predicate Paired(t: Text) {
    t == []
    || (if |t| >= 2 && IsHigh(t[0]) && IsLow(t[1]) then Paired(t[2..])
        else !IsHigh(t[0]) && !IsLow(t[0]) && Paired(t[1..]))
  }

  /** An encoded scalar value is one character, and it is that scalar value. */
  lemma EncodedIsChar(u: int)
    requires IsScalar(u)
    ensures IsChar(EncodePoint(u)) && CodePoint(EncodePoint(u)) == u
  {
    Digits64(u, u / 262144, u / 4096 % 64, u / 64 % 64, u % 64);
    var c := EncodePoint(u);
    if u < 0x80 {
    } else if u < 0x800 {
      assert u / 4096 == 0 && u / 262144 == 0;
      assert |c| == 2 && Need(c[0]) == 2 && IsSecond(c[0], c[1]);
    } else if u < 0x10000 {
      assert u / 262144 == 0 && u / 4096 % 64 == u / 4096;
      assert |c| == 3 && Need(c[0]) == 3 && IsSecond(c[0], c[1]) && IsTail(c[2]);
    } else {
      assert |c| == 4 && Need(c[0]) == 4 && IsSecond(c[0], c[1]) && IsTail(c[2]) && IsTail(c[3]);
    }
  }

  /** A character is the encoding of its scalar value. */
  lemma CharIsEncoded(c: Bytes)
    requires IsChar(c)
    ensures IsScalar(CodePoint(c)) && EncodePoint(CodePoint(c)) == c
  {
    var u := CodePoint(c);
    if |c| == 2 {
      Digits64(u, 0, 0, c[0] as int - 0xC0, c[1] as int - 0x80);
    } else if |c| == 3 {
      Digits64(u, 0, c[0] as int - 0xE0, c[1] as int - 0x80, c[2] as int - 0x80);
      assert u / 4096 % 64 == u / 4096;
    } else if |c| == 4 {
      Digits64(u, c[0] as int - 0xF0, c[1] as int - 0x80, c[2] as int - 0x80, c[3] as int - 0x80);
    }
    var e := EncodePoint(u);
    assert |e| == |c| && forall i | 0 <= i < |c| :: e[i] == c[i];
  }
}
