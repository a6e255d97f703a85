/** Decoding and encoding undo each other, and an emitted result survives the way through the pipe. */
module Utf8RoundTrip {
  import opened Options
  import opened Capture
  import opened Utf8
  import opened Utf8Encoding
  import opened Digits

  /** What one step of the encoder takes off a text: its first scalar value. */
  lemma FirstPoint(t: Text) returns (c: Bytes, rest: Text)
    requires t != [] && Paired(t)
    ensures IsChar(c) && Encode(t) == c + Encode(rest) && t == Units(c) + rest && Paired(rest) && |rest| < |t|
  {
    if |t| >= 2 && IsHigh(t[0]) && IsLow(t[1]) {
      var u := PairPoint(t[0], t[1]);
      EncodedIsChar(u);
      c, rest := EncodePoint(u), t[2..];
      PairIsUnits(c, t[0], t[1]);
      assert t == [t[0], t[1]] + rest;
    } else {
      var u := t[0] as int;
      EncodedIsChar(u);
      c, rest := EncodePoint(u), t[1..];
      assert Units(c) == [t[0]] && t == [t[0]] + rest;
    }
  }

  lemma PairIsUnits(c: Bytes, high: Unit, low: Unit)
    requires IsHigh(high) && IsLow(low) && IsChar(c) && CodePoint(c) == PairPoint(high, low)
    ensures Units(c) == [high, low]
  {
    var a, b := high as int - 0xD800, low as int - 0xDC00;
    assert CodePoint(c) - 0x10000 == a * 0x400 + b && 0 <= b < 0x400;
    TenBits(CodePoint(c) - 0x10000, a, b);
  }

  /** Decoding an encoded text gives the text back. */
  lemma {:induction false} DecodeEncode(t: Text)
    requires Paired(t)
    ensures WellFormed(Encode(t)) && Decode(Encode(t)) == t
    decreases |t|
  {
    if t != [] {
      var c, rest := FirstPoint(t);
      DecodeEncode(rest);
      WholeFirst(Encode(t), c, Encode(rest));
    }
  }

  /** What a character decodes to is encoded as that character. */
  lemma EncodeUnits(t: Text, c: Bytes, rest: Text)
    requires IsChar(c) && t == Units(c) + rest
    ensures Encode(t) == c + Encode(rest) && (Paired(t) <==> Paired(rest))
  {
    CharIsEncoded(c);
    if |c| == 4 {
      var u := CodePoint(c) - 0x10000;
      TenBits(u, u / 0x400, u % 0x400);
      assert t[0] == Units(c)[0] && t[1] == Units(c)[1] && t[2..] == rest;
      assert PairPoint(t[0], t[1]) == CodePoint(c);
    } else {
      assert t[0] == Units(c)[0] && t[1..] == rest;
    }
  }

  /** Encoding what well-formed bytes decode to gives the bytes back. */
  lemma {:induction false} EncodeDecode(s: Bytes)
    requires WellFormed(s)
    ensures Paired(Decode(s)) && Encode(Decode(s)) == s
    decreases |s|
  {
    if s != [] {
      var c, rest := FirstChar(s);
      EncodeDecode(rest);
      EncodeUnits(Decode(s), c, Decode(rest));
    }
  }

  /** `Buffer.byteLength` is the length of what the encoder writes, for every text. */
  lemma {:induction false} EncodedLength(t: Text)
    ensures |Encode(t)| == Utf8Length(t)
    decreases |t|
  {
    if t != [] {
      if |t| >= 2 && IsHigh(t[0]) && IsLow(t[1]) {
        EncodedLength(t[2..]);
      } else {
        EncodedLength(t[1..]);
      }
    }
  }

  /**
    The round trip on bytes: a job writes UTF-8 output with an emitted result in it, the pipe delivers it in chunks that
    cut no character, and the bytes up to the end of the payload fit; then the emitted value comes back.
   */
  lemma EmittedBytesReturn<V>(before: Text, payload: Text, after: Text, chunks: seq<Bytes>, captured: Text,
                              maxBytes: nat, maxOutput: nat, parse: Text -> Option<V>, value: V)
    requires AtLineStart(before) && Unmarked(Lines(before), PREFIX) && NoBreaks(payload)
    requires Paired(before + Emit(payload) + after) && Whole(chunks) == Encode(before + Emit(payload) + after)
    requires CutBetween(chunks) && captured == Take(Pieces(chunks), maxBytes)
    requires |Encode(before + (PREFIX + payload))| <= maxBytes && |Encode(payload)| <= maxOutput
    requires parse(payload) == Some(value)
    ensures ParseResult(captured, maxOutput, parse) == Ok(Some(value))
  {
    var stream := before + Emit(payload) + after;
    CleanCuts(chunks);
    DecodeEncode(stream);
    EncodedLength(payload);
    EncodedLength(before + (PREFIX + payload));
    LengthBounds(before + (PREFIX + payload));
    StreamOfOne(stream);
    EmittedValueReturns(before, payload, after, [stream], captured, maxBytes, maxOutput, parse, value);
  }

  lemma StreamOfOne(t: Text)
    ensures Stream([t]) == t
  {
    assert [t][..0] == [] && Stream([]) == [];
  }
}
