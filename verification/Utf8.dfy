/**
  Decoding output chunk by chunk. The executor turns each chunk of bytes into text on its own, so a character cut
  by a chunk boundary is lost; the decoder is the one of the Encoding Standard, with well-formed sequences as in
  section 4 of RFC 3629 and one replacement character for each maximal ill-formed part.
 */
module Utf8 {
  import opened Capture

  newtype Byte = x: int | 0 <= x < 256
  type Bytes = seq<Byte>

  const REPLACEMENT: Unit := 0xFFFD

  /** The length of the character a byte can begin; 0 if it can begin none. */
  function Need(b: Byte): nat {
    if b < 0x80 then 1
    else if 0xC2 <= b < 0xE0 then 2
    else if 0xE0 <= b < 0xF0 then 3
    else if 0xF0 <= b < 0xF5 then 4
    else 0
  }

  predicate IsTail(b: Byte) { 0x80 <= b < 0xC0 }

  /** Overlong forms, surrogates and code points above U+10FFFF are ruled out by the second byte. */
  predicate IsSecond(lead: Byte, b: Byte) {
    && IsTail(b)
    && (lead == 0xE0 ==> 0xA0 <= b) && (lead == 0xED ==> b < 0xA0)
    && (lead == 0xF0 ==> 0x90 <= b) && (lead == 0xF4 ==> b < 0x90)
  }

  /** The first `k` bytes begin a character. */
  predicate Fits(s: Bytes, k: nat) {
    && 1 <= k <= |s| && k <= Need(s[0])
    && (k >= 2 ==> IsSecond(s[0], s[1])) && (k >= 3 ==> IsTail(s[2])) && (k >= 4 ==> IsTail(s[3]))
  }

  /** How many bytes the decoder consumes at once: as much of a character as is there, and at least one byte. */
  function Taken(s: Bytes): (k: nat)
    requires s != []
    ensures 1 <= k <= |s| && k <= 4
  {
    if Fits(s, 4) then 4 else if Fits(s, 3) then 3 else if Fits(s, 2) then 2 else 1
  }

  /** The bytes are one whole character. */
  predicate IsChar(c: Bytes) { c != [] && |c| == Need(c[0]) && Fits(c, |c|) }

  predicate StartsWhole(s: Bytes) { s != [] && Need(s[0]) == Taken(s) }

  function CodePoint(c: Bytes): (u: int)
    requires IsChar(c)
    ensures |c| == 1 ==> 0 <= u < 0x80
    ensures |c| == 2 ==> 0x80 <= u < 0x800
    ensures |c| == 3 ==> 0x800 <= u < 0x10000 && !(0xD800 <= u < 0xE000)
    ensures |c| == 4 ==> 0x10000 <= u < 0x110000
  {
    if |c| == 1 then c[0] as int
    else if |c| == 2 then (c[0] as int - 0xC0) * 64 + (c[1] as int - 0x80)
    else if |c| == 3 then (c[0] as int - 0xE0) * 4096 + (c[1] as int - 0x80) * 64 + (c[2] as int - 0x80)
    else (c[0] as int - 0xF0) * 262144 + (c[1] as int - 0x80) * 4096 + (c[2] as int - 0x80) * 64 + (c[3] as int - 0x80)
  }

  /** A character in UTF-16: one unit that is no surrogate, or a surrogate pair. */
  function Units(c: Bytes): (t: Text)
    requires IsChar(c)
    ensures |c| < 4 ==> |t| == 1 && !IsHigh(t[0]) && !IsLow(t[0]) && UnitBytes(t[0]) == |c|
    ensures |c| == 4 ==> |t| == 2 && IsHigh(t[0]) && IsLow(t[1])
  {
    var u := CodePoint(c);
    if |c| < 4 then [u as Unit]
    else [(0xD800 + (u - 0x10000) / 0x400) as Unit, (0xDC00 + (u - 0x10000) % 0x400) as Unit]
  }

  /** `chunk.toString("utf8")`. */
  function Decode(s: Bytes): Text {
    if s == [] then []
    else
      var k := Taken(s);
      (if StartsWhole(s) then assert IsChar(s[..k]); Units(s[..k]) else [REPLACEMENT]) + Decode(s[k..])
  }

  predicate WellFormed(s: Bytes) { s == [] || (StartsWhole(s) && WellFormed(s[Taken(s)..])) }

  // ---------------------------------------------------------------- characters and their parts

  lemma WholeFirst(s: Bytes, c: Bytes, rest: Bytes)
    requires IsChar(c) && s == c + rest
    ensures s != [] && StartsWhole(s) && Taken(s) == |c| && s[..Taken(s)] == c && s[Taken(s)..] == rest
    ensures Decode(s) == Units(c) + Decode(rest)
    ensures WellFormed(s) <==> WellFormed(rest)
  {
    assert Fits(s, |c|) && Taken(s) == |c|;
    assert s[..|c|] == c && s[|c|..] == rest;
  }

  lemma FirstChar(s: Bytes) returns (c: Bytes, rest: Bytes)
    requires WellFormed(s) && s != []
    ensures IsChar(c) && s == c + rest && WellFormed(rest) && Decode(s) == Units(c) + Decode(rest)
  {
    c, rest := s[..Taken(s)], s[Taken(s)..];
  }

  lemma Regroup<T>(s: seq<T>, a: seq<T>, b: seq<T>, c: seq<T>, d: seq<T>)
    requires s == c + b && c == a + d
    ensures s == a + (d + b)
  {
  }

  lemma {:induction false} DecodeAppend(s: Bytes, a: Bytes, b: Bytes)
    requires WellFormed(a) && s == a + b
    ensures Decode(s) == Decode(a) + Decode(b)
    ensures WellFormed(s) <==> WellFormed(b)
    decreases |a|
  {
    if a == [] {
      assert s == b;
    } else {
      var c, rest := FirstChar(a);
      var more := rest + b;
      DecodeAppend(more, rest, b);
      Regroup(s, c, b, a, rest);
      WholeFirst(s, c, more);
      Regroup(Decode(a) + Decode(b), Units(c), Decode(b), Decode(a), Decode(rest));
    }
  }

  ghost predicate AllTails(t: Bytes) { forall i | 0 <= i < |t| :: IsTail(t[i]) }

  /** Part of a character, but not all of it, is one replacement character. */
  lemma PartOfChar(c: Bytes, p: Bytes)
    requires IsChar(c) && p <= c && 0 < |p| < |c|
    ensures Decode(p) == [REPLACEMENT] && AllTails(c[|p|..])
  {
    assert Fits(p, |p|) && Taken(p) == |p|;
    assert p[|p|..] == [];
  }

  /** A prefix of well-formed text that is not well-formed itself ends inside a character. */
  lemma {:induction false} CutInside(r: Bytes, a: Bytes) returns (w: Bytes, p: Bytes, c: Bytes, rest: Bytes)
    requires WellFormed(r) && a <= r && !WellFormed(a)
    ensures WellFormed(w) && IsChar(c) && p <= c && 0 < |p| < |c| && WellFormed(rest)
    ensures a == w + p && r == w + (c + rest)
    decreases |r|
  {
    var first, more := FirstChar(r);
    if |a| < |first| {
      w, p, c, rest := [], a, first, more;
    } else {
      var shorter := a[|first|..];
      SplitSame(a, r[|a|..], first, more);
      WholeFirst(a, first, shorter);
      var w';
      w', p, c, rest := CutInside(more, shorter);
      w := first + w';
      WholeFirst(w, first, w');
      Regroup(w + p, first, p, w, w');
      Regroup(w + (c + rest), first, c + rest, w, w');
    }
  }

  /** Two ways to cut the same bytes in two. */
  lemma SplitSame(x: Bytes, y: Bytes, t: Bytes, r: Bytes)
    requires x + y == t + r
    ensures |x| <= |t| ==> x == t[..|x|] && y == t[|x|..] + r
    ensures |t| <= |x| ==> x == t + x[|t|..] && x[|t|..] <= r && y == r[|x| - |t|..]
  {
    var all := x + y;
    assert x == all[..|x|] && y == all[|x|..] && t == all[..|t|] && r == all[|t|..];
  }

  // ---------------------------------------------------------------- counting replacement characters

  function Lost(t: Text): nat { if t == [] then 0 else (if t[0] == REPLACEMENT then 1 else 0) + Lost(t[1..]) }

  /** How many replacement characters the decoder puts out. */
  function LostIn(s: Bytes): nat { Lost(Decode(s)) }

  lemma {:induction false} LostAppend(t: Text, a: Text, b: Text)
    requires t == a + b
    ensures Lost(t) == Lost(a) + Lost(b)
    decreases |a|
  {
    if a == [] {
      assert t == b;
    } else {
      LostAppend(t[1..], a[1..], b);
    }
  }

  /** Well-formed text followed by anything loses what each of the two loses. */
  lemma LostAfter(s: Bytes, a: Bytes, b: Bytes)
    requires WellFormed(a) && s == a + b
    ensures LostIn(s) == LostIn(a) + LostIn(b)
  {
    DecodeAppend(s, a, b);
    LostAppend(Decode(s), Decode(a), Decode(b));
  }

  lemma LostInChar(s: Bytes, c: Bytes, rest: Bytes)
    requires IsChar(c) && s == c + rest
    ensures LostIn(s) <= 1 + LostIn(rest)
  {
    WholeFirst(s, c, rest);
    var t := Units(c);
    LostAppend(Decode(s), t, Decode(rest));
    assert |c| == 4 ==> t[1..] == [t[1]] && t[1..][1..] == [];
    assert |c| < 4 ==> t[1..] == [];
  }

  lemma LostInPart(c: Bytes, p: Bytes)
    requires IsChar(c) && p <= c && 0 < |p| < |c|
    ensures LostIn(p) == 1
  {
    PartOfChar(c, p);
    var t := Decode(p);
    assert t[0] == REPLACEMENT && t[1..] == [];
    assert Lost(t) == 1 + Lost(t[1..]);
  }

  /** Each byte that continues nothing is lost on its own. */
  lemma {:induction false} TailsAreLost(s: Bytes, t: Bytes, r: Bytes)
    requires AllTails(t) && s == t + r
    ensures LostIn(s) == |t| + LostIn(r)
    decreases |t|
  {
    if t == [] {
      assert s == r;
    } else {
      assert s[0] == t[0] && Need(s[0]) == 0 && Taken(s) == 1 && s[1..] == t[1..] + r;
      TailsAreLost(s[1..], t[1..], r);
      LostAppend(Decode(s), [REPLACEMENT], Decode(s[1..]));
      assert [REPLACEMENT][1..] == [];
    }
  }

  // ---------------------------------------------------------------- chunks

  function Whole(chunks: seq<Bytes>): Bytes { if chunks == [] then [] else chunks[0] + Whole(chunks[1..]) }

  function Pieces(chunks: seq<Bytes>): Text { if chunks == [] then [] else Decode(chunks[0]) + Pieces(chunks[1..]) }

  /** What all chunks lose, each decoded on its own. */
  ghost function LostInAll(chunks: seq<Bytes>): nat {
    if chunks == [] then 0 else LostIn(chunks[0]) + LostInAll(chunks[1..])
  }

  lemma {:induction false} LostInPieces(chunks: seq<Bytes>)
    ensures Lost(Pieces(chunks)) == LostInAll(chunks)
  {
    if chunks != [] {
      LostInPieces(chunks[1..]);
      LostAppend(Pieces(chunks), Decode(chunks[0]), Pieces(chunks[1..]));
    }
  }

  /** However well-formed text is cut, no fewer characters are lost; `t` is what is left of a character cut before. */
  lemma {:induction false} CutsLoseNoLess(chunks: seq<Bytes>, t: Bytes, r: Bytes)
    requires Whole(chunks) == t + r && AllTails(t) && WellFormed(r)
    ensures LostInAll(chunks) >= |t| + LostIn(r)
    decreases |chunks|, 0
  {
    if chunks != [] {
      var chunk, more := chunks[0], chunks[1..];
      SplitSame(chunk, Whole(more), t, r);
      if |chunk| <= |t| {
        CutsLoseNoLess(more, t[|chunk|..], r);
        TailsAreLost(chunk, chunk, []);
      } else {
        TailsAreLost(chunk, t, chunk[|t|..]);
        AfterPrefix(more, chunk[|t|..], r);
      }
    }
  }

  /** What a chunk that took `a` of well-formed text costs: more than nothing if it ends inside a character. */
  lemma {:induction false} AfterPrefix(more: seq<Bytes>, a: Bytes, r: Bytes)
    requires WellFormed(r) && a <= r && Whole(more) == r[|a|..]
    ensures LostIn(a) + LostInAll(more) >= LostIn(r)
    ensures !WellFormed(a) ==> LostIn(a) + LostInAll(more) > LostIn(r)
    decreases |more|, 1
  {
    var rest := r[|a|..];
    if WellFormed(a) {
      DecodeAppend(r, a, rest);
      LostAfter(r, a, rest);
      CutsLoseNoLess(more, [], rest);
    } else {
      var w, p, c, after := CutInside(r, a);
      LostAfter(a, w, p);
      LostInPart(c, p);
      LostAfter(r, w, c + after);
      LostInChar(c + after, c, after);
      PartOfChar(c, p);
      RestOfCut(r, a, w, p, c, after);
      CutsLoseNoLess(more, c[|p|..], after);
    }
  }

  lemma RestOfCut(r: Bytes, a: Bytes, w: Bytes, p: Bytes, c: Bytes, after: Bytes)
    requires a == w + p && r == w + (c + after) && p <= c
    ensures r[|a|..] == c[|p|..] + after
  {
  }

  /** No chunk boundary falls inside a character. */
  ghost predicate CutBetween(chunks: seq<Bytes>) { forall i | 0 <= i < |chunks| :: WellFormed(chunks[i]) }

  lemma {:induction false} CleanCuts(chunks: seq<Bytes>)
    requires CutBetween(chunks)
    ensures Pieces(chunks) == Decode(Whole(chunks)) && WellFormed(Whole(chunks))
  {
    if chunks != [] {
      CleanCuts(chunks[1..]);
      DecodeAppend(Whole(chunks), chunks[0], Whole(chunks[1..]));
    }
  }

  lemma {:induction false} DirtyCut(chunks: seq<Bytes>)
    requires WellFormed(Whole(chunks)) && !CutBetween(chunks)
    ensures LostInAll(chunks) > LostIn(Whole(chunks))
  {
    var chunk, more, r := chunks[0], chunks[1..], Whole(chunks);
    if WellFormed(chunk) {
      DecodeAppend(r, chunk, Whole(more));
      LostAfter(r, chunk, Whole(more));
      assert forall i | 0 <= i < |more| :: more[i] == chunks[i + 1];
      DirtyCut(more);
    } else {
      AfterPrefix(more, chunk, r);
    }
  }

  /** Well-formed output decoded chunk by chunk comes out right exactly if no chunk boundary cuts a character. */
  lemma PiecesRightIff(chunks: seq<Bytes>)
    requires WellFormed(Whole(chunks))
    ensures Pieces(chunks) == Decode(Whole(chunks)) <==> CutBetween(chunks)
  {
    if CutBetween(chunks) {
      CleanCuts(chunks);
    } else {
      DirtyCut(chunks);
      LostInPieces(chunks);
    }
  }

  /** The smallest loss: one character of two bytes, one byte in each chunk. */
  lemma SplitCharExample()
    ensures var chunks: seq<Bytes> := [[0xC3], [0xA9]];
            WellFormed(Whole(chunks)) && Pieces(chunks) != Decode(Whole(chunks))
  {
    var chunks: seq<Bytes> := [[0xC3], [0xA9]];
    var whole: Bytes := [0xC3, 0xA9];
    assert chunks[1..] == [[0xA9]] && chunks[1..][1..] == [];
    assert Whole(chunks) == whole;
    WholeFirst(whole, whole, []);
    assert !WellFormed(chunks[0]);
    PiecesRightIff(chunks);
  }

  // ---------------------------------------------------------------- capturing bytes

  /** Well-formed bytes take as many bytes again when their text is measured. */
  lemma {:induction false} LengthOfDecoded(s: Bytes)
    requires WellFormed(s)
    ensures Utf8Length(Decode(s)) == |s|
    decreases |s|
  {
    if s != [] {
      var c, rest := FirstChar(s);
      LengthOfDecoded(rest);
      LengthOfUnits(Decode(s), c, Decode(rest));
    }
  }

  lemma LengthOfUnits(t: Text, c: Bytes, rest: Text)
    requires IsChar(c) && t == Units(c) + rest
    ensures Utf8Length(t) == |c| + Utf8Length(rest)
  {
    if |c| == 4 { assert t[2..] == rest; } else { assert t[1..] == rest; }
  }

  function Decoded(chunks: seq<Bytes>): seq<Text> { seq(|chunks|, i requires 0 <= i < |chunks| => Decode(chunks[i])) }

  lemma {:induction false} StreamFirst(first: Text, texts: seq<Text>)
    ensures Stream([first] + texts) == first + Stream(texts)
    decreases |texts|
  {
    var all := [first] + texts;
    if texts == [] {
      assert all[..0] == [] && all[|all| - 1] == first;
    } else {
      var init := texts[..|texts| - 1];
      assert all[..|all| - 1] == [first] + init && all[|all| - 1] == texts[|texts| - 1];
      StreamFirst(first, init);
    }
  }

  lemma {:induction false} StreamOfPieces(chunks: seq<Bytes>)
    ensures Stream(Decoded(chunks)) == Pieces(chunks)
  {
    if chunks != [] {
      StreamOfPieces(chunks[1..]);
      assert Decoded(chunks) == [Decode(chunks[0])] + Decoded(chunks[1..]);
      StreamFirst(Decode(chunks[0]), Decoded(chunks[1..]));
    }
  }

  /**
    The capture on the bytes as they arrive. If no chunk boundary cuts a character, it holds the first `maxBytes` units
    of the output's text, and is flagged exactly if the output is longer than `maxBytes` bytes; if well-formed output
    is cut inside a character, what is captured from is not the output's text.
   */
  method CaptureBytes(chunks: seq<Bytes>, maxBytes: nat) returns (captured: Text, truncated: bool)
    ensures captured == Take(Pieces(chunks), maxBytes)
    ensures CutBetween(chunks) ==>
              captured == Take(Decode(Whole(chunks)), maxBytes) && (truncated <==> |Whole(chunks)| > maxBytes)
    ensures WellFormed(Whole(chunks)) && !CutBetween(chunks) ==> Pieces(chunks) != Decode(Whole(chunks))
    ensures Utf8Length(captured) <= 3 * maxBytes
  {
    StreamOfPieces(chunks);
    if CutBetween(chunks) {
      CleanCuts(chunks);
      LengthOfDecoded(Whole(chunks));
    } else if WellFormed(Whole(chunks)) {
      PiecesRightIff(chunks);
    }
    captured, truncated := CaptureOutput(Decoded(chunks), maxBytes);
  }
}
