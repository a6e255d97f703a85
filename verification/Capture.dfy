/** Capturing a job's output in chunks under a byte limit, and finding the result it emitted. */
module Capture {
  import opened Options

  /** A UTF-16 code unit, as JavaScript strings hold them. */
  newtype Unit = x: int | 0 <= x < 0x10000
  type Text = seq<Unit>

  const LF: Unit := 10
  const CR: Unit := 13

  /** `IGA_RESULT_JSON:` */
  const PREFIX: Text := [73, 71, 65, 95, 82, 69, 83, 85, 76, 84, 95, 74, 83, 79, 78, 58]

  // ---------------------------------------------------------------- byte lengths

  predicate IsHigh(u: Unit) { 0xD800 <= u < 0xDC00 }
  predicate IsLow(u: Unit) { 0xDC00 <= u < 0xE000 }

  function UnitBytes(u: Unit): nat { if u < 0x80 then 1 else if u < 0x800 then 2 else 3 }

  /** `Buffer.byteLength(s, "utf8")`: a surrogate pair takes four bytes, a lone surrogate three. */
  function Utf8Length(s: Text): nat {
    if s == [] then 0
    else if |s| >= 2 && IsHigh(s[0]) && IsLow(s[1]) then 4 + Utf8Length(s[2..])
    else UnitBytes(s[0]) + Utf8Length(s[1..])
  }

  /** A unit costs between one and three bytes. */
  lemma {:induction false} LengthBounds(s: Text)
    ensures |s| <= Utf8Length(s) <= 3 * |s|
  {
    if s == [] {
    } else if |s| >= 2 && IsHigh(s[0]) && IsLow(s[1]) {
      LengthBounds(s[2..]);
    } else {
      LengthBounds(s[1..]);
    }
  }

  /** Appending costs at least a byte per unit, even where it completes a surrogate pair. */
  lemma {:induction false} LengthGrows(s: Text, t: Text)
    ensures Utf8Length(s + t) >= Utf8Length(s) + |t|
  {
    var all := s + t;
    LengthBounds(t);
    if s == [] {
      assert all == t;
    } else if |s| >= 2 && IsHigh(s[0]) && IsLow(s[1]) {
      assert all[2..] == s[2..] + t;
      LengthGrows(s[2..], t);
    } else if |s| == 1 && t != [] && IsHigh(s[0]) && IsLow(t[0]) {
      assert all[2..] == t[1..];
      LengthBounds(t[1..]);
    } else {
      assert all[1..] == s[1..] + t;
      LengthGrows(s[1..], t);
    }
  }

  // ---------------------------------------------------------------- capturing

  function Take(s: Text, n: nat): Text { if |s| <= n then s else s[..n] }

  function Stream(chunks: seq<Text>): Text {
    if chunks == [] then [] else Stream(chunks[..|chunks| - 1]) + chunks[|chunks| - 1]
  }

  /** `appendWithLimit`: the limit counts bytes, the cut counts units. */
  function AppendWithLimit(current: Text, chunk: Text, maxBytes: nat): (Text, bool) {
    var combined := current + chunk;
    if Utf8Length(combined) <= maxBytes then (combined, false) else (Take(combined, maxBytes), true)
  }

  lemma AppendStep(stream: Text, chunk: Text, maxBytes: nat)
    ensures var (value, truncated) := AppendWithLimit(Take(stream, maxBytes), chunk, maxBytes);
            && value == Take(stream + chunk, maxBytes)
            && (truncated || Utf8Length(stream) > maxBytes <==> Utf8Length(stream + chunk) > maxBytes)
  {
    LengthGrows(stream, chunk);
    LengthBounds(stream + chunk);
    if |stream| <= maxBytes {
      assert Take(stream, maxBytes) + chunk == stream + chunk;
    } else {
      LengthBounds(stream);
      LengthBounds(stream[..maxBytes] + chunk);
      assert (stream[..maxBytes] + chunk)[..maxBytes] == stream[..maxBytes] == (stream + chunk)[..maxBytes];
    }
  }

  /**
    The capture variables of `_spawnEntrypoint`: however the output is chunked, the captured text is its first
    `maxBytes` units, and the flag says whether its UTF-8 form is longer than `maxBytes` bytes.
   */
  method CaptureOutput(chunks: seq<Text>, maxBytes: nat) returns (captured: Text, truncated: bool)
    ensures captured == Take(Stream(chunks), maxBytes)
    ensures truncated <==> Utf8Length(Stream(chunks)) > maxBytes
    ensures Utf8Length(captured) <= 3 * maxBytes
  {
    captured, truncated := [], false;
    for n := 0 to |chunks|
      invariant captured == Take(Stream(chunks[..n]), maxBytes)
      invariant truncated <==> Utf8Length(Stream(chunks[..n])) > maxBytes
    {
      assert chunks[..n + 1][..n] == chunks[..n];
      AppendStep(Stream(chunks[..n]), chunks[n], maxBytes);
      var next := AppendWithLimit(captured, chunks[n], maxBytes);
      captured, truncated := next.0, truncated || next.1;
    }
    assert chunks[..|chunks|] == chunks;
    LengthBounds(captured);
  }

  // ---------------------------------------------------------------- lines

  function FirstLf(s: Text): (i: nat)
    ensures i <= |s| && (i < |s| ==> s[i] == LF)
    ensures forall j | 0 <= j < i :: s[j] != LF
  {
    if s == [] || s[0] == LF then 0 else 1 + FirstLf(s[1..])
  }

  function StripCr(line: Text): Text {
    if line != [] && line[|line| - 1] == CR then line[..|line| - 1] else line
  }

  /** `split(/\r?\n/)`. */
  function Lines(s: Text): (lines: seq<Text>)
    ensures lines != []
  {
    var i := FirstLf(s);
    if i == |s| then [s] else [StripCr(s[..i])] + Lines(s[i + 1..])
  }

  function FindLine(lines: seq<Text>, marker: Text): Option<Text> {
    if lines == [] then None else if marker <= lines[0] then Some(lines[0]) else FindLine(lines[1..], marker)
  }

  datatype Code = OutputTooLarge | JsonInvalid

  function Judge<V>(payload: Text, maxOutput: nat, parse: Text -> Option<V>): Result<Option<V>, Code> {
    if Utf8Length(payload) > maxOutput then Err(OutputTooLarge)
    else if parse(payload).None? then Err(JsonInvalid)
    else Ok(parse(payload))
  }

  /** `parseResult` for any marker; `parse` is `JSON.parse`, and no result line gives null. */
  function ParseMarked<V>(stdout: Text, marker: Text, maxOutput: nat, parse: Text -> Option<V>)
    : Result<Option<V>, Code>
  {
    var line := FindLine(Lines(stdout), marker);
    if line.None? || |line.value| < |marker| then Ok(None) else Judge(line.value[|marker|..], maxOutput, parse)
  }

  function ParseResult<V>(stdout: Text, maxOutput: nat, parse: Text -> Option<V>): Result<Option<V>, Code> {
    ParseMarked(stdout, PREFIX, maxOutput, parse)
  }

  // ---------------------------------------------------------------- cutting text into lines

  predicate NoBreaks(s: Text) { LF !in s && CR !in s }

  ghost predicate Unmarked(lines: seq<Text>, marker: Text) { forall i | 0 <= i < |lines| :: !(marker <= lines[i]) }

  /** The next character starts a line. */
  ghost predicate AtLineStart(before: Text) { before == [] || before[|before| - 1] == LF }

  lemma FirstLfIs(s: Text, i: nat)
    requires i <= |s| && (i < |s| ==> s[i] == LF) && forall j | 0 <= j < i :: s[j] != LF
    ensures FirstLf(s) == i
  {
  }

  lemma OneLine(s: Text)
    requires LF !in s
    ensures Lines(s) == [s]
  {
    FirstLfIs(s, |s|);
  }

  lemma LinesCut(s: Text, line: Text, rest: Text)
    requires s == line + [LF] + rest && LF !in line
    ensures Lines(s) == [StripCr(line)] + Lines(rest)
  {
    FirstLfIs(s, |line|);
    assert s[..|line|] == line && s[|line| + 1..] == rest;
  }

  lemma FirstBreak(s: Text) returns (line: Text, rest: Text)
    requires LF in s
    ensures s == line + [LF] + rest && LF !in line
  {
    var i := FirstLf(s);
    line, rest := s[..i], s[i + 1..];
  }

  /** Text that ends in a line break contributes whole lines. */
  lemma {:induction false} LinesAppend(before: Text, s: Text)
    requires AtLineStart(before)
    ensures var lines := Lines(before);
            Lines(before + s) == lines[..|lines| - 1] + Lines(s)
    decreases |before|
  {
    if before == [] {
      assert before + s == s;
      OneLine(before);
    } else {
      var line, rest := FirstBreak(before);
      assert rest != [] ==> rest[|rest| - 1] == before[|before| - 1];
      assert before + s == line + [LF] + (rest + s);
      LinesCut(before, line, rest);
      LinesCut(before + s, line, rest + s);
      LinesAppend(rest, s);
      DropLastOfCons(StripCr(line), Lines(rest), Lines(s));
    }
  }

  lemma DropLastOfCons(first: Text, lines: seq<Text>, more: seq<Text>)
    requires lines != []
    ensures var all := [first] + lines;
            all[..|all| - 1] + more == [first] + (lines[..|lines| - 1] + more)
  {
  }

  /** Lines written one after the other, each ended by a line feed, with or without a carriage return before it. */
  function Written(lines: seq<Text>, crlf: seq<bool>): Text
    requires |crlf| == |lines|
  {
    if lines == [] then []
    else lines[0] + (if crlf[0] then [CR] else []) + [LF] + Written(lines[1..], crlf[1..])
  }

  /** Reading lines back: whichever line break was used, the lines are those that were written. */
  lemma {:induction false} LinesOfWritten(lines: seq<Text>, crlf: seq<bool>, last: Text)
    requires |crlf| == |lines| && NoBreaks(last) && forall i | 0 <= i < |lines| :: NoBreaks(lines[i])
    ensures Lines(Written(lines, crlf) + last) == lines + [last]
  {
    if lines == [] {
      assert Written(lines, crlf) + last == last;
      OneLine(last);
    } else {
      var raw, more := lines[0] + (if crlf[0] then [CR] else []), Written(lines[1..], crlf[1..]);
      LinesOfWritten(lines[1..], crlf[1..], last);
      var all := Written(lines, crlf) + last;
      assert Written(lines, crlf) == raw + [LF] + more;
      Sooner(raw, more, last);
      LinesCut(all, raw, more + last);
      StripsOne(lines[0], crlf[0]);
      Consed(lines, last);
    }
  }

  lemma Consed(lines: seq<Text>, last: Text)
    requires lines != []
    ensures lines + [last] == [lines[0]] + (lines[1..] + [last])
  {
  }

  lemma Sooner(raw: Text, more: Text, last: Text)
    ensures raw + [LF] + more + last == raw + [LF] + (more + last)
  {
  }

  lemma StripsOne(line: Text, crlf: bool)
    requires NoBreaks(line)
    ensures StripCr(line + (if crlf then [CR] else [])) == line
  {
    if !crlf {
      assert line + [] == line;
      assert line != [] ==> line[|line| - 1] in line;
    }
  }

  lemma {:induction false} FindSkips(before: seq<Text>, lines: seq<Text>, marker: Text)
    requires Unmarked(before, marker)
    ensures FindLine(before + lines, marker) == FindLine(lines, marker)
  {
    if before == [] {
      assert before + lines == lines;
    } else {
      assert (before + lines)[1..] == before[1..] + lines;
      FindSkips(before[1..], lines, marker);
    }
  }

  lemma FindNone(lines: seq<Text>, marker: Text)
    requires Unmarked(lines, marker)
    ensures FindLine(lines, marker) == None
  {
    assert lines + [] == lines;
    FindSkips(lines, [], marker);
  }

  /** A first line without line breaks, ended by a line feed or by the end of the text, is found as it is. */
  lemma FirstLineIs(head: Text, tail: Text)
    requires NoBreaks(head) && (tail == [] || tail[0] == LF)
    ensures Lines(head + tail)[0] == head
  {
    if tail == [] {
      assert head + tail == head;
      OneLine(head);
    } else {
      assert head + tail == head + [LF] + tail[1..];
      LinesCut(head + tail, head, tail[1..]);
      assert head != [] ==> head[|head| - 1] in head;
    }
  }

  lemma MarkedAt<V>(before: Text, marker: Text, payload: Text, tail: Text, maxOutput: nat, parse: Text -> Option<V>)
    requires AtLineStart(before) && Unmarked(Lines(before), marker)
    requires NoBreaks(marker) && NoBreaks(payload) && (tail == [] || tail[0] == LF)
    ensures ParseMarked(before + (marker + payload + tail), marker, maxOutput, parse)
            == Judge(payload, maxOutput, parse)
  {
    var head := marker + payload;
    LinesAppend(before, head + tail);
    var lines := Lines(before);
    FindSkips(lines[..|lines| - 1], Lines(head + tail), marker);
    assert NoBreaks(head);
    FirstLineIs(head, tail);
    assert head[|marker|..] == payload;
  }

  lemma UnmarkedCons(first: Text, lines: seq<Text>, marker: Text)
    ensures Unmarked([first] + lines, marker) <==> !(marker <= first) && Unmarked(lines, marker)
  {
    var all := [first] + lines;
    assert all[0] == first && forall j | 0 <= j < |lines| :: lines[j] == all[j + 1];
  }

  lemma UnmarkedOne(t: Text, marker: Text)
    ensures Unmarked([t], marker) <==> !(marker <= t)
  {
    assert [t][0] == t;
  }

  lemma CutInFirstLine(s: Text, line: Text, rest: Text, k: nat, marker: Text)
    requires s == line + [LF] + rest && LF !in line && k <= |line|
    requires !(marker <= StripCr(line)) && NoBreaks(marker) && marker != []
    ensures Unmarked(Lines(s[..k]), marker)
  {
    var cut := line[..k];
    assert s[..k] == cut;
    OneLine(cut);
    CutLineUnmarked(line, k, marker);
    UnmarkedOne(cut, marker);
  }

  lemma CutInLaterLine(s: Text, line: Text, rest: Text, k: nat, marker: Text)
    requires s == line + [LF] + rest && LF !in line && |line| < k <= |s| && !(marker <= StripCr(line))
    requires Unmarked(Lines(rest[..k - |line| - 1]), marker)
    ensures Unmarked(Lines(s[..k]), marker)
  {
    var cut := rest[..k - |line| - 1];
    assert s[..k] == line + [LF] + cut;
    LinesCut(s[..k], line, cut);
    UnmarkedCons(StripCr(line), Lines(cut), marker);
  }

  /** Cutting output that holds no marked line does not make one. */
  lemma {:induction false} CutStaysUnmarked(s: Text, k: nat, marker: Text)
    requires Unmarked(Lines(s), marker) && NoBreaks(marker) && marker != [] && k <= |s|
    ensures Unmarked(Lines(s[..k]), marker)
    decreases |s|
  {
    if LF !in s {
      OneLine(s);
      OneLine(s[..k]);
      UnmarkedOne(s, marker);
      UnmarkedOne(s[..k], marker);
    } else {
      var line, rest := FirstBreak(s);
      LinesCut(s, line, rest);
      UnmarkedCons(StripCr(line), Lines(rest), marker);
      if k <= |line| {
        CutInFirstLine(s, line, rest, k, marker);
      } else {
        CutStaysUnmarked(rest, k - |line| - 1, marker);
        CutInLaterLine(s, line, rest, k, marker);
      }
    }
  }

  /** A marker has no carriage return, so a line that lost its own is not marked by keeping it. */
  lemma CutLineUnmarked(line: Text, k: nat, marker: Text)
    requires !(marker <= StripCr(line)) && NoBreaks(marker) && marker != [] && k <= |line|
    ensures !(marker <= line[..k])
  {
    assert marker[|marker| - 1] in marker;
  }

  lemma AlsoUnmarked(lines: seq<Text>, cut: seq<Text>, marker: Text)
    requires Unmarked(lines, marker) && lines != [] && |cut| == |lines| && cut[..|cut| - 1] == lines[..|lines| - 1]
    requires !(marker <= cut[|cut| - 1])
    ensures Unmarked(cut, marker)
  {
    forall i | 0 <= i < |cut| - 1 ensures !(marker <= cut[i]) {
      assert cut[i] == cut[..|cut| - 1][i] == lines[..|lines| - 1][i] == lines[i];
    }
  }

  lemma CutInMarker(before: Text, part: Text, marker: Text)
    requires AtLineStart(before) && Unmarked(Lines(before), marker) && NoBreaks(marker)
    requires part <= marker && |part| < |marker|
    ensures Unmarked(Lines(before + part), marker)
  {
    var lines := Lines(before);
    LinesAppend(before, part);
    OneLine(part);
    AlsoUnmarked(lines, lines[..|lines| - 1] + [part], marker);
  }

  lemma CutBeforeMarker(before: Text, marker: Text, rest: Text, k: nat)
    requires AtLineStart(before) && Unmarked(Lines(before), marker)
    requires NoBreaks(marker) && marker != [] && k < |before| + |marker|
    ensures Unmarked(Lines(Take(before + (marker + rest), k)), marker)
  {
    var cut := Take(before + (marker + rest), k);
    if k <= |before| {
      assert cut == before[..k];
      CutStaysUnmarked(before, k, marker);
    } else {
      assert cut == before + marker[..k - |before|];
      CutInMarker(before, marker[..k - |before|], marker);
    }
  }

  lemma TakeAppend(a: Text, b: Text, k: nat)
    ensures Take(a + b, k) == if k < |a| then a[..k] else a + Take(b, k - |a|)
  {
  }

  lemma TakeMarked(before: Text, marker: Text, payload: Text, rest: Text, room: nat)
    ensures Take(before + (marker + payload + rest), |before| + |marker| + room) ==
              before + (marker + Take(payload, room) + if room < |payload| then [] else Take(rest, room - |payload|))
  {
    var tail := if room < |payload| then [] else Take(rest, room - |payload|);
    assert marker + payload + rest == marker + (payload + rest);
    TakeAppend(before, marker + (payload + rest), |before| + |marker| + room);
    TakeAppend(marker, payload + rest, |marker| + room);
    TakeAppend(payload, rest, room);
    assert marker + Take(payload, room) + tail == marker + (Take(payload, room) + tail);
    assert room < |payload| ==> payload[..room] + tail == payload[..room];
  }

  lemma NoRoomForMarker<V>(stream: Text, before: Text, marker: Text, rest: Text, k: nat, maxOutput: nat,
                           parse: Text -> Option<V>)
    requires AtLineStart(before) && Unmarked(Lines(before), marker) && NoBreaks(marker) && marker != []
    requires stream == before + (marker + rest) && k < |before| + |marker|
    ensures ParseMarked(Take(stream, k), marker, maxOutput, parse) == Ok(None)
  {
    CutBeforeMarker(before, marker, rest, k);
    FindNone(Lines(Take(stream, k)), marker);
  }

  lemma RoomForMarker<V>(stream: Text, before: Text, marker: Text, payload: Text, rest: Text, room: nat, maxOutput: nat,
                         parse: Text -> Option<V>)
    requires AtLineStart(before) && Unmarked(Lines(before), marker) && NoBreaks(marker)
    requires NoBreaks(payload) && rest != [] && rest[0] == LF
    requires stream == before + (marker + payload + rest)
    ensures ParseMarked(Take(stream, |before| + |marker| + room), marker, maxOutput, parse)
            == Judge(Take(payload, room), maxOutput, parse)
  {
    var tail := if room < |payload| then [] else Take(rest, room - |payload|);
    TakeMarked(before, marker, payload, rest, room);
    assert NoBreaks(Take(payload, room));
    MarkedAt(before, marker, Take(payload, room), tail, maxOutput, parse);
  }

  /** A stream with a marked line in it, seen from the line and from the marker. */
  lemma Regroup(stream: Text, before: Text, marker: Text, payload: Text, after: Text)
    requires stream == before + (marker + payload + [LF]) + after
    ensures stream == before + (marker + payload + ([LF] + after))
    ensures stream == before + (marker + (payload + ([LF] + after)))
  {
  }

  /** What becomes of a marked line under a cut at any length. */
  lemma MarkedUnderCut<V>(stream: Text, before: Text, marker: Text, payload: Text, rest: Text, k: nat, maxOutput: nat,
                          parse: Text -> Option<V>)
    requires stream == before + (marker + payload + rest) && stream == before + (marker + (payload + rest))
    requires rest != [] && rest[0] == LF && AtLineStart(before) && Unmarked(Lines(before), marker)
    requires NoBreaks(marker) && marker != [] && NoBreaks(payload)
    ensures ParseMarked(Take(stream, k), marker, maxOutput, parse) ==
              if k < |before| + |marker| then Ok(None)
              else Judge(Take(payload, k - |before| - |marker|), maxOutput, parse)
  {
    if k < |before| + |marker| {
      NoRoomForMarker(stream, before, marker, payload + rest, k, maxOutput, parse);
    } else {
      RoomForMarker(stream, before, marker, payload, rest, k - |before| - |marker|, maxOutput, parse);
    }
  }

  // ---------------------------------------------------------------- reading back what was emitted

  /** `emitResult`. */
  function Emit(payload: Text): Text { PREFIX + payload + [LF] }

  lemma PrefixIsText()
    ensures |PREFIX| == |"IGA_RESULT_JSON:"|
    ensures forall i | 0 <= i < |PREFIX| :: PREFIX[i] as int == "IGA_RESULT_JSON:"[i] as int
  {
  }

  lemma PrefixIsClean()
    ensures NoBreaks(PREFIX) && PREFIX != []
  {
  }

  /**
    What becomes of an emitted result under capture, for every limit: if even the marker does not fit, there is
    no result; otherwise the payload, cut where the capture cuts it, is too large, no JSON, or the result.
   */
  lemma EmittedUnderCapture<V>(stream: Text, before: Text, payload: Text, after: Text, maxBytes: nat, maxOutput: nat,
                               parse: Text -> Option<V>)
    requires stream == before + Emit(payload) + after
    requires AtLineStart(before) && Unmarked(Lines(before), PREFIX) && NoBreaks(payload)
    ensures ParseResult(Take(stream, maxBytes), maxOutput, parse) ==
              if maxBytes < |before| + |PREFIX| then Ok(None)
              else
                var cut := Take(payload, maxBytes - |before| - |PREFIX|);
                if Utf8Length(cut) > maxOutput then Err(OutputTooLarge)
                else if parse(cut).None? then Err(JsonInvalid)
                else Ok(parse(cut))
  {
    PrefixIsClean();
    Regroup(stream, before, PREFIX, payload, after);
    MarkedUnderCut(stream, before, PREFIX, payload, [LF] + after, maxBytes, maxOutput, parse);
  }

  /** The round trip: if the output up to the end of the payload fits, the emitted value comes back. */
  lemma EmittedValueReturns<V>(before: Text, payload: Text, after: Text, chunks: seq<Text>, captured: Text,
                               maxBytes: nat, maxOutput: nat, parse: Text -> Option<V>, value: V)
    requires AtLineStart(before) && Unmarked(Lines(before), PREFIX) && NoBreaks(payload)
    requires Stream(chunks) == before + Emit(payload) + after && captured == Take(Stream(chunks), maxBytes)
    requires |before| + |PREFIX| + |payload| <= maxBytes && Utf8Length(payload) <= maxOutput
    requires parse(payload) == Some(value)
    ensures ParseResult(captured, maxOutput, parse) == Ok(Some(value))
  {
    EmittedUnderCapture(Stream(chunks), before, payload, after, maxBytes, maxOutput, parse);
  }
}
