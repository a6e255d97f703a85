/** Path normalisation and joining, by segments, as the artifact policy, the executor and the extractor use them. */
module ZipPaths {
  import opened Options

  // ---------------------------------------------------------------- segments

  predicate SlashFree(s: string) { '/' !in s }

  /** One more character in front: a slash starts a new segment, any other character extends the first one. */
  function Glue(c: char, segs: seq<string>): (all: seq<string>)
    requires segs != []
    ensures all != []
  {
    if c == '/' then [""] + segs else [[c] + segs[0]] + segs[1..]
  }

  function Split(s: string): (segs: seq<string>)
    ensures segs != []
  {
    if s == "" then [""] else Glue(s[0], Split(s[1..]))
  }

  function Join(segs: seq<string>): string {
    if segs == [] then "" else if |segs| == 1 then segs[0] else segs[0] + "/" + Join(segs[1..])
  }

  lemma {:induction false} SplitSlashFree(s: string)
    ensures forall x | x in Split(s) :: SlashFree(x)
  {
    if s != "" {
      SplitSlashFree(s[1..]);
      var rest := Split(s[1..]);
      forall x | x in Split(s) ensures SlashFree(x) {
        assert rest[0] in rest;
        if x !in rest { assert x == "" || x == [s[0]] + rest[0]; }
      }
    }
  }

  lemma {:induction false} SplitWhole(s: string)
    requires SlashFree(s)
    ensures Split(s) == [s]
  {
    if s != "" {
      assert s[1..] <= s[1..] && forall c | c in s[1..] :: c in s;
      SplitWhole(s[1..]);
      assert [s[0]] + s[1..] == s;
    }
  }

  lemma GlueAppends(c: char, left: seq<string>, right: seq<string>)
    requires left != []
    ensures Glue(c, left + right) == Glue(c, left) + right
  {
    assert (left + right)[1..] == left[1..] + right;
  }

  lemma SplitFirst(c: char, s: string)
    ensures Split([c] + s) == Glue(c, Split(s))
  {
    assert ([c] + s)[1..] == s;
  }

  lemma {:induction false} SplitAtSlash(a: string, b: string)
    ensures Split(a + "/" + b) == Split(a) + Split(b)
    decreases |a|
  {
    if a == "" {
      assert a + "/" + b == ['/'] + b;
      SplitFirst('/', b);
    } else {
      var c, t := a[0], a[1..];
      SplitAtSlash(t, b);
      assert a + "/" + b == [c] + (t + "/" + b);
      SplitFirst(c, t + "/" + b);
      GlueAppends(c, Split(t), Split(b));
    }
  }

  lemma {:induction false} SplitJoin(segs: seq<string>)
    requires segs != [] && forall x | x in segs :: SlashFree(x)
    ensures Split(Join(segs)) == segs
  {
    SplitWhole(segs[0]);
    if |segs| > 1 {
      var first, rest := segs[0], segs[1..];
      assert forall x | x in rest :: x in segs;
      SplitJoin(rest);
      SplitAtSlash(first, Join(rest));
      assert Join(segs) == first + "/" + Join(rest);
      assert segs == [first] + rest;
    }
  }

  // ---------------------------------------------------------------- resolving dots

  /** One segment: `.` and empty vanish, `..` takes the last one back, or stays if there is none and that is allowed. */
  function Push(acc: seq<string>, seg: string, above: bool): seq<string> {
    if seg == "" || seg == "." then acc
    else if seg != ".." then acc + [seg]
    else if acc != [] && acc[|acc| - 1] != ".." then acc[..|acc| - 1]
    else if above then acc + [seg] else acc
  }

  function Resolve(acc: seq<string>, segs: seq<string>, above: bool): seq<string>
    decreases |segs|
  {
    if segs == [] then acc else Resolve(Push(acc, segs[0], above), segs[1..], above)
  }

  predicate Plain(seg: string) { SlashFree(seg) && seg != "" && seg != "." && seg != ".." }

  /** Resolved segments: only leading `..`, and those only where going above is allowed. */
  ghost predicate Resolved(segs: seq<string>, above: bool) {
    && (forall x | x in segs :: Plain(x) || (above && x == ".."))
    && (forall i, j | 0 <= i < j < |segs| && segs[j] == ".." :: segs[i] == "..")
  }

  lemma {:induction false} ResolveResolves(acc: seq<string>, segs: seq<string>, above: bool)
    requires Resolved(acc, above) && forall x | x in segs :: SlashFree(x)
    ensures Resolved(Resolve(acc, segs, above), above)
    decreases |segs|
  {
    if segs != [] {
      assert Resolved(Push(acc, segs[0], above), above);
      ResolveResolves(Push(acc, segs[0], above), segs[1..], above);
    }
  }

  /** Resolved segments are appended as they are. */
  lemma {:induction false} ResolveKeeps(acc: seq<string>, segs: seq<string>, above: bool)
    requires Resolved(acc + segs, above)
    ensures Resolve(acc, segs, above) == acc + segs
    decreases |segs|
  {
    if segs == [] {
      assert acc + segs == acc;
    } else {
      var all := acc + segs;
      assert all[|acc|] == segs[0] && all[|acc|] in all;
      if segs[0] == ".." && acc != [] { assert all[|acc| - 1] == ".."; }
      assert (acc + [segs[0]]) + segs[1..] == all;
      ResolveKeeps(acc + [segs[0]], segs[1..], above);
    }
  }

  lemma {:induction false} ResolveAppends(acc: seq<string>, a: seq<string>, b: seq<string>, above: bool)
    ensures Resolve(acc, a + b, above) == Resolve(Resolve(acc, a, above), b, above)
    decreases |a|
  {
    if a == [] {
      assert a + b == b;
    } else {
      assert (a + b)[1..] == a[1..] + b;
      ResolveAppends(Push(acc, a[0], above), a[1..], b, above);
    }
  }

  // ---------------------------------------------------------------- normalising

  predicate IsAbsolute(s: string) { s != "" && s[0] == '/' }
  predicate EndsInSlash(s: string) { s != "" && s[|s| - 1] == '/' }

  function Segments(s: string): seq<string> { Resolve([], Split(s), !IsAbsolute(s)) }

  /** Segments written out, with the leading and trailing slash of the original. */
  function Render(segs: seq<string>, absolute: bool, trailing: bool): string {
    if segs == [] then (if absolute then "/" else if trailing then "./" else ".")
    else (if absolute then "/" else "") + Join(segs) + (if trailing then "/" else "")
  }

  /** `path.posix.normalize`. */
  function Normalize(s: string): string {
    if s == "" then "." else Render(Segments(s), IsAbsolute(s), EndsInSlash(s))
  }

  lemma SegmentsResolved(s: string)
    ensures Resolved(Segments(s), !IsAbsolute(s))
  {
    SplitSlashFree(s);
    ResolveResolves([], Split(s), !IsAbsolute(s));
  }

  lemma {:induction false} JoinEnds(segs: seq<string>)
    requires segs != [] && forall x | x in segs :: SlashFree(x) && x != ""
    ensures Join(segs) != "" && !IsAbsolute(Join(segs)) && !EndsInSlash(Join(segs))
  {
    assert segs[0] in segs;
    if |segs| > 1 {
      assert forall x | x in segs[1..] :: x in segs;
      JoinEnds(segs[1..]);
      assert Join(segs)[|Join(segs)| - 1] == Join(segs[1..])[|Join(segs[1..])| - 1];
    }
  }

  lemma SplitTrailing(s: string, trailing: bool)
    ensures Split(s + (if trailing then "/" else "")) == Split(s) + (if trailing then [""] else [])
  {
    if trailing {
      SplitAtSlash(s, "");
      assert s + "/" + "" == s + "/";
    } else {
      assert s + "" == s;
    }
  }

  lemma SplitLeading(s: string, absolute: bool)
    ensures Split((if absolute then "/" else "") + s) == (if absolute then [""] else []) + Split(s)
  {
    if absolute {
      SplitAtSlash("", s);
      assert "" + "/" + s == "/" + s;
    } else {
      assert "" + s == s;
    }
  }

  lemma SplitRender(segs: seq<string>, absolute: bool, trailing: bool)
    requires segs != [] && forall x | x in segs :: SlashFree(x)
    ensures Split(Render(segs, absolute, trailing)) ==
              (if absolute then [""] else []) + segs + (if trailing then [""] else [])
  {
    var lead, tail := if absolute then "/" else "", if trailing then "/" else "";
    SplitJoin(segs);
    SplitTrailing(Join(segs), trailing);
    SplitLeading(Join(segs) + tail, absolute);
    assert lead + Join(segs) + tail == lead + (Join(segs) + tail);
  }

  lemma RenderEnds(segs: seq<string>, absolute: bool, trailing: bool)
    requires segs != [] && forall x | x in segs :: SlashFree(x) && x != ""
    ensures var r := Render(segs, absolute, trailing);
            r != "" && IsAbsolute(r) == absolute && EndsInSlash(r) == trailing
  {
    JoinEnds(segs);
    var body, r := Join(segs), Render(segs, absolute, trailing);
    assert r == (if absolute then "/" else "") + body + (if trailing then "/" else "");
    assert !absolute ==> r[0] == body[0];
    assert !trailing ==> r[|r| - 1] == body[|body| - 1];
  }

  /** Empty segments in front and behind vanish. */
  lemma ResolveIgnoresEnds(segs: seq<string>, absolute: bool, trailing: bool)
    requires Resolved(segs, !absolute)
    ensures Resolve([], (if absolute then [""] else []) + segs + (if trailing then [""] else []), !absolute) == segs
  {
    var lead, tail := if absolute then [""] else [], if trailing then [""] else [];
    ResolveAppends([], lead + segs, tail, !absolute);
    ResolveAppends([], lead, segs, !absolute);
    assert Resolve([], lead, !absolute) == [];
    assert [] + segs == segs;
    ResolveKeeps([], segs, !absolute);
    assert Resolve(segs, tail, !absolute) == segs;
  }

  /** Rendered segments read back as themselves. */
  lemma SegmentsRender(segs: seq<string>, absolute: bool, trailing: bool)
    requires segs != [] && Resolved(segs, !absolute)
    ensures var r := Render(segs, absolute, trailing);
            && Segments(r) == segs && IsAbsolute(r) == absolute && EndsInSlash(r) == trailing && r != ""
  {
    RenderEnds(segs, absolute, trailing);
    SplitRender(segs, absolute, trailing);
    ResolveIgnoresEnds(segs, absolute, trailing);
  }

  /** The names that stand for the root itself. */
  lemma DotSlashStays(acc: seq<string>)
    ensures Resolve(acc, [".", ""], false) == acc
  {
    assert [".", ""][1..] == [""] && [""][1..] == [];
  }

  lemma DotNames()
    ensures Split(".") == ["."] && Split("./") == [".", ""] && Split("/") == ["", ""]
    ensures forall above :: Resolve([], ["."], above) == [] && Resolve([], [".", ""], above) == []
    ensures forall above :: Resolve([], ["", ""], above) == []
  {
    SplitWhole(".");
    SplitWhole("");
    SplitAtSlash(".", "");
    SplitAtSlash("", "");
    assert "." + "/" + "" == "./" && "" + "/" + "" == "/";
    assert ["."] + [""] == [".", ""] && [""] + [""] == ["", ""];
    assert [".", ""][1..] == [""] && ["", ""][1..] == [""] && [""][1..] == [] && ["."][1..] == [];
  }

  /** Normalising twice is normalising once. */
  lemma NormalizeIdempotent(s: string)
    ensures Normalize(Normalize(s)) == Normalize(s)
  {
    if s == "" || Segments(s) == [] {
      DotNames();
    } else {
      SegmentsResolved(s);
      SegmentsRender(Segments(s), IsAbsolute(s), EndsInSlash(s));
    }
  }

  // ---------------------------------------------------------------- the artifact policy's names

  predicate IsSpace(c: char) {
    || c in " \t\n\r"
    || c in ['\U{000B}', '\U{000C}', '\U{00A0}', '\U{1680}', '\U{2028}', '\U{2029}', '\U{202F}', '\U{205F}',
             '\U{3000}', '\U{FEFF}']
    || '\U{2000}' <= c <= '\U{200A}'
  }

  predicate IsBlank(s: string) { forall c | c in s :: IsSpace(c) }

  predicate LeavesRoot(normal: string) { normal == "." || normal == ".." || "../" <= normal }

  /** `normalizeZipRelativePath`. */
  function NormalizeZipPath(value: string): Result<string, string> {
    if IsBlank(value) || '\\' in value || IsAbsolute(value) || LeavesRoot(Normalize(value)) then Err("unsafe path")
    else Ok(Normalize(value))
  }

  function Slashes(s: string): string { seq(|s|, i requires 0 <= i < |s| => if s[i] == '\\' then '/' else s[i]) }

  /** `validateEntrypoint`. */
  function ValidateEntrypoint(entrypoint: string): Result<string, string> {
    if entrypoint == "" then Err("RUNTIME_ENTRYPOINT_REQUIRED")
    else if IsAbsolute(entrypoint) || LeavesRoot(Normalize(Slashes(entrypoint))) then Err("RUNTIME_ENTRYPOINT_INVALID")
    else Ok(Normalize(Slashes(entrypoint)))
  }

  /** What `Join` starts with: the first segment, and a slash unless that is all. */
  lemma JoinFirst(segs: seq<string>) returns (rest: string)
    requires segs != []
    ensures Join(segs) == segs[0] + rest && (rest == "" || rest[0] == '/')
  {
    rest := if |segs| == 1 then "" else "/" + Join(segs[1..]);
    assert |segs| > 1 ==> segs[0] + "/" + Join(segs[1..]) == segs[0] + rest;
  }

  /** A relative name normalises to something outside the root exactly when its first segment is `..`. */
  lemma LeavesRootIff(value: string)
    requires value != "" && !IsAbsolute(value)
    ensures LeavesRoot(Normalize(value)) <==>
              (Segments(value) == [] && !EndsInSlash(value)) || (Segments(value) != [] && Segments(value)[0] == "..")
  {
    var segs := Segments(value);
    SegmentsResolved(value);
    if segs == [] {
      assert Normalize(value) == if EndsInSlash(value) then "./" else ".";
    } else {
      assert segs[0] in segs;
      RenderedFirst(segs, EndsInSlash(value));
    }
  }

  lemma RenderedFirst(segs: seq<string>, trailing: bool)
    requires segs != [] && SlashFree(segs[0]) && segs[0] != "" && segs[0] != "."
    ensures LeavesRoot(Render(segs, false, trailing)) <==> segs[0] == ".."
  {
    var rest := JoinFirst(segs);
    var tail := rest + (if trailing then "/" else "");
    assert Render(segs, false, trailing) == segs[0] + tail;
    FirstSegment(segs[0], tail, Render(segs, false, trailing));
  }

  lemma UpPrefix(n: string)
    ensures "../" <= n <==> |n| >= 3 && n[0] == '.' && n[1] == '.' && n[2] == '/'
  {
    assert |n| >= 3 ==> n[..3] == [n[0], n[1], n[2]];
  }

  lemma FirstSegment(first: string, rest: string, n: string)
    requires SlashFree(first) && first != "" && first != "." && n == first + rest && (rest == "" || rest[0] == '/')
    ensures LeavesRoot(n) <==> first == ".."
  {
    if first == ".." {
      assert rest != "" ==> n[..3] == "../";
    } else {
      assert forall i | 0 <= i < |first| :: n[i] == first[i];
      assert rest != "" ==> n[|first|] == '/';
      assert |first| == 2 ==> first == [n[0], n[1]];
      assert |first| == 1 ==> first == [n[0]];
      UpPrefix(n);
    }
  }

  /** An accepted name has no `..` segment. */
  lemma AcceptedStaysInside(value: string)
    requires NormalizeZipPath(value).Ok?
    ensures Resolved(Segments(value), false)
    ensures ".." !in Split(NormalizeZipPath(value).value)
    ensures Segments(value) == [] ==> NormalizeZipPath(value).value == "./"
  {
    LeavesRootIff(value);
    SegmentsResolved(value);
    var segs := Segments(value);
    assert segs != [] ==> segs[0] != "..";
    if segs == [] {
      DotNames();
    } else {
      SplitRender(segs, false, EndsInSlash(value));
    }
  }

  /** Nothing but one segment of white space is left of the name. */
  predicate OnlyBlank(value: string) {
    |Segments(value)| == 1 && IsBlank(Segments(value)[0]) && !EndsInSlash(value)
  }

  lemma BlankNormalIff(value: string)
    requires value != "" && !IsAbsolute(value)
    ensures IsBlank(Normalize(value)) <==> OnlyBlank(value)
  {
    var segs, n := Segments(value), Normalize(value);
    if segs == [] {
      assert n[0] == '.' && !IsSpace('.');
    } else if |segs| == 1 {
      assert n == segs[0] + (if EndsInSlash(value) then "/" else "");
      assert EndsInSlash(value) ==> n[|segs[0]|] == '/' && !IsSpace('/');
      assert forall i | 0 <= i < |segs[0]| :: segs[0][i] == n[i];
    } else {
      assert Join(segs) == segs[0] + "/" + Join(segs[1..]);
      assert n[|segs[0]|] == '/' && !IsSpace('/');
    }
  }

  /** An accepted name is accepted again, unchanged, exactly unless white space is all that is left of it. */
  lemma AcceptedAgainIff(value: string)
    requires NormalizeZipPath(value).Ok?
    ensures var n := NormalizeZipPath(value).value;
            NormalizeZipPath(n) == (if OnlyBlank(value) then Err("unsafe path") else Ok(n))
  {
    var n := NormalizeZipPath(value).value;
    NormalizeIdempotent(value);
    assert IsBlank("");
    BlankNormalIff(value);
    NoNewChars(value, '\\');
    SegmentsResolved(value);
    if Segments(value) != [] { SegmentsRender(Segments(value), false, EndsInSlash(value)); }
  }

  lemma NormalKeepsRoot(s: string)
    requires s != ""
    ensures IsAbsolute(Normalize(s)) <==> IsAbsolute(s)
  {
    SegmentsResolved(s);
    if Segments(s) != [] { SegmentsRender(Segments(s), IsAbsolute(s), EndsInSlash(s)); }
  }

  /**
    What the executor makes of an entrypoint is then used unchanged by the extractor, or refused: exactly if the
    entrypoint begins with a backslash, or if white space is all that is left of it.
   */
  lemma EntrypointUnchangedIff(entrypoint: string)
    requires ValidateEntrypoint(entrypoint).Ok?
    ensures var n := ValidateEntrypoint(entrypoint).value;
            NormalizeZipPath(n) ==
              (if entrypoint[0] == '\\' || OnlyBlank(Slashes(entrypoint)) then Err("unsafe path") else Ok(n))
  {
    var raw := Slashes(entrypoint);
    NormalizeIdempotent(raw);
    NoNewChars(raw, '\\');
    NormalKeepsRoot(raw);
    if !IsAbsolute(raw) { BlankNormalIff(raw); }
  }

  /** Both exceptions occur: a name that normalises to a blank one ... */
  lemma BlankOnSecondSight()
    ensures NormalizeZipPath(" /.") == Ok(" ") && NormalizeZipPath(" ").Err?
  {
    SplitWhole(" ");
    SplitWhole(".");
    SplitAtSlash(" ", ".");
    var raw, segs := " /.", [" ", "."];
    assert " " + "/" + "." == raw;
    assert Split(raw) == segs && segs[1..] == ["."] && ["."][1..] == [];
    assert Segments(raw) == [" "];
    assert Normalize(raw) == " ";
    assert raw[1] == '/' && !IsSpace('/');
  }

  /** ... and an entrypoint whose backslash hid the root directory. */
  lemma RootedOnSecondSight()
    ensures ValidateEntrypoint("\\x") == Ok("/x") && NormalizeZipPath("/x").Err?
  {
    SplitWhole("");
    SplitWhole("x");
    SplitAtSlash("", "x");
    var n, segs := "/x", ["", "x"];
    assert "" + "/" + "x" == n;
    assert Split(n) == segs && segs[1..] == ["x"] && ["x"][1..] == [];
    assert Segments(n) == ["x"];
    assert Normalize(n) == n;
    assert Slashes("\\x") == n;
  }

  // ---------------------------------------------------------------- characters

  lemma {:induction false} JoinChars(segs: seq<string>, c: char)
    requires c in Join(segs) && c != '/'
    ensures exists x | x in segs :: c in x
  {
    if |segs| > 1 && c !in segs[0] {
      JoinChars(segs[1..], c);
      var x :| x in segs[1..] && c in x;
      assert x in segs;
    } else {
      assert segs[0] in segs;
    }
  }

  lemma {:induction false} SplitChars(s: string, x: string, c: char)
    requires x in Split(s) && c in x
    ensures c in s
  {
    if s != "" {
      var rest := Split(s[1..]);
      if x in rest { SplitChars(s[1..], x, c); }
      else if s[0] != '/' {
        if c != s[0] { SplitChars(s[1..], rest[0], c); }
      }
    }
  }

  lemma {:induction false} ResolveDraws(acc: seq<string>, segs: seq<string>, above: bool, x: string)
    requires x in Resolve(acc, segs, above)
    ensures x in acc || x in segs
    decreases |segs|
  {
    if segs != [] {
      ResolveDraws(Push(acc, segs[0], above), segs[1..], above, x);
    }
  }

  /** Normalising introduces no character but slashes and dots. */
  lemma NoNewChars(s: string, c: char)
    requires c != '/' && c != '.' && c !in s
    ensures c !in Normalize(s)
  {
    var segs := Segments(s);
    if c in Join(segs) {
      JoinChars(segs, c);
      var x :| x in segs && c in x;
      ResolveDraws([], Split(s), !IsAbsolute(s), x);
      SplitChars(s, x, c);
      assert false;
    }
  }

  // ---------------------------------------------------------------- joining below a root

  /** An absolute directory other than `/`, by its resolved segments, as `mkdtemp` returns it. */
  ghost predicate IsRoot(root: seq<string>) { root != [] && Resolved(root, false) }

  function PathText(segs: seq<string>): string { "/" + Join(segs) }

  /** `path.resolve(root, relative)` for an absolute root. */
  function ResolveBelow(root: seq<string>, relative: string): seq<string> {
    Resolve(if IsAbsolute(relative) then [] else root, Split(relative), false)
  }

  /** `safeJoin`. */
  function SafeJoin(root: seq<string>, relative: string): Result<string, string> {
    var target := PathText(ResolveBelow(root, relative));
    if target != PathText(root) && !(PathText(root) + "/" <= target) then Err("unsafe extraction target")
    else Ok(target)
  }

  lemma {:induction false} JoinAppends(a: seq<string>, b: seq<string>)
    requires a != [] && b != []
    ensures Join(a + b) == Join(a) + "/" + Join(b)
  {
    if |a| == 1 {
      assert (a + b)[1..] == b;
    } else {
      assert (a + b)[1..] == a[1..] + b;
      JoinAppends(a[1..], b);
    }
  }

  /** Resolving segments without `..` only ever adds below. */
  lemma {:induction false} ResolveOnlyAdds(root: seq<string>, acc: seq<string>, segs: seq<string>)
    requires forall i | 0 <= i < |segs| :: segs[i] != ".."
    ensures Resolve(root + acc, segs, false) == root + Resolve(acc, segs, false)
    decreases |segs|
  {
    if segs != [] {
      assert root + acc + [segs[0]] == root + (acc + [segs[0]]);
      ResolveOnlyAdds(root, Push(acc, segs[0], false), segs[1..]);
    }
  }

  /** Without `..`, it makes no difference whether going above the start is allowed. */
  lemma {:induction false} AboveIsMoot(acc: seq<string>, segs: seq<string>)
    requires forall i | 0 <= i < |segs| :: segs[i] != ".."
    ensures Resolve(acc, segs, true) == Resolve(acc, segs, false)
    decreases |segs|
  {
    if segs != [] { AboveIsMoot(Push(acc, segs[0], false), segs[1..]); }
  }

  lemma BelowRoot(root: seq<string>, segs: seq<string>)
    requires root != []
    ensures var target := PathText(root + segs);
            target == PathText(root) || PathText(root) + "/" <= target
  {
    if segs == [] {
      assert root + segs == root;
    } else {
      JoinAppends(root, segs);
      assert PathText(root + segs) == PathText(root) + "/" + Join(segs);
    }
  }

  /** The throw in `safeJoin` is unreachable for accepted names: they land on the root or below it. */
  lemma AcceptedJoins(root: seq<string>, value: string)
    requires IsRoot(root) && NormalizeZipPath(value).Ok?
    ensures SafeJoin(root, NormalizeZipPath(value).value) == Ok(PathText(root + Segments(value)))
  {
    var n := NormalizeZipPath(value).value;
    var segs := Segments(value);
    AcceptedStaysInside(value);
    SegmentsResolved(value);
    BelowRoot(root, segs);
    if segs == [] {
      DotNames();
      DotSlashStays(root);
      assert root + segs == root;
    } else {
      SegmentsRender(segs, false, EndsInSlash(value));
      ResolveOnlyAdds(root, [], Split(n));
      AboveIsMoot([], Split(n));
      assert root + [] == root;
    }
  }
}
