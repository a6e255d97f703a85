/**
  What normalising means, without running it: which names leave the root, read off the depth their segments reach, and
  the laws by which segments cancel.
 */
module ZipDepth {
  import opened Options
  import opened ZipPaths

  // ---------------------------------------------------------------- cutting and joining

  /** Joining what was cut gives the name back. */
  lemma {:induction false} JoinSplit(s: string)
    ensures Join(Split(s)) == s
  {
    if s != "" {
      var rest := Split(s[1..]);
      JoinSplit(s[1..]);
      assert s == [s[0]] + s[1..];
      if s[0] == '/' {
        assert ([""] + rest)[1..] == rest;
      } else if |rest| > 1 {
        var glued := [[s[0]] + rest[0]] + rest[1..];
        assert glued[1..] == rest[1..];
        assert [s[0]] + (rest[0] + "/" + Join(rest[1..])) == ([s[0]] + rest[0]) + "/" + Join(rest[1..]);
      }
    }
  }

  // ---------------------------------------------------------------- cancelling

  predicate Ignored(seg: string) { seg == "" || seg == "." }

  /** A plain segment and the `..` after it cancel, wherever they stand. */
  lemma CancelUp(acc: seq<string>, a: seq<string>, x: string, b: seq<string>, above: bool)
    requires Plain(x)
    ensures Resolve(acc, a + [x, ".."] + b, above) == Resolve(acc, a + b, above)
  {
    var mid := Resolve(acc, a, above);
    ResolveAppends(acc, a + [x, ".."], b, above);
    ResolveAppends(acc, a, [x, ".."], above);
    ResolveAppends(acc, a, b, above);
    assert [x, ".."][1..] == [".."] && [".."][1..] == [];
    assert (mid + [x])[..|mid|] == mid;
  }

  /** Empty segments and `.` count for nothing, wherever they stand. */
  lemma DropIgnored(acc: seq<string>, a: seq<string>, x: string, b: seq<string>, above: bool)
    requires Ignored(x)
    ensures Resolve(acc, a + [x] + b, above) == Resolve(acc, a + b, above)
  {
    ResolveAppends(acc, a + [x], b, above);
    ResolveAppends(acc, a, [x], above);
    ResolveAppends(acc, a, b, above);
    assert [x][1..] == [];
  }

  lemma SplitAround(s: string, p: string, x: string, q: string)
    requires SlashFree(x) && s == p + "/" + (x + "/" + q)
    ensures Split(s) == Split(p) + ([x] + Split(q))
  {
    SplitAtSlash(p, x + "/" + q);
    SplitAtSlash(x, q);
    SplitWhole(x);
  }

  /** Removing `x/..` from a name, or a `.` or an empty segment, leaves its normal form as it was. */
  lemma NormalCancels(p: string, x: string, q: string)
    requires Plain(x)
    ensures Normalize(p + "/" + x + "/../" + q) == Normalize(p + "/" + q)
  {
    var long, short, tail := p + "/" + x + "/../" + q, p + "/" + q, ".." + "/" + q;
    assert long == p + "/" + (x + "/" + tail);
    SplitAround(long, p, x, tail);
    SplitUp(tail, q);
    SplitAtSlash(p, q);
    Pair(Split(p), x, Split(q));
    CancelUp([], Split(p), x, Split(q), !IsAbsolute(short));
    SameEnds(long, short, p, x + "/../", q);
  }

  lemma SplitUp(s: string, q: string)
    requires s == ".." + "/" + q
    ensures Split(s) == [".."] + Split(q)
  {
    SplitWhole("..");
    SplitAtSlash("..", q);
  }

  lemma Pair(a: seq<string>, x: string, b: seq<string>)
    ensures a + ([x] + ([".."] + b)) == a + [x, ".."] + b
  {
  }

  lemma NormalDrops(p: string, x: string, q: string)
    requires Ignored(x)
    ensures Normalize(p + "/" + x + "/" + q) == Normalize(p + "/" + q)
  {
    var long, short := p + "/" + x + "/" + q, p + "/" + q;
    assert long == p + "/" + (x + "/" + q);
    SplitAround(long, p, x, q);
    SplitAtSlash(p, q);
    assert Split(p) + ([x] + Split(q)) == Split(p) + [x] + Split(q);
    DropIgnored([], Split(p), x, Split(q), !IsAbsolute(short));
    assert long == p + "/" + (x + "/") + q;
    SameEnds(long, short, p, x + "/", q);
  }

  lemma SameEnds(long: string, short: string, p: string, middle: string, q: string)
    requires long == p + "/" + middle + q && short == p + "/" + q && EndsInSlash(middle)
    ensures IsAbsolute(long) == IsAbsolute(short) && EndsInSlash(long) == EndsInSlash(short)
    ensures long != "" && short != ""
  {
    assert long[0] == short[0];
    if q == "" {
      assert long[|long| - 1] == middle[|middle| - 1] && short[|short| - 1] == '/';
    } else {
      assert long[|long| - 1] == q[|q| - 1] && short[|short| - 1] == q[|q| - 1];
    }
  }

  // ---------------------------------------------------------------- depth

  /** How deep a walk along the segments ends, with `..` going up. */
  function Depth(segs: seq<string>): int {
    if segs == [] then 0
    else
      var last := segs[|segs| - 1];
      Depth(segs[..|segs| - 1]) + (if Ignored(last) then 0 else if last == ".." then -1 else 1)
  }

  /** The highest point of the walk: the least depth of a prefix. */
  function Highest(segs: seq<string>): (d: int)
    ensures d <= 0 && d <= Depth(segs)
  {
    if segs == [] then 0
    else
      var before, here := Highest(segs[..|segs| - 1]), Depth(segs);
      if here < before then here else before
  }

  /** The walk rises above its start exactly if some prefix holds more `..` than plain segments. */
  lemma {:induction false} HighestIff(segs: seq<string>)
    ensures Highest(segs) < 0 <==> exists k | 0 <= k <= |segs| :: Depth(segs[..k]) < 0
  {
    if segs == [] {
      assert forall k | 0 <= k <= 0 :: segs[..k] == [];
    } else {
      var init := segs[..|segs| - 1];
      HighestIff(init);
      assert segs[..|segs|] == segs;
      assert forall k | 0 <= k < |segs| :: segs[..k] == init[..k];
      if Highest(init) < 0 {
        var k :| 0 <= k <= |init| && Depth(init[..k]) < 0;
        assert Depth(segs[..k]) < 0;
      }
    }
  }

  /** The leading `..` of resolved segments. */
  function Ups(r: seq<string>): (u: nat)
    ensures u <= |r|
  {
    if r == [] || r[0] != ".." then 0 else 1 + Ups(r[1..])
  }

  lemma {:induction false} UpsPush(r: seq<string>, seg: string)
    requires Resolved(r, true)
    ensures seg != ".." ==> Ups(r + [seg]) == Ups(r)
    ensures r != [] && r[|r| - 1] != ".." ==> Ups(r) < |r| && Ups(r[..|r| - 1]) == Ups(r)
    ensures (r == [] || r[|r| - 1] == "..") ==> Ups(r) == |r| && Ups(r + [".."]) == |r| + 1
  {
    if r == [] {
      assert [seg][1..] == [] && [".."][1..] == [];
    } else {
      var more := r[1..];
      assert (r + [seg])[1..] == more + [seg] && (r + [".."])[1..] == more + [".."];
      assert forall x | x in more :: x in r;
      assert forall i | 0 <= i < |more| :: more[i] == r[i + 1];
      if r[0] == ".." {
        UpsPush(more, seg);
        if more != [] { assert r[..|r| - 1][1..] == more[..|more| - 1]; }
      }
    }
  }

  /** How many `..` lead the resolved segments, and how many segments there are, from the depths alone. */
  lemma {:induction false} ResolvedByDepth(segs: seq<string>)
    requires forall x | x in segs :: SlashFree(x)
    ensures var r := Resolve([], segs, true);
            Resolved(r, true) && Ups(r) == -Highest(segs) && |r| == Depth(segs) + 2 * Ups(r)
  {
    ResolveResolves([], segs, true);
    if segs != [] {
      var init, last := segs[..|segs| - 1], segs[|segs| - 1];
      ResolvedByDepth(init);
      assert segs == init + [last];
      ResolveAppends([], init, [last], true);
      var before := Resolve([], init, true);
      assert [last][1..] == [] && Resolve([], segs, true) == Push(before, last, true);
      PushByDepth(before, last, Depth(init));
    }
  }

  lemma PushByDepth(r: seq<string>, seg: string, depth: int)
    requires Resolved(r, true) && |r| == depth + 2 * Ups(r)
    ensures var next, here := Push(r, seg, true), depth + (if Ignored(seg) then 0 else if seg == ".." then -1 else 1);
            && |next| == here + 2 * Ups(next)
            && (here + Ups(r) < 0 ==> Ups(next) + here == 0) && (here + Ups(r) >= 0 ==> Ups(next) == Ups(r))
  {
    UpsPush(r, seg);
  }

  // ---------------------------------------------------------------- the artifact policy's names

  /** What `trim` removes: the white space and line terminators of ECMAScript, by code point. */
  lemma SpacesAre(c: char)
    ensures IsSpace(c) <==>
              || 9 <= c as int <= 13 || c as int == 32 || c as int == 160 || c as int == 5760
              || 8192 <= c as int <= 8202 || c as int == 8232 || c as int == 8233 || c as int == 8239
              || c as int == 8287 || c as int == 12288 || c as int == 65279
  {
  }

  /**
    Which names are accepted, read off their segments: not blank, no backslash, relative, never above the root on the
    way, and not the root itself unless written as a directory.
   */
  lemma AcceptedIff(value: string)
    ensures NormalizeZipPath(value).Ok? <==>
              && (exists c | c in value :: !IsSpace(c)) && '\\' !in value && value[0] != '/'
              && (forall k | 0 <= k <= |Split(value)| :: Depth(Split(value)[..k]) >= 0)
              && (Depth(Split(value)) == 0 ==> value[|value| - 1] == '/')
  {
    if value != "" && !IsAbsolute(value) {
      var segs := Split(value);
      LeavesRootIff(value);
      SplitSlashFree(value);
      ResolvedByDepth(segs);
      HighestIff(segs);
      assert segs[..|segs|] == segs;
    }
  }

  /** The executor's check, likewise, on the entrypoint with its backslashes turned. */
  lemma EntrypointAcceptedIff(entrypoint: string)
    ensures ValidateEntrypoint(entrypoint).Ok? <==>
              && entrypoint != "" && entrypoint[0] != '/'
              && (entrypoint[0] != '\\' ==>
                    var segs := Split(Slashes(entrypoint));
                    && (forall k | 0 <= k <= |segs| :: Depth(segs[..k]) >= 0)
                    && (Depth(segs) == 0 ==> entrypoint[|entrypoint| - 1] in "/\\"))
  {
    if entrypoint != "" && entrypoint[0] != '/' {
      var raw := Slashes(entrypoint);
      var segs := Split(raw);
      if entrypoint[0] == '\\' {
        RootedStaysRooted(raw);
      } else {
        LeavesRootIff(raw);
        SplitSlashFree(raw);
        ResolvedByDepth(segs);
        HighestIff(segs);
        assert segs[..|segs|] == segs;
      }
    }
  }

  lemma RootedStaysRooted(s: string)
    requires IsAbsolute(s)
    ensures !LeavesRoot(Normalize(s))
  {
    NormalKeepsRoot(s);
    var n := Normalize(s);
    assert n[0] == '/';
    UpPrefix(n);
  }

  // ---------------------------------------------------------------- joining below a root

  lemma JoinIsInjective(a: seq<string>, b: seq<string>)
    requires a != [] && b != [] && (forall x | x in a :: SlashFree(x)) && forall x | x in b :: SlashFree(x)
    requires Join(a) == Join(b)
    ensures a == b
  {
    SplitJoin(a);
    SplitJoin(b);
  }

  /** A path that begins with the root and a slash begins with the root's segments. */
  lemma TextPrefixIsSegmentPrefix(root: seq<string>, target: seq<string>)
    requires root != [] && target != []
    requires (forall x | x in root :: SlashFree(x)) && forall x | x in target :: SlashFree(x)
    requires Join(root) + "/" <= Join(target)
    ensures root <= target && root != target
  {
    var q := Join(target)[|Join(root)| + 1..];
    assert Join(target) == Join(root) + "/" + q;
    SplitAtSlash(Join(root), q);
    SplitJoin(root);
    SplitJoin(target);
    SplitNonEmpty(q);
  }

  lemma SplitNonEmpty(s: string)
    ensures Split(s) != []
  {
  }

  /**
    `safeJoin` throws exactly if the resolved target does not lie at or below the root, segment by segment; the textual
    prefix check never takes a sibling for a child.
   */
  lemma SafeJoinIff(root: seq<string>, relative: string)
    requires IsRoot(root)
    ensures SafeJoin(root, relative).Ok? <==> root <= ResolveBelow(root, relative)
    ensures SafeJoin(root, relative).Ok? ==> SafeJoin(root, relative).value == "/" + Join(ResolveBelow(root, relative))
    ensures relative != "" && relative[0] == '/' ==> ResolveBelow(root, relative) == Segments(relative)
  {
    var target := ResolveBelow(root, relative);
    SplitSlashFree(relative);
    ResolveResolves(if IsAbsolute(relative) then [] else root, Split(relative), false);
    if root <= target {
      BelowRoot(root, target[|root|..]);
      assert root + target[|root|..] == target;
    } else if SafeJoin(root, relative).Ok? {
      OnlyBelow(root, target);
    }
  }

  lemma OnlyBelow(root: seq<string>, target: seq<string>)
    requires root != [] && Resolved(root, false) && Resolved(target, false)
    requires PathText(target) == PathText(root) || PathText(root) + "/" <= PathText(target)
    ensures root <= target
  {
    var a, b := Join(root), Join(target);
    assert PathText(root)[1..] == a && PathText(target)[1..] == b;
    JoinEnds(root);
    if target == [] {
    } else if PathText(target) == PathText(root) {
      JoinIsInjective(root, target);
    } else {
      assert (PathText(root) + "/")[1..] == a + "/";
      assert a + "/" <= b;
      TextPrefixIsSegmentPrefix(root, target);
    }
  }
}
