/** `ParseRef` and the file paths built from references. Paths are slash-separated; `Clean`, `JoinPath`
    and `Rel` follow Go's path/filepath on such systems. */
module SecretPaths {
  import opened Options
  import opened Text

  predicate Alphanumeric(c: char) {
    'A' <= c <= 'Z' || 'a' <= c <= 'z' || '0' <= c <= '9'
  }

  predicate RefChar(c: char) {
    Alphanumeric(c) || c == '.' || c == '_' || c == ':' || c == '/' || c == '-'
  }

  predicate MatchesRefPattern(s: string) {
    1 <= |s| <= 128 && Alphanumeric(s[0]) && forall i :: 0 <= i < |s| ==> RefChar(s[i])
  }

  predicate IsAbs(path: string) {
    path != "" && path[0] == '/'
  }

  /** The segments that survive: "." and empty ones vanish, ".." takes one back where it can. */
  function Reduce(segments: seq<string>, rooted: bool, kept: seq<string>): seq<string> {
    if segments == [] then kept
    else
      var s, rest := segments[0], segments[1..];
      if s == "" || s == "." then Reduce(rest, rooted, kept)
      else if s == ".." then
        if kept != [] && kept[|kept| - 1] != ".." then Reduce(rest, rooted, kept[..|kept| - 1])
        else if rooted then Reduce(rest, rooted, kept)
        else Reduce(rest, rooted, kept + [s])
      else Reduce(rest, rooted, kept + [s])
  }

  function Clean(path: string): string {
    var kept := Reduce(Split(path, '/'), IsAbs(path), []);
    if IsAbs(path) then "/" + Join(kept, '/')
    else if kept == [] then "." else Join(kept, '/')
  }

  function ParseRef(value: string): Option<string> {
    if !MatchesRefPattern(value) || IsAbs(value) || value == "." || value == ".." then None
    else if ".." in Split(value, '/') then None
    else if Clean(value) != value || value == ".." || Climbs(value) then None
    else Some(value)
  }

  predicate Climbs(path: string) {
    |path| >= 3 && path[..3] == "../"
  }

  lemma ClimbsByCharacter(s: string)
    ensures Climbs(s) <==> |s| >= 3 && s[0] == '.' && s[1] == '.' && s[2] == '/'
  {
    if |s| >= 3 { assert s[..3] == [s[0], s[1], s[2]]; }
  }

  predicate PlainSegment(s: string) {
    s != "" && s != "." && s != ".." && Free(s, '/')
  }

  ghost predicate Plain(segments: seq<string>) {
    forall i :: 0 <= i < |segments| ==> PlainSegment(segments[i])
  }

  /** A relative path may climb first; after that every kept segment is plain. */
  ghost predicate Kept(segments: seq<string>, rooted: bool) {
    forall i :: 0 <= i < |segments| ==>
      segments[i] != "" && segments[i] != "." && Free(segments[i], '/') && (rooted ==> segments[i] != "..")
  }

  lemma {:induction false} ReduceKeeps(segments: seq<string>, rooted: bool, kept: seq<string>)
    requires AllFree(segments, '/') && Kept(kept, rooted)
    ensures Kept(Reduce(segments, rooted, kept), rooted)
    decreases |segments|
  {
    if segments != [] {
      var s, rest := segments[0], segments[1..];
      if s == "" || s == "." {
        ReduceKeeps(rest, rooted, kept);
      } else if s == ".." && kept != [] && kept[|kept| - 1] != ".." {
        ReduceKeeps(rest, rooted, kept[..|kept| - 1]);
      } else if s == ".." && rooted {
        ReduceKeeps(rest, rooted, kept);
      } else {
        ReduceKeeps(rest, rooted, kept + [s]);
      }
    }
  }

  lemma {:induction false} ReducePlain(segments: seq<string>, rooted: bool, kept: seq<string>)
    requires Plain(segments)
    ensures Reduce(segments, rooted, kept) == kept + segments
    decreases |segments|
  {
    if segments == [] {
      assert kept + segments == kept;
    } else {
      ReducePlain(segments[1..], rooted, kept + [segments[0]]);
      assert kept + [segments[0]] + segments[1..] == kept + segments;
    }
  }

  lemma {:induction false} ReduceSplits(first: seq<string>, second: seq<string>, rooted: bool, kept: seq<string>)
    ensures Reduce(first + second, rooted, kept) == Reduce(second, rooted, Reduce(first, rooted, kept))
    decreases |first|
  {
    if first == [] {
      assert first + second == second;
    } else {
      var s, rest := first[0], first[1..];
      assert (first + second)[0] == s && (first + second)[1..] == rest + second;
      if s == "" || s == "." {
        ReduceSplits(rest, second, rooted, kept);
      } else if s == ".." && kept != [] && kept[|kept| - 1] != ".." {
        ReduceSplits(rest, second, rooted, kept[..|kept| - 1]);
      } else if s == ".." && rooted {
        ReduceSplits(rest, second, rooted, kept);
      } else {
        ReduceSplits(rest, second, rooted, kept + [s]);
      }
    }
  }

  /** A relative path that equals its own clean form, other than ".", has no empty or "." segment. */
  lemma CleanRelative(path: string)
    requires !IsAbs(path) && path != "." && Clean(path) == path
    ensures Kept(Split(path, '/'), false)
  {
    SplitIsFree(path, '/');
    var kept := Reduce(Split(path, '/'), false, []);
    ReduceKeeps(Split(path, '/'), false, []);
    SplitOfJoin(kept, '/');
  }

  ghost predicate LetterOrDigit(c: char) {
    'A' <= c <= 'Z' || 'a' <= c <= 'z' || '0' <= c <= '9'
  }

  /** The characters a reference is spelled with. */
  ghost predicate Spelled(value: string) {
    && 1 <= |value| <= 128 && LetterOrDigit(value[0])
    && forall i :: 0 <= i < |value| ==> LetterOrDigit(value[i]) || value[i] in "._:/-"
  }

  /** `ParseRef` accepts exactly the strings of 1 to 128 allowed characters that start with a letter
      or digit and whose segments are all plain. */
  lemma ParseRefExact(value: string)
    ensures ParseRef(value).Some? <==> Spelled(value) && Plain(Split(value, '/'))
    ensures ParseRef(value).Some? ==> ParseRef(value).value == value
  {
    SplitIsFree(value, '/');
    if ParseRef(value).Some? {
      CleanRelative(value);
    }
    if MatchesRefPattern(value) && Plain(Split(value, '/')) {
      ReducePlain(Split(value, '/'), false, []);
      assert [] + Split(value, '/') == Split(value, '/');
      JoinOfSplit(value, '/');
      ClimbsByCharacter(value);
    }
  }

  // ---- joining and going back ----

  function JoinPath(root: string, relative: string): string {
    Clean(root + "/" + relative)
  }

  ghost predicate CleanAbsolute(path: string) {
    IsAbs(path) && Clean(path) == path
  }

  /** The segments of a clean path. */
  function Segments(path: string): seq<string> {
    if path == "/" || path == "." then []
    else if IsAbs(path) then Split(path[1..], '/')
    else Split(path, '/')
  }

  function WithoutCommon(a: seq<string>, b: seq<string>): (seq<string>, seq<string>) {
    if a == [] || b == [] || a[0] != b[0] then (a, b) else WithoutCommon(a[1..], b[1..])
  }

  function Ups(n: nat): (ups: seq<string>)
    ensures |ups| == n && forall i :: 0 <= i < n ==> ups[i] == ".."
  {
    seq(n, i => "..")
  }

  /** `filepath.Rel`: climb out of what is left of the base, then go down the rest of the target. */
  function Rel(base: string, target: string): Option<string> {
    var b, t := Clean(base), Clean(target);
    if b == t then Some(".")
    else if IsAbs(b) != IsAbs(t) then None
    else
      var (up, down) := WithoutCommon(Segments(b), Segments(t));
      if up != [] && up[0] == ".." then None
      else Some(Join(Ups(|up|) + down, '/'))
  }

  predicate Within(root: string, path: string) {
    var relative := Rel(root, path);
    && relative.Some? && relative.value != ".." && !IsAbs(relative.value)
    && !Climbs(relative.value)
  }

  lemma {:induction false} SplitConcat(a: string, b: string, sep: char)
    ensures Split(a + [sep] + b, sep) == Split(a, sep) + Split(b, sep)
  {
    var s := a + [sep] + b;
    if a == "" {
      assert s[1..] == b;
    } else {
      assert s[1..] == a[1..] + [sep] + b;
      SplitConcat(a[1..], b, sep);
    }
  }

  /** A clean absolute path is a slash and its plain segments. */
  lemma CleanAbsoluteForm(path: string)
    requires CleanAbsolute(path)
    ensures Plain(Segments(path)) && path == "/" + Join(Segments(path), '/')
    ensures Reduce(Split(path, '/'), true, []) == Segments(path)
  {
    var kept := Reduce(Split(path, '/'), true, []);
    SplitIsFree(path, '/');
    ReduceKeeps(Split(path, '/'), true, []);
    assert path[1..] == Join(kept, '/');
    if kept != [] {
      SplitOfJoin(kept, '/');
      JoinNonEmpty(kept);
    }
  }

  lemma JoinNonEmpty(parts: seq<string>)
    requires parts != [] && parts[0] != ""
    ensures Join(parts, '/') != ""
  {
  }

  /** Plain segments behind a slash are a clean absolute path. */
  lemma FromSegments(segments: seq<string>)
    requires Plain(segments)
    ensures var path := "/" + Join(segments, '/');
            CleanAbsolute(path) && Segments(path) == segments
  {
    var path := "/" + Join(segments, '/');
    assert path[1..] == Join(segments, '/');
    assert Split(path, '/') == [""] + Split(path[1..], '/');
    ReduceSplits([""], Split(path[1..], '/'), true, []);
    assert Reduce([""], true, []) == [];
    if segments == [] {
      assert path[1..] == "";
      assert Reduce([""], true, []) == [];
    } else {
      SplitOfJoin(segments, '/');
      ReducePlain(segments, true, []);
      assert [] + segments == segments;
      JoinNonEmpty(segments);
    }
  }

  /** Joining a reference to a root appends its segments. */
  lemma JoinAppends(root: string, ref: string)
    requires CleanAbsolute(root) && ParseRef(ref).Some?
    ensures var path := JoinPath(root, ref);
            CleanAbsolute(path) && Segments(path) == Segments(root) + Split(ref, '/')
  {
    var all := root + "/" + ref;
    ParseRefExact(ref);
    CleanAbsoluteForm(root);
    SplitConcat(root, ref, '/');
    assert all == root + ['/'] + ref;
    ReduceSplits(Split(root, '/'), Split(ref, '/'), true, []);
    ReducePlain(Split(ref, '/'), true, Segments(root));
    FromSegments(Segments(root) + Split(ref, '/'));
  }

  lemma {:induction false} WithoutPrefix(a: seq<string>, b: seq<string>)
    ensures WithoutCommon(a, a + b) == ([], b)
  {
    if a == [] {
      assert a + b == b;
    } else {
      assert (a + b)[1..] == a[1..] + b;
      WithoutPrefix(a[1..], b);
    }
  }

  /** The path of a reference stays inside the root and leads back to the reference. */
  lemma RefRoundTrip(root: string, ref: string)
    requires CleanAbsolute(root) && ParseRef(ref).Some?
    ensures Rel(root, JoinPath(root, ref)) == Some(ref)
    ensures Within(root, JoinPath(root, ref))
  {
    JoinAppends(root, ref);
    ParseRefExact(ref);
    var path := JoinPath(root, ref);
    assert |Segments(path)| > |Segments(root)|;
    WithoutPrefix(Segments(root), Split(ref, '/'));
    assert Ups(0) + Split(ref, '/') == Split(ref, '/');
    JoinOfSplit(ref, '/');
    ClimbsByCharacter(ref);
  }

  /** Distinct references have distinct paths. */
  lemma DistinctPaths(root: string, r1: string, r2: string)
    requires CleanAbsolute(root) && ParseRef(r1).Some? && ParseRef(r2).Some?
    requires JoinPath(root, r1) == JoinPath(root, r2)
    ensures r1 == r2
  {
    RefRoundTrip(root, r1);
    RefRoundTrip(root, r2);
  }

  lemma {:induction false} CommonStripped(a: seq<string>, b: seq<string>) returns (common: seq<string>)
    ensures a == common + WithoutCommon(a, b).0 && b == common + WithoutCommon(a, b).1
    ensures var (up, down) := WithoutCommon(a, b); up != [] && down != [] ==> up[0] != down[0]
  {
    common := [];
    if a != [] && b != [] && a[0] == b[0] {
      var head := [a[0]];
      var rest := CommonStripped(a[1..], b[1..]);
      var (up, down) := WithoutCommon(a[1..], b[1..]);
      assert a == head + (rest + up) && b == head + (rest + down);
      assert head + (rest + up) == head + rest + up && head + (rest + down) == head + rest + down;
      common := head + rest;
    }
  }

  lemma JoinStarts(parts: seq<string>)
    requires parts != []
    ensures var s, head := Join(parts, '/'), parts[0];
            s == head || (|s| > |head| && s[|head|] == '/' && forall i :: 0 <= i < |head| ==> s[i] == head[i])
  {
    if |parts| > 1 {
      assert Join(parts, '/') == parts[0] + (['/'] + Join(parts[1..], '/'));
    }
  }

  /** `within` is exact: on clean absolute paths it says that the root's segments begin the path's. */
  lemma WithinExact(root: string, path: string)
    requires CleanAbsolute(root) && CleanAbsolute(path)
    ensures Within(root, path) <==> Segments(root) <= Segments(path)
  {
    CleanAbsoluteForm(root);
    CleanAbsoluteForm(path);
    if root != path {
      var a, b := Segments(root), Segments(path);
      var (up, down) := WithoutCommon(a, b);
      var common := CommonStripped(a, b);
      assert a != b;
      assert up == [] ==> down != [] by { if up == [] { assert a == common; } }
      assert up == [] <==> a <= b by { PrefixIff(common, up, down); }
      if up != [] {
        assert up[0] in a;
        ClimbingPart(up, down);
      } else {
        assert Ups(0) + down == down;
        assert down[0] in b;
        PlainStart(down);
      }
    }
  }

  lemma PrefixIff(common: seq<string>, up: seq<string>, down: seq<string>)
    requires up != [] && down != [] ==> up[0] != down[0]
    ensures up == [] <==> common + up <= common + down
  {
    if up == [] {
      assert common + up == common;
    } else {
      assert (common + up)[|common|] == up[0];
      assert down != [] ==> (common + down)[|common|] == down[0];
    }
  }

  /** A path that climbs is ".." or starts with "../". */
  lemma ClimbingPart(up: seq<string>, down: seq<string>)
    requires up != []
    ensures var s := Join(Ups(|up|) + down, '/'); s == ".." || Climbs(s)
  {
    var parts := Ups(|up|) + down;
    JoinStarts(parts);
    ClimbsByCharacter(Join(parts, '/'));
    assert parts[0] == "..";
  }

  /** A path of plain segments neither climbs nor is absolute. */
  lemma PlainStart(parts: seq<string>)
    requires parts != [] && PlainSegment(parts[0])
    ensures var s := Join(parts, '/'); s != ".." && !IsAbs(s) && !Climbs(s)
  {
    var s, head := Join(parts, '/'), parts[0];
    JoinStarts(parts);
    ClimbsByCharacter(s);
    assert forall i :: 0 <= i < |head| ==> s[i] == head[i] && head[i] != '/';
    assert |head| == 2 ==> head == [s[0], s[1]];
    assert |head| == 1 ==> head == [s[0]];
  }
}
