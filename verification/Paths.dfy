/**
 Lexical worktree paths, POSIX branch: normalization and the strict-descendant test, against paths as lists of segments.

 Strings are taken to be in Unicode NFC already.  A path of a Windows flavour is handed to another branch, here
 `Windows`.
 */
module Paths {
  import opened Text

  datatype PathError = Required | TooLong | ControlCharacter | Windows | NotAbsolute | Traversal

  const MAX_PATH_LEN := 4096

  // ---------------------------------------------------------------- segments

  /** `split("/")`. */
  function Split(s: string): (segs: seq<string>)
    ensures |segs| >= 1
    ensures forall i | 0 <= i < |segs| :: '/' !in segs[i]
  {
    if s == "" then [""] else
      var rest := Split(s[1..]);
      if s[0] == '/' then [""] + rest else [[s[0]] + rest[0]] + rest[1..]
  }

  function Join(segs: seq<string>): string {
    if segs == [] then "" else if |segs| == 1 then segs[0] else segs[0] + "/" + Join(segs[1..])
  }

  /** The absolute path of a list of segments. */
  function Render(segs: seq<string>): string {
    "/" + Join(segs)
  }

  /** One step of a walk from the root. */
  function Step(at: seq<string>, seg: string): seq<string> {
    if seg == "" || seg == "." then at
    else if seg == ".." then (if at == [] then [] else at[..|at| - 1])
    else at + [seg]
  }

  /** Where a walk through the segments ends. */
  function Walk(at: seq<string>, segs: seq<string>): seq<string> {
    if segs == [] then at else Step(Walk(at, segs[..|segs| - 1]), segs[|segs| - 1])
  }

  /** The location an absolute path names. */
  function Location(path: string): seq<string> {
    Walk([], Split(path))
  }

  predicate NoControl(s: string) {
    forall i | 0 <= i < |s| :: !IsControl(s[i])
  }

  predicate IsPlain(seg: string) {
    seg != "" && seg != "." && seg != ".." && '/' !in seg && NoControl(seg)
  }

  predicate ArePlain(segs: seq<string>) {
    forall i | 0 <= i < |segs| :: IsPlain(segs[i])
  }

  // ---------------------------------------------------------------- normalization

  predicate IsAlpha(c: char) {
    'a' <= c <= 'z' || 'A' <= c <= 'Z'
  }

  predicate IsWindows(s: string) {
    (|s| >= 2 && s[..2] in {"\\\\", "//"}) || (|s| >= 2 && IsAlpha(s[0]) && s[1] == ':')
  }

  /** `posixpath.normpath` of an absolute path with one leading slash. */
  function NormPath(path: string): string {
    Render(Location(path))
  }

  function Normalize(path: string): Result<string, PathError> {
    var p := Strip(path);
    if p == "" then Err(Required)
    else if |p| > MAX_PATH_LEN then Err(TooLong)
    else if !NoControl(p) then Err(ControlCharacter)
    else if IsWindows(p) then Err(Windows)
    else if p[0] != '/' then Err(NotAbsolute)
    else Ok(NormPath(p))
  }

  /** The loop of `normpath`: it keeps a stack of segments. */
  method CollapseSegments(path: string) returns (normalized: string)
    ensures normalized == NormPath(path)
  {
    var comps, stack := Split(path), [];
    for i := 0 to |comps|
      invariant stack == Walk([], comps[..i])
    {
      assert comps[..i + 1][..i] == comps[..i];
      var comp := comps[i];
      if comp == "" || comp == "." {
        continue;
      }
      if comp != ".." {
        stack := stack + [comp];
      } else if stack != [] {
        stack := stack[..|stack| - 1];
      }
    }
    assert comps[..|comps|] == comps;
    return Render(stack);
  }

  /** A normalized path: the rendering of plain segments, not too long. */
  predicate IsNormal(path: string) {
    ArePlain(Location(path)) && path == Render(Location(path)) && |path| <= MAX_PATH_LEN
  }

  // ---------------------------------------------------------------- split and join

  lemma {:induction false} SplitOfSegment(seg: string, rest: string)
    requires '/' !in seg
    ensures Split(seg) == [seg] && Split(seg + "/" + rest) == [seg] + Split(rest)
  {
    if seg == "" {
      assert (seg + "/" + rest)[1..] == rest;
    } else {
      assert (seg + "/" + rest)[1..] == seg[1..] + "/" + rest;
      SplitOfSegment(seg[1..], rest);
      assert [seg[0]] + seg[1..] == seg;
      assert ([seg[1..]] + Split(rest))[1..] == Split(rest);
    }
  }

  lemma {:induction false} SplitJoin(segs: seq<string>)
    requires segs != [] && forall i | 0 <= i < |segs| :: '/' !in segs[i]
    ensures Split(Join(segs)) == segs
  {
    if |segs| == 1 {
      SplitOfSegment(segs[0], "");
      assert segs == [segs[0]];
    } else {
      SplitJoin(segs[1..]);
      assert segs == [segs[0]] + segs[1..];
      SplitOfSegment(segs[0], Join(segs[1..]));
    }
  }

  lemma SplitRender(segs: seq<string>)
    requires segs != [] && forall i | 0 <= i < |segs| :: '/' !in segs[i]
    ensures Split(Render(segs)) == [""] + segs
  {
    SplitJoin(segs);
    assert Render(segs)[1..] == Join(segs);
  }

  lemma {:induction false} WalkOn(at: seq<string>, a: seq<string>, b: seq<string>)
    ensures Walk(at, a + b) == Walk(Walk(at, a), b)
  {
    if b == [] {
      assert a + b == a;
    } else {
      assert (a + b)[..|a + b| - 1] == a + b[..|b| - 1];
      WalkOn(at, a, b[..|b| - 1]);
    }
  }

  /** Plain segments are walked straight through. */
  lemma {:induction false} WalkPlain(at: seq<string>, segs: seq<string>)
    requires ArePlain(segs)
    ensures Walk(at, segs) == at + segs
  {
    if segs == [] {
      assert at + segs == at;
    } else {
      WalkPlain(at, segs[..|segs| - 1]);
    }
  }

  lemma LocationOfRender(segs: seq<string>)
    requires ArePlain(segs)
    ensures Location(Render(segs)) == segs
  {
    if segs == [] {
      assert "/"[1..] == "";
      assert Split("/") == ["", ""];
      assert Walk([], ["", ""][..1]) == [] by { assert ["", ""][..1][..0] == []; }
    } else {
      SplitRender(segs);
      WalkOn([], [""], segs);
      assert Walk([], [""]) == [] by { assert [""][..0] == []; }
      WalkPlain([], segs);
    }
  }

  // ---------------------------------------------------------------- the walk keeps what is good about its segments

  predicate AreClean(segs: seq<string>) {
    forall i | 0 <= i < |segs| :: '/' !in segs[i] && NoControl(segs[i])
  }

  lemma {:induction false} SplitIsClean(s: string)
    requires NoControl(s)
    ensures AreClean(Split(s))
  {
    if s != "" {
      SplitIsClean(s[1..]);
    }
  }

  lemma {:induction false} WalkIsPlain(segs: seq<string>)
    requires AreClean(segs)
    ensures ArePlain(Walk([], segs))
  {
    if segs != [] {
      WalkIsPlain(segs[..|segs| - 1]);
    }
  }

  /** The characters a list of segments takes, a separator each. */
  function Size(segs: seq<string>): nat {
    if segs == [] then 0 else Size(segs[..|segs| - 1]) + |segs[|segs| - 1]| + 1
  }

  lemma {:induction false} SizeOfConcat(a: seq<string>, b: seq<string>)
    ensures Size(a + b) == Size(a) + Size(b)
  {
    if b == [] {
      assert a + b == a;
    } else {
      assert (a + b)[..|a + b| - 1] == a + b[..|b| - 1];
      SizeOfConcat(a, b[..|b| - 1]);
    }
  }

  lemma SizeOfOne(seg: string)
    ensures Size([seg]) == |seg| + 1
  {
    assert [seg][..0] == [];
  }

  lemma {:induction false} SizeOfSplit(s: string)
    ensures Size(Split(s)) == |s| + 1
  {
    if s == "" {
      SizeOfOne("");
    } else {
      var rest := Split(s[1..]);
      SizeOfSplit(s[1..]);
      if s[0] == '/' {
        SizeOfConcat([""], rest);
        SizeOfOne("");
      } else {
        assert rest == [rest[0]] + rest[1..];
        SizeOfConcat([rest[0]], rest[1..]);
        SizeOfConcat([[s[0]] + rest[0]], rest[1..]);
        SizeOfOne(rest[0]);
        SizeOfOne([s[0]] + rest[0]);
      }
    }
  }

  lemma {:induction false} SizeOfWalk(segs: seq<string>)
    ensures Size(Walk([], segs)) <= Size(segs)
  {
    if segs != [] {
      SizeOfWalk(segs[..|segs| - 1]);
      var before := Walk([], segs[..|segs| - 1]);
      SizeOfConcat(before, [segs[|segs| - 1]]);
      SizeOfOne(segs[|segs| - 1]);
    }
  }

  lemma {:induction false} LengthOfJoin(segs: seq<string>)
    ensures segs != [] ==> |Join(segs)| + 1 == Size(segs)
  {
    if |segs| == 1 {
      SizeOfOne(segs[0]);
      assert segs == [segs[0]];
    } else if |segs| > 1 {
      LengthOfJoin(segs[1..]);
      SizeOfConcat([segs[0]], segs[1..]);
      SizeOfOne(segs[0]);
      assert [segs[0]] + segs[1..] == segs;
    }
  }

  /** Collapsing an absolute path without control characters gives a normalized path, no longer than it was. */
  lemma NormPathIsNormal(p: string)
    requires p != "" && p[0] == '/' && NoControl(p) && |p| <= MAX_PATH_LEN
    ensures IsNormal(NormPath(p)) && Location(NormPath(p)) == Location(p) && |NormPath(p)| <= |p|
  {
    SplitIsClean(p);
    WalkIsPlain(Split(p));
    LocationOfRender(Location(p));
    var rest := Split(p[1..]);
    WalkOn([], [""], rest);
    assert Walk([], [""]) == [] by { assert [""][..0] == []; }
    SizeOfWalk(rest);
    SizeOfSplit(p[1..]);
    LengthOfJoin(Location(p));
  }

  /** A successful normalization is normal, and names the location a walk along the stripped path reaches. */
  lemma NormalizeKeepsLocation(path: string)
    requires Normalize(path).Ok?
    ensures IsNormal(Normalize(path).value) && Location(Normalize(path).value) == Location(Strip(path))
  {
    NormPathIsNormal(Strip(path));
  }

  // ---------------------------------------------------------------- normalizing twice

  predicate EndsInSpace(s: string) {
    s != "" && IsSpace(s[|s| - 1])
  }

  /**
   Where a normalized path ends up when it is normalized again: the strip trims its last segment, and the walk goes on
   from there.
   */
  function Settle(segs: seq<string>): seq<string> {
    if segs == [] then [] else Step(segs[..|segs| - 1], StripRight(segs[|segs| - 1]))
  }

  lemma {:induction false} StripRightOf(s: string, tail: string)
    requires s != "" && !IsSpace(s[|s| - 1])
    ensures StripRight(s + tail) == s + StripRight(tail)
  {
    if tail == "" {
      assert s + tail == s;
    } else {
      assert (s + tail)[..|s + tail| - 1] == s + tail[..|tail| - 1];
      if IsSpace(tail[|tail| - 1]) {
        StripRightOf(s, tail[..|tail| - 1]);
      }
    }
  }

  lemma {:induction false} JoinLast(segs: seq<string>, last: string)
    requires segs != []
    ensures Join(segs + [last]) == Join(segs) + "/" + last
  {
    var all := segs + [last];
    assert all[0] == segs[0] && all[1..] == segs[1..] + [last];
    if |segs| > 1 {
      JoinLast(segs[1..], last);
      assert segs[0] + "/" + (Join(segs[1..]) + "/" + last) == segs[0] + "/" + Join(segs[1..]) + "/" + last;
    } else {
      assert segs[1..] + [last] == [last];
    }
  }

  /** What stands before the last segment of a rendered path. */
  function Stem(init: seq<string>): (stem: string)
    ensures stem != "" && stem[0] == '/' && stem[|stem| - 1] == '/'
  {
    if init == [] then "/" else Render(init) + "/"
  }

  lemma RenderLast(init: seq<string>, last: string)
    ensures Render(init + [last]) == Stem(init) + last
  {
    if init == [] {
      assert init + [last] == [last];
    } else {
      JoinLast(init, last);
    }
  }

  /** Stripping a rendered path trims its last segment only. */
  lemma StripRender(segs: seq<string>)
    requires segs != []
    ensures Strip(Render(segs)) == Render(segs[..|segs| - 1] + [StripRight(segs[|segs| - 1])])
  {
    var init, last := segs[..|segs| - 1], segs[|segs| - 1];
    assert segs == init + [last];
    RenderLast(init, last);
    RenderLast(init, StripRight(last));
    StripRightOf(Stem(init), last);
    assert StripLeft(Render(segs)) == Render(segs);
  }

  lemma RenderIsPosix(segs: seq<string>)
    requires segs != [] && '/' !in segs[0] && (|segs| > 1 ==> segs[0] != "")
    ensures !IsWindows(Render(segs))
  {
    var s := Render(segs);
    if |s| >= 2 {
      assert s[1] == segs[0][0];
      assert s[..2][0] == '/' && s[..2][1] == segs[0][0];
    }
  }

  lemma WalkOne(at: seq<string>, seg: string)
    ensures Walk(at, [seg]) == Step(at, seg)
  {
    assert [seg][..0] == [];
  }

  /** A path of plain segments but for the last one. */
  lemma LocationOfTrimmed(init: seq<string>, last: string)
    requires ArePlain(init) && '/' !in last
    ensures Location(Render(init + [last])) == Step(init, last)
  {
    hide Walk, Render, Split;
    SplitRender(init + [last]);
    WalkOn([], [""], init + [last]);
    WalkOne([], "");
    WalkOn([], init, [last]);
    WalkPlain([], init);
    assert [] + init == init;
    WalkOne(init, last);
  }

  lemma {:induction false} StripRightIsClean(s: string)
    ensures NoControl(s) ==> NoControl(StripRight(s))
    ensures '/' !in s ==> '/' !in StripRight(s)
  {
  }

  lemma NormalizeStripped(path: string, p: string)
    requires p == Strip(path) && p != "" && |p| <= MAX_PATH_LEN && NoControl(p) && !IsWindows(p) && p[0] == '/'
    ensures Normalize(path) == Ok(NormPath(p))
  {
  }

  lemma NormalizeSettles(segs: seq<string>)
    requires ArePlain(segs) && segs != [] && |Render(segs)| <= MAX_PATH_LEN
    ensures Normalize(Render(segs)) == Ok(Render(Settle(segs)))
  {
    var init, last := segs[..|segs| - 1], StripRight(segs[|segs| - 1]);
    StripRightIsClean(segs[|segs| - 1]);
    StripRender(segs);
    LocationOfTrimmed(init, last);
    RenderIsPosix(init + [last]);
    StripKeepsClean(Render(segs)) by { LocationOfRender(segs); }
    NormalizeStripped(Render(segs), Render(init + [last]));
  }

  /** Normalizing a normalized path again succeeds and settles its last segment. */
  lemma NormalizeAgain(path: string)
    requires IsNormal(path)
    ensures Normalize(path) == Ok(Render(Settle(Location(path))))
  {
    if Location(path) == [] {
      NormalOfRoot();
      assert path == "/";
      assert Render([]) == "/";
    } else {
      NormalizeSettles(Location(path));
    }
  }

  lemma StripKeepsClean(path: string)
    requires IsNormal(path)
    ensures Strip(path) != "" && Strip(path)[0] == '/' && NoControl(Strip(path)) && |Strip(path)| <= |path|
  {
    assert StripLeft(path) == path;
    RenderIsClean(Location(path));
    StripRightIsClean(path);
    StripRightOf("/", path[1..]);
    assert "/" + path[1..] == path;
  }

  lemma {:induction false} JoinIsClean(segs: seq<string>)
    requires ArePlain(segs)
    ensures NoControl(Join(segs))
  {
    if |segs| > 1 {
      JoinIsClean(segs[1..]);
    }
  }

  lemma RenderIsClean(segs: seq<string>)
    requires ArePlain(segs)
    ensures NoControl(Render(segs))
  {
    JoinIsClean(segs);
  }

  lemma NormalOfRoot()
    ensures Normalize("/") == Ok("/")
  {
    assert Strip("/") == "/";
    assert "/"[1..] == "";
    assert Split("/") == ["", ""];
    assert ["", ""][..1] == [""] && [""][..0] == [];
    assert Walk([], [""]) == [];
    assert Walk([], ["", ""]) == [];
    assert Render([]) == "/";
  }

  lemma SettleStays(segs: seq<string>)
    requires ArePlain(segs)
    ensures Settle(segs) == segs <==> segs == [] || !EndsInSpace(segs[|segs| - 1])
  {
    if segs != [] {
      var init, last := segs[..|segs| - 1], segs[|segs| - 1];
      assert segs == init + [last];
      if !EndsInSpace(last) {
        assert StripRight(last) == last;
      } else {
        assert StripRight(last) != last;
        assert |Settle(segs)| == |segs| ==> Settle(segs)[|segs| - 1] == StripRight(last);
      }
    }
  }

  lemma EndOfRender(segs: seq<string>)
    requires ArePlain(segs)
    ensures EndsInSpace(Render(segs)) <==> segs != [] && EndsInSpace(segs[|segs| - 1])
  {
    if segs != [] {
      RenderLast(segs[..|segs| - 1], segs[|segs| - 1]);
      assert segs == segs[..|segs| - 1] + [segs[|segs| - 1]];
    }
  }

  /** Normalization is idempotent exactly on the paths whose normal form does not end in whitespace. */
  lemma NormalizeIsIdempotent(path: string)
    requires Normalize(path).Ok?
    ensures Normalize(Normalize(path).value) == Normalize(path) <==> !EndsInSpace(Normalize(path).value)
  {
    NormalizeKeepsLocation(path);
    var n := Normalize(path).value;
    var segs := Location(n);
    NormalizeAgain(n);
    SettleStays(segs);
    EndOfRender(segs);
    SettleIsPlain(segs);
    if Render(Settle(segs)) == n {
      LocationOfRender(Settle(segs));
    }
  }

  lemma SettleIsPlain(segs: seq<string>)
    requires ArePlain(segs)
    ensures ArePlain(Settle(segs))
  {
    if segs != [] {
      StripRightIsClean(segs[|segs| - 1]);
    }
  }

  // ---------------------------------------------------------------- strict descendants

  function RStrip(s: string, c: char): (r: string)
    ensures r <= s
  {
    if s != "" && s[|s| - 1] == c then RStrip(s[..|s| - 1], c) else s
  }

  /** The flavour test of a normalized path: a colon in second place means a drive, whatever precedes it. */
  predicate LooksLikeDrive(path: string) {
    |path| >= 2 && path[1] == ':'
  }

  predicate LooksLikeUnc(path: string) {
    |path| >= 2 && path[..2] == "\\\\"
  }

  datatype Flavour = Posix | Drive | Unc

  function FlavourOf(path: string): Flavour {
    if LooksLikeUnc(path) then Unc else if LooksLikeDrive(path) then Drive else Posix
  }

  predicate IsStrictDescendant(candidate: string, root: string) {
    candidate != root && var sep := if FlavourOf(root).Posix? then '/' else '\\'; RStrip(root, sep) + [sep] <= candidate
  }

  /** Joined prefixes: the segment lists say it all. */
  lemma {:induction false} JoinedPrefix(a: seq<string>, b: seq<string>)
    requires a != [] && b != [] && ArePlain(a) && ArePlain(b)
    ensures Join(a) + "/" <= Join(b) <==> a < b
  {
    if |a| == 1 {
      FirstSegment(a[0], "", b);
      assert a[0] + "/" + "" == Join(a) + "/";
      assert a < b <==> |b| > 1 && a[0] == b[0];
    } else {
      FirstSegment(a[0], Join(a[1..]) + "/", b);
      assert a[0] + "/" + (Join(a[1..]) + "/") == Join(a) + "/";
      if |b| > 1 {
        JoinedPrefix(a[1..], b[1..]);
        assert a < b <==> a[0] == b[0] && a[1..] < b[1..] by {
          assert a == [a[0]] + a[1..] && b == [b[0]] + b[1..];
        }
      }
    }
  }

  lemma PrefixAt(t: string, s: string, i: nat)
    requires i < |t|
    ensures t <= s ==> i < |s| && s[i] == t[i]
  {
  }

  /** Up to its first separator, a text is its first segment. */
  lemma {:induction false} SameFirst(a: string, x: string, b: string, y: string)
    requires '/' !in a && '/' !in b && a + "/" + x <= b + "/" + y
    ensures a == b && x <= y
  {
    PrefixAt(a + "/" + x, b + "/" + y, 0);
    if a != "" && b != "" {
      assert a + "/" + x == [a[0]] + (a[1..] + "/" + x) && b + "/" + y == [b[0]] + (b[1..] + "/" + y);
      PrefixUnderStem([a[0]], a[1..] + "/" + x, b[1..] + "/" + y);
      SameFirst(a[1..], x, b[1..], y);
    } else if a == "" && b == "" {
      assert "" + "/" + x == "/" + x && "" + "/" + y == "/" + y;
      PrefixUnderStem("/", x, y);
    }
  }

  /**
   A text that starts with a whole segment starts a joined path exactly if that is the first segment and the rest goes
   on.
   */
  lemma FirstSegment(seg: string, rest: string, b: seq<string>)
    requires IsPlain(seg) && b != [] && ArePlain(b)
    ensures seg + "/" + rest <= Join(b) <==> |b| > 1 && b[0] == seg && rest <= Join(b[1..])
  {
    PrefixAt(seg + "/" + rest, Join(b), |seg|);
    if |b| > 1 {
      if seg + "/" + rest <= Join(b) {
        SameFirst(seg, rest, b[0], Join(b[1..]));
      }
      if b[0] == seg {
        PrefixUnderStem(seg + "/", rest, Join(b[1..]));
        assert seg + "/" + rest == (seg + "/") + rest && Join(b) == (seg + "/") + Join(b[1..]);
      }
    }
  }

  lemma PrefixUnderStem(stem: string, a: string, b: string)
    ensures stem + a <= stem + b <==> a <= b
  {
    if stem + a <= stem + b {
      assert a == (stem + a)[|stem|..] && b == (stem + b)[|stem|..];
      assert forall i | 0 <= i < |a| :: a[i] == (stem + a)[|stem| + i] == (stem + b)[|stem| + i] == b[i];
    }
  }

  lemma RenderEnd(segs: seq<string>)
    requires ArePlain(segs) && segs != []
    ensures Render(segs)[|Render(segs)| - 1] == segs[|segs| - 1][|segs[|segs| - 1]| - 1] != '/'
  {
    assert segs == segs[..|segs| - 1] + [segs[|segs| - 1]];
    RenderLast(segs[..|segs| - 1], segs[|segs| - 1]);
  }

  /** The prefix test of a POSIX root, as text. */
  lemma DescendantAsText(c: string, r: string)
    requires IsNormal(r) && !LooksLikeDrive(r)
    ensures IsStrictDescendant(c, r) <==> c != r && (if Location(r) == [] then "/" else r + "/") <= c
  {
    assert |r| >= 2 ==> r[..2][0] == '/';
    if Location(r) == [] {
      assert r == "/";
      assert RStrip("/", '/') == "";
    } else {
      RenderEnd(Location(r));
      assert RStrip(r, '/') == r;
    }
  }

  /**
   On a normalized POSIX root, the textual test is the segment test: the root's segments are a proper prefix of the
   candidate's.
   */
  lemma ContainmentIsSegments(c: string, r: string)
    requires IsNormal(c) && IsNormal(r) && !LooksLikeDrive(r)
    ensures IsStrictDescendant(c, r) <==> Location(r) < Location(c)
  {
    DescendantAsText(c, r);
    var a, b := Location(r), Location(c);
    if a == [] {
      assert r == "/";
      assert c == "/" <==> b == [];
    } else if b == [] {
      assert c == "/";
    } else {
      JoinedPrefix(a, b);
      assert r + "/" == "/" + (Join(a) + "/");
      PrefixUnderStem("/", Join(a) + "/", Join(b));
      PrefixAt(r + "/", c, |r|);
    }
  }

  lemma ColonFlavour(r: string)
    requires IsNormal(r) && LooksLikeDrive(r)
    ensures FlavourOf(r) == Drive && Location(r) != []
  {
    assert r[..2][0] == '/';
  }

  lemma LongerIsPlain(seg: string)
    requires IsPlain(seg)
    ensures IsPlain(seg + "x") && seg + "x" != seg
  {
    assert |seg + "x"| >= 2 && (seg + "x")[|seg|] == 'x';
  }

  lemma GrownLast(segs: seq<string>)
    requires ArePlain(segs) && segs != []
    ensures var next := segs[..|segs| - 1] + [segs[|segs| - 1] + "x"];
            ArePlain(next) && Render(next) == Render(segs) + "x" && !(segs < next)
  {
    var init, last := segs[..|segs| - 1], segs[|segs| - 1];
    var next := init + [last + "x"];
    assert segs == init + [last];
    RenderLast(init, last);
    RenderLast(init, last + "x");
    assert Stem(init) + (last + "x") == Stem(init) + last + "x";
    LongerIsPlain(last);
    assert |next| == |segs|;
  }

  /** After a backslash, another file of the same directory passes for a descendant. */
  lemma BackslashColonRoot(r: string)
    requires IsNormal(r) && LooksLikeDrive(r) && |r| + 1 <= MAX_PATH_LEN && r[|r| - 1] == '\\'
    ensures IsNormal(r + "x") && IsStrictDescendant(r + "x", r) && !(Location(r) < Location(r + "x"))
  {
    ColonFlavour(r);
    var segs := Location(r);
    GrownLast(segs);
    LocationOfRender(segs[..|segs| - 1] + [segs[|segs| - 1] + "x"]);
    RStripDrops(r, '\\');
    hide Location, Render, RStrip;
  }

  /** Without one, a true descendant is missed. */
  lemma PlainColonRoot(r: string)
    requires IsNormal(r) && LooksLikeDrive(r) && |r| + 2 <= MAX_PATH_LEN && r[|r| - 1] != '\\'
    ensures IsNormal(r + "/x") && !IsStrictDescendant(r + "/x", r) && Location(r) < Location(r + "/x")
  {
    ColonFlavour(r);
    var segs := Location(r);
    RenderLast(segs, "x");
    assert IsPlain("x");
    LocationOfRender(segs + ["x"]);
    assert r + "/x" == r + "/" + "x";
    PrefixAt(r + "\\", r + "/x", |r|);
  }

  /** A root whose first segment starts with a colon is taken for a drive, and some path is then misjudged. */
  lemma ColonRootMisjudges(r: string) returns (c: string)
    requires IsNormal(r) && LooksLikeDrive(r) && |r| + 2 <= MAX_PATH_LEN
    ensures IsNormal(c) && !(IsStrictDescendant(c, r) <==> Location(r) < Location(c))
  {
    if r[|r| - 1] == '\\' {
      BackslashColonRoot(r);
      c := r + "x";
    } else {
      PlainColonRoot(r);
      c := r + "/x";
    }
  }

  lemma {:induction false} RStripDrops(s: string, c: char)
    requires s != "" && s[|s| - 1] == c
    ensures RStrip(s, c) + [c] <= s
  {
    var t := s[..|s| - 1];
    if t != "" && t[|t| - 1] == c {
      RStripDrops(t, c);
    } else {
      assert RStrip(s, c) == t;
      assert t + [c] == s;
    }
  }

  /**
   The textual test is the segment test for every candidate exactly if the root's first segment does not start with a
   colon.
   */
  lemma ContainmentExact(r: string)
    requires IsNormal(r) && |r| + 2 <= MAX_PATH_LEN
    ensures (forall c | IsNormal(c) :: IsStrictDescendant(c, r) <==> Location(r) < Location(c)) <==> !LooksLikeDrive(r)
  {
    if LooksLikeDrive(r) {
      var c := ColonRootMisjudges(r);
    } else {
      forall c | IsNormal(c) ensures IsStrictDescendant(c, r) <==> Location(r) < Location(c) {
        ContainmentIsSegments(c, r);
      }
    }
  }

  // ---------------------------------------------------------------- descendants of any root, by segments

  predicate StartsWithColon(segs: seq<string>) {
    segs != [] && ":" <= segs[0]
  }

  /**
   What the descendant test means by segments.  Under a root whose first segment starts with a colon the separator is
   taken to be a backslash: the last segment of such a root, closed by one backslash, must start the candidate's segment
   there.
   */
  predicate Beneath(root: seq<string>, segs: seq<string>) {
    if !StartsWithColon(root) then root < segs else
      var k := |root| - 1;
      k < |segs| && segs != root && segs[..k] == root[..k] && RStrip(root[k], '\\') + "\\" <= segs[k]
  }

  /** A list of whole segments and a part of the next one, as text. */
  function Started(init: seq<string>, part: string): string {
    if init == [] then part else Join(init) + "/" + part
  }

  lemma PartOfFirst(part: string, seg: string, rest: string)
    requires '/' !in part
    ensures part <= seg + "/" + rest <==> part <= seg
  {
    assert seg + "/" + rest == seg + ("/" + rest);
    assert |part| > |seg| ==> part[|seg|] != (seg + "/" + rest)[|seg|];
  }

  lemma StartedFirst(seg: string, init: seq<string>, part: string)
    ensures Started([seg] + init, part) == seg + "/" + Started(init, part)
  {
    assert ([seg] + init)[1..] == init;
    if init != [] {
      assert seg + "/" + Join(init) + "/" + part == seg + "/" + (Join(init) + "/" + part);
    }
  }

  lemma PrefixOfRest(seg: string, init: seq<string>, b: seq<string>)
    requires |b| > 0 && |init| + 1 < |b|
    ensures b[..|init| + 1] == [seg] + init <==> b[0] == seg && b[1..][..|init|] == init
  {
    assert b[..|init| + 1] == [b[0]] + b[1..][..|init|];
    if b[..|init| + 1] == [seg] + init {
      assert ([seg] + init)[0] == seg && ([seg] + init)[1..] == init;
    }
  }

  lemma {:induction false} StartedPrefix(init: seq<string>, part: string, b: seq<string>)
    requires ArePlain(init) && ArePlain(b) && '/' !in part && part != ""
    ensures Started(init, part) <= Join(b) <==> |init| < |b| && b[..|init|] == init && part <= b[|init|]
  {
    hide IsPlain;
    if b == [] {
    } else if init == [] {
      if |b| > 1 {
        PartOfFirst(part, b[0], Join(b[1..]));
      }
    } else {
      hide Join, Started;
      var rest := init[1..];
      assert init == [init[0]] + rest;
      StartedFirst(init[0], rest, part);
      FirstSegment(init[0], Started(rest, part), b);
      if |b| > 1 {
        StartedPrefix(rest, part, b[1..]);
        if |init| < |b| {
          PrefixOfRest(init[0], rest, b);
        }
      }
    }
  }

  lemma {:induction false} RStripOf(s: string, tail: string, c: char)
    requires s != "" && s[|s| - 1] != c
    ensures RStrip(s + tail, c) == s + RStrip(tail, c)
  {
    if tail == "" {
      assert s + tail == s;
    } else {
      assert (s + tail)[..|s + tail| - 1] == s + tail[..|tail| - 1];
      if tail[|tail| - 1] == c {
        RStripOf(s, tail[..|tail| - 1], c);
      }
    }
  }

  lemma ColonIsDrive(segs: seq<string>)
    requires ArePlain(segs)
    ensures LooksLikeDrive(Render(segs)) <==> StartsWithColon(segs)
  {
    if segs != [] {
      assert Render(segs)[1] == segs[0][0];
    }
  }

  /** The prefix test of a root taken for a drive, by segments. */
  lemma DriveTest(init: seq<string>, last: string, b: seq<string>)
    requires ArePlain(init) && IsPlain(last) && ArePlain(b)
    ensures RStrip(Render(init + [last]), '\\') + "\\" <= Render(b) <==>
              |init| < |b| && b[..|init|] == init && RStrip(last, '\\') + "\\" <= b[|init|]
  {
    hide IsPlain, Render, RStrip;
    var part := RStrip(last, '\\') + "\\";
    RenderLast(init, last);
    RStripOf(Stem(init), last, '\\');
    assert '/' !in part by { hide *; assert IsPlain(last) ==> '/' !in last by { NoSlash(last); } }
    StartedPrefix(init, part, b);
    StemStarts(init, part);
    assert Render(b) == "/" + Join(b) by { RenderText(b); }
    PrefixUnderStem("/", Started(init, part), Join(b));
    assert Stem(init) + RStrip(last, '\\') + "\\" == Stem(init) + part;
  }

  lemma NoSlash(seg: string)
    requires IsPlain(seg)
    ensures '/' !in seg
  {
  }

  lemma RenderText(segs: seq<string>)
    ensures Render(segs) == "/" + Join(segs)
  {
  }

  lemma StemStarts(init: seq<string>, part: string)
    ensures Stem(init) + part == "/" + Started(init, part)
  {
    if init != [] {
      assert Stem(init) + part == "/" + (Join(init) + "/" + part);
    }
  }

  /** On normalized POSIX paths, colons or not, the textual test is the segment test. */
  lemma DescendantIsBeneath(c: string, r: string)
    requires IsNormal(c) && IsNormal(r)
    ensures IsStrictDescendant(c, r) <==> Beneath(Location(r), Location(c))
  {
    var a, b := Location(r), Location(c);
    ColonIsDrive(a);
    if StartsWithColon(a) {
      ColonFlavour(r);
      var init, last := a[..|a| - 1], a[|a| - 1];
      assert a == init + [last];
      DriveTest(init, last, b);
      hide Location, Render, RStrip;
      assert RStrip(r, '\\') + ['\\'] == RStrip(r, '\\') + "\\";
    } else {
      ContainmentIsSegments(c, r);
    }
  }
}
